/** The part of Go's strconv package the core relies on: rendering an integer in base 8 or 10
    (FormatInt, FormatUint, Itoa, and the `%d` verb of fmt.Sprintf) and ParseUint. */
module Strconv {

  predicate IsDigit(c: char, base: nat) {
    '0' <= c <= '9' && (c as int) - ('0' as int) < base
  }

  predicate AllDigits(s: string, base: nat) {
    forall i :: 0 <= i < |s| ==> IsDigit(s[i], base)
  }

  function DigitValue(c: char): nat
    requires '0' <= c <= '9'
  {
    (c as int) - ('0' as int)
  }

  function DigitChar(d: nat): (c: char)
    requires d < 10
    ensures '0' <= c <= '9' && DigitValue(c) == d
  {
    (('0' as int) + d) as char
  }

  /** Euclidean division facts for the small bases used here, by cases on the base so that the
      solver only meets division by a constant. */
  lemma DivModBase(n: nat, base: nat)
    requires 2 <= base <= 10
    ensures n == (n / base) * base + n % base && 0 <= n % base < base
    ensures n >= base ==> 1 <= n / base < n
  {
    if base == 2 {} else if base == 3 {} else if base == 4 {} else if base == 5 {}
    else if base == 6 {} else if base == 7 {} else if base == 8 {} else if base == 9 {}
    else {}
  }

  /** strconv.FormatUint: the digits of `n`, most significant first, without leading zeros. */
  function FormatUint(n: nat, base: nat): (s: string)
    requires 2 <= base <= 10
    ensures |s| >= 1 && AllDigits(s, base)
    ensures |s| > 1 ==> s[0] != '0'
    ensures n == 0 <==> s == "0"
    decreases n
  {
    if n < base then [DigitChar(n)]
    else
      DivModBase(n, base);
      FormatUint(n / base, base) + [DigitChar(n % base)]
  }

  /** strconv.FormatInt: a leading '-' for negative values. */
  function FormatInt(n: int, base: nat): (s: string)
    requires 2 <= base <= 10
    ensures n >= 0 ==> s == FormatUint(n, base)
    ensures n < 0 ==> s == "-" + FormatUint(-n, base)
  {
    if n < 0 then "-" + FormatUint(-n, base) else FormatUint(n, base)
  }

  /** The value of a digit string read left to right, starting from the running value `acc`. */
  function Horner(acc: nat, s: string, base: nat): nat
    requires 2 <= base <= 10 && AllDigits(s, base)
    decreases |s|
  {
    if s == [] then acc else Horner(acc * base + DigitValue(s[0]), s[1..], base)
  }

  /** The number a digit string denotes. */
  function ValueOf(s: string, base: nat): nat
    requires 2 <= base <= 10 && AllDigits(s, base)
  {
    Horner(0, s, base)
  }

  /** strconv.ParseUint(s, base, bitSize) keeping only the value, as the core does (`v, _ :=`):
      digits are consumed left to right and the first error decides the value; an empty string
      or a character that is not a digit of `base` is a syntax error and gives 0; a running value
      above `maxVal` (2^bitSize - 1) is a range error and gives `maxVal`. */
  function ParseUint(s: string, base: nat, maxVal: nat): (r: nat)
    requires 2 <= base <= 10
    ensures r <= maxVal
  {
    if s == [] then 0 else ParseFrom(0, s, base, maxVal)
  }

  function ParseFrom(acc: nat, s: string, base: nat, maxVal: nat): (r: nat)
    requires 2 <= base <= 10 && acc <= maxVal
    ensures r <= maxVal
    decreases |s|
  {
    if s == [] then acc
    else if !IsDigit(s[0], base) then 0
    else
      var n := acc * base + DigitValue(s[0]);
      if n > maxVal then maxVal else ParseFrom(n, s[1..], base, maxVal)
  }

  lemma {:induction false} HornerSnoc(acc: nat, s: string, c: char, base: nat)
    requires 2 <= base <= 10 && AllDigits(s, base) && IsDigit(c, base)
    ensures AllDigits(s + [c], base)
    ensures Horner(acc, s + [c], base) == Horner(acc, s, base) * base + DigitValue(c)
    decreases |s|
  {
    assert AllDigits(s + [c], base);
    if s != [] {
      assert (s + [c])[1..] == s[1..] + [c];
      HornerSnoc(acc * base + DigitValue(s[0]), s[1..], c, base);
    }
  }

  lemma {:induction false} HornerGrows(acc: nat, s: string, base: nat)
    requires 2 <= base <= 10 && AllDigits(s, base)
    ensures Horner(acc, s, base) >= acc
    decreases |s|
  {
    if s != [] {
      assert acc * base >= acc;
      HornerGrows(acc * base + DigitValue(s[0]), s[1..], base);
    }
  }

  /** Reading back what FormatUint wrote gives the number again. */
  lemma {:induction false} FormatUintRoundTrip(n: nat, base: nat)
    requires 2 <= base <= 10
    ensures ValueOf(FormatUint(n, base), base) == n
  {
    if n >= base {
      DivModBase(n, base);
      var q, d := n / base, DigitChar(n % base);
      var front := FormatUint(q, base);
      assert FormatUint(n, base) == front + [d];
      FormatUintRoundTrip(q, base);
      HornerSnoc(0, front, d, base);
      calc {
        ValueOf(FormatUint(n, base), base);
        Horner(0, front + [d], base);
        Horner(0, front, base) * base + DigitValue(d);
        q * base + n % base;
        n;
      }
    } else {
      var s := FormatUint(n, base);
      assert s[1..] == [];
      assert Horner(0, s, base) == Horner(n, [], base);
    }
  }

  /** ParseUint agrees with the digits' value whenever no error can occur. */
  lemma {:induction false} ParseFromDigits(acc: nat, s: string, base: nat, maxVal: nat)
    requires 2 <= base <= 10 && AllDigits(s, base) && acc <= maxVal
    requires Horner(acc, s, base) <= maxVal
    ensures ParseFrom(acc, s, base, maxVal) == Horner(acc, s, base)
    decreases |s|
  {
    if s != [] {
      var n := acc * base + DigitValue(s[0]);
      HornerGrows(n, s[1..], base);
      ParseFromDigits(n, s[1..], base, maxVal);
    }
  }

  lemma ParseUintDigits(s: string, base: nat, maxVal: nat)
    requires 2 <= base <= 10 && s != [] && AllDigits(s, base) && ValueOf(s, base) <= maxVal
    ensures ParseUint(s, base, maxVal) == ValueOf(s, base)
  {
    ParseFromDigits(0, s, base, maxVal);
  }

  /** ParseUint meets a character that is not a digit at index k, before the running value
      exceeds `maxVal`. */
  predicate SyntaxErrorAt(s: string, k: int, base: nat, maxVal: nat)
    requires 2 <= base <= 10
  {
    0 <= k < |s| && AllDigits(s[..k], base) && !IsDigit(s[k], base) && ValueOf(s[..k], base) <= maxVal
  }

  /** The first k characters of s are digits whose value exceeds `maxVal`. */
  predicate OverflowAt(s: string, k: int, base: nat, maxVal: nat)
    requires 2 <= base <= 10
  {
    0 < k <= |s| && AllDigits(s[..k], base) && ValueOf(s[..k], base) > maxVal
  }

  /** A character that is not a digit, met before the running value overflows, is a syntax
      error: the parse gives 0. */
  lemma {:induction false} ParseFromSyntax(acc: nat, p: string, c: char, rest: string, base: nat, maxVal: nat)
    requires 2 <= base <= 10 && AllDigits(p, base) && !IsDigit(c, base) && acc <= maxVal
    requires Horner(acc, p, base) <= maxVal
    ensures ParseFrom(acc, p + [c] + rest, base, maxVal) == 0
    decreases |p|
  {
    if p != [] {
      var n := acc * base + DigitValue(p[0]);
      HornerGrows(n, p[1..], base);
      assert (p + [c] + rest)[1..] == p[1..] + [c] + rest;
      ParseFromSyntax(n, p[1..], c, rest, base, maxVal);
    }
  }

  /** A digit prefix whose value exceeds `maxVal` is a range error: the parse gives `maxVal`,
      whatever follows the prefix. */
  lemma {:induction false} ParseFromRange(acc: nat, p: string, rest: string, base: nat, maxVal: nat)
    requires 2 <= base <= 10 && AllDigits(p, base) && acc <= maxVal
    requires Horner(acc, p, base) > maxVal
    ensures ParseFrom(acc, p + rest, base, maxVal) == maxVal
    decreases |p|
  {
    var n := acc * base + DigitValue(p[0]);
    if n <= maxVal {
      assert (p + rest)[1..] == p[1..] + rest;
      ParseFromRange(n, p[1..], rest, base, maxVal);
    }
  }

  /** Formatting then parsing in the same base is the identity within the parser's range. */
  lemma FormatThenParse(n: nat, base: nat, maxVal: nat)
    requires 2 <= base <= 10 && n <= maxVal
    ensures ParseUint(FormatUint(n, base), base, maxVal) == n
  {
    FormatUintRoundTrip(n, base);
    ParseUintDigits(FormatUint(n, base), base, maxVal);
  }
}
