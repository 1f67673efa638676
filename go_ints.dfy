/** Fixed-width Go integer types and the Go arithmetic the model needs:
    int64 wrap-around on overflow and the
    modular conversions between widths. */
module GoInts {

  const TWO_32: int := 0x1_0000_0000
  const TWO_63: int := 0x8000_0000_0000_0000
  const TWO_64: int := 0x1_0000_0000_0000_0000
  const MAX_INT64: int := TWO_63 - 1

  type uint16 = x: int | 0 <= x < 0x1_0000
  type uint32 = x: int | 0 <= x < TWO_32
  type uint64 = x: int | 0 <= x < TWO_64
  type int64 = x: int | -TWO_63 <= x < TWO_63
  type int32 = x: int | -0x8000_0000 <= x < 0x8000_0000
  type byte = x: int | 0 <= x < 0x100

  function Pow2(k: nat): (p: nat)
    ensures p >= 1
  {
    if k == 0 then 1 else 2 * Pow2(k - 1)
  }

  /** Bitwise OR of two non-negative integers, bit by bit from the least significant. */
  function BitOr(a: nat, b: nat): nat
    decreases a + b
  {
    if a == 0 then b
    else if b == 0 then a
    else (if a % 2 == 1 || b % 2 == 1 then 1 else 0) + 2 * BitOr(a / 2, b / 2)
  }

  /** OR of a value shifted left by k bits with one that fits in k bits is their sum: the high
      part keeps the first and the low part keeps the second. */
  lemma {:induction false} BitOrDisjoint(h: nat, b: nat, k: nat)
    requires b < Pow2(k)
    ensures BitOr(h * Pow2(k), b) == h * Pow2(k) + b
    decreases k
  {
    if k > 0 && b != 0 {
      var p := Pow2(k - 1);
      var x := h * p;
      assert h * Pow2(k) == 2 * x by {
        assert Pow2(k) == 2 * p;
      }
      if x != 0 {
        assert (2 * x) % 2 == 0 && (2 * x) / 2 == x;
        BitOrDisjoint(h, b / 2, k - 1);
      }
    }
  }

  /** Two's complement reduction of a mathematical integer to int64, as Go's
      int64 arithmetic does on overflow. */
  function WrapInt64(x: int): (r: int64)
    ensures (r - x) % TWO_64 == 0
    ensures -TWO_63 <= x < TWO_63 ==> r == x
  {
    (x + TWO_63) % TWO_64 - TWO_63
  }

  /** Go conversion `uint64(x)` of a signed value: reduction modulo 2^64. */
  function ToUint64(x: int): (r: uint64)
    ensures (r - x) % TWO_64 == 0
    ensures 0 <= x < TWO_64 ==> r == x
  {
    x % TWO_64
  }

  /** Go conversion `uint32(x)`: reduction modulo 2^32. */
  function ToUint32(x: int): (r: uint32)
    ensures (r - x) % TWO_32 == 0
    ensures 0 <= x < TWO_32 ==> r == x
  {
    x % TWO_32
  }
}
