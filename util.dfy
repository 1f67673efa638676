/** Path and number helpers of the filesystem (fs/util/util.go): splitting an absolute path into
    its parent directory and file name, joining them again, rendering a permission mode in octal
    and converting between milliseconds and nanoseconds. */
module Util {
  import opened GoInts
  import opened Strconv

  /** strings.TrimRight(s, cutset) for a one-character cutset: drop every trailing `c`. */
  function TrimRight(s: string, c: char): (r: string)
    ensures |r| <= |s| && r == s[..|r|]
    ensures r == [] || r[|r| - 1] != c
    ensures forall i :: |r| <= i < |s| ==> s[i] == c
    decreases |s|
  {
    if s != [] && s[|s| - 1] == c then TrimRight(s[..|s| - 1], c) else s
  }

  /** strings.LastIndex(s, sep) for a one-character separator: the last position of `c`, or -1. */
  function LastIndex(s: string, c: char): (i: int)
    ensures -1 <= i < |s|
    ensures i >= 0 ==> s[i] == c
    ensures forall j :: i < j < |s| ==> s[j] != c
    decreases |s|
  {
    if s == [] then -1
    else if s[|s| - 1] == c then |s| - 1
    else LastIndex(s[..|s| - 1], c)
  }

  /** The directory holding `path`, always ending in '/'; "/" when the (trailing-slash-stripped)
      path has no '/' after its first character. */
  function GetParentPath(path: string): (r: string)
    ensures |r| >= 1 && r[|r| - 1] == '/'
    ensures r == "/" || (|r| < |path| && r == path[..|r|])
  {
    var p := TrimRight(path, '/');
    var i := LastIndex(p, '/');
    if i > 0 then p[..i + 1] else "/"
  }

  /** The last component of `path` (trailing slashes ignored); never contains '/'. */
  function GetFileName(path: string): (r: string)
    ensures '/' !in r
    ensures |r| <= |path|
  {
    var p := TrimRight(path, '/');
    var i := LastIndex(p, '/');
    if i >= 0 then p[i + 1..] else p
  }

  /** Joins a directory and a name, adding a '/' only when the directory is non-empty and does
      not already end in one. */
  function MergePath(parent: string, file: string): (r: string)
    ensures |r| >= |parent| + |file| && r[..|parent|] == parent && r[|r| - |file|..] == file
    ensures |r| == |parent| + |file| + (if parent != "" && parent[|parent| - 1] != '/' then 1 else 0)
    ensures |r| > |parent| + |file| ==> r[|parent|] == '/'
  {
    if parent != "" && parent[|parent| - 1] != '/' then parent + "/" + file else parent + file
  }

  /** The low ten bits of `mode` (`mode & 0o1777`; on an unsigned value that mask is the
      remainder modulo 2^10) in octal without leading zeros, e.g. 0o100644 -> "644". */
  function ModeToStr(mode: uint32): (s: string)
    ensures AllDigits(s, 8) && |s| >= 1
    ensures ValueOf(s, 8) == mode % 1024
    ensures ParseUint(s, 8, 0xFFFF) == mode % 1024
  {
    var m := mode % 1024;
    FormatUintRoundTrip(m, 8);
    FormatThenParse(m, 8, 0xFFFF);
    FormatUint(m, 8)
  }

  const NS_PER_MS: int := 1_000_000
  /** The largest millisecond count whose nanosecond value still fits in an int64. */
  const MAX_MS: int := MAX_INT64 / NS_PER_MS

  /** Nanoseconds to milliseconds with Go's `/`, which truncates toward zero. */
  function NsToMs(ns: int64): (ms: int64)
    ensures ns >= 0 ==> 0 <= ms * NS_PER_MS <= ns < ms * NS_PER_MS + NS_PER_MS
    ensures ns < 0 ==> ms * NS_PER_MS - NS_PER_MS < ns <= ms * NS_PER_MS <= 0
  {
    var n: int := ns;
    if n >= 0 then n / NS_PER_MS else -((-n) / NS_PER_MS)
  }

  /** Milliseconds to nanoseconds with int64 multiplication, which wraps on overflow. */
  function MsToNs(ms: int64): (ns: int64)
    ensures -MAX_MS <= ms <= MAX_MS ==> ns == ms * NS_PER_MS
  {
    WrapInt64(ms * NS_PER_MS)
  }

  /** Converting to nanoseconds and back is lossless wherever the product fits. */
  lemma MsNsRoundTrip(ms: int64)
    requires -MAX_MS <= ms <= MAX_MS
    ensures NsToMs(MsToNs(ms)) == ms
  {
  }

  /** Rescaling twice is not rescaling once: a nonzero millisecond value small enough for both
      products to fit is moved again by a second conversion. */
  lemma MsToNsNotIdempotent(ms: int64)
    requires ms != 0 && -9_223_372 <= ms <= 9_223_372
    ensures MsToNs(MsToNs(ms)) == ms * NS_PER_MS * NS_PER_MS
    ensures MsToNs(MsToNs(ms)) != MsToNs(ms)
  {
  }

  /** A path that contains a '/' and does not end in one is its parent joined with its name. */
  lemma SplitThenMerge(path: string)
    requires '/' in path && path[|path| - 1] != '/'
    ensures MergePath(GetParentPath(path), GetFileName(path)) == path
  {
    var p := TrimRight(path, '/');
    assert p == path;
    var i := LastIndex(p, '/');
    assert i >= 0;
    assert GetParentPath(path) == path[..i + 1];
    assert GetFileName(path) == path[i + 1..];
    assert path[..i + 1] + path[i + 1..] == path;
  }

  /** Joining a directory with a plain name and splitting again gives the name back, and the
      directory with exactly one trailing '/' ("/" for the empty directory). */
  lemma MergeThenSplit(parent: string, name: string)
    requires name != "" && '/' !in name
    ensures GetFileName(MergePath(parent, name)) == name
    ensures GetParentPath(MergePath(parent, name)) ==
      if parent == "" then "/"
      else if parent[|parent| - 1] == '/' then parent
      else parent + "/"
  {
    var r := MergePath(parent, name);
    var k := |r| - |name|;
    assert r[k..] == name;
    forall j | k <= j < |r|
      ensures r[j] != '/'
    {
      assert r[j] == name[j - k] && name[j - k] in name;
    }
    assert TrimRight(r, '/') == r;
    var i := LastIndex(r, '/');
    if parent == "" {
      assert r == name;
    } else {
      assert r[k - 1] == '/';
      assert i == k - 1;
      assert r[..k] == if parent[|parent| - 1] == '/' then parent else parent + "/";
    }
  }
}
