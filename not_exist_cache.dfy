/** The negative-lookup cache (fs/cache/cache.go): paths recently found absent, each with an
    expiry time in nanoseconds. An entry is evicted lazily by the first check that finds it
    expired. Time is the caller's `now` (Unix nanoseconds). */
module NegativeCache {
  import opened GoInts

  const NS_PER_SECOND: int := 1_000_000_000

  datatype NotExistFile = NotExistFile(name: string, negativeTime: int64)

  /** isNegative: the entry still vouches for absence iff its expiry is strictly after `now`. */
  predicate IsNegative(file: NotExistFile, now: int64) {
    file.negativeTime > now
  }

  /** The expiry Insert stores: `now + int64(timeout) * 1e9` in int64 arithmetic. */
  function ExpiryFor(now: int64, timeout: int64): (e: int64)
    ensures -TWO_63 <= timeout * NS_PER_SECOND < TWO_63 && -TWO_63 <= now + timeout * NS_PER_SECOND < TWO_63
      ==> e == now + timeout * NS_PER_SECOND
  {
    WrapInt64(now + WrapInt64(timeout * NS_PER_SECOND))
  }

  /** The answer of IsNotExist: true ("not cached, ask the remote store") when there is no entry
      or the entry has expired; false while the entry is still negative. */
  predicate NotCached(dict: map<string, NotExistFile>, path: string, now: int64) {
    !(path in dict && IsNegative(dict[path], now))
  }

  /** The dictionary after IsNotExist: an expired entry for `path` is removed, nothing else. */
  function AfterCheck(dict: map<string, NotExistFile>, path: string, now: int64): map<string, NotExistFile> {
    if path in dict && !IsNegative(dict[path], now) then dict - {path} else dict
  }

  /** What the dispatchers do to the cache. */
  datatype CacheOp =
    | Put(path: string, timeout: int64, at: int64)
    | Drop(path: string)
    | Check(path: string, at: int64)

  function Step(dict: map<string, NotExistFile>, op: CacheOp): map<string, NotExistFile> {
    match op
    case Put(p, t, at) => dict[p := NotExistFile(p, ExpiryFor(at, t))]
    case Drop(p) => dict - {p}
    case Check(p, at) => AfterCheck(dict, p, at)
  }

  function Run(dict: map<string, NotExistFile>, ops: seq<CacheOp>): map<string, NotExistFile>
    decreases |ops|
  {
    if ops == [] then dict else Run(Step(dict, ops[0]), ops[1..])
  }

  lemma {:induction false} OthersKeepEntry(dict: map<string, NotExistFile>, path: string, ops: seq<CacheOp>)
    requires path in dict
    requires forall k :: 0 <= k < |ops| ==> ops[k].path != path
    ensures path in Run(dict, ops) && Run(dict, ops)[path] == dict[path]
    decreases |ops|
  {
    if ops != [] {
      OthersKeepEntry(Step(dict, ops[0]), path, ops[1..]);
    }
  }

  /** The TTL law. After Insert(p, t) at time t0, and any operations on other paths, a check of p
      at time `now` answers "cached as absent" (false) exactly while now < t0 + t seconds, and a
      check that answers true has evicted p. */
  lemma TtlLaw(dict: map<string, NotExistFile>, p: string, t: int64, t0: int64, ops: seq<CacheOp>, now: int64)
    requires 0 <= t && -TWO_63 <= t0 + t * NS_PER_SECOND < TWO_63
    requires forall k :: 0 <= k < |ops| ==> ops[k].path != p
    ensures var d := Run(dict, [Put(p, t, t0)] + ops);
      && (NotCached(d, p, now) <==> now >= t0 + t * NS_PER_SECOND)
      && (NotCached(d, p, now) ==> p !in AfterCheck(d, p, now))
      && (!NotCached(d, p, now) ==> AfterCheck(d, p, now) == d)
  {
    assert ([Put(p, t, t0)] + ops)[1..] == ops;
    var start := Step(dict, Put(p, t, t0));
    assert start[p].negativeTime == t0 + t * NS_PER_SECOND;
    OthersKeepEntry(start, p, ops);
  }

  class NotExistCache {
    var NegativeTimeout: int64
    var dict: map<string, NotExistFile>

    /** The Go zero value: no entries and a zero timeout until the session sets one. */
    constructor ()
      ensures dict == map[] && NegativeTimeout == 0
    {
      dict := map[];
      NegativeTimeout := 0;
    }

    method Init()
      modifies this`dict
      ensures dict == map[]
    {
      dict := map[];
    }

    method Insert(path: string, timeout: int64, now: int64)
      modifies this`dict
      ensures dict == Step(old(dict), Put(path, timeout, now))
      ensures path in dict && dict[path].negativeTime == ExpiryFor(now, timeout)
      ensures forall q :: q != path ==> (q in dict <==> q in old(dict)) && (q in dict ==> dict[q] == old(dict)[q])
    {
      var file := NotExistFile(path, ExpiryFor(now, timeout));
      dict := dict[path := file];
    }

    /** True means "not cached as absent, go ask the remote store". */
    method IsNotExist(path: string, now: int64) returns (result: bool)
      modifies this`dict
      ensures result == NotCached(old(dict), path, now)
      ensures dict == Step(old(dict), Check(path, now))
      ensures path !in old(dict) ==> result && dict == old(dict)
      ensures path in old(dict) && IsNegative(old(dict)[path], now) ==> !result && dict == old(dict)
      ensures path in old(dict) && !IsNegative(old(dict)[path], now) ==> result && dict == old(dict) - {path}
    {
      result := false;
      var found := path in dict;
      if !found || !IsNegative(dict[path], now) {
        result := true;
      }
      if result && found {
        Delete(path);
      }
    }

    method Delete(path: string)
      modifies this`dict
      ensures dict == Step(old(dict), Drop(path))
      ensures path !in dict
    {
      dict := dict - {path};
    }
  }
}
