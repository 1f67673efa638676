/** The node-id to path cache (fs/cache/path.go): a dictionary seeded with the root, where the
    last write for an id wins and a missing id reads as the empty path. */
module PathCache {
  import opened GoInts

  const ROOT_ID: uint64 := 1

  /** Go's `dict[id]`: the stored path, or the zero value "" when there is no entry. */
  function Lookup(dict: map<uint64, string>, id: uint64): (p: string)
    ensures id in dict ==> p == dict[id]
    ensures id !in dict ==> p == ""
  {
    if id in dict then dict[id] else ""
  }

  /** The two ways the dispatchers change the cache. */
  datatype PathOp = Insert(id: uint64, path: string) | Delete(id: uint64)

  function Apply(dict: map<uint64, string>, op: PathOp): map<uint64, string> {
    match op
    case Insert(id, path) => dict[id := path]
    case Delete(id) => dict - {id}
  }

  function ApplyAll(dict: map<uint64, string>, ops: seq<PathOp>): map<uint64, string>
    decreases |ops|
  {
    if ops == [] then dict else ApplyAll(Apply(dict, ops[0]), ops[1..])
  }

  /** Operations on other ids never disturb an id's entry. */
  lemma {:induction false} OthersLeaveEntry(dict: map<uint64, string>, id: uint64, ops: seq<PathOp>)
    requires forall k :: 0 <= k < |ops| ==> ops[k].id != id
    ensures Lookup(ApplyAll(dict, ops), id) == Lookup(dict, id)
    decreases |ops|
  {
    if ops != [] {
      assert Lookup(Apply(dict, ops[0]), id) == Lookup(dict, id);
      OthersLeaveEntry(Apply(dict, ops[0]), id, ops[1..]);
    }
  }

  /** Last write wins: after Insert(id, p), whatever happens to other ids, Get(id) is p. */
  lemma LastWriteWins(dict: map<uint64, string>, id: uint64, path: string, ops: seq<PathOp>)
    requires forall k :: 0 <= k < |ops| ==> ops[k].id != id
    ensures Lookup(ApplyAll(dict, [Insert(id, path)] + ops), id) == path
  {
    assert ([Insert(id, path)] + ops)[1..] == ops;
    OthersLeaveEntry(dict[id := path], id, ops);
  }

  /** A Delete of the root id is not refused: the root entry exists only because Init put it
      there, and after Delete(1) the root path no longer resolves. */
  lemma RootNotProtected(dict: map<uint64, string>)
    ensures Lookup(Apply(dict, Delete(ROOT_ID)), ROOT_ID) == ""
  {
  }

  class FusePathManager {
    var pathDict: map<uint64, string>

    /** Init: a fresh dictionary holding only the root. */
    constructor Init()
      ensures pathDict == map[ROOT_ID := "/"]
      ensures Get(ROOT_ID) == "/"
    {
      pathDict := map[ROOT_ID := "/"];
    }

    function Get(id: uint64): (p: string)
      reads this
      ensures id in pathDict ==> p == pathDict[id]
      ensures id !in pathDict ==> p == ""
    {
      Lookup(pathDict, id)
    }

    method Insert(id: uint64, path: string)
      modifies this`pathDict
      ensures pathDict == Apply(old(pathDict), PathOp.Insert(id, path))
      ensures Get(id) == path
      ensures forall other :: other != id ==> Get(other) == old(Get(other))
    {
      pathDict := pathDict[id := path];
    }

    method Delete(id: uint64)
      modifies this`pathDict
      ensures pathDict == Apply(old(pathDict), PathOp.Delete(id))
      ensures Get(id) == ""
      ensures forall other :: other != id ==> Get(other) == old(Get(other))
    {
      pathDict := pathDict - {id};
    }
  }
}
