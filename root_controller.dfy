/** The root directory's record (fs/controler/root_controller.go): built on the first request
    from the running process's identity and the session start time, then returned unchanged. */
module Root {
  import opened GoInts
  import opened Errors
  import opened FileModels

  /** S_IFDIR | 0777: the two bit groups are disjoint, so the OR is their sum. */
  const ROOT_MODE: nat := S_IFDIR + 0x1FF

  class RootController {
    var rootFile: Option<FileModel>

    constructor ()
      ensures rootFile == None
    {
      rootFile := None;
    }

    /** GetRoot: `uid` and `gid` are the running user's ids (user.Current) and `fuseStartTime`
        the session's start time; both are consulted only on the first call. */
    method GetRoot(uid: uint64, gid: uint64, fuseStartTime: int64) returns (root: FileModel)
      modifies this
      ensures old(rootFile).Some? ==> root == old(rootFile).value && rootFile == old(rootFile)
      ensures old(rootFile).None? ==> rootFile == Some(root)
      ensures old(rootFile).None? ==>
        && root.StMode == ROOT_MODE && root.FileType == 0
        && root.StNlink == 2 && root.StSize == 4096
        && root.StUID == uid && root.StGid == gid
        && root.StAtime == fuseStartTime && root.StMtime == fuseStartTime && root.StCtime == fuseStartTime
        && root == ZERO_FILE.(StMode := ROOT_MODE, StUID := uid, StGid := gid, StNlink := 2, StSize := 4096,
                              StAtime := fuseStartTime, StMtime := fuseStartTime, StCtime := fuseStartTime)
    {
      if rootFile.Some? {
        return rootFile.value;
      }
      var file := ZERO_FILE;
      file := file.(StMode := ROOT_MODE);
      file := file.(StUID := uid);
      file := file.(StGid := gid);
      file := file.(StNlink := 2);
      file := file.(StSize := 4096);
      file := file.(StAtime := fuseStartTime);
      file := file.(StMtime := fuseStartTime);
      file := file.(StCtime := fuseStartTime);
      rootFile := Some(file);
      root := file;
    }
  }

  /** The stat of the root's first record: a directory with permission 0777 owned by the
      running user (ids reduced to 32 bits), two links, size 4096, every time the start time. */
  predicate RootStat(stat: Stat, uid: uint64, gid: uint64, startTime: int64) {
    && stat.Mode == ROOT_MODE && stat.Uid == ToUint32(uid) && stat.Gid == ToUint32(gid)
    && stat.Nlink == 2 && stat.Size == 4096
    && stat.Atim == startTime && stat.Mtim == startTime && stat.Ctim == startTime
  }

  /** Two requests return the same record whatever identity and time the second one sees. */
  method GetRootTwice(rc: RootController, uid1: uint64, gid1: uint64, t1: int64, uid2: uint64, gid2: uint64, t2: int64)
    returns (first: FileModel, second: FileModel)
    modifies rc
    ensures first == second
    ensures old(rc.rootFile).None? ==> first.StAtime == t1 && first.StUID == uid1
  {
    first := rc.GetRoot(uid1, gid1, t1);
    second := rc.GetRoot(uid2, gid2, t2);
  }
}
