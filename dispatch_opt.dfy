/** The request handlers of fs/fs_opt.go. Each handler defers recoverError: a panic raised with a
    controller error (or by the Go runtime) ends the handler, and recoverError turns the error
    into the returned code while the named results keep what they held. Remote outcomes the
    controller source does not show (Create, AppendFile, TruncateFile, Delete, Rename, the
    xattr calls, ModificationTime, SetPermission) are inputs; each handler returns the calls it
    issued. */
module DispatchOpt {
  import opened GoInts
  import opened Errors
  import opened FileModels
  import opened RemoteCalls
  import Util
  import opened PathCache
  import opened NegativeCache
  import opened Root
  import opened Hadoop
  import opened Listing

  /** recoverError: the code for a recovered panic. */
  function RecoverError(e: ErrorKind): (code: Errno)
    ensures code != SUCCESS
  {
    match e
    case NoFound => ENOENT
    case Exist => EEXIST
    case Access => ENOENT
    case Again => EAGAIN
    case Notsup => ENOTSUP
    case Range => ERANGE
    case NoAttr => ENOATTR
    case _ => ENOSYS
  }

  /** Two distinct conditions share a code only when both are absence-or-denial (ENOENT) or
      both fall to the catch-all ENOSYS. */
  lemma RecoverErrorCollisions(a: ErrorKind, b: ErrorKind)
    requires a != b && RecoverError(a) == RecoverError(b)
    ensures (a in {NoFound, Access} && b in {NoFound, Access}) || RecoverError(a) == ENOSYS
  {
  }

  /** The code a handler returns when a controller call yields `err`: none means success. */
  function CodeOf(err: Option<ErrorKind>): Errno {
    if err.None? then SUCCESS else RecoverError(err.value)
  }

  /** The attributes of a record as the handlers export them: AdjustNormal then WriteToStat.
      The mode is the type bits of the record's WebHDFS type or'ed with its permission; the
      mtime is rescaled to nanoseconds and copied to the ctime; the atime is copied unscaled,
      except that a directory without one takes the rescaled mtime. */
  predicate ExportedFrom(attr: Stat, rec: FileModel, accounts: Accounts) {
    var mtime := Util.MsToNs(rec.StMtime);
    var perm := ToUint32(PermissionBits(rec.HadoopPermission));
    && OwnerResolves(accounts, rec.HadoopOwner)
    && attr.Ino == rec.StIno && attr.Dev == rec.StDev && attr.Rdev == rec.StRdev
    && attr.Blksize == rec.StBlksize && attr.Blocks == rec.StBlocks
    && attr.Mtim == mtime && attr.Ctim == mtime
    && attr.Uid == ToUint32(ResolveId(accounts.users, rec.HadoopOwner, "nobody").value)
    && attr.Gid == ToUint32(ResolveId(accounts.groups, rec.HadoopOwner, "nogroup").value)
    && (rec.HadoopType == HADOOP_DIR ==>
          && attr.Mode == BitOr(ToUint32(S_IFDIR), perm) && attr.Size == DIR_SIZE && attr.Nlink == 2
          && attr.Atim == (if rec.StAtime == 0 then mtime else rec.StAtime))
    && (rec.HadoopType == HADOOP_FILE ==>
          && attr.Mode == BitOr(ToUint32(S_IFREG), perm) && attr.Size == rec.StSize && attr.Nlink == 1
          && attr.Atim == rec.StAtime)
    && (rec.HadoopType == HADOOP_SYMLINK ==>
          && attr.Mode == BitOr(ToUint32(S_IFLNK), perm) && attr.Size == rec.StSize && attr.Nlink == rec.StNlink
          && attr.Atim == rec.StAtime)
    && (rec.HadoopType !in {HADOOP_DIR, HADOOP_FILE, HADOOP_SYMLINK} ==>
          && attr.Mode == BitOr(ToUint32(rec.FileType), perm) && attr.Size == rec.StSize && attr.Nlink == rec.StNlink
          && attr.Atim == rec.StAtime)
  }

  /** AdjustNormal where a handler needs only the record's inode: the inode, or the panic (None). */
  method AdjustedIno(rec: FileModel, accounts: Accounts) returns (ino: Option<uint32>)
    ensures ino.Some? <==> OwnerResolves(accounts, rec.HadoopOwner)
    ensures ino.Some? ==> ino.value == rec.StIno
  {
    var file := AdjustNormal(rec, accounts);
    if file.None? {
      return None;
    }
    return Some(file.value.StIno);
  }

  /** AdjustNormal followed by WriteToStat, or the panic (None) of AdjustNormal. */
  method Export(rec: FileModel, accounts: Accounts) returns (attr: Option<Stat>)
    ensures attr.Some? <==> OwnerResolves(accounts, rec.HadoopOwner)
    ensures attr.Some? ==> ExportedFrom(attr.value, rec, accounts)
  {
    var file := AdjustNormal(rec, accounts);
    if file.None? {
      return None;
    }
    var stat := WriteToStat(file.value);
    attr := Some(stat);
  }

  /** getattr: the root is answered from the memoised root record without a remote call; any
      other path is fetched, and a failed fetch is recovered into its code. */
  method Getattr(paths: FusePathManager, root: RootController, hadoop: HadoopController, accounts: Accounts,
                 nodeid: uint64, uid: uint64, gid: uint64, startTime: int64, resp: Response<Option<FileModel>>)
    returns (fsStat: EntryOut, result: Errno, calls: seq<Call>)
    modifies root
    ensures var path := paths.Get(nodeid);
      && (path == "/" ==>
            && calls == [] && result == SUCCESS && root.rootFile.Some?
            && fsStat.Nodeid == 0 && fsStat.Generation == 0
            && StatOf(fsStat.Attr, root.rootFile.value)
            && (old(root.rootFile).Some? ==> root.rootFile == old(root.rootFile))
            && (old(root.rootFile).None? ==> RootStat(fsStat.Attr, uid, gid, startTime)))
      && (path != "/" ==>
            && calls == [StatOp(path)] && root.rootFile == old(root.rootFile)
            && (StatusOf(resp).Err? ==>
                  result == RecoverError(StatusOf(resp).error) && fsStat == EntryOut(0, 0, ZERO_STAT))
            && (StatusOf(resp).Ok? && OwnerResolves(accounts, StatusOf(resp).value.HadoopOwner) ==>
                  result == SUCCESS && ExportedFrom(fsStat.Attr, StatusOf(resp).value, accounts))
            && (StatusOf(resp).Ok? && !OwnerResolves(accounts, StatusOf(resp).value.HadoopOwner) ==>
                  result == ENOSYS && fsStat == EntryOut(0, 0, ZERO_STAT)))
  {
    var path := paths.Get(nodeid);
    fsStat := EntryOut(0, 0, ZERO_STAT);
    if path == "/" {
      var rootfile := root.GetRoot(uid, gid, startTime);
      var attr := WriteToStat(rootfile);
      fsStat := fsStat.(Attr := attr);
      calls := [];
    } else {
      var res := hadoop.GetFileStatus(path, resp);
      calls := [StatOp(path)];
      if res.Err? {
        result := RecoverError(res.error);
        return;
      }
      var attr := Export(res.value, accounts);
      if attr.None? {
        result := RecoverError(RuntimePanic);
        return;
      }
      fsStat := fsStat.(Attr := attr.value);
    }
    result := SUCCESS;
  }

  /** readdir: the listing loop; a panic (on an empty page that claims more entries, or on a
      listed record whose owner does not resolve) is recovered as ENOSYS, and the entries
      gathered so far are still returned. `end` says how the listing ended. */
  method Readdir(paths: FusePathManager, hadoop: HadoopController, accounts: Accounts, nodeid: uint64,
                 size: uint32, offset: uint64, responses: seq<Response<Option<Batch>>>)
    returns (fileList: seq<Dirent>, result: Errno, cursors: seq<string>, ghost end: ListingEnd)
    ensures ListingOf(accounts, responses, nodeid, size, offset, fileList, cursors, end)
    ensures result == (if end == Complete then SUCCESS else ENOSYS)
  {
    var path := paths.Get(nodeid);
    var e;
    fileList, cursors, e := ListDirectory(hadoop, accounts, nodeid, path, size, offset, responses);
    end := e;
    result := if e != Complete then RecoverError(RuntimePanic) else SUCCESS;
  }

  /** lookup: a path the negative cache vouches for is absent without a remote call; a failed
      fetch records the path as absent for NegativeTimeout seconds; a found record maps its
      inode to the path. Both cache operations see the same clock reading `now`. */
  method Lookup(paths: FusePathManager, negatives: NotExistCache, hadoop: HadoopController, accounts: Accounts,
                parentId: uint64, name: string, now: int64, resp: Response<Option<FileModel>>)
    returns (fsStat: Option<EntryOut>, result: Errno, calls: seq<Call>)
    modifies paths`pathDict, negatives`dict
    ensures var filePath := Util.MergePath(old(paths.Get(parentId)), name);
      && (!NotCached(old(negatives.dict), filePath, now) ==>
            && result == ENOENT && fsStat == None && calls == []
            && paths.pathDict == old(paths.pathDict) && negatives.dict == old(negatives.dict))
      && (NotCached(old(negatives.dict), filePath, now) ==> calls == [StatOp(filePath)])
      && (NotCached(old(negatives.dict), filePath, now) && StatusOf(resp).Err? ==>
            && result == ENOENT && fsStat == None && paths.pathDict == old(paths.pathDict)
            && negatives.dict == Step(AfterCheck(old(negatives.dict), filePath, now), Put(filePath, negatives.NegativeTimeout, now)))
      && (NotCached(old(negatives.dict), filePath, now) && StatusOf(resp).Ok?
          && !OwnerResolves(accounts, StatusOf(resp).value.HadoopOwner) ==>
            && result == ENOSYS && fsStat == None && paths.pathDict == old(paths.pathDict)
            && negatives.dict == AfterCheck(old(negatives.dict), filePath, now))
      && (NotCached(old(negatives.dict), filePath, now) && StatusOf(resp).Ok?
          && OwnerResolves(accounts, StatusOf(resp).value.HadoopOwner) ==>
            && result == SUCCESS && fsStat.Some?
            && fsStat.value.Nodeid == StatusOf(resp).value.StIno && fsStat.value.Generation == 1
            && ExportedFrom(fsStat.value.Attr, StatusOf(resp).value, accounts)
            && paths.pathDict == old(paths.pathDict)[StatusOf(resp).value.StIno as uint64 := filePath]
            && negatives.dict == AfterCheck(old(negatives.dict), filePath, now))
  {
    var parentPath := paths.Get(parentId);
    var filePath := Util.MergePath(parentPath, name);
    fsStat := None;
    calls := [];
    ghost var pathDict0 := paths.pathDict;
    var notExist := negatives.IsNotExist(filePath, now);
    ghost var checked := negatives.dict;
    assert checked == AfterCheck(old(negatives.dict), filePath, now);
    if notExist == false {
      result := RecoverError(NoFound);
      return;
    }
    var res := hadoop.GetFileStatus(filePath, resp);
    calls := [StatOp(filePath)];
    if res.Err? {
      negatives.Insert(filePath, negatives.NegativeTimeout, now);
      result := RecoverError(NoFound);
      return;
    }
    var file := res.value;
    var attr := Export(file, accounts);
    if attr.None? {
      assert paths.pathDict == pathDict0 && negatives.dict == checked;
      result := RecoverError(RuntimePanic);
      return;
    }
    fsStat := Some(EntryOut(file.StIno as uint64, 1, attr.value));
    paths.Insert(file.StIno as uint64, filePath);
    result := SUCCESS;
  }

  /** read: an unmapped node is ENOENT; end-of-file counts as success. */
  method Read(paths: FusePathManager, hadoop: HadoopController, nodeid: uint64, size: uint32, offset: uint64,
              resp: Response<seq<byte>>)
    returns (content: seq<byte>, result: Errno, calls: seq<Call>)
    ensures var path := paths.Get(nodeid);
      && (path == "" ==> result == ENOENT && calls == [] && content == [])
      && (path != "" ==>
            && calls == [ReadOp(path, offset, size)]
            && (ReadOf(resp).Ok? ==> result == SUCCESS && content == ReadOf(resp).value)
            && (ReadOf(resp).Err? ==>
                  content == [] && result == (if ReadOf(resp).error == Eof then SUCCESS else RecoverError(ReadOf(resp).error))))
  {
    var path := paths.Get(nodeid);
    calls := [];
    if path == "" {
      return [], ENOENT, calls;
    }
    var res := hadoop.Read(path, offset, size, 0, resp);
    calls := [ReadOp(path, offset, size)];
    content := if res.Ok? then res.value else [];
    if res.Err? && res.error != Eof {
      result := RecoverError(res.error);
      return;
    }
    result := SUCCESS;
  }

  /** The fetch that ends mkdir and create: GETFILESTATUS on the new path; the stat is allocated
      before AdjustNormal runs, so an owner panic leaves it zero; on success the inode is mapped
      to the path and any negative entry for the path is forgotten. */
  method FetchNew(paths: FusePathManager, negatives: NotExistCache, hadoop: HadoopController, accounts: Accounts,
                  filePath: string, resp: Response<Option<FileModel>>)
    returns (stat: Option<EntryOut>, result: Errno)
    modifies paths`pathDict, negatives`dict
    ensures StatusOf(resp).Err? ==>
      && stat == None && result == RecoverError(StatusOf(resp).error)
      && paths.pathDict == old(paths.pathDict) && negatives.dict == old(negatives.dict)
    ensures StatusOf(resp).Ok? && !OwnerResolves(accounts, StatusOf(resp).value.HadoopOwner) ==>
      && stat == Some(EntryOut(0, 0, ZERO_STAT)) && result == ENOSYS
      && paths.pathDict == old(paths.pathDict) && negatives.dict == old(negatives.dict)
    ensures StatusOf(resp).Ok? && OwnerResolves(accounts, StatusOf(resp).value.HadoopOwner) ==>
      && result == SUCCESS && stat.Some?
      && stat.value.Nodeid == StatusOf(resp).value.StIno && stat.value.Generation == 1
      && ExportedFrom(stat.value.Attr, StatusOf(resp).value, accounts)
      && paths.pathDict == old(paths.pathDict)[StatusOf(resp).value.StIno as uint64 := filePath]
      && negatives.dict == old(negatives.dict) - {filePath}
  {
    stat := None;
    var res := hadoop.GetFileStatus(filePath, resp);
    if res.Err? {
      result := RecoverError(res.error);
      return;
    }
    var file := res.value;
    stat := Some(EntryOut(0, 0, ZERO_STAT));
    var attr := Export(file, accounts);
    if attr.None? {
      result := RecoverError(RuntimePanic);
      return;
    }
    stat := Some(EntryOut(file.StIno as uint64, 1, attr.value));
    paths.Insert(file.StIno as uint64, filePath);
    negatives.Delete(filePath);
    result := SUCCESS;
  }

  /** mkdir: MKDIRS with the mode's permission digits, then a fetch of the new directory; on
      success the cache maps its inode to the path and forgets any negative entry for it. A
      false answer is raised as ErrAccess. */
  method Mkdir(paths: FusePathManager, negatives: NotExistCache, hadoop: HadoopController, accounts: Accounts,
               parentid: uint64, name: string, mode: uint32, mkResp: Response<Option<bool>>,
               resp: Response<Option<FileModel>>)
    returns (stat: Option<EntryOut>, result: Errno, calls: seq<Call>)
    modifies paths`pathDict, negatives`dict
    ensures var filePath := Util.MergePath(old(paths.Get(parentid)), name);
      && |calls| >= 1 && calls[0] == MkdirOp(filePath, Util.ModeToStr(mode))
      && (MakeDirOf(mkResp) != Ok(true) ==>
            && calls == [calls[0]] && stat == None
            && result == (if MakeDirOf(mkResp).Err? then RecoverError(MakeDirOf(mkResp).error) else RecoverError(Access))
            && paths.pathDict == old(paths.pathDict) && negatives.dict == old(negatives.dict))
      && (MakeDirOf(mkResp) == Ok(true) ==> calls == [calls[0], StatOp(filePath)])
      && (MakeDirOf(mkResp) == Ok(true) && StatusOf(resp).Err? ==>
            && stat == None && result == RecoverError(StatusOf(resp).error)
            && paths.pathDict == old(paths.pathDict) && negatives.dict == old(negatives.dict))
      && (MakeDirOf(mkResp) == Ok(true) && StatusOf(resp).Ok?
          && !OwnerResolves(accounts, StatusOf(resp).value.HadoopOwner) ==>
            && stat == Some(EntryOut(0, 0, ZERO_STAT)) && result == ENOSYS
            && paths.pathDict == old(paths.pathDict) && negatives.dict == old(negatives.dict))
      && (MakeDirOf(mkResp) == Ok(true) && StatusOf(resp).Ok?
          && OwnerResolves(accounts, StatusOf(resp).value.HadoopOwner) ==>
            && result == SUCCESS && stat.Some?
            && stat.value.Nodeid == StatusOf(resp).value.StIno && stat.value.Generation == 1
            && ExportedFrom(stat.value.Attr, StatusOf(resp).value, accounts)
            && paths.pathDict == old(paths.pathDict)[StatusOf(resp).value.StIno as uint64 := filePath]
            && negatives.dict == old(negatives.dict) - {filePath})
  {
    var path := paths.Get(parentid);
    var filePath := Util.MergePath(path, name);
    var modeStr := Util.ModeToStr(mode);
    stat := None;
    var made := hadoop.MakeDir(filePath, modeStr, mkResp);
    calls := [MkdirOp(filePath, modeStr)];
    if made.Err? {
      result := RecoverError(made.error);
    } else if !made.value {
      result := RecoverError(Access);
    } else {
      stat, result := FetchNew(paths, negatives, hadoop, accounts, filePath, resp);
      calls := calls + [StatOp(filePath)];
    }
  }

  /** create: an unmapped parent is ENOENT without a remote call; otherwise CREATE, then a fetch
      of the new file, and the same cache upkeep as mkdir. */
  method Create(paths: FusePathManager, negatives: NotExistCache, hadoop: HadoopController, accounts: Accounts,
                parentid: uint64, name: string, mode: uint32, created: Option<ErrorKind>,
                resp: Response<Option<FileModel>>)
    returns (stat: Option<EntryOut>, result: Errno, calls: seq<Call>)
    modifies paths`pathDict, negatives`dict
    ensures var path := old(paths.Get(parentid));
      var filePath := Util.MergePath(path, name);
      && (path == "" ==>
            result == ENOENT && stat == None && calls == []
            && paths.pathDict == old(paths.pathDict) && negatives.dict == old(negatives.dict))
      && (path != "" && created.Some? ==>
            && result == RecoverError(created.value) && stat == None
            && calls == [CreateOp(filePath, Util.ModeToStr(mode))]
            && paths.pathDict == old(paths.pathDict) && negatives.dict == old(negatives.dict))
      && (path != "" && created.None? ==> calls == [CreateOp(filePath, Util.ModeToStr(mode)), StatOp(filePath)])
      && (path != "" && created.None? && StatusOf(resp).Err? ==>
            && stat == None && result == RecoverError(StatusOf(resp).error)
            && paths.pathDict == old(paths.pathDict) && negatives.dict == old(negatives.dict))
      && (path != "" && created.None? && StatusOf(resp).Ok?
          && !OwnerResolves(accounts, StatusOf(resp).value.HadoopOwner) ==>
            && stat == Some(EntryOut(0, 0, ZERO_STAT)) && result == ENOSYS
            && paths.pathDict == old(paths.pathDict) && negatives.dict == old(negatives.dict))
      && (path != "" && created.None? && StatusOf(resp).Ok?
          && OwnerResolves(accounts, StatusOf(resp).value.HadoopOwner) ==>
            && result == SUCCESS && stat.Some?
            && stat.value.Nodeid == StatusOf(resp).value.StIno && stat.value.Generation == 1
            && ExportedFrom(stat.value.Attr, StatusOf(resp).value, accounts)
            && paths.pathDict == old(paths.pathDict)[StatusOf(resp).value.StIno as uint64 := filePath]
            && negatives.dict == old(negatives.dict) - {filePath})
  {
    var path := paths.Get(parentid);
    stat := None;
    calls := [];
    if path == "" {
      return None, ENOENT, calls;
    }
    var filePath := Util.MergePath(path, name);
    var modeStr := Util.ModeToStr(mode);
    calls := [CreateOp(filePath, modeStr)];
    if created.Some? {
      result := RecoverError(created.value);
    } else {
      stat, result := FetchNew(paths, negatives, hadoop, accounts, filePath, resp);
      calls := calls + [StatOp(filePath)];
    }
  }

  /** The FUSE_SET_ATTR_* bits of setattr's `toSet` mask (those of the Linux kernel ABI). */
  const FATTR_MODE: nat := 1
  const FATTR_ATIME: nat := 16
  const FATTR_MTIME: nat := 32

  /** `mask & bit > 0` for a single-bit `bit`. */
  predicate HasBit(mask: uint32, bit: nat)
    requires bit > 0
  {
    (mask / bit) % 2 == 1
  }

  /** The millisecond time setattr sends for a field: its value when its bit is set, else -1. */
  function TimeArg(toSet: uint32, bit: nat, ns: int64): (ms: int64)
    requires bit > 0
  {
    if HasBit(toSet, bit) then Util.NsToMs(ns) else -1
  }

  /** setattr: the times go out in one call, and only when one of them is positive; a mode
      change goes out as permission digits; uid, gid, size and ctime are not forwarded. */
  method Setattr(paths: FusePathManager, hadoop: HadoopController, nodeid: uint64, atimeNs: int64, mtimeNs: int64,
                 mode: uint32, toSet: uint32, timesDone: Option<ErrorKind>, permissionDone: Option<ErrorKind>)
    returns (result: Errno, calls: seq<Call>)
    ensures var path := paths.Get(nodeid);
      var atime := TimeArg(toSet, FATTR_ATIME, atimeNs);
      var mtime := TimeArg(toSet, FATTR_MTIME, mtimeNs);
      var times := if atime > 0 || mtime > 0 then [TimesOp(path, atime, mtime)] else [];
      var timesFailed := (atime > 0 || mtime > 0) && timesDone.Some?;
      var chmod := if HasBit(toSet, FATTR_MODE) then [PermissionOp(path, Util.ModeToStr(mode))] else [];
      && (path == "" ==> result == ENOENT && calls == [])
      && (path != "" && timesFailed ==> calls == times && result == RecoverError(timesDone.value))
      && (path != "" && !timesFailed ==>
            && calls == times + chmod
            && result == (if HasBit(toSet, FATTR_MODE) then CodeOf(permissionDone) else SUCCESS))
  {
    var filepath := paths.Get(nodeid);
    calls := [];
    if filepath == "" {
      return ENOENT, calls;
    }
    var atime: int64 := -1;
    var mtime: int64 := -1;
    if HasBit(toSet, FATTR_ATIME) {
      atime := Util.NsToMs(atimeNs);
    }
    if HasBit(toSet, FATTR_MTIME) {
      mtime := Util.NsToMs(mtimeNs);
    }
    if atime > 0 || mtime > 0 {
      calls := calls + [TimesOp(filepath, atime, mtime)];
      if timesDone.Some? {
        result := RecoverError(timesDone.value);
        return;
      }
    }
    if HasBit(toSet, FATTR_MODE) {
      var modeStr := Util.ModeToStr(mode);
      calls := calls + [PermissionOp(filepath, modeStr)];
      if permissionDone.Some? {
        result := RecoverError(permissionDone.value);
        return;
      }
    }
    result := SUCCESS;
  }

  /** The remote file after TRUNCATE to `newLength` (a length past the end is refused by the
      store, so only a prefix can result). */
  function Truncated(content: seq<byte>, newLength: int): seq<byte> {
    if 0 <= newLength <= |content| then content[..newLength] else content
  }

  /** write, emulated on an append-only store: a write at the current end is one APPEND; any
      other offset first truncates the file to the offset, and a refused truncation is raised
      as ErrAccess. `content` is the remote file before the call and `newContent` after it. */
  method Write(paths: FusePathManager, hadoop: HadoopController, accounts: Accounts, nodeid: uint64,
               buf: seq<byte>, offset: uint64, resp: Response<Option<FileModel>>,
               truncated: Result<bool>, appended: Option<ErrorKind>, content: seq<byte>)
    returns (size: uint32, result: Errno, calls: seq<Call>, newContent: seq<byte>)
    ensures var path := paths.Get(nodeid);
      && |calls| >= 1 && calls[0] == StatOp(path)
      && (StatusOf(resp).Err? ==>
            calls == [StatOp(path)] && result == RecoverError(StatusOf(resp).error) && newContent == content)
      && (StatusOf(resp).Ok? && !OwnerResolves(accounts, StatusOf(resp).value.HadoopOwner) ==>
            calls == [StatOp(path)] && result == ENOSYS && newContent == content)
      && (StatusOf(resp).Ok? && OwnerResolves(accounts, StatusOf(resp).value.HadoopOwner) ==>
            var rec := StatusOf(resp).value;
            // the size AdjustNormal leaves: 4096 for a directory, the listed length otherwise
            var fileSize := if rec.HadoopType == HADOOP_DIR then DIR_SIZE else rec.StSize;
            && (offset == ToUint64(fileSize) ==>
                  && calls == [StatOp(path), AppendOp(path, buf)] && result == CodeOf(appended)
                  && newContent == if appended.None? then content + buf else content)
            && (offset != ToUint64(fileSize) ==>
                  && |calls| >= 2 && calls[1] == TruncateOp(path, WrapInt64(offset))
                  && (truncated == Ok(true) ==>
                        && calls == [StatOp(path), TruncateOp(path, WrapInt64(offset)), AppendOp(path, buf)]
                        && result == CodeOf(appended)
                        && newContent == Truncated(content, WrapInt64(offset)) + (if appended.None? then buf else []))
                  && (truncated != Ok(true) ==>
                        && |calls| == 2 && newContent == content
                        && result == (if truncated.Err? then RecoverError(truncated.error) else RecoverError(Access)))))
      && (result == SUCCESS ==> size == ToUint32(|buf|) && calls[|calls| - 1] == AppendOp(path, buf))
      && (result != SUCCESS ==> size == 0)
  {
    var filepath := paths.Get(nodeid);
    size := 0;
    newContent := content;
    var res := hadoop.GetFileStatus(filepath, resp);
    calls := [StatOp(filepath)];
    if res.Err? {
      result := RecoverError(res.error);
      return;
    }
    var adjusted := AdjustNormal(res.value, accounts);
    if adjusted.None? {
      result := RecoverError(RuntimePanic);
      return;
    }
    var file := adjusted.value;
    var err: Option<ErrorKind>;
    if offset == ToUint64(file.StSize) {
      calls := calls + [AppendOp(filepath, buf)];
      err := appended;
    } else {
      calls := calls + [TruncateOp(filepath, WrapInt64(offset))];
      if truncated.Err? {
        result := RecoverError(truncated.error);
        return;
      } else if !truncated.value {
        result := RecoverError(Access);
        return;
      } else {
        newContent := Truncated(newContent, WrapInt64(offset));
        calls := calls + [AppendOp(filepath, buf)];
        err := appended;
      }
    }
    if err.Some? {
      result := RecoverError(err.value);
      return;
    }
    newContent := newContent + buf;
    size := ToUint32(|buf|);
    result := SUCCESS;
  }

  /** A successful write at an offset within the file leaves the file's first `offset` bytes
      followed by the written bytes, whichever of the two paths it took. */
  lemma WriteContent(content: seq<byte>, buf: seq<byte>, offset: uint64, size: int64)
    requires offset <= |content| && size == |content|
    ensures offset == ToUint64(size) ==> content + buf == content[..offset] + buf
    ensures offset != ToUint64(size) ==> Truncated(content, WrapInt64(offset)) + buf == content[..offset] + buf
  {
    assert content[..|content|] == content;
  }

  /** _rmFileOrDir (unlink and rmdir): fetch the target, DELETE it, and forget its inode's path. */
  method RmFileOrDir(paths: FusePathManager, hadoop: HadoopController, accounts: Accounts,
                     parentid: uint64, name: string, resp: Response<Option<FileModel>>, deleted: Result<bool>)
    returns (result: Errno, calls: seq<Call>)
    modifies paths`pathDict
    ensures var filePath := Util.MergePath(old(paths.Get(parentid)), name);
      && (StatusOf(resp).Err? ==>
            && calls == [StatOp(filePath)] && result == RecoverError(StatusOf(resp).error)
            && paths.pathDict == old(paths.pathDict))
      && (StatusOf(resp).Ok? && !OwnerResolves(accounts, StatusOf(resp).value.HadoopOwner) ==>
            && calls == [StatOp(filePath)] && result == ENOSYS && paths.pathDict == old(paths.pathDict))
      && (StatusOf(resp).Ok? && OwnerResolves(accounts, StatusOf(resp).value.HadoopOwner) ==>
            calls == [StatOp(filePath), DeleteOp(filePath)])
      && (StatusOf(resp).Ok? && OwnerResolves(accounts, StatusOf(resp).value.HadoopOwner) && deleted == Ok(true) ==>
            result == SUCCESS && paths.pathDict == Apply(old(paths.pathDict), Delete(StatusOf(resp).value.StIno as uint64)))
      && (StatusOf(resp).Ok? && OwnerResolves(accounts, StatusOf(resp).value.HadoopOwner) && deleted != Ok(true) ==>
            && paths.pathDict == old(paths.pathDict)
            && result == (if deleted.Err? then RecoverError(deleted.error) else RecoverError(Access)))
  {
    var parentPath := paths.Get(parentid);
    var filePath := Util.MergePath(parentPath, name);
    var res := hadoop.GetFileStatus(filePath, resp);
    calls := [StatOp(filePath)];
    if res.Err? {
      result := RecoverError(res.error);
      return;
    }
    var ino := AdjustedIno(res.value, accounts);
    if ino.None? {
      result := RecoverError(RuntimePanic);
      return;
    }
    calls := calls + [DeleteOp(filePath)];
    if deleted.Err? {
      result := RecoverError(deleted.error);
      return;
    } else if !deleted.value {
      result := RecoverError(Access);
      return;
    }
    paths.Delete(ino.value as uint64);
    result := SUCCESS;
  }

  /** What a rename of `filePath` to `newFilePath` does, given the replies to its two fetches and
      to RENAME: the calls made, the code, and the caches after (`dict`, `neg`) against before
      (`dict0`, `neg0`). A failure at any step leaves both caches as they were; only a rename
      whose destination is fetched and adjusted changes them. */
  predicate RenameOutcome(accounts: Accounts, filePath: string, newFilePath: string,
                          resp: Response<Option<FileModel>>, renamed: Result<bool>, newResp: Response<Option<FileModel>>,
                          dict0: map<uint64, string>, neg0: map<string, NotExistFile>,
                          dict: map<uint64, string>, neg: map<string, NotExistFile>, result: Errno, calls: seq<Call>)
  {
    var srcOk := StatusOf(resp).Ok? && OwnerResolves(accounts, StatusOf(resp).value.HadoopOwner);
    var done := srcOk && renamed == Ok(true) && StatusOf(newResp).Ok?
      && OwnerResolves(accounts, StatusOf(newResp).value.HadoopOwner);
    && (!srcOk ==> calls == [StatOp(filePath)])
    && (StatusOf(resp).Err? ==> result == RecoverError(StatusOf(resp).error))
    && (StatusOf(resp).Ok? && !srcOk ==> result == ENOSYS)
    && (srcOk && renamed != Ok(true) ==>
          && calls == [StatOp(filePath), RenameOp(filePath, newFilePath)]
          && result == (if renamed.Err? then RecoverError(renamed.error) else RecoverError(Access)))
    && (srcOk && renamed == Ok(true) ==> calls == [StatOp(filePath), RenameOp(filePath, newFilePath), StatOp(newFilePath)])
    && (srcOk && renamed == Ok(true) && StatusOf(newResp).Err? ==>
          result == RecoverError(StatusOf(newResp).error))
    && (srcOk && renamed == Ok(true) && StatusOf(newResp).Ok? && !done ==> result == ENOSYS)
    && (!done ==> dict == dict0 && neg == neg0)
    && (done ==>
          && result == SUCCESS
          && dict == Apply(Apply(dict0, Delete(StatusOf(resp).value.StIno as uint64)),
                           Insert(StatusOf(newResp).value.StIno as uint64, newFilePath))
          && neg == neg0 - {newFilePath})
  }

  /** rename: the source and destination paths are merged from the cached parent paths; then
      the source is fetched, renamed and the destination fetched, as RenameOutcome states. */
  method Rename(paths: FusePathManager, negatives: NotExistCache, hadoop: HadoopController, accounts: Accounts,
                parentid: uint64, name: string, newparentid: uint64, newname: string,
                resp: Response<Option<FileModel>>, renamed: Result<bool>, newResp: Response<Option<FileModel>>)
    returns (result: Errno, calls: seq<Call>)
    modifies paths`pathDict, negatives`dict
    ensures RenameOutcome(accounts, Util.MergePath(old(paths.Get(parentid)), name),
                          Util.MergePath(old(paths.Get(newparentid)), newname), resp, renamed, newResp,
                          old(paths.pathDict), old(negatives.dict), paths.pathDict, negatives.dict, result, calls)
  {
    var parentPath := paths.Get(parentid);
    var newParentPath := paths.Get(newparentid);
    var filePath := Util.MergePath(parentPath, name);
    var newFilePath := Util.MergePath(newParentPath, newname);
    result, calls := RenamePath(paths, negatives, hadoop, accounts, filePath, newFilePath, resp, renamed, newResp);
  }

  /** rename once the paths are known: fetch the source and adjust it (its inode is the entry to
      forget), then RenameAndRemap. */
  method RenamePath(paths: FusePathManager, negatives: NotExistCache, hadoop: HadoopController, accounts: Accounts,
                    filePath: string, newFilePath: string,
                    resp: Response<Option<FileModel>>, renamed: Result<bool>, newResp: Response<Option<FileModel>>)
    returns (result: Errno, calls: seq<Call>)
    modifies paths`pathDict, negatives`dict
    ensures RenameOutcome(accounts, filePath, newFilePath, resp, renamed, newResp,
                          old(paths.pathDict), old(negatives.dict), paths.pathDict, negatives.dict, result, calls)
  {
    var res := hadoop.GetFileStatus(filePath, resp);
    calls := [StatOp(filePath)];
    if res.Err? {
      result := RecoverError(res.error);
    } else {
      var ino := AdjustedIno(res.value, accounts);
      if ino.None? {
        result := RecoverError(RuntimePanic);
      } else {
        var rest;
        result, rest := RenameAndRemap(paths, negatives, hadoop, accounts, ino.value, filePath, newFilePath,
                                       renamed, newResp);
        calls := calls + rest;
      }
    }
  }

  /** The rest of a rename once the source is fetched: RENAME, a refusal raised as ErrAccess,
      then the fetch of the destination; then the source inode `ino` is forgotten, the
      destination inode maps to the new path and the new path is no longer recorded as absent. */
  method RenameAndRemap(paths: FusePathManager, negatives: NotExistCache, hadoop: HadoopController,
                        accounts: Accounts, ino: uint32, filePath: string, newFilePath: string,
                        renamed: Result<bool>, newResp: Response<Option<FileModel>>)
    returns (result: Errno, calls: seq<Call>)
    modifies paths`pathDict, negatives`dict
    ensures renamed != Ok(true) ==>
      && calls == [RenameOp(filePath, newFilePath)]
      && result == (if renamed.Err? then RecoverError(renamed.error) else RecoverError(Access))
    ensures renamed == Ok(true) ==> calls == [RenameOp(filePath, newFilePath), StatOp(newFilePath)]
    ensures renamed == Ok(true) && StatusOf(newResp).Err? ==> result == RecoverError(StatusOf(newResp).error)
    ensures renamed == Ok(true) && StatusOf(newResp).Ok? && !OwnerResolves(accounts, StatusOf(newResp).value.HadoopOwner)
      ==> result == ENOSYS
    ensures !(renamed == Ok(true) && StatusOf(newResp).Ok? && OwnerResolves(accounts, StatusOf(newResp).value.HadoopOwner)) ==>
      paths.pathDict == old(paths.pathDict) && negatives.dict == old(negatives.dict)
    ensures renamed == Ok(true) && StatusOf(newResp).Ok? && OwnerResolves(accounts, StatusOf(newResp).value.HadoopOwner) ==>
      && result == SUCCESS
      && paths.pathDict == Apply(Apply(old(paths.pathDict), Delete(ino as uint64)),
                                 Insert(StatusOf(newResp).value.StIno as uint64, newFilePath))
      && negatives.dict == old(negatives.dict) - {newFilePath}
  {
    calls := [RenameOp(filePath, newFilePath)];
    if renamed.Err? {
      result := RecoverError(renamed.error);
    } else if !renamed.value {
      result := RecoverError(Access);
    } else {
      calls := calls + [StatOp(newFilePath)];
      var newRes := hadoop.GetFileStatus(newFilePath, newResp);
      if newRes.Err? {
        result := RecoverError(newRes.error);
      } else {
        var newIno := AdjustedIno(newRes.value, accounts);
        if newIno.None? {
          result := RecoverError(RuntimePanic);
        } else {
          paths.Delete(ino as uint64);
          paths.Insert(newIno.value as uint64, newFilePath);
          negatives.Delete(newFilePath);
          result := SUCCESS;
        }
      }
    }
  }

  /** The cache effect of a rename: the source inode's entry goes and the destination inode maps
      to the new path; when the store keeps the inode, the net effect is that inode's path
      replaced, every other entry untouched. */
  lemma RenameKeepsInode(dict: map<uint64, string>, ino: uint64, newIno: uint64, newPath: string)
    ensures Apply(Apply(dict, Delete(ino)), Insert(newIno, newPath)) == (dict - {ino})[newIno := newPath]
    ensures ino == newIno ==> Apply(Apply(dict, Delete(ino)), Insert(newIno, newPath)) == dict[ino := newPath]
  {
    if ino == newIno {
      assert (dict - {ino})[ino := newPath] == dict[ino := newPath];
    }
  }

  /** The setxattr flags value that selects replacement (XATTR_REPLACE). */
  const XATTR_CREATE: uint32 := 1
  const XATTR_REPLACE: uint32 := 2

  /** The WebHDFS flag setxattr sends first. */
  function XattrFlag(flags: uint32): (flag: string)
    ensures flag == "REPLACE" <==> flags == XATTR_REPLACE
    ensures flag == "CREATE" <==> flags != XATTR_REPLACE
  {
    if flags == XATTR_REPLACE then "REPLACE" else "CREATE"
  }

  /** setxattr: one SETXATTR with the requested flag; if the attribute already exists it is
      retried exactly once as REPLACE. */
  method Setxattr(paths: FusePathManager, hadoop: HadoopController, nodeid: uint64, name: string, value: string,
                  flags: uint32, first: Option<ErrorKind>, retry: Option<ErrorKind>)
    returns (result: Errno, calls: seq<Call>)
    ensures var path := paths.Get(nodeid);
      && |calls| >= 1 && calls[0] == SetxattrOp(path, name, value, XattrFlag(flags))
      && (first != Some(Exist) ==> calls == [calls[0]] && result == CodeOf(first))
      && (first == Some(Exist) ==>
            calls == [calls[0], SetxattrOp(path, name, value, "REPLACE")] && result == CodeOf(retry))
  {
    var filepath := paths.Get(nodeid);
    var strFlag := XattrFlag(flags);
    calls := [SetxattrOp(filepath, name, value, strFlag)];
    var err := first;
    if err.Some? {
      if err.value == Exist {
        calls := calls + [SetxattrOp(filepath, name, value, "REPLACE")];
        err := retry;
        if err.Some? {
          result := RecoverError(err.value);
          return;
        }
      } else {
        result := RecoverError(err.value);
        return;
      }
    }
    result := SUCCESS;
  }

  /** `len(s) > size` for a non-zero size, with Go's uint32 conversion of the length. */
  predicate TooLong(s: string, size: uint32) {
    size > 0 && ToUint32(|s|) > size
  }

  /** getxattr: the value, or ERANGE when it does not fit a non-zero `size`. */
  method Getxattr(paths: FusePathManager, hadoop: HadoopController, nodeid: uint64, name: string, size: uint32,
                  got: Result<string>)
    returns (value: string, result: Errno, calls: seq<Call>)
    ensures calls == [GetxattrOp(paths.Get(nodeid), name)]
    ensures got.Err? ==> result == RecoverError(got.error)
    ensures got.Ok? ==> value == got.value && result == (if TooLong(got.value, size) then ERANGE else SUCCESS)
  {
    var filepath := paths.Get(nodeid);
    calls := [GetxattrOp(filepath, name)];
    value := "";
    if got.Err? {
      result := RecoverError(got.error);
      return;
    }
    value := got.value;
    if size > 0 && ToUint32(|value|) > size {
      result := RecoverError(Range);
      return;
    }
    result := SUCCESS;
  }

  /** The names with one NUL between consecutive names and none at the end. */
  function JoinNul(names: seq<string>): string
    decreases |names|
  {
    if names == [] then ""
    else if |names| == 1 then names[0]
    else JoinNul(names[..|names| - 1]) + ['\0'] + names[|names| - 1]
  }

  /** The listxattr buffer loop: each name, then a NUL unless it is the last. */
  method JoinNames(attrs: seq<string>) returns (list: string)
    ensures list == JoinNul(attrs)
  {
    list := "";
    var length := |attrs|;
    var i := 0;
    while i < length
      invariant 0 <= i <= length
      invariant i == 0 ==> list == ""
      invariant 0 < i ==> list == JoinNul(attrs[..i]) + (if i < length then ['\0'] else [])
    {
      assert attrs[..i + 1][..i] == attrs[..i];
      list := list + attrs[i];
      if i < length - 1 {
        list := list + ['\0'];
      }
      i := i + 1;
    }
    assert attrs[..length] == attrs;
  }

  /** Cutting the joined list at its NULs gives the names back, when no name holds a NUL. */
  lemma {:induction false} JoinNulSplits(names: seq<string>)
    requires names != [] && forall k :: 0 <= k < |names| ==> '\0' !in names[k]
    ensures Fields(JoinNul(names), '\0') == names
    decreases |names|
  {
    if |names| == 1 {
      FieldsSingle(names[0], '\0');
    } else {
      var init := names[..|names| - 1];
      JoinNulSplits(init);
      FieldsSnoc(JoinNul(init), names[|names| - 1], '\0');
      assert init + [names[|names| - 1]] == names;
    }
  }

  /** The joined list's length: the names' lengths plus one separator between each pair. */
  function TotalLength(names: seq<string>): nat
    decreases |names|
  {
    if names == [] then 0 else TotalLength(names[..|names| - 1]) + |names[|names| - 1]|
  }

  lemma {:induction false} JoinNulLength(names: seq<string>)
    requires names != []
    ensures |JoinNul(names)| == TotalLength(names) + |names| - 1
    decreases |names|
  {
    if |names| > 1 {
      JoinNulLength(names[..|names| - 1]);
      assert names[..|names| - 1][..|names| - 2] == names[..|names| - 2];
    } else {
      assert names[..0] == [];
    }
  }

  /** listxattr: the attribute names joined by NULs, or ERANGE when that does not fit a
      non-zero `size`. */
  method Listxattr(paths: FusePathManager, hadoop: HadoopController, nodeid: uint64, size: uint32,
                   got: Result<seq<string>>)
    returns (list: string, result: Errno, calls: seq<Call>)
    ensures calls == [ListxattrOp(paths.Get(nodeid))]
    ensures got.Err? ==> list == "" && result == RecoverError(got.error)
    ensures got.Ok? ==> list == JoinNul(got.value) && result == (if TooLong(list, size) then ERANGE else SUCCESS)
  {
    var filepath := paths.Get(nodeid);
    calls := [ListxattrOp(filepath)];
    list := "";
    if got.Err? {
      result := RecoverError(got.error);
      return;
    }
    list := JoinNames(got.value);
    if size > 0 && ToUint32(|list|) > size {
      result := RecoverError(Range);
      return;
    }
    result := SUCCESS;
  }
}
