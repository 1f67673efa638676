/** The request handlers of fs/fs.go, the older revision of the dispatcher. They map errors
    inline instead of recovering panics, so a Go runtime panic (readdir's index panic, or the nil
    account AdjustNormal dereferences when a record's owner does not resolve) is not caught and
    ends the process: such a handler reports `crashed`, and its result means nothing. Remote outcomes the controller source does not show (Create,
    ModificationTime) are inputs; each handler returns the calls it issued. */
module DispatchLegacy {
  import opened GoInts
  import opened Errors
  import opened FileModels
  import opened RemoteCalls
  import Util
  import opened PathCache
  import opened NegativeCache
  import opened Root
  import opened Hadoop
  import opened Listing
  import DispatchOpt

  /** getattr: the root from the memoised root record without a remote call; any other path is
      fetched, and a failed fetch is ENOENT with the caller's stat left as it was (None). */
  method Getattr(paths: FusePathManager, root: RootController, hadoop: HadoopController, accounts: Accounts,
                 nodeid: uint64, uid: uint64, gid: uint64, startTime: int64, resp: Response<Option<FileModel>>)
    returns (stat: Option<Stat>, result: Errno, crashed: bool, calls: seq<Call>)
    modifies root
    ensures crashed <==> (paths.Get(nodeid) != "/" && StatusOf(resp).Ok?
                          && !OwnerResolves(accounts, StatusOf(resp).value.HadoopOwner))
    ensures var path := paths.Get(nodeid);
      && (path == "/" ==>
            && calls == [] && result == SUCCESS && root.rootFile.Some? && stat.Some?
            && StatOf(stat.value, root.rootFile.value)
            && (old(root.rootFile).Some? ==> root.rootFile == old(root.rootFile))
            && (old(root.rootFile).None? ==> RootStat(stat.value, uid, gid, startTime)))
      && (path != "/" ==>
            && calls == [StatOp(path)] && root.rootFile == old(root.rootFile)
            && (StatusOf(resp).Err? ==> result == ENOENT && stat == None)
            && (StatusOf(resp).Ok? && !crashed ==>
                  result == SUCCESS && stat.Some? && DispatchOpt.ExportedFrom(stat.value, StatusOf(resp).value, accounts)))
  {
    var path := paths.Get(nodeid);
    crashed := false;
    if path == "/" {
      var rootfile := root.GetRoot(uid, gid, startTime);
      var attr := WriteToStat(rootfile);
      return Some(attr), SUCCESS, false, [];
    }
    var res := hadoop.GetFileStatus(path, resp);
    calls := [StatOp(path)];
    if res.Err? {
      return None, ENOENT, false, calls;
    }
    var attr := DispatchOpt.Export(res.value, accounts);
    if attr.None? {
      return None, ENOSYS, true, calls;
    }
    stat, result := attr, SUCCESS;
  }

  /** readdir: the listing loop. Nothing recovers the index panic on an empty page that claims
      more entries, nor the panic on a listed record whose owner does not resolve, so both crash
      the process (`crashed`); otherwise the reply is SUCCESS. `end` says how the listing ended. */
  method Readdir(paths: FusePathManager, hadoop: HadoopController, accounts: Accounts, nodeid: uint64,
                 size: uint32, offset: uint64, responses: seq<Response<Option<Batch>>>)
    returns (fileList: seq<Dirent>, result: Errno, crashed: bool, cursors: seq<string>, ghost end: ListingEnd)
    ensures ListingOf(accounts, responses, nodeid, size, offset, fileList, cursors, end)
    ensures crashed <==> end != Complete
    ensures !crashed ==> result == SUCCESS
  {
    var path := paths.Get(nodeid);
    var e;
    fileList, cursors, e := ListDirectory(hadoop, accounts, nodeid, path, size, offset, responses);
    end := e;
    crashed := e != Complete;
    result := SUCCESS;
  }

  /** lookup: as in the revised dispatcher, but the stat and the generation are written through
      the caller's pointers, which a failure leaves untouched (None). */
  method Lookup(paths: FusePathManager, negatives: NotExistCache, hadoop: HadoopController, accounts: Accounts,
                parentId: uint64, name: string, now: int64, resp: Response<Option<FileModel>>)
    returns (stat: Option<Stat>, generation: Option<uint64>, result: Errno, crashed: bool, calls: seq<Call>)
    modifies paths`pathDict, negatives`dict
    ensures var filePath := Util.MergePath(old(paths.Get(parentId)), name);
      && (crashed <==> NotCached(old(negatives.dict), filePath, now) && StatusOf(resp).Ok?
                       && !OwnerResolves(accounts, StatusOf(resp).value.HadoopOwner))
      && (crashed ==> paths.pathDict == old(paths.pathDict) && negatives.dict == AfterCheck(old(negatives.dict), filePath, now))
      && (!crashed && result != SUCCESS ==> result == ENOENT && stat == None && generation == None)
      && (!NotCached(old(negatives.dict), filePath, now) ==>
            && result == ENOENT && calls == []
            && paths.pathDict == old(paths.pathDict) && negatives.dict == old(negatives.dict))
      && (NotCached(old(negatives.dict), filePath, now) ==> calls == [StatOp(filePath)])
      && (NotCached(old(negatives.dict), filePath, now) && StatusOf(resp).Err? ==>
            && result == ENOENT && paths.pathDict == old(paths.pathDict)
            && negatives.dict == Step(AfterCheck(old(negatives.dict), filePath, now), Put(filePath, negatives.NegativeTimeout, now)))
      && (NotCached(old(negatives.dict), filePath, now) && StatusOf(resp).Ok? && !crashed ==>
            && result == SUCCESS && stat.Some? && generation == Some(1)
            && DispatchOpt.ExportedFrom(stat.value, StatusOf(resp).value, accounts)
            && paths.pathDict == old(paths.pathDict)[StatusOf(resp).value.StIno as uint64 := filePath]
            && negatives.dict == AfterCheck(old(negatives.dict), filePath, now))
  {
    var parentPath := paths.Get(parentId);
    var filePath := Util.MergePath(parentPath, name);
    stat, generation, crashed, calls := None, None, false, [];
    var notExist := negatives.IsNotExist(filePath, now);
    ghost var checked := negatives.dict;
    assert checked == AfterCheck(old(negatives.dict), filePath, now);
    if notExist == false {
      result := ENOENT;
    } else {
      var res := hadoop.GetFileStatus(filePath, resp);
      calls := [StatOp(filePath)];
      if res.Err? {
        negatives.Insert(filePath, negatives.NegativeTimeout, now);
        result := ENOENT;
      } else {
        stat, generation, result, crashed := MapFound(paths, accounts, filePath, res.value);
        assert negatives.dict == checked;
      }
    }
  }

  /** The tail of lookup once the record is fetched: export it and map its inode to the path;
      an owner that does not resolve crashes before anything is mapped. */
  method MapFound(paths: FusePathManager, accounts: Accounts, filePath: string, file: FileModel)
    returns (stat: Option<Stat>, generation: Option<uint64>, result: Errno, crashed: bool)
    modifies paths`pathDict
    ensures crashed <==> !OwnerResolves(accounts, file.HadoopOwner)
    ensures crashed ==> result == ENOSYS && stat == None && generation == None && paths.pathDict == old(paths.pathDict)
    ensures !crashed ==>
      && result == SUCCESS && stat.Some? && generation == Some(1)
      && DispatchOpt.ExportedFrom(stat.value, file, accounts)
      && paths.pathDict == old(paths.pathDict)[file.StIno as uint64 := filePath]
  {
    var attr := DispatchOpt.Export(file, accounts);
    if attr.None? {
      stat, generation, result, crashed := None, None, ENOSYS, true;
    } else {
      stat, generation, result, crashed := attr, Some(1), SUCCESS, false;
      paths.Insert(file.StIno as uint64, filePath);
    }
  }

  /** read: an unmapped node is ENOENT; end-of-file counts as success with what was read; any
      other failure is ENOENT. */
  method Read(paths: FusePathManager, hadoop: HadoopController, nodeid: uint64, size: uint32, offset: uint64,
              resp: Response<seq<byte>>)
    returns (content: seq<byte>, result: Errno, calls: seq<Call>)
    ensures var path := paths.Get(nodeid);
      && (path == "" ==> result == ENOENT && calls == [] && content == [])
      && (path != "" ==>
            && calls == [ReadOp(path, offset, size)]
            && (ReadOf(resp).Ok? ==> result == SUCCESS && content == ReadOf(resp).value)
            && (ReadOf(resp).Err? ==> content == [] && result == (if ReadOf(resp).error == Eof then SUCCESS else ENOENT)))
  {
    var path := paths.Get(nodeid);
    if path == "" {
      return [], ENOENT, [];
    }
    var res := hadoop.Read(path, offset, size, 0, resp);
    calls := [ReadOp(path, offset, size)];
    if res.Err? && res.error != Eof {
      return [], ENOENT, calls;
    }
    content := if res.Ok? then res.value else [];
    result := SUCCESS;
  }

  /** mkdir: a refused MKDIRS is EACCES; any other failure, a false answer, or a failed fetch
      of the new directory is ENOSYS. The controller reports a 403 from MKDIRS as end-of-file,
      never as a denial, so the EACCES branch is never taken. */
  method Mkdir(paths: FusePathManager, negatives: NotExistCache, hadoop: HadoopController, accounts: Accounts,
               parentid: uint64, name: string, mode: uint32, mkResp: Response<Option<bool>>,
               resp: Response<Option<FileModel>>)
    returns (stat: Option<EntryOut>, result: Errno, crashed: bool, calls: seq<Call>)
    modifies paths`pathDict, negatives`dict
    ensures !crashed ==> result != EACCES
    ensures crashed <==> (MakeDirOf(mkResp) == Ok(true) && StatusOf(resp).Ok?
                          && !OwnerResolves(accounts, StatusOf(resp).value.HadoopOwner))
    ensures crashed ==> paths.pathDict == old(paths.pathDict) && negatives.dict == old(negatives.dict)
    ensures var filePath := Util.MergePath(old(paths.Get(parentid)), name);
      && |calls| >= 1 && calls[0] == MkdirOp(filePath, Util.ModeToStr(mode))
      && (MakeDirOf(mkResp) != Ok(true) ==>
            && calls == [calls[0]] && stat == None && result == ENOSYS
            && paths.pathDict == old(paths.pathDict) && negatives.dict == old(negatives.dict))
      && (MakeDirOf(mkResp) == Ok(true) ==> calls == [calls[0], StatOp(filePath)])
      && (MakeDirOf(mkResp) == Ok(true) && StatusOf(resp).Err? ==>
            && stat == None && result == ENOSYS
            && paths.pathDict == old(paths.pathDict) && negatives.dict == old(negatives.dict))
      && (MakeDirOf(mkResp) == Ok(true) && StatusOf(resp).Ok? && !crashed ==>
            && result == SUCCESS && stat.Some?
            && stat.value.Nodeid == StatusOf(resp).value.StIno && stat.value.Generation == 1
            && DispatchOpt.ExportedFrom(stat.value.Attr, StatusOf(resp).value, accounts)
            && paths.pathDict == old(paths.pathDict)[StatusOf(resp).value.StIno as uint64 := filePath]
            && negatives.dict == old(negatives.dict) - {filePath})
  {
    var path := paths.Get(parentid);
    var filePath := Util.MergePath(path, name);
    var modeStr := Util.ModeToStr(mode);
    var made := hadoop.MakeDir(filePath, modeStr, mkResp);
    calls := [MkdirOp(filePath, modeStr)];
    stat, result, crashed := None, ENOSYS, false;
    if made.Err? && made.error == Access {
      result := EACCES;
    } else if made.Ok? && made.value {
      stat, result, crashed := FetchNew(paths, negatives, hadoop, accounts, filePath, resp);
      calls := calls + [StatOp(filePath)];
    }
  }

  /** The tail shared by mkdir and create: fetch the new entry; a failed fetch is ENOSYS; an
      owner that does not resolve crashes before any cache changes; otherwise the exported
      stat, its inode mapped to the path and any negative entry for the path forgotten. */
  method FetchNew(paths: FusePathManager, negatives: NotExistCache, hadoop: HadoopController, accounts: Accounts,
                  filePath: string, resp: Response<Option<FileModel>>)
    returns (stat: Option<EntryOut>, result: Errno, crashed: bool)
    modifies paths`pathDict, negatives`dict
    ensures crashed <==> StatusOf(resp).Ok? && !OwnerResolves(accounts, StatusOf(resp).value.HadoopOwner)
    ensures StatusOf(resp).Err? || crashed ==>
      && stat == None && result == ENOSYS
      && paths.pathDict == old(paths.pathDict) && negatives.dict == old(negatives.dict)
    ensures StatusOf(resp).Ok? && !crashed ==>
      && result == SUCCESS && stat.Some?
      && stat.value.Nodeid == StatusOf(resp).value.StIno && stat.value.Generation == 1
      && DispatchOpt.ExportedFrom(stat.value.Attr, StatusOf(resp).value, accounts)
      && paths.pathDict == old(paths.pathDict)[StatusOf(resp).value.StIno as uint64 := filePath]
      && negatives.dict == old(negatives.dict) - {filePath}
  {
    stat, result, crashed := None, ENOSYS, false;
    var res := hadoop.GetFileStatus(filePath, resp);
    if res.Ok? {
      var attr := DispatchOpt.Export(res.value, accounts);
      if attr.None? {
        crashed := true;
      } else {
        stat := Some(EntryOut(res.value.StIno as uint64, 1, attr.value));
        paths.Insert(res.value.StIno as uint64, filePath);
        negatives.Delete(filePath);
        result := SUCCESS;
      }
    }
  }

  /** The code the older create returns for a failed CREATE: EEXIST and EACCES pass through,
      anything else is ENOENT. */
  function CreateFailure(e: ErrorKind): (code: Errno)
    ensures code in {EEXIST, EACCES, ENOENT}
    ensures code == EEXIST <==> e == Exist
    ensures code == EACCES <==> e == Access
  {
    if e == Exist then EEXIST else if e == Access then EACCES else ENOENT
  }

  /** The two revisions disagree on a denied CREATE: the older one reports EACCES, the revised
      one ENOENT; on an existing file both report EEXIST. */
  lemma CreateRevisionsDiffer()
    ensures CreateFailure(Access) == EACCES && DispatchOpt.RecoverError(Access) == ENOENT
    ensures CreateFailure(Exist) == DispatchOpt.RecoverError(Exist) == EEXIST
  {
  }

  /** create: an unmapped parent is ENOENT without a remote call; a failed CREATE is mapped by
      CreateFailure; a failed fetch of the new file is ENOSYS; success updates both caches. */
  method Create(paths: FusePathManager, negatives: NotExistCache, hadoop: HadoopController, accounts: Accounts,
                parentid: uint64, name: string, mode: uint32, created: Option<ErrorKind>,
                resp: Response<Option<FileModel>>)
    returns (stat: Option<EntryOut>, result: Errno, crashed: bool, calls: seq<Call>)
    modifies paths`pathDict, negatives`dict
    ensures crashed <==> (old(paths.Get(parentid)) != "" && created.None? && StatusOf(resp).Ok?
                          && !OwnerResolves(accounts, StatusOf(resp).value.HadoopOwner))
    ensures crashed ==> paths.pathDict == old(paths.pathDict) && negatives.dict == old(negatives.dict)
    ensures var path := old(paths.Get(parentid));
      var filePath := Util.MergePath(path, name);
      && (path == "" ==>
            result == ENOENT && stat == None && calls == []
            && paths.pathDict == old(paths.pathDict) && negatives.dict == old(negatives.dict))
      && (path != "" && created.Some? ==>
            && result == CreateFailure(created.value) && stat == None
            && calls == [CreateOp(filePath, Util.ModeToStr(mode))]
            && paths.pathDict == old(paths.pathDict) && negatives.dict == old(negatives.dict))
      && (path != "" && created.None? ==> calls == [CreateOp(filePath, Util.ModeToStr(mode)), StatOp(filePath)])
      && (path != "" && created.None? && StatusOf(resp).Err? ==>
            && stat == None && result == ENOSYS
            && paths.pathDict == old(paths.pathDict) && negatives.dict == old(negatives.dict))
      && (path != "" && created.None? && StatusOf(resp).Ok? && !crashed ==>
            && result == SUCCESS && stat.Some?
            && stat.value.Nodeid == StatusOf(resp).value.StIno && stat.value.Generation == 1
            && DispatchOpt.ExportedFrom(stat.value.Attr, StatusOf(resp).value, accounts)
            && paths.pathDict == old(paths.pathDict)[StatusOf(resp).value.StIno as uint64 := filePath]
            && negatives.dict == old(negatives.dict) - {filePath})
  {
    var path := paths.Get(parentid);
    crashed := false;
    if path == "" {
      return None, ENOENT, false, [];
    }
    var filePath := Util.MergePath(path, name);
    var modeStr := Util.ModeToStr(mode);
    calls := [CreateOp(filePath, modeStr)];
    stat, result := None, ENOSYS;
    if created.Some? {
      result := CreateFailure(created.value);
    } else {
      stat, result, crashed := FetchNew(paths, negatives, hadoop, accounts, filePath, resp);
      calls := calls + [StatOp(filePath)];
    }
  }

  /** setattr: only the times are forwarded, in one call and only when one of them is positive;
      a denial is EACCES and any other failure ENOENT. Mode, uid, gid and ctime are ignored. */
  method Setattr(paths: FusePathManager, hadoop: HadoopController, nodeid: uint64, atimeNs: int64, mtimeNs: int64,
                 toSet: uint32, timesDone: Option<ErrorKind>)
    returns (result: Errno, calls: seq<Call>)
    ensures var path := paths.Get(nodeid);
      var atime := DispatchOpt.TimeArg(toSet, DispatchOpt.FATTR_ATIME, atimeNs);
      var mtime := DispatchOpt.TimeArg(toSet, DispatchOpt.FATTR_MTIME, mtimeNs);
      && (path == "" ==> result == ENOENT && calls == [])
      && (path != "" && !(atime > 0 || mtime > 0) ==> result == SUCCESS && calls == [])
      && (path != "" && (atime > 0 || mtime > 0) ==>
            && calls == [TimesOp(path, atime, mtime)]
            && result == (if timesDone.None? then SUCCESS else if timesDone.value == Access then EACCES else ENOENT))
  {
    var filepath := paths.Get(nodeid);
    calls := [];
    if filepath == "" {
      return ENOENT, calls;
    }
    var atime: int64 := -1;
    var mtime: int64 := -1;
    if DispatchOpt.HasBit(toSet, DispatchOpt.FATTR_ATIME) {
      atime := Util.NsToMs(atimeNs);
    }
    if DispatchOpt.HasBit(toSet, DispatchOpt.FATTR_MTIME) {
      mtime := Util.NsToMs(mtimeNs);
    }
    if atime > 0 || mtime > 0 {
      calls := [TimesOp(filepath, atime, mtime)];
      if timesDone == Some(Access) {
        return EACCES, calls;
      } else if timesDone.Some? {
        return ENOENT, calls;
      }
    }
    result := SUCCESS;
  }
}
