/** The file record (fs/model/file.go): a WebHDFS FileStatus as decoded from JSON, the adapter
    that turns it into stat fields in place, and its export to a stat and to a directory entry. */
module FileModels {
  import opened GoInts
  import opened Errors
  import opened Strconv
  import Util

  /** File type bits of a stat mode (syscall.S_IFDIR, S_IFREG, S_IFLNK). */
  const S_IFDIR: nat := 0x4000
  const S_IFREG: nat := 0x8000
  const S_IFLNK: nat := 0xA000

  /** The `type` strings of a WebHDFS FileStatus. */
  const HADOOP_DIR: string := "DIRECTORY"
  const HADOOP_FILE: string := "FILE"
  const HADOOP_SYMLINK: string := "SYMLINK"

  const DIR_SIZE: int := 4096

  datatype FileModel = FileModel(
    Name: string,          // pathSuffix
    FileType: int,
    StMode: uint64,
    StIno: uint32,         // fileId
    StDev: uint32,
    StRdev: uint32,
    StNlink: uint32,
    StUID: uint64,
    StGid: uint64,
    StSize: int64,         // length
    StAtime: int64,        // accessTime (ms as decoded)
    StMtime: int64,        // modificationTime (ms as decoded)
    StCtime: int64,
    StBlksize: int32,      // blockSize
    StBlocks: int32,
    HadoopOwner: string,
    HadoopGroup: string,
    HadoopType: string,
    HadoopPermission: string,
    ChildrenNum: int)

  /** The Go zero value of the struct. */
  const ZERO_FILE: FileModel :=
    FileModel("", 0, 0, 0, 0, 0, 0, 0, 0, 0, 0, 0, 0, 0, 0, "", "", "", "", 0)

  /** The fields of a syscall.Stat_t that WriteToStat fills; times stay in nanoseconds (the
      timespec split is not modelled). Mode is kept unbounded: both operands of its OR are
      reduced to 32 bits first. */
  datatype Stat = Stat(
    Ino: uint64, Mode: nat, Uid: uint32, Gid: uint32, Nlink: uint64, Size: int64,
    Blksize: int64, Dev: uint64, Rdev: uint64, Blocks: int64, Atim: int64, Mtim: int64, Ctim: int64)

  /** A kernel directory entry. */
  datatype Dirent = Dirent(Ino: uint64, Off: uint64, NameLen: uint32, DirType: uint32, Name: string)

  /** The local account database consulted by user.Lookup and user.LookupGroup: name to id. */
  datatype Accounts = Accounts(users: map<string, uint64>, groups: map<string, uint64>)

  /** user.Lookup (or user.LookupGroup) of `name`, falling back to `fallback` when `name` is
      unknown, with the fallback's error dropped: when both are unknown the account pointer is
      nil and reading its id panics (None). */
  function ResolveId(db: map<string, uint64>, name: string, fallback: string): (id: Option<uint64>)
    ensures id.Some? <==> name in db || fallback in db
    ensures name in db ==> id == Some(db[name])
    ensures name !in db && fallback in db ==> id == Some(db[fallback])
  {
    if name in db then Some(db[name]) else if fallback in db then Some(db[fallback]) else None
  }

  /** The owner of a record resolves to a uid and a gid without dereferencing a nil account: the
      group is looked up by the owner's name too, with "nogroup" as its fallback. */
  predicate OwnerResolves(accounts: Accounts, owner: string) {
    ResolveId(accounts.users, owner, "nobody").Some? && ResolveId(accounts.groups, owner, "nogroup").Some?
  }

  /** `strconv.ParseUint(permission, 8, 16)` with its error dropped: the value of an all-octal
      string that fits in 16 bits; 0 for an empty string or a non-octal character met before
      the running value exceeds 0xFFFF; 0xFFFF once a digit prefix exceeds it. */
  function PermissionBits(permission: string): (m: uint16)
    ensures permission != [] && AllDigits(permission, 8) && ValueOf(permission, 8) <= 0xFFFF
      ==> m == ValueOf(permission, 8)
    ensures permission == [] ==> m == 0
    ensures forall k :: SyntaxErrorAt(permission, k, 8, 0xFFFF) ==> m == 0
    ensures forall k :: OverflowAt(permission, k, 8, 0xFFFF) ==> m == 0xFFFF
  {
    var m := ParseUint(permission, 8, 0xFFFF);
    assert permission != [] && AllDigits(permission, 8) && ValueOf(permission, 8) <= 0xFFFF
      ==> m == ValueOf(permission, 8) by {
      if permission != [] && AllDigits(permission, 8) && ValueOf(permission, 8) <= 0xFFFF {
        ParseUintDigits(permission, 8, 0xFFFF);
      }
    }
    assert forall k :: SyntaxErrorAt(permission, k, 8, 0xFFFF) ==> m == 0 by {
      forall k | SyntaxErrorAt(permission, k, 8, 0xFFFF)
        ensures m == 0
      {
        assert permission == permission[..k] + [permission[k]] + permission[k + 1..];
        ParseFromSyntax(0, permission[..k], permission[k], permission[k + 1..], 8, 0xFFFF);
      }
    }
    assert forall k :: OverflowAt(permission, k, 8, 0xFFFF) ==> m == 0xFFFF by {
      forall k | OverflowAt(permission, k, 8, 0xFFFF)
        ensures m == 0xFFFF
      {
        assert permission == permission[..k] + permission[k..];
        ParseFromRange(0, permission[..k], permission[k..], 8, 0xFFFF);
      }
    }
    m
  }

  /** AdjustNormal: rewrites a record fetched from WebHDFS into stat conventions, field by
      field. Not idempotent: each call rescales StMtime again. It panics (None) when the owner
      and the fallback account of the uid or of the gid are both unknown. */
  method AdjustNormal(file: FileModel, accounts: Accounts) returns (adjusted: Option<FileModel>)
    ensures adjusted.Some? <==> OwnerResolves(accounts, file.HadoopOwner)
    ensures adjusted.Some? ==> var f := adjusted.value;
      && f.StMtime == Util.MsToNs(file.StMtime) && f.StCtime == f.StMtime
      && (file.HadoopType == HADOOP_DIR ==>
            && f.FileType == S_IFDIR && f.StSize == DIR_SIZE && f.StNlink == 2
            && f.StAtime == (if file.StAtime == 0 then f.StMtime else file.StAtime))
      && (file.HadoopType == HADOOP_FILE ==>
            f.FileType == S_IFREG && f.StNlink == 1 && f.StSize == file.StSize && f.StAtime == file.StAtime)
      && (file.HadoopType == HADOOP_SYMLINK ==>
            && f.FileType == S_IFLNK
            && f.StNlink == file.StNlink && f.StSize == file.StSize && f.StAtime == file.StAtime)
      && (file.HadoopType !in {HADOOP_DIR, HADOOP_FILE, HADOOP_SYMLINK} ==>
            && f.FileType == file.FileType
            && f.StNlink == file.StNlink && f.StSize == file.StSize && f.StAtime == file.StAtime)
      && f.StMode == PermissionBits(file.HadoopPermission)
      && Some(f.StUID) == ResolveId(accounts.users, file.HadoopOwner, "nobody")
      && Some(f.StGid) == ResolveId(accounts.groups, file.HadoopOwner, "nogroup")
      && f == file.(FileType := f.FileType, StMode := f.StMode, StNlink := f.StNlink,
                    StUID := f.StUID, StGid := f.StGid, StSize := f.StSize,
                    StAtime := f.StAtime, StMtime := f.StMtime, StCtime := f.StCtime)
  {
    var f := file;
    f := f.(StMtime := Util.MsToNs(f.StMtime));
    if f.HadoopType == HADOOP_DIR {
      f := f.(FileType := S_IFDIR);
      f := f.(StSize := DIR_SIZE);
      f := f.(StNlink := 2);
      if f.StAtime == 0 {
        f := f.(StAtime := f.StMtime);
      }
    } else if f.HadoopType == HADOOP_FILE {
      f := f.(FileType := S_IFREG);
      f := f.(StNlink := 1);
    } else if f.HadoopType == HADOOP_SYMLINK {
      f := f.(FileType := S_IFLNK);
    }
    f := f.(StCtime := f.StMtime);
    var mode := PermissionBits(f.HadoopPermission);
    f := f.(StMode := mode);
    // the group is looked up by the owner's name, not by HadoopGroup
    var uid := ResolveId(accounts.users, f.HadoopOwner, "nobody");
    if uid.None? {
      return None;
    }
    f := f.(StUID := uid.value);
    var gid := ResolveId(accounts.groups, f.HadoopOwner, "nogroup");
    if gid.None? {
      return None;
    }
    f := f.(StGid := gid.value);
    adjusted := Some(f);
  }

  /** `stat` is what WriteToStat makes of `file`: every field copied, the ids reduced to 32
      bits, the mode the OR of type and permission. */
  predicate StatOf(stat: Stat, file: FileModel) {
    && stat.Ino == file.StIno
    && stat.Mode == BitOr(ToUint32(file.FileType), ToUint32(file.StMode))
    && stat.Uid == ToUint32(file.StUID) && stat.Gid == ToUint32(file.StGid)
    && stat.Nlink == file.StNlink && stat.Size == file.StSize
    && stat.Blksize == file.StBlksize && stat.Dev == file.StDev && stat.Rdev == file.StRdev
    && stat.Blocks == file.StBlocks
    && stat.Atim == file.StAtime && stat.Mtim == file.StMtime && stat.Ctim == file.StCtime
  }

  /** WriteToStat: copies the record into a stat; the mode is the OR of type and permission. */
  method WriteToStat(file: FileModel) returns (stat: Stat)
    ensures StatOf(stat, file)
  {
    stat := Stat(0, 0, 0, 0, 0, 0, 0, 0, 0, 0, 0, 0, 0);
    stat := stat.(Ino := file.StIno);
    stat := stat.(Mode := BitOr(ToUint32(file.FileType), ToUint32(file.StMode)));
    stat := stat.(Uid := ToUint32(file.StUID));
    stat := stat.(Gid := ToUint32(file.StGid));
    stat := stat.(Nlink := file.StNlink);
    stat := stat.(Size := file.StSize);
    stat := stat.(Blksize := file.StBlksize);
    stat := stat.(Dev := file.StDev);
    stat := stat.(Rdev := file.StRdev);
    stat := stat.(Blocks := file.StBlocks);
    stat := stat.(Atim := file.StAtime);
    stat := stat.(Mtim := file.StMtime);
    stat := stat.(Ctim := file.StCtime);
  }

  /** For the file types AdjustNormal assigns (or none) and a permission below 0o10000, the stat
      mode carries the type in its high bits and the permission in its low twelve bits. */
  lemma ModeOfTypeAndPermission(fileType: int, permission: uint64)
    requires fileType in {0, S_IFDIR, S_IFREG, S_IFLNK} && permission < 0x1000
    ensures BitOr(ToUint32(fileType), ToUint32(permission)) == fileType + permission
    ensures (fileType + permission) / 0x1000 == fileType / 0x1000
    ensures (fileType + permission) % 0x1000 == permission
  {
    assert Pow2(12) == 0x1000 by {
      assert Pow2(4) == 16;
      assert Pow2(8) == 256;
    }
    var h := if fileType == 0 then 0 else if fileType == S_IFDIR then 4 else if fileType == S_IFREG then 8 else 10;
    assert fileType == h * 0x1000;
    BitOrDisjoint(h, permission, 12);
  }

  /** ToFuseDirent: the directory entry naming this record. */
  function ToFuseDirent(file: FileModel): (ent: Dirent)
    ensures ent.Ino == file.StIno && ent.Name == file.Name && ent.Off == 0
    ensures ent.NameLen == ToUint32(|file.Name|) && ent.DirType == ToUint32(file.StMode)
  {
    Dirent(file.StIno, 0, ToUint32(|file.Name|), ToUint32(file.StMode), file.Name)
  }
}
