/** What the handlers of both dispatcher revisions hand back: the WebHDFS operations they issue,
    in order, and the entry record a lookup, mkdir or create returns to the kernel. */
module RemoteCalls {
  import opened GoInts
  import opened FileModels

  /** One call on the WebHDFS controller. */
  datatype Call =
    | StatOp(path: string)
    | ReadOp(path: string, offset: uint64, length: uint32)
    | MkdirOp(path: string, permission: string)
    | CreateOp(path: string, permission: string)
    | AppendOp(path: string, data: seq<byte>)
    | TruncateOp(path: string, newLength: int64)
    | DeleteOp(path: string)
    | RenameOp(src: string, dst: string)
    | SetxattrOp(path: string, name: string, value: string, flag: string)
    | GetxattrOp(path: string, name: string)
    | ListxattrOp(path: string)
    | TimesOp(path: string, atime: int64, mtime: int64)
    | PermissionOp(path: string, permission: string)

  /** fuse.FileStat: the node id the kernel will use, its generation, and the attributes. */
  datatype EntryOut = EntryOut(Nodeid: uint64, Generation: uint64, Attr: Stat)

  /** The zero stat (a freshly allocated fuse.FileStat). */
  const ZERO_STAT: Stat := Stat(0, 0, 0, 0, 0, 0, 0, 0, 0, 0, 0, 0, 0)
}
