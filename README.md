# hadoop-fs: the FUSE-to-WebHDFS request and caching core, in Dafny

hadoop-fs mounts an Apache Hadoop file system through FUSE, speaking the WebHDFS REST API.
This project models its core:

- the path helpers (`fs/util/util.go`);
- the node-id → path cache and the negative-lookup cache (`fs/cache`);
- the attribute adapter that turns a WebHDFS `FileStatus` record into stat fields (`fs/model/file.go`);
- the memoised root record (`fs/controler/root_controller.go`);
- the WebHDFS request shaping and status classification (`fs/controler/hadoop_controller.go`);
- both revisions of the request handlers: `fs/fs_opt.go`, where each handler defers `recoverError`, and the older `fs/fs.go`, which maps errors inline.

The kernel and the network are replaced by inputs:

- A WebHDFS reply is a `Response`: a transport failure, or a status code with the decoded exception and the decoded body.
- The remote operations whose client code is not part of this model are outcome parameters. These are create, append, truncate, delete, rename, the xattr calls, `ModificationTime` and `SetPermission`.
- Every handler also returns the list of remote `Call`s it issued, in order.
- Time is a parameter.

| file | Dafny module | form |
|---|---|---|
| `go_ints.dfy` | `GoInts` | Go integer widths, wrap-around and conversions |
| `strconv.dfy` | `Strconv` | the parts of Go's `strconv` the core uses: octal/decimal formatting and `ParseUint` |
| `util.dfy` | `Util` | pure functions |
| `path_cache.dfy` | `PathCache` | class `FusePathManager` over a `map`, plus a function model of its operation log |
| `not_exist_cache.dfy` | `NegativeCache` | class `NotExistCache` over a `map`, plus a function model of its operation log |
| `file_model.dfy` | `FileModels` | the `FileModel` record; `AdjustNormal` and `WriteToStat` as step-by-step methods |
| `root_controller.dfy` | `Root` | class `RootController` with the memo field |
| `errors.dfy` | `Errors` | `Option`, `Result`, error conditions, errno codes |
| `hadoop_controller.dfy` | `Hadoop` | URL building (functions), class `HadoopController` (methods) |
| `listing.dfy` | `Listing` | the paginated readdir loop shared by both handler revisions |
| `remote_calls.dfy` | `RemoteCalls` | the remote call log and the entry record |
| `dispatch_opt.dfy` | `DispatchOpt` | the handlers of `fs/fs_opt.go` |
| `dispatch_legacy.dfy` | `DispatchLegacy` | the handlers of `fs/fs.go` |

Notes on reading the source:

- **Error sentinels.** The model uses one `ErrorKind` for all error sentinels, across three sets of names:
  - `fs_opt.go` compares against `herr.ErrNoFound`, `herr.ErrExist`, ….
  - `fs/controler/hadoop_error/error.go` declares `EOF`, `NO_FOUND`, `EEXIST`, `EACCES` and `EAGAIN`.
  - The controller raises `NO_FOUND` and `EOF` of `fs/controler/hadoop_resp.go`, and `fs.go` compares against `controler.EOF`, `EACCES` and `EEXIST`.

  The model identifies each condition across the three naming schemes (not-found, exists, access, end-of-file, again, …).
- **Cache method names.** `fs_opt.go` calls the caches' `Set`/`Del`, while `fs/cache` declares `Insert`/`Delete`. They are treated as the same operations.
- **`MakeDir` reports a 403 as end-of-file.** It does this exactly as `Read` does (`fs/controler/hadoop_controller.go:245-258`). So `MakeDir` never reports a denial. `fs/fs.go` compares against `controler.EACCES`, which `fs/controler/hadoop_resp.go` does not declare, so `fs.go` was written against a different `MakeDir`. With the `MakeDir` of `fs/controler/hadoop_controller.go:219-269`, `DispatchLegacy.Mkdir` proves that the `EACCES` branch of `fs/fs.go:205-209` can never be taken, and that a 403 on mkdir ends in `ENOSYS`. In `fs_opt.go` it ends in `ENOSYS` too, because end-of-file falls to the default case of `recoverError`.
- **Unknown accounts panic.** `AdjustNormal` ignores the error of the fallback lookups of "nobody" and "nogroup" (`fs/model/file.go:101-113`). When neither the owner nor the fallback exists, it reads the id through a nil account and panics. A host without a "nogroup" group takes this path for every owner that is not a local group name. The model carries the panic (`OwnerResolves` is false):
  - In `fs_opt.go` `recoverError` turns it into `ENOSYS`.
  - In `fs.go` nothing recovers it; the model reports it as `crashed`.
- **Times.** `AdjustNormal` rescales only the modification time from milliseconds to nanoseconds. The access time is exported as decoded, in milliseconds, except for a directory without one, which takes the rescaled modification time. `DispatchOpt.ExportedFrom` states this.
- **Readdir's index panic.** When WebHDFS reports entries remaining but sends an empty page, `remoteFiles[len(remoteFiles)-1]` panics.
  - In `fs_opt.go` this is recovered as `ENOSYS`, and the entries gathered so far are kept.
  - In `fs.go` nothing recovers it; the model reports it as `crashed`.

## Model

| member | source | states |
|---|---|---|
| GoInts.WrapInt64 | fs/util/util.go:63-65 | the int64 result is congruent to the exact value modulo 2^64 and equals it when it is in range |
| GoInts.ToUint64 | fs/model/file.go:52-72 | a uint64 conversion is congruent modulo 2^64 and exact for values in range |
| GoInts.ToUint32 | fs/model/file.go:52-72 | a uint32 conversion is congruent modulo 2^32 and exact for values in range |
| Strconv.DigitChar | fs/util/util.go:47-53 | the digit character of d is in '0'..'9' and its value is d |
| Strconv.FormatUint | fs/util/util.go:47-53 | the rendering is a nonempty string of base digits, without a leading zero, and is "0" exactly for 0 |
| Strconv.FormatInt | fs/controler/hadoop_controller.go:174-183 | a signed rendering is the unsigned one, with a '-' for negatives |
| Strconv.ParseUint | fs/model/file.go:96-98 | the parsed value never exceeds the bit-size bound |
| Strconv.FormatUintRoundTrip | fs/util/util.go:47-53 | the digits FormatUint renders denote n |
| Strconv.ParseUintDigits | fs/model/file.go:96-98 | a nonempty digit string whose value fits parses to that value |
| Strconv.FormatThenParse | fs/model/file.go:96-98 | parsing what FormatUint rendered gives the number back |
| Strconv.ParseFromSyntax | fs/model/file.go:96-98 | a non-digit met before the running value overflows is a syntax error: the parse gives 0 |
| Strconv.ParseFromRange | fs/model/file.go:96-98 | a digit prefix whose value exceeds the bound is a range error: the parse gives the bound, whatever follows |
| Util.TrimRight | fs/util/util.go:10-32 | the result is the longest prefix not ending in c; only c's were removed |
| Util.LastIndex | fs/util/util.go:10-32 | the index of the last c, or -1 when there is none |
| Util.GetParentPath | fs/util/util.go:10-20 | the parent always ends in '/', and is "/" or a proper prefix of the path |
| Util.GetFileName | fs/util/util.go:23-32 | the name contains no '/' and is no longer than the path |
| Util.MergePath | fs/util/util.go:35-44 | parent, then a '/' only when the parent is nonempty and does not end in '/', then the file |
| Util.ModeToStr | fs/util/util.go:47-53 | octal digits whose value, and whose ParseUint parse, is mode & 0o1777 |
| Util.NsToMs | fs/util/util.go:56-60 | division truncating toward zero: the quotient bounds for non-negative and negative inputs |
| Util.MsToNs | fs/util/util.go:63-65 | ms × 10^6 wherever it fits in int64 |
| Util.MsNsRoundTrip | fs/util/util.go:56-65 | NsToMs(MsToNs(ms)) == ms without overflow |
| Util.MsToNsNotIdempotent | fs/model/file.go:77 | rescaling an already rescaled time multiplies it again: the adapter must run once |
| Util.SplitThenMerge | fs/util/util.go:10-44 | merging a path's parent and name gives the path back, for a path with a '/' and no trailing '/' |
| Util.MergeThenSplit | fs/util/util.go:10-44 | splitting a merged plain name gives the name back, and the parent with exactly one trailing '/' ("/" for an empty parent) |
| PathCache.Lookup | fs/cache/path.go:26-31 | the stored path, or "" (Go's zero value) for an unknown id |
| PathCache.OthersLeaveEntry | fs/cache/path.go:20-37 | inserts and deletes of other ids never disturb an id's entry |
| PathCache.LastWriteWins | fs/cache/path.go:20-24 | after Insert(id, p), whatever happens to other ids, the id maps to p |
| PathCache.RootNotProtected | fs/cache/path.go:33-37 | deleting id 1 removes the root entry |
| PathCache.FusePathManager.Init | fs/cache/path.go:14-18 | the map is exactly {1 ↦ "/"} |
| PathCache.FusePathManager.Get | fs/cache/path.go:26-31 | the stored path, or "" for an unknown id |
| PathCache.FusePathManager.Insert | fs/cache/path.go:20-24 | the id now maps to the path and every other id is unchanged |
| PathCache.FusePathManager.Delete | fs/cache/path.go:33-37 | the id now maps to "" and every other id is unchanged |
| NegativeCache.ExpiryFor | fs/cache/cache.go:37-47 | the expiry is now + timeout × 10^9 ns wherever that fits in int64 |
| NegativeCache.OthersKeepEntry | fs/cache/cache.go:37-78 | operations on other paths leave a path's entry as it was |
| NegativeCache.TtlLaw | fs/cache/cache.go:16-72 | after Insert(p, t) at T0, IsNotExist(p) at T is true iff T >= T0 + t·10^9; it evicts p then and changes nothing otherwise |
| NegativeCache.NotExistCache.constructor | fs/cache/cache.go:26-31 | an empty cache with a zero timeout |
| NegativeCache.NotExistCache.Init | fs/cache/cache.go:33-35 | the dictionary is empty |
| NegativeCache.NotExistCache.Insert | fs/cache/cache.go:37-47 | the path's expiry is now + timeout seconds, replacing any earlier one; other paths are unchanged |
| NegativeCache.NotExistCache.IsNotExist | fs/cache/cache.go:51-72 | true without change for an unknown path; false without change for an unexpired entry; true, evicting only that entry, for an expired one |
| NegativeCache.NotExistCache.Delete | fs/cache/cache.go:74-78 | the path has no entry afterwards, and nothing else changes |
| FileModels.ResolveId | fs/model/file.go:100-113 | the account's id, or the fallback account's id when the name is unknown; a nil-account panic (None) exactly when both are unknown |
| FileModels.PermissionBits | fs/model/file.go:96-98 | the octal value of an all-octal string that fits in 16 bits; 0 for an empty string or a non-octal character met before overflow; 0xFFFF once a digit prefix exceeds 0xFFFF |
| FileModels.AdjustNormal | fs/model/file.go:75-114 | a panic (None) exactly when the owner and the fallback of the uid or the gid are both unknown; otherwise mtime × 10^6 and ctime = mtime, the directory, file, symlink and other-type cases, mode from the permission, uid and gid from the owner, every other field unchanged |
| FileModels.WriteToStat | fs/model/file.go:52-72 | `StatOf`: each stat field is the record's field, converted; the mode is the file type or'ed with the permission |
| FileModels.ModeOfTypeAndPermission | fs/model/file.go:55 | for a type bit and a 12-bit permission the or is a sum, and type and permission can be read back |
| FileModels.ToFuseDirent | fs/model/file.go:117-126 | inode and name of the record, offset 0, name length, and the mode bits as type |
| Root.RootController.constructor | fs/controler/root_controller.go:15-23 | no root record is memoised yet |
| Root.RootController.GetRoot | fs/controler/root_controller.go:25-52 | the first call builds and memoises the root directory record (mode, link count, size, owner, the three times); later calls return the memo unchanged |
| Root.RootController.GetRootTwice | fs/controler/root_controller.go:26-28 | two calls give the same record, built from the first call's arguments |
| Hadoop.FailureOf | fs/controler/hadoop_controller.go:143-155 | 404 is not-found; 403 is end-of-file only for Read and MakeDir; any other status is the decoded exception; an undecodable exception is a decoding failure |
| Hadoop.UrlAddParam | fs/controler/hadoop_controller.go:271-273 | the URL followed by exactly "&name=val" |
| Hadoop.AddParamRoundTrip | fs/controler/hadoop_controller.go:271-273 | the query parameters after urlAddParam are the old ones plus (name, val) |
| Hadoop.QueryParams | fs/controler/hadoop_controller.go:52-61 | the query of a joined URL is [user.name] (only for a nonempty user) followed by op |
| Hadoop.JoinUrlParams | fs/controler/hadoop_controller.go:52-61 | urlJoin's URL has a query, and its parameters are (user.name, if any) and op |
| Hadoop.PageOf | fs/controler/hadoop_controller.go:63-116 | any failed List gives no records and nothing remaining |
| Hadoop.HadoopController.constructor | fs/controler/hadoop_controller.go:23-33 | a zero-valued, uninitialised controller |
| Hadoop.HadoopController.Init | fs/controler/hadoop_controller.go:35-50 | the fields are set, the prefix is https exactly when ssl, and the controller is initialised |
| Hadoop.HadoopController.UrlJoin | fs/controler/hadoop_controller.go:52-61 | the URL of path and op built from the controller's fields |
| Hadoop.HadoopController.ListUrl | fs/controler/hadoop_controller.go:71-75 | LISTSTATUS_BATCH, with startAfter appended only when nonempty |
| Hadoop.HadoopController.MkdirUrl | fs/controler/hadoop_controller.go:222-226 | MKDIRS, with permission appended only when nonempty |
| Hadoop.HadoopController.List | fs/controler/hadoop_controller.go:63-116 | a 200 reply's page and remaining count, or an empty page; the error left behind after the recover, per failure |
| Hadoop.HadoopController.GetFileStatus | fs/controler/hadoop_controller.go:125-167 | the record of a 200 reply; not-found for 404; otherwise the exception or failure; never end-of-file |
| Hadoop.HadoopController.Read | fs/controler/hadoop_controller.go:169-217 | the body of a 200 reply; not-found for 404, end-of-file for 403, otherwise the exception |
| Hadoop.HadoopController.MakeDir | fs/controler/hadoop_controller.go:219-269 | the decoded boolean of a 200 reply; not-found for 404, end-of-file for 403, otherwise the exception; never a denial |
| Hadoop.ReadUrlAppends | fs/controler/hadoop_controller.go:172-183 | Read's URL appends offset (as int64), length (4096 when 0) and buffersize (4096 when not positive), in that order |
| Listing.DotsFor | fs/fs_opt.go:94-104 | "." and ".." exactly when the requested slot is below 2 |
| Listing.MapListed | fs/fs_opt.go:120-122 | one entry per listed record |
| Listing.DropN | fs/fs_opt.go:116-118 | the records left after the first n slots |
| Listing.ScanPage | fs/fs_opt.go:113-131 | entries grow by the page's records past the requested slot, in order, stopping once the budget is met, or at an owner panic on the first listed record whose owner does not resolve |
| Listing.Round | fs/fs_opt.go:111-140 | one List round: the scan, the exit condition, the owner-panic and index-panic cases and the next startAfter cursor |
| Listing.FetchedStep | fs/fs_opt.go:111-140 | a List round that goes on asks next after its page's last name: the startAfter cursors keep chaining, and every page so far said more entries remain |
| Listing.CollectedStep | fs/fs_opt.go:113-131 | a List round that goes on scanned its whole page: the reply stays the dots plus the entries of every record fetched past the requested slot, all with resolving owners, under budget |
| Listing.ExitReply | fs/fs_opt.go:111-140 | at loop exit the reply lists exactly min(records, max(size/32 − dots, 1)) records past the slot, or stops at the first whose owner does not resolve; an index panic happens exactly on an empty page with entries remaining |
| Listing.CollectedExit | fs/fs_opt.go:133-140 | the loop state at exit satisfies the reply shape of the fetched pages |
| Listing.ListDirectory | fs/fs_opt.go:77-146 | `ListingOf`: every page before the last went on (entries remained, it was not an empty page claiming more, the reply stayed under budget with every owner resolving), and the reply is the dots plus the entries of the first min(records, max(size/32 − dots, 1)) remote records past offset/32, in order, unless an owner panic stops it at the first record whose owner does not resolve; the cursors chain through the last names of the pages |
| Listing.ContinuedStep | fs/fs_opt.go:133-140 | a round that neither exits nor panics extends the run of pages that went on by one |
| Listing.ListedCountFrom | fs/fs_opt.go:113-131 | the scan's stopping point, characterised (budget, records exhausted, or an owner that does not resolve), is the count a reference definition gives |
| Listing.ReplyCount | fs/fs_opt.go:111-140 | a reply lists exactly the reference count of records, and ends in an owner panic exactly when that count falls short of min(records, budget) |
| Listing.ReplyUnique | fs/fs_opt.go:111-140 | the reply shape fixes the entries and the end: two replies to the same records agree |
| Listing.StopsAtLast | fs/fs_opt.go:133-140 | the last page fetched did not go on: it exhausted the entries, met the budget, or panicked |
| Listing.ListingDeterministic | fs/fs_opt.go:77-146 | the listing outcome is a function of the inputs: two results that both satisfy `ListingOf` have the same cursors, entries and end |
| DispatchOpt.RecoverError | fs/fs_opt.go:16-38 | each condition's errno; never SUCCESS |
| DispatchOpt.RecoverErrorCollisions | fs/fs_opt.go:16-38 | two conditions share a code only when both are not-found/denial or both fall to ENOSYS |
| DispatchOpt.Export | fs/fs_opt.go:62-63 | a panic (None) exactly when the owner does not resolve; otherwise every stat field of the adjusted record: the mode as type bits per WebHDFS type or'ed with the permission, inode, device fields, block fields, mtime and ctime in ns, atime as adjusted, owner ids, size and link count per type |
| DispatchOpt.Getattr | fs/fs_opt.go:40-70 | "/" is `StatOf` the memoised root with no remote call, and on the first call mode S_IFDIR or'ed with 0777, the caller's uid and gid, 2 links, size 4096 and every time the start time; otherwise one stat call and the exported record, the recovered code with the zero stat, or ENOSYS with a zero stat for an owner panic |
| DispatchOpt.Readdir | fs/fs_opt.go:77-146 | `ListingOf` the inputs, which fixes the entries and the end (`ListingDeterministic`); SUCCESS when the listing completes, ENOSYS for a recovered index or owner panic |
| DispatchOpt.Lookup | fs/fs_opt.go:162-198 | a negative-cache hit is ENOENT with no call; a failed stat caches the path as negative; an owner panic is ENOSYS with no mapping; success maps the inode to the path with generation 1 |
| DispatchOpt.Read | fs/fs_opt.go:205-227 | an unknown node is ENOENT with no call; end-of-file is success with no content; other failures are recovered codes |
| DispatchOpt.Mkdir | fs/fs_opt.go:229-266 | one MKDIRS with the octal mode; a false result is a denial; an owner panic is ENOSYS with the allocated zero stat and no cache change; success stats the new path, maps its inode and clears its negative entry |
| DispatchOpt.FetchNew | fs/fs_opt.go:246-265 | the fetch that ends mkdir and create: a failed stat is the recovered code; an owner panic leaves the allocated zero stat and is ENOSYS; success exports the record, maps its inode to the path and clears its negative entry |
| DispatchOpt.Create | fs/fs_opt.go:268-312 | an unknown parent is ENOENT with no call; a failed create or stat is a recovered code with no cache change; an owner panic is ENOSYS with the zero stat and no cache change; success maps the inode and clears the negative entry |
| DispatchOpt.Setattr | fs/fs_opt.go:314-365 | atime/mtime are taken only when their bits are set and sent only when one is positive; the permission is sent only for the mode bit, after the times succeed |
| DispatchOpt.Write | fs/fs_opt.go:367-407 | an owner panic is ENOSYS after the stat alone; at the adjusted size (4096 for a directory) one append; elsewhere truncate to the offset then append, a false truncate being a denial; the new content and len(buf) on success |
| DispatchOpt.WriteContent | fs/fs_opt.go:385-403 | both write paths leave content[..offset] + buf |
| DispatchOpt.RmFileOrDir | fs/fs_opt.go:409-434 | stat then delete; an owner panic is ENOSYS before the delete; only a successful delete removes the inode's mapping |
| DispatchOpt.Rename | fs/fs_opt.go:447-487 | `RenameOutcome` of the paths merged from the cached parents: stat, rename, stat, with the calls made in each case; a failed step is its recovered code, a refusal the access error, an owner panic on either record ENOSYS, all with both caches unchanged; only a full success drops the old inode, maps the new inode to the new path and clears its negative entry |
| DispatchOpt.RenamePath | fs/fs_opt.go:459-486 | `RenameOutcome` for given paths: a failed or panicking source fetch stops after one call; otherwise the rename and destination steps |
| DispatchOpt.RenameAndRemap | fs/fs_opt.go:466-486 | the RENAME call, a refusal raised as the access error; after an accepted rename, a failed stat of the destination is the recovered code and an owner panic ENOSYS, both with no cache change; success drops the source inode, maps the destination inode to the new path and clears its negative entry |
| DispatchOpt.RenameKeepsInode | fs/fs_opt.go:482-484 | delete-then-insert is a remove and an update; when the inode is kept it is a plain update |
| DispatchOpt.XattrFlag | fs/fs_opt.go:498-505 | "REPLACE" exactly for XATTR_REPLACE, "CREATE" otherwise |
| DispatchOpt.Setxattr | fs/fs_opt.go:490-522 | one call with the chosen flag; on an exists error exactly one retry with REPLACE |
| DispatchOpt.Getxattr | fs/fs_opt.go:525-543 | the value, or ERANGE when it is longer than a nonzero size |
| DispatchOpt.JoinNames | fs/fs_opt.go:557-566 | the loop builds the names joined by single NULs |
| DispatchOpt.JoinNulSplits | fs/fs_opt.go:557-566 | splitting the joined list on NUL gives the names back |
| DispatchOpt.JoinNulLength | fs/fs_opt.go:557-566 | the joined length is the names' total plus one NUL between each pair: no trailing NUL |
| DispatchOpt.Listxattr | fs/fs_opt.go:545-573 | the NUL-joined names, or ERANGE when longer than a nonzero size |
| DispatchLegacy.Getattr | fs/fs.go:23-49 | "/" is `StatOf` the memoised root with no call, and on the first call mode S_IFDIR or'ed with 0777, the caller's uid and gid, 2 links, size 4096 and every time the start time; a failed stat is ENOENT; an owner panic crashes; otherwise the exported record |
| DispatchLegacy.Readdir | fs/fs.go:56-124 | `ListingOf` the inputs, the same determined outcome; a crash exactly when an unrecovered index or owner panic happens, SUCCESS otherwise |
| DispatchLegacy.Lookup | fs/fs.go:137-168 | only ENOENT on failure; a cache hit makes no call; a failed stat caches the path; an owner panic crashes with no mapping; success maps the inode with generation 1 |
| DispatchLegacy.MapFound | fs/fs.go:158-167 | a crash exactly when the owner does not resolve, with no mapping; otherwise SUCCESS, generation 1, the exported record and the inode mapped to the path |
| DispatchLegacy.Read | fs/fs.go:175-194 | end-of-file is success; any other failure ENOENT |
| DispatchLegacy.Mkdir | fs/fs.go:196-237 | never EACCES with the MakeDir shown; any failure or false result is ENOSYS; an owner panic crashes with no cache change; success maps the inode and clears the negative entry |
| DispatchLegacy.FetchNew | fs/fs.go:217-236 | a failed fetch is ENOSYS with no cache change; a crash exactly when the fetched owner does not resolve; otherwise the exported record with generation 1, the inode mapped and the negative entry cleared |
| DispatchLegacy.CreateFailure | fs/fs.go:252-262 | EEXIST exactly for exists, EACCES exactly for denial, ENOENT otherwise |
| DispatchLegacy.CreateRevisionsDiffer | fs/fs.go:252-262 | a denied create is EACCES here but ENOENT in the newer revision; exists is EEXIST in both |
| DispatchLegacy.Create | fs/fs.go:239-286 | an unknown parent is ENOENT with no call; a failed stat is ENOSYS; an owner panic crashes with no cache change; success maps the inode and clears the negative entry |
| DispatchLegacy.Setattr | fs/fs.go:288-330 | only the times, sent only when one is positive; a denial is EACCES, other failures ENOENT |

## Left out

- Locking: the `sync.RWMutex` of both caches, and the race between the unlocked check and the `delete` in `IsNotExist`. The caches are modelled as sequential.
- HTTP requests, reading response bodies and JSON decoding. A reply is modelled as a status with an already decoded exception and body.
- The URL is not escaped: the path is put into the URL as given, exactly as the Go code does.
- `user.Lookup` and `user.LookupGroup`: modelled as an `Accounts` map from names to ids. The string ids are taken as already converted by `strconv.Atoi`.
- `user.Current`: the uid and gid parameters of `GetRoot`, taken as already converted. The source ignores the errors of `strconv.Atoi` on `user.Uid` and `user.Gid` (fs/controler/root_controller.go:31-32), so an id that does not parse would give 0; the model does not produce that case.
- Timespec conversions: times are kept as int64 nanoseconds.
- `time.Now()`: a `now` parameter. One handler uses a single `now` for the cache check and the insert.
- Name lengths (`NameLen`, xattr sizes) count characters, not UTF-8 bytes.
- The remote operations not shown in the controller source are outcome parameters rather than modelled requests. These are Create, AppendFile, TruncateFile, Delete, Rename, the xattr calls, ModificationTime and SetPermission.
- The WebHDFS file content is a `seq<byte>`: append is concatenation and truncate is a prefix.
- Writes at an offset beyond the current size have no modelled meaning.
- The FUSE constant values are those of the Linux kernel ABI: `FATTR_MODE` 1, `FATTR_ATIME` 16, `FATTR_MTIME` 32, `XATTR_REPLACE` 2. The bindings that define them are not part of this model.
- `opendir`, `open`, `release`, `removexattr` and `symlink`: they make no cache or remote decision that the other handlers do not already show. Symlinks are not supported by the backing store.
- `unlink` and `rmdir` just call `_rmFileOrDir`, which is modelled as `DispatchOpt.RmFileOrDir`.
- `Service`, `umount`, `exitSign`, `main.go`, `fs/config/config.go` and logging: mounting, signals and flag parsing.
- Listing.ListDirectory: the replies to readdir's successive List calls are a finite sequence. A call past its end counts as a failed List, which ends the loop. The fileOffset and fileCount counters are unbounded integers; the uint32 and uint64 versions cannot wrap at realistic directory sizes.
- DispatchLegacy.Readdir: when the handler crashes, the model says nothing about the returned code, because the Go process does not return. The same holds for DispatchLegacy.Getattr, Lookup, Mkdir and Create when they crash.
- Hadoop.HadoopController.Read: a zero length and a non-positive buffer size are replaced by 4096 (`ReadUrlAppends`). The URL itself is not an output.
