/** The directory listing loop shared by the readdir handlers of fs/fs_opt.go and fs/fs.go:
    pages of LISTSTATUS_BATCH are fetched after the last name of the previous page, records
    before the requested offset are skipped, and the reply is cut at a count derived from the
    kernel's buffer size (one entry is reckoned as 32 bytes). */
module Listing {
  import opened GoInts
  import opened Errors
  import opened FileModels
  import opened Hadoop

  /** Bytes reckoned per directory entry. */
  const ENTRY_SIZE: nat := 32

  /** The reply to the k-th List call of a listing. The exchanges are a finite sequence; a call
      past its end fails, and List turns any failure into an empty last page. */
  function ResponseAt(responses: seq<Response<Option<Batch>>>, k: nat): Response<Option<Batch>> {
    if k < |responses| then responses[k] else TransportFailure
  }

  function PageAt(responses: seq<Response<Option<Batch>>>, k: nat): Batch {
    PageOf(ResponseAt(responses, k))
  }

  /** The records of the first k pages, in order. */
  function Flat(responses: seq<Response<Option<Batch>>>, k: nat): seq<FileModel> {
    if k == 0 then [] else Flat(responses, k - 1) + PageAt(responses, k - 1).files
  }

  /** The cursor of the call after a page: the name of its last record when more remain;
      otherwise the loop either stops or asks again after the same name. */
  function NextCursor(prev: string, page: Batch): string {
    if page.remainingEntries > 0 && page.files != [] then page.files[|page.files| - 1].Name else prev
  }

  /** The entries "." and "..", both naming the directory's own node. */
  function Dots(nodeid: uint64): seq<Dirent> {
    [Dirent(nodeid, 0, 1, 0, "."), Dirent(nodeid, 0, 2, 0, "..")]
  }

  /** The dot entries open the reply only while the requested slot is one of the first two. */
  function DotsFor(nodeid: uint64, offset: uint64): (d: seq<Dirent>)
    ensures |d| == (if offset / ENTRY_SIZE < 2 then 2 else 0)
  {
    if offset / ENTRY_SIZE < 2 then Dots(nodeid) else []
  }

  /** The number of records skipped for a requested slot: record j (from 0) sits in slot j + 3
      and is listed only when that slot lies past the requested one. */
  function SkipFor(reqSlot: nat): nat {
    if reqSlot < 2 then 0 else reqSlot - 2
  }

  function DropN<T>(s: seq<T>, n: nat): (r: seq<T>)
    ensures |r| == if n < |s| then |s| - n else 0
  {
    if n < |s| then s[n..] else []
  }

  /** The entry of a listed record: AdjustNormal leaves the inode and name alone and sets the
      mode to the parsed permission, which ToFuseDirent reports as the entry's type. */
  function Listed(f: FileModel): Dirent {
    Dirent(f.StIno, 0, ToUint32(|f.Name|), PermissionBits(f.HadoopPermission), f.Name)
  }

  function MapListed(fs: seq<FileModel>): (es: seq<Dirent>)
    ensures |es| == |fs|
  {
    seq(|fs|, i requires 0 <= i < |fs| => Listed(fs[i]))
  }

  function Max(a: int, b: int): int {
    if a < b then b else a
  }

  /** The entries for the records seen so far. */
  function Emitted(seen: seq<FileModel>, skip: nat): seq<Dirent> {
    MapListed(DropN(seen, skip))
  }

  /** Every listed record's owner resolves, so adjusting it does not panic. */
  predicate AllResolve(accounts: Accounts, recs: seq<FileModel>) {
    forall i :: 0 <= i < |recs| ==> OwnerResolves(accounts, recs[i].HadoopOwner)
  }

  lemma DropNSnoc<T>(s: seq<T>, x: T, n: nat)
    ensures DropN(s + [x], n) == if |s| >= n then DropN(s, n) + [x] else DropN(s, n)
  {
    if |s| >= n {
      assert DropN(s + [x], n) == DropN(s, n) + [x];
    }
  }

  /** Dropping the same count from a prefix gives a prefix. */
  lemma DropNPrefix<T>(a: seq<T>, b: seq<T>, n: nat)
    requires a <= b
    ensures DropN(a, n) == DropN(b, n)[..|DropN(a, n)|]
  {
    if n < |a| {
      assert DropN(a, n) == b[n..|a|];
    }
  }

  lemma EmittedSnoc(seen: seq<FileModel>, f: FileModel, skip: nat)
    ensures DropN(seen + [f], skip) == if |seen| >= skip then DropN(seen, skip) + [f] else DropN(seen, skip)
    ensures Emitted(seen + [f], skip) ==
      if |seen| >= skip then Emitted(seen, skip) + [Listed(f)] else Emitted(seen, skip)
  {
    DropNSnoc(seen, f, skip);
  }

  lemma MapListedPrefix(fs: seq<FileModel>, m: nat)
    requires m <= |fs|
    ensures MapListed(fs[..m]) == MapListed(fs)[..m]
  {
  }

  lemma FlatPrefix(responses: seq<Response<Option<Batch>>>, k: nat, files: seq<FileModel>, i: nat)
    requires k >= 1 && files == PageAt(responses, k - 1).files && i <= |files|
    ensures Flat(responses, k - 1) + files[..i] <= Flat(responses, k)
  {
    assert Flat(responses, k) == Flat(responses, k - 1) + files[..i] + files[i..];
  }

  /** A listed record's entry: AdjustNormal then ToFuseDirent, or the panic of AdjustNormal. */
  method ListOne(accounts: Accounts, file: FileModel) returns (ent: Option<Dirent>)
    ensures ent.Some? <==> OwnerResolves(accounts, file.HadoopOwner)
    ensures ent.Some? ==> ent.value == Listed(file)
  {
    var adjusted := AdjustNormal(file, accounts);
    if adjusted.None? {
      return None;
    }
    ent := Some(ToFuseDirent(adjusted.value));
  }

  /** The scan's state after the records `seen`: the reply holds the dots and the entries of the
      records past the skipped ones, and all their owners resolved. */
  predicate ScanState(accounts: Accounts, d: seq<Dirent>, skip: nat, seen: seq<FileModel>, entries: seq<Dirent>) {
    entries == d + Emitted(seen, skip) && AllResolve(accounts, DropN(seen, skip))
  }

  /** One record of the scan: listed when it lies past the skipped ones, otherwise passed over. */
  lemma ScanStep(accounts: Accounts, d: seq<Dirent>, skip: nat, seen0: seq<FileModel>, files: seq<FileModel>,
                 i: nat, entries: seq<Dirent>, listed: bool)
    requires i < |files| && ScanState(accounts, d, skip, seen0 + files[..i], entries)
    requires listed <==> |seen0| + i >= skip
    requires listed ==> OwnerResolves(accounts, files[i].HadoopOwner)
    ensures ScanState(accounts, d, skip, seen0 + files[..i + 1],
                      if listed then entries + [Listed(files[i])] else entries)
  {
    assert seen0 + files[..i + 1] == (seen0 + files[..i]) + [files[i]];
    EmittedSnoc(seen0 + files[..i], files[i], skip);
  }

  /** The scan of one page (the inner loop): each record takes the next slot; a record past the
      requested slot is adjusted and listed; the scan stops right after a listing that brings the
      count to `fileMaxCount`, or panics (`panicked`) when adjusting a record whose owner does not
      resolve. `scanned` is the number of records looked at before the stop or the panic. */
  method ScanPage(accounts: Accounts, remoteFiles: seq<FileModel>, fileReqOffset: nat, fileMaxCount: int,
                  entries0: seq<Dirent>, fileOffset0: int, ghost seen0: seq<FileModel>, ghost d: seq<Dirent>)
    returns (entries: seq<Dirent>, fileOffset: int, scanned: nat, panicked: bool)
    requires fileOffset0 == 2 + |seen0| && entries0 == d + Emitted(seen0, SkipFor(fileReqOffset))
    requires AllResolve(accounts, DropN(seen0, SkipFor(fileReqOffset)))
    ensures scanned <= |remoteFiles| && (!panicked ==> fileOffset == fileOffset0 + scanned)
    ensures entries == d + Emitted(seen0 + remoteFiles[..scanned], SkipFor(fileReqOffset))
    ensures AllResolve(accounts, DropN(seen0 + remoteFiles[..scanned], SkipFor(fileReqOffset)))
    ensures panicked ==>
      && scanned < |remoteFiles| && |seen0| + scanned >= SkipFor(fileReqOffset)
      && !OwnerResolves(accounts, remoteFiles[scanned].HadoopOwner)
      && (|entries| < fileMaxCount || entries == entries0)
    ensures !panicked && scanned < |remoteFiles| ==> |entries| >= fileMaxCount && |entries| > |entries0|
    ensures |entries| <= Max(fileMaxCount, |entries0| + 1)
  {
    ghost var skip := SkipFor(fileReqOffset);
    entries := entries0;
    fileOffset := fileOffset0;
    panicked := false;
    var fileCount := |entries0|;
    var i := 0;
    scanned := |remoteFiles|;
    assert seen0 + remoteFiles[..0] == seen0;
    while i < |remoteFiles|
      invariant 0 <= i <= |remoteFiles| && fileOffset == fileOffset0 + i
      invariant ScanState(accounts, d, skip, seen0 + remoteFiles[..i], entries) && fileCount == |entries|
      invariant fileCount < fileMaxCount || entries == entries0
      invariant |entries0| <= |entries|
    {
      var file := remoteFiles[i];
      fileOffset := fileOffset + 1;
      if fileOffset > fileReqOffset {
        var ent := ListOne(accounts, file);
        if ent.None? {
          scanned, panicked := i, true;
          break;
        }
        ScanStep(accounts, d, skip, seen0, remoteFiles, i, entries, true);
        entries := entries + [ent.value];
        fileCount := fileCount + 1;
        if fileCount >= fileMaxCount {
          scanned := i + 1;
          break;
        }
      } else {
        ScanStep(accounts, d, skip, seen0, remoteFiles, i, entries, false);
      }
      i := i + 1;
    }
  }

  /** The cursor of the next List call: empty for the first, then what the last page yields. */
  function CursorAfter(responses: seq<Response<Option<Batch>>>, cursors: seq<string>): string {
    if cursors == [] then "" else NextCursor(cursors[|cursors| - 1], PageAt(responses, |cursors| - 1))
  }

  /** Each List call asks after the cursor the calls before it yield. */
  predicate CursorChain(responses: seq<Response<Option<Batch>>>, cursors: seq<string>) {
    forall j {:trigger cursors[..j]} :: 0 <= j < |cursors| ==> cursors[j] == CursorAfter(responses, cursors[..j])
  }

  lemma CursorChainSnoc(responses: seq<Response<Option<Batch>>>, cursors: seq<string>)
    requires CursorChain(responses, cursors)
    ensures CursorChain(responses, cursors + [CursorAfter(responses, cursors)])
  {
    var c := cursors + [CursorAfter(responses, cursors)];
    forall j {:trigger c[..j]} | 0 <= j < |c|
      ensures c[j] == CursorAfter(responses, c[..j])
    {
      if j < |cursors| {
        assert c[..j] == cursors[..j];
      } else {
        assert c[..j] == cursors;
      }
    }
  }

  /** No page before the k-th said that nothing remains. */
  predicate MoreRemained(responses: seq<Response<Option<Batch>>>, k: nat) {
    forall j :: 0 <= j < k ==> PageAt(responses, j).remainingEntries != 0
  }

  /** How a listing ends: normally; by indexing the last record of an empty page that claims
      more entries remain; or by adjusting a listed record whose owner and fallback account are
      both unknown (a nil account is dereferenced). The last two are Go runtime panics. */
  datatype ListingEnd = Complete | IndexPanic | OwnerPanic

  function Min(a: int, b: int): int {
    if a < b then a else b
  }

  /** How many records a reply lists past the dots `dots` when nothing stops it early: the
      count is checked only after a record is appended, so at least one goes in. */
  function Cap(dots: nat, maxCount: int): int {
    Max(maxCount - dots, 1)
  }

  /** The shape of a reply, given the dot entries `d`, the records `recs` fetched past the
      skipped ones, the last page and the entry budget. With m the number of records listed:
      - the reply is the dots and the entries of the first m records, whose owners all resolve;
      - a panic on an owner stops it at the first record that does not resolve, under the cap;
      - otherwise exactly min(|recs|, cap) records are listed;
      - it ends in an index panic exactly when the last page is empty, claims more remain, and
        the reply is under budget;
      - when it ends normally under budget, the last page said nothing remains. */
  predicate Reply(accounts: Accounts, d: seq<Dirent>, recs: seq<FileModel>, last: Batch, maxCount: int,
                  entries: seq<Dirent>, end: ListingEnd)
  {
    var m := |entries| - |d|;
    && 0 <= m <= |recs|
    && entries == d + MapListed(recs[..m])
    && AllResolve(accounts, recs[..m])
    && (end == OwnerPanic ==> m < Cap(|d|, maxCount) && m < |recs| && !OwnerResolves(accounts, recs[m].HadoopOwner))
    && (end != OwnerPanic ==> m == Min(|recs|, Cap(|d|, maxCount)))
    && (end != OwnerPanic ==>
          (end == IndexPanic <==> last.remainingEntries > 0 && last.files == [] && |entries| < maxCount))
    && (end == Complete && |entries| < maxCount ==> last.remainingEntries == 0)
  }

  /** What a listing returns, given the pages it fetched: the reply shape for the dots of the
      requested offset, the records past the skipped ones and a budget of size / 32 entries. */
  predicate ListingOutcome(accounts: Accounts, responses: seq<Response<Option<Batch>>>, nodeid: uint64,
                           size: uint32, offset: uint64, entries: seq<Dirent>, cursors: seq<string>, end: ListingEnd)
    requires |cursors| >= 1
  {
    Reply(accounts, DotsFor(nodeid, offset), DropN(Flat(responses, |cursors|), SkipFor(offset / ENTRY_SIZE)),
          PageAt(responses, |cursors| - 1), size as int / ENTRY_SIZE, entries, end)
  }

  /** The loop went on after the j-th page: the page said more entries remain, it was not an
      empty page claiming more, and the reply after it, whose listed owners all resolved, was
      still under budget. */
  predicate WentOn(accounts: Accounts, responses: seq<Response<Option<Batch>>>, nodeid: uint64, size: uint32,
                   offset: uint64, j: nat)
  {
    var page := PageAt(responses, j);
    var recs := DropN(Flat(responses, j + 1), SkipFor(offset / ENTRY_SIZE));
    && page.remainingEntries != 0
    && !(page.files == [] && page.remainingEntries > 0)
    && |DotsFor(nodeid, offset)| + |recs| < size as int / ENTRY_SIZE
    && AllResolve(accounts, recs)
  }

  /** The listing of `nodeid` for `size` and `offset` went on after each of its first k pages. */
  predicate Continued(accounts: Accounts, responses: seq<Response<Option<Batch>>>, nodeid: uint64, size: uint32,
                      offset: uint64, k: nat)
  {
    forall j :: 0 <= j < k ==> WentOn(accounts, responses, nodeid, size, offset, j)
  }

  /** A whole listing: the List calls chain their cursors, the loop went on after every page
      but the last, and the reply has the shape the fetched pages give. */
  predicate ListingOf(accounts: Accounts, responses: seq<Response<Option<Batch>>>, nodeid: uint64, size: uint32,
                      offset: uint64, entries: seq<Dirent>, cursors: seq<string>, end: ListingEnd)
  {
    && |cursors| >= 1 && CursorChain(responses, cursors)
    && Continued(accounts, responses, nodeid, size, offset, |cursors| - 1)
    && ListingOutcome(accounts, responses, nodeid, size, offset, entries, cursors, end)
  }

  /** The reply at loop exit is the dots and a prefix of the records past the skipped ones. */
  lemma ExitPrefix(d: seq<Dirent>, prev: seq<FileModel>, files: seq<FileModel>, scanned: nat, skip: nat,
                   entries: seq<Dirent>)
    requires scanned <= |files| && entries == d + Emitted(prev + files[..scanned], skip)
    ensures var recs := DropN(prev + files, skip);
      var m := |entries| - |d|;
      && m == |DropN(prev + files[..scanned], skip)| <= |recs|
      && DropN(prev + files[..scanned], skip) == recs[..m]
      && entries == d + MapListed(recs[..m])
  {
    DropNPrefix(prev + files[..scanned], prev + files, skip);
  }

  /** The record an owner panic stops at is the m-th of those past the skipped ones. */
  lemma PanicRecord(prev: seq<FileModel>, files: seq<FileModel>, scanned: nat, skip: nat)
    requires scanned < |files| && |prev| + scanned >= skip
    ensures var recs := DropN(prev + files, skip);
      var m := |DropN(prev + files[..scanned], skip)|;
      m < |recs| && recs[m] == files[scanned]
  {
  }

  /** The budget bounds the records listed by the cap, and a scan that stopped on the budget
      listed exactly the cap. */
  lemma ExitCount(d: seq<Dirent>, before: seq<Dirent>, entries: seq<Dirent>, maxCount: int)
    requires |d| <= |before| && (|before| < maxCount || before == d)
    requires |entries| <= Max(maxCount, |before| + 1)
    ensures |entries| - |d| <= Cap(|d|, maxCount)
    ensures |entries| >= maxCount && |entries| > |before| ==> |entries| - |d| == Cap(|d|, maxCount)
  {
  }

  /** The loop's state at its exit, turned into the reply shape: `prev` are the records of the
      earlier pages, `before` the reply before the last page was scanned and `scanned` the
      number of that page's records looked at. */
  lemma ExitReply(accounts: Accounts, d: seq<Dirent>, prev: seq<FileModel>, last: Batch, scanned: nat, skip: nat,
                  maxCount: int, entries: seq<Dirent>, before: seq<Dirent>, end: ListingEnd)
    requires scanned <= |last.files| && |d| <= |before|
    requires |before| < maxCount || before == d
    requires |entries| <= Max(maxCount, |before| + 1)
    requires entries == d + Emitted(prev + last.files[..scanned], skip)
    requires AllResolve(accounts, DropN(prev + last.files[..scanned], skip))
    requires end == OwnerPanic ==>
      && scanned < |last.files| && |prev| + scanned >= skip
      && !OwnerResolves(accounts, last.files[scanned].HadoopOwner)
      && (|entries| < maxCount || entries == before)
    requires end != OwnerPanic && scanned < |last.files| ==> |entries| >= maxCount && |entries| > |before|
    requires end == IndexPanic <==> last.remainingEntries > 0 && last.files == [] && |entries| < maxCount
    requires end == Complete ==> last.remainingEntries == 0 || |entries| >= maxCount
    ensures Reply(accounts, d, DropN(prev + last.files, skip), last, maxCount, entries, end)
  {
    var recs := DropN(prev + last.files, skip);
    var m := |entries| - |d|;
    ExitPrefix(d, prev, last.files, scanned, skip, entries);
    assert AllResolve(accounts, recs[..m]);
    ExitCount(d, before, entries, maxCount);
    if end == OwnerPanic {
      PanicRecord(prev, last.files, scanned, skip);
      assert m < Cap(|d|, maxCount);
    } else if scanned == |last.files| {
      assert last.files[..scanned] == last.files;
      assert m == |recs|;
    } else {
      assert m == Cap(|d|, maxCount);
    }
  }

  /** How many records past the skipped ones a reply lists, counted from the i-th: it stops at
      the cap, at the end of the records, or at the first whose owner does not resolve. */
  function ListedCount(accounts: Accounts, recs: seq<FileModel>, cap: int, i: nat): (m: nat)
    decreases |recs| - i
  {
    if i >= |recs| || i >= cap || !OwnerResolves(accounts, recs[i].HadoopOwner) then i
    else ListedCount(accounts, recs, cap, i + 1)
  }

  /** A count m at or after i, with the owners of the records from i to m resolving, that stops
      for one of ListedCount's reasons is ListedCount's answer. */
  lemma {:induction false} ListedCountFrom(accounts: Accounts, recs: seq<FileModel>, cap: int, i: nat, m: nat)
    requires i <= m <= |recs| && m <= cap
    requires forall j :: i <= j < m ==> OwnerResolves(accounts, recs[j].HadoopOwner)
    requires m == |recs| || m == cap || !OwnerResolves(accounts, recs[m].HadoopOwner)
    ensures ListedCount(accounts, recs, cap, i) == m
    decreases m - i
  {
    if i < m {
      ListedCountFrom(accounts, recs, cap, i + 1, m);
    }
  }

  /** A reply lists exactly ListedCount records; it ends in an owner panic exactly when that
      count stops short of both the records and the cap. */
  lemma ReplyCount(accounts: Accounts, d: seq<Dirent>, recs: seq<FileModel>, last: Batch, maxCount: int,
                   entries: seq<Dirent>, end: ListingEnd)
    requires Reply(accounts, d, recs, last, maxCount, entries, end)
    ensures |entries| - |d| == ListedCount(accounts, recs, Cap(|d|, maxCount), 0)
    ensures end == OwnerPanic <==> |entries| - |d| < Min(|recs|, Cap(|d|, maxCount))
  {
    var m := |entries| - |d|;
    forall j | 0 <= j < m
      ensures OwnerResolves(accounts, recs[j].HadoopOwner)
    {
      assert recs[..m][j] == recs[j];
    }
    ListedCountFrom(accounts, recs, Cap(|d|, maxCount), 0, m);
  }

  /** The reply shape admits one reply and one end for given records, last page and budget. */
  lemma ReplyUnique(accounts: Accounts, d: seq<Dirent>, recs: seq<FileModel>, last: Batch, maxCount: int,
                    entries1: seq<Dirent>, end1: ListingEnd, entries2: seq<Dirent>, end2: ListingEnd)
    requires Reply(accounts, d, recs, last, maxCount, entries1, end1)
    requires Reply(accounts, d, recs, last, maxCount, entries2, end2)
    ensures entries1 == entries2 && end1 == end2
  {
    ReplyCount(accounts, d, recs, last, maxCount, entries1, end1);
    ReplyCount(accounts, d, recs, last, maxCount, entries2, end2);
  }

  /** The loop does not go on after the last page it fetched. */
  lemma StopsAtLast(accounts: Accounts, responses: seq<Response<Option<Batch>>>, nodeid: uint64, size: uint32,
                    offset: uint64, entries: seq<Dirent>, cursors: seq<string>, end: ListingEnd)
    requires |cursors| >= 1 && ListingOutcome(accounts, responses, nodeid, size, offset, entries, cursors, end)
    ensures !WentOn(accounts, responses, nodeid, size, offset, |cursors| - 1)
  {
  }

  /** A listing that went on after its first k pages but not after the j-th page fetched at
      most j + 1 pages before its last. */
  lemma ContinuedBound(accounts: Accounts, responses: seq<Response<Option<Batch>>>, nodeid: uint64, size: uint32,
                       offset: uint64, k: nat, j: nat)
    requires Continued(accounts, responses, nodeid, size, offset, k)
    requires !WentOn(accounts, responses, nodeid, size, offset, j)
    ensures k <= j
  {
  }

  /** Two cursor chains over the same exchanges agree on their common length. */
  lemma {:induction false} CursorPrefixes(responses: seq<Response<Option<Batch>>>, c1: seq<string>, c2: seq<string>,
                                          j: nat)
    requires CursorChain(responses, c1) && CursorChain(responses, c2) && j <= |c1| && j <= |c2|
    ensures c1[..j] == c2[..j]
  {
    if j > 0 {
      CursorPrefixes(responses, c1, c2, j - 1);
      assert c1[j - 1] == CursorAfter(responses, c1[..j - 1]);
      assert c2[j - 1] == CursorAfter(responses, c2[..j - 1]);
      assert c1[..j] == c1[..j - 1] + [c1[j - 1]];
      assert c2[..j] == c2[..j - 1] + [c2[j - 1]];
    }
  }

  /** A listing is determined by its inputs: two results that both meet the listing contract for
      the same exchanges, accounts, node, size and offset made the same List calls and returned
      the same entries and the same end, so the handlers' codes are determined too. */
  lemma ListingDeterministic(accounts: Accounts, responses: seq<Response<Option<Batch>>>, nodeid: uint64,
                             size: uint32, offset: uint64,
                             entries1: seq<Dirent>, cursors1: seq<string>, end1: ListingEnd,
                             entries2: seq<Dirent>, cursors2: seq<string>, end2: ListingEnd)
    requires ListingOf(accounts, responses, nodeid, size, offset, entries1, cursors1, end1)
    requires ListingOf(accounts, responses, nodeid, size, offset, entries2, cursors2, end2)
    ensures cursors1 == cursors2 && entries1 == entries2 && end1 == end2
  {
    var n := |cursors1|;
    StopsAtLast(accounts, responses, nodeid, size, offset, entries1, cursors1, end1);
    StopsAtLast(accounts, responses, nodeid, size, offset, entries2, cursors2, end2);
    ContinuedBound(accounts, responses, nodeid, size, offset, |cursors2| - 1, n - 1);
    ContinuedBound(accounts, responses, nodeid, size, offset, n - 1, |cursors2| - 1);
    CursorPrefixes(responses, cursors1, cursors2, n);
    assert cursors1 == cursors1[..n] && cursors2 == cursors2[..n];
    ReplyUnique(accounts, DotsFor(nodeid, offset), DropN(Flat(responses, n), SkipFor(offset / ENTRY_SIZE)),
                PageAt(responses, n - 1), size as int / ENTRY_SIZE, entries1, end1, entries2, end2);
  }

  /** One round of the readdir loop: the List call after `cursor` (answered by the k-th
      exchange), the scan of its page, and the decision to stop — when nothing remains, when the
      reply is full, by an owner panic during the scan, or by a panic on an empty page that
      claims more remain — or to go on after the page's last name. */
  method Round(hadoop: HadoopController, accounts: Accounts, path: string, responses: seq<Response<Option<Batch>>>,
               k: nat, cursor: string, fileReqOffset: nat, fileMaxCount: int,
               entries0: seq<Dirent>, fileOffset0: int, ghost seen0: seq<FileModel>, ghost d: seq<Dirent>)
    returns (entries: seq<Dirent>, fileOffset: int, scanned: nat, next: string, stop: bool, end: ListingEnd)
    requires fileOffset0 == 2 + |seen0| && entries0 == d + Emitted(seen0, SkipFor(fileReqOffset))
    requires AllResolve(accounts, DropN(seen0, SkipFor(fileReqOffset)))
    ensures var page := PageAt(responses, k);
      var skip := SkipFor(fileReqOffset);
      && scanned <= |page.files| && (end != OwnerPanic ==> fileOffset == fileOffset0 + scanned)
      && entries == d + Emitted(seen0 + page.files[..scanned], skip)
      && AllResolve(accounts, DropN(seen0 + page.files[..scanned], skip))
      && (end == OwnerPanic ==>
            && stop && scanned < |page.files| && |seen0| + scanned >= skip
            && !OwnerResolves(accounts, page.files[scanned].HadoopOwner)
            && (|entries| < fileMaxCount || entries == entries0))
      && (end != OwnerPanic && scanned < |page.files| ==> |entries| >= fileMaxCount && |entries| > |entries0|)
      && |entries| <= Max(fileMaxCount, |entries0| + 1)
      && (end != OwnerPanic ==>
            (stop <==> page.remainingEntries == 0 || |entries| >= fileMaxCount || (page.files == [] && page.remainingEntries > 0)))
      && (end == IndexPanic <==> page.remainingEntries > 0 && page.files == [] && |entries| < fileMaxCount)
      && (!stop ==> next == NextCursor(cursor, page))
  {
    var remoteFiles, remain, _ := hadoop.List(path, cursor, ResponseAt(responses, k));
    var panicked;
    entries, fileOffset, scanned, panicked :=
      ScanPage(accounts, remoteFiles, fileReqOffset, fileMaxCount, entries0, fileOffset0, seen0, d);
    next, stop, end := cursor, false, Complete;
    if panicked {
      stop, end := true, OwnerPanic;
    } else if remain == 0 || |entries| >= fileMaxCount {
      stop := true;
    } else if remain > 0 {
      if |remoteFiles| == 0 {
        // indexing remoteFiles[-1] panics
        stop, end := true, IndexPanic;
      } else {
        next := remoteFiles[|remoteFiles| - 1].Name;
      }
    }
  }

  /** The calls made so far: `cursors` are the startAfter values of the first k List calls,
      each the one its predecessors yield, and `cursor` is the next; every page so far said
      more remain. */
  predicate Fetched(responses: seq<Response<Option<Batch>>>, k: nat, cursors: seq<string>, cursor: string) {
    && k == |cursors| <= |responses|
    && CursorChain(responses, cursors) && cursor == CursorAfter(responses, cursors)
    && MoreRemained(responses, k)
  }

  /** What the first k pages left behind: `seen` are their records, one slot each after the two
      dots; `entries` are the dots and the entries of the records past the skipped ones, whose
      owners all resolved, still under budget once a page has been scanned. */
  predicate Collected(accounts: Accounts, responses: seq<Response<Option<Batch>>>, d: seq<Dirent>, skip: nat,
                      maxCount: int, k: nat, seen: seq<FileModel>, fileOffset: int, entries: seq<Dirent>)
  {
    && seen == Flat(responses, k) && fileOffset == 2 + |seen|
    && entries == d + Emitted(seen, skip) && AllResolve(accounts, DropN(seen, skip))
    && (k == 0 ==> entries == d) && (k > 0 ==> |entries| < maxCount)
  }

  /** A page past the exchanges is the empty last page of a failed List. */
  lemma PageAtPast(responses: seq<Response<Option<Batch>>>, k: nat)
    requires k >= |responses|
    ensures PageAt(responses, k).remainingEntries == 0
  {
  }

  /** A round that goes on asks next after the page's last name: the chain grows by one call,
      and the page, which said more remain, lies within the exchanges. */
  lemma FetchedStep(responses: seq<Response<Option<Batch>>>, k: nat, cursors: seq<string>, cursor: string,
                    next: string)
    requires Fetched(responses, k, cursors, cursor)
    requires PageAt(responses, k).remainingEntries != 0 && next == NextCursor(cursor, PageAt(responses, k))
    ensures Fetched(responses, k + 1, cursors + [cursor], next)
  {
    CursorChainSnoc(responses, cursors);
    assert (cursors + [cursor])[..k] == cursors;
    if k >= |responses| {
      PageAtPast(responses, k);
    }
  }

  /** A round that goes on scanned the whole page: its records join `seen` and their entries
      the reply. */
  lemma CollectedStep(accounts: Accounts, responses: seq<Response<Option<Batch>>>, d: seq<Dirent>, skip: nat,
                      maxCount: int, k: nat, seen: seq<FileModel>, fileOffset: int, entries: seq<Dirent>,
                      scanned: nat, fileOffset': int, entries': seq<Dirent>)
    requires Collected(accounts, responses, d, skip, maxCount, k, seen, fileOffset, entries)
    requires scanned <= |PageAt(responses, k).files| && fileOffset' == fileOffset + scanned
    requires entries' == d + Emitted(seen + PageAt(responses, k).files[..scanned], skip)
    requires AllResolve(accounts, DropN(seen + PageAt(responses, k).files[..scanned], skip))
    requires scanned < |PageAt(responses, k).files| ==> |entries'| >= maxCount
    requires |entries'| < maxCount
    ensures Collected(accounts, responses, d, skip, maxCount, k + 1, seen + PageAt(responses, k).files, fileOffset', entries')
  {
    var files := PageAt(responses, k).files;
    assert files[..scanned] == files;
  }

  /** A round that goes on after the k-th page went on in the sense of WentOn: the page said more
      remain and was not empty while saying so, and the reply after it is under budget. */
  lemma ContinuedStep(accounts: Accounts, responses: seq<Response<Option<Batch>>>, nodeid: uint64, size: uint32,
                      offset: uint64, k: nat, seen: seq<FileModel>, fileOffset: int, entries: seq<Dirent>)
    requires Continued(accounts, responses, nodeid, size, offset, k)
    requires Collected(accounts, responses, DotsFor(nodeid, offset), SkipFor(offset / ENTRY_SIZE),
                       size as int / ENTRY_SIZE, k + 1, seen, fileOffset, entries)
    requires PageAt(responses, k).remainingEntries != 0
    requires !(PageAt(responses, k).files == [] && PageAt(responses, k).remainingEntries > 0)
    ensures Continued(accounts, responses, nodeid, size, offset, k + 1)
  {
    assert WentOn(accounts, responses, nodeid, size, offset, k);
  }

  /** A round that stops ends the listing with the reply the collected state describes. */
  lemma CollectedExit(accounts: Accounts, responses: seq<Response<Option<Batch>>>, nodeid: uint64, size: uint32,
                      offset: uint64, d: seq<Dirent>, skip: nat, maxCount: int, k: nat, seen: seq<FileModel>,
                      fileOffset: int, before: seq<Dirent>, cursors: seq<string>, scanned: nat,
                      entries: seq<Dirent>, end: ListingEnd)
    requires d == DotsFor(nodeid, offset) && skip == SkipFor(offset / ENTRY_SIZE) && maxCount == size as int / ENTRY_SIZE
    requires Collected(accounts, responses, d, skip, maxCount, k, seen, fileOffset, before)
    requires |cursors| == k + 1
    requires var page := PageAt(responses, k);
      && scanned <= |page.files|
      && entries == d + Emitted(seen + page.files[..scanned], skip)
      && AllResolve(accounts, DropN(seen + page.files[..scanned], skip))
      && (end == OwnerPanic ==>
            && scanned < |page.files| && |seen| + scanned >= skip
            && !OwnerResolves(accounts, page.files[scanned].HadoopOwner)
            && (|entries| < maxCount || entries == before))
      && (end != OwnerPanic && scanned < |page.files| ==> |entries| >= maxCount && |entries| > |before|)
      && |entries| <= Max(maxCount, |before| + 1)
      && (end != OwnerPanic ==>
            (page.remainingEntries == 0 || |entries| >= maxCount || (page.files == [] && page.remainingEntries > 0)))
      && (end == IndexPanic <==> page.remainingEntries > 0 && page.files == [] && |entries| < maxCount)
    ensures ListingOutcome(accounts, responses, nodeid, size, offset, entries, cursors, end)
  {
    ExitReply(accounts, d, seen, PageAt(responses, k), scanned, skip, maxCount, entries, before, end);
  }

  /** The readdir loop. `cursors` are the startAfter values of the List calls made, in order:
      the first is empty and each next one is the cursor the previous page yields; every page
      but the last said more entries remain. */
  method ListDirectory(hadoop: HadoopController, accounts: Accounts, nodeid: uint64, path: string,
                       size: uint32, offset: uint64, responses: seq<Response<Option<Batch>>>)
    returns (entries: seq<Dirent>, cursors: seq<string>, end: ListingEnd)
    ensures ListingOf(accounts, responses, nodeid, size, offset, entries, cursors, end)
  {
    var fileReqOffset := offset / 32;
    var fileMaxCount: int := size as int / 32;
    ghost var d := DotsFor(nodeid, offset);
    ghost var skip := SkipFor(fileReqOffset);
    entries := [];
    if fileReqOffset < 2 {
      entries := Dots(nodeid);
    }
    var lastPathSuffix := "";
    var fileOffset := 2;
    ghost var seen: seq<FileModel> := [];
    cursors := [];
    var k := 0;
    while true
      invariant Fetched(responses, k, cursors, lastPathSuffix)
      invariant Collected(accounts, responses, d, skip, fileMaxCount, k, seen, fileOffset, entries)
      invariant Continued(accounts, responses, nodeid, size, offset, k)
      decreases |responses| - k
    {
      ghost var page, before := PageAt(responses, k), entries;
      var entries', fileOffset', scanned, next, stop;
      entries', fileOffset', scanned, next, stop, end :=
        Round(hadoop, accounts, path, responses, k, lastPathSuffix, fileReqOffset, fileMaxCount, entries, fileOffset, seen, d);
      if stop {
        CursorChainSnoc(responses, cursors);
        cursors := cursors + [lastPathSuffix];
        CollectedExit(accounts, responses, nodeid, size, offset, d, skip, fileMaxCount, k, seen, fileOffset, before,
                      cursors, scanned, entries', end);
        entries := entries';
        return;
      }
      FetchedStep(responses, k, cursors, lastPathSuffix, next);
      CollectedStep(accounts, responses, d, skip, fileMaxCount, k, seen, fileOffset, entries, scanned, fileOffset', entries');
      ContinuedStep(accounts, responses, nodeid, size, offset, k, seen + page.files, fileOffset', entries');
      entries, fileOffset, cursors, lastPathSuffix := entries', fileOffset', cursors + [lastPathSuffix], next;
      seen := seen + page.files;
      k := k + 1;
    }
  }
}
