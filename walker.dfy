/**
 * The duplicate-detection walk of `LitenBaseClass.diskWalker`, as a function
 * of the entries the directory walk yields.
 *
 * Instance state (`byte_cache`, `checksum_cache_key`, `checksum_cache_value`,
 * `confirmed_dup_key`, `byte_size`) lives in `Caches` and survives from one
 * call to the next; the call's locals (the counters, the metadata locals of the
 * last cache miss, the report being written) live in `Tally` and start afresh
 * on every call.
 */
module Walker {
  import opened Wrappers
  import opened PyBuiltins
  import SizeType

  type Path = string

  /** An already formatted date, as the date helpers produce it; its contents are not modelled. */
  type Stamp = string

  /** The bytes of an MD5 digest. */
  type Digest = seq<bv8>

  /**
   * One file the walk yields, with what the walk learns about it: whether it
   * is a regular file, its size, its checksum (`None` when reading it failed),
   * the formatted creation date, the date the search ran on, and its extension.
   */
  datatype FileEntry = FileEntry(
    path: Path,
    isRegular: bool,
    size: nat,
    checksum: Option<Digest>,
    createStamp: Stamp,
    searchStamp: Stamp,
    ext: string)

  /** The dictionary the source builds for a file; `fileType` is always `None` there. */
  datatype Record = Record(
    fullPath: Path,
    modDate: Stamp,
    dupNumber: nat,
    searchDate: Stamp,
    checksum: Option<Digest>,
    bytes: nat,
    fileType: Option<string>,
    fileExt: string)

  /** The locals `modDate`, `searchDate` and `fileExt` as the last cache miss left them. */
  datatype Meta = Meta(modDate: Stamp, searchDate: Stamp, fileExt: string)

  datatype Version = Original | Duplicate

  /** A report line: the column header, or one file of a duplicate pair with its size in whole megabytes. */
  datatype ReportLine = Header | Line(version: Version, path: Path, sizeMB: nat, date: Stamp)

  /** The instance fields the walk reads and updates. */
  datatype Caches = Caches(
    byteCache: set<nat>,
    checksumKey: map<Option<Digest>, Record>,
    checksumValue: Option<Record>,
    confirmed: map<Path, Record>,
    byteSize: Option<nat>)

  /** The locals of one call: `dupNumber`, `byte_count`, `record_count`, the last miss's metadata, and the report. */
  datatype Tally = Tally(
    dupNumber: nat,
    byteCount: nat,
    recordCount: nat,
    stale: Option<Meta>,
    report: seq<ReportLine>)

  /** The state between two files; `aborted` once `UnboundLocalError` has escaped. */
  datatype Scan = Scan(caches: Caches, tally: Tally, aborted: bool)

  /** The fields as `__init__` sets them. */
  const Fresh: Caches := Caches({}, map[], None, map[], None)

  const NoTally: Tally := Tally(0, 0, 0, None, [])

  /** The state at the start of a call. */
  function Begin(c: Caches): Scan
  {
    Scan(c, NoTally, false)
  }

  /**
   * What holds of the fields between calls: every cached record sits under its
   * own checksum and has a size already marked seen, and `checksum_cache_value`
   * is the cached record last stored (absent only while nothing is cached).
   */
  ghost predicate CachesInv(c: Caches)
  {
    (forall k | k in c.checksumKey :: c.checksumKey[k].checksum == k && c.checksumKey[k].bytes in c.byteCache) &&
    (c.checksumValue.None? ==> c.checksumKey == map[]) &&
    (c.checksumValue.Some? ==>
      c.checksumValue.value.checksum in c.checksumKey &&
      c.checksumKey[c.checksumValue.value.checksum] == c.checksumValue.value)
  }

  /** The record a cache miss registers for `e`. */
  function Registered(e: FileEntry, dupNumber: nat): Record
  {
    Record(e.path, e.createStamp, dupNumber, e.searchStamp, e.checksum, e.size, None, e.ext)
  }

  /** The creation date, search date and extension a miss leaves in the locals. */
  function MetaOf(e: FileEntry): Meta
  {
    Meta(e.createStamp, e.searchStamp, e.ext)
  }

  /** The record a match stores for the duplicate: its own path and checksum, the last miss's metadata. */
  function DuplicateRecord(e: FileEntry, m: Meta, dupNumber: nat): Record
  {
    Record(e.path, m.modDate, dupNumber, m.searchDate, e.checksum, e.size, None, m.fileExt)
  }

  /** The three report lines a match writes. */
  function PairLines(orig: Record, e: FileEntry): seq<ReportLine>
  {
    [Header, Line(Original, orig.fullPath, e.size / SizeType.BytesPerMB, orig.modDate),
     Line(Duplicate, e.path, e.size / SizeType.BytesPerMB, e.createStamp)]
  }

  /** `e` goes through to the checksum-cache lookup: regular, not below the threshold, its size seen before. */
  predicate IsHashed(c: Caches, e: FileEntry, threshold: int)
  {
    e.isRegular && e.size >= threshold && e.size in c.byteCache
  }

  /** `e` is a confirmed duplicate: hashed, and its checksum already cached. */
  predicate IsMatch(c: Caches, e: FileEntry, threshold: int)
  {
    IsHashed(c, e, threshold) && e.checksum in c.checksumKey
  }

  /** A match: account for it, write the pair, and record both sides in `confirmed_dup_key`. */
  function Pair(c: Caches, t: Tally, e: FileEntry): (r: Scan)
    requires CachesInv(c) && e.checksum in c.checksumKey
    ensures CachesInv(r.caches)
  {
    var orig := c.checksumKey[e.checksum];
    var t' := t.(byteCount := t.byteCount + e.size, dupNumber := t.dupNumber + 1,
                 report := t.report + PairLines(orig, e));
    var c' := c.(confirmed := c.confirmed[orig.fullPath := c.checksumValue.value]);
    match t.stale
    case None => Scan(c', t', true)
    case Some(m) => Scan(c'.(confirmed := c'.confirmed[e.path := DuplicateRecord(e, m, t'.dupNumber)]), t', false)
  }

  /** A match after a miss of the same call: both sides end up in `confirmed_dup_key`, and nothing raises. */
  lemma PairWithMeta(c: Caches, t: Tally, e: FileEntry, m: Meta)
    requires CachesInv(c) && e.checksum in c.checksumKey && t.stale == Some(m)
    ensures var orig := c.checksumKey[e.checksum];
      Pair(c, t, e) == Scan(
        c.(confirmed := c.confirmed[orig.fullPath := c.checksumValue.value][e.path := DuplicateRecord(e, m, t.dupNumber + 1)]),
        t.(byteCount := t.byteCount + e.size, dupNumber := t.dupNumber + 1, report := t.report + PairLines(orig, e)),
        false)
  {
  }

  /** A miss: `e` becomes the reference file for its checksum. */
  function Register(c: Caches, t: Tally, e: FileEntry): (r: Scan)
    requires CachesInv(c) && e.checksum !in c.checksumKey && e.size in c.byteCache
    ensures CachesInv(r.caches)
  {
    var rec := Registered(e, t.dupNumber);
    Scan(c.(checksumKey := c.checksumKey[e.checksum := rec], checksumValue := Some(rec)),
         t.(stale := Some(MetaOf(e))), false)
  }

  /** The body of the inner loop for one file. */
  function Step(s: Scan, e: FileEntry, threshold: int): (r: Scan)
    requires CachesInv(s.caches) && !s.aborted
    ensures CachesInv(r.caches)
  {
    if !e.isRegular then s
    else
      var c := s.caches.(byteSize := Some(e.size));
      var t := s.tally.(recordCount := s.tally.recordCount + 1);
      if e.size < threshold then Scan(c, t, false)
      else if e.size !in c.byteCache then Scan(c.(byteCache := c.byteCache + {e.size}), t, false)
      else if e.checksum in c.checksumKey then Pair(c, t, e)
      else Register(c, t, e)
  }

  /** Extending the walk by one file takes one more step, unless it has already raised. */
  lemma RunSnoc(s: Scan, es: seq<FileEntry>, e: FileEntry, threshold: int)
    requires CachesInv(s.caches) && !Run(s, es, threshold).aborted
    ensures Run(s, es + [e], threshold) == Step(Run(s, es, threshold), e, threshold)
  {
    assert (es + [e])[..|es|] == es;
  }

  /** The walk over `es` from `s`, stopping at the first file that raises. */
  function Run(s: Scan, es: seq<FileEntry>, threshold: int): (r: Scan)
    requires CachesInv(s.caches)
    ensures CachesInv(r.caches)
    decreases |es|
  {
    if es == [] then s
    else
      var prev := Run(s, es[..|es| - 1], threshold);
      if prev.aborted then prev else Step(prev, es[|es| - 1], threshold)
  }

  /** What one call leaves behind: its return value or exception, the fields, and its locals. */
  datatype Outcome = Outcome(result: Result<map<Path, Record>, PyError>, caches: Caches, tally: Tally)

  /** A call of `diskWalker` with the threshold option `fileSize` over the walk `es`. */
  function Walk(c: Caches, fileSize: string, es: seq<FileEntry>): Outcome
    requires CachesInv(c)
  {
    match SizeType.Convert(fileSize)
    case Err(e) => Outcome(Err(e), c, NoTally)
    case Ok(threshold) =>
      var s := Run(Begin(c), es, threshold);
      Outcome(if s.aborted then Err(UnboundLocalError("modDate")) else Ok(s.caches.confirmed), s.caches, s.tally)
  }

  /** Once a file has raised, the rest of the walk is not visited. */
  lemma {:induction false} RunStopsAfterAbort(s: Scan, es: seq<FileEntry>, i: nat, threshold: int)
    requires CachesInv(s.caches) && i <= |es|
    requires Run(s, es[..i], threshold).aborted
    ensures Run(s, es, threshold) == Run(s, es[..i], threshold)
    decreases |es| - i
  {
    if i < |es| {
      assert es[..i + 1][..i] == es[..i];
      RunStopsAfterAbort(s, es, i + 1, threshold);
    } else {
      assert es[..i] == es;
    }
  }
}
