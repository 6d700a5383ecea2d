/**
 * Properties of the walk of `diskWalker`: how a walk splits into parts, what
 * the caches and counters hold after it, when a pair is reported, and when a
 * call raises.
 */
module WalkerProps {
  import opened Wrappers
  import opened PyBuiltins
  import opened Walker
  import SizeType

  // ---------------------------------------------------------------------------
  // The walk in parts

  /** Once a file has raised, no later file changes anything. */
  lemma {:induction false} RunFromAborted(s: Scan, es: seq<FileEntry>, threshold: int)
    requires CachesInv(s.caches) && s.aborted
    ensures Run(s, es, threshold) == s
    decreases |es|
  {
    if es != [] {
      RunFromAborted(s, es[..|es| - 1], threshold);
    }
  }

  /** Walking `a` and then `b` is walking `a + b`. */
  lemma {:induction false} RunCompose(s: Scan, a: seq<FileEntry>, b: seq<FileEntry>, threshold: int)
    requires CachesInv(s.caches)
    ensures Run(s, a + b, threshold) == Run(Run(s, a, threshold), b, threshold)
    decreases |b|
  {
    if b == [] {
      assert a + b == a;
    } else {
      var b' := b[..|b| - 1];
      assert (a + b)[..|a + b| - 1] == a + b';
      assert (a + b)[|a + b| - 1] == b[|b| - 1];
      RunCompose(s, a, b', threshold);
    }
  }

  // ---------------------------------------------------------------------------
  // One file

  /**
   * A regular file below the threshold is counted in `record_count` and
   * changes nothing else but `byte_size`; one exactly at the threshold is
   * compared.
   */
  lemma BelowThresholdSkipped(s: Scan, e: FileEntry, threshold: int)
    requires CachesInv(s.caches) && !s.aborted && e.isRegular
    ensures var r := Step(s, e, threshold);
      r.tally.recordCount == s.tally.recordCount + 1 &&
      r.caches.byteSize == Some(e.size) &&
      (e.size < threshold ==>
         r == Scan(s.caches.(byteSize := Some(e.size)), s.tally.(recordCount := s.tally.recordCount + 1), false)) &&
      (e.size == threshold ==> e.size in r.caches.byteCache)
  {
  }

  /** The first file of a size at or above the threshold is only marked in `byte_cache`: it is neither hashed nor registered. */
  lemma FirstOfSizeOnlyMarked(s: Scan, e: FileEntry, threshold: int)
    requires CachesInv(s.caches) && !s.aborted && Qualifies(e, threshold) && e.size !in s.caches.byteCache
    ensures var r := Step(s, e, threshold);
      !r.aborted &&
      r.caches == s.caches.(byteCache := s.caches.byteCache + {e.size}, byteSize := Some(e.size)) &&
      r.tally == s.tally.(recordCount := s.tally.recordCount + 1)
  {
  }

  /**
   * A match adds the file's size to `byte_count`, one to `dupNumber`, one pair
   * block to the report, and (unless it raises) the duplicate's path to
   * `confirmed_dup_key`; any other file leaves all of these alone.
   */
  lemma MatchAccounting(s: Scan, e: FileEntry, threshold: int)
    requires CachesInv(s.caches) && !s.aborted
    ensures var r := Step(s, e, threshold);
      if IsMatch(s.caches, e, threshold) then
        var orig := s.caches.checksumKey[e.checksum];
        orig.checksum == e.checksum &&
        r.tally.byteCount == s.tally.byteCount + e.size &&
        r.tally.dupNumber == s.tally.dupNumber + 1 &&
        r.tally.report == s.tally.report + PairLines(orig, e) &&
        r.caches.checksumKey == s.caches.checksumKey &&
        (r.aborted <==> s.tally.stale.None?) &&
        (!r.aborted ==> e.path in r.caches.confirmed && r.caches.confirmed[e.path].fullPath == e.path) &&
        (r.aborted || e.path != orig.fullPath ==> r.caches.confirmed[orig.fullPath] == s.caches.checksumValue.value)
      else
        !r.aborted &&
        r.tally.byteCount == s.tally.byteCount &&
        r.tally.dupNumber == s.tally.dupNumber &&
        r.tally.report == s.tally.report &&
        r.caches.confirmed == s.caches.confirmed
  {
  }

  /** A miss registers the file under its checksum and binds the metadata locals. */
  lemma MissRegisters(s: Scan, e: FileEntry, threshold: int)
    requires CachesInv(s.caches) && !s.aborted && IsHashed(s.caches, e, threshold) && e.checksum !in s.caches.checksumKey
    ensures var r := Step(s, e, threshold);
      r.caches.checksumKey == s.caches.checksumKey[e.checksum := Registered(e, s.tally.dupNumber)] &&
      r.caches.checksumValue == Some(Registered(e, s.tally.dupNumber)) &&
      r.tally.stale == Some(MetaOf(e)) &&
      r.caches.confirmed == s.caches.confirmed
  {
  }

  /**
   * Every later file with a checksum cached at `s` is paired with the record
   * cached at `s`: the cache entry is never replaced.
   */
  lemma LaterMatchSameOriginal(s: Scan, a: seq<FileEntry>, e: FileEntry, threshold: int)
    requires CachesInv(s.caches) && e.checksum in s.caches.checksumKey
    requires !Run(s, a, threshold).aborted && IsHashed(Run(s, a, threshold).caches, e, threshold)
    ensures Run(s, a + [e], threshold).tally.report ==
      Run(s, a, threshold).tally.report + PairLines(s.caches.checksumKey[e.checksum], e)
  {
    CacheWriteOnce(s, a, threshold);
    RunSnoc(s, a, e, threshold);
  }

  // ---------------------------------------------------------------------------
  // What the caches and counters hold after a walk

  /** `m2` keeps every entry of `m1` unchanged. */
  predicate Extends(m1: map<Option<Digest>, Record>, m2: map<Option<Digest>, Record>)
  {
    forall k | k in m1 :: k in m2 && m2[k] == m1[k]
  }

  /** The sizes of the regular files of `es` that reach the threshold. */
  function SizeMarks(es: seq<FileEntry>, threshold: int): set<nat>
    decreases |es|
  {
    if es == [] then {}
    else
      var e := es[|es| - 1];
      SizeMarks(es[..|es| - 1], threshold) + (if e.isRegular && e.size >= threshold then {e.size} else {})
  }

  /** The checksums of the regular files of `es` that reach the threshold. */
  function Checksums(es: seq<FileEntry>, threshold: int): set<Option<Digest>>
    decreases |es|
  {
    if es == [] then {}
    else
      var e := es[|es| - 1];
      Checksums(es[..|es| - 1], threshold) + (if e.isRegular && e.size >= threshold then {e.checksum} else {})
  }

  /** The number of regular files in `es`. */
  function CountRegular(es: seq<FileEntry>): nat
    decreases |es|
  {
    if es == [] then 0
    else CountRegular(es[..|es| - 1]) + (if es[|es| - 1].isRegular then 1 else 0)
  }

  /**
   * A cached checksum is never re-registered: every record of the checksum
   * cache survives the walk, and every size seen stays seen.
   */
  lemma {:induction false} CacheWriteOnce(s: Scan, es: seq<FileEntry>, threshold: int)
    requires CachesInv(s.caches)
    ensures Extends(s.caches.checksumKey, Run(s, es, threshold).caches.checksumKey)
    ensures s.caches.byteCache <= Run(s, es, threshold).caches.byteCache
    decreases |es|
  {
    if es != [] {
      var init := es[..|es| - 1];
      CacheWriteOnce(s, init, threshold);
      var prev := Run(s, init, threshold);
      if !prev.aborted {
        StepWriteOnce(prev, es[|es| - 1], threshold);
        assert Run(s, es, threshold) == Step(prev, es[|es| - 1], threshold);
      }
    }
  }

  /** One file adds at most one checksum-cache entry, under a checksum not cached before. */
  lemma StepWriteOnce(s: Scan, e: FileEntry, threshold: int)
    requires CachesInv(s.caches) && !s.aborted
    ensures Extends(s.caches.checksumKey, Step(s, e, threshold).caches.checksumKey)
    ensures s.caches.byteCache <= Step(s, e, threshold).caches.byteCache
  {
  }

  /**
   * `byte_cache` gains exactly the sizes of the regular files at or above the
   * threshold (only some of them when the walk raised part-way).
   */
  lemma {:induction false} ByteCacheGrowth(s: Scan, es: seq<FileEntry>, threshold: int)
    requires CachesInv(s.caches)
    ensures Run(s, es, threshold).caches.byteCache <= s.caches.byteCache + SizeMarks(es, threshold)
    ensures !Run(s, es, threshold).aborted ==>
      Run(s, es, threshold).caches.byteCache == s.caches.byteCache + SizeMarks(es, threshold)
    decreases |es|
  {
    if es != [] {
      ByteCacheGrowth(s, es[..|es| - 1], threshold);
    }
  }

  /** Only checksums of regular files at or above the threshold enter the checksum cache. */
  lemma {:induction false} CacheKeysBound(s: Scan, es: seq<FileEntry>, threshold: int)
    requires CachesInv(s.caches)
    ensures Run(s, es, threshold).caches.checksumKey.Keys <= s.caches.checksumKey.Keys + Checksums(es, threshold)
    decreases |es|
  {
    if es != [] {
      CacheKeysBound(s, es[..|es| - 1], threshold);
    }
  }

  /** `record_count` counts the regular files examined. */
  lemma {:induction false} RecordCount(s: Scan, es: seq<FileEntry>, threshold: int)
    requires CachesInv(s.caches)
    ensures Run(s, es, threshold).tally.recordCount <= s.tally.recordCount + CountRegular(es)
    ensures !Run(s, es, threshold).aborted ==>
      Run(s, es, threshold).tally.recordCount == s.tally.recordCount + CountRegular(es)
    decreases |es|
  {
    if es != [] {
      RecordCount(s, es[..|es| - 1], threshold);
    }
  }

  /** Three report lines: the header, the original, the duplicate. */
  predicate IsPairBlock(b: seq<ReportLine>)
  {
    |b| == 3 && b[0] == Header &&
    b[1].Line? && b[1].version == Original &&
    b[2].Line? && b[2].version == Duplicate
  }

  /** A report made of pair blocks only. */
  predicate WellFormedReport(rep: seq<ReportLine>)
    decreases |rep|
  {
    rep == [] || (|rep| >= 3 && IsPairBlock(rep[|rep| - 3..]) && WellFormedReport(rep[..|rep| - 3]))
  }

  /** Appending a pair block keeps a report well-formed. */
  lemma AppendBlock(rep: seq<ReportLine>, b: seq<ReportLine>)
    requires WellFormedReport(rep) && IsPairBlock(b)
    ensures WellFormedReport(rep + b)
  {
    assert (rep + b)[..|rep + b| - 3] == rep;
    assert (rep + b)[|rep + b| - 3..] == b;
  }

  /** One file either leaves the report and `dupNumber` alone or adds one pair block and one duplicate. */
  lemma StepReport(s: Scan, e: FileEntry, threshold: int)
    requires CachesInv(s.caches) && !s.aborted
    ensures var r := Step(s, e, threshold);
      (r.tally.report == s.tally.report && r.tally.dupNumber == s.tally.dupNumber) ||
      (r.tally.dupNumber == s.tally.dupNumber + 1 &&
       exists b :: IsPairBlock(b) && r.tally.report == s.tally.report + b)
  {
    var r := Step(s, e, threshold);
    if IsMatch(s.caches, e, threshold) {
      var orig := s.caches.checksumKey[e.checksum];
      assert IsPairBlock(PairLines(orig, e));
      assert r.tally.report == s.tally.report + PairLines(orig, e);
    }
  }

  /** The report only grows, by one pair block of three lines per duplicate counted in `dupNumber`. */
  lemma {:induction false} ReportGrowth(s: Scan, es: seq<FileEntry>, threshold: int)
    requires CachesInv(s.caches)
    ensures var r := Run(s, es, threshold);
      s.tally.report <= r.tally.report &&
      s.tally.dupNumber <= r.tally.dupNumber &&
      |r.tally.report| == |s.tally.report| + 3 * (r.tally.dupNumber - s.tally.dupNumber)
    decreases |es|
  {
    if es != [] {
      var init := es[..|es| - 1];
      ReportGrowth(s, init, threshold);
      var prev := Run(s, init, threshold);
      if !prev.aborted {
        StepReport(prev, es[|es| - 1], threshold);
        assert Run(s, es, threshold) == Step(prev, es[|es| - 1], threshold);
      }
    }
  }

  /** A report made of pair blocks stays made of pair blocks. */
  lemma {:induction false} ReportWellFormed(s: Scan, es: seq<FileEntry>, threshold: int)
    requires CachesInv(s.caches) && WellFormedReport(s.tally.report)
    ensures WellFormedReport(Run(s, es, threshold).tally.report)
    decreases |es|
  {
    if es != [] {
      var init := es[..|es| - 1];
      ReportWellFormed(s, init, threshold);
      var prev := Run(s, init, threshold);
      if !prev.aborted {
        StepReport(prev, es[|es| - 1], threshold);
        var r := Step(prev, es[|es| - 1], threshold);
        assert Run(s, es, threshold) == r;
        if r.tally.report != prev.tally.report {
          var b :| IsPairBlock(b) && r.tally.report == prev.tally.report + b;
          AppendBlock(prev.tally.report, b);
        }
      }
    }
  }

  // ---------------------------------------------------------------------------
  // Which files are compared

  /** `e` takes part in the comparison: a regular file at or above the threshold. */
  predicate Qualifies(e: FileEntry, threshold: int)
  {
    e.isRegular && e.size >= threshold
  }

  lemma {:induction false} SizeMarksMember(es: seq<FileEntry>, threshold: int, x: nat)
    ensures x in SizeMarks(es, threshold) <==> exists i | 0 <= i < |es| :: Qualifies(es[i], threshold) && es[i].size == x
    decreases |es|
  {
    if es != [] {
      var init := es[..|es| - 1];
      SizeMarksMember(init, threshold, x);
      if x in SizeMarks(init, threshold) {
        var i :| 0 <= i < |init| && Qualifies(init[i], threshold) && init[i].size == x;
        assert es[i] == init[i];
      }
      if exists i | 0 <= i < |es| :: Qualifies(es[i], threshold) && es[i].size == x {
        var i :| 0 <= i < |es| && Qualifies(es[i], threshold) && es[i].size == x;
        if i < |init| {
          assert init[i] == es[i];
        }
      }
    }
  }

  lemma {:induction false} ChecksumsMember(es: seq<FileEntry>, threshold: int, x: Option<Digest>)
    ensures x in Checksums(es, threshold) <==> exists i | 0 <= i < |es| :: Qualifies(es[i], threshold) && es[i].checksum == x
    decreases |es|
  {
    if es != [] {
      var init := es[..|es| - 1];
      ChecksumsMember(init, threshold, x);
      if x in Checksums(init, threshold) {
        var i :| 0 <= i < |init| && Qualifies(init[i], threshold) && init[i].checksum == x;
        assert es[i] == init[i];
      }
      if exists i | 0 <= i < |es| :: Qualifies(es[i], threshold) && es[i].checksum == x {
        var i :| 0 <= i < |es| && Qualifies(es[i], threshold) && es[i].checksum == x;
        if i < |init| {
          assert init[i] == es[i];
        }
      }
    }
  }

  /** The fields a walk that finds no pair must leave as they were. */
  predicate NothingPaired(s: Scan, r: Scan)
  {
    !r.aborted &&
    r.caches.confirmed == s.caches.confirmed &&
    r.tally.report == s.tally.report &&
    r.tally.dupNumber == s.tally.dupNumber &&
    r.tally.byteCount == s.tally.byteCount
  }

  /** No two compared files of `es` share a size, and none has a size already seen. */
  predicate DistinctNewSizes(c: Caches, es: seq<FileEntry>, threshold: int)
  {
    (forall i | 0 <= i < |es| && Qualifies(es[i], threshold) :: es[i].size !in c.byteCache) &&
    (forall i, j | 0 <= i < j < |es| && Qualifies(es[i], threshold) && Qualifies(es[j], threshold) ::
       es[i].size != es[j].size)
  }

  /**
   * Files of sizes never seen before are only marked in `byte_cache`: no
   * checksum is taken, nothing is registered and no pair is reported.
   */
  lemma {:induction false} DistinctSizesNeverHashed(s: Scan, es: seq<FileEntry>, threshold: int)
    requires CachesInv(s.caches) && !s.aborted && DistinctNewSizes(s.caches, es, threshold)
    ensures NothingPaired(s, Run(s, es, threshold))
    ensures Run(s, es, threshold).caches.checksumKey == s.caches.checksumKey
    ensures Run(s, es, threshold).caches.checksumValue == s.caches.checksumValue
    decreases |es|
  {
    if es != [] {
      var init := es[..|es| - 1];
      var e := es[|es| - 1];
      assert DistinctNewSizes(s.caches, init, threshold) by {
        forall i | 0 <= i < |init| ensures init[i] == es[i] { }
      }
      DistinctSizesNeverHashed(s, init, threshold);
      ByteCacheGrowth(s, init, threshold);
      if Qualifies(e, threshold) {
        SizeMarksMember(init, threshold, e.size);
      }
    }
  }

  /** No two compared files of `es` share a checksum, and none has a checksum already cached. */
  predicate DistinctNewChecksums(c: Caches, es: seq<FileEntry>, threshold: int)
  {
    (forall i | 0 <= i < |es| && Qualifies(es[i], threshold) :: es[i].checksum !in c.checksumKey) &&
    (forall i, j | 0 <= i < j < |es| && Qualifies(es[i], threshold) && Qualifies(es[j], threshold) ::
       es[i].checksum != es[j].checksum)
  }

  /** Files whose checksums all differ are never reported as duplicates, whatever their sizes. */
  lemma {:induction false} DistinctChecksumsNeverPaired(s: Scan, es: seq<FileEntry>, threshold: int)
    requires CachesInv(s.caches) && !s.aborted && DistinctNewChecksums(s.caches, es, threshold)
    ensures NothingPaired(s, Run(s, es, threshold))
    decreases |es|
  {
    if es != [] {
      var init := es[..|es| - 1];
      var e := es[|es| - 1];
      assert DistinctNewChecksums(s.caches, init, threshold) by {
        forall i | 0 <= i < |init| ensures init[i] == es[i] { }
      }
      DistinctChecksumsNeverPaired(s, init, threshold);
      CacheKeysBound(s, init, threshold);
      if Qualifies(e, threshold) {
        ChecksumsMember(init, threshold, e.checksum);
      }
    }
  }

  // ---------------------------------------------------------------------------
  // When a call raises

  /** Once the checksum cache holds anything, this call has seen a miss and so has bound the metadata locals. */
  predicate MissSeen(s: Scan)
  {
    s.caches.checksumKey != map[] ==> s.tally.stale.Some?
  }

  /** From a state where every cached checksum was registered in this call, no file raises. */
  lemma {:induction false} MissSeenKept(s: Scan, es: seq<FileEntry>, threshold: int)
    requires CachesInv(s.caches) && !s.aborted && MissSeen(s)
    ensures !Run(s, es, threshold).aborted && MissSeen(Run(s, es, threshold))
    decreases |es|
  {
    if es != [] {
      MissSeenKept(s, es[..|es| - 1], threshold);
    }
  }

  /** A call on an instance whose checksum cache is empty, a fresh one in particular, never raises `UnboundLocalError` for `modDate`. */
  lemma EmptyCacheNeverRaises(c: Caches, es: seq<FileEntry>, threshold: int)
    requires CachesInv(c) && c.checksumKey == map[]
    ensures !Run(Begin(c), es, threshold).aborted
  {
    MissSeenKept(Begin(c), es, threshold);
  }

  /** A call of a fresh instance fails exactly when the threshold option is not understood. */
  lemma FreshWalkFailsOnlyOnSize(fileSize: string, es: seq<FileEntry>)
    ensures Walk(Fresh, fileSize, es).result.Err? <==> SizeType.Convert(fileSize).Err?
    ensures SizeType.Convert(fileSize).Err? ==> Walk(Fresh, fileSize, es).result == Err(SizeType.Convert(fileSize).error)
  {
    if SizeType.Convert(fileSize).Ok? {
      EmptyCacheNeverRaises(Fresh, es, SizeType.Convert(fileSize).value);
    }
  }

  /**
   * A call whose first compared file matches what an earlier call cached
   * raises at that file, after writing its pair and recording the original.
   */
  lemma RevisitRaises(c: Caches, e: FileEntry, rest: seq<FileEntry>, threshold: int)
    requires CachesInv(c) && IsMatch(c, e, threshold)
    ensures var r := Run(Begin(c), [e] + rest, threshold);
      var orig := c.checksumKey[e.checksum];
      r.aborted &&
      r.tally.report == PairLines(orig, e) &&
      r.caches.confirmed == c.confirmed[orig.fullPath := c.checksumValue.value]
  {
    var s1 := Run(Begin(c), [e], threshold);
    assert [] + [e] == [e];
    RunSnoc(Begin(c), [], e, threshold);
    RunCompose(Begin(c), [e], rest, threshold);
    RunFromAborted(s1, rest, threshold);
  }

  // ---------------------------------------------------------------------------
  // Worked walks

  /** `a` and `b` are compared and have the same size and checksum. */
  predicate SameFile(a: FileEntry, b: FileEntry, threshold: int)
  {
    Qualifies(a, threshold) && Qualifies(b, threshold) && a.size == b.size && a.checksum == b.checksum
  }

  /**
   * Two identical files are not a pair: the first is only marked in
   * `byte_cache`, the second becomes the cached original, and nothing is
   * reported.
   */
  lemma TwoIdenticalFilesNotPaired(a: FileEntry, b: FileEntry, threshold: int)
    requires SameFile(a, b, threshold)
    ensures var r := Run(Begin(Fresh), [a, b], threshold);
      !r.aborted && r.caches.confirmed == map[] && r.tally.report == [] && r.tally.byteCount == 0 &&
      r.caches.byteCache == {a.size} &&
      r.caches.checksumKey == map[b.checksum := Registered(b, 0)] &&
      r.caches.checksumValue == Some(Registered(b, 0)) &&
      r.tally.stale == Some(MetaOf(b)) && r.tally.recordCount == 2
  {
    assert [] + [a] == [a];
    assert [a] + [b] == [a, b];
    RunSnoc(Begin(Fresh), [], a, threshold);
    RunSnoc(Begin(Fresh), [a], b, threshold);
  }

  /**
   * `byte_cache` outlives a call: once an earlier call has marked a size,
   * the next call pairs two identical files of that size.
   */
  lemma WarmByteCachePairs(x: FileEntry, a: FileEntry, b: FileEntry, threshold: int)
    requires Qualifies(x, threshold) && SameFile(a, b, threshold) && x.size == a.size
    ensures var c := Run(Begin(Fresh), [x], threshold).caches;
      var r := Run(Begin(c), [a, b], threshold);
      !r.aborted && r.tally.dupNumber == 1 && r.tally.byteCount == b.size &&
      r.tally.report == PairLines(Registered(a, 0), b) &&
      r.caches.confirmed == map[a.path := Registered(a, 0)][b.path := DuplicateRecord(b, MetaOf(a), 1)]
  {
    assert [] + [x] == [x];
    RunSnoc(Begin(Fresh), [], x, threshold);
    var c := Run(Begin(Fresh), [x], threshold).caches;
    assert c.byteCache == {x.size} && c.checksumKey == map[];
    assert [] + [a] == [a];
    assert [a] + [b] == [a, b];
    RunSnoc(Begin(c), [], a, threshold);
    RunSnoc(Begin(c), [a], b, threshold);
    var s1 := Run(Begin(c), [a], threshold);
    PairWithMeta(s1.caches.(byteSize := Some(b.size)), s1.tally.(recordCount := 2), b, MetaOf(a));
  }

  /**
   * With three identical files the third is paired with the second: the
   * second is the original both in the report and in `confirmed_dup_key`,
   * and the first is never named.
   */
  lemma ThreeIdenticalFilesPaired(a: FileEntry, b: FileEntry, c: FileEntry, threshold: int)
    requires SameFile(a, b, threshold) && SameFile(b, c, threshold)
    ensures var r := Run(Begin(Fresh), [a, b, c], threshold);
      !r.aborted &&
      r.tally.report == PairLines(Registered(b, 0), c) &&
      r.tally.byteCount == c.size && r.tally.dupNumber == 1 &&
      r.caches.confirmed == map[b.path := Registered(b, 0)][c.path := DuplicateRecord(c, MetaOf(b), 1)]
  {
    TwoIdenticalFilesNotPaired(a, b, threshold);
    assert [a, b] + [c] == [a, b, c];
    RunSnoc(Begin(Fresh), [a, b], c, threshold);
    var s2 := Run(Begin(Fresh), [a, b], threshold);
    PairWithMeta(s2.caches.(byteSize := Some(c.size)), s2.tally.(recordCount := 3), c, MetaOf(b));
  }

  /**
   * A second call of the same instance over the same two identical files
   * raises: its first file matches the checksum the first call cached, and
   * in this call no miss has bound `modDate` yet.
   */
  lemma SecondWalkRaises(fileSize: string, a: FileEntry, b: FileEntry)
    requires SizeType.Convert(fileSize).Ok? && SameFile(a, b, SizeType.Convert(fileSize).value)
    ensures Walk(Fresh, fileSize, [a, b]).result == Ok(map[])
    ensures Walk(Walk(Fresh, fileSize, [a, b]).caches, fileSize, [a, b]).result == Err(UnboundLocalError("modDate"))
  {
    var threshold := SizeType.Convert(fileSize).value;
    TwoIdenticalFilesNotPaired(a, b, threshold);
    var c := Walk(Fresh, fileSize, [a, b]).caches;
    assert [a] + [b] == [a, b];
    RevisitRaises(c, a, [b], threshold);
  }

  /**
   * Unreadable files all have the checksum `None`, so two of them, each
   * hashed because an earlier file had its size, are reported as a pair
   * even when their sizes differ.
   */
  lemma UnreadableFilesPaired(a: FileEntry, b: FileEntry, d: FileEntry, e: FileEntry, threshold: int)
    requires Qualifies(a, threshold) && Qualifies(b, threshold) && Qualifies(d, threshold) && Qualifies(e, threshold)
    requires a.size == b.size && d.size == e.size && a.size != d.size
    requires b.checksum == None && e.checksum == None
    ensures var r := Run(Begin(Fresh), [a, b, d, e], threshold);
      !r.aborted && b.size != e.size &&
      r.tally.report == PairLines(Registered(b, 0), e) &&
      e.path in r.caches.confirmed && r.caches.confirmed[e.path] == DuplicateRecord(e, MetaOf(b), 1)
  {
    assert [] + [a] == [a];
    assert [a] + [b] == [a, b];
    assert [a, b] + [d] == [a, b, d];
    assert [a, b, d] + [e] == [a, b, d, e];
    RunSnoc(Begin(Fresh), [], a, threshold);
    RunSnoc(Begin(Fresh), [a], b, threshold);
    RunSnoc(Begin(Fresh), [a, b], d, threshold);
    RunSnoc(Begin(Fresh), [a, b, d], e, threshold);
    var s3 := Run(Begin(Fresh), [a, b, d], threshold);
    PairWithMeta(s3.caches.(byteSize := Some(e.size)), s3.tally.(recordCount := 4), e, MetaOf(b));
  }

  /** Two pairs of equal sizes with different checksums: the second of each pair is registered, the second last. */
  lemma TwoMisses(a: FileEntry, b: FileEntry, d: FileEntry, f: FileEntry, threshold: int)
    requires SameFile(a, b, threshold)
    requires Qualifies(d, threshold) && Qualifies(f, threshold) && d.size == f.size && d.size != a.size
    requires f.checksum != b.checksum
    ensures var r := Run(Begin(Fresh), [a, b, d, f], threshold);
      !r.aborted &&
      r.caches.checksumKey == map[b.checksum := Registered(b, 0)][f.checksum := Registered(f, 0)] &&
      r.caches.checksumValue == Some(Registered(f, 0)) && r.tally.stale == Some(MetaOf(f)) &&
      r.caches.byteCache == {a.size, d.size} &&
      r.tally.dupNumber == 0 && r.tally.report == [] && r.caches.confirmed == map[]
  {
    TwoIdenticalFilesNotPaired(a, b, threshold);
    assert [a, b] + [d] == [a, b, d];
    assert [a, b, d] + [f] == [a, b, d, f];
    RunSnoc(Begin(Fresh), [a, b], d, threshold);
    RunSnoc(Begin(Fresh), [a, b, d], f, threshold);
  }

  /**
   * `confirmed_dup_key` files an original under the record of the last miss,
   * not its own, and the duplicate's record carries the last miss's dates and
   * extension: here `b`'s entry is `f`'s record.
   */
  lemma OriginalFiledUnderLastMiss(a: FileEntry, b: FileEntry, d: FileEntry, f: FileEntry, g: FileEntry, threshold: int)
    requires SameFile(a, b, threshold) && SameFile(b, g, threshold)
    requires Qualifies(d, threshold) && Qualifies(f, threshold) && d.size == f.size && d.size != a.size
    requires f.checksum != b.checksum && b.path != g.path
    ensures var r := Run(Begin(Fresh), [a, b, d, f, g], threshold);
      !r.aborted &&
      r.tally.report == PairLines(Registered(b, 0), g) &&
      r.caches.confirmed == map[b.path := Registered(f, 0)][g.path := DuplicateRecord(g, MetaOf(f), 1)] &&
      r.caches.confirmed[b.path].fullPath == f.path &&
      r.caches.confirmed[g.path].modDate == f.createStamp
  {
    TwoMisses(a, b, d, f, threshold);
    assert [a, b, d, f] + [g] == [a, b, d, f, g];
    RunSnoc(Begin(Fresh), [a, b, d, f], g, threshold);
    var s4 := Run(Begin(Fresh), [a, b, d, f], threshold);
    PairWithMeta(s4.caches.(byteSize := Some(g.size)), s4.tally.(recordCount := 5), g, MetaOf(f));
  }

  /** The report of `orig` paired with each of `dups` in turn. */
  function PairsWith(orig: Record, dups: seq<FileEntry>): seq<ReportLine>
    decreases |dups|
  {
    if dups == [] then []
    else PairsWith(orig, dups[..|dups| - 1]) + PairLines(orig, dups[|dups| - 1])
  }

  /** All files of `es` are compared and have one size and one checksum. */
  predicate AllIdentical(es: seq<FileEntry>, threshold: int)
  {
    forall i | 0 <= i < |es| :: SameFile(es[0], es[i], threshold)
  }

  /** What holds after the first `n` of the identical files `es`. */
  predicate IdenticalAfter(es: seq<FileEntry>, n: nat, r: Scan)
    requires 2 <= n <= |es|
  {
    !r.aborted && IdenticalCaches(es, r) && IdenticalTally(es, n, r) && IdenticalConfirmed(es, n, r)
  }

  /** The second file is the one cached original. */
  predicate IdenticalCaches(es: seq<FileEntry>, r: Scan)
    requires 2 <= |es|
  {
    var orig := Registered(es[1], 0);
    r.caches.checksumKey == map[es[0].checksum := orig] &&
    r.caches.checksumValue == Some(orig) &&
    r.caches.byteCache == {es[0].size} &&
    r.tally.stale == Some(MetaOf(es[1]))
  }

  /** Every file after the second is counted and reported as its duplicate. */
  predicate IdenticalTally(es: seq<FileEntry>, n: nat, r: Scan)
    requires 2 <= n <= |es|
  {
    r.tally.recordCount == n &&
    r.tally.dupNumber == n - 2 &&
    r.tally.byteCount == (n - 2) * es[0].size &&
    r.tally.report == PairsWith(Registered(es[1], 0), es[2..n])
  }

  /** `confirmed_dup_key` holds the second file and every later one, and nothing else. */
  predicate IdenticalConfirmed(es: seq<FileEntry>, n: nat, r: Scan)
    requires 2 <= n <= |es|
  {
    (forall i | 2 <= i < n :: es[i].path in r.caches.confirmed) &&
    (n > 2 ==> es[1].path in r.caches.confirmed) &&
    (forall p | p in r.caches.confirmed :: exists i | 1 <= i < n :: es[i].path == p)
  }

  /** The state after pairing the `n`-th identical file, written out. */
  function PairedNext(es: seq<FileEntry>, n: nat, prev: Scan): Scan
    requires 3 <= n <= |es|
  {
    var orig := Registered(es[1], 0);
    var e := es[n - 1];
    Scan(
      prev.caches.(byteSize := Some(e.size),
                   confirmed := prev.caches.confirmed[orig.fullPath := orig][e.path := DuplicateRecord(e, MetaOf(es[1]), n - 2)]),
      prev.tally.(recordCount := n, byteCount := prev.tally.byteCount + e.size, dupNumber := n - 2,
                  report := prev.tally.report + PairLines(orig, e)),
      false)
  }

  /** Pairing the `n`-th identical file keeps the counters and the report in step. */
  lemma PairedNextTally(es: seq<FileEntry>, n: nat, prev: Scan, threshold: int)
    requires AllIdentical(es, threshold) && 3 <= n <= |es| && IdenticalTally(es, n - 1, prev)
    ensures IdenticalTally(es, n, PairedNext(es, n, prev))
  {
    assert SameFile(es[0], es[n - 1], threshold);
    var r := PairedNext(es, n, prev);
    assert es[2..n][..n - 3] == es[2..n - 1];
    assert es[2..n][n - 3] == es[n - 1];
    assert r.tally.byteCount == (n - 3) * es[0].size + es[0].size;
  }

  /** Pairing the `n`-th identical file adds the second file and the `n`-th to `confirmed_dup_key`. */
  lemma PairedNextConfirmed(es: seq<FileEntry>, n: nat, prev: Scan)
    requires 3 <= n <= |es| && IdenticalConfirmed(es, n - 1, prev)
    ensures IdenticalConfirmed(es, n, PairedNext(es, n, prev))
  {
    var r := PairedNext(es, n, prev);
    forall p | p in r.caches.confirmed
      ensures exists i | 1 <= i < n :: es[i].path == p
    {
      if p != es[1].path && p != es[n - 1].path {
        assert p in prev.caches.confirmed;
        var i :| 1 <= i < n - 1 && es[i].path == p;
        assert es[i].path == p;
      }
    }
  }

  /** Pairing the `n`-th identical file keeps the description of the walk. */
  lemma PairedNextAfter(es: seq<FileEntry>, n: nat, prev: Scan, threshold: int)
    requires AllIdentical(es, threshold) && 3 <= n <= |es| && IdenticalAfter(es, n - 1, prev)
    ensures IdenticalAfter(es, n, PairedNext(es, n, prev))
  {
    PairedNextTally(es, n, prev, threshold);
    PairedNextConfirmed(es, n, prev);
  }

  /** One more identical file is paired with the second file. */
  lemma IdenticalStep(es: seq<FileEntry>, n: nat, prev: Scan, threshold: int)
    requires AllIdentical(es, threshold) && 3 <= n <= |es|
    requires CachesInv(prev.caches) && IdenticalAfter(es, n - 1, prev)
    ensures IdenticalAfter(es, n, Step(prev, es[n - 1], threshold))
  {
    assert SameFile(es[0], es[n - 1], threshold);
    PairWithMeta(prev.caches.(byteSize := Some(es[n - 1].size)), prev.tally.(recordCount := n), es[n - 1], MetaOf(es[1]));
    assert Step(prev, es[n - 1], threshold) == PairedNext(es, n, prev);
    PairedNextAfter(es, n, prev, threshold);
  }

  /**
   * A walk over `n >= 2` identical files: the second file is the original of
   * every later one, `n - 2` duplicates are counted with `n - 2` times the size
   * as wasted bytes, and the first file never reaches `confirmed_dup_key`.
   */
  lemma {:induction false} IdenticalFiles(es: seq<FileEntry>, n: nat, threshold: int)
    requires AllIdentical(es, threshold) && 2 <= n <= |es|
    ensures IdenticalAfter(es, n, Run(Begin(Fresh), es[..n], threshold))
    decreases n
  {
    if n == 2 {
      assert es[..2] == [es[0], es[1]];
      assert SameFile(es[0], es[1], threshold);
      TwoIdenticalFilesNotPaired(es[0], es[1], threshold);
      assert es[2..2] == [];
    } else {
      IdenticalFiles(es, n - 1, threshold);
      assert es[..n - 1] + [es[n - 1]] == es[..n];
      RunSnoc(Begin(Fresh), es[..n - 1], es[n - 1], threshold);
      IdenticalStep(es, n, Run(Begin(Fresh), es[..n - 1], threshold), threshold);
    }
  }

  /**
   * A threshold option with no digit at all makes the call fail with
   * `UnboundLocalError` for `byteValue`, before any file is looked at.
   */
  lemma NoDigitSizeFails(c: Caches, fileSize: string, es: seq<FileEntry>)
    requires CachesInv(c)
    requires forall i | 0 <= i < |fileSize| :: fileSize[i] !in Digits
    ensures Walk(c, fileSize, es) == Outcome(Err(UnboundLocalError("byteValue")), c, NoTally)
  {
    SizeType.NoDigitRejected(fileSize);
  }
}
