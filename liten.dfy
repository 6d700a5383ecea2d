/**
 * `LitenBaseClass`: the object whose dictionaries `diskWalker` fills in place.
 * Its methods are proved against `SizeType.Convert` and `Walker.Walk`.
 */
module Liten {
  import opened Wrappers
  import opened PyBuiltins
  import opened SizeType
  import opened Walker

  class LitenBaseClass {
    /** The `--size` option, as given. */
    var fileSize: string
    /** `byte_cache`: the sizes seen so far (the source's dictionary maps each to `None`). */
    var byteCache: set<nat>
    /** `checksum_cache_key`: checksum to the record of the file registered for it. */
    var checksumCacheKey: map<Option<Digest>, Record>
    /** `checksum_cache_value`: the record registered last (the empty dictionary before any). */
    var checksumCacheValue: Option<Record>
    /** `confirmed_dup_key`: path to record, for both sides of every pair found. */
    var confirmedDupKey: map<Path, Record>
    /** `byte_size`: the size of the last regular file examined (unset before the first). */
    var byteSize: Option<nat>

    function State(): Caches
      reads this
    {
      Caches(byteCache, checksumCacheKey, checksumCacheValue, confirmedDupKey, byteSize)
    }

    ghost predicate Valid()
      reads this
    {
      CachesInv(State())
    }

    /** `LitenBaseClass()` with the default size option `'1MB'`. */
    constructor Default()
      ensures Valid() && State() == Fresh && fileSize == "1MB"
    {
      fileSize := "1MB";
      byteCache := {};
      checksumCacheKey := map[];
      checksumCacheValue := None;
      confirmedDupKey := map[];
      byteSize := None;
    }

    /** `LitenBaseClass(fileSize=...)`. */
    constructor (fileSize: string)
      ensures Valid() && State() == Fresh && this.fileSize == fileSize
    {
      this.fileSize := fileSize;
      byteCache := {};
      checksumCacheKey := map[];
      checksumCacheValue := None;
      confirmedDupKey := map[];
      byteSize := None;
    }

    /**
     * `sizeType`: the loop over the `patterns` dictionary, in the given
     * iteration order; an iteration whose `int()` raises leaves `byteValue`
     * as it was.
     */
    method SizeType(order: seq<Unit>) returns (r: Result<int, PyError>)
      requires IsDictOrder(order)
      ensures r == Convert(fileSize)
    {
      var byteValue: Option<int> := None;
      var i := 0;
      while i < |order|
        invariant 0 <= i <= |order|
        invariant byteValue == LastSome(Attempts(order[..i], fileSize))
      {
        var key := order[i];
        if Contains(fileSize, Key(key)) {
          var stripped := Strip(fileSize, KeyChars(key));
          if IsPyInt(stripped) {
            byteValue := Some(PyInt(stripped) * Multiplier(key));
          }
        } else {
          var stripped := Strip(fileSize, Whitespace);
          if IsPyInt(stripped) {
            byteValue := Some(PyInt(stripped) * BytesPerMB);
          }
        }
        AttemptsSnoc(order, i, fileSize);
        i := i + 1;
      }
      assert order[..i] == order;
      OrderIndependent(order, fileSize);
      if byteValue.None? {
        r := Err(UnboundLocalError("byteValue"));
      } else {
        r := Ok(byteValue.value);
      }
    }

    /**
     * `diskWalker` over the files `walk` yields, in that order. Returns
     * `confirmed_dup_key` or the exception that escaped, and the call's
     * locals, whose `report` is what was written to the report file.
     */
    method DiskWalker(walk: seq<FileEntry>) returns (result: Result<map<Path, Record>, PyError>, tally: Tally)
      requires Valid()
      modifies this
      ensures Valid() && fileSize == old(fileSize)
      ensures Walk(old(State()), fileSize, walk) == Outcome(result, State(), tally)
    {
      UnitsAreDictOrder();
      var threshold := SizeType(Units);
      if threshold.Err? {
        result, tally := Err(threshold.error), NoTally;
        return;
      }
      ghost var start := Begin(State());
      tally := NoTally;
      var aborted := false;
      var i := 0;
      while i < |walk| && !aborted
        invariant 0 <= i <= |walk|
        invariant fileSize == old(fileSize)
        invariant Valid()
        invariant Run(start, walk[..i], threshold.value) == Scan(State(), tally, aborted)
      {
        RunSnoc(start, walk[..i], walk[i], threshold.value);
        tally, aborted := ExamineFile(walk[i], threshold.value, tally);
        assert walk[..i] + [walk[i]] == walk[..i + 1];
        i := i + 1;
      }
      if aborted {
        RunStopsAfterAbort(start, walk, i, threshold.value);
        result := Err(UnboundLocalError("modDate"));
      } else {
        assert walk[..i] == walk;
        result := Ok(confirmedDupKey);
      }
    }

    /**
     * The body of `diskWalker`'s inner loop for one file, with the call's
     * locals passed in and handed back; `aborted` when `UnboundLocalError`
     * escapes from it.
     */
    method ExamineFile(e: FileEntry, threshold: int, t: Tally) returns (t': Tally, aborted: bool)
      requires Valid()
      modifies this
      ensures Valid() && fileSize == old(fileSize)
      ensures Scan(State(), t', aborted) == Step(Scan(old(State()), t, false), e, threshold)
    {
      t', aborted := t, false;
      if !e.isRegular {
        return;
      }
      byteSize := Some(e.size);
      t' := t'.(recordCount := t'.recordCount + 1);
      if e.size < threshold {
        return;
      }
      if e.size !in byteCache {
        byteCache := byteCache + {e.size};
        return;
      }
      var checksum := e.checksum;
      if checksum !in checksumCacheKey {
        var rec := Record(e.path, e.createStamp, t'.dupNumber, e.searchStamp, checksum, e.size, None, e.ext);
        t' := t'.(stale := Some(MetaOf(e)));
        checksumCacheValue := Some(rec);
        checksumCacheKey := checksumCacheKey[checksum := rec];
        return;
      }
      ghost var c0, t0 := State(), t';
      t' := t'.(byteCount := t'.byteCount + e.size, dupNumber := t'.dupNumber + 1);
      var origPath := checksumCacheKey[checksum].fullPath;
      var origModDate := checksumCacheKey[checksum].modDate;
      t' := t'.(report := t'.report + [Header, Line(Original, origPath, e.size / BytesPerMB, origModDate)]);
      var dupeModDate := e.createStamp;
      t' := t'.(report := t'.report + [Line(Duplicate, e.path, e.size / BytesPerMB, dupeModDate)]);
      confirmedDupKey := confirmedDupKey[origPath := checksumCacheValue.value];
      if t'.stale.None? {
        // building the duplicate's record reads `modDate`, never bound in this call
        aborted := true;
        return;
      }
      var m := t'.stale.value;
      confirmedDupKey := confirmedDupKey[e.path := Record(e.path, m.modDate, t'.dupNumber, m.searchDate,
                                                         checksum, e.size, None, m.fileExt)];
      PairWithMeta(c0, t0, e, m);
    }
  }
}
