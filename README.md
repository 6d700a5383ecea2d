# liten: duplicate-file detection, modelled in Dafny

`liten.py` is a command-line tool and library that finds duplicate files under
a directory tree. Its core is `LitenBaseClass.diskWalker`, a walk with two
phases:

- **Size pre-filter.** The first regular file of each size at or above the
  threshold is only remembered in `byte_cache`.
- **Checksum phase.** A later file of a size already seen is hashed and
  looked up in `checksum_cache_key`.
  - A hit is a duplicate of the cached original. The counters `byte_count`
    and `dupNumber` go up, a three-line block is written to the report, and
    both sides go into `confirmed_dup_key`, unless building the duplicate's
    record raises (see below), in which case only the original does.
  - A miss registers the file as the reference for its checksum.

The threshold comes from `LitenBaseClass.sizeType`, which turns the `--size`
option into a number of bytes. The documented forms are:

- a plain integer (megabytes);
- an integer followed by `bytes`, `KB`, `MB`, `GB` or `TB`.

These are not the only strings it accepts, nor does it accept every string a
reader would expect. `strip(key)` removes the key's letters as a set, from
both ends, so `MB3` is three megabytes and `sbytes1` is one byte, while
` 2MB ` (with the spaces) raises, because the spaces shield the letters.

The project models this core and proves what it does, quirks included:

- **The lazy-hashing gap.** In a call on a fresh instance, two identical
  files are never paired when they are the only files of their size: the
  first is only marked in `byte_cache`. In such a call a third identical file
  pairs with the second, and the first is never named. Because `byte_cache`
  outlives the call, a later call on the same instance does hash and pair two
  such files (`WarmByteCachePairs`).
- **Unreadable files.** Their checksum is `None`, which is used as an
  ordinary cache key. Only files of an already-seen size are hashed, so an
  unreadable file of an already-seen size pairs with the unreadable file
  registered before it, whatever the two sizes (`UnreadableFilesPaired`).
- **The original's entry.** `confirmed_dup_key[orig_path]` holds the most
  recently registered record, which need not be the original's own.
- **The duplicate's record.** It reuses the dates and extension that the
  last cache miss left in the locals.
- **A second call raises.** On the same instance, the first compared file can
  hit a checksum the first call cached. If no miss has happened yet in this
  call, the locals of a miss are unbound, and building the duplicate's record
  raises `UnboundLocalError` for `modDate`.

Modules:

- `Wrappers`: `Option` and `Result`.
- `PyBuiltins`: the three Python built-ins the core relies on, and the
  `UnboundLocalError` it can raise.
  - `str.strip(chars)` removes, from both ends, every character in `chars`, treating the argument as a set.
  - `int()` on a string accepts surrounding whitespace, one optional sign, whitespace after the sign, and decimal digits.
  - `re.search` with a literal key is substring search.
- `SizeType`: `sizeType` as a specification function, `Convert`, and its properties. It is built on:
  - `Attempt`, one iteration of the loop over `patterns`;
  - `Convert`, the loop's outcome, which is an error when every iteration raises.
- `Walker`: `diskWalker` as a specification on values. It is built from:
  - `Step`, one file;
  - `Run`, a walk;
  - `Walk`, one call, including the threshold.
  - The instance fields are `Caches`; the call's locals are `Tally`.
- `WalkerProps`: lemmas about `Run` and `Walk`.
- `Liten`: the class `LitenBaseClass`. Its fields are the instance
  dictionaries. Its methods `SizeType` and `DiskWalker` loop and update the
  fields in place, and are proved against `Convert` and `Walk`.

The directory walk is an input sequence of `FileEntry` values. Each entry gives
a path, whether `os.path.isfile` holds, the size, the checksum (`None` when
`createChecksum` hit an I/O error), the formatted creation date, the search
date and the extension. The dictionary iteration order of `patterns` is a
parameter of `SizeType`, and `OrderIndependent` shows that it does not matter.

Behaviour worth knowing:

- Below-threshold files still count in `record_count` (liten.py:243-244).
- A `None` checksum is cached and paired like any other (liten.py:252-255, 320).
- A second call on one instance can raise `UnboundLocalError` for `modDate`
  instead of repeating the first result (`SecondWalkRaises`).
- `os.path.isfile` follows symbolic links, so links to regular files are
  examined.
- A threshold that does not parse raises inside `diskWalker`, after the
  report file has been opened.

## Model

| member | source | states |
|---|---|---|
| `Liten.LitenBaseClass.Default` | liten.py:112-124 | `LitenBaseClass()` without arguments starts with the size option `'1MB'` and empty caches |
| `Liten.LitenBaseClass.constructor` | liten.py:112-124 | A new instance has an empty `byte_cache`, `checksum_cache_key` and `confirmed_dup_key`, and no registered record; it keeps the size option as given |
| `Liten.LitenBaseClass.SizeType` | liten.py:179-208 | For every iteration order of the five `patterns` keys, the loop returns the value an iteration that did not raise computed, or raises `UnboundLocalError` for `byteValue` when every iteration raised (equal to `Convert`) |
| `Liten.LitenBaseClass.DiskWalker` | liten.py:210-341 | The call updates the instance fields and returns `confirmed_dup_key` (or raises) exactly as `Walk` on the old fields describes; the fields keep the cache invariant |
| `Liten.LitenBaseClass.ExamineFile` | liten.py:241-324 | The loop body for one file changes the fields and the locals exactly as one `Step` does, in the source's branch order |
| `SizeType.Attempt` | liten.py:196-207 | One iteration for one key: when the key occurs in the option, `int` of the option stripped of the key's letters times the key's multiplier, else `int` of the option stripped of whitespace times 1048576; `None` when that `int()` raises and the exception is swallowed |
| `SizeType.Convert` | liten.py:195-208 | The value `sizeType` returns: the value of an iteration that did not raise, or `UnboundLocalError` for `byteValue` when none did |
| `SizeType.KeyChars` | liten.py:187-201 | The characters `strip(key)` removes contain no whitespace, sign or digit |
| `SizeType.Consistent` | liten.py:195-207 | Two iterations that both finish compute the same value, so the iteration order cannot change the result |
| `SizeType.NotBoth` | liten.py:198-204 | When one key occurs in the option, every iteration for another key raises |
| `SizeType.ConvertAgrees` | liten.py:195-208 | Whatever iteration finishes, its value is the result |
| `SizeType.ConvertFails` | liten.py:195-208 | The result is `UnboundLocalError` exactly when every iteration raises |
| `SizeType.OrderIndependent` | liten.py:195-208 | Keeping the last value of the iterations that did not raise, in any order covering the five keys, gives `Convert`, including the error case |
| `SizeType.AttemptChars` | liten.py:198-204 | An iteration finishes only on an option made of the key's characters, whitespace, signs and digits |
| `SizeType.AttemptNeedsDigit` | liten.py:198-204 | An iteration finishes only on an option holding a digit |
| `SizeType.PlainIntegerIsMegabytes` | liten.py:203-204 | A plain integer `n` gives `n * 1048576` |
| `SizeType.SuffixedIntegerIsUnits` | liten.py:187-201 | An integer `n` followed by `bytes`, `KB`, `MB`, `GB` or `TB` gives `n` times 1, 1024, 1048576, 1073741824 or 1099511627776 |
| `SizeType.ForeignCharRejected` | liten.py:195-208 | An option holding a character that is neither a key letter nor part of a number raises `UnboundLocalError` for `byteValue` |
| `SizeType.NoDigitRejected` | liten.py:195-208 | An option with no digit raises `UnboundLocalError` for `byteValue` |
| `SizeType.KeyBeforeNumber` | liten.py:198-201 | `-s MB3` is three megabytes |
| `SizeType.StrayKeyLetter` | liten.py:198-201 | `-s sbytes1` is one byte |
| `SizeType.SpacedUnitRejected` | liten.py:195-208 | `-s " 2MB "` raises `UnboundLocalError` for `byteValue` |
| `SizeType.DocumentedPlainForm` | liten.py:17 | `-s 1` is one megabyte |
| `SizeType.DocumentedUnitForms` | liten.py:17-22 | `-s 1bytes`, `1KB`, `1MB`, `1GB`, `1TB` give one of each unit, and `-s 1` equals `-s 1MB` |
| `PyBuiltins.Strip` | liten.py:201 | `str.strip(chars)`: the string without its longest leading and trailing runs of characters from the set |
| `PyBuiltins.IsPyInt` | liten.py:201-204 | `int()` on a string succeeds: after whitespace is stripped, an optional sign, optional whitespace after it, and at least one decimal digit |
| `PyBuiltins.PyInt` | liten.py:201-204 | The value `int()` gives such a string: its decimal digits, negated after a `-` |
| `PyBuiltins.SpaceAfterSign` | liten.py:201-204 | `int('- 3')` is -3, as Python 2 reads whitespace between the sign and the digits |
| `PyBuiltins.Contains` | liten.py:198 | `re.search(key, s)` with a literal key: `key` occurs somewhere in `s` |
| `PyBuiltins.StripLeftShape` | liten.py:201 | `strip` from the left removes a prefix of characters of the set and stops at a character outside it |
| `PyBuiltins.StripRightShape` | liten.py:201 | `strip` from the right removes a suffix of characters of the set and stops at a character outside it |
| `PyBuiltins.StripKeepsOrDrops` | liten.py:201 | Every character of the input is in the stripped set or still in the result |
| `PyBuiltins.PyIntChars` | liten.py:201-204 | A string `int()` accepts consists of whitespace, signs and digits and holds a digit |
| `PyBuiltins.ContainsSuffix` | liten.py:198 | A key at the end of the option is found by the search |
| `Walker.Registered` | liten.py:305-318 | The record a miss caches: the file's path, creation date as `modDate`, the current `dupNumber`, search date, checksum, size, no file type, extension |
| `Walker.DuplicateRecord` | liten.py:289-297 | The record a match files for the duplicate: its own path, checksum, size and the current `dupNumber`, with the dates and extension the last miss left in the locals |
| `Walker.PairLines` | liten.py:269-277 | The three report lines of a match: the header, the original's path, size in whole megabytes and cached `modDate`, then the duplicate's path, size and creation date |
| `Walker.Pair` | liten.py:255-297 | A match keeps the cache invariant |
| `Walker.Register` | liten.py:303-320 | A miss keeps the cache invariant |
| `Walker.Step` | liten.py:241-324 | One file keeps the cache invariant |
| `Walker.Run` | liten.py:239-324 | A walk keeps the cache invariant |
| `Walker.Walk` | liten.py:210-341 | One call of `diskWalker`: the error from `sizeType` before any file is examined, else the walk from the call's fresh locals, ending in `UnboundLocalError` for `modDate` if a file raised, or returning `confirmed_dup_key` |
| `Walker.RunStopsAfterAbort` | liten.py:289-290 | Once a file has raised, the rest of the walk is not visited |
| `WalkerProps.RunFromAborted` | liten.py:289-290 | After the exception nothing changes any more |
| `WalkerProps.RunCompose` | liten.py:239-240 | Walking two parts in turn is walking their concatenation |
| `WalkerProps.BelowThresholdSkipped` | liten.py:242-245 | A regular file below the threshold only bumps `record_count` and sets `byte_size`; one exactly at the threshold is compared |
| `WalkerProps.FirstOfSizeOnlyMarked` | liten.py:322-324 | The first file of a size is only added to `byte_cache`: not hashed, not registered |
| `WalkerProps.MatchAccounting` | liten.py:255-297 | On a match, the original shares the checksum. `byte_count` grows by the size and `dupNumber` by one. The report gains the pair block, the checksum cache is untouched and the duplicate's path enters `confirmed_dup_key`. Otherwise none of these change |
| `WalkerProps.MissRegisters` | liten.py:303-320 | A miss stores the file's record under its checksum and as `checksum_cache_value`, and binds the metadata locals |
| `WalkerProps.LaterMatchSameOriginal` | liten.py:255-264 | A later file with a checksum cached earlier is reported against that same cached original |
| `WalkerProps.CacheWriteOnce` | liten.py:255-320 | No entry of `checksum_cache_key` is ever overwritten, and `byte_cache` only grows |
| `WalkerProps.StepWriteOnce` | liten.py:303-320 | One file never overwrites a checksum-cache entry |
| `WalkerProps.ByteCacheGrowth` | liten.py:245-324 | `byte_cache` gains exactly the sizes of the regular files at or above the threshold |
| `WalkerProps.CacheKeysBound` | liten.py:245-320 | Only checksums of compared files enter the checksum cache |
| `WalkerProps.RecordCount` | liten.py:242-244 | `record_count` is the number of regular files walked |
| `WalkerProps.AppendBlock` | liten.py:268-277 | A report of pair blocks stays one after another block |
| `WalkerProps.StepReport` | liten.py:268-277 | One file adds either nothing or one pair block with one duplicate |
| `WalkerProps.ReportGrowth` | liten.py:268-277 | The report only grows, by three lines per duplicate counted |
| `WalkerProps.ReportWellFormed` | liten.py:268-277 | The report is made of header, original, duplicate blocks |
| `WalkerProps.DistinctSizesNeverHashed` | liten.py:246-252 | Files of sizes never seen before are never hashed, registered or paired |
| `WalkerProps.DistinctChecksumsNeverPaired` | liten.py:255-320 | Files whose checksums all differ are never paired |
| `WalkerProps.MissSeenKept` | liten.py:289-310 | When every cached checksum was registered in this call, no file raises |
| `WalkerProps.EmptyCacheNeverRaises` | liten.py:289-310 | A call on an instance with an empty checksum cache never raises for `modDate` |
| `WalkerProps.FreshWalkFailsOnlyOnSize` | liten.py:229-341 | A fresh instance's call fails exactly when the size option does not parse |
| `WalkerProps.RevisitRaises` | liten.py:282-290 | A call whose first compared file hits a checksum an earlier call cached writes the pair, records the original, then raises |
| `WalkerProps.TwoIdenticalFilesNotPaired` | liten.py:246-320 | A fresh walk of exactly two identical files pairs nothing. The second file is registered, and `byte_count` stays 0 |
| `WalkerProps.WarmByteCachePairs` | liten.py:124-320 | After a call that only marked a size, the next call on the instance pairs two identical files of that size: one duplicate, the pair block, both entries filed |
| `WalkerProps.ThreeIdenticalFilesPaired` | liten.py:246-320 | With three identical files exactly one pair results, original the second and duplicate the third, and `byte_count` is one file's size |
| `WalkerProps.SecondWalkRaises` | liten.py:282-290 | A second call on the same instance over the same two identical files raises `UnboundLocalError` for `modDate` |
| `WalkerProps.UnreadableFilesPaired` | liten.py:246-320 | Two unreadable files, each after an earlier file of its own size, are paired under the checksum `None` even when their sizes differ |
| `WalkerProps.TwoMisses` | liten.py:303-320 | Two misses in turn cache both records, and the later one becomes `checksum_cache_value` |
| `WalkerProps.OriginalFiledUnderLastMiss` | liten.py:282-297 | The original's entry in `confirmed_dup_key` is the last registered record. The duplicate's record carries the last miss's dates |
| `WalkerProps.IdenticalFiles` | liten.py:246-324 | Over `n` identical files the second is the original of every later one. There are `n - 2` duplicates and `n - 2` times the size in `byte_count`, and the first file never enters `confirmed_dup_key` |
| `WalkerProps.NoDigitSizeFails` | liten.py:229 | A size option with no digit fails the call before any file is looked at, leaving the fields untouched |

## Left out

- File reading and MD5 in `createChecksum` (liten.py:149-165): the checksum is part of each walk entry, `None` standing for an I/O error.
- `os.walk`, `os.path.join`, `os.path.isfile`, `os.path.getsize` (liten.py:228, 239-243): the walk is an input sequence; the two nested loops are one loop over it, in walk order.
- `makeModDate`, `makeCreateDate`, `createSearchDate` (liten.py:135-147, 167-170): clock and locale dependent; each entry carries the formatted strings as opaque values, so the repeated `makeCreateDate` calls of one file agree.
- `createExt` (liten.py:172-177): its value is part of each entry.
- The second `createChecksum` call in the miss branch (liten.py:305): the checksum is a function of the file's content, so both calls are one value.
- Logging (liten.py:126-133, 249, 323), everything printed under `verbose`, timing (liten.py:235, 336-339) and the exact text of report lines: the report is a sequence of lines holding the version, path, size in whole megabytes and date; opening the report file is not modelled.
- The fields `spath`, `reportPath` and `verbose` (liten.py:116-119): they only feed I/O. `confirmed_dup_value` (liten.py:123) is never read by the core and is not a field of the model.
- `LitenController` and the command line (liten.py:343-405): CLI plumbing.
- Exceptions other than `UnboundLocalError`, such as `os.path.getsize` failing on a file that vanished: not modelled.
- Python dictionary aliasing: `checksum_cache_value` and the entries of `checksum_cache_key` are the same dictionary objects in the source, and no code mutates one after storing it. The model stores them as values.
