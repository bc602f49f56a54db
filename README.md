# Known-pattern detector of scrubadub, in Dafny

scrubadub's `KnownFilthDetector` labels known PII in a text. It is set up with
an ordered list of pattern items. Each item is a dictionary holding either a
phrase to match exactly (`match`) or a pair of markers (`start`, `end`) with an
optional window `limit`. Every hit becomes a `KnownFilth` record with these
fields:

- the span `[start, end)` and the text it covers;
- the item's `comparison_type`;
- the detector name `"known"`;
- the caller's document name.

The model has five files:

- `wrappers.dfy`: the `Option` type.
- `pystr.dfy` (module `PyStr`): Python's `str.find(sub, lo, hi)` for non-negative bounds. It returns the leftmost `i >= lo` where `sub` occurs and ends by `min(hi, len(text))`, or -1.
- `known.dfy` (module `Known`): the records, the pattern items and the detector class.
  - The class's methods `FindAll`, `FindAllBetween` and `IterFilth` keep the source's `while` and `for` loops with their cursors.
  - Each method is proved equal to a specification function that mirrors the loop. These are `ExactMatches`/`ExactFrom`, `BetweenMatches`/`BetweenFrom` and `Scan`.
  - The generators become methods that return the whole sequence of records.
  - The `ValueError` of `iter_filth` becomes the `error` half of a `ScanOutcome`. The other half holds the records yielded before the error.
- `known_properties.dfy` (module `KnownProperties`): what the specification functions guarantee:
  - the shape of the records, their order and disjointness;
  - that the exact scan is greedy and complete (an if-and-only-if characterisation);
  - the window bound and resume rules of the delimited scan;
  - dispatch by key presence, the assembly of a full scan in list order, and which item's keys the error names.
- `known_examples.dfy` (module `KnownExamples`): concrete scans of short texts, each proved from the contract of `find`.

A pattern item is a record of five optional fields, one for each key the
detector reads (`match`, `start`, `end`, `limit`, `comparison_type`). A set
holds any other keys. `Keys` rebuilds the dictionary's key set from these.

Three points where the model keeps behaviour of the code that a reader might not expect:

- **Empty phrase or start marker.** `_find_all` and `_find_all_between` have no guard against an empty search string. `find` then returns the cursor itself, so the loop never ends. The model requires a non-empty phrase (`FindAll`) and a non-empty start marker (`FindAllBetween`). The predicates `Runs` and `ReachedItemsRun` require this only of the items a full scan actually reaches. Items after the first invalid item are never scanned, and the code does not inspect them.
- **Window bound.** The docstring of `_find_all_between` says the text between the markers must be "less than" `limit` characters. The code's window admits exactly `limit` characters, and the model follows it (`BetweenWindowBound`, `DelimitedBoundary`).
- **Error timing.** The code probes dictionary keys while it scans and raises the error only when the bad item is reached. The model keeps that timing.

## Model

| member | source | states |
|---|---|---|
| PyStr.Find | scrubadub/detectors/known.py:82-86 | `text.find(sub, lo, hi)`: the result is -1 or an offset at or after `lo` where `sub` occurs and ends by `min(hi, len(text))`, and no occurrence in that range starts before it; when the result is -1 there is none at all |
| PyStr.FindFrom | scrubadub/detectors/known.py:48 | `text.find(sub, lo)`: -1, or an occurrence at or after `lo`; nothing occurs between `lo` and that result, and nothing from `lo` on when the result is -1 |
| PyStr.FindLeftmost | scrubadub/detectors/known.py:82-86 | the leftmost occurrence in the bounded range is the value `find` returns |
| PyStr.FindAbsent | scrubadub/detectors/known.py:82-86 | with no occurrence in the bounded range, `find` returns -1 |
| PyStr.FindFromLeftmost | scrubadub/detectors/known.py:59-62 | the leftmost occurrence at or after `lo` is the value the unbounded `find` returns |
| PyStr.FindFromAbsent | scrubadub/detectors/known.py:100 | with no occurrence at or after `lo`, the unbounded `find` returns -1 |
| Known.KnownFilthDetector.constructor | scrubadub/detectors/known.py:33-37 | an absent pattern list is stored as the empty list; a given list is stored unchanged and unchecked |
| Known.KnownFilthDetector.FindAll | scrubadub/detectors/known.py:39-62 | the loop yields exactly `ExactMatches(text, substr, 0, …)`, the records found from offset 0 with each search resuming at the previous record's end |
| Known.KnownFilthDetector.FindAllBetween | scrubadub/detectors/known.py:64-100 | the loop yields exactly `BetweenMatches(text, start, end, limit, 0, …)`: an end marker is searched for in the window after each start marker; on success the next search starts after the end marker, on failure just after the start marker |
| Known.KnownFilthDetector.IterFilth | scrubadub/detectors/known.py:102-133 | the loop over the stored items yields exactly `Scan(items, text, …)`: each item's records in list order, stopping with the error naming the keys of the first item that has neither `match` nor both `start` and `end` |
| Known.ExactResume | scrubadub/detectors/known.py:48-62 | resume rule of the exact scan: the occurrence `p` found from `from` gives the record `[p, p+len(substr))` with the covered text, followed by the records found from that record's end |
| Known.BetweenResumeAfterRecord | scrubadub/detectors/known.py:81-100 | success case: the record runs from the start marker through the end marker found in its window, and the search resumes just past the end marker |
| Known.BetweenResumeAfterMiss | scrubadub/detectors/known.py:81-100 | failure case: nothing is yielded for the start marker, and the search resumes just past it |
| KnownProperties.ExactRecordShape | scrubadub/detectors/known.py:31-58 | every exact record has `end == start + len(substr)`, covers `text[start:end]`, which equals `substr`, and carries the given `comparison_type`, the name `"known"` and the given document name |
| KnownProperties.ExactOrdered | scrubadub/detectors/known.py:59-62 | exact records are non-empty, sorted, pairwise disjoint (they may touch), and none starts before the point the search began |
| KnownProperties.ExactComplete | scrubadub/detectors/known.py:47-62 | no occurrence of `substr` starts between the point a search resumed and the record it found, and none starts after the last record's end |
| KnownProperties.ExactScanUnique | scrubadub/detectors/known.py:47-62 | any sequence of records that are occurrences, in order, and pass over nothing, is the exact scan's output |
| KnownProperties.GreedyExactHead | scrubadub/detectors/known.py:48-58 | the first record of such a sequence is the occurrence `find` reports, with the fields the loop gives it |
| KnownProperties.GreedyExactTail | scrubadub/detectors/known.py:59-62 | the rest of such a sequence is again such a sequence, for a search resumed at the first record's end |
| KnownProperties.ExactScanCharacterized | scrubadub/detectors/known.py:39-62 | a sequence of records is the exact scan's output if and only if it is the greedy, leftmost, non-overlapping list of occurrences labelled as asked |
| KnownProperties.DelimitedRecordOf | scrubadub/detectors/known.py:87-95 | a region from a start-marker occurrence through a later end-marker occurrence begins with the start marker, ends with the end marker, and covers `text[start:end]` |
| KnownProperties.BetweenRecordShape | scrubadub/detectors/known.py:82-95 | every delimited record covers `text[start:end]`, begins with the start marker, ends with the end marker, has the end marker starting no earlier than the start marker's end, and carries the given labels |
| KnownProperties.BetweenWindowBound | scrubadub/detectors/known.py:82-86 | for every delimited record, `end - start - len(start) - len(end) <= limit`, and no end marker occurs earlier between the markers |
| KnownProperties.BetweenOrdered | scrubadub/detectors/known.py:96-100 | delimited records are non-empty, sorted, pairwise disjoint, and none starts before the point the search began |
| KnownProperties.KeysOf | scrubadub/detectors/known.py:111-124 | the keys `match`, `start`, `end` and `limit` are in the item's key set exactly when the item has those fields |
| KnownProperties.DispatchByKeys | scrubadub/detectors/known.py:111-128 | `match` selects the exact scan even when `start`/`end` are present; without `match`, items with both `start` and `end` get the delimited scan; all others get no scan; the window is `limit` when it is given and 150 otherwise |
| KnownProperties.ScanOfNoItems | scrubadub/detectors/known.py:35-37 | an empty pattern list yields nothing and raises nothing |
| KnownProperties.ScanOneItem | scrubadub/detectors/known.py:109-133 | a one-item list yields the exact scan of `match` when present, else the delimited scan (default window 150) when `start` and `end` are present, else nothing and the error naming the item's keys |
| KnownProperties.ScanConcat | scrubadub/detectors/known.py:109-128 | the scan of `a + b` is the scan of `a` followed by the scan of `b` (list order, not text order), unless `a` already raises the error, in which case `b` is never scanned |
| KnownProperties.ScanConcatCons | scrubadub/detectors/known.py:109-128 | the inductive step of ScanConcat, at a dispatched first item |
| KnownProperties.ScanErrorNamesKeys | scrubadub/detectors/known.py:129-133 | the error is raised if and only if some item can be dispatched to neither scan; the keys it names lack `match` and do not hold both `start` and `end`, and they are the keys of the first such item, all items before it being dispatched |
| KnownExamples.ExactTouching | scrubadub/detectors/known.py:59-62 | `"aa"` in `"aaaa"` is found at `[0,2)` and `[2,4)` |
| KnownExamples.ExactAbsent | scrubadub/detectors/known.py:48-50 | a phrase that does not occur yields nothing |
| KnownExamples.DelimitedFound | scrubadub/detectors/known.py:82-95 | `"X<<hello>>Y"` with `<<`, `>>` and window 5 yields the one record `[1,10)` covering `"<<hello>>"`, with its labels |
| KnownExamples.DelimitedTooLong | scrubadub/detectors/known.py:82-100 | `"<<0123456789>>"` with window 5 yields nothing |
| KnownExamples.DelimitedNestedStart | scrubadub/detectors/known.py:96-100 | in `"<<<<ok>>"` with window 3 the first start marker fails, the search resumes after it, and the second yields `[2,8)` |
| KnownExamples.DelimitedBoundary | scrubadub/detectors/known.py:82-86 | content of exactly `limit` characters is accepted; with a window one shorter the same text yields nothing |
| KnownExamples.ScanInListOrder | scrubadub/detectors/known.py:109-118 | items `b` then `a` over `"ab"` yield the record for `b` before the record for `a` |
| KnownExamples.ScanUnknownItem | scrubadub/detectors/known.py:129-133 | an item with only an unknown key `foo` raises the error naming `{foo}` |
| KnownExamples.ScanStopsAtUnknown | scrubadub/detectors/known.py:109-133 | the records of the item before an invalid item are yielded; then the error names the invalid item's keys `{start, limit}`, and the item after it is never scanned |

## Left out

- `scrubadub/filth/en_GB/nino.py`: a one-line wrapper over the external `faker` library, with no logic of its own.
- The `Detector` base class, detector registration, `**kwargs` handling and the internals of `KnownFilth`/`Filth`. These live in files that are not part of this model. A record is plain data with the six fields the detector passes.
- Generator laziness. A scan is the whole sequence it would yield. The records yielded before the `ValueError` are kept beside the error in `ScanOutcome`.
- The text of the `ValueError` message. Only the key set it prints is carried, as `UnknownKeys(keys)`.
- The `int(...)` coercion of `limit` and the `TypedDict` typing. `limit` is a natural number, and a negative or non-numeric `limit` is outside the model.
- Unicode and encodings. Text is a sequence of characters with zero-based offsets, as Python's `str` indexes them.
- Known.KnownFilthDetector.FindAll: requires a non-empty phrase. The source loops forever on an empty one, so it has no result to specify.
- Known.KnownFilthDetector.FindAllBetween: requires a non-empty start marker, for the same reason. An empty end marker is allowed and modelled.
- Known.KnownFilthDetector.IterFilth: requires that every item the scan reaches has a non-empty phrase or start marker (`ReachedItemsRun`). The source does not terminate otherwise.
- `predefinedPii` is a constant field. The source sets `_predefined_pii` only in `__init__` and never mutates it, so aliasing of the caller's list is not modelled.
