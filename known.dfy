/**
 * The known-pattern detector: labels predefined phrases, or regions between a
 * start marker and an end marker, as filth in a text.
 *
 * The generators of the Python class become methods that return the whole
 * sequence of records they would yield. Each method is proved equal to a
 * specification function (ExactMatches, BetweenMatches, Scan); the
 * properties of those functions are proved in module KnownProperties.
 */
module Known {
  import opened Wrappers
  import opened PyStr

  /** The detector's `name`, stamped on every record it produces. */
  const DetectorName: string := "known"

  /** Window used when a delimited item carries no `limit`. */
  const DefaultLimit: nat := 150

  /** One labelled span `[start, end)` of the scanned text. */
  datatype KnownFilth = KnownFilth(
    start: nat,
    end: nat,
    text: string,
    comparisonType: Option<string>,
    detectorName: string,
    documentName: Option<string>)

  /**
   * One entry of the predefined PII list, a dictionary in the source. Each of
   * the five keys the detector knows is an optional field; `otherKeys` holds
   * whatever other keys the dictionary has.
   */
  datatype PiiItem = PiiItem(
    matchText: Option<string>,
    startMarker: Option<string>,
    endMarker: Option<string>,
    limit: Option<nat>,
    comparisonType: Option<string>,
    otherKeys: set<string>)

  const KnownKeys: set<string> := {"match", "start", "end", "limit", "comparison_type"}

  /** The key set of an item's dictionary. */
  function Keys(item: PiiItem): set<string> {
    (if item.matchText.Some? then {"match"} else {})
    + (if item.startMarker.Some? then {"start"} else {})
    + (if item.endMarker.Some? then {"end"} else {})
    + (if item.limit.Some? then {"limit"} else {})
    + (if item.comparisonType.Some? then {"comparison_type"} else {})
    + (item.otherKeys - KnownKeys)
  }

  /** The error `iter_filth` raises for an item it cannot dispatch (a `ValueError`). */
  datatype ScanError = UnknownKeys(keys: set<string>)

  /** What a full scan produces: the records yielded, and the error raised after them, if any. */
  datatype ScanOutcome = ScanOutcome(filth: seq<KnownFilth>, error: Option<ScanError>)

  /** Which scan an item is sent to. */
  datatype Scanner =
    | ExactScan(phrase: string)
    | BetweenScan(startMarker: string, endMarker: string, limit: nat)
    | NoScanner

  /**
   * Dispatch by key presence: `match` wins; otherwise `start` together with
   * `end` selects the delimited scan, with `limit` defaulting to 150.
   */
  function Dispatch(item: PiiItem): Scanner {
    if item.matchText.Some? then ExactScan(item.matchText.value)
    else if item.startMarker.Some? && item.endMarker.Some? then
      BetweenScan(item.startMarker.value, item.endMarker.value, item.limit.GetOr(DefaultLimit))
    else NoScanner
  }

  /**
   * The scan of this item terminates. Both scans loop forever when the
   * string they search for first is empty: `find` then returns the cursor
   * itself, so the cursor eventually stops moving, at once for an empty
   * phrase, and for the delimited scan at the first start marker whose
   * window holds no end marker.
   */
  predicate Runs(item: PiiItem) {
    match Dispatch(item)
    case ExactScan(phrase) => |phrase| > 0
    case BetweenScan(startMarker, _, _) => |startMarker| > 0
    case NoScanner => true
  }

  /**
   * The records `_find_all` yields from the point where its loop holds the
   * occurrence `start` (-1 once `find` reports no further occurrence): after
   * each record the search resumes at the record's end.
   */
  function ExactFrom(text: string, substr: string, start: int,
                     comparisonType: Option<string>, documentName: Option<string>): seq<KnownFilth>
    requires |substr| > 0
    requires start < 0 || OccursAt(text, substr, start)
    decreases if start < 0 then 0 else |text| + 1 - start
  {
    if start < 0 then []
    else
      [KnownFilth(start, start + |substr|, text[start..start + |substr|], comparisonType, DetectorName, documentName)]
      + ExactFrom(text, substr, FindFrom(text, substr, start + |substr|), comparisonType, documentName)
  }

  /** The records `_find_all` yields once its search for `substr` begins at `from`. */
  function ExactMatches(text: string, substr: string, from: nat,
                        comparisonType: Option<string>, documentName: Option<string>): seq<KnownFilth>
    requires |substr| > 0
  {
    ExactFrom(text, substr, FindFrom(text, substr, from), comparisonType, documentName)
  }

  /**
   * The records `_find_all_between` yields from the point where its loop
   * holds the start marker `start` (-1 once there is none). The end marker is
   * looked for from just after the start marker, in a window that leaves
   * room for `limit` characters of content plus the end marker itself.
   */
  function BetweenFrom(text: string, startMarker: string, endMarker: string, limit: nat, start: int,
                       comparisonType: Option<string>, documentName: Option<string>): seq<KnownFilth>
    requires |startMarker| > 0
    requires start < 0 || OccursAt(text, startMarker, start)
    decreases if start < 0 then 0 else |text| + 1 - start
  {
    if start < 0 then []
    else
      var e := Find(text, endMarker, start + |startMarker|, start + |startMarker| + limit + |endMarker|);
      if e >= 0 then
        [KnownFilth(start, e + |endMarker|, text[start..e + |endMarker|], comparisonType, DetectorName, documentName)]
        + BetweenFrom(text, startMarker, endMarker, limit, FindFrom(text, startMarker, e + |endMarker|),
                      comparisonType, documentName)
      else
        BetweenFrom(text, startMarker, endMarker, limit, FindFrom(text, startMarker, start + |startMarker|),
                    comparisonType, documentName)
  }

  /** The records `_find_all_between` yields once its search for the start marker begins at `from`. */
  function BetweenMatches(text: string, startMarker: string, endMarker: string, limit: nat, from: nat,
                          comparisonType: Option<string>, documentName: Option<string>): seq<KnownFilth>
    requires |startMarker| > 0
  {
    BetweenFrom(text, startMarker, endMarker, limit, FindFrom(text, startMarker, from), comparisonType, documentName)
  }

  /** All records one item contributes to a full scan. */
  function ItemFilth(item: PiiItem, text: string, documentName: Option<string>): seq<KnownFilth>
    requires Runs(item)
  {
    match Dispatch(item)
    case ExactScan(phrase) => ExactMatches(text, phrase, 0, item.comparisonType, documentName)
    case BetweenScan(s, e, limit) => BetweenMatches(text, s, e, limit, 0, item.comparisonType, documentName)
    case NoScanner => []
  }

  /**
   * Every item the full scan reaches terminates: the scan reaches the items
   * up to and including the first one it cannot dispatch.
   */
  predicate ReachedItemsRun(items: seq<PiiItem>) {
    items == [] || Dispatch(items[0]).NoScanner? || (Runs(items[0]) && ReachedItemsRun(items[1..]))
  }

  /**
   * The outcome of `iter_filth`: the records of each item in list order,
   * until an item that cannot be dispatched raises the error naming its keys;
   * the items after it are never scanned.
   */
  function Scan(items: seq<PiiItem>, text: string, documentName: Option<string>): ScanOutcome
    requires ReachedItemsRun(items)
  {
    if items == [] then ScanOutcome([], None)
    else if Dispatch(items[0]).NoScanner? then ScanOutcome([], Some(UnknownKeys(Keys(items[0]))))
    else
      var rest := Scan(items[1..], text, documentName);
      ScanOutcome(ItemFilth(items[0], text, documentName) + rest.filth, rest.error)
  }

  /** One step of the full scan, at the item with index `i`. */
  lemma ScanStep(items: seq<PiiItem>, i: nat, text: string, documentName: Option<string>)
    requires i < |items|
    requires ReachedItemsRun(items[i..])
    ensures Dispatch(items[i]).NoScanner? ==>
              Scan(items[i..], text, documentName) == ScanOutcome([], Some(UnknownKeys(Keys(items[i]))))
    ensures !Dispatch(items[i]).NoScanner? ==>
              && Runs(items[i])
              && ReachedItemsRun(items[i + 1..])
              && Scan(items[i..], text, documentName)
                 == ScanOutcome(ItemFilth(items[i], text, documentName) + Scan(items[i + 1..], text, documentName).filth,
                                Scan(items[i + 1..], text, documentName).error)
  {
    assert items[i..][0] == items[i];
    assert items[i..][1..] == items[i + 1..];
  }

  /**
   * Resume rule of the exact scan: after a record the next search begins at
   * the record's end, so records may touch but never overlap.
   */
  lemma ExactResume(text: string, substr: string, from: nat,
                    comparisonType: Option<string>, documentName: Option<string>, p: nat, next: nat)
    requires |substr| > 0
    requires p == FindFrom(text, substr, from)
    requires next == p + |substr|
    ensures from <= p < next <= |text|
    ensures ExactMatches(text, substr, from, comparisonType, documentName)
            == [KnownFilth(p, next, text[p..next], comparisonType, DetectorName, documentName)]
               + ExactMatches(text, substr, next, comparisonType, documentName)
  {
    var later := FindFrom(text, substr, next);
    assert ExactMatches(text, substr, from, comparisonType, documentName)
           == ExactFrom(text, substr, p, comparisonType, documentName);
    assert ExactMatches(text, substr, next, comparisonType, documentName)
           == ExactFrom(text, substr, later, comparisonType, documentName);
    ExactFromRecord(text, substr, comparisonType, documentName, p, later);
  }

  /** Unfolding of the exact scan at an occurrence. */
  lemma ExactFromRecord(text: string, substr: string, comparisonType: Option<string>, documentName: Option<string>,
                        p: nat, next: int)
    requires |substr| > 0
    requires OccursAt(text, substr, p)
    requires next == FindFrom(text, substr, p + |substr|)
    ensures ExactFrom(text, substr, p, comparisonType, documentName)
            == [KnownFilth(p, p + |substr|, text[p..p + |substr|], comparisonType, DetectorName, documentName)]
               + ExactFrom(text, substr, next, comparisonType, documentName)
  {
  }

  /**
   * Resume rule of the delimited scan, success case: the start marker found
   * from `from` has an end marker in its window, so the record is produced
   * and the next start marker is looked for just past the end marker.
   */
  lemma BetweenResumeAfterRecord(text: string, startMarker: string, endMarker: string, limit: nat, from: nat,
                                 comparisonType: Option<string>, documentName: Option<string>,
                                 p: nat, e: nat, next: nat)
    requires |startMarker| > 0
    requires p == FindFrom(text, startMarker, from)
    requires e == Find(text, endMarker, p + |startMarker|, p + |startMarker| + limit + |endMarker|)
    requires next == e + |endMarker|
    ensures from <= p < next <= |text|
    ensures BetweenMatches(text, startMarker, endMarker, limit, from, comparisonType, documentName)
            == [KnownFilth(p, next, text[p..next], comparisonType, DetectorName, documentName)]
               + BetweenMatches(text, startMarker, endMarker, limit, next, comparisonType, documentName)
  {
    var later := FindFrom(text, startMarker, next);
    assert BetweenMatches(text, startMarker, endMarker, limit, from, comparisonType, documentName)
           == BetweenFrom(text, startMarker, endMarker, limit, p, comparisonType, documentName);
    assert BetweenMatches(text, startMarker, endMarker, limit, next, comparisonType, documentName)
           == BetweenFrom(text, startMarker, endMarker, limit, later, comparisonType, documentName);
    BetweenFromRecord(text, startMarker, endMarker, limit, comparisonType, documentName, p, e, later);
  }

  /**
   * Resume rule of the delimited scan, failure case: the start marker found
   * from `from` has no end marker in its window, so nothing is produced for
   * it and the next start marker is looked for just past this one.
   */
  lemma BetweenResumeAfterMiss(text: string, startMarker: string, endMarker: string, limit: nat, from: nat,
                               comparisonType: Option<string>, documentName: Option<string>, p: nat, next: nat)
    requires |startMarker| > 0
    requires p == FindFrom(text, startMarker, from)
    requires Find(text, endMarker, p + |startMarker|, p + |startMarker| + limit + |endMarker|) == -1
    requires next == p + |startMarker|
    ensures from <= p < next <= |text|
    ensures BetweenMatches(text, startMarker, endMarker, limit, from, comparisonType, documentName)
            == BetweenMatches(text, startMarker, endMarker, limit, next, comparisonType, documentName)
  {
    BetweenFromMiss(text, startMarker, endMarker, limit, comparisonType, documentName,
                    p, FindFrom(text, startMarker, next));
  }

  /** Unfolding of the delimited scan at a start marker whose window holds an end marker. */
  lemma BetweenFromRecord(text: string, startMarker: string, endMarker: string, limit: nat,
                          comparisonType: Option<string>, documentName: Option<string>, p: nat, e: nat, next: int)
    requires |startMarker| > 0
    requires OccursAt(text, startMarker, p)
    requires e == Find(text, endMarker, p + |startMarker|, p + |startMarker| + limit + |endMarker|)
    requires next == FindFrom(text, startMarker, e + |endMarker|)
    ensures e + |endMarker| <= |text|
    ensures BetweenFrom(text, startMarker, endMarker, limit, p, comparisonType, documentName)
            == [KnownFilth(p, e + |endMarker|, text[p..e + |endMarker|], comparisonType, DetectorName, documentName)]
               + BetweenFrom(text, startMarker, endMarker, limit, next, comparisonType, documentName)
  {
  }

  /** Unfolding of the delimited scan at a start marker whose window holds no end marker. */
  lemma BetweenFromMiss(text: string, startMarker: string, endMarker: string, limit: nat,
                        comparisonType: Option<string>, documentName: Option<string>, p: nat, next: int)
    requires |startMarker| > 0
    requires OccursAt(text, startMarker, p)
    requires Find(text, endMarker, p + |startMarker|, p + |startMarker| + limit + |endMarker|) < 0
    requires next == FindFrom(text, startMarker, p + |startMarker|)
    ensures BetweenFrom(text, startMarker, endMarker, limit, p, comparisonType, documentName)
            == BetweenFrom(text, startMarker, endMarker, limit, next, comparisonType, documentName)
  {
  }

  /** Moving the front `more` of `pending` to the end of `found` keeps their concatenation. */
  lemma Regroup<T>(found: seq<T>, pending: seq<T>, total: seq<T>, more: seq<T>, rest: seq<T>)
    requires found + pending == total
    requires pending == more + rest
    ensures (found + more) + rest == total
  {
    assert (found + more) + rest == found + (more + rest);
  }

  class KnownFilthDetector {
    /** The ordered pattern list; set once by the constructor and only read afterwards. */
    const predefinedPii: seq<PiiItem>

    /** An absent list is an empty one; no item is checked here. */
    constructor (predefined: Option<seq<PiiItem>>)
      ensures predefined.None? ==> predefinedPii == []
      ensures predefined.Some? ==> predefinedPii == predefined.value
    {
      if predefined.None? {
        predefinedPii := [];
      } else {
        predefinedPii := predefined.value;
      }
    }

    /** Every non-overlapping occurrence of `substr` in `text`, left to right. */
    method FindAll(text: string, substr: string, comparisonType: Option<string>, documentName: Option<string>)
      returns (found: seq<KnownFilth>)
      requires |substr| > 0
      ensures found == ExactMatches(text, substr, 0, comparisonType, documentName)
    {
      var startLocation := FindFrom(text, substr, 0);
      found := [];
      // `total` is everything the generator yields; `found + ExactFrom(..startLocation..)` stays equal to it
      ghost var total := ExactFrom(text, substr, startLocation, comparisonType, documentName);
      while startLocation >= 0
        invariant startLocation < 0 || OccursAt(text, substr, startLocation)
        invariant found + ExactFrom(text, substr, startLocation, comparisonType, documentName) == total
        decreases if startLocation < 0 then 0 else |text| + 1 - startLocation
      {
        var filth := KnownFilth(startLocation, startLocation + |substr|,
                                text[startLocation..startLocation + |substr|],
                                comparisonType, DetectorName, documentName);
        var next := FindFrom(text, substr, startLocation + |substr|);
        ExactFromRecord(text, substr, comparisonType, documentName, startLocation, next);
        Regroup(found, ExactFrom(text, substr, startLocation, comparisonType, documentName), total,
                   [filth], ExactFrom(text, substr, next, comparisonType, documentName));
        found := found + [filth];
        startLocation := next;
      }
      assert found + [] == found;
    }

    /**
     * Every region from `startMarker` through the nearest `endMarker` that
     * leaves at most `limit` characters between the two.
     */
    method FindAllBetween(text: string, startMarker: string, endMarker: string, limit: nat,
                          comparisonType: Option<string>, documentName: Option<string>)
      returns (found: seq<KnownFilth>)
      requires |startMarker| > 0
      ensures found == BetweenMatches(text, startMarker, endMarker, limit, 0, comparisonType, documentName)
    {
      var startLocation := FindFrom(text, startMarker, 0);
      found := [];
      // `total` is everything the generator yields; `found + BetweenFrom(..startLocation..)` stays equal to it
      ghost var total := BetweenFrom(text, startMarker, endMarker, limit, startLocation, comparisonType, documentName);
      while startLocation >= 0
        invariant startLocation < 0 || OccursAt(text, startMarker, startLocation)
        invariant found + BetweenFrom(text, startMarker, endMarker, limit, startLocation, comparisonType, documentName)
                  == total
        decreases if startLocation < 0 then 0 else |text| + 1 - startLocation
      {
        var endLocation := Find(text, endMarker, startLocation + |startMarker|, startLocation + |startMarker| + limit + |endMarker|);
        var nextSearchStart: nat;
        if endLocation >= 0 {
          var filth := KnownFilth(startLocation, endLocation + |endMarker|, text[startLocation..endLocation + |endMarker|],
                                  comparisonType, DetectorName, documentName);
          nextSearchStart := endLocation + |endMarker|;
          var next := FindFrom(text, startMarker, nextSearchStart);
          BetweenFromRecord(text, startMarker, endMarker, limit, comparisonType, documentName, startLocation, endLocation, next);
          Regroup(found, BetweenFrom(text, startMarker, endMarker, limit, startLocation, comparisonType, documentName),
                     total, [filth],
                     BetweenFrom(text, startMarker, endMarker, limit, next, comparisonType, documentName));
          found := found + [filth];
        } else {
          nextSearchStart := startLocation + |startMarker|;
          BetweenFromMiss(text, startMarker, endMarker, limit, comparisonType, documentName, startLocation,
                          FindFrom(text, startMarker, nextSearchStart));
        }
        startLocation := FindFrom(text, startMarker, nextSearchStart);
      }
      assert found + [] == found;
    }

    /**
     * Scan `text` with every predefined item in order; stop with the error
     * at the first item that has neither `match` nor both `start` and `end`.
     */
    method IterFilth(text: string, documentName: Option<string>) returns (outcome: ScanOutcome)
      requires ReachedItemsRun(predefinedPii)
      ensures outcome == Scan(predefinedPii, text, documentName)
    {
      var items := predefinedPii;
      var found: seq<KnownFilth> := [];
      assert items[0..] == items;
      for i := 0 to |items|
        invariant ReachedItemsRun(items[i..])
        invariant found + Scan(items[i..], text, documentName).filth == Scan(items, text, documentName).filth
        invariant Scan(items[i..], text, documentName).error == Scan(items, text, documentName).error
      {
        var item := items[i];
        ScanStep(items, i, text, documentName);
        var more: seq<KnownFilth>;
        if item.matchText.Some? {
          more := FindAll(text, item.matchText.value, item.comparisonType, documentName);
        } else if item.startMarker.Some? && item.endMarker.Some? {
          more := FindAllBetween(text, item.startMarker.value, item.endMarker.value,
                                 item.limit.GetOr(DefaultLimit), item.comparisonType, documentName);
        } else {
          assert found + [] == found;
          outcome := ScanOutcome(found, Some(UnknownKeys(Keys(item))));
          return;
        }
        Regroup(found, Scan(items[i..], text, documentName).filth, Scan(items, text, documentName).filth,
                more, Scan(items[i + 1..], text, documentName).filth);
        found := found + more;
      }
      assert items[|items|..] == [];
      assert found + [] == found;
      outcome := ScanOutcome(found, None);
    }
  }
}
