/**
 * What the specification functions of module Known guarantee: the shape of
 * every record, the order of the records, the completeness of the exact scan,
 * the window bound of the delimited scan, and how a full scan is assembled
 * from the items in list order.
 */
module KnownProperties {
  import opened Wrappers
  import opened PyStr
  import opened Known

  /** Where the search for record `i` of `r` begins, for a scan started at `from`. */
  function Resume(from: nat, r: seq<KnownFilth>, i: nat): nat
    requires i <= |r|
  {
    if i == 0 then from else r[i - 1].end
  }

  /** Each record starts at or after the point where its search began. */
  ghost predicate InOrder(from: nat, r: seq<KnownFilth>) {
    forall i :: 0 <= i < |r| ==> Resume(from, r, i) <= r[i].start
  }

  /** Records are pairwise disjoint and sorted by position; adjacency is allowed. */
  ghost predicate Disjoint(r: seq<KnownFilth>) {
    && (forall i :: 0 <= i < |r| ==> r[i].start < r[i].end)
    && (forall i, j :: 0 <= i < j < |r| ==> r[i].end <= r[j].start)
  }

  // ---------------------------------------------------------------------------
  // Exact scan
  // ---------------------------------------------------------------------------

  /** A record of the exact scan: `substr` itself, found at `[start, end)`, with the caller's labels. */
  ghost predicate ExactRecord(text: string, substr: string, comparisonType: Option<string>,
                              documentName: Option<string>, x: KnownFilth) {
    && x.end == x.start + |substr|
    && OccursAt(text, substr, x.start)
    && x.text == text[x.start..x.end]
    && x.text == substr
    && x.comparisonType == comparisonType
    && x.detectorName == DetectorName
    && x.documentName == documentName
  }

  /** No occurrence is passed over before a record, nor after the last one. */
  ghost predicate Greedy(text: string, substr: string, from: nat, r: seq<KnownFilth>) {
    && (forall i :: 0 <= i < |r| ==> NoOccurrenceIn(text, substr, Resume(from, r, i), r[i].start))
    && NoOccurrenceIn(text, substr, Resume(from, r, |r|), |text| + 1)
  }

  /** The independent description of the exact scan started at `from`. */
  ghost predicate GreedyExactScan(text: string, substr: string, from: nat, comparisonType: Option<string>,
                                  documentName: Option<string>, r: seq<KnownFilth>) {
    && (forall i :: 0 <= i < |r| ==> ExactRecord(text, substr, comparisonType, documentName, r[i]))
    && InOrder(from, r)
    && Greedy(text, substr, from, r)
  }

  /** Every record of the exact scan is an occurrence of `substr`, labelled as the caller asked. */
  lemma {:induction false} ExactRecordShape(text: string, substr: string, from: nat,
                                            comparisonType: Option<string>, documentName: Option<string>)
    requires |substr| > 0
    ensures var r := ExactMatches(text, substr, from, comparisonType, documentName);
            forall i :: 0 <= i < |r| ==> ExactRecord(text, substr, comparisonType, documentName, r[i])
    decreases |text| - from
  {
    var p := FindFrom(text, substr, from);
    if p >= 0 {
      var next := p + |substr|;
      ExactResume(text, substr, from, comparisonType, documentName, p, next);
      ExactRecordShape(text, substr, next, comparisonType, documentName);
      var r := ExactMatches(text, substr, from, comparisonType, documentName);
      var rest := ExactMatches(text, substr, next, comparisonType, documentName);
      forall i | 0 <= i < |r| ensures ExactRecord(text, substr, comparisonType, documentName, r[i]) {
        if i > 0 {
          assert r[i] == rest[i - 1];
        }
      }
    }
  }

  /**
   * Each search resumes at the previous record's end, so the records are
   * disjoint, sorted, and none starts before `from`.
   */
  lemma {:induction false} ExactOrdered(text: string, substr: string, from: nat,
                                        comparisonType: Option<string>, documentName: Option<string>)
    requires |substr| > 0
    ensures var r := ExactMatches(text, substr, from, comparisonType, documentName);
            InOrder(from, r) && Disjoint(r) && forall i :: 0 <= i < |r| ==> from <= r[i].start
    decreases |text| - from
  {
    var p := FindFrom(text, substr, from);
    if p >= 0 {
      var next := p + |substr|;
      ExactResume(text, substr, from, comparisonType, documentName, p, next);
      ExactOrdered(text, substr, next, comparisonType, documentName);
      var r := ExactMatches(text, substr, from, comparisonType, documentName);
      var rest := ExactMatches(text, substr, next, comparisonType, documentName);
      OrderedCons(from, r, next, rest);
    }
  }

  /**
   * A record at `[r[0].start, next)` followed by records found from `next`
   * on is in order when the tail is.
   */
  lemma OrderedCons(from: nat, r: seq<KnownFilth>, next: nat, rest: seq<KnownFilth>)
    requires |r| > 0 && r[1..] == rest
    requires from <= r[0].start < r[0].end == next
    requires InOrder(next, rest) && Disjoint(rest)
    requires forall i :: 0 <= i < |rest| ==> next <= rest[i].start
    ensures InOrder(from, r) && Disjoint(r)
    ensures forall i :: 0 <= i < |r| ==> from <= r[i].start
  {
    forall i | 0 < i < |r| ensures Resume(from, r, i) == Resume(next, rest, i - 1) && r[i] == rest[i - 1] {
    }
    forall i, j | 0 <= i < j < |r| ensures r[i].end <= r[j].start {
      assert r[j] == rest[j - 1];
      if i > 0 {
        assert r[i] == rest[i - 1];
      }
    }
  }

  /**
   * The exact scan misses nothing: no occurrence of `substr` starts between
   * the point a search began and the record it found, nor after the last
   * record's end.
   */
  lemma {:induction false} ExactComplete(text: string, substr: string, from: nat,
                                         comparisonType: Option<string>, documentName: Option<string>)
    requires |substr| > 0
    ensures Greedy(text, substr, from, ExactMatches(text, substr, from, comparisonType, documentName))
    decreases |text| - from
  {
    var p := FindFrom(text, substr, from);
    if p >= 0 {
      var next := p + |substr|;
      ExactResume(text, substr, from, comparisonType, documentName, p, next);
      ExactComplete(text, substr, next, comparisonType, documentName);
      var r := ExactMatches(text, substr, from, comparisonType, documentName);
      var rest := ExactMatches(text, substr, next, comparisonType, documentName);
      GreedyCons(text, substr, from, r, next, rest);
    }
  }

  lemma GreedyCons(text: string, substr: string, from: nat, r: seq<KnownFilth>, next: nat, rest: seq<KnownFilth>)
    requires |r| > 0 && r[1..] == rest && r[0].end == next
    requires NoOccurrenceIn(text, substr, from, r[0].start)
    requires Greedy(text, substr, next, rest)
    ensures Greedy(text, substr, from, r)
  {
    forall i | 0 < i < |r| ensures Resume(from, r, i) == Resume(next, rest, i - 1) && r[i] == rest[i - 1] {
    }
    assert Resume(from, r, |r|) == Resume(next, rest, |rest|);
  }

  /**
   * The greedy description has one solution: any sequence of records that
   * satisfies it is what the exact scan produces.
   */
  lemma {:induction false} ExactScanUnique(text: string, substr: string, from: nat,
                                           comparisonType: Option<string>, documentName: Option<string>,
                                           r: seq<KnownFilth>)
    requires |substr| > 0
    requires GreedyExactScan(text, substr, from, comparisonType, documentName, r)
    ensures r == ExactMatches(text, substr, from, comparisonType, documentName)
    decreases |text| - from
  {
    if r == [] {
      assert Resume(from, r, 0) == from;
      FindFromAbsent(text, substr, from);
    } else {
      var p := r[0].start;
      var next := p + |substr|;
      GreedyExactHead(text, substr, from, comparisonType, documentName, r);
      ExactResume(text, substr, from, comparisonType, documentName, p, next);
      GreedyExactTail(text, substr, from, comparisonType, documentName, r, next);
      ExactScanUnique(text, substr, next, comparisonType, documentName, r[1..]);
      assert r == [r[0]] + r[1..];
    }
  }

  /** The first record of the greedy description is the occurrence `find` reports. */
  lemma GreedyExactHead(text: string, substr: string, from: nat, comparisonType: Option<string>,
                        documentName: Option<string>, r: seq<KnownFilth>)
    requires GreedyExactScan(text, substr, from, comparisonType, documentName, r)
    requires |r| > 0
    ensures FindFrom(text, substr, from) == r[0].start
    ensures r[0] == KnownFilth(r[0].start, r[0].start + |substr|, text[r[0].start..r[0].start + |substr|],
                               comparisonType, DetectorName, documentName)
  {
    assert ExactRecord(text, substr, comparisonType, documentName, r[0]);
    assert Resume(from, r, 0) == from;
    FindFromLeftmost(text, substr, from, r[0].start);
  }

  lemma GreedyExactTail(text: string, substr: string, from: nat, comparisonType: Option<string>,
                        documentName: Option<string>, r: seq<KnownFilth>, next: nat)
    requires GreedyExactScan(text, substr, from, comparisonType, documentName, r)
    requires |r| > 0 && r[0].end == next
    ensures GreedyExactScan(text, substr, next, comparisonType, documentName, r[1..])
  {
    var rest := r[1..];
    forall i | 0 <= i < |rest| ensures Resume(next, rest, i) == Resume(from, r, i + 1) && rest[i] == r[i + 1] {
    }
    assert Resume(next, rest, |rest|) == Resume(from, r, |r|);
  }

  /** The exact scan is exactly the greedy, leftmost, non-overlapping search. */
  lemma ExactScanCharacterized(text: string, substr: string, from: nat,
                               comparisonType: Option<string>, documentName: Option<string>,
                               r: seq<KnownFilth>)
    requires |substr| > 0
    ensures r == ExactMatches(text, substr, from, comparisonType, documentName)
            <==> GreedyExactScan(text, substr, from, comparisonType, documentName, r)
  {
    ExactRecordShape(text, substr, from, comparisonType, documentName);
    ExactOrdered(text, substr, from, comparisonType, documentName);
    ExactComplete(text, substr, from, comparisonType, documentName);
    if GreedyExactScan(text, substr, from, comparisonType, documentName, r) {
      ExactScanUnique(text, substr, from, comparisonType, documentName, r);
    }
  }

  // ---------------------------------------------------------------------------
  // Delimited scan
  // ---------------------------------------------------------------------------

  /**
   * A record of the delimited scan: the text from a start marker through an
   * end marker that begins after the start marker ends, with the caller's labels.
   */
  ghost predicate DelimitedRecord(text: string, startMarker: string, endMarker: string,
                                  comparisonType: Option<string>, documentName: Option<string>, x: KnownFilth) {
    && x.start + |startMarker| <= x.end - |endMarker|
    && x.end <= |text|
    && x.text == text[x.start..x.end]
    && startMarker <= x.text
    && x.text[|x.text| - |endMarker|..] == endMarker
    && OccursAt(text, startMarker, x.start)
    && OccursAt(text, endMarker, x.end - |endMarker|)
    && x.comparisonType == comparisonType
    && x.detectorName == DetectorName
    && x.documentName == documentName
  }

  /**
   * At most `limit` characters lie between the markers, and the end marker is
   * the first one after the start marker.
   */
  ghost predicate WithinWindow(text: string, startMarker: string, endMarker: string, limit: nat, x: KnownFilth) {
    && x.end - x.start - |startMarker| - |endMarker| <= limit
    && NoOccurrenceIn(text, endMarker, x.start + |startMarker|, x.end - |endMarker|)
  }

  lemma DelimitedRecordOf(text: string, startMarker: string, endMarker: string,
                          comparisonType: Option<string>, documentName: Option<string>, p: nat, e: nat, next: nat)
    requires OccursAt(text, startMarker, p) && OccursAt(text, endMarker, e) && p + |startMarker| <= e
    requires next == e + |endMarker|
    ensures DelimitedRecord(text, startMarker, endMarker, comparisonType, documentName,
                            KnownFilth(p, next, text[p..next], comparisonType, DetectorName, documentName))
  {
    var t := text[p..next];
    assert t[..|startMarker|] == text[p..p + |startMarker|];
    assert t[|t| - |endMarker|..] == text[e..next];
  }

  /** Every delimited record runs from a start marker through an end marker that does not overlap it. */
  lemma {:induction false} BetweenRecordShape(text: string, startMarker: string, endMarker: string, limit: nat,
                                              from: nat, comparisonType: Option<string>, documentName: Option<string>)
    requires |startMarker| > 0
    ensures var r := BetweenMatches(text, startMarker, endMarker, limit, from, comparisonType, documentName);
            forall i :: 0 <= i < |r| ==> DelimitedRecord(text, startMarker, endMarker, comparisonType, documentName, r[i])
    decreases |text| - from
  {
    var p := FindFrom(text, startMarker, from);
    if p >= 0 {
      var lo := p + |startMarker|;
      var e := Find(text, endMarker, lo, lo + limit + |endMarker|);
      var r := BetweenMatches(text, startMarker, endMarker, limit, from, comparisonType, documentName);
      if e >= 0 {
        var next := e + |endMarker|;
        BetweenResumeAfterRecord(text, startMarker, endMarker, limit, from, comparisonType, documentName, p, e, next);
        BetweenRecordShape(text, startMarker, endMarker, limit, next, comparisonType, documentName);
        DelimitedRecordOf(text, startMarker, endMarker, comparisonType, documentName, p, e, next);
        var rest := BetweenMatches(text, startMarker, endMarker, limit, next, comparisonType, documentName);
        assert r[1..] == rest;
        forall i | 0 < i < |r| ensures DelimitedRecord(text, startMarker, endMarker, comparisonType, documentName, r[i]) {
          assert r[i] == rest[i - 1];
        }
      } else {
        BetweenResumeAfterMiss(text, startMarker, endMarker, limit, from, comparisonType, documentName, p, lo);
        BetweenRecordShape(text, startMarker, endMarker, limit, lo, comparisonType, documentName);
      }
    }
  }

  /**
   * The window bound: the content between the markers of every record is at
   * most `limit` characters long (a content of exactly `limit` characters is
   * accepted), and it contains no earlier end marker.
   */
  lemma {:induction false} BetweenWindowBound(text: string, startMarker: string, endMarker: string, limit: nat,
                                              from: nat, comparisonType: Option<string>, documentName: Option<string>)
    requires |startMarker| > 0
    ensures var r := BetweenMatches(text, startMarker, endMarker, limit, from, comparisonType, documentName);
            forall i :: 0 <= i < |r| ==> WithinWindow(text, startMarker, endMarker, limit, r[i])
    decreases |text| - from
  {
    var p := FindFrom(text, startMarker, from);
    if p >= 0 {
      var lo := p + |startMarker|;
      var e := Find(text, endMarker, lo, lo + limit + |endMarker|);
      var r := BetweenMatches(text, startMarker, endMarker, limit, from, comparisonType, documentName);
      if e >= 0 {
        var next := e + |endMarker|;
        BetweenResumeAfterRecord(text, startMarker, endMarker, limit, from, comparisonType, documentName, p, e, next);
        BetweenWindowBound(text, startMarker, endMarker, limit, next, comparisonType, documentName);
        var rest := BetweenMatches(text, startMarker, endMarker, limit, next, comparisonType, documentName);
        assert WithinWindow(text, startMarker, endMarker, limit, r[0]);
        forall i | 0 < i < |r| ensures WithinWindow(text, startMarker, endMarker, limit, r[i]) {
          assert r[i] == rest[i - 1];
        }
      } else {
        BetweenResumeAfterMiss(text, startMarker, endMarker, limit, from, comparisonType, documentName, p, lo);
        BetweenWindowBound(text, startMarker, endMarker, limit, lo, comparisonType, documentName);
      }
    }
  }

  lemma InOrderFromEarlier(from: nat, next: nat, r: seq<KnownFilth>)
    requires from <= next && InOrder(next, r)
    ensures InOrder(from, r)
  {
    forall i | 0 <= i < |r| ensures Resume(from, r, i) <= r[i].start {
      if i > 0 {
        assert Resume(from, r, i) == Resume(next, r, i);
      }
    }
  }

  /**
   * Delimited records are disjoint and sorted, and none starts before
   * `from`: after a record the search resumes past its end marker, after a
   * start marker without an end marker just past that start marker.
   */
  lemma {:induction false} BetweenOrdered(text: string, startMarker: string, endMarker: string, limit: nat,
                                          from: nat, comparisonType: Option<string>, documentName: Option<string>)
    requires |startMarker| > 0
    ensures var r := BetweenMatches(text, startMarker, endMarker, limit, from, comparisonType, documentName);
            InOrder(from, r) && Disjoint(r) && forall i :: 0 <= i < |r| ==> from <= r[i].start
    decreases |text| - from
  {
    var p := FindFrom(text, startMarker, from);
    if p >= 0 {
      var lo := p + |startMarker|;
      var e := Find(text, endMarker, lo, lo + limit + |endMarker|);
      var r := BetweenMatches(text, startMarker, endMarker, limit, from, comparisonType, documentName);
      if e >= 0 {
        var next := e + |endMarker|;
        BetweenResumeAfterRecord(text, startMarker, endMarker, limit, from, comparisonType, documentName, p, e, next);
        BetweenOrdered(text, startMarker, endMarker, limit, next, comparisonType, documentName);
        var rest := BetweenMatches(text, startMarker, endMarker, limit, next, comparisonType, documentName);
        OrderedCons(from, r, next, rest);
      } else {
        BetweenResumeAfterMiss(text, startMarker, endMarker, limit, from, comparisonType, documentName, p, lo);
        BetweenOrdered(text, startMarker, endMarker, limit, lo, comparisonType, documentName);
        InOrderFromEarlier(from, lo, r);
      }
    }
  }

  // ---------------------------------------------------------------------------
  // Full scan
  // ---------------------------------------------------------------------------

  /** Which keys of the dictionary are present, for the keys the detector reads. */
  lemma KeysOf(item: PiiItem)
    ensures "match" in Keys(item) <==> item.matchText.Some?
    ensures "start" in Keys(item) <==> item.startMarker.Some?
    ensures "end" in Keys(item) <==> item.endMarker.Some?
    ensures "limit" in Keys(item) <==> item.limit.Some?
  {
  }

  /**
   * Dispatch by key presence: `match` selects the exact scan even when
   * `start` and `end` are present too; otherwise `start` with `end` selects
   * the delimited scan, with a window of 150 unless `limit` is given.
   */
  lemma DispatchByKeys(item: PiiItem)
    ensures Dispatch(item).ExactScan? <==> "match" in Keys(item)
    ensures Dispatch(item).BetweenScan? <==> "match" !in Keys(item) && "start" in Keys(item) && "end" in Keys(item)
    ensures Dispatch(item).NoScanner? <==> "match" !in Keys(item) && !("start" in Keys(item) && "end" in Keys(item))
    ensures Dispatch(item).ExactScan? ==> Dispatch(item).phrase == item.matchText.value
    ensures Dispatch(item).BetweenScan? ==>
              Dispatch(item).startMarker == item.startMarker.value && Dispatch(item).endMarker == item.endMarker.value
    ensures Dispatch(item).BetweenScan? ==>
              Dispatch(item).limit == (if "limit" in Keys(item) then item.limit.value else 150)
  {
    KeysOf(item);
  }

  /** An empty pattern list yields nothing and raises nothing. */
  lemma ScanOfNoItems(text: string, documentName: Option<string>)
    ensures Scan([], text, documentName) == ScanOutcome([], None)
  {
  }

  /**
   * A single item: `match` wins; otherwise `start` with `end` runs the
   * delimited scan; any other item yields nothing and raises the error that
   * names its keys.
   */
  lemma ScanOneItem(item: PiiItem, text: string, documentName: Option<string>)
    requires Runs(item)
    ensures ReachedItemsRun([item])
    ensures Scan([item], text, documentName)
            == if "match" in Keys(item) then
                 ScanOutcome(ExactMatches(text, item.matchText.value, 0, item.comparisonType, documentName), None)
               else if "start" in Keys(item) && "end" in Keys(item) then
                 ScanOutcome(BetweenMatches(text, item.startMarker.value, item.endMarker.value,
                                            item.limit.GetOr(150), 0, item.comparisonType, documentName), None)
               else
                 ScanOutcome([], Some(UnknownKeys(Keys(item))))
  {
    KeysOf(item);
    assert [item][0] == item;
    assert [item][1..] == [];
    if !Dispatch(item).NoScanner? {
      assert ItemFilth(item, text, documentName) + [] == ItemFilth(item, text, documentName);
    }
  }

  /**
   * The outcome of scanning one list of items and then another: an error
   * in the first stops everything, otherwise the records are joined and the
   * second list decides the error.
   */
  function Then(first: ScanOutcome, second: ScanOutcome): ScanOutcome {
    if first.error.Some? then first else ScanOutcome(first.filth + second.filth, second.error)
  }

  /**
   * The full scan is the concatenation of the items' scans in list order,
   * not an ordering by position; once an item raises the error, the items
   * after it are never scanned.
   */
  lemma {:induction false} ScanConcat(a: seq<PiiItem>, b: seq<PiiItem>, text: string, documentName: Option<string>)
    requires ReachedItemsRun(a) && ReachedItemsRun(b)
    ensures ReachedItemsRun(a + b)
    ensures Scan(a + b, text, documentName) == Then(Scan(a, text, documentName), Scan(b, text, documentName))
  {
    if a == [] {
      assert a + b == b;
      assert [] + Scan(b, text, documentName).filth == Scan(b, text, documentName).filth;
    } else if Dispatch(a[0]).NoScanner? {
      assert (a + b)[0] == a[0];
    } else {
      ScanConcat(a[1..], b, text, documentName);
      ScanConcatCons(a, b, text, documentName);
    }
  }

  /** The inductive step of ScanConcat: the first item of `a` is dispatched. */
  lemma ScanConcatCons(a: seq<PiiItem>, b: seq<PiiItem>, text: string, documentName: Option<string>)
    requires a != [] && !Dispatch(a[0]).NoScanner?
    requires ReachedItemsRun(a) && ReachedItemsRun(b)
    requires ReachedItemsRun(a[1..] + b)
    requires Scan(a[1..] + b, text, documentName) == Then(Scan(a[1..], text, documentName), Scan(b, text, documentName))
    ensures ReachedItemsRun(a + b)
    ensures Scan(a + b, text, documentName) == Then(Scan(a, text, documentName), Scan(b, text, documentName))
  {
    assert a[0..] == a && (a + b)[0..] == a + b;
    assert (a + b)[0] == a[0] && (a + b)[1..] == a[1..] + b;
    ScanStep(a, 0, text, documentName);
    ScanStep(a + b, 0, text, documentName);
    ThenCons(ItemFilth(a[0], text, documentName), Scan(a[1..], text, documentName), Scan(b, text, documentName));
  }

  /** Records found before a scan stay in front when another scan follows it. */
  lemma ThenCons(head: seq<KnownFilth>, first: ScanOutcome, second: ScanOutcome)
    ensures Then(ScanOutcome(head + first.filth, first.error), second)
            == ScanOutcome(head + Then(first, second).filth, Then(first, second).error)
  {
    if first.error.None? {
      assert head + (first.filth + second.filth) == (head + first.filth) + second.filth;
    }
  }

  /**
   * The error is raised exactly when some item has neither `match` nor both
   * `start` and `end`, and the keys it names are those of the first such item.
   */
  lemma {:induction false} ScanErrorNamesKeys(items: seq<PiiItem>, text: string, documentName: Option<string>)
    requires ReachedItemsRun(items)
    ensures Scan(items, text, documentName).error.Some?
            <==> exists i :: 0 <= i < |items| && Dispatch(items[i]).NoScanner?
    ensures Scan(items, text, documentName).error.Some? ==>
              var keys := Scan(items, text, documentName).error.value.keys;
              && "match" !in keys && !("start" in keys && "end" in keys)
              && exists i :: 0 <= i < |items| && Dispatch(items[i]).NoScanner? && keys == Keys(items[i])
                             && forall j :: 0 <= j < i ==> !Dispatch(items[j]).NoScanner?
  {
    if items != [] {
      if Dispatch(items[0]).NoScanner? {
        KeysOf(items[0]);
      } else {
        ScanErrorNamesKeys(items[1..], text, documentName);
        if Scan(items[1..], text, documentName).error.Some? {
          var keys := Scan(items[1..], text, documentName).error.value.keys;
          var i :| 0 <= i < |items[1..]| && Dispatch(items[1..][i]).NoScanner? && keys == Keys(items[1..][i])
                   && forall j :: 0 <= j < i ==> !Dispatch(items[1..][j]).NoScanner?;
          assert items[i + 1] == items[1..][i];
          forall j | 0 <= j < i + 1 ensures !Dispatch(items[j]).NoScanner? {
            if j > 0 {
              assert items[j] == items[1..][j - 1];
            }
          }
        } else {
          forall i | 0 <= i < |items| ensures !Dispatch(items[i]).NoScanner? {
            if i > 0 {
              assert items[i] == items[1..][i - 1];
            }
          }
        }
      }
    }
  }
}
