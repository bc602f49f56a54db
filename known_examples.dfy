/**
 * Concrete scans, worked out on short texts: each lemma pins down what the
 * detector yields for one input.
 */
module KnownExamples {
  import opened Wrappers
  import opened PyStr
  import opened Known

  /** No occurrence can start where the text differs from the first character of `sub`. */
  lemma NoOccurrenceByFirstChar(text: string, sub: string, lo: int, hi: int)
    requires |sub| > 0
    requires forall j :: lo <= j < hi && 0 <= j < |text| ==> text[j] != sub[0]
    ensures NoOccurrenceIn(text, sub, lo, hi)
  {
    forall j | lo <= j < hi ensures !OccursAt(text, sub, j) {
      if 0 <= j && j + |sub| <= |text| {
        assert text[j..j + |sub|][0] == text[j];
      }
    }
  }

  /** Occurrences may touch: "aa" in "aaaa" is found at 0 and at 2, not at 1. */
  lemma ExactTouching()
    ensures ExactMatches("aaaa", "aa", 0, None, None)
            == [KnownFilth(0, 2, "aa", None, DetectorName, None), KnownFilth(2, 4, "aa", None, DetectorName, None)]
  {
    assert FindFrom("aaaa", "aa", 0) == 0;
    assert FindFrom("aaaa", "aa", 2) == 2;
    assert FindFrom("aaaa", "aa", 4) == -1;
  }

  /** A phrase that does not occur yields nothing. */
  lemma ExactAbsent()
    ensures ExactMatches("hello", "xyz", 0, None, None) == []
  {
    NoOccurrenceByFirstChar("hello", "xyz", 0, 3);
    FindAbsent("hello", "xyz", 0, 5);
  }

  /** The record covers both markers and carries the item's comparison type. */
  lemma DelimitedFound()
    ensures BetweenMatches("X<<hello>>Y", "<<", ">>", 5, 0, Some("name"), Some("doc"))
            == [KnownFilth(1, 10, "<<hello>>", Some("name"), DetectorName, Some("doc"))]
  {
    var text := "X<<hello>>Y";
    assert text[1..3] == "<<";
    NoOccurrenceByFirstChar(text, "<<", 0, 1);
    FindLeftmost(text, "<<", 0, 11, 1);
    assert text[8..10] == ">>";
    NoOccurrenceByFirstChar(text, ">>", 3, 8);
    FindLeftmost(text, ">>", 3, 10, 8);
    NoOccurrenceByFirstChar(text, "<<", 10, 10);
    FindAbsent(text, "<<", 10, 11);
    assert text[1..10] == "<<hello>>";
  }

  /** Ten characters between the markers are more than a window of five allows. */
  lemma DelimitedTooLong()
    ensures BetweenMatches("<<0123456789>>", "<<", ">>", 5, 0, None, None) == []
  {
    var text := "<<0123456789>>";
    assert text[0..2] == "<<";
    FindLeftmost(text, "<<", 0, 14, 0);
    NoOccurrenceByFirstChar(text, ">>", 2, 8);
    FindAbsent(text, ">>", 2, 9);
    NoOccurrenceByFirstChar(text, "<<", 2, 13);
    FindAbsent(text, "<<", 2, 14);
  }

  /**
   * A start marker without an end marker in its window is skipped, and the
   * search resumes just past it, where a later start marker succeeds.
   */
  lemma DelimitedNestedStart()
    ensures BetweenMatches("<<<<ok>>", "<<", ">>", 3, 0, None, None)
            == [KnownFilth(2, 8, "<<ok>>", None, DetectorName, None)]
  {
    var text := "<<<<ok>>";
    assert text[0..2] == "<<";
    FindLeftmost(text, "<<", 0, 8, 0);
    NoOccurrenceByFirstChar(text, ">>", 2, 6);
    FindAbsent(text, ">>", 2, 7);
    assert text[2..4] == "<<";
    FindLeftmost(text, "<<", 2, 8, 2);
    assert text[6..8] == ">>";
    NoOccurrenceByFirstChar(text, ">>", 4, 6);
    FindLeftmost(text, ">>", 4, 9, 6);
    FindAbsent(text, "<<", 8, 8);
    assert text[2..8] == "<<ok>>";
  }

  /** Content of exactly `limit` characters is accepted; one more is not. */
  lemma DelimitedBoundary()
    ensures BetweenMatches("<<ab>>", "<<", ">>", 2, 0, None, None)
            == [KnownFilth(0, 6, "<<ab>>", None, DetectorName, None)]
    ensures BetweenMatches("<<ab>>", "<<", ">>", 1, 0, None, None) == []
  {
    var text := "<<ab>>";
    assert text[0..2] == "<<";
    FindLeftmost(text, "<<", 0, 6, 0);
    assert text[4..6] == ">>";
    NoOccurrenceByFirstChar(text, ">>", 2, 4);
    FindLeftmost(text, ">>", 2, 6, 4);
    FindAbsent(text, ">>", 2, 5);
    NoOccurrenceByFirstChar(text, "<<", 2, 5);
    FindAbsent(text, "<<", 2, 6);
    FindAbsent(text, "<<", 6, 6);
    assert text[0..6] == text;
  }

  function MatchItem(phrase: string): PiiItem {
    PiiItem(Some(phrase), None, None, None, None, {})
  }

  /** Records come in the order of the list, not in the order of their positions. */
  lemma ScanInListOrder()
    ensures ReachedItemsRun([MatchItem("b"), MatchItem("a")])
    ensures Scan([MatchItem("b"), MatchItem("a")], "ab", None)
            == ScanOutcome([KnownFilth(1, 2, "b", None, DetectorName, None),
                            KnownFilth(0, 1, "a", None, DetectorName, None)], None)
  {
    var items := [MatchItem("b"), MatchItem("a")];
    assert items[1..] == [MatchItem("a")];
    assert items[1..][1..] == [];
    assert "ab"[1..2] == "b";
    NoOccurrenceByFirstChar("ab", "b", 0, 1);
    FindLeftmost("ab", "b", 0, 2, 1);
    FindAbsent("ab", "b", 2, 2);
    assert "ab"[0..1] == "a";
    FindLeftmost("ab", "a", 0, 2, 0);
    NoOccurrenceByFirstChar("ab", "a", 1, 2);
    FindAbsent("ab", "a", 1, 2);
  }

  /** An item with none of the dispatch keys raises the error that names its keys. */
  lemma ScanUnknownItem()
    ensures ReachedItemsRun([PiiItem(None, None, None, None, None, {"foo"})])
    ensures Scan([PiiItem(None, None, None, None, None, {"foo"})], "ab", None)
            == ScanOutcome([], Some(UnknownKeys({"foo"})))
  {
    var item := PiiItem(None, None, None, None, None, {"foo"});
    assert "foo" !in KnownKeys;
    assert {"foo"} - KnownKeys == {"foo"};
    assert Keys(item) == {"foo"};
    assert [item][0] == item;
  }

  /**
   * The records of the items before an invalid one are yielded, then the
   * error is raised; the item after it is never scanned.
   */
  lemma ScanStopsAtUnknown()
    ensures ReachedItemsRun([MatchItem("a"), PiiItem(None, Some("<<"), None, Some(5), None, {}), MatchItem("b")])
    ensures Scan([MatchItem("a"), PiiItem(None, Some("<<"), None, Some(5), None, {}), MatchItem("b")], "ab", None)
            == ScanOutcome([KnownFilth(0, 1, "a", None, DetectorName, None)], Some(UnknownKeys({"start", "limit"})))
  {
    var bad := PiiItem(None, Some("<<"), None, Some(5), None, {});
    var items := [MatchItem("a"), bad, MatchItem("b")];
    assert items[1..] == [bad, MatchItem("b")];
    assert items[1..][0] == bad;
    assert "ab"[0..1] == "a";
    FindLeftmost("ab", "a", 0, 2, 0);
    NoOccurrenceByFirstChar("ab", "a", 1, 2);
    FindAbsent("ab", "a", 1, 2);
    assert Keys(bad) == {"start", "limit"};
  }
}
