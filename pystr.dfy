/**
 * The part of Python's string API the detector relies on: `str.find` with
 * non-negative bounds. Offsets are zero-based positions in a `seq<char>`.
 */
module PyStr {

  function Min(a: int, b: int): int {
    if a <= b then a else b
  }

  /** `sub` occurs in `text` starting at offset `i`. */
  predicate OccursAt(text: string, sub: string, i: int) {
    0 <= i && i + |sub| <= |text| && text[i..i + |sub|] == sub
  }

  /** No occurrence of `sub` in `text` starts at an offset in `[lo, hi)`. */
  predicate NoOccurrenceIn(text: string, sub: string, lo: int, hi: int) {
    forall j :: lo <= j < hi ==> !OccursAt(text, sub, j)
  }

  /**
   * `text.find(sub, lo, hi)`: the leftmost offset `i >= lo` at which `sub`
   * occurs and ends by `min(hi, |text|)`, or -1 when there is none.
   */
  function Find(text: string, sub: string, lo: nat, hi: nat): (r: int)
    ensures r == -1 || (lo <= r && r + |sub| <= Min(hi, |text|) && OccursAt(text, sub, r))
    ensures forall j :: lo <= j && j + |sub| <= Min(hi, |text|) && (r == -1 || j < r) ==> !OccursAt(text, sub, j)
    decreases |text| - lo
  {
    if lo + |sub| > Min(hi, |text|) then -1
    else if text[lo..lo + |sub|] == sub then lo
    else Find(text, sub, lo + 1, hi)
  }

  /** `text.find(sub, lo)`: the search runs to the end of `text`. */
  function FindFrom(text: string, sub: string, lo: nat): (r: int)
    ensures r == -1 || (lo <= r && OccursAt(text, sub, r))
    ensures r == -1 ==> NoOccurrenceIn(text, sub, lo, |text| + 1)
    ensures r != -1 ==> NoOccurrenceIn(text, sub, lo, r)
  {
    Find(text, sub, lo, |text|)
  }

  /** `find` is determined by its contract: the leftmost occurrence in range is the answer. */
  lemma FindLeftmost(text: string, sub: string, lo: nat, hi: nat, r: nat)
    requires lo <= r && r + |sub| <= Min(hi, |text|) && OccursAt(text, sub, r)
    requires NoOccurrenceIn(text, sub, lo, r)
    ensures Find(text, sub, lo, hi) == r
  {
  }

  /** With no occurrence in range, `find` reports -1. */
  lemma FindAbsent(text: string, sub: string, lo: nat, hi: nat)
    requires NoOccurrenceIn(text, sub, lo, Min(hi, |text|) - |sub| + 1)
    ensures Find(text, sub, lo, hi) == -1
  {
  }

  /** The leftmost occurrence at or after `lo` is what the search to the end reports. */
  lemma FindFromLeftmost(text: string, sub: string, lo: nat, r: nat)
    requires lo <= r && OccursAt(text, sub, r)
    requires NoOccurrenceIn(text, sub, lo, r)
    ensures FindFrom(text, sub, lo) == r
  {
    FindLeftmost(text, sub, lo, |text|, r);
  }

  /** With no occurrence at or after `lo`, the search to the end reports -1. */
  lemma FindFromAbsent(text: string, sub: string, lo: nat)
    requires NoOccurrenceIn(text, sub, lo, |text| + 1)
    ensures FindFrom(text, sub, lo) == -1
  {
  }
}
