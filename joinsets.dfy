/**
 * Join-set counting, shared by both copies of `EnumeratedPattern`: an
 * occurrence of a pattern at row o "joins" the anomalous windows that fall
 * in rows o..o+lag, and the counts below add these joins up over all
 * occurrences of the pattern.
 */
module Joinsets {

  /** `len(range(o, o + lag + 1))`. */
  function Width(lag: int): nat {
    if lag + 1 > 0 then lag + 1 else 0
  }

  /** How many of the rows lo..lo+n-1 are in s: the size of `set(range(lo, lo + n)) ∩ set(s)`. */
  function RangeHits(lo: int, n: nat, s: seq<int>): (r: nat)
    ensures r <= n
  {
    if n == 0 then 0
    else RangeHits(lo, n - 1, s) + (if lo + n - 1 in s then 1 else 0)
  }

  /** Two lists that agree on the rows lo..lo+n-1 give the same count there. */
  lemma {:induction false} RangeHitsAgree(lo: int, n: nat, s: seq<int>, s': seq<int>)
    requires forall t | lo <= t < lo + n :: t in s <==> t in s'
    ensures RangeHits(lo, n, s) == RangeHits(lo, n, s')
  {
    if n > 0 {
      RangeHitsAgree(lo, n - 1, s, s');
    }
  }

  /** The count is positive exactly when some row of the range is in s. */
  lemma {:induction false} RangeHitsPositive(lo: int, n: nat, s: seq<int>)
    ensures RangeHits(lo, n, s) > 0 <==> exists t | lo <= t < lo + n :: t in s
  {
    if n > 0 {
      RangeHitsPositive(lo, n - 1, s);
    }
  }

  /** The join-set cardinality over the first occurrences, counting against the whole list w. */
  function FullJoinset(w: seq<int>, lag: int, occ: seq<nat>): nat {
    if |occ| == 0 then 0
    else FullJoinset(w, lag, occ[..|occ| - 1]) + RangeHits(occ[|occ| - 1], Width(lag), w)
  }

  /** How many occurrences join at least one anomalous window, counting against the whole list w. */
  function FullUnique(w: seq<int>, lag: int, occ: seq<nat>): nat {
    if |occ| == 0 then 0
    else FullUnique(w, lag, occ[..|occ| - 1]) + (if RangeHits(occ[|occ| - 1], Width(lag), w) > 0 then 1 else 0)
  }

  /**
   * No more occurrences join than there are occurrences, and each joining
   * occurrence contributes at least one and at most lag+1 joins.
   */
  lemma {:induction false} FullBounds(w: seq<int>, lag: int, occ: seq<nat>)
    ensures FullUnique(w, lag, occ) <= |occ|
    ensures FullUnique(w, lag, occ) <= FullJoinset(w, lag, occ) <= Width(lag) * FullUnique(w, lag, occ)
  {
    if |occ| > 0 {
      var front := occ[..|occ| - 1];
      FullBounds(w, lag, front);
      StepBound(FullJoinset(w, lag, front), FullUnique(w, lag, front), RangeHits(occ[|occ| - 1], Width(lag), w), Width(lag));
    }
  }

  /** One more occurrence with h <= width joins keeps joins within width times the joining occurrences. */
  lemma StepBound(joins: nat, joining: nat, h: nat, width: nat)
    requires joins <= width * joining && h <= width
    ensures joins + h <= width * (joining + (if h > 0 then 1 else 0))
  {
    var b := if h > 0 then 1 else 0;
    assert width * (joining + b) == width * joining + width * b;
  }
}
