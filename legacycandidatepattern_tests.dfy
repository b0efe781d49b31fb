/**
 * The fixture of tests/mining/test_candidatepattern.py against the older
 * store: nine readings with anomalous windows at rows 1, 2, 3, 5, 7 and 8,
 * five patterns enumerated at lag 1, and the queries the tests ask.
 */
module LegacyCandidatePatternTests {
  import opened Wrappers
  import opened Frames
  import opened Rankings
  import CandidatePatterns
  import CandidatePatternTests
  import opened LegacyCandidatePatterns

  /** The store once the fixture's five patterns are enumerated. */
  ghost predicate LegacyStore(p: EnumeratedPattern)
    reads p
  {
    p.Valid() && p.anomalousWindows == [1, 2, 3, 5, 7, 8] && p.numOfReadings == 9 &&
    |p.patterns| == 5 && p.occurrences == [[1, 4, 7], [1], [4, 7], [2], [4, 7]] && p.lags == [1, 1, 1, 1, 1]
  }

  /** One stored entry at lag 1 over the fixture's windows, given its counts. */
  lemma EntryMetrics(p: EnumeratedPattern, i: int, occ: seq<nat>, joinset: nat, unique: nat,
                     support: real, crossk: real, confidence: real)
    requires LegacyStore(p) && 0 <= i < 5 && p.occurrences[i] == occ
    requires FullJoinsetIs(p.anomalousWindows, occ, joinset, unique)
    requires support == joinset as real / 9.0 && confidence == unique as real / |occ| as real
    requires crossk == 1.5 * (joinset as real / |occ| as real)
    ensures p.support[i] == support && p.crossk[i] == crossk && p.confidence[i] == confidence
  {
    StoredMetrics(p, i);
    assert CandidatePatterns.Ratio(9, 6) == 1.5;
  }

  /** The join counts of occ at lag 1. */
  ghost predicate FullJoinsetIs(w: seq<int>, occ: seq<nat>, joinset: nat, unique: nat) {
    Joinsets.FullJoinset(w, 1, occ) == joinset && Joinsets.FullUnique(w, 1, occ) == unique
  }

  /**
   * The fixture's metrics: the first pattern joins five of the nine rows
   * (support 5/9, cross-K (9/6) * (5/3) = 2.5), and every occurrence joins
   * some window (confidence 1).
   */
  lemma LegacyMetrics(p: EnumeratedPattern)
    requires LegacyStore(p)
    ensures p.support == [5.0 / 9.0, 2.0 / 9.0, 3.0 / 9.0, 2.0 / 9.0, 3.0 / 9.0]
    ensures p.crossk == [2.5, 3.0, 2.25, 3.0, 2.25]
    ensures p.confidence == [1.0, 1.0, 1.0, 1.0, 1.0]
  {
    CandidatePatternTests.ClientJoins(p.anomalousWindows);
    EntryMetrics(p, 0, [1, 4, 7], 5, 3, 5.0 / 9.0, 2.5, 1.0);
    EntryMetrics(p, 1, [1], 2, 1, 2.0 / 9.0, 3.0, 1.0);
    EntryMetrics(p, 2, [4, 7], 3, 2, 3.0 / 9.0, 2.25, 1.0);
    EntryMetrics(p, 3, [2], 2, 1, 2.0 / 9.0, 3.0, 1.0);
    EntryMetrics(p, 4, [4, 7], 3, 2, 3.0 / 9.0, 2.25, 1.0);
  }

  /** The candidates of the older store are every position. */
  lemma AllFive()
    ensures Indexes(5) == [0, 1, 2, 3, 4]
  {
  }

  /** `find_pattern` on the first key enumerated gives 0. */
  lemma LegacyFindFirst(p: EnumeratedPattern)
    requires LegacyStore(p)
    ensures p.FindPattern(p.patterns[0]) == 0
  {
  }

  /** Top-1 by support: pattern 0. */
  lemma LegacyTopKQuery(p: EnumeratedPattern)
    requires LegacyStore(p)
    ensures p.GetPatternIndexes("support", "topk", 1, -1.0) == Ok([0])
  {
    LegacyMetrics(p);
    TopKBySupport(p);
  }

  /**
   * Top-1 over five patterns with the fixture's supports: one index comes
   * back, and any other than 0 would have to rank before pattern 0, whose
   * support of 5/9 is the largest.
   */
  lemma TopKBySupport(p: EnumeratedPattern)
    requires p.Valid() && |p.patterns| == 5 && p.support == [5.0 / 9.0, 2.0 / 9.0, 3.0 / 9.0, 2.0 / 9.0, 3.0 / 9.0]
    ensures p.GetPatternIndexes("support", "topk", 1, -1.0) == Ok([0])
  {
    TopKPatterns(p, "support", 1);
    AllFive();
    var r := p.GetPatternIndexes("support", "topk", 1, -1.0);
    assert p.GetMetricValues("support").value == p.support;
    OnlyLeader(p.support, r.value);
  }

  /** A single index that ranks before every other must be that of the strictly largest value. */
  lemma OnlyLeader(values: seq<real>, r: seq<nat>)
    requires |values| == 5 && |r| == 1 && forall x :: x in r ==> x < |values|
    requires forall c, x | 0 <= c < |values| && c !in r && x in r :: Before(values, x, c)
    requires values == [5.0 / 9.0, 2.0 / 9.0, 3.0 / 9.0, 2.0 / 9.0, 3.0 / 9.0]
    ensures r == [0]
  {
    var x := r[0];
    assert x in r;
    assert Before(values, x, 0) || 0 in r;
  }

  /** Cross-K at least 2.7 over all five patterns: 1 and 3. */
  lemma CrossKThreshold(values: seq<real>, s: seq<nat>, t: seq<nat>)
    requires values == [2.5, 3.0, 2.25, 3.0, 2.25] && s == [0, 1, 2, 3, 4] && t == [1, 3]
    ensures forall i | 0 <= i < |s| :: s[i] < |values|
    ensures AtLeast(values, s, 2.7) == t
  {
    var r := AtLeast(values, s, 2.7);
    forall x ensures x in r <==> x in t {
    }
    AscendingUnique(r, t);
  }

  /** The threshold query: cross-K at least 2.7 keeps patterns 1 and 3. */
  lemma LegacyThresholdQuery(p: EnumeratedPattern)
    requires LegacyStore(p)
    ensures p.GetPatternIndexes("crossk", "threshold", -1, 2.7) == Ok([1, 3])
  {
    LegacyMetrics(p);
    ThresholdByCrossK(p);
  }

  /** Cross-K at least 2.7 over five patterns with the fixture's cross-K values. */
  lemma ThresholdByCrossK(p: EnumeratedPattern)
    requires p.Valid() && |p.patterns| == 5 && p.crossk == [2.5, 3.0, 2.25, 3.0, 2.25]
    ensures p.GetPatternIndexes("crossk", "threshold", -1, 2.7) == Ok([1, 3])
  {
    AllFive();
    CrossKThreshold(p.crossk, Indexes(|p.patterns|), [1, 3]);
  }

  /** `get_patterns([0, 2])` gives back the first and third keys. */
  lemma LegacyPatterns(p: EnumeratedPattern)
    requires LegacyStore(p)
    ensures p.GetPatterns([0, 2]) == [p.patterns[0], p.patterns[2]]
  {
    PatternsAscending(p, [0, 2]);
  }

  /** The first pattern's cross-K of 2.5 reaches 2.2. */
  lemma LegacyAboveThreshold(p: EnumeratedPattern)
    requires LegacyStore(p)
    ensures p.IsAboveThreshold(0, "crossk", 2.2) == Ok(true)
  {
    LegacyMetrics(p);
  }
}
