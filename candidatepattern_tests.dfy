/**
 * The fixture of tests/test_pattern_mining_client.py: anomalous windows at
 * rows 1, 2, 3, 5, 7 and 8 of nine readings, lag 1, and the five patterns
 * the sequence index finds there, with their expected metrics and queries.
 */
module CandidatePatternTests {
  import opened Wrappers
  import opened Joinsets
  import opened Rankings
  import opened CandidatePatterns

  /** The store once the fixture's five patterns are enumerated, all still flagged. */
  ghost predicate ClientStore(p: EnumeratedPattern)
    reads p
  {
    p.Valid() && p.anomalousWindows == [1, 2, 3, 5, 7, 8] && p.numOfReadings == 9 && p.lag == 1 &&
    p.numOfPatterns == 5 && p.occurrences == [[1, 4, 7], [1], [4, 7], [2], [4, 7]] &&
    p.aboveSomeThreshold == [true, true, true, true, true]
  }

  /** The fixture's join counts against its windows, occurrence list by occurrence list. */
  lemma ClientJoins(w: seq<int>)
    requires w == [1, 2, 3, 5, 7, 8]
    ensures FullJoinset(w, 1, [1, 4, 7]) == 5 && FullUnique(w, 1, [1, 4, 7]) == 3
    ensures FullJoinset(w, 1, [1]) == 2 && FullUnique(w, 1, [1]) == 1
    ensures FullJoinset(w, 1, [2]) == 2 && FullUnique(w, 1, [2]) == 1
    ensures FullJoinset(w, 1, [4, 7]) == 3 && FullUnique(w, 1, [4, 7]) == 2
  {
    assert Width(1) == 2;
    assert 1 in w && 2 in w && 3 in w && 4 !in w && 5 in w && 7 in w && 8 in w;
    assert RangeHits(1, 1, w) == 1 && RangeHits(1, 2, w) == 2;
    assert RangeHits(2, 1, w) == 1 && RangeHits(2, 2, w) == 2;
    assert RangeHits(4, 1, w) == 0 && RangeHits(4, 2, w) == 1;
    assert RangeHits(7, 1, w) == 1 && RangeHits(7, 2, w) == 2;
    assert [1, 4, 7][..2] == [1, 4] && [1, 4][..1] == [1] && [4, 7][..1] == [4];
    assert [1][..0] == [] && [2][..0] == [] && [4][..0] == [];
    assert FullJoinset(w, 1, [1]) == 2 && FullUnique(w, 1, [1]) == 1;
    assert FullJoinset(w, 1, [4]) == 1 && FullUnique(w, 1, [4]) == 1;
    assert FullJoinset(w, 1, [1, 4]) == 3 && FullUnique(w, 1, [1, 4]) == 2;
  }

  /**
   * A stored entry with nine readings, six anomalous windows and lag 1,
   * given its occurrences and their counts against the whole window list.
   */
  lemma EntryMetrics(p: EnumeratedPattern, i: int, occ: seq<nat>, joinset: nat, unique: nat,
                     support: real, crossk: real, confidence: real)
    requires p.Valid() && p.lag == 1 && p.numOfReadings == 9 && |p.anomalousWindows| == 6 && 0 <= i < p.numOfPatterns
    requires p.occurrences[i] == occ && |occ| > 0
    requires FullJoinset(p.anomalousWindows, 1, occ) == joinset && FullUnique(p.anomalousWindows, 1, occ) == unique
    requires support == joinset as real / 9.0 && confidence == unique as real / |occ| as real
    requires crossk == 1.5 * (joinset as real / |occ| as real)
    ensures p.support[i] == support && p.crossk[i] == crossk && p.confidence[i] == confidence
  {
    StoredIsFull(p, i);
    StoredMetrics(p, i);
  }

  /** The fixture's metrics entry by entry. */
  lemma ClientValues(p: EnumeratedPattern)
    requires ClientStore(p)
    ensures p.support[0] == 5.0 / 9.0 && p.support[1] == 2.0 / 9.0 && p.support[2] == 3.0 / 9.0
    ensures p.support[3] == 2.0 / 9.0 && p.support[4] == 3.0 / 9.0
    ensures p.crossk[0] == 2.5 && p.crossk[1] == 3.0 && p.crossk[2] == 2.25 && p.crossk[3] == 3.0 && p.crossk[4] == 2.25
    ensures forall i | 0 <= i < 5 :: p.confidence[i] == 1.0
  {
    ClientJoins(p.anomalousWindows);
    EntryMetrics(p, 0, [1, 4, 7], 5, 3, 5.0 / 9.0, 2.5, 1.0);
    EntryMetrics(p, 1, [1], 2, 1, 2.0 / 9.0, 3.0, 1.0);
    EntryMetrics(p, 2, [4, 7], 3, 2, 3.0 / 9.0, 2.25, 1.0);
    EntryMetrics(p, 3, [2], 2, 1, 2.0 / 9.0, 3.0, 1.0);
    EntryMetrics(p, 4, [4, 7], 3, 2, 3.0 / 9.0, 2.25, 1.0);
  }

  /**
   * The fixture's metrics: the first pattern joins five of the nine rows
   * (support 5/9) from its three occurrences (cross-K (9/6) * (5/3) = 2.5),
   * and every occurrence of every pattern joins some window (confidence 1).
   */
  lemma ClientMetrics(p: EnumeratedPattern)
    requires ClientStore(p)
    ensures p.support == [5.0 / 9.0, 2.0 / 9.0, 3.0 / 9.0, 2.0 / 9.0, 3.0 / 9.0]
    ensures p.crossk == [2.5, 3.0, 2.25, 3.0, 2.25]
    ensures p.confidence == [1.0, 1.0, 1.0, 1.0, 1.0]
  {
    ClientValues(p);
  }

  /** All five fixture patterns are flagged. */
  lemma AllFlagged(flags: seq<bool>)
    requires flags == [true, true, true, true, true]
    ensures Flagged(flags) == [0, 1, 2, 3, 4]
  {
    var s: seq<nat> := [0, 1, 2, 3, 4];
    assert forall x: int :: x in s <==> 0 <= x < |flags| && flags[x];
    AscendingUnique(Flagged(flags), s);
  }

  /** Cross-K at least 2.5 over the fixture: patterns 0, 1 and 3. */
  lemma CrossKThreshold(values: seq<real>, s: seq<nat>, t: seq<nat>)
    requires values == [2.5, 3.0, 2.25, 3.0, 2.25] && s == [0, 1, 2, 3, 4] && t == [0, 1, 3]
    ensures forall i | 0 <= i < |s| :: s[i] < |values|
    ensures AtLeast(values, s, 2.5) == t
  {
    var r := AtLeast(values, s, 2.5);
    forall x ensures x in r <==> x in t {
    }
    AscendingUnique(r, t);
  }

  /** The fixture's candidates by support are in ranking order once ranked. */
  lemma SupportRankedOrder(values: seq<real>, s: seq<nat>)
    requires values == [5.0 / 9.0, 2.0 / 9.0, 3.0 / 9.0, 2.0 / 9.0, 3.0 / 9.0] && s == [0, 1, 2, 3, 4]
    ensures forall i | 0 <= i < |s| :: s[i] < |values|
    ensures RankedOrder(values, Ranked(values, s))
  {
    RankedIsOrdered(values, s);
  }

  /** Ranking the fixture's candidates by support keeps all five. */
  lemma SupportRankedMembers(values: seq<real>, s: seq<nat>, t: seq<nat>)
    requires values == [5.0 / 9.0, 2.0 / 9.0, 3.0 / 9.0, 2.0 / 9.0, 3.0 / 9.0] && s == [0, 1, 2, 3, 4]
    requires t == [0, 2, 4, 1, 3]
    ensures forall x :: x in Ranked(values, s) <==> x in t
  {
    var r := Ranked(values, s);
    forall x ensures x in r <==> x in t {
      assert x in r <==> x in multiset(s);
    }
  }

  /** The order the ranking claims for the fixture's supports. */
  lemma SupportOrder(values: seq<real>, t: seq<nat>)
    requires values == [5.0 / 9.0, 2.0 / 9.0, 3.0 / 9.0, 2.0 / 9.0, 3.0 / 9.0] && t == [0, 2, 4, 1, 3]
    ensures forall i | 0 <= i < |t| :: t[i] < |values|
    ensures RankedOrder(values, t)
  {
  }

  /**
   * Ranking the fixture's supports: 0 (5/9) first, then the two 3/9 in
   * index order, then the two 2/9 in index order.
   */
  lemma SupportRanking(values: seq<real>, s: seq<nat>, t: seq<nat>)
    requires values == [5.0 / 9.0, 2.0 / 9.0, 3.0 / 9.0, 2.0 / 9.0, 3.0 / 9.0] && s == [0, 1, 2, 3, 4]
    requires t == [0, 2, 4, 1, 3]
    ensures Ranked(values, s) == t
  {
    SupportRankedOrder(values, s);
    SupportRankedMembers(values, s, t);
    SupportOrder(values, t);
    RankedUnique(values, Ranked(values, s), t);
  }

  /** The client test's threshold query: cross-K at least 2.5 keeps patterns 0, 1 and 3. */
  lemma ClientThresholdQuery(p: EnumeratedPattern)
    requires ClientStore(p)
    ensures p.GetPatternIndexes("crossk", "threshold", -1, 2.5) == Ok([0, 1, 3])
  {
    ClientMetrics(p);
    AllFlagged(p.aboveSomeThreshold);
    CrossKThreshold(p.crossk, Flagged(p.aboveSomeThreshold), [0, 1, 3]);
  }

  /** The client test's top-k query: the two best supports are patterns 0 and 2. */
  lemma ClientTopKQuery(p: EnumeratedPattern)
    requires ClientStore(p)
    ensures p.GetPatternIndexes("support", "topk", 2, -1.0) == Ok([0, 2])
  {
    ClientMetrics(p);
    AllFlagged(p.aboveSomeThreshold);
    var cands := Flagged(p.aboveSomeThreshold);
    SupportRanking(p.support, cands, [0, 2, 4, 1, 3]);
    assert p.GetMetricValues("support") == Ok(p.support);
    assert SelectIndexes(p.support, cands, "topk", 2, -1.0) == Ok(PyPrefix(Ranked(p.support, cands), 2));
    TopTwo([0, 2, 4, 1, 3]);
  }

  /** `[:2]` of the fixture's support ranking. */
  lemma TopTwo(t: seq<nat>)
    requires t == [0, 2, 4, 1, 3]
    ensures PyPrefix(t, 2) == [0, 2]
  {
  }
}
