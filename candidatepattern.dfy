/**
 * `EnumeratedPattern` (src/nwc_pattern_miner/module/mining/candidatepattern.py):
 * the store of every pattern enumerated so far. Each new pattern gets the
 * next index, and parallel lists at that index hold its occurrences, its
 * count, its join-set cardinalities, its support, confidence and cross-K
 * value, and a "qualified" flag that threshold checks overwrite.
 */
module CandidatePatterns {
  import opened Wrappers
  import opened Frames
  import opened Joinsets
  import opened Rankings

  /** `short_window_bin_size`: anomalous windows are binned by `i // 50`. */
  const ShortWindowBinSize: int := 50

  /** Python's `i // 50`; for a positive divisor floor division is Dafny's `/`. */
  function BinOf(i: int): int {
    i / ShortWindowBinSize
  }

  /** What `_create_short_anomalous_windows` builds from the first windows of w. */
  function BinsOf(w: seq<int>): map<int, seq<int>> {
    if |w| == 0 then map[]
    else
      var m := BinsOf(w[..|w| - 1]);
      var key := BinOf(w[|w| - 1]);
      m[key := (if key in m then m[key] else []) + [w[|w| - 1]]]
  }

  /** Bin k holds exactly the windows of w whose bin is k. */
  lemma {:induction false} BinsMembers(w: seq<int>, k: int, x: int)
    ensures (k in BinsOf(w) && x in BinsOf(w)[k]) <==> x in w && BinOf(x) == k
  {
    if |w| > 0 {
      BinsMembers(w[..|w| - 1], k, x);
      assert w == w[..|w| - 1] + [w[|w| - 1]];
    }
  }

  /** `_create_short_anomalous_windows` as a loop over the windows. */
  method CreateShortWindows(w: seq<int>) returns (m: map<int, seq<int>>)
    ensures m == BinsOf(w)
  {
    m := map[];
    for i := 0 to |w|
      invariant m == BinsOf(w[..i])
    {
      var key := BinOf(w[i]);
      if key !in m {
        m := m[key := []];
      }
      m := m[key := m[key] + [w[i]]];
      assert w[..i + 1][..i] == w[..i];
    }
    assert w[..|w|] == w;
  }

  /** `_get_short_anomalous_windows(index)`: the bin of index, or nothing. */
  function ShortWindows(m: map<int, seq<int>>, index: int): seq<int> {
    if BinOf(index) in m then m[BinOf(index)] else []
  }

  /** `num_of_intersections` for an occurrence at row o, counted against two bins. */
  function Intersections(m: map<int, seq<int>>, lag: int, o: int): nat {
    RangeHits(o, Width(lag), ShortWindows(m, o) + ShortWindows(m, o + lag + 1))
  }

  /** `joinset_count` after the given occurrences. */
  function Joinset(m: map<int, seq<int>>, lag: int, occ: seq<nat>): nat {
    if |occ| == 0 then 0
    else Joinset(m, lag, occ[..|occ| - 1]) + Intersections(m, lag, occ[|occ| - 1])
  }

  /** `unique_joinset_count` after the given occurrences. */
  function Unique(m: map<int, seq<int>>, lag: int, occ: seq<nat>): nat {
    if |occ| == 0 then 0
    else Unique(m, lag, occ[..|occ| - 1]) + (if Intersections(m, lag, occ[|occ| - 1]) > 0 then 1 else 0)
  }

  /** Any row from o to e, with e at most 50 past o, shares its bin with o or with e. */
  lemma BinBetween(o: int, t: int, e: int)
    requires o <= t <= e <= o + ShortWindowBinSize
    ensures BinOf(t) == BinOf(o) || BinOf(t) == BinOf(e)
  {
    var q := o / 50;
    assert 50 * q <= o < 50 * q + 50;
    assert 50 * (t / 50) <= t < 50 * (t / 50) + 50;
    assert 50 * (e / 50) <= e < 50 * (e / 50) + 50;
    assert q <= t / 50 <= q + 1;
    assert t / 50 <= e / 50 <= q + 1;
  }

  /**
   * When the lag window fits in a bin (lag + 1 <= 50), the two bins of o and
   * o+lag+1 hold every anomalous window in rows o..o+lag, so counting against
   * the bins gives the count against the whole list.
   */
  lemma BinnedIsFull(w: seq<int>, lag: int, o: int)
    requires lag + 1 <= ShortWindowBinSize
    ensures Intersections(BinsOf(w), lag, o) == RangeHits(o, Width(lag), w)
  {
    var m := BinsOf(w);
    var s := ShortWindows(m, o) + ShortWindows(m, o + lag + 1);
    forall t | o <= t < o + Width(lag) ensures t in s <==> t in w {
      BinsMembers(w, BinOf(o), t);
      BinsMembers(w, BinOf(o + lag + 1), t);
      if t in w {
        BinBetween(o, t, o + lag + 1);
      }
    }
    RangeHitsAgree(o, Width(lag), s, w);
  }

  /** The binned join-set counts equal the counts against the whole window list. */
  lemma {:induction false} JoinsetIsFull(w: seq<int>, lag: int, occ: seq<nat>)
    requires lag + 1 <= ShortWindowBinSize
    ensures Joinset(BinsOf(w), lag, occ) == FullJoinset(w, lag, occ)
    ensures Unique(BinsOf(w), lag, occ) == FullUnique(w, lag, occ)
  {
    if |occ| > 0 {
      JoinsetIsFull(w, lag, occ[..|occ| - 1]);
      BinnedIsFull(w, lag, occ[|occ| - 1]);
    }
  }

  /** No more occurrences join than there are occurrences, nor than there are joins. */
  lemma {:induction false} JoinsetLower(m: map<int, seq<int>>, lag: int, occ: seq<nat>)
    ensures Unique(m, lag, occ) <= |occ| && Unique(m, lag, occ) <= Joinset(m, lag, occ)
  {
    if |occ| > 0 {
      JoinsetLower(m, lag, occ[..|occ| - 1]);
    }
  }

  /** Each joining occurrence joins at most lag+1 windows. */
  lemma {:induction false} JoinsetUpper(m: map<int, seq<int>>, lag: int, occ: seq<nat>)
    ensures Joinset(m, lag, occ) <= Width(lag) * Unique(m, lag, occ)
  {
    if |occ| > 0 {
      var front := occ[..|occ| - 1];
      JoinsetUpper(m, lag, front);
      StepBound(Joinset(m, lag, front), Unique(m, lag, front), Intersections(m, lag, occ[|occ| - 1]), Width(lag));
    }
  }

  /** `joinset_count` and `unique_joinset_count` as `_fill_pattern_joinsets` accumulates them. */
  method CountJoinsets(m: map<int, seq<int>>, lag: int, occ: seq<nat>) returns (joinsetCount: nat, uniqueCount: nat)
    ensures joinsetCount == Joinset(m, lag, occ) && uniqueCount == Unique(m, lag, occ)
  {
    joinsetCount, uniqueCount := 0, 0;
    for i := 0 to |occ|
      invariant joinsetCount == Joinset(m, lag, occ[..i])
      invariant uniqueCount == Unique(m, lag, occ[..i])
    {
      var numOfIntersections := Intersections(m, lag, occ[i]);
      if numOfIntersections > 0 {
        joinsetCount := joinsetCount + numOfIntersections;
        uniqueCount := uniqueCount + 1;
      }
      assert occ[..i + 1][..i] == occ[..i];
    }
    assert occ[..|occ|] == occ;
  }

  /** Python's true division `a / b` of two integers, for b != 0. */
  function Ratio(a: int, b: int): real
    requires b != 0
  {
    a as real / b as real
  }

  /** `crossk_const * (joinset_count / patterncount)`. */
  function CrossK(crosskConst: real, joinset: nat, count: nat): real
    requires count > 0
  {
    crosskConst * Ratio(joinset, count)
  }

  /**
   * One stored pattern's entries are what `enumerate_pattern` records for
   * its occurrences: the count, both join-set cardinalities, and the three
   * metrics computed from them.
   */
  ghost predicate Recorded(m: map<int, seq<int>>, lag: int, readings: int, crosskConst: real,
                           occ: seq<nat>, count: nat, joinset: nat, unique: nat,
                           support: real, confidence: real, crossk: real)
  {
    count == |occ| > 0 && readings != 0 &&
    joinset == Joinset(m, lag, occ) && unique == Unique(m, lag, occ) &&
    confidence == Ratio(unique, count) && support == Ratio(joinset, readings) &&
    crossk == CrossK(crosskConst, joinset, count)
  }

  /** The store's fields as one value: the pattern count, the key index and its insertion order, and the parallel lists. */
  datatype Lists = Lists(n: nat, patterns: map<PatternKey, nat>, keys: seq<PatternKey>, occurrences: seq<seq<nat>>,
                         patternCount: seq<nat>, joinsets: seq<nat>, uniques: seq<nat>, support: seq<real>,
                         confidence: seq<real>, crossk: seq<real>, above: seq<bool>)

  /**
   * The lists all n long, the keys distinct and mapped to their positions,
   * and every entry recorded from its occurrences.
   */
  ghost predicate Consistent(m: map<int, seq<int>>, lag: int, readings: int, crosskConst: real, s: Lists) {
    |s.keys| == s.n && |s.occurrences| == s.n && |s.patternCount| == s.n && |s.joinsets| == s.n &&
    |s.uniques| == s.n && |s.support| == s.n && |s.confidence| == s.n && |s.crossk| == s.n && |s.above| == s.n &&
    NoDup(s.keys) && (forall key :: key in s.patterns <==> key in s.keys) &&
    (forall i | 0 <= i < s.n :: s.patterns[s.keys[i]] == i) &&
    forall i | 0 <= i < s.n ::
      Recorded(m, lag, readings, crosskConst, s.occurrences[i], s.patternCount[i], s.joinsets[i], s.uniques[i],
               s.support[i], s.confidence[i], s.crossk[i])
  }

  /** The first step of `enumerate_pattern` on a new key: its index is the pattern count, its flag true. */
  function Registered(s: Lists, key: PatternKey): Lists {
    s.(patterns := s.patterns[key := s.n], keys := s.keys + [key], above := s.above + [true])
  }

  /** `_fill_pattern_counts` on the lists. */
  function Counted(s: Lists, occ: seq<nat>): Lists {
    s.(occurrences := s.occurrences + [occ], patternCount := s.patternCount + [|occ|])
  }

  /** `_fill_pattern_joinsets` on the lists. */
  function Joined(m: map<int, seq<int>>, lag: int, s: Lists, occ: seq<nat>): Lists {
    s.(joinsets := s.joinsets + [Joinset(m, lag, occ)], uniques := s.uniques + [Unique(m, lag, occ)])
  }

  /**
   * `_fill_pattern_metrics` on the lists, from their last entries: the
   * confidence, then the support and the cross-K value; a zero count raises
   * before the confidence is appended, zero readings before the support.
   */
  function Measured(readings: int, crosskConst: real, s: Lists): (Lists, Result<()>)
    requires |s.patternCount| > 0 && |s.joinsets| > 0 && |s.uniques| > 0
  {
    var count, j, u := s.patternCount[|s.patternCount| - 1], s.joinsets[|s.joinsets| - 1], s.uniques[|s.uniques| - 1];
    if count == 0 then (s, Err(ZeroDivisionError))
    else
      var s' := s.(confidence := s.confidence + [Ratio(u, count)]);
      if readings == 0 then (s', Err(ZeroDivisionError))
      else (s'.(support := s.support + [Ratio(j, readings)], crossk := s.crossk + [CrossK(crosskConst, j, count)]), Ok(()))
  }

  /** `enumerate_pattern` on a key not yet stored: the steps in order, and one more pattern when none raised. */
  function Onboarded(m: map<int, seq<int>>, lag: int, readings: int, crosskConst: real, s: Lists,
                     key: PatternKey, occ: seq<nat>): (Lists, Result<()>)
  {
    var t := Measured(readings, crosskConst, Joined(m, lag, Counted(Registered(s, key), occ), occ));
    if t.1.Ok? then (t.0.(n := t.0.n + 1), t.1) else t
  }

  /**
   * Onboarding raises exactly on an empty occurrence list or zero readings;
   * otherwise it appends one entry to every list, and on a consistent store
   * with a new key the store stays consistent.
   */
  lemma OnboardedAppends(m: map<int, seq<int>>, lag: int, readings: int, crosskConst: real, s: Lists,
                         key: PatternKey, occ: seq<nat>)
    ensures var (t, r) := Onboarded(m, lag, readings, crosskConst, s, key, occ);
            (r.Err? <==> |occ| == 0 || readings == 0) && (r.Err? ==> r.error == ZeroDivisionError) &&
            t.keys == s.keys + [key] && t.patterns == s.patterns[key := s.n] && t.above == s.above + [true] &&
            t.occurrences == s.occurrences + [occ] && t.patternCount == s.patternCount + [|occ|] &&
            t.joinsets == s.joinsets + [Joinset(m, lag, occ)] && t.uniques == s.uniques + [Unique(m, lag, occ)] &&
            t.n == s.n + (if r.Ok? then 1 else 0) &&
            t.confidence == s.confidence + (if |occ| > 0 then [Ratio(Unique(m, lag, occ), |occ|)] else []) &&
            t.support == s.support + (if r.Ok? then [Ratio(Joinset(m, lag, occ), readings)] else []) &&
            t.crossk == s.crossk + (if r.Ok? then [CrossK(crosskConst, Joinset(m, lag, occ), |occ|)] else [])
  {
  }

  /** Onboarding a new key with occurrences, over non-zero readings, keeps a consistent store consistent. */
  lemma ConsistentOnboard(m: map<int, seq<int>>, lag: int, readings: int, crosskConst: real, s: Lists,
                          key: PatternKey, occ: seq<nat>)
    requires Consistent(m, lag, readings, crosskConst, s) && key !in s.keys
    requires Onboarded(m, lag, readings, crosskConst, s, key, occ).1.Ok?
    ensures Consistent(m, lag, readings, crosskConst, Onboarded(m, lag, readings, crosskConst, s, key, occ).0)
  {
    OnboardedAppends(m, lag, readings, crosskConst, s, key, occ);
    var keys' := s.keys + [key];
    assert forall i | 0 <= i < s.n :: keys'[i] == s.keys[i];
  }

  /** `metric_names`: the metrics a threshold or a ranking can use. */
  const MetricNames: seq<string> := ["support", "crossk", "confidence"]

  class EnumeratedPattern {
    const lag: int
    const numOfReadings: int
    const anomalousWindows: seq<int>
    const crosskConst: real
    const anomalousWindowsMap: map<int, seq<int>>

    var numOfPatterns: nat
    /** The `OrderedDict` from key to index; `keys` is its insertion order. */
    var patterns: map<PatternKey, nat>
    var keys: seq<PatternKey>
    var occurrences: seq<seq<nat>>
    var patternCount: seq<nat>
    var joinsetCardinality: seq<nat>
    var uniqueJoinsetCardinality: seq<nat>
    var support: seq<real>
    var confidence: seq<real>
    var crossk: seq<real>
    var aboveSomeThreshold: seq<bool>

    /** The fields as one value. */
    ghost function Contents(): Lists
      reads this
    {
      Lists(numOfPatterns, patterns, keys, occurrences, patternCount, joinsetCardinality, uniqueJoinsetCardinality,
            support, confidence, crossk, aboveSomeThreshold)
    }

    /** The bins and `crossk_const` come from the windows, and the lists are consistent. */
    ghost predicate Valid()
      reads this
    {
      |anomalousWindows| > 0 && crosskConst == Ratio(numOfReadings, |anomalousWindows|) &&
      anomalousWindowsMap == BinsOf(anomalousWindows) &&
      Consistent(anomalousWindowsMap, lag, numOfReadings, crosskConst, Contents())
    }

    /** `__init__`: an empty store; `len(anomalous_windows)` must be non-zero for `crossk_const`. */
    constructor (anomalousWindows: seq<int>, numOfReadings: int, lag: int)
      requires |anomalousWindows| > 0
      ensures Valid()
      ensures this.anomalousWindows == anomalousWindows && this.numOfReadings == numOfReadings && this.lag == lag
      ensures Contents() == Lists(0, map[], [], [], [], [], [], [], [], [], [])
    {
      this.lag := lag;
      this.numOfReadings := numOfReadings;
      this.anomalousWindows := anomalousWindows;
      crosskConst := Ratio(numOfReadings, |anomalousWindows|);
      var bins := CreateShortWindows(anomalousWindows);
      anomalousWindowsMap := bins;
      numOfPatterns := 0;
      patterns, keys := map[], [];
      occurrences, patternCount := [], [];
      joinsetCardinality, uniqueJoinsetCardinality := [], [];
      support, confidence, crossk := [], [], [];
      aboveSomeThreshold := [];
    }

    /** `find_pattern`: the key's index, or -1 when it was never enumerated. */
    function FindPattern(key: PatternKey): (r: int)
      reads this
      requires Valid()
      ensures r == -1 <==> key !in keys
      ensures r != -1 ==> 0 <= r < |keys| && keys[r] == key
    {
      if key in patterns then patterns[key] else -1
    }

    /**
     * `enumerate_pattern`: a stored key changes nothing; a new key goes
     * through the onboarding steps. A ZeroDivisionError (an empty occurrence
     * list or zero readings) leaves the lists part-way, as the steps before
     * the failing division left them; otherwise the store stays consistent.
     */
    method EnumeratePattern(key: PatternKey, occ: seq<nat>) returns (r: Result<()>)
      requires Valid()
      modifies this
      ensures key in old(keys) ==> r.Ok? && unchanged(this)
      ensures key !in old(keys) ==>
                (Contents(), r) == Onboarded(anomalousWindowsMap, lag, numOfReadings, crosskConst, old(Contents()), key, occ)
      ensures r.Ok? ==> Valid() && FindPattern(key) == (if key in old(keys) then old(patterns)[key] else old(numOfPatterns))
    {
      if FindPattern(key) != -1 {
        return Ok(());
      }
      r := Onboard(key, occ);
      if r.Ok? {
        ConsistentOnboard(anomalousWindowsMap, lag, numOfReadings, crosskConst, old(Contents()), key, occ);
      }
    }

    /** The body of `enumerate_pattern` after the memo check. */
    method Onboard(key: PatternKey, occ: seq<nat>) returns (r: Result<()>)
      modifies this
      ensures (Contents(), r) == Onboarded(anomalousWindowsMap, lag, numOfReadings, crosskConst, old(Contents()), key, occ)
    {
      ghost var s := Contents();
      patterns, aboveSomeThreshold, keys := patterns[key := numOfPatterns], aboveSomeThreshold + [true], keys + [key];
      assert Contents() == Registered(s, key);
      FillPatternCounts(occ);
      FillPatternJoinsets(occ);
      r := FillPatternMetrics();
      if r.Err? {
        return;
      }
      numOfPatterns := numOfPatterns + 1;
    }

    /** `_fill_pattern_counts`. */
    method FillPatternCounts(occ: seq<nat>)
      modifies this`occurrences, this`patternCount
      ensures Contents() == Counted(old(Contents()), occ)
    {
      occurrences := occurrences + [occ];
      patternCount := patternCount + [|occ|];
    }

    /** `_fill_pattern_joinsets`: counts the occurrences against the binned windows. */
    method FillPatternJoinsets(occ: seq<nat>)
      modifies this`joinsetCardinality, this`uniqueJoinsetCardinality
      ensures Contents() == Joined(anomalousWindowsMap, lag, old(Contents()), occ)
    {
      var joinsetCount, uniqueCount := CountJoinsets(anomalousWindowsMap, lag, occ);
      joinsetCardinality := joinsetCardinality + [joinsetCount];
      uniqueJoinsetCardinality := uniqueJoinsetCardinality + [uniqueCount];
    }

    /** `_fill_pattern_metrics` on the last entry. */
    method FillPatternMetrics() returns (r: Result<()>)
      requires |patternCount| > 0 && |joinsetCardinality| > 0 && |uniqueJoinsetCardinality| > 0
      modifies this`confidence, this`support, this`crossk
      ensures (Contents(), r) == Measured(numOfReadings, crosskConst, old(Contents()))
    {
      var count := patternCount[|patternCount| - 1];
      var joinsetCount := joinsetCardinality[|joinsetCardinality| - 1];
      var uniqueCount := uniqueJoinsetCardinality[|uniqueJoinsetCardinality| - 1];
      if count == 0 {
        return Err(ZeroDivisionError);
      }
      confidence := confidence + [Ratio(uniqueCount, count)];
      if numOfReadings == 0 {
        return Err(ZeroDivisionError);
      }
      support := support + [Ratio(joinsetCount, numOfReadings)];
      crossk := crossk + [CrossK(crosskConst, joinsetCount, count)];
      r := Ok(());
    }

    /** `_get_metric_values`: the list of the named metric; any other name raises. */
    function GetMetricValues(metric: string): (r: Result<seq<real>>)
      reads this
      ensures r.Err? <==> metric !in MetricNames
      ensures r.Err? ==> r.error == InvalidMetric
      ensures Valid() && r.Ok? ==> |r.value| == numOfPatterns
    {
      if metric == "crossk" then Ok(crossk)
      else if metric == "confidence" then Ok(confidence)
      else if metric == "support" then Ok(support)
      else Err(InvalidMetric)
    }

    /**
     * `is_above_threshold`: whether the metric of the pattern at the given
     * (Python) index reaches the threshold, written into that pattern's flag
     * and no other. An unknown metric raises first, then a bad index.
     */
    method IsAboveThreshold(patternIndex: int, thresholdMetric: string, thresholdValue: real) returns (r: Result<bool>)
      requires Valid()
      modifies this`aboveSomeThreshold
      ensures Valid()
      ensures var values, p := old(GetMetricValues(thresholdMetric)), PyIndex(patternIndex, numOfPatterns);
              (values.Err? ==> r == Err(InvalidMetric)) &&
              (values.Ok? && p.None? ==> r == Err(IndexError)) &&
              (values.Ok? && p.Some? ==> r == Ok(values.value[p.value] >= thresholdValue))
      ensures r.Ok? ==> aboveSomeThreshold == old(aboveSomeThreshold)[PyIndex(patternIndex, numOfPatterns).value := r.value]
      ensures r.Err? ==> aboveSomeThreshold == old(aboveSomeThreshold)
      ensures Contents() == old(Contents()).(above := aboveSomeThreshold)
    {
      var metricValues := GetMetricValues(thresholdMetric);
      if metricValues.Err? {
        return Err(metricValues.error);
      }
      var p := PyIndex(patternIndex, |metricValues.value|);
      if p.None? {
        return Err(IndexError);
      }
      var boolResult := metricValues.value[p.value] >= thresholdValue;
      aboveSomeThreshold := aboveSomeThreshold[p.value := boolResult];
      r := Ok(boolResult);
    }

    /**
     * `get_pattern_indexes`: among the flagged patterns, the top k by the
     * metric or those reaching the threshold, as the selection rule says; an
     * unknown metric raises before the parameters are looked at.
     */
    function GetPatternIndexes(metric: string, filterType: string, k: int, threshold: real): (r: Result<seq<nat>>)
      reads this
      requires Valid()
      ensures r.Err? <==> metric !in MetricNames ||
                          (!(filterType == "topk" && k != -1) && !(filterType == "threshold" && threshold != -1.0))
      ensures r.Err? ==> r.error == (if metric in MetricNames then WrongParameters else InvalidMetric)
      ensures r.Ok? ==> forall i | 0 <= i < |r.value| :: r.value[i] < numOfPatterns && aboveSomeThreshold[r.value[i]]
    {
      var metricValues := GetMetricValues(metric);
      if metricValues.Err? then Err(metricValues.error)
      else SelectIndexes(metricValues.value, Flagged(aboveSomeThreshold), filterType, k, threshold)
    }

    /** `get_patterns`: the keys at the given (Python) indexes of the insertion order, in the order asked. */
    function GetPatterns(patternIndexes: seq<int>): (r: Result<seq<PatternKey>>)
      reads this
      requires Valid()
      ensures r.Err? <==> exists i | 0 <= i < |patternIndexes| :: PyIndex(patternIndexes[i], numOfPatterns).None?
      ensures r.Ok? ==> |r.value| == |patternIndexes| &&
                        forall i | 0 <= i < |patternIndexes| :: FindPattern(r.value[i]) == PyIndex(patternIndexes[i], numOfPatterns).value
    {
      PyGather(keys, patternIndexes)
    }
  }

  /**
   * `EnumeratedPattern(anomalous_windows, num_of_readings, lag)` as a call
   * that can raise: `crossk_const` divides by `len(anomalous_windows)`, so
   * an empty window list is a ZeroDivisionError; otherwise the store starts
   * empty, as the constructor leaves it.
   */
  method NewEnumeratedPattern(anomalousWindows: seq<int>, numOfReadings: int, lag: int) returns (r: Result<EnumeratedPattern>)
    ensures r.Err? <==> |anomalousWindows| == 0
    ensures r.Err? ==> r.error == ZeroDivisionError
    ensures r.Ok? ==> fresh(r.value) && r.value.Valid() && r.value.anomalousWindows == anomalousWindows &&
                      r.value.numOfReadings == numOfReadings && r.value.lag == lag &&
                      r.value.crosskConst == Ratio(numOfReadings, |anomalousWindows|) &&
                      r.value.Contents() == Lists(0, map[], [], [], [], [], [], [], [], [], [])
  {
    if |anomalousWindows| == 0 {
      return Err(ZeroDivisionError);
    }
    var p := new EnumeratedPattern(anomalousWindows, numOfReadings, lag);
    r := Ok(p);
  }

  /**
   * Each stored entry is what the formulas give for its occurrences:
   * count = |O| > 0, support = joinset/N, confidence = unique/count and
   * cross-K = (N/|W|) * joinset/count.
   */
  lemma StoredMetrics(p: EnumeratedPattern, i: int)
    requires p.Valid() && 0 <= i < p.numOfPatterns
    ensures var occ, j, u := p.occurrences[i], p.joinsetCardinality[i], p.uniqueJoinsetCardinality[i];
            p.patternCount[i] == |occ| > 0 &&
            j == Joinset(p.anomalousWindowsMap, p.lag, occ) && u == Unique(p.anomalousWindowsMap, p.lag, occ) &&
            p.support[i] == Ratio(j, p.numOfReadings) && p.confidence[i] == Ratio(u, |occ|) &&
            p.crossk[i] == Ratio(p.numOfReadings, |p.anomalousWindows|) * Ratio(j, |occ|)
  {
  }

  /** Hence unique <= count, unique <= joinset <= (lag+1) * unique, and 0 <= confidence <= 1. */
  lemma StoredBounds(p: EnumeratedPattern, i: int)
    requires p.Valid() && 0 <= i < p.numOfPatterns
    ensures var count, j, u := p.patternCount[i], p.joinsetCardinality[i], p.uniqueJoinsetCardinality[i];
            u <= count && u <= j <= Width(p.lag) * u && 0.0 <= p.confidence[i] <= 1.0
  {
    var occ := p.occurrences[i];
    assert Recorded(p.anomalousWindowsMap, p.lag, p.numOfReadings, p.crosskConst, occ, p.patternCount[i],
                    p.joinsetCardinality[i], p.uniqueJoinsetCardinality[i], p.support[i], p.confidence[i], p.crossk[i]);
    JoinsetLower(p.anomalousWindowsMap, p.lag, occ);
    JoinsetUpper(p.anomalousWindowsMap, p.lag, occ);
    RatioUnit(Unique(p.anomalousWindowsMap, p.lag, occ), |occ|);
  }

  /** A ratio of a count to a larger positive count lies in [0, 1]. */
  lemma RatioUnit(a: nat, b: nat)
    requires 0 < b && a <= b
    ensures 0.0 <= Ratio(a, b) <= 1.0
  {
    assert a as real <= b as real;
  }

  /**
   * With lag + 1 <= 50 the binned counts stored for a pattern are its counts
   * against the whole list of anomalous windows.
   */
  lemma StoredIsFull(p: EnumeratedPattern, i: int)
    requires p.Valid() && 0 <= i < p.numOfPatterns && p.lag + 1 <= ShortWindowBinSize
    ensures p.joinsetCardinality[i] == FullJoinset(p.anomalousWindows, p.lag, p.occurrences[i])
    ensures p.uniqueJoinsetCardinality[i] == FullUnique(p.anomalousWindows, p.lag, p.occurrences[i])
  {
    JoinsetIsFull(p.anomalousWindows, p.lag, p.occurrences[i]);
  }

  /**
   * Top-k over a known metric: the indexes come in ranking order (a higher
   * value first, ties by index), none twice, all flagged, as many as
   * `[:k]` keeps of the flagged ones, and every flagged index left out
   * ranks after every index kept.
   */
  lemma TopKPatterns(p: EnumeratedPattern, metric: string, k: int)
    requires p.Valid() && metric in MetricNames && k != -1
    ensures var values, r := p.GetMetricValues(metric).value, p.GetPatternIndexes(metric, "topk", k, -1.0);
            var flagged := Flagged(p.aboveSomeThreshold);
            r.Ok? && RankedOrder(values, r.value) && NoDup(r.value) && |r.value| == |PyPrefix(flagged, k)| &&
            (forall x :: x in r.value ==> x < p.numOfPatterns && p.aboveSomeThreshold[x]) &&
            forall c, x | c in flagged && c !in r.value && x in r.value :: Before(values, x, c)
  {
    var values := p.GetMetricValues(metric).value;
    TopK(values, Flagged(p.aboveSomeThreshold), k);
  }

  /**
   * Threshold mode over a known metric: exactly the flagged indexes whose
   * value reaches the threshold, in ascending order.
   */
  lemma ThresholdPatterns(p: EnumeratedPattern, metric: string, threshold: real)
    requires p.Valid() && metric in MetricNames && threshold != -1.0
    ensures var values, r := p.GetMetricValues(metric).value, p.GetPatternIndexes(metric, "threshold", 0, threshold);
            r.Ok? &&
            (forall x: int :: x in r.value <==> 0 <= x < p.numOfPatterns && p.aboveSomeThreshold[x] && values[x] >= threshold) &&
            forall a, b | 0 <= a < b < |r.value| :: r.value[a] < r.value[b]
  {
  }

  /** Looking stored keys up and asking for them back by those indexes returns the same keys. */
  lemma PatternsRoundTrip(p: EnumeratedPattern, wanted: seq<PatternKey>, indexes: seq<int>)
    requires p.Valid() && forall i | 0 <= i < |wanted| :: wanted[i] in p.keys
    requires |indexes| == |wanted| && forall i | 0 <= i < |wanted| :: indexes[i] == p.FindPattern(wanted[i])
    ensures p.GetPatterns(indexes) == Ok(wanted)
  {
    assert forall i | 0 <= i < |indexes| :: PyIndex(indexes[i], p.numOfPatterns) == Some(indexes[i]);
    var r := p.GetPatterns(indexes);
    forall i | 0 <= i < |wanted| ensures r.value[i] == wanted[i] {
      assert p.keys[indexes[i]] == wanted[i] && p.keys[p.FindPattern(r.value[i])] == r.value[i];
    }
    assert r.value == wanted;
  }
}
