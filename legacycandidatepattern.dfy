/**
 * The older `EnumeratedPattern` (module/mining/candidatepattern.py): the
 * same parallel metric lists as the current store, but the patterns are a
 * plain list searched front to back, the lag comes with every call, the
 * join-set counts run over the whole list of anomalous windows, there is no
 * "qualified" flag, and the selection queries range over every pattern.
 */
module LegacyCandidatePatterns {
  import opened Wrappers
  import opened Frames
  import opened Joinsets
  import opened Rankings
  import CandidatePatterns

  /** `list.index`: the first position holding x, or -1 when x is absent. */
  function IndexOf(s: seq<PatternKey>, x: PatternKey): (r: int)
    ensures r == -1 <==> x !in s
    ensures r != -1 ==> 0 <= r < |s| && s[r] == x && forall j | 0 <= j < r :: s[j] != x
  {
    if |s| == 0 then -1
    else if s[0] == x then 0
    else
      var r := IndexOf(s[1..], x);
      if r == -1 then -1 else r + 1
  }

  /**
   * One stored pattern's entries are what `enumerate_pattern` records for
   * its occurrences at its lag, every count taken against the whole list w.
   */
  ghost predicate Recorded(w: seq<int>, readings: int, crosskConst: real, lag: int,
                           occ: seq<nat>, count: nat, joinset: nat, unique: nat,
                           support: real, confidence: real, crossk: real)
  {
    count == |occ| > 0 && readings != 0 &&
    joinset == FullJoinset(w, lag, occ) && unique == FullUnique(w, lag, occ) &&
    confidence == CandidatePatterns.Ratio(unique, count) && support == CandidatePatterns.Ratio(joinset, readings) &&
    crossk == CandidatePatterns.CrossK(crosskConst, joinset, count)
  }

  /** The store's lists as one value, with the lag each pattern was enumerated at. */
  datatype Entries = Entries(patterns: seq<PatternKey>, occurrences: seq<seq<nat>>, patternCount: seq<nat>,
                             joinsets: seq<nat>, uniques: seq<nat>, support: seq<real>, confidence: seq<real>,
                             crossk: seq<real>, lags: seq<int>)

  /** The lists all as long as the pattern list, the patterns distinct, each entry recorded. */
  ghost predicate Consistent(w: seq<int>, readings: int, crosskConst: real, s: Entries) {
    var n := |s.patterns|;
    |s.occurrences| == n && |s.patternCount| == n && |s.joinsets| == n && |s.uniques| == n &&
    |s.support| == n && |s.confidence| == n && |s.crossk| == n && |s.lags| == n && NoDup(s.patterns) &&
    forall i | 0 <= i < n ::
      Recorded(w, readings, crosskConst, s.lags[i], s.occurrences[i], s.patternCount[i], s.joinsets[i],
               s.uniques[i], s.support[i], s.confidence[i], s.crossk[i])
  }

  /** `self._patterns.append(pattern_str)`, remembering the lag of the call. */
  function Appended(s: Entries, key: PatternKey, lag: int): Entries {
    s.(patterns := s.patterns + [key], lags := s.lags + [lag])
  }

  /** `fill_pattern_counts`. */
  function Counted(s: Entries, occ: seq<nat>): Entries {
    s.(occurrences := s.occurrences + [occ], patternCount := s.patternCount + [|occ|])
  }

  /** `fill_pattern_joinsets`. */
  function Joined(w: seq<int>, lag: int, s: Entries, occ: seq<nat>): Entries {
    s.(joinsets := s.joinsets + [FullJoinset(w, lag, occ)], uniques := s.uniques + [FullUnique(w, lag, occ)])
  }

  /**
   * `fill_pattern_metrics` from the last entries: a zero count raises before
   * the confidence is appended, zero readings after it and before the support.
   */
  function Measured(readings: int, crosskConst: real, s: Entries): (Entries, Result<()>)
    requires |s.patternCount| > 0 && |s.joinsets| > 0 && |s.uniques| > 0
  {
    var count, j, u := s.patternCount[|s.patternCount| - 1], s.joinsets[|s.joinsets| - 1], s.uniques[|s.uniques| - 1];
    if count == 0 then (s, Err(ZeroDivisionError))
    else
      var s' := s.(confidence := s.confidence + [CandidatePatterns.Ratio(u, count)]);
      if readings == 0 then (s', Err(ZeroDivisionError))
      else (s'.(support := s.support + [CandidatePatterns.Ratio(j, readings)],
                crossk := s.crossk + [CandidatePatterns.CrossK(crosskConst, j, count)]), Ok(()))
  }

  /** `enumerate_pattern` on a key not yet stored: the steps in order. */
  function Onboarded(w: seq<int>, readings: int, crosskConst: real, s: Entries,
                     key: PatternKey, occ: seq<nat>, lag: int): (Entries, Result<()>)
  {
    Measured(readings, crosskConst, Joined(w, lag, Counted(Appended(s, key, lag), occ), occ))
  }

  /**
   * Measuring raises exactly on a zero last count or zero readings; the
   * confidence is appended once the count is known to be non-zero.
   */
  lemma MeasuredAppends(readings: int, crosskConst: real, s: Entries)
    requires |s.patternCount| > 0 && |s.joinsets| > 0 && |s.uniques| > 0
    ensures var (t, r) := Measured(readings, crosskConst, s);
            var count, j, u := s.patternCount[|s.patternCount| - 1], s.joinsets[|s.joinsets| - 1], s.uniques[|s.uniques| - 1];
            (r.Err? <==> count == 0 || readings == 0) && (r.Err? ==> r.error == ZeroDivisionError) &&
            t == s.(confidence := t.confidence, support := t.support, crossk := t.crossk) &&
            t.confidence == s.confidence + (if count > 0 then [CandidatePatterns.Ratio(u, count)] else []) &&
            t.support == s.support + (if r.Ok? then [CandidatePatterns.Ratio(j, readings)] else []) &&
            t.crossk == s.crossk + (if r.Ok? then [CandidatePatterns.CrossK(crosskConst, j, count)] else [])
  {
  }

  /**
   * Onboarding raises exactly on an empty occurrence list or zero readings;
   * the key, its occurrences and its counts are appended either way, the
   * metrics only as far as the divisions got.
   */
  lemma OnboardedAppends(w: seq<int>, readings: int, crosskConst: real, s: Entries,
                         key: PatternKey, occ: seq<nat>, lag: int)
    ensures var (t, r) := Onboarded(w, readings, crosskConst, s, key, occ, lag);
            (r.Err? <==> |occ| == 0 || readings == 0) && (r.Err? ==> r.error == ZeroDivisionError) &&
            t.patterns == s.patterns + [key] && t.lags == s.lags + [lag] &&
            t.occurrences == s.occurrences + [occ] && t.patternCount == s.patternCount + [|occ|] &&
            t.joinsets == s.joinsets + [FullJoinset(w, lag, occ)] && t.uniques == s.uniques + [FullUnique(w, lag, occ)] &&
            t.confidence == s.confidence + (if |occ| > 0 then [CandidatePatterns.Ratio(FullUnique(w, lag, occ), |occ|)] else []) &&
            t.support == s.support + (if r.Ok? then [CandidatePatterns.Ratio(FullJoinset(w, lag, occ), readings)] else []) &&
            t.crossk == s.crossk + (if r.Ok? then [CandidatePatterns.CrossK(crosskConst, FullJoinset(w, lag, occ), |occ|)] else [])
  {
    var joined := Joined(w, lag, Counted(Appended(s, key, lag), occ), occ);
    MeasuredAppends(readings, crosskConst, joined);
    assert joined.patternCount[|joined.patternCount| - 1] == |occ|;
    assert joined.joinsets[|joined.joinsets| - 1] == FullJoinset(w, lag, occ);
    assert joined.uniques[|joined.uniques| - 1] == FullUnique(w, lag, occ);
  }

  /** Onboarding a new key with occurrences, over non-zero readings, keeps a consistent store consistent. */
  lemma ConsistentOnboard(w: seq<int>, readings: int, crosskConst: real, s: Entries,
                          key: PatternKey, occ: seq<nat>, lag: int)
    requires Consistent(w, readings, crosskConst, s) && key !in s.patterns
    requires Onboarded(w, readings, crosskConst, s, key, occ, lag).1.Ok?
    ensures Consistent(w, readings, crosskConst, Onboarded(w, readings, crosskConst, s, key, occ, lag).0)
  {
    OnboardedAppends(w, readings, crosskConst, s, key, occ, lag);
  }

  /** `joinset_count` and `unique_joinset_count` as `fill_pattern_joinsets` accumulates them. */
  method CountJoinsets(w: seq<int>, lag: int, occ: seq<nat>) returns (joinsetCount: nat, uniqueCount: nat)
    ensures joinsetCount == FullJoinset(w, lag, occ) && uniqueCount == FullUnique(w, lag, occ)
  {
    joinsetCount, uniqueCount := 0, 0;
    for i := 0 to |occ|
      invariant joinsetCount == FullJoinset(w, lag, occ[..i])
      invariant uniqueCount == FullUnique(w, lag, occ[..i])
    {
      var numOfIntersections := RangeHits(occ[i], Width(lag), w);
      if numOfIntersections > 0 {
        joinsetCount := joinsetCount + numOfIntersections;
        uniqueCount := uniqueCount + 1;
      }
      assert occ[..i + 1][..i] == occ[..i];
    }
    assert occ[..|occ|] == occ;
  }

  /** `[patterns[i] for i in range(n) if i in indexes]` over the first n patterns. */
  function Pick(keys: seq<PatternKey>, indexes: seq<int>, n: nat): (r: seq<PatternKey>)
    requires n <= |keys|
    ensures |r| <= n
    ensures forall key :: key in r <==> exists i | 0 <= i < n && i in indexes :: keys[i] == key
  {
    if n == 0 then []
    else Pick(keys, indexes, n - 1) + (if n - 1 in indexes then [keys[n - 1]] else [])
  }

  /** The keys at the given in-range positions, in the order given. */
  function KeysAt(keys: seq<PatternKey>, indexes: seq<int>): (r: seq<PatternKey>)
    requires forall j | 0 <= j < |indexes| :: 0 <= indexes[j] < |keys|
    ensures |r| == |indexes|
  {
    if |indexes| == 0 then []
    else KeysAt(keys, indexes[..|indexes| - 1]) + [keys[indexes[|indexes| - 1]]]
  }

  /** Two index lists that ask for the same positions below n pick the same keys. */
  lemma {:induction false} PickAgree(keys: seq<PatternKey>, indexes: seq<int>, indexes': seq<int>, n: nat)
    requires n <= |keys| && forall i | 0 <= i < n :: i in indexes <==> i in indexes'
    ensures Pick(keys, indexes, n) == Pick(keys, indexes', n)
  {
    if n > 0 {
      PickAgree(keys, indexes, indexes', n - 1);
    }
  }

  /** Asking for ascending positions below n picks the keys there, in that order. */
  lemma {:induction false} PickAscending(keys: seq<PatternKey>, indexes: seq<int>, n: nat)
    requires n <= |keys| && forall j | 0 <= j < |indexes| :: 0 <= indexes[j] < n
    requires forall a, b | 0 <= a < b < |indexes| :: indexes[a] < indexes[b]
    ensures Pick(keys, indexes, n) == KeysAt(keys, indexes)
  {
    var last := if |indexes| > 0 then indexes[|indexes| - 1] else -1;
    if |indexes| > 0 && last == n - 1 {
      var front := indexes[..|indexes| - 1];
      forall i | 0 <= i < n - 1 ensures i in indexes <==> i in front {
        if i in indexes {
          var j :| 0 <= j < |indexes| && indexes[j] == i;
          assert j != |indexes| - 1;
          assert indexes[j] == front[j];
        }
      }
      PickAgree(keys, indexes, front, n - 1);
      PickAscending(keys, front, n - 1);
    } else if n > 0 {
      forall j | 0 <= j < |indexes| ensures indexes[j] < n - 1 {
        if j < |indexes| - 1 {
          assert indexes[j] < last;
        }
      }
      assert n - 1 !in indexes;
      PickAscending(keys, indexes, n - 1);
    }
  }

  class EnumeratedPattern {
    const numOfReadings: int
    const anomalousWindows: seq<int>
    const crosskConst: real

    var patterns: seq<PatternKey>
    var occurrences: seq<seq<nat>>
    var patternCount: seq<nat>
    var joinsetCardinality: seq<nat>
    var uniqueJoinsetCardinality: seq<nat>
    var support: seq<real>
    var confidence: seq<real>
    var crossk: seq<real>
    /** The lag each pattern was enumerated at; the store itself does not keep it. */
    ghost var lags: seq<int>

    /** The fields as one value. */
    ghost function Contents(): Entries
      reads this
    {
      Entries(patterns, occurrences, patternCount, joinsetCardinality, uniqueJoinsetCardinality,
              support, confidence, crossk, lags)
    }

    /** `crossk_const` comes from the windows, and the lists are consistent. */
    ghost predicate Valid()
      reads this
    {
      |anomalousWindows| > 0 && crosskConst == CandidatePatterns.Ratio(numOfReadings, |anomalousWindows|) &&
      Consistent(anomalousWindows, numOfReadings, crosskConst, Contents())
    }

    /** `__init__`: an empty store; `len(anomalous_windows)` must be non-zero for `crossk_const`. */
    constructor (anomalousWindows: seq<int>, numOfReadings: int)
      requires |anomalousWindows| > 0
      ensures Valid()
      ensures this.anomalousWindows == anomalousWindows && this.numOfReadings == numOfReadings
      ensures Contents() == Entries([], [], [], [], [], [], [], [], [])
    {
      this.numOfReadings := numOfReadings;
      this.anomalousWindows := anomalousWindows;
      crosskConst := CandidatePatterns.Ratio(numOfReadings, |anomalousWindows|);
      patterns, occurrences, patternCount := [], [], [];
      joinsetCardinality, uniqueJoinsetCardinality := [], [];
      support, confidence, crossk := [], [], [];
      lags := [];
    }

    /** `find_pattern`: the key's first position in append order, or -1 when it was never enumerated. */
    function FindPattern(key: PatternKey): (r: int)
      reads this
      ensures r == -1 <==> key !in patterns
      ensures r != -1 ==> 0 <= r < |patterns| && patterns[r] == key && forall j | 0 <= j < r :: patterns[j] != key
    {
      if key in patterns then IndexOf(patterns, key) else -1
    }

    /**
     * `enumerate_pattern`: a stored key changes nothing; a new key is
     * appended with its counts and metrics at the lag of this call. A
     * ZeroDivisionError leaves the lists as the steps before it left them.
     */
    method EnumeratePattern(key: PatternKey, occ: seq<nat>, lag: int) returns (r: Result<()>)
      requires Valid()
      modifies this
      ensures key in old(patterns) ==> r.Ok? && unchanged(this)
      ensures key !in old(patterns) ==>
                (Contents(), r) == Onboarded(anomalousWindows, numOfReadings, crosskConst, old(Contents()), key, occ, lag)
      ensures r.Ok? ==> Valid() && FindPattern(key) == (if key in old(patterns) then old(FindPattern(key)) else |old(patterns)|)
    {
      if FindPattern(key) != -1 {
        return Ok(());
      }
      ghost var s := Contents();
      patterns, lags := patterns + [key], lags + [lag];
      assert Contents() == Appended(s, key, lag);
      FillPatternCounts(occ);
      FillPatternJoinsets(occ, lag);
      r := FillPatternMetrics();
      if r.Ok? {
        ConsistentOnboard(anomalousWindows, numOfReadings, crosskConst, s, key, occ, lag);
        assert patterns[|s.patterns|] == key;
      }
    }

    /** `fill_pattern_counts`. */
    method FillPatternCounts(occ: seq<nat>)
      modifies this`occurrences, this`patternCount
      ensures Contents() == Counted(old(Contents()), occ)
    {
      occurrences := occurrences + [occ];
      patternCount := patternCount + [|occ|];
    }

    /** `fill_pattern_joinsets`: counts the occurrences against every anomalous window. */
    method FillPatternJoinsets(occ: seq<nat>, lag: int)
      modifies this`joinsetCardinality, this`uniqueJoinsetCardinality
      ensures Contents() == Joined(anomalousWindows, lag, old(Contents()), occ)
    {
      var joinsetCount, uniqueCount := CountJoinsets(anomalousWindows, lag, occ);
      joinsetCardinality := joinsetCardinality + [joinsetCount];
      uniqueJoinsetCardinality := uniqueJoinsetCardinality + [uniqueCount];
    }

    /** `fill_pattern_metrics` on the last entry. */
    method FillPatternMetrics() returns (r: Result<()>)
      requires |patternCount| > 0 && |joinsetCardinality| > 0 && |uniqueJoinsetCardinality| > 0
      modifies this`confidence, this`support, this`crossk
      ensures (Contents(), r) == Measured(numOfReadings, crosskConst, old(Contents()))
    {
      var count := patternCount[|patternCount| - 1];
      var joinsetCount := joinsetCardinality[|joinsetCardinality| - 1];
      var uniqueCount := uniqueJoinsetCardinality[|uniqueJoinsetCardinality| - 1];
      if count == 0 {
        return Err(ZeroDivisionError);
      }
      confidence := confidence + [CandidatePatterns.Ratio(uniqueCount, count)];
      if numOfReadings == 0 {
        return Err(ZeroDivisionError);
      }
      support := support + [CandidatePatterns.Ratio(joinsetCount, numOfReadings)];
      var crosskVar := CandidatePatterns.Ratio(joinsetCount, count);
      crossk := crossk + [crosskConst * crosskVar];
      r := Ok(());
      assert crosskConst * crosskVar == CandidatePatterns.CrossK(crosskConst, joinsetCount, count);
    }

    /** `_get_metric_values`: the list of the named metric; any other name raises. */
    function GetMetricValues(metric: string): (r: Result<seq<real>>)
      reads this
      ensures r.Err? <==> metric !in CandidatePatterns.MetricNames
      ensures r.Err? ==> r.error == InvalidMetric
      ensures Valid() && r.Ok? ==> |r.value| == |patterns|
    {
      if metric == "crossk" then Ok(crossk)
      else if metric == "confidence" then Ok(confidence)
      else if metric == "support" then Ok(support)
      else Err(InvalidMetric)
    }

    /**
     * `is_above_threshold`: whether the metric at the given (Python) index
     * reaches the threshold; nothing is recorded. An unknown metric raises
     * first, then a bad index.
     */
    function IsAboveThreshold(patternIndex: int, metric: string, threshold: real): (r: Result<bool>)
      reads this
      requires Valid()
      ensures metric !in CandidatePatterns.MetricNames ==> r == Err(InvalidMetric)
      ensures metric in CandidatePatterns.MetricNames && PyIndex(patternIndex, |patterns|).None? ==> r == Err(IndexError)
      ensures metric in CandidatePatterns.MetricNames && PyIndex(patternIndex, |patterns|).Some? ==>
                r == Ok(GetMetricValues(metric).value[PyIndex(patternIndex, |patterns|).value] >= threshold)
    {
      var metricValues := GetMetricValues(metric);
      if metricValues.Err? then Err(metricValues.error)
      else
        var p := PyIndex(patternIndex, |metricValues.value|);
        if p.None? then Err(IndexError) else Ok(metricValues.value[p.value] >= threshold)
    }

    /**
     * `get_pattern_indexes`: among all patterns, the top k by the metric or
     * those reaching the threshold; an unknown metric raises before the
     * parameters are looked at.
     */
    function GetPatternIndexes(metric: string, kind: string, k: int, threshold: real): (r: Result<seq<nat>>)
      reads this
      requires Valid()
      ensures r.Err? <==> metric !in CandidatePatterns.MetricNames ||
                          (!(kind == "topk" && k != -1) && !(kind == "threshold" && threshold != -1.0))
      ensures r.Err? ==> r.error == (if metric in CandidatePatterns.MetricNames then WrongParameters else InvalidMetric)
      ensures r.Ok? ==> forall i | 0 <= i < |r.value| :: r.value[i] < |patterns|
    {
      var metricValues := GetMetricValues(metric);
      if metricValues.Err? then Err(metricValues.error)
      else SelectIndexes(metricValues.value, Indexes(|metricValues.value|), kind, k, threshold)
    }

    /**
     * `get_patterns`: the stored keys whose position is asked for, in stored
     * order; positions outside the store are ignored.
     */
    function GetPatterns(patternIndexes: seq<int>): (r: seq<PatternKey>)
      reads this
      ensures |r| <= |patterns|
      ensures forall key :: key in r <==> exists i | 0 <= i < |patterns| && i in patternIndexes :: patterns[i] == key
    {
      Pick(patterns, patternIndexes, |patterns|)
    }
  }

  /**
   * `EnumeratedPattern(anomalous_windows, num_of_readings)` as a call that
   * can raise: an empty window list makes `crossk_const` divide by zero;
   * otherwise the store starts empty.
   */
  method NewEnumeratedPattern(anomalousWindows: seq<int>, numOfReadings: int) returns (r: Result<EnumeratedPattern>)
    ensures r.Err? <==> |anomalousWindows| == 0
    ensures r.Err? ==> r.error == ZeroDivisionError
    ensures r.Ok? ==> fresh(r.value) && r.value.Valid() && r.value.anomalousWindows == anomalousWindows &&
                      r.value.numOfReadings == numOfReadings &&
                      r.value.crosskConst == CandidatePatterns.Ratio(numOfReadings, |anomalousWindows|) &&
                      r.value.Contents() == Entries([], [], [], [], [], [], [], [], [])
  {
    if |anomalousWindows| == 0 {
      return Err(ZeroDivisionError);
    }
    var p := new EnumeratedPattern(anomalousWindows, numOfReadings);
    r := Ok(p);
  }

  /**
   * Each stored entry is what the formulas give for its occurrences at its
   * lag, counted against the whole window list: count = |O| > 0,
   * support = joinset/N, confidence = unique/count, cross-K = (N/|W|) * joinset/count.
   */
  lemma StoredMetrics(p: EnumeratedPattern, i: int)
    requires p.Valid() && 0 <= i < |p.patterns|
    ensures var occ, lag, j, u := p.occurrences[i], p.lags[i], p.joinsetCardinality[i], p.uniqueJoinsetCardinality[i];
            p.patternCount[i] == |occ| > 0 &&
            j == FullJoinset(p.anomalousWindows, lag, occ) && u == FullUnique(p.anomalousWindows, lag, occ) &&
            p.support[i] == CandidatePatterns.Ratio(j, p.numOfReadings) && p.confidence[i] == CandidatePatterns.Ratio(u, |occ|) &&
            p.crossk[i] == CandidatePatterns.Ratio(p.numOfReadings, |p.anomalousWindows|) * CandidatePatterns.Ratio(j, |occ|)
  {
  }

  /** Hence unique <= count, unique <= joinset <= (lag+1) * unique, and 0 <= confidence <= 1. */
  lemma StoredBounds(p: EnumeratedPattern, i: int)
    requires p.Valid() && 0 <= i < |p.patterns|
    ensures var count, j, u := p.patternCount[i], p.joinsetCardinality[i], p.uniqueJoinsetCardinality[i];
            u <= count && u <= j <= Width(p.lags[i]) * u && 0.0 <= p.confidence[i] <= 1.0
  {
    var occ := p.occurrences[i];
    assert Recorded(p.anomalousWindows, p.numOfReadings, p.crosskConst, p.lags[i], occ, p.patternCount[i],
                    p.joinsetCardinality[i], p.uniqueJoinsetCardinality[i], p.support[i], p.confidence[i], p.crossk[i]);
    FullBounds(p.anomalousWindows, p.lags[i], occ);
    CandidatePatterns.RatioUnit(FullUnique(p.anomalousWindows, p.lags[i], occ), |occ|);
  }

  /**
   * Top-k over a known metric: the indexes come in ranking order, none
   * twice, `[:k]` of all patterns, and every pattern left out ranks after
   * every pattern kept.
   */
  lemma TopKPatterns(p: EnumeratedPattern, metric: string, k: int)
    requires p.Valid() && metric in CandidatePatterns.MetricNames && k != -1
    ensures var values, r := p.GetMetricValues(metric).value, p.GetPatternIndexes(metric, "topk", k, -1.0);
            var all := Indexes(|p.patterns|);
            r.Ok? && RankedOrder(values, r.value) && NoDup(r.value) && |r.value| == |PyPrefix(all, k)| &&
            (forall x :: x in r.value ==> x < |p.patterns|) &&
            forall c, x | 0 <= c < |p.patterns| && c !in r.value && x in r.value :: Before(values, x, c)
  {
    var values := p.GetMetricValues(metric).value;
    var all := Indexes(|values|);
    TopK(values, all, k);
    forall c | 0 <= c < |p.patterns| ensures c in all {
      assert all[c] == c;
    }
  }

  /** Threshold mode over a known metric: exactly the patterns whose value reaches it, ascending. */
  lemma ThresholdPatterns(p: EnumeratedPattern, metric: string, threshold: real)
    requires p.Valid() && metric in CandidatePatterns.MetricNames && threshold != -1.0
    ensures var values, r := p.GetMetricValues(metric).value, p.GetPatternIndexes(metric, "threshold", 0, threshold);
            r.Ok? &&
            (forall x: int :: x in r.value <==> 0 <= x < |p.patterns| && values[x] >= threshold) &&
            forall a, b | 0 <= a < b < |r.value| :: r.value[a] < r.value[b]
  {
    var values := p.GetMetricValues(metric).value;
    var all := Indexes(|values|);
    forall x: int | 0 <= x < |values| ensures x in all {
      assert all[x] == x;
    }
  }

  /** The order and repetition of the asked positions do not matter. */
  lemma PatternsOrderFree(p: EnumeratedPattern, indexes: seq<int>, indexes': seq<int>)
    requires forall i :: i in indexes <==> i in indexes'
    ensures p.GetPatterns(indexes) == p.GetPatterns(indexes')
  {
    PickAgree(p.patterns, indexes, indexes', |p.patterns|);
  }

  /** Asking for ascending stored positions gives back the keys there, one for one. */
  lemma PatternsAscending(p: EnumeratedPattern, indexes: seq<int>)
    requires forall j | 0 <= j < |indexes| :: 0 <= indexes[j] < |p.patterns|
    requires forall a, b | 0 <= a < b < |indexes| :: indexes[a] < indexes[b]
    ensures p.GetPatterns(indexes) == KeysAt(p.patterns, indexes)
  {
    PickAscending(p.patterns, indexes, |p.patterns|);
  }

  /** Looking a stored key up and asking for its position back returns the key. */
  lemma PatternsRoundTrip(p: EnumeratedPattern, key: PatternKey)
    requires key in p.patterns
    ensures p.GetPatterns([p.FindPattern(key)]) == [key]
  {
    PatternsAscending(p, [p.FindPattern(key)]);
    assert KeysAt(p.patterns, [p.FindPattern(key)]) == [p.patterns[p.FindPattern(key)]];
  }
}
