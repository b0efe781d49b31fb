/**
 * The search driver `PatternMiner`
 * (src/nwc_pattern_miner/module/patternminer.py): for every anomalous
 * window w and every lag g from the store's lag down to 0 it forms the
 * interval [w-g, w-g+L), and hands each interval that lies inside the data,
 * crosses no sequence break and was not handed before to the pruning
 * strategy.
 */
module PatternMiners {
  import opened Wrappers
  import opened Subsets
  import Joinsets
  import CandidatePatterns
  import SupportPrunings
  import UBPrunings

  type Interval = (int, int)

  /** Non-decreasing, as `bisect_left` needs its list to be. */
  predicate Sorted(a: seq<int>) {
    forall i, j | 0 <= i < j < |a| :: a[i] <= a[j]
  }

  /** The members of a sequence. */
  function Elems<T>(s: seq<T>): set<T> {
    set x | x in s
  }

  /** Some break index lies strictly inside (start, end): the start itself may be a break. */
  predicate Crosses(invalid: seq<int>, start: int, end: int) {
    exists i | start < i < end :: i in invalid
  }

  /** Inside the n readings and across no break. */
  predicate Admissible(n: int, invalid: seq<int>, start: int, end: int) {
    0 <= start && end <= n && !Crosses(invalid, start, end)
  }

  /** What `_is_valid_seq` decides, given the intervals already visited. */
  predicate ValidSeq(n: int, invalid: seq<int>, visited: set<Interval>, start: int, end: int) {
    Admissible(n, invalid, start, end) && (start, end) !in visited
  }

  /** The intervals tried for the window w: lags `lag, lag-1, .., 0`, i.e. `range(lag, -1, -1)`. */
  function Tries(w: int, lag: int, len: int): seq<Interval>
    decreases lag + 1
  {
    if lag < 0 then [] else [(w - lag, w - lag + len)] + Tries(w, lag - 1, len)
  }

  /** All intervals `mine` tries, window by window in list order. */
  function Intervals(ws: seq<int>, lag: int, len: int): seq<Interval> {
    if |ws| == 0 then []
    else Intervals(ws[..|ws| - 1], lag, len) + Tries(ws[|ws| - 1], lag, len)
  }

  /**
   * The intervals handed to the strategy when the tries cs are made in
   * order, starting from the visited set `visited`: a try is handed when it
   * is valid against the visited set grown by the tries handed before it.
   */
  function Handed(cs: seq<Interval>, visited: set<Interval>, n: int, invalid: seq<int>): seq<Interval> {
    if |cs| == 0 then []
    else
      var h := Handed(cs[..|cs| - 1], visited, n, invalid);
      var c := cs[|cs| - 1];
      if ValidSeq(n, invalid, visited + Elems(h), c.0, c.1) then h + [c] else h
  }

  /** `saved_enumerations`: the strategy returns added up. */
  function Sum(s: seq<int>): int {
    if |s| == 0 then 0 else Sum(s[..|s| - 1]) + s[|s| - 1]
  }

  /** The k-th try for the window w uses the lag `lag - k`. */
  lemma {:induction false} TriesAt(w: int, lag: int, len: int, k: nat)
    requires k < Joinsets.Width(lag)
    ensures |Tries(w, lag, len)| == Joinsets.Width(lag) && lag - k >= 0
    ensures Tries(w, lag, len)[k] == (w - (lag - k), w - (lag - k) + len)
    decreases lag + 1
  {
    if k > 0 {
      TriesAt(w, lag - 1, len, k - 1);
    } else {
      TriesLength(w, lag, len);
    }
  }

  lemma {:induction false} TriesLength(w: int, lag: int, len: int)
    ensures |Tries(w, lag, len)| == Joinsets.Width(lag)
    decreases lag + 1
  {
    if lag >= 0 {
      TriesLength(w, lag - 1, len);
    }
  }

  /**
   * The tries come window by window in list order: the k-th try of the i-th
   * window sits at position i * (lag + 1) + k.
   */
  lemma {:induction false} IntervalsAt(ws: seq<int>, lag: int, len: int, i: nat, k: nat)
    requires i < |ws| && k < Joinsets.Width(lag)
    ensures |Intervals(ws, lag, len)| == |ws| * Joinsets.Width(lag) && i * Joinsets.Width(lag) + k < |ws| * Joinsets.Width(lag)
    ensures Intervals(ws, lag, len)[i * Joinsets.Width(lag) + k] == (ws[i] - (lag - k), ws[i] - (lag - k) + len)
  {
    var width := Joinsets.Width(lag);
    var front := ws[..|ws| - 1];
    IntervalsLength(ws, lag, len);
    IntervalsLength(front, lag, len);
    PositionBelow(i, k, |ws|, width);
    if i == |ws| - 1 {
      TriesAt(ws[i], lag, len, k);
    } else {
      IntervalsAt(front, lag, len, i, k);
      assert front[i] == ws[i];
    }
  }

  lemma {:induction false} IntervalsLength(ws: seq<int>, lag: int, len: int)
    ensures |Intervals(ws, lag, len)| == |ws| * Joinsets.Width(lag)
  {
    if |ws| > 0 {
      IntervalsLength(ws[..|ws| - 1], lag, len);
      TriesLength(ws[|ws| - 1], lag, len);
      MulSucc(|ws|, Joinsets.Width(lag));
    }
  }

  lemma MulSucc(n: nat, width: nat)
    requires n > 0
    ensures n * width == (n - 1) * width + width
  {
  }

  lemma PositionBelow(i: nat, k: nat, n: nat, width: nat)
    requires i < n && k < width
    ensures i * width + k < n * width
  {
    assert (i + 1) * width <= n * width;
  }

  /** One more try is handed exactly when it is valid against the visited set grown so far. */
  lemma HandedStep(cs: seq<Interval>, c: Interval, visited: set<Interval>, n: int, invalid: seq<int>)
    ensures var h := Handed(cs, visited, n, invalid);
            Handed(cs + [c], visited, n, invalid) ==
            if ValidSeq(n, invalid, visited + Elems(h), c.0, c.1) then h + [c] else h
  {
    assert (cs + [c])[..|cs|] == cs;
  }

  /** Trying the lag g moves its interval from the tries left to the tries done. */
  lemma TryNext(done: seq<Interval>, w: int, g: int, len: int)
    requires g >= 0
    ensures done + Tries(w, g, len) == (done + [(w - g, w - g + len)]) + Tries(w, g - 1, len)
  {
  }

  lemma ElemsAppend<T>(s: seq<T>, x: T)
    ensures Elems(s + [x]) == Elems(s) + {x}
  {
  }

  /** Every handed interval was tried, is admissible and was not visited at the start. */
  lemma {:induction false} HandedSound(cs: seq<Interval>, visited: set<Interval>, n: int, invalid: seq<int>)
    ensures forall c | c in Handed(cs, visited, n, invalid) ::
              c in cs && Admissible(n, invalid, c.0, c.1) && c !in visited
  {
    if |cs| > 0 {
      HandedSound(cs[..|cs| - 1], visited, n, invalid);
    }
  }

  /** No interval is handed twice. */
  lemma {:induction false} HandedOnce(cs: seq<Interval>, visited: set<Interval>, n: int, invalid: seq<int>)
    ensures NoDup(Handed(cs, visited, n, invalid))
  {
    if |cs| > 0 {
      HandedOnce(cs[..|cs| - 1], visited, n, invalid);
    }
  }

  /** Every admissible try that was not visited at the start is handed. */
  lemma {:induction false} HandedComplete(cs: seq<Interval>, visited: set<Interval>, n: int, invalid: seq<int>)
    ensures forall c | c in cs && Admissible(n, invalid, c.0, c.1) && c !in visited ::
              c in Handed(cs, visited, n, invalid)
  {
    if |cs| > 0 {
      var front := cs[..|cs| - 1];
      HandedComplete(front, visited, n, invalid);
      forall c | c in cs && Admissible(n, invalid, c.0, c.1) && c !in visited
        ensures c in Handed(cs, visited, n, invalid)
      {
        if c !in front {
          assert c == cs[|cs| - 1];
        }
      }
    }
  }

  /**
   * What `mine` hands to the strategy, from the visited set `visited`: every
   * admissible interval among its tries that was not visited, each once.
   */
  lemma MinedExactly(ws: seq<int>, lag: int, len: int, visited: set<Interval>, n: int, invalid: seq<int>)
    ensures NoDup(Handed(Intervals(ws, lag, len), visited, n, invalid))
    ensures forall c :: c in Handed(Intervals(ws, lag, len), visited, n, invalid) <==>
                        c in Intervals(ws, lag, len) && Admissible(n, invalid, c.0, c.1) && c !in visited
  {
    HandedOnce(Intervals(ws, lag, len), visited, n, invalid);
    HandedSound(Intervals(ws, lag, len), visited, n, invalid);
    HandedComplete(Intervals(ws, lag, len), visited, n, invalid);
  }

  /** Making more tries only adds handed intervals at the end. */
  lemma {:induction false} HandedPrefix(cs: seq<Interval>, cs': seq<Interval>, visited: set<Interval>, n: int, invalid: seq<int>)
    requires cs <= cs'
    ensures Handed(cs, visited, n, invalid) <= Handed(cs', visited, n, invalid)
    decreases |cs'|
  {
    if |cs| < |cs'| {
      HandedPrefix(cs, cs'[..|cs'| - 1], visited, n, invalid);
    } else {
      assert cs == cs';
    }
  }

  /** Tries made window by window are a prefix of all tries. */
  lemma {:induction false} IntervalsPrefix(ws: seq<int>, i: nat, lag: int, len: int)
    requires i <= |ws|
    ensures Intervals(ws[..i], lag, len) <= Intervals(ws, lag, len)
    decreases |ws|
  {
    if i < |ws| {
      IntervalsPrefix(ws[..|ws| - 1], i, lag, len);
      assert ws[..|ws| - 1][..i] == ws[..i];
    } else {
      assert ws[..i] == ws;
    }
  }

  /** Each strategy return lies in 0..m-1, so the sum stays within |s| * (m - 1). */
  lemma {:induction false} SumBound(s: seq<int>, m: int)
    requires forall i | 0 <= i < |s| :: 0 <= s[i] < m
    ensures 0 <= Sum(s) <= |s| * (m - 1)
  {
    if |s| > 0 {
      SumBound(s[..|s| - 1], m);
      assert (|s| - 1) * (m - 1) + (m - 1) == |s| * (m - 1);
    }
  }

  /**
   * `bisect_left(a, x)` followed by the membership test of the inner
   * `BinarySearch`: the answer is an index holding x or -1; on a sorted list
   * it is the first index holding x, and -1 exactly when x is absent.
   */
  method BinarySearch(a: seq<int>, x: int) returns (r: int)
    ensures r == -1 || (0 <= r < |a| && a[r] == x)
    ensures Sorted(a) ==> (r == -1 <==> x !in a)
    ensures Sorted(a) && r != -1 ==> forall j | 0 <= j < r :: a[j] < x
  {
    var lo, hi := 0, |a|;
    while lo < hi
      invariant 0 <= lo <= hi <= |a|
      invariant Sorted(a) ==> forall j | 0 <= j < lo :: a[j] < x
      invariant Sorted(a) ==> forall j | hi <= j < |a| :: a[j] >= x
      decreases hi - lo
    {
      var mid := (lo + hi) / 2;
      if a[mid] < x {
        lo := mid + 1;
      } else {
        hi := mid;
      }
    }
    if lo != |a| && a[lo] == x {
      r := lo;
    } else {
      r := -1;
    }
  }

  /**
   * The pruning strategy the miner calls: `SupportPruning` or `UBPruning`,
   * the two implementations of `PruningStrategy`.
   */
  datatype Strategy = Apriori(support: SupportPrunings.SupportPruning) | UpperBound(ub: UBPrunings.UBPruning)
  {
    /** The pattern store the strategy fills. */
    function Store(): CandidatePatterns.EnumeratedPattern {
      match this
      case Apriori(s) => s.enumPatternInst
      case UpperBound(u) => u.enumPatternInst
    }

    /** The number of dimensions of the strategy's lattices. */
    function Dims(): nat {
      match this
      case Apriori(s) => s.numOfDims
      case UpperBound(u) => u.numOfDims
    }

    /** What one call may change: the store, and the UB strategy's singleton counts. */
    function Footprint(): set<object> {
      match this
      case Apriori(s) => {s.enumPatternInst}
      case UpperBound(u) => {u, u.enumPatternInst}
    }

    ghost predicate Valid()
      reads Store()
    {
      match this
      case Apriori(s) => s.Valid()
      case UpperBound(u) => u.Valid()
    }
  }

  /**
   * `pruning_inst.prune_and_enumerate_patterns(start, end)`: whichever
   * strategy it is, the answer is a number of saved enumerations out of the
   * 2^D - 1 lattice nodes.
   */
  method Prune(strategy: Strategy, startIndex: int, endIndex: int) returns (r: Result<int>)
    requires strategy.Valid()
    modifies strategy.Footprint()
    ensures r.Ok? ==> strategy.Valid() && 0 <= r.value < Pow2(strategy.Dims())
  {
    match strategy
    case Apriori(s) =>
      ghost var visits, walked;
      r, visits, walked := s.PruneAndEnumeratePatterns(startIndex, endIndex);
    case UpperBound(u) =>
      ghost var recorded, looks, pruned, top, bottom, stopped, levels, ends;
      r, recorded, looks, pruned, top, bottom, stopped, levels, ends := u.PruneAndEnumeratePatterns(startIndex, endIndex);
  }

  class PatternMiner {
    const patternLength: int
    const numOfDims: nat
    /** The sequence-break indexes. */
    const invalidSeqIndexes: seq<int>
    const enumPatternInst: CandidatePatterns.EnumeratedPattern
    const pruningInst: Strategy
    const lag: int
    const numOfReadings: int
    const anomalousWindows: seq<int>
    var visitedIndexes: set<Interval>

    /** `__init__`: lag, reading count and windows come from the store; nothing visited yet. */
    constructor (patternLength: int, numOfDims: nat, invalidSeqIndexes: seq<int>,
                 enumPatternInst: CandidatePatterns.EnumeratedPattern, pruningInst: Strategy)
      ensures this.patternLength == patternLength && this.numOfDims == numOfDims
      ensures this.invalidSeqIndexes == invalidSeqIndexes && this.enumPatternInst == enumPatternInst
      ensures this.pruningInst == pruningInst && lag == enumPatternInst.lag
      ensures numOfReadings == enumPatternInst.numOfReadings && anomalousWindows == enumPatternInst.anomalousWindows
      ensures visitedIndexes == {}
    {
      this.patternLength := patternLength;
      this.numOfDims := numOfDims;
      this.invalidSeqIndexes := invalidSeqIndexes;
      this.enumPatternInst := enumPatternInst;
      this.pruningInst := pruningInst;
      lag := enumPatternInst.lag;
      numOfReadings := enumPatternInst.numOfReadings;
      anomalousWindows := enumPatternInst.anomalousWindows;
      visitedIndexes := {};
    }

    /**
     * `_is_valid_seq`: an interval that is valid is accepted; on a sorted
     * break list only a valid one is, and whatever the list, an accepted
     * interval lies inside the readings and was not visited.
     */
    method IsValidSeq(startIdx: int, endIdx: int) returns (r: bool)
      ensures ValidSeq(numOfReadings, invalidSeqIndexes, visitedIndexes, startIdx, endIdx) ==> r
      ensures r ==> 0 <= startIdx && endIdx <= numOfReadings && (startIdx, endIdx) !in visitedIndexes
      ensures Sorted(invalidSeqIndexes) && r ==> ValidSeq(numOfReadings, invalidSeqIndexes, visitedIndexes, startIdx, endIdx)
    {
      if startIdx < 0 {
        return false;
      }
      if endIdx > numOfReadings {
        return false;
      }
      if (startIdx, endIdx) in visitedIndexes {
        return false;
      }
      if |invalidSeqIndexes| > 0 {
        var i := startIdx + 1;
        while i < endIdx
          invariant startIdx + 1 <= i
          invariant Sorted(invalidSeqIndexes) ==> forall t | startIdx < t < i :: t !in invalidSeqIndexes
        {
          var found := BinarySearch(invalidSeqIndexes, i);
          if found != -1 {
            assert invalidSeqIndexes[found] == i && i in invalidSeqIndexes;
            assert Crosses(invalidSeqIndexes, startIdx, endIdx);
            return false;
          }
          i := i + 1;
        }
      }
      return true;
    }

    /**
     * One try of `mine`: when `_is_valid_seq` accepts the interval it is
     * added to the visited set and then handed to the strategy.
     */
    method Try(startIdx: int, endIdx: int) returns (handed: bool, saved: Result<int>)
      requires pruningInst.Valid() && Sorted(invalidSeqIndexes)
      modifies this, pruningInst.Footprint()
      ensures handed == ValidSeq(numOfReadings, invalidSeqIndexes, old(visitedIndexes), startIdx, endIdx)
      ensures visitedIndexes == old(visitedIndexes) + (if handed then {(startIdx, endIdx)} else {})
      ensures !handed ==> saved == Ok(0)
      ensures saved.Ok? ==> pruningInst.Valid() && 0 <= saved.value < Pow2(pruningInst.Dims())
    {
      handed := IsValidSeq(startIdx, endIdx);
      if handed {
        visitedIndexes := visitedIndexes + {(startIdx, endIdx)};
        saved := Prune(pruningInst, startIdx, endIdx);
      } else {
        saved := Ok(0);
      }
    }

    /**
     * One try of `mine` with its bookkeeping: the calls made so far are those
     * of the tries `done`, and afterwards those of `done` and this one.
     */
    method Step(startIdx: int, endIdx: int, ghost visited0: set<Interval>, ghost done: seq<Interval>,
                ghost calls0: seq<Interval>, ghost saves0: seq<int>, saved0: int, count0: int)
      returns (r: Result<(int, int)>, ghost calls: seq<Interval>, ghost saves: seq<int>)
      requires pruningInst.Valid() && Sorted(invalidSeqIndexes)
      requires calls0 == Handed(done, visited0, numOfReadings, invalidSeqIndexes)
      requires visitedIndexes == visited0 + Elems(calls0)
      requires count0 == |calls0| == |saves0| && saved0 == Sum(saves0)
      requires forall j | 0 <= j < |saves0| :: 0 <= saves0[j] < Pow2(pruningInst.Dims())
      modifies this, pruningInst.Footprint()
      ensures visitedIndexes == visited0 + Elems(calls)
      ensures calls == Handed(done + [(startIdx, endIdx)], visited0, numOfReadings, invalidSeqIndexes)
      ensures r.Ok? ==> pruningInst.Valid() && r.value == (Sum(saves), |calls|) && |saves| == |calls|
      ensures r.Ok? ==> forall j | 0 <= j < |saves| :: 0 <= saves[j] < Pow2(pruningInst.Dims())
    {
      HandedStep(done, (startIdx, endIdx), visited0, numOfReadings, invalidSeqIndexes);
      calls, saves := calls0, saves0;
      var valid, saved := Try(startIdx, endIdx);
      if !valid {
        return Ok((saved0, count0)), calls, saves;
      }
      ElemsAppend(calls, (startIdx, endIdx));
      calls := calls + [(startIdx, endIdx)];
      if saved.Err? {
        return Err(saved.error), calls, saves;
      }
      saves := saves + [saved.value];
      assert saves[..|saves| - 1] == saves0;
      r := Ok((saved0 + saved.value, count0 + 1));
    }

    /**
     * The inner loop of `mine` for one window: the lags from `lag` down to 0,
     * continuing the calls made for the tries `before`.
     */
    method MineWindow(windowIndex: int, ghost visited0: set<Interval>, ghost before: seq<Interval>,
                      ghost calls0: seq<Interval>, ghost saves0: seq<int>, saved0: int, count0: int)
      returns (r: Result<(int, int)>, ghost calls: seq<Interval>, ghost saves: seq<int>)
      requires pruningInst.Valid() && Sorted(invalidSeqIndexes)
      requires calls0 == Handed(before, visited0, numOfReadings, invalidSeqIndexes)
      requires visitedIndexes == visited0 + Elems(calls0)
      requires count0 == |calls0| == |saves0| && saved0 == Sum(saves0)
      requires forall j | 0 <= j < |saves0| :: 0 <= saves0[j] < Pow2(pruningInst.Dims())
      modifies this, pruningInst.Footprint()
      ensures visitedIndexes == visited0 + Elems(calls)
      ensures calls <= Handed(before + Tries(windowIndex, lag, patternLength), visited0, numOfReadings, invalidSeqIndexes)
      ensures r.Ok? ==> calls == Handed(before + Tries(windowIndex, lag, patternLength), visited0, numOfReadings, invalidSeqIndexes)
      ensures r.Ok? ==> pruningInst.Valid() && r.value == (Sum(saves), |calls|) && |saves| == |calls|
      ensures r.Ok? ==> forall j | 0 <= j < |saves| :: 0 <= saves[j] < Pow2(pruningInst.Dims())
    {
      var savedEnumerations, validSeqCount := saved0, count0;
      calls, saves := calls0, saves0;
      var currentLagVal := lag;
      ghost var done := before;
      while currentLagVal >= 0
        invariant currentLagVal <= lag && (currentLagVal >= -1 || currentLagVal == lag)
        invariant done + Tries(windowIndex, currentLagVal, patternLength) == before + Tries(windowIndex, lag, patternLength)
        invariant calls == Handed(done, visited0, numOfReadings, invalidSeqIndexes)
        invariant visitedIndexes == visited0 + Elems(calls)
        invariant validSeqCount == |calls| == |saves| && savedEnumerations == Sum(saves)
        invariant forall j | 0 <= j < |saves| :: 0 <= saves[j] < Pow2(pruningInst.Dims())
        invariant pruningInst.Valid()
      {
        var startPatternIndex := windowIndex - currentLagVal;
        var endPatternIndex := startPatternIndex + patternLength;
        TryNext(done, windowIndex, currentLagVal, patternLength);
        var step;
        step, calls, saves := Step(startPatternIndex, endPatternIndex, visited0, done, calls, saves,
                                   savedEnumerations, validSeqCount);
        done := done + [(startPatternIndex, endPatternIndex)];
        if step.Err? {
          r := Err(step.error);
          HandedPrefix(done, before + Tries(windowIndex, lag, patternLength), visited0, numOfReadings, invalidSeqIndexes);
          return;
        }
        savedEnumerations, validSeqCount := step.value.0, step.value.1;
        currentLagVal := currentLagVal - 1;
      }
      assert done == before + Tries(windowIndex, lag, patternLength) by {
        assert done + [] == done;
      }
      r := Ok((savedEnumerations, validSeqCount));
    }

    /**
     * `mine`: answers the two numbers it reports, the saved enumerations
     * and `valid_seq_count * (2^D - 1)`. The intervals handed to the strategy
     * (`calls`, with the strategy's answers `saves`) are exactly the valid
     * tries in order, each added to the visited set before its call; when the
     * strategy fails the calls made so far are a prefix of those.
     */
    method Mine() returns (r: Result<(int, int)>, ghost calls: seq<Interval>, ghost saves: seq<int>)
      requires pruningInst.Valid() && Sorted(invalidSeqIndexes)
      modifies this, pruningInst.Footprint()
      ensures visitedIndexes == old(visitedIndexes) + Elems(calls)
      ensures calls <= Handed(Intervals(anomalousWindows, lag, patternLength), old(visitedIndexes), numOfReadings, invalidSeqIndexes)
      ensures r.Ok? ==> calls == Handed(Intervals(anomalousWindows, lag, patternLength), old(visitedIndexes), numOfReadings, invalidSeqIndexes)
      ensures r.Ok? ==> pruningInst.Valid() && |saves| == |calls| &&
                        (forall i | 0 <= i < |saves| :: 0 <= saves[i] < Pow2(pruningInst.Dims()))
      ensures r.Ok? ==> r.value == (Sum(saves), |calls| * (Pow2(numOfDims) - 1))
      ensures r.Ok? && numOfDims == pruningInst.Dims() ==> 0 <= r.value.0 <= r.value.1
    {
      ghost var visited0 := visitedIndexes;
      ghost var ws := anomalousWindows;
      var savedEnumerations := 0;
      var validSeqCount := 0;
      calls, saves := [], [];
      var i := 0;
      while i < |anomalousWindows|
        invariant 0 <= i <= |anomalousWindows|
        invariant calls == Handed(Intervals(ws[..i], lag, patternLength), visited0, numOfReadings, invalidSeqIndexes)
        invariant visitedIndexes == visited0 + Elems(calls)
        invariant validSeqCount == |calls| == |saves| && savedEnumerations == Sum(saves)
        invariant forall j | 0 <= j < |saves| :: 0 <= saves[j] < Pow2(pruningInst.Dims())
        invariant pruningInst.Valid()
      {
        assert ws[..i + 1][..i] == ws[..i];
        var step;
        step, calls, saves := MineWindow(anomalousWindows[i], visited0, Intervals(ws[..i], lag, patternLength),
                                         calls, saves, savedEnumerations, validSeqCount);
        if step.Err? {
          r := Err(step.error);
          IntervalsPrefix(ws, i + 1, lag, patternLength);
          HandedPrefix(Intervals(ws[..i + 1], lag, patternLength), Intervals(ws, lag, patternLength),
                       visited0, numOfReadings, invalidSeqIndexes);
          return;
        }
        savedEnumerations, validSeqCount := step.value.0, step.value.1;
        i := i + 1;
      }
      assert ws[..i] == ws;
      SumBound(saves, Pow2(pruningInst.Dims()));
      r := Ok((savedEnumerations, validSeqCount * (Pow2(numOfDims) - 1)));
    }
  }

}
