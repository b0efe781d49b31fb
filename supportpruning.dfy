/**
 * The Apriori pruning strategy (`SupportPruning` of
 * src/nwc_pattern_miner/module/pruning/support_pruning.py): a fresh lattice
 * over the dimensions is walked from the singletons up, one depth at a time;
 * every node not pruned yet has its pattern window looked up and, if new,
 * enumerated, and a node whose support falls below the threshold prunes all
 * its supersets. A depth where every node was pruned or fell below the
 * threshold ends the walk.
 */
module SupportPrunings {
  import opened Wrappers
  import opened Frames
  import opened Subsets
  import opened PruneWalks
  import LatticeLists
  import opened LatticeGraphs
  import opened StateGraphs
  import opened CandidatePatterns

  /** `prune_type`: a node below the threshold prunes its supersets. */
  const PruneType: string := "parents"

  /** `threshold_metric`. */
  const ThresholdMetric: string := "support"

  /**
   * A node the walk looked at: its dimensions, its pattern window, whether
   * the window was new to the store, and whether its support reached the
   * threshold.
   */
  datatype Visit = Visit(dims: seq<nat>, key: PatternKey, isNew: bool, above: bool)

  /** The windows the walk enumerated, in visiting order. */
  function NewKeys(visits: seq<Visit>): (r: seq<PatternKey>)
    ensures |r| <= |visits|
  {
    if |visits| == 0 then []
    else NewKeys(visits[..|visits| - 1]) + (if visits[|visits| - 1].isNew then [visits[|visits| - 1].key] else [])
  }

  /** The occurrences the index holding m gives for a window, none when it raises. */
  function Found(m: SeqMap, key: PatternKey): seq<nat> {
    if Occurrences(m, key).Ok? then Occurrences(m, key).value else []
  }

  /** The occurrences of the windows the walk enumerated, in visiting order, when the index holds m. */
  function NewOccurrences(m: SeqMap, visits: seq<Visit>): (r: seq<seq<nat>>)
    ensures |r| == |NewKeys(visits)|
  {
    if |visits| == 0 then []
    else NewOccurrences(m, visits[..|visits| - 1]) + (if visits[|visits| - 1].isNew then [Found(m, visits[|visits| - 1].key)] else [])
  }

  /** The windows of all the visits, in visiting order. */
  function VisitedKeys(visits: seq<Visit>): (r: seq<PatternKey>)
    ensures |r| == |visits|
  {
    if |visits| == 0 then [] else VisitedKeys(visits[..|visits| - 1]) + [visits[|visits| - 1].key]
  }

  /** The store s' keeps every entry of s in place; only flags may change, and the lists only grow. */
  ghost predicate Kept(s: Lists, s': Lists) {
    s.n <= s'.n && s.keys <= s'.keys && s.occurrences <= s'.occurrences && s.patternCount <= s'.patternCount &&
    s.joinsets <= s'.joinsets && s.uniques <= s'.uniques && s.support <= s'.support &&
    s.confidence <= s'.confidence && s.crossk <= s'.crossk && |s.above| <= |s'.above| &&
    forall key | key in s.patterns :: key in s'.patterns && s'.patterns[key] == s.patterns[key]
  }

  /** The window `key` is stored, and `above` is both its support test and its flag. */
  ghost predicate Judged(s: Lists, key: PatternKey, above: bool, thr: real) {
    key in s.patterns && s.patterns[key] < |s.keys| && s.keys[s.patterns[key]] == key &&
    s.patterns[key] < |s.support| && s.patterns[key] < |s.above| &&
    above == (s.support[s.patterns[key]] >= thr) && s.above[s.patterns[key]] == above
  }

  /**
   * One node's evaluation took the store from s to s': the window is new
   * exactly when it was not stored, a new window was appended with the
   * occurrences `found` gave for it, the window's flag is its support test,
   * and every other flag is as it was.
   */
  ghost predicate Evaluated(s: Lists, s': Lists, key: PatternKey, found: Result<seq<nat>>, isNew: bool, above: bool, thr: real) {
    Kept(s, s') && Judged(s', key, above, thr) &&
    (isNew <==> key !in s.keys) &&
    s'.keys == s.keys + (if isNew then [key] else []) &&
    (isNew ==> found.Ok? && s'.occurrences == s.occurrences + [found.value]) &&
    (!isNew ==> s'.occurrences == s.occurrences) &&
    forall i | 0 <= i < |s.above| && i < |s.keys| && s.keys[i] != key :: s'.above[i] == s.above[i]
  }

  /**
   * A walk with the given visits, the index holding m, took the store from
   * s0 to s: the stored entries were kept, the new windows appended in
   * visiting order with the occurrences the index gives for them, every
   * visited window judged, and the flag of every window not visited left as
   * it was.
   */
  ghost predicate Grown(s0: Lists, s: Lists, visits: seq<Visit>, thr: real, m: SeqMap) {
    Kept(s0, s) && Appended(s0, s, visits, m) &&
    (forall i | 0 <= i < |visits| :: Judged(s, visits[i].key, visits[i].above, thr)) &&
    forall i | 0 <= i < |s0.above| && i < |s0.keys| && s0.keys[i] !in VisitedKeys(visits) :: s.above[i] == s0.above[i]
  }

  /**
   * The store s holds the windows of s0 followed by those the visits
   * enumerated, each with the occurrences the index holding m gives for it.
   */
  ghost predicate Appended(s0: Lists, s: Lists, visits: seq<Visit>, m: SeqMap) {
    s.keys == s0.keys + NewKeys(visits) && s.occurrences == s0.occurrences + NewOccurrences(m, visits) &&
    forall i | 0 <= i < |visits| && visits[i].isNew :: Occurrences(m, visits[i].key).Ok?
  }

  /** A visit whose new window was appended with its occurrences, or which left both lists alone, extends them. */
  lemma AppendedStep(s0: Lists, s: Lists, s': Lists, visits: seq<Visit>, v: Visit, m: SeqMap)
    requires Appended(s0, s, visits, m)
    requires v.isNew ==> Occurrences(m, v.key).Ok? && s'.keys == s.keys + [v.key] &&
                         s'.occurrences == s.occurrences + [Occurrences(m, v.key).value]
    requires !v.isNew ==> s'.keys == s.keys && s'.occurrences == s.occurrences
    ensures Appended(s0, s', visits + [v], m)
  {
    var vs := visits + [v];
    assert vs[..|vs| - 1] == visits;
    assert vs[|visits|] == v;
  }

  /**
   * The order of the walk: only lattice keys, by non-decreasing size, no node
   * twice, and never a superset of a node that fell below the threshold.
   */
  ghost predicate Explored(d: nat, visits: seq<Visit>) {
    (forall i | 0 <= i < |visits| :: IsKey(d, visits[i].dims)) &&
    (forall i, j | 0 <= i < j < |visits| :: |visits[i].dims| <= |visits[j].dims| && visits[i].dims != visits[j].dims) &&
    forall i, j | 0 <= i < j < |visits| && !visits[i].above :: !Contains(visits[j].dims, visits[i].dims)
  }

  /** Node k was visited. */
  ghost predicate Seen(visits: seq<Visit>, k: seq<nat>) {
    exists i | 0 <= i < |visits| :: visits[i].dims == k
  }

  /** Node k is a lattice superset of a visit that fell below the threshold: the walk prunes it. */
  ghost predicate Covered(d: nat, visits: seq<Visit>, k: seq<nat>) {
    exists i | 0 <= i < |visits| :: !visits[i].above && Toward(d, Parents, visits[i].dims, k)
  }

  /** Some visit of a node with s dimensions reached the threshold. */
  ghost predicate PassedAt(visits: seq<Visit>, s: int) {
    exists i | 0 <= i < |visits| :: |visits[i].dims| == s && visits[i].above
  }

  /**
   * The pruned set p is closed under supersets and is exactly the nodes
   * covered by the visits that fell below the threshold.
   */
  ghost predicate Blocked(d: nat, p: set<seq<nat>>, visits: seq<Visit>) {
    Closed(d, Parents, p) && forall k :: k in p <==> Covered(d, visits, k)
  }

  /** The nodes looked at are exactly the keys with at most `size` dimensions. */
  ghost predicate Swept(keys: set<seq<nat>>, done: set<seq<nat>>, size: int) {
    (forall k | k in done :: |k| <= size) && (forall k | k in keys && |k| <= size :: k in done)
  }

  /**
   * Within a depth whose nodes have `size` dimensions, after its first j
   * nodes: those j were looked at, every other node looked at is smaller,
   * and every visit since `visits0` is of that size.
   */
  ghost predicate InLevel(visits0: seq<Visit>, visits: seq<Visit>, done0: set<seq<nat>>, done: set<seq<nat>>,
                          size: int, nodes: seq<seq<nat>>, j: nat)
  {
    j <= |nodes| && visits0 <= visits && done0 <= done &&
    (forall i | |visits0| <= i < |visits| :: |visits[i].dims| == size) &&
    (forall k | k in done :: |k| < size || k in nodes[..j]) &&
    (forall i | 0 <= i < j :: nodes[i] in done)
  }

  /** The store grown by the visits, with `count` the windows they enumerated. */
  ghost predicate Stored(s0: Lists, s: Lists, visits: seq<Visit>, count: nat, thr: real, m: SeqMap) {
    Grown(s0, s, visits, thr, m) && count == |NewKeys(visits)|
  }

  /** The walk's order and its pruned set so far. */
  ghost predicate Pruning(d: nat, p: set<seq<nat>>, visits: seq<Visit>) {
    Explored(d, visits) && Blocked(d, p, visits)
  }

  /** An evaluated node extends the stored visits, and counts when its window was new. */
  lemma StoredStep(s0: Lists, s: Lists, s': Lists, visits: seq<Visit>, count: nat, v: Visit, found: Result<seq<nat>>, thr: real, m: SeqMap)
    requires Stored(s0, s, visits, count, thr, m) && Evaluated(s, s', v.key, found, v.isNew, v.above, thr)
    requires found == Occurrences(m, v.key)
    ensures Stored(s0, s', visits + [v], count + (if v.isNew then 1 else 0), thr, m)
  {
    GrownStep(s0, s, s', visits, v, found, thr, m);
    var vs := visits + [v];
    assert vs[..|vs| - 1] == visits;
  }

  /**
   * A visit of an unpruned key, no smaller than any before and not visited
   * yet, followed by pruning its supersets if it failed, keeps the walk's
   * order and its blocking.
   */
  lemma PruningStep(d: nat, p: set<seq<nat>>, p': set<seq<nat>>, visits: seq<Visit>, v: Visit)
    requires Pruning(d, p, visits) && IsKey(d, v.dims) && v.dims !in p
    requires forall i | 0 <= i < |visits| :: |visits[i].dims| <= |v.dims| && visits[i].dims != v.dims
    requires Closed(d, Parents, p') && forall k :: k in p' <==> k in p || (!v.above && Toward(d, Parents, v.dims, k))
    ensures Pruning(d, p', visits + [v])
  {
    ExploredStep(d, p, visits, v);
    BlockedStep(d, p, p', visits, v);
  }

  /** One more visit: the nodes seen grow by its node alone. */
  lemma SeenStep(visits: seq<Visit>, v: Visit, k: seq<nat>)
    ensures Seen(visits + [v], k) <==> Seen(visits, k) || v.dims == k
  {
    var vs := visits + [v];
    assert forall i | 0 <= i < |visits| :: vs[i] == visits[i];
    assert vs[|visits|] == v;
  }

  /** One more visit: the nodes seen and covered grow by what it adds alone. */
  lemma RecordStep(d: nat, visits: seq<Visit>, v: Visit, k: seq<nat>)
    ensures Seen(visits + [v], k) <==> Seen(visits, k) || v.dims == k
    ensures Covered(d, visits + [v], k) <==> Covered(d, visits, k) || (!v.above && Toward(d, Parents, v.dims, k))
  {
    SeenStep(visits, v, k);
    var vs := visits + [v];
    assert forall i | 0 <= i < |visits| :: vs[i] == visits[i];
    assert vs[|visits|] == v;
  }

  /**
   * One more node of the depth, looked at and visited at most once at the
   * depth's size: the depth's first j + 1 nodes have been looked at.
   */
  lemma LevelStep(visits0: seq<Visit>, visits1: seq<Visit>, visits: seq<Visit>, done0: set<seq<nat>>,
                  done1: set<seq<nat>>, size: int, nodes: seq<seq<nat>>, j: nat)
    requires InLevel(visits0, visits1, done0, done1, size, nodes, j) && j < |nodes| && |nodes[j]| == size
    requires visits1 <= visits && |visits| <= |visits1| + 1 && (|visits| == |visits1| + 1 ==> visits[|visits1|].dims == nodes[j])
    ensures InLevel(visits0, visits, done0, done1 + {nodes[j]}, size, nodes, j + 1)
  {
    assert nodes[..j + 1] == nodes[..j] + [nodes[j]];
    assert forall i | 0 <= i < |visits1| :: visits[i] == visits1[i];
  }

  /**
   * After the visits of one depth whose nodes have `size` dimensions, all
   * earlier visits smaller: whether a node passed at that size is decided
   * by the depth's visits alone, and at every other size it is unchanged.
   */
  lemma PassedStep(visits0: seq<Visit>, visits: seq<Visit>, size: int)
    requires visits0 <= visits && forall i | 0 <= i < |visits0| :: |visits0[i].dims| < size
    requires forall i | |visits0| <= i < |visits| :: |visits[i].dims| == size
    ensures !PassedAt(visits, size) <==> forall i | |visits0| <= i < |visits| :: !visits[i].above
    ensures forall s | s != size :: PassedAt(visits, s) <==> PassedAt(visits0, s)
  {
    assert forall i | 0 <= i < |visits0| :: visits[i] == visits0[i];
  }

  /** The depth's next node has not been looked at yet: the depth lists each node once. */
  lemma NotDone(done: set<seq<nat>>, size: int, nodes: seq<seq<nat>>, j: nat)
    requires j < |nodes| && NoDup(nodes) && |nodes[j]| == size
    requires forall k | k in done :: |k| < size || k in nodes[..j]
    ensures nodes[j] !in done
  {
    assert forall i | 0 <= i < j :: nodes[..j][i] != nodes[j];
  }

  /** Once the whole depth has been looked at, no node looked at is larger than the depth's nodes. */
  lemma DoneAll(done: set<seq<nat>>, size: int, nodes: seq<seq<nat>>)
    requires forall k | k in done :: |k| < size || k in nodes[..|nodes|]
    requires forall k | k in nodes :: |k| == size
    ensures forall k | k in done :: |k| <= size
  {
    assert nodes[..|nodes|] == nodes;
  }

  /**
   * `entire_level_pruned` after one more node: still true exactly when it
   * was and the node did not pass.
   */
  lemma NoneAbove(visits: seq<Visit>, visits': seq<Visit>, start: nat, passed: bool)
    requires visits <= visits' && |visits'| <= |visits| + 1 && start <= |visits|
    requires passed <==> |visits'| == |visits| + 1 && visits'[|visits|].above
    ensures (forall i | start <= i < |visits'| :: !visits'[i].above) <==>
            (forall i | start <= i < |visits| :: !visits[i].above) && !passed
  {
    assert forall i | 0 <= i < |visits| :: visits'[i] == visits[i];
  }

  /**
   * After every node of depth `level` was looked at, the keys smaller than
   * its nodes having been looked at before: the nodes looked at are the
   * keys up to the depth's size.
   */
  lemma SweptStep(d: nat, keys: set<seq<nat>>, levels: LatticeLists.Levels, level: int, visits0: seq<Visit>, visits: seq<Visit>,
                  done0: set<seq<nat>>, done: set<seq<nat>>)
    requires LatticeLists.Ordered(d, keys, levels) && level in levels && Swept(keys, done0, d - level - 1)
    requires InLevel(visits0, visits, done0, done, d - level, levels[level], |levels[level]|)
    ensures Swept(keys, done, d - level)
  {
    var nodes := levels[level];
    assert nodes[..|nodes|] == nodes;
    forall k | k in keys && |k| == d - level ensures k in done {
      var i :| 0 <= i < |nodes| && nodes[i] == k;
    }
  }

  /** The nodes looked at, each visited or covered, are all the keys up to `walked`: so every key that small is visited or covered. */
  lemma SweptKeys(d: nat, keys: set<seq<nat>>, visits: seq<Visit>, done: set<seq<nat>>, walked: int)
    requires d >= 2 ==> forall k :: k in keys <==> IsKey(d, k)
    requires Swept(keys, done, walked) && forall k | k in done :: Seen(visits, k) || Covered(d, visits, k)
    ensures forall k | d >= 2 && IsKey(d, k) && |k| <= walked :: Seen(visits, k) || Covered(d, visits, k)
  {
  }

  /** A node passed at every size below the depth's, and the depth's visits left those sizes as they were. */
  lemma PassedBefore(visits0: seq<Visit>, visits: seq<Visit>, size: int)
    requires forall s | 1 <= s < size :: PassedAt(visits0, s)
    requires forall s | s != size :: PassedAt(visits, s) <==> PassedAt(visits0, s)
    ensures forall s | 1 <= s < size :: PassedAt(visits, s)
    ensures PassedAt(visits, size) ==> forall s | 1 <= s <= size :: PassedAt(visits, s)
  {
  }

  /** The store's entry for `key` holds the occurrences `found` gave. */
  ghost predicate StoredWith(s: Lists, key: PatternKey, found: Result<seq<nat>>) {
    found.Ok? && key in s.patterns && s.patterns[key] < |s.occurrences| && s.occurrences[s.patterns[key]] == found.value
  }

  /** A new visit's window and its occurrences sit at the same place among the enumerated ones. */
  lemma {:induction false} NewAt(m: SeqMap, visits: seq<Visit>, i: nat) returns (j: nat)
    requires i < |visits| && visits[i].isNew
    ensures j < |NewKeys(visits)| && NewKeys(visits)[j] == visits[i].key && NewOccurrences(m, visits)[j] == Found(m, visits[i].key)
  {
    var n := |visits| - 1;
    if i < n {
      assert visits[..n][i] == visits[i];
      j := NewAt(m, visits[..n], i);
    } else {
      j := |NewKeys(visits[..n])|;
    }
  }

  /**
   * After a walk that appended the windows it enumerated with their
   * occurrences, the keys being distinct and a new visit's window mapped to
   * its place: that window's entry holds the occurrences the index gives
   * for it.
   */
  lemma AppendedOccurrences(s0: Lists, s: Lists, visits: seq<Visit>, m: SeqMap, i: nat)
    requires Appended(s0, s, visits, m) && |s0.occurrences| == |s0.keys| && NoDup(s.keys)
    requires i < |visits| && visits[i].isNew
    requires visits[i].key in s.patterns && s.patterns[visits[i].key] < |s.keys| && s.keys[s.patterns[visits[i].key]] == visits[i].key
    ensures StoredWith(s, visits[i].key, Occurrences(m, visits[i].key))
  {
    var key := visits[i].key;
    var j := NewAt(m, visits, i);
    var idx := |s0.keys| + j;
    assert s.keys[idx] == key;
    assert s.occurrences[idx] == NewOccurrences(m, visits)[j];
  }

  /** Kept is a preorder: it composes. */
  lemma KeptTrans(s: Lists, s': Lists, s'': Lists)
    requires Kept(s, s') && Kept(s', s'')
    ensures Kept(s, s'')
  {
  }

  /** An evaluated node extends a grown store by its visit. */
  lemma GrownStep(s0: Lists, s: Lists, s': Lists, visits: seq<Visit>, v: Visit, found: Result<seq<nat>>, thr: real, m: SeqMap)
    requires Grown(s0, s, visits, thr, m) && Evaluated(s, s', v.key, found, v.isNew, v.above, thr)
    requires found == Occurrences(m, v.key)
    ensures Grown(s0, s', visits + [v], thr, m)
  {
    var vs := visits + [v];
    assert vs[..|vs| - 1] == visits;
    assert vs[|visits|] == v;
    KeptTrans(s0, s, s');
    AppendedStep(s0, s, s', visits, v, m);
    forall i | 0 <= i < |vs| ensures Judged(s', vs[i].key, vs[i].above, thr) {
      if i < |visits| {
        var key := visits[i].key;
        assert Judged(s, key, visits[i].above, thr);
        var idx := s.patterns[key];
        assert s'.patterns[key] == idx && s'.keys[idx] == key && s'.support[idx] == s.support[idx];
        if key != v.key {
          assert s'.above[idx] == s.above[idx];
        }
      }
    }
    forall i | 0 <= i < |s0.above| && i < |s0.keys| && s0.keys[i] !in VisitedKeys(vs) ensures s'.above[i] == s0.above[i] {
      assert s0.keys[i] == s.keys[i];
    }
  }

  /** Pruning the supersets of a new visit that failed, and nothing else, keeps the pruned set exact. */
  lemma BlockedStep(d: nat, p: set<seq<nat>>, p': set<seq<nat>>, visits: seq<Visit>, v: Visit)
    requires Blocked(d, p, visits) && Closed(d, Parents, p')
    requires forall k :: k in p' <==> k in p || (!v.above && Toward(d, Parents, v.dims, k))
    ensures Blocked(d, p', visits + [v])
  {
    forall k ensures k in p' <==> Covered(d, visits + [v], k) {
      RecordStep(d, visits, v, k);
    }
  }

  /**
   * The support test of an entry at index idx, written into its flag, ends
   * an evaluation whose store steps were otherwise done.
   */
  lemma TestedEvaluated(s: Lists, s': Lists, key: PatternKey, found: Result<seq<nat>>, isNew: bool, idx: nat, b: bool, thr: real)
    requires Kept(s, s') && (isNew <==> key !in s.keys) && s'.keys == s.keys + (if isNew then [key] else [])
    requires isNew ==> found.Ok? && s'.occurrences == s.occurrences + [found.value]
    requires !isNew ==> s'.occurrences == s.occurrences
    requires key in s'.patterns && idx == s'.patterns[key] && idx < |s'.keys| && s'.keys[idx] == key
    requires idx < |s'.support| && idx < |s'.above| && b == (s'.support[idx] >= thr)
    requires forall i | 0 <= i < |s.above| :: s'.above[i] == s.above[i]
    ensures Evaluated(s, s'.(above := s'.above[idx := b]), key, found, isNew, b, thr)
  {
  }

  /** A visit of an unpruned key, no smaller than any before and not visited yet, keeps the walk's order. */
  lemma ExploredStep(d: nat, p: set<seq<nat>>, visits: seq<Visit>, v: Visit)
    requires Explored(d, visits) && Blocked(d, p, visits)
    requires IsKey(d, v.dims) && v.dims !in p
    requires forall i | 0 <= i < |visits| :: |visits[i].dims| <= |v.dims| && visits[i].dims != v.dims
    ensures Explored(d, visits + [v])
  {
    var vs := visits + [v];
    assert !Covered(d, visits, v.dims);
    assert forall i | 0 <= i < |visits| :: vs[i] == visits[i];
  }

  /**
   * The strategy object: the table the windows are cut from, the dimension
   * count, the support threshold, the pattern store it enumerates into and
   * the occurrence index it counts with.
   */
  class SupportPruning {
    const numOfDims: nat
    const data: Table
    const thresholdValue: real
    const enumPatternInst: EnumeratedPattern
    const patternCountInst: SequenceMap

    /** The table is a table, and the store is consistent. */
    ghost predicate Valid()
      reads enumPatternInst
    {
      WellFormed(data) && enumPatternInst.Valid()
    }

    /** `__init__`. */
    constructor (numOfDims: nat, data: Table, enumPatternInst: EnumeratedPattern,
                 patternCountInst: SequenceMap, thresholdValue: real)
      ensures this.numOfDims == numOfDims && this.data == data && this.thresholdValue == thresholdValue
      ensures this.enumPatternInst == enumPatternInst && this.patternCountInst == patternCountInst
      ensures Valid() <==> WellFormed(data) && enumPatternInst.Valid()
    {
      this.numOfDims := numOfDims;
      this.data := data;
      this.thresholdValue := thresholdValue;
      this.enumPatternInst := enumPatternInst;
      this.patternCountInst := patternCountInst;
    }

    /**
     * What the walk has done so far, from the store s0 to the store s with
     * the pruned set p: the visits in their order, each cut from the table,
     * of size at most `size` and among the nodes `done` already looked at;
     * the store grown by the visits, and `count` the windows enumerated.
     */
    ghost predicate Progress(keys: set<seq<nat>>, p: set<seq<nat>>, s0: Lists, s: Lists, visits: seq<Visit>,
                             done: set<seq<nat>>, count: nat, size: int, startIndex: int, endIndex: int, m: SeqMap)
    {
      Stored(s0, s, visits, count, thresholdValue, m) && Pruning(numOfDims, p, visits) &&
      Located(keys, visits, done, size, startIndex, endIndex)
    }

    /**
     * Each visit was of a node in `done`, of size at most `size`, and its
     * window was cut from the table; `done` holds lattice keys, at least one
     * per visit, and each of them was visited or is covered by a failure.
     */
    ghost predicate Located(keys: set<seq<nat>>, visits: seq<Visit>, done: set<seq<nat>>, size: int, startIndex: int, endIndex: int)
    {
      WellFormed(data) && done <= keys && |visits| <= |done| &&
      (forall k | k in done :: Seen(visits, k) || Covered(numOfDims, visits, k)) &&
      forall i | 0 <= i < |visits| ::
        visits[i].dims in done && |visits[i].dims| <= size && Below(visits[i].dims, |data.names|) &&
        visits[i].key == Reconstruct(data, startIndex, endIndex, visits[i].dims)
    }

    /** A visit of a node of size `size` not looked at before, cut from the table, extends the located visits. */
    lemma LocatedStep(keys: set<seq<nat>>, visits: seq<Visit>, done: set<seq<nat>>, size: int, startIndex: int, endIndex: int, v: Visit)
      requires Located(keys, visits, done, size, startIndex, endIndex) && v.dims in keys && v.dims !in done
      requires |v.dims| <= size && Below(v.dims, |data.names|) && v.key == Reconstruct(data, startIndex, endIndex, v.dims)
      ensures Located(keys, visits + [v], done + {v.dims}, size, startIndex, endIndex)
    {
      var vs := visits + [v];
      assert forall i | 0 <= i < |visits| :: vs[i] == visits[i];
      assert |done + {v.dims}| == |done| + 1;
      forall k | k in done + {v.dims} ensures Seen(vs, k) || Covered(numOfDims, vs, k) {
        RecordStep(numOfDims, visits, v, k);
      }
    }

    /** Before the walk nothing has been looked at, over a well-formed table. */
    lemma ProgressStart(keys: set<seq<nat>>, s0: Lists, size: int, startIndex: int, endIndex: int, m: SeqMap)
      requires WellFormed(data)
      ensures Progress(keys, {}, s0, s0, [], {}, 0, size, startIndex, endIndex, m)
    {
      assert NewKeys([]) == [] && VisitedKeys([]) == [] && NewOccurrences(m, []) == [];
    }

    /** Progress bounds the visits' sizes; a larger bound holds as well. */
    lemma ProgressWiden(keys: set<seq<nat>>, p: set<seq<nat>>, s0: Lists, s: Lists, visits: seq<Visit>,
                        done: set<seq<nat>>, count: nat, size: int, size': int, startIndex: int, endIndex: int, m: SeqMap)
      requires Progress(keys, p, s0, s, visits, done, count, size, startIndex, endIndex, m) && size <= size'
      ensures Progress(keys, p, s0, s, visits, done, count, size', startIndex, endIndex, m)
    {
    }

    /** A node found pruned is looked at without a visit. */
    lemma ProgressSkip(keys: set<seq<nat>>, p: set<seq<nat>>, s0: Lists, s: Lists, visits: seq<Visit>,
                       done: set<seq<nat>>, count: nat, size: int, startIndex: int, endIndex: int, dims: seq<nat>, m: SeqMap)
      requires Progress(keys, p, s0, s, visits, done, count, size, startIndex, endIndex, m)
      requires dims in keys && dims !in done && dims in p
      ensures Progress(keys, p, s0, s, visits, done + {dims}, count, size, startIndex, endIndex, m)
    {
    }

    /**
     * A node looked at for the first time, unpruned and of the current size,
     * whose window was evaluated and which, below the threshold, pruned
     * exactly its supersets: the walk goes on with one more visit.
     */
    lemma ProgressVisit(keys: set<seq<nat>>, p: set<seq<nat>>, p': set<seq<nat>>, s0: Lists, s: Lists, s': Lists,
                        visits: seq<Visit>, done: set<seq<nat>>, count: nat, size: int, startIndex: int, endIndex: int,
                        v: Visit, found: Result<seq<nat>>, m: SeqMap)
      requires Progress(keys, p, s0, s, visits, done, count, size, startIndex, endIndex, m)
      requires v.dims in keys && v.dims !in done && v.dims !in p && IsKey(numOfDims, v.dims) && |v.dims| == size
      requires Below(v.dims, |data.names|) && v.key == Reconstruct(data, startIndex, endIndex, v.dims)
      requires Evaluated(s, s', v.key, found, v.isNew, v.above, thresholdValue) && found == Occurrences(m, v.key)
      requires Closed(numOfDims, Parents, p') && forall k :: k in p' <==> k in p || (!v.above && Toward(numOfDims, Parents, v.dims, k))
      ensures Progress(keys, p', s0, s', visits + [v], done + {v.dims}, count + (if v.isNew then 1 else 0),
                       size, startIndex, endIndex, m)
    {
      StoredStep(s0, s, s', visits, count, v, found, thresholdValue, m);
      PruningStep(numOfDims, p, p', visits, v);
      LocatedStep(keys, visits, done, size, startIndex, endIndex, v);
    }

    /**
     * Steps c and d for one window: look it up, enumerate it with its
     * occurrences if it is new, then test its support (index -1, the last
     * entry, for a window just enumerated). A missing index column or an
     * enumeration that divides by zero raises.
     */
    method EvaluateNode(key: PatternKey) returns (r: Result<bool>, isNew: bool)
      requires Valid()
      modifies enumPatternInst
      ensures var found := patternCountInst.FindPatternOccurrences(key);
              r.Ok? <==> key in old(enumPatternInst.keys) ||
                         (found.Ok? && |found.value| > 0 && enumPatternInst.numOfReadings != 0)
      ensures r.Err? ==> patternCountInst.FindPatternOccurrences(key).Err? || r.error == ZeroDivisionError
      ensures r.Ok? ==> (Valid() &&
                Evaluated(old(enumPatternInst.Contents()), enumPatternInst.Contents(), key,
                          patternCountInst.FindPatternOccurrences(key), isNew, r.value, thresholdValue))
    {
      ghost var s := enumPatternInst.Contents();
      var patternIndex := enumPatternInst.FindPattern(key);
      isNew := patternIndex == -1;
      if patternIndex == -1 {
        var e := Enumerate(key);
        if e.Err? {
          return Err(e.error), isNew;
        }
      }
      ghost var s' := enumPatternInst.Contents();
      ghost var idx := s'.patterns[key];
      assert s'.keys[idx] == key;
      assert Kept(s, s');
      assert PyIndex(patternIndex, enumPatternInst.numOfPatterns) == Some(idx);
      r := enumPatternInst.IsAboveThreshold(patternIndex, ThresholdMetric, thresholdValue);
      TestedEvaluated(s, s', key, patternCountInst.FindPatternOccurrences(key), isNew, idx, r.value, thresholdValue);
    }
  
    /** Step c for a window not stored yet: its occurrences, then `enumerate_pattern` with them. */
    method Enumerate(key: PatternKey) returns (r: Result<()>)
      requires Valid() && key !in enumPatternInst.keys
      modifies enumPatternInst
      ensures var found := patternCountInst.FindPatternOccurrences(key);
              (r.Ok? <==> found.Ok? && |found.value| > 0 && enumPatternInst.numOfReadings != 0) &&
              (r.Err? ==> found.Err? || r.error == ZeroDivisionError)
      ensures var s, s' := old(enumPatternInst.Contents()), enumPatternInst.Contents();
              r.Ok? ==> (Valid() && Kept(s, s') && s'.keys == s.keys + [key] && s'.above == s.above + [true] &&
                         s'.occurrences == s.occurrences + [patternCountInst.FindPatternOccurrences(key).value] &&
                         key in s'.patterns && s'.patterns[key] == s.n)
    {
      ghost var s := enumPatternInst.Contents();
      var occ := patternCountInst.FindPatternOccurrences(key);
      if occ.Err? {
        return Err(occ.error);
      }
      r := enumPatternInst.EnumeratePattern(key, occ.value);
      OnboardedAppends(enumPatternInst.anomalousWindowsMap, enumPatternInst.lag, enumPatternInst.numOfReadings,
                       enumPatternInst.crosskConst, s, key, occ.value);
    }
  
    /**
     * Steps b to d for an unpruned node: its window is cut out of the table
     * (an IndexError when a dimension is not a column) and evaluated.
     */
    method EvaluateDims(dims: seq<nat>, startIndex: int, endIndex: int) returns (r: Result<bool>, isNew: bool, key: PatternKey)
      requires Valid()
      modifies enumPatternInst
      ensures !Below(dims, |data.names|) ==> r == Err(IndexError) && unchanged(enumPatternInst)
      ensures r.Ok? ==> (Below(dims, |data.names|) && key == Reconstruct(data, startIndex, endIndex, dims) && Valid() &&
                         Evaluated(old(enumPatternInst.Contents()), enumPatternInst.Contents(), key,
                                   patternCountInst.FindPatternOccurrences(key), isNew, r.value, thresholdValue))
    {
      if !Below(dims, |data.names|) {
        return Err(IndexError), false, PatternKey([]);
      }
      key := Reconstruct(data, startIndex, endIndex, dims);
      r, isNew := EvaluateNode(key);
    }

    /** Step d's pruning: a node below the threshold prunes itself and all its supersets. */
    method PruneFrom(lattice: LatticeGraph, level: int, dims: seq<nat>)
      requires lattice.Valid() && IsKey(lattice.numOfDim, dims) && dims in lattice.nodes && level == lattice.numOfDim - |dims|
      requires Closed(lattice.numOfDim, Parents, lattice.Pruned())
      modifies lattice.Repr`isPruned
      ensures lattice.Valid() && Closed(lattice.numOfDim, Parents, lattice.Pruned())
      ensures forall k :: k in lattice.Pruned() <==> k in old(lattice.Pruned()) || Toward(lattice.numOfDim, Parents, dims, k)
    {
      ghost var p := lattice.Pruned();
      var _ := lattice.PruneNodesRecursively(level, dims, PruneType);
      WalkClosure(lattice.numOfDim, Parents, dims, p, lattice.Pruned());
    }

    /**
     * One pass of the inner loop: a pruned node is skipped (None); otherwise
     * its window is cut out of the table (an IndexError when a dimension is
     * not a column), evaluated, and a window below the threshold prunes the
     * node and all its supersets.
     */
    method VisitNode(lattice: LatticeGraph, level: int, dims: seq<nat>, startIndex: int, endIndex: int)
      returns (r: Result<Option<bool>>, isNew: bool, key: PatternKey)
      requires Valid() && lattice.Valid() && lattice.numOfDim == numOfDims
      requires dims in lattice.nodes && level == numOfDims - |dims|
      requires Closed(numOfDims, Parents, lattice.Pruned())
      modifies lattice.Repr`isPruned, enumPatternInst
      ensures lattice.Valid()
      ensures dims in old(lattice.Pruned()) ==>
                r == Ok(None) && !isNew && unchanged(enumPatternInst) && lattice.Pruned() == old(lattice.Pruned())
      ensures dims !in old(lattice.Pruned()) && !Below(dims, |data.names|) ==> r == Err(IndexError)
      ensures dims !in old(lattice.Pruned()) && r.Ok? ==>
                r.value.Some? && Valid() && Below(dims, |data.names|) && key == Reconstruct(data, startIndex, endIndex, dims) &&
                Evaluated(old(enumPatternInst.Contents()), enumPatternInst.Contents(), key,
                          patternCountInst.FindPatternOccurrences(key), isNew, r.value.value, thresholdValue) &&
                Closed(numOfDims, Parents, lattice.Pruned()) &&
                forall k :: k in lattice.Pruned() <==>
                  k in old(lattice.Pruned()) || (!r.value.value && Toward(numOfDims, Parents, dims, k))
    {
      var node := lattice.nodes[dims];
      if node.isPruned {
        return Ok(None), false, PatternKey([]);
      }
      ghost var p := lattice.Pruned();
      var above;
      above, isNew, key := EvaluateDims(dims, startIndex, endIndex);
      assert lattice.Valid() && lattice.Pruned() == p;
      if above.Err? {
        return Err(above.error), isNew, key;
      }
      ghost var s' := enumPatternInst.Contents();
      if !above.value {
        PruneFrom(lattice, level, dims);
      }
      assert enumPatternInst.Contents() == s';
      r := Ok(Some(above.value));
    }
  
    /**
     * One pass of the inner loop, with the walk's record: a node looked at
     * is added to `done`, a visit to the visits; the answer says whether the
     * node was visited and reached the threshold.
     */
    method WalkNode(lattice: LatticeGraph, level: int, dims: seq<nat>, startIndex: int, endIndex: int, ghost s0: Lists,
                    ghost visits0: seq<Visit>, ghost done0: set<seq<nat>>, count0: nat)
      returns (r: Result<bool>, count: nat, ghost visits: seq<Visit>, ghost done: set<seq<nat>>)
      requires Valid() && lattice.Valid() && lattice.numOfDim == numOfDims && Closed(numOfDims, Parents, lattice.Pruned())
      requires dims in lattice.nodes && level == numOfDims - |dims| && dims !in done0
      requires Progress(lattice.nodes.Keys, lattice.Pruned(), s0, enumPatternInst.Contents(), visits0, done0, count0,
                        |dims|, startIndex, endIndex, patternCountInst.seqHashmap)
      modifies lattice.Repr`isPruned, enumPatternInst
      ensures lattice.Valid()
      ensures r.Ok? ==> (Valid() && Closed(numOfDims, Parents, lattice.Pruned()) &&
                         Progress(lattice.nodes.Keys, lattice.Pruned(), s0, enumPatternInst.Contents(), visits, done, count,
                                  |dims|, startIndex, endIndex, patternCountInst.seqHashmap) &&
                         done == done0 + {dims} && visits0 <= visits && |visits| <= |visits0| + 1 &&
                         (|visits| == |visits0| + 1 ==> visits[|visits0|].dims == dims) &&
                         (r.value <==> |visits| == |visits0| + 1 && visits[|visits0|].above))
    {
      ghost var p, s := lattice.Pruned(), enumPatternInst.Contents();
      var res, isNew, key := VisitNode(lattice, level, dims, startIndex, endIndex);
      if res.Err? {
        return Err(res.error), count0, visits0, done0;
      }
      if res.value.None? {
        ProgressSkip(lattice.nodes.Keys, p, s0, s, visits0, done0, count0, |dims|, startIndex, endIndex, dims, patternCountInst.seqHashmap);
        return Ok(false), count0, visits0, done0 + {dims};
      }
      ghost var v := Visit(dims, key, isNew, res.value.value);
      ProgressVisit(lattice.nodes.Keys, p, lattice.Pruned(), s0, s, enumPatternInst.Contents(), visits0, done0, count0,
                    |dims|, startIndex, endIndex, v, patternCountInst.FindPatternOccurrences(key), patternCountInst.seqHashmap);
      count := if isNew then count0 + 1 else count0;
      r, visits, done := Ok(res.value.value), visits0 + [v], done0 + {dims};
    }

    /**
     * The j-th node of the inner loop, with the loop's bookkeeping carried
     * one node further; the answer is `entire_level_pruned` after it.
     */
    method WalkStep(lattice: LatticeGraph, level: int, nodesOfLevel: seq<seq<nat>>, j: nat, startIndex: int, endIndex: int,
                    ghost s0: Lists, ghost visits0: seq<Visit>, ghost visits1: seq<Visit>, ghost done0: set<seq<nat>>,
                    ghost done1: set<seq<nat>>, count1: nat, entire: bool)
      returns (r: Result<bool>, count: nat, ghost visits: seq<Visit>, ghost done: set<seq<nat>>)
      requires Valid() && lattice.Valid() && lattice.numOfDim == numOfDims && Closed(numOfDims, Parents, lattice.Pruned())
      requires level in lattice.levels && nodesOfLevel == lattice.levels[level] && j < |nodesOfLevel|
      requires Progress(lattice.nodes.Keys, lattice.Pruned(), s0, enumPatternInst.Contents(), visits1, done1, count1,
                        numOfDims - level, startIndex, endIndex, patternCountInst.seqHashmap)
      requires InLevel(visits0, visits1, done0, done1, numOfDims - level, nodesOfLevel, j)
      requires entire <==> forall i | |visits0| <= i < |visits1| :: !visits1[i].above
      modifies lattice.Repr`isPruned, enumPatternInst
      ensures lattice.Valid()
      ensures r.Ok? ==> Valid() && Closed(numOfDims, Parents, lattice.Pruned()) &&
                        Progress(lattice.nodes.Keys, lattice.Pruned(), s0, enumPatternInst.Contents(), visits, done, count,
                                 numOfDims - level, startIndex, endIndex, patternCountInst.seqHashmap) &&
                        InLevel(visits0, visits, done0, done, numOfDims - level, nodesOfLevel, j + 1) &&
                        (r.value <==> forall i | |visits0| <= i < |visits| :: !visits[i].above)
    {
      assert forall k | k in nodesOfLevel :: k in lattice.nodes && |k| == numOfDims - level;
      assert NoDup(nodesOfLevel);
      var dims := nodesOfLevel[j];
      assert dims in nodesOfLevel;
      NotDone(done1, numOfDims - level, nodesOfLevel, j);
      var passed;
      passed, count, visits, done := WalkNode(lattice, level, dims, startIndex, endIndex, s0, visits1, done1, count1);
      if passed.Err? {
        return Err(passed.error), count, visits, done;
      }
      NoneAbove(visits1, visits, |visits0|, passed.value);
      LevelStep(visits0, visits1, visits, done0, done1, numOfDims - level, nodesOfLevel, j);
      r := Ok(entire && !passed.value);
    }

    /**
     * The inner loop over one depth's nodes, in the order the depth's dict
     * holds them: every node of the depth is looked at, and the answer is
     * `entire_level_pruned`: no node of the depth was visited and reached
     * the threshold.
     */
    method WalkLevel(lattice: LatticeGraph, level: int, startIndex: int, endIndex: int, ghost s0: Lists,
                     ghost visits0: seq<Visit>, ghost done0: set<seq<nat>>, count0: nat)
      returns (r: Result<bool>, count: nat, ghost visits: seq<Visit>, ghost done: set<seq<nat>>)
      requires Valid() && lattice.Valid() && lattice.numOfDim == numOfDims && level in lattice.levels
      requires Closed(numOfDims, Parents, lattice.Pruned())
      requires Progress(lattice.nodes.Keys, lattice.Pruned(), s0, enumPatternInst.Contents(), visits0, done0, count0,
                        numOfDims - level, startIndex, endIndex, patternCountInst.seqHashmap)
      requires forall k | k in done0 :: |k| < numOfDims - level
      modifies lattice.Repr`isPruned, enumPatternInst
      ensures lattice.Valid()
      ensures r.Ok? ==> (Valid() && Closed(numOfDims, Parents, lattice.Pruned()) &&
                         Progress(lattice.nodes.Keys, lattice.Pruned(), s0, enumPatternInst.Contents(), visits, done, count,
                                  numOfDims - level, startIndex, endIndex, patternCountInst.seqHashmap) &&
                         InLevel(visits0, visits, done0, done, numOfDims - level, lattice.levels[level], |lattice.levels[level]|) &&
                         (r.value <==> forall i | |visits0| <= i < |visits| :: !visits[i].above))
    {
      var nodesOfLevel := lattice.levels[level];
      var entireLevelPruned := true;
      count, visits, done := count0, visits0, done0;
      for j := 0 to |nodesOfLevel|
        invariant Valid() && lattice.Valid() && Closed(numOfDims, Parents, lattice.Pruned())
        invariant Progress(lattice.nodes.Keys, lattice.Pruned(), s0, enumPatternInst.Contents(), visits, done, count,
                           numOfDims - level, startIndex, endIndex, patternCountInst.seqHashmap)
        invariant InLevel(visits0, visits, done0, done, numOfDims - level, nodesOfLevel, j)
        invariant entireLevelPruned <==> forall i | |visits0| <= i < |visits| :: !visits[i].above
      {
        var passed;
        passed, count, visits, done :=
          WalkStep(lattice, level, nodesOfLevel, j, startIndex, endIndex, s0, visits0, visits, done0, done, count, entireLevelPruned);
        if passed.Err? {
          r := Err(passed.error);
          return;
        }
        entireLevelPruned := passed.value;
      }
      r := Ok(entireLevelPruned);
    }

    /** The windows enumerated are at most the visits, and the visits at most the lattice's keys. */
    lemma CountBound(keys: set<seq<nat>>, p: set<seq<nat>>, s0: Lists, s: Lists, visits: seq<Visit>,
                     done: set<seq<nat>>, count: nat, size: int, startIndex: int, endIndex: int, m: SeqMap)
      requires Progress(keys, p, s0, s, visits, done, count, size, startIndex, endIndex, m)
      ensures count <= |visits| <= |keys|
    {
      SubsetSize(done, keys);
    }

    /**
     * One pass of the outer loop: the nodes looked at so far are the keys
     * smaller than the depth's; after it, they are the keys up to the
     * depth's size. The answer is true exactly when no visit of that size
     * passed, and at every other size the visits that passed are the same.
     */
    method WalkDepth(lattice: LatticeGraph, level: int, startIndex: int, endIndex: int, ghost s0: Lists,
                     ghost visits0: seq<Visit>, ghost done0: set<seq<nat>>, count0: nat)
      returns (r: Result<bool>, count: nat, ghost visits: seq<Visit>, ghost done: set<seq<nat>>)
      requires Valid() && lattice.Valid() && lattice.numOfDim == numOfDims && level in lattice.levels
      requires Closed(numOfDims, Parents, lattice.Pruned())
      requires Progress(lattice.nodes.Keys, lattice.Pruned(), s0, enumPatternInst.Contents(), visits0, done0, count0,
                        numOfDims - level - 1, startIndex, endIndex, patternCountInst.seqHashmap)
      requires Swept(lattice.nodes.Keys, done0, numOfDims - level - 1)
      modifies lattice.Repr`isPruned, enumPatternInst
      ensures lattice.Valid()
      ensures r.Ok? ==> (Valid() && Closed(numOfDims, Parents, lattice.Pruned()) &&
                         Progress(lattice.nodes.Keys, lattice.Pruned(), s0, enumPatternInst.Contents(), visits, done, count,
                                  numOfDims - level, startIndex, endIndex, patternCountInst.seqHashmap) &&
                         Swept(lattice.nodes.Keys, done, numOfDims - level) && count <= |visits| <= |lattice.nodes.Keys|)
      ensures r.Ok? ==> (r.value <==> !PassedAt(visits, numOfDims - level)) &&
                        forall s | s != numOfDims - level :: PassedAt(visits, s) <==> PassedAt(visits0, s)
    {
      ProgressWiden(lattice.nodes.Keys, lattice.Pruned(), s0, enumPatternInst.Contents(), visits0, done0, count0,
                    numOfDims - level - 1, numOfDims - level, startIndex, endIndex, patternCountInst.seqHashmap);
      r, count, visits, done := WalkLevel(lattice, level, startIndex, endIndex, s0, visits0, done0, count0);
      if r.Ok? {
        SweptStep(numOfDims, lattice.nodes.Keys, lattice.levels, level, visits0, visits, done0, done);
        PassedStep(visits0, visits, numOfDims - level);
        CountBound(lattice.nodes.Keys, lattice.Pruned(), s0, enumPatternInst.Contents(), visits, done, count,
                   numOfDims - level, startIndex, endIndex, patternCountInst.seqHashmap);
      }
    }

    /**
     * The outer loop over the depths of a fresh lattice, from the largest
     * depth (the singletons) down to depth 0, stopping after a depth where
     * no node reached the threshold; the answer is `nodes_enumerated`. The
     * nodes looked at are all the keys of the depths walked, whose largest
     * size is `size`; a node passed at every smaller size, and at `size`
     * either the walk reached depth 0 or no node passed.
     */
    method WalkDepths(lattice: LatticeGraph, startIndex: int, endIndex: int)
      returns (r: Result<nat>, ghost visits: seq<Visit>, ghost done: set<seq<nat>>, ghost size: int)
      requires Valid() && lattice.Valid() && lattice.numOfDim == numOfDims && lattice.Pruned() == {}
      requires numOfDims >= 2 ==> forall t | 0 <= t < numOfDims :: t in lattice.levels
      requires numOfDims < 2 ==> lattice.levels == map[0 := []]
      modifies lattice.Repr`isPruned, enumPatternInst
      ensures r.Ok? ==> Valid() && r.value <= |visits| <= |lattice.nodes.Keys| &&
                        Progress(lattice.nodes.Keys, lattice.Pruned(), old(enumPatternInst.Contents()), enumPatternInst.Contents(),
                                 visits, done, r.value, size, startIndex, endIndex, patternCountInst.seqHashmap) &&
                        Swept(lattice.nodes.Keys, done, size)
      ensures r.Ok? ==> size <= numOfDims && (numOfDims >= 2 ==> 1 <= size) &&
                        (forall s | 1 <= s < size :: PassedAt(visits, s)) && (size == numOfDims || !PassedAt(visits, size))
    {
      ghost var s0 := enumPatternInst.Contents();
      done, size := {}, numOfDims - (if numOfDims >= 2 then numOfDims - 1 else 0) - 1;
      var nodesEnumerated: nat := 0;
      visits := [];
      ProgressStart(lattice.nodes.Keys, s0, numOfDims - (if numOfDims >= 2 then numOfDims - 1 else 0) - 1, startIndex, endIndex,
                    patternCountInst.seqHashmap);
      var level: int := if numOfDims >= 2 then numOfDims - 1 else 0;
      while level >= 0
        invariant -1 <= level <= (if numOfDims >= 2 then numOfDims - 1 else 0)
        invariant Valid() && lattice.Valid() && Closed(numOfDims, Parents, lattice.Pruned())
        invariant Progress(lattice.nodes.Keys, lattice.Pruned(), s0, enumPatternInst.Contents(), visits, done, nodesEnumerated,
                           numOfDims - level - 1, startIndex, endIndex, patternCountInst.seqHashmap)
        invariant size == numOfDims - level - 1 && Swept(lattice.nodes.Keys, done, numOfDims - level - 1)
        invariant forall s | 1 <= s <= size :: PassedAt(visits, s)
        invariant nodesEnumerated <= |visits| <= |lattice.nodes.Keys|
        decreases level
      {
        if numOfDims >= 2 {
          assert 0 <= level < numOfDims;
          assert level in lattice.levels;
        } else {
          assert level == 0 && lattice.levels == map[0 := []];
          assert level in lattice.levels;
        }
        ghost var visits1 := visits;
        var entireLevelPruned;
        entireLevelPruned, nodesEnumerated, visits, done :=
          WalkDepth(lattice, level, startIndex, endIndex, s0, visits, done, nodesEnumerated);
        if entireLevelPruned.Err? {
          return Err(entireLevelPruned.error), visits, done, size;
        }
        size := size + 1;
        PassedBefore(visits1, visits, size);
        if entireLevelPruned.value {
          break;
        }
        level := level - 1;
      }
      r := Ok(nodesEnumerated);
    }

    /**
     * `prune_and_enumerate_patterns`: walk a fresh lattice depth by depth
     * and answer the number of lattice nodes minus the windows enumerated.
     * The nodes of every size up to `walked` are each visited or a superset
     * of a visit below the threshold; no larger node is visited. At every
     * size below `walked` some node passed, and at `walked` the walk either
     * covered the whole lattice or no node passed.
     */
    method PruneAndEnumeratePatterns(startIndex: int, endIndex: int) returns (r: Result<int>, ghost visits: seq<Visit>, ghost walked: int)
      requires Valid()
      modifies enumPatternInst
      ensures r.Ok? ==> Valid() && Grown(old(enumPatternInst.Contents()), enumPatternInst.Contents(), visits, thresholdValue,
                                         patternCountInst.seqHashmap)
      ensures r.Ok? ==> forall i | 0 <= i < |visits| && visits[i].isNew ::
                          StoredWith(enumPatternInst.Contents(), visits[i].key, patternCountInst.FindPatternOccurrences(visits[i].key))
      ensures r.Ok? ==> Explored(numOfDims, visits)
      ensures r.Ok? ==> walked <= numOfDims && (numOfDims >= 2 ==> 1 <= walked) &&
                        (forall i | 0 <= i < |visits| :: |visits[i].dims| <= walked) &&
                        forall k | numOfDims >= 2 && IsKey(numOfDims, k) && |k| <= walked :: Seen(visits, k) || Covered(numOfDims, visits, k)
      ensures r.Ok? ==> (forall s | 1 <= s < walked :: PassedAt(visits, s)) && (walked == numOfDims || !PassedAt(visits, walked))
      ensures r.Ok? ==> forall i | 0 <= i < |visits| ::
                          Below(visits[i].dims, |data.names|) &&
                          visits[i].key == Reconstruct(data, startIndex, endIndex, visits[i].dims)
      ensures r.Ok? ==> r.value == Pow2(numOfDims) - 1 - |NewKeys(visits)| && 0 <= r.value
    {
      ghost var s0 := enumPatternInst.Contents();
      var lattice := new LatticeGraph(numOfDims);
      lattice.NodeCount();
      assert lattice.Pruned() == {};
      forall t | 0 <= t < numOfDims && numOfDims >= 2
        ensures t in lattice.levels
      {
        lattice.LevelContents(t, []);
      }
      ghost var done;
      var nodesEnumerated;
      nodesEnumerated, visits, done, walked := WalkDepths(lattice, startIndex, endIndex);
      if nodesEnumerated.Err? {
        return Err(nodesEnumerated.error), visits, walked;
      }
      SweptKeys(numOfDims, lattice.nodes.Keys, visits, done, walked);
      forall i | 0 <= i < |visits| && visits[i].isNew
        ensures StoredWith(enumPatternInst.Contents(), visits[i].key, patternCountInst.FindPatternOccurrences(visits[i].key))
      {
        assert Judged(enumPatternInst.Contents(), visits[i].key, visits[i].above, thresholdValue);
        AppendedOccurrences(s0, enumPatternInst.Contents(), visits, patternCountInst.seqHashmap, i);
      }
      r := Ok(lattice.numOfNodes - nodesEnumerated.value);
    }
  }
}
