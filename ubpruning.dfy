/**
 * The upper-bound pruning strategy (`UBPruning` of
 * src/nwc_pattern_miner/module/pruning/ub_pruning.py). A fresh lattice is
 * walked from both ends in turn: an Apriori pass takes the deepest depth not
 * walked yet (the singletons first), records each singleton's join-set
 * count, and prunes the supersets of every node whose support falls below
 * the support threshold; an upper-bound pass takes the shallowest depth not
 * walked yet (the full tuple first), prunes a node whose cross-K upper bound
 * is already below the cross-K threshold, and otherwise hands the node's
 * pattern count down to its children as their `superpattern_count`.
 */
module UBPrunings {
  import opened Wrappers
  import opened Frames
  import opened Subsets
  import opened PruneWalks
  import opened LatticeGraphs
  import opened StateGraphs
  import opened CandidatePatterns
  import opened SupportPrunings
  import LatticeLists

  /** `max_type`. */
  const MaxType: string := "max"

  /** `parent_prune_type`: both passes prune a node together with its supersets. */
  const ParentPruneType: string := "parents"

  /** `support_metric`. */
  const SupportMetric: string := "support"

  /** `crossk_metric`. */
  const CrosskMetric: string := "crossk"

  /**
   * r is the largest count recorded for a dimension in `dims`, or -1 when
   * none of them has a count.
   */
  ghost predicate IsLargest(counts: map<nat, nat>, dims: set<nat>, r: int) {
    r >= -1 &&
    (forall d | d in dims && d in counts :: counts[d] <= r) &&
    (r != -1 ==> exists d | d in dims && d in counts :: counts[d] == r)
  }

  /** There is only one largest count. */
  lemma LargestUnique(counts: map<nat, nat>, dims: set<nat>, r: int, r': int)
    requires IsLargest(counts, dims, r) && IsLargest(counts, dims, r')
    ensures r == r'
  {
    if r != -1 {
      var d :| d in dims && d in counts && counts[d] == r;
    }
    if r' != -1 {
      var d :| d in dims && d in counts && counts[d] == r';
    }
  }

  /**
   * `_get_joint_singleton_count(dims, 'max')` read along the tuple: the
   * largest count recorded for one of its dimensions, -1 when there is none.
   */
  function MaxJoint(counts: map<nat, nat>, dims: seq<nat>): int {
    if |dims| == 0 then -1
    else
      var front := MaxJoint(counts, dims[..|dims| - 1]);
      var last := dims[|dims| - 1];
      if last in counts && counts[last] > front then counts[last] else front
  }

  /** MaxJoint is the largest count over the tuple's dimensions. */
  lemma {:induction false} MaxJointLargest(counts: map<nat, nat>, dims: seq<nat>)
    ensures IsLargest(counts, (set d | d in dims), MaxJoint(counts, dims))
  {
    if |dims| > 0 {
      var front := dims[..|dims| - 1];
      var last := dims[|dims| - 1];
      MaxJointLargest(counts, front);
      assert dims == front + [last];
      assert (set d | d in dims) == (set d | d in front) + {last};
    }
  }

  /**
   * `_get_joint_singleton_count(dims, 'max')` over the recorded counts: the
   * loop keeps the largest count whose dimension is in the tuple, starting
   * from -1. The dict's order does not matter to the result.
   */
  method GetJointSingletonCount(counts: map<nat, nat>, nodeDimensions: seq<nat>) returns (r: int)
    ensures r == MaxJoint(counts, nodeDimensions)
    ensures IsLargest(counts, (set d | d in nodeDimensions), r)
  {
    var jointCount: int := -1;
    var rest := counts.Keys;
    ghost var dims := set d | d in nodeDimensions;
    while rest != {}
      invariant rest <= counts.Keys
      invariant IsLargest(counts, dims * (counts.Keys - rest), jointCount)
      decreases rest
    {
      var key :| key in rest;
      var val := counts[key];
      if key in nodeDimensions && val > jointCount {
        jointCount := val;
      }
      rest := rest - {key};
    }
    MaxJointLargest(counts, nodeDimensions);
    assert IsLargest(counts, dims, jointCount);
    LargestUnique(counts, dims, jointCount, MaxJoint(counts, nodeDimensions));
    r := jointCount;
  }

  /** `crossk_const * (max_leaf_count / count)`, a ZeroDivisionError on a zero count. */
  function UpperBound(crosskConst: real, leafCount: int, count: int): (r: Result<real>)
    ensures r.Err? <==> count == 0
    ensures r.Err? ==> r.error == ZeroDivisionError
  {
    if count == 0 then Err(ZeroDivisionError) else Ok(crosskConst * Ratio(leafCount, count))
  }

  /**
   * The superpattern counts after a node hands `bigger` down: every child
   * of `dims` below `bigger` is raised to it, every other count is kept.
   */
  function Raised(counts: map<seq<nat>, int>, d: nat, dims: seq<nat>, bigger: int): (r: map<seq<nat>, int>)
    ensures r.Keys == counts.Keys
    ensures forall k | k in counts ::
              counts[k] <= r[k] && (IsChildKey(d, k, dims) ==> bigger <= r[k]) &&
              (r[k] == counts[k] || (IsChildKey(d, k, dims) && r[k] == bigger))
  {
    map k | k in counts :: if IsChildKey(d, k, dims) && counts[k] < bigger then bigger else counts[k]
  }

  /** Counts that agree pointwise with the raised counts are the raised counts. */
  lemma RaisedPointwise(counts: map<seq<nat>, int>, counts': map<seq<nat>, int>, d: nat, dims: seq<nat>, bigger: int)
    requires counts'.Keys == counts.Keys
    requires forall k | k in counts ::
               counts'[k] == (if IsChildKey(d, k, dims) && counts[k] < bigger then bigger else counts[k])
    ensures counts' == Raised(counts, d, dims, bigger)
  {
  }

  /** Handing a count down twice is handing it down once, and a larger count subsumes a smaller one. */
  lemma RaisedTwice(counts: map<seq<nat>, int>, d: nat, dims: seq<nat>, b: int, b': int)
    requires b <= b'
    ensures Raised(Raised(counts, d, dims, b), d, dims, b') == Raised(counts, d, dims, b')
  {
  }

  /** `max(counts.values())`, a ValueError on an empty dict. */
  method MaxValue(counts: map<nat, nat>) returns (r: Result<nat>)
    ensures r.Err? <==> counts == map[]
    ensures r.Err? ==> r.error == ValueError
    ensures r.Ok? ==> IsLargest(counts, counts.Keys, r.value)
  {
    if counts == map[] {
      return Err(ValueError);
    }
    var largest: int := -1;
    var rest := counts.Keys;
    while rest != {}
      invariant rest <= counts.Keys
      invariant IsLargest(counts, counts.Keys - rest, largest)
      invariant largest == -1 ==> rest == counts.Keys
      decreases rest
    {
      var key :| key in rest;
      if counts[key] > largest {
        largest := counts[key];
      }
      rest := rest - {key};
    }
    var some :| some in counts;
    assert counts[some] <= largest;
    r := Ok(largest);
  }

  /** The join-set count the store s holds for `key`, if it holds the key. */
  ghost function JoinsetOf(s: Lists, key: PatternKey): Option<nat> {
    if key in s.patterns && s.patterns[key] < |s.joinsets| then Some(s.joinsets[s.patterns[key]]) else None
  }

  /** A store that keeps its entries keeps every join-set count it held. */
  lemma JoinsetKept(s: Lists, s': Lists, key: PatternKey)
    requires Kept(s, s') && JoinsetOf(s, key).Some?
    ensures JoinsetOf(s', key) == JoinsetOf(s, key)
  {
    assert s'.joinsets[s.patterns[key]] == s.joinsets[s.patterns[key]];
  }

  /**
   * Within the walk over rows startIndex..endIndex of the table, every
   * dimension in `recorded` has as its count the join-set count the store s
   * holds for that dimension's singleton window.
   */
  ghost predicate Records(data: Table, counts: map<nat, nat>, s: Lists, recorded: set<nat>, startIndex: int, endIndex: int) {
    WellFormed(data) &&
    forall d | d in recorded ::
      d < |data.names| && d in counts && JoinsetOf(s, Reconstruct(data, startIndex, endIndex, [d])) == Some(counts[d])
  }

  /** Records survive a store that keeps its entries. */
  lemma RecordsKept(data: Table, counts: map<nat, nat>, s: Lists, s': Lists, recorded: set<nat>, startIndex: int, endIndex: int)
    requires Records(data, counts, s, recorded, startIndex, endIndex) && Kept(s, s')
    ensures Records(data, counts, s', recorded, startIndex, endIndex)
  {
    forall d | d in recorded
      ensures JoinsetOf(s', Reconstruct(data, startIndex, endIndex, [d])) == Some(counts[d])
    {
      JoinsetKept(s, s', Reconstruct(data, startIndex, endIndex, [d]));
    }
  }

  /** Recording a singleton's stored join-set count adds it to the records. */
  lemma RecordsPut(data: Table, counts: map<nat, nat>, s: Lists, recorded: set<nat>, startIndex: int, endIndex: int, d: nat)
    requires Records(data, counts, s, recorded, startIndex, endIndex) && d < |data.names|
    requires JoinsetOf(s, Reconstruct(data, startIndex, endIndex, [d])).Some?
    ensures Records(data, counts[d := JoinsetOf(s, Reconstruct(data, startIndex, endIndex, [d])).value], s,
                    recorded + {d}, startIndex, endIndex)
  {
  }

  /** The store grew from s to s' by exactly `count` new patterns, keeping every entry it had. */
  ghost predicate Grew(s: Lists, s': Lists, count: nat) {
    Kept(s, s') && |s'.keys| == |s.keys| + count
  }

  /** Growth composes. */
  lemma GrewTrans(s: Lists, s': Lists, s'': Lists, count: nat, count': nat)
    requires Grew(s, s', count) && Grew(s', s'', count')
    ensures Grew(s, s'', count + count')
  {
    KeptTrans(s, s', s'');
  }

  /** The pruned set went from p to p' by pruning the supersets of `dims` when `prune`, and changed in no other way. */
  ghost predicate PrunedFrom(d: nat, p: set<seq<nat>>, p': set<seq<nat>>, dims: seq<nat>, prune: bool) {
    forall k :: k in p' <==> k in p || (prune && Toward(d, Parents, dims, k))
  }

  /** A step that prunes nothing leaves the pruned set as it was. */
  lemma PrunedNone(d: nat, p: set<seq<nat>>, p': set<seq<nat>>, dims: seq<nat>)
    requires PrunedFrom(d, p, p', dims, false)
    ensures p' == p
  {
  }

  /**
   * `entire_level_pruned` after one more node of a depth: pruning from a
   * node prunes no other node of its depth, so the depth's first j + 1
   * nodes are all pruned exactly when the first j were and the node is.
   */
  lemma LevelPrunedStep(d: nat, nodes: seq<seq<nat>>, j: nat, p: set<seq<nat>>, p': set<seq<nat>>, prune: bool)
    requires j < |nodes| && NoDup(nodes) && forall k | k in nodes :: IsKey(d, k) && |k| == |nodes[j]|
    requires PrunedFrom(d, p, p', nodes[j], prune)
    ensures (forall i | 0 <= i < j :: nodes[i] in p) && nodes[j] in p' <==> forall i | 0 <= i < j + 1 :: nodes[i] in p'
    ensures forall i | 0 <= i < |nodes| && i != j :: nodes[i] in p' <==> nodes[i] in p
  {
    forall i | 0 <= i < |nodes| && i != j
      ensures nodes[i] in p' <==> nodes[i] in p
    {
      if Toward(d, Parents, nodes[j], nodes[i]) {
        assert nodes[i] in nodes && nodes[j] in nodes;
        ContainsLength(d, nodes[i], nodes[j]);
      }
    }
  }

  /**
   * Part way through a pass over a depth's nodes, after the first j: the
   * pruned set grew from p0 to p and the store from s0 to s by `count`
   * windows, at most one per node; `entire` says the first j nodes are all
   * pruned, the nodes not reached yet are pruned only if they were at the
   * start, and every singleton reached unpruned had its dimension recorded.
   */
  ghost predicate PassState(nodes: seq<seq<nat>>, j: nat, p0: set<seq<nat>>, p: set<seq<nat>>, s0: Lists, s: Lists,
                            count: nat, entire: bool, recorded0: set<nat>, recorded: set<nat>) {
    j <= |nodes| && p0 <= p && Grew(s0, s, count) && count <= j &&
    (entire <==> forall i | 0 <= i < j :: nodes[i] in p) &&
    (forall i | j <= i < |nodes| :: nodes[i] in p <==> nodes[i] in p0) &&
    recorded0 <= recorded && forall i | 0 <= i < j && |nodes[i]| == 1 && nodes[i] !in p0 :: nodes[i][0] in recorded
  }

  /** After the whole pass, `entire` and the recorded singletons speak of the depth's nodes as a set. */
  lemma PassEnd(nodes: seq<seq<nat>>, p0: set<seq<nat>>, p: set<seq<nat>>, s0: Lists, s: Lists,
                count: nat, entire: bool, recorded0: set<nat>, recorded: set<nat>, looks0: seq<Look>, looks: seq<Look>)
    requires PassState(nodes, |nodes|, p0, p, s0, s, count, entire, recorded0, recorded)
    requires InPass(looks0, looks, nodes, |nodes|, p0, false)
    ensures entire <==> forall k | k in nodes :: k in p
    ensures forall k | k in nodes && |k| == 1 && k !in p0 :: k[0] in recorded
    ensures p0 <= p && Grew(s0, s, count) && count <= |nodes| && recorded0 <= recorded
    ensures looks0 <= looks && DimsOf(looks) == DimsOf(looks0) + Unpruned(nodes, p0) &&
            forall i | |looks0| <= i < |looks| :: looks[i].kind == Support
  {
    assert nodes[..|nodes|] == nodes;
  }

  /**
   * One more node: the store grew by at most one window, the pruned set by
   * the node's supersets if it was reached and failed, and the node is left
   * unpruned exactly when it passed.
   */
  lemma PassStep(d: nat, nodes: seq<seq<nat>>, j: nat, p0: set<seq<nat>>, p: set<seq<nat>>, p': set<seq<nat>>,
                 s0: Lists, s: Lists, s': Lists, count: nat, c: nat, entire: bool, passed: bool,
                 recorded0: set<nat>, recorded: set<nat>, recorded': set<nat>)
    requires PassState(nodes, j, p0, p, s0, s, count, entire, recorded0, recorded) && j < |nodes|
    requires NoDup(nodes) && forall k | k in nodes :: IsKey(d, k) && |k| == |nodes[j]|
    requires Grew(s, s', c) && c <= 1
    requires PrunedFrom(d, p, p', nodes[j], nodes[j] !in p && !passed) && (passed <==> nodes[j] !in p')
    requires recorded <= recorded' && (|nodes[j]| == 1 && nodes[j] !in p ==> nodes[j][0] in recorded')
    ensures PassState(nodes, j + 1, p0, p', s0, s', count + c, entire && !passed, recorded0, recorded')
  {
    GrewTrans(s0, s, s', count, c);
    LevelPrunedStep(d, nodes, j, p, p', nodes[j] !in p && !passed);
  }

  /**
   * Steps g to i after a new window with occurrences `found` was enumerated
   * for the node `dims` at depth `level`: at the root, `stop` says the bound
   * from the largest recorded count over the root's pattern count fell below
   * the cross-K threshold; below the root the walk does not stop; unless it
   * stopped, the superpattern counts went from c to c' by handing down the
   * larger of the node's pattern count and its own superpattern count.
   */
  ghost predicate Handed(d: nat, dims: seq<nat>, level: int, c: map<seq<nat>, int>, c': map<seq<nat>, int>,
                         found: Result<seq<nat>>, counts: map<nat, nat>, largest: int, stop: bool,
                         crosskConst: real, thr: real) {
    dims in c && found.Ok? && |found.value| > 0 &&
    (level == 0 ==> IsLargest(counts, counts.Keys, largest) && UpperBound(crosskConst, largest, |found.value|).Ok? &&
                    (stop <==> UpperBound(crosskConst, largest, |found.value|).value < thr)) &&
    (level != 0 ==> !stop) &&
    (stop ==> c' == c) &&
    (!stop ==> c' == Raised(c, d, dims, if |found.value| < c[dims] then c[dims] else |found.value|))
  }

  /**
   * One more depth walked: its nodes all have a size no node walked so far
   * has, so the walked nodes grow by at least as many as the depth lists.
   */
  lemma WalkedGrow(done: set<seq<nat>>, nodes: seq<seq<nat>>, size: nat)
    requires NoDup(nodes) && (forall k | k in nodes :: |k| == size) && (forall k | k in done :: |k| != size)
    ensures |done + (set k | k in nodes)| >= |done| + |nodes|
  {
    var level := set k | k in nodes;
    NoDupBound(nodes, level);
    assert done * level == {};
  }

  /**
   * A node whose `superpattern_count` was never set (-1) is never pruned by
   * the bound once its largest singleton count is recorded: with a
   * non-negative constant the bound is not positive.
   */
  lemma UnsetNeverBounds(crosskConst: real, leafCount: int)
    requires crosskConst >= 0.0 && leafCount >= 0
    ensures UpperBound(crosskConst, leafCount, -1).Ok? && UpperBound(crosskConst, leafCount, -1).value <= 0.0
  {
    assert Ratio(leafCount, -1) == -(leafCount as real);
  }

  /** How the walk decided a node it reached unpruned. */
  datatype Kind =
    | Support  // an Apriori pass looked its window up, enumerated it when new, and tested its support
    | Bound    // an upper-bound pass pruned it by its bound, without looking its window up
    | Stored   // an upper-bound pass found its window already stored
    | Fresh    // an upper-bound pass enumerated its window and tested it

  /**
   * A node the walk reached unpruned: its dimensions, how it was decided,
   * its pattern window, whether the window was new to the store, the
   * window's support test, whether the node pruned its supersets, whether
   * it stopped the walk, and the numbers an upper-bound look's bound is
   * computed from: the largest recorded singleton count (`leaf`), the
   * node's superpattern count and the window's pattern count.
   */
  datatype Look = Look(dims: seq<nat>, kind: Kind, key: PatternKey, isNew: bool, above: bool, prunes: bool,
                       stops: bool, leaf: int, superCount: int, patternCount: int)

  /** A look as a visit of the support walk: the node, its window, whether it was new, and its support test. */
  function VisitOf(l: Look): Visit {
    Visit(l.dims, l.key, l.isNew, l.above)
  }

  /** The looks as visits, in order. */
  function VisitsOf(looks: seq<Look>): (r: seq<Visit>)
    ensures |r| == |looks| && forall i | 0 <= i < |looks| :: r[i] == VisitOf(looks[i])
  {
    seq(|looks|, i requires 0 <= i < |looks| => VisitOf(looks[i]))
  }

  /** The windows the looks enumerated, in order. */
  function Enumerated(looks: seq<Look>): (r: seq<PatternKey>)
    ensures |r| <= |looks|
  {
    NewKeys(VisitsOf(looks))
  }

  /** The nodes looked at, in order. */
  function DimsOf(looks: seq<Look>): seq<seq<nat>> {
    seq(|looks|, i requires 0 <= i < |looks| => looks[i].dims)
  }

  /** The nodes of a depth that are not in p, in the depth's order. */
  function Unpruned(nodes: seq<seq<nat>>, p: set<seq<nat>>): (r: seq<seq<nat>>)
    ensures forall k :: k in r <==> k in nodes && k !in p
  {
    if |nodes| == 0 then []
    else
      assert nodes == nodes[..|nodes| - 1] + [nodes[|nodes| - 1]];
      Unpruned(nodes[..|nodes| - 1], p) + (if nodes[|nodes| - 1] in p then [] else [nodes[|nodes| - 1]])
  }

  /** Node k was looked at. */
  ghost predicate Looked(looks: seq<Look>, k: seq<nat>) {
    exists i | 0 <= i < |looks| :: looks[i].dims == k
  }

  /** Node k is a lattice superset of a look that pruned. */
  ghost predicate PrunedBy(d: nat, looks: seq<Look>, k: seq<nat>) {
    exists i | 0 <= i < |looks| :: looks[i].prunes && Toward(d, Parents, looks[i].dims, k)
  }

  /** The pruned set p is closed under supersets and is exactly the nodes pruned by the looks. */
  ghost predicate Exact(d: nat, p: set<seq<nat>>, looks: seq<Look>) {
    Closed(d, Parents, p) && forall k {:trigger PrunedBy(d, looks, k)} :: k in p <==> PrunedBy(d, looks, k)
  }

  /** The looks are of lattice keys, and each comes after the earlier ones as `Apart` says. */
  ghost predicate Traversal(d: nat, looks: seq<Look>) {
    (forall i | 0 <= i < |looks| :: IsKey(d, looks[i].dims)) &&
    forall i, j | 0 <= i < j < |looks| :: Apart(looks, i, j)
  }

  /** The j-th look is of another node than the i-th, and not of a superset of it if the i-th pruned. */
  ghost predicate Apart(looks: seq<Look>, i: int, j: int)
    requires 0 <= i < j < |looks|
  {
    looks[i].dims != looks[j].dims && (looks[i].prunes ==> !Contains(looks[j].dims, looks[i].dims))
  }

  /** The bound from `leaf` over `count` is computed and lies strictly between 0 and the threshold. */
  ghost predicate Prunes(crosskConst: real, thr: real, leaf: int, count: int) {
    UpperBound(crosskConst, leaf, count).Ok? && 0.0 < UpperBound(crosskConst, leaf, count).value < thr
  }

  /**
   * What each kind of look means: a window looked up was cut from the
   * table; an Apriori look prunes exactly when its support falls below the
   * threshold; below the root an upper-bound look computed the bound from
   * its largest singleton count over its superpattern count, and it is a
   * Bound one, which prunes without enumerating, exactly when that bound
   * lies strictly between 0 and the cross-K threshold; a stored window
   * prunes everywhere but at the root, where it stops the walk; a fresh
   * window is enumerated and prunes nothing, and at the root it stops the
   * walk exactly when the bound from the largest singleton count over its
   * pattern count falls below the threshold. No other look stops the walk.
   */
  ghost predicate Rule(d: nat, data: Table, startIndex: int, endIndex: int, crosskConst: real, thr: real, l: Look) {
    (l.kind != Bound ==>
       WellFormed(data) && Below(l.dims, |data.names|) && l.key == Reconstruct(data, startIndex, endIndex, l.dims)) &&
    (l.kind != Support && |l.dims| < d ==>
       UpperBound(crosskConst, l.leaf, l.superCount).Ok? && (l.kind == Bound <==> Prunes(crosskConst, thr, l.leaf, l.superCount))) &&
    match l.kind
    case Support => l.prunes == !l.above && !l.stops
    case Bound => l.prunes && !l.isNew && !l.stops && |l.dims| < d
    case Stored => !l.isNew && (l.prunes <==> |l.dims| < d) && (l.stops <==> |l.dims| == d)
    case Fresh =>
      l.isNew && !l.prunes && (|l.dims| < d ==> !l.stops) &&
      (|l.dims| == d ==> UpperBound(crosskConst, l.leaf, l.patternCount).Ok? &&
                         (l.stops <==> UpperBound(crosskConst, l.leaf, l.patternCount).value < thr))
  }

  /**
   * The store went from s0 to s by the looks, the index holding m: every
   * entry kept, the enumerated windows appended in order with the
   * occurrences the index gives for them, and every window tested by a look
   * holding that support test as its flag; a fresh window's pattern count
   * is the number of its occurrences.
   */
  ghost predicate Logged(s0: Lists, s: Lists, looks: seq<Look>, thr: real, m: SeqMap) {
    Kept(s0, s) && Appended(s0, s, VisitsOf(looks), m) && Tested(s, looks, thr) && Counted(looks, m)
  }

  /** Every window tested by a look is stored with that support test as its flag. */
  ghost predicate Tested(s: Lists, looks: seq<Look>, thr: real) {
    forall i | 0 <= i < |looks| && (looks[i].kind == Support || looks[i].kind == Fresh) ::
      Judged(s, looks[i].key, looks[i].above, thr)
  }

  /** Every fresh window's pattern count is the number of its occurrences in the index m. */
  ghost predicate Counted(looks: seq<Look>, m: SeqMap) {
    forall i | 0 <= i < |looks| && looks[i].kind == Fresh :: looks[i].patternCount == |Found(m, looks[i].key)|
  }

  /** One more look: the nodes looked at, and those pruned by looks, grow by its own alone. */
  lemma LookStep(d: nat, looks: seq<Look>, l: Look, k: seq<nat>)
    ensures Looked(looks + [l], k) <==> Looked(looks, k) || l.dims == k
    ensures PrunedBy(d, looks + [l], k) <==> PrunedBy(d, looks, k) || (l.prunes && Toward(d, Parents, l.dims, k))
  {
    var ls := looks + [l];
    assert forall i | 0 <= i < |looks| :: ls[i] == looks[i];
    assert ls[|looks|] == l;
  }

  /** Pruning the supersets of a look that prunes, and nothing else, keeps the pruned set exact. */
  lemma ExactStep(d: nat, p: set<seq<nat>>, p': set<seq<nat>>, looks: seq<Look>, l: Look)
    requires Exact(d, p, looks) && Closed(d, Parents, p') && PrunedFrom(d, p, p', l.dims, l.prunes)
    ensures Exact(d, p', looks + [l])
  {
    forall k ensures k in p' <==> PrunedBy(d, looks + [l], k) {
      LookStep(d, looks, l, k);
    }
  }

  /** A look at an unpruned key not looked at before keeps the traversal's order. */
  lemma TraversalStep(d: nat, p: set<seq<nat>>, looks: seq<Look>, l: Look)
    requires Traversal(d, looks) && Exact(d, p, looks) && IsKey(d, l.dims) && l.dims !in p && !Looked(looks, l.dims)
    ensures Traversal(d, looks + [l])
  {
    var ls := looks + [l];
    assert !PrunedBy(d, looks, l.dims);
    forall i, j | 0 <= i < j < |ls| ensures Apart(ls, i, j) {
      assert ls[i] == looks[i];
      if j < |looks| {
        assert Apart(looks, i, j) && ls[j] == looks[j];
      } else {
        assert ls[j] == l;
      }
    }
  }

  /**
   * The store went from s to s' by the look: its window was evaluated, or
   * the store was left alone; a fresh window's pattern count is the number
   * of occurrences `found` gave.
   */
  ghost predicate Stepped(s: Lists, s': Lists, l: Look, found: Result<seq<nat>>, thr: real) {
    (l.kind == Support || l.kind == Fresh ==> Evaluated(s, s', l.key, found, l.isNew, l.above, thr)) &&
    (l.kind == Bound || l.kind == Stored ==> s' == s) &&
    (l.kind == Fresh ==> found.Ok? && l.patternCount == |found.value|)
  }

  /**
   * An upper-bound look at a new window that was evaluated and whose
   * result was handed down from the superpattern counts c to c', with the
   * bound below the root out of range: it obeys its rule, stepped the store
   * by that evaluation, took its bound from `counts` and c, and c' is c
   * after it.
   */
  lemma FreshLook(d: nat, data: Table, startIndex: int, endIndex: int, crosskConst: real, thrCrossK: real,
                  s: Lists, s': Lists, c: map<seq<nat>, int>, c': map<seq<nat>, int>, counts: map<nat, nat>,
                  level: int, largest: int, stop: bool, l: Look, found: Result<seq<nat>>, thr: real)
    requires WellFormed(data) && Below(l.dims, |data.names|) && l.key == Reconstruct(data, startIndex, endIndex, l.dims)
    requires l.kind == Fresh && l.isNew && !l.prunes && l.stops == stop && level == d - |l.dims| && 0 <= level
    requires Handed(d, l.dims, level, c, c', found, counts, largest, stop, crosskConst, thrCrossK)
    requires l.patternCount == (if found.Ok? then |found.value| else 0)
    requires level != 0 ==> l.leaf == MaxJoint(counts, l.dims) && l.superCount == c[l.dims] &&
                            UpperBound(crosskConst, l.leaf, l.superCount).Ok? && !Prunes(crosskConst, thrCrossK, l.leaf, l.superCount)
    requires level == 0 ==> l.leaf == largest
    requires Evaluated(s, s', l.key, found, true, l.above, thr)
    ensures Rule(d, data, startIndex, endIndex, crosskConst, thrCrossK, l) && Stepped(s, s', l, found, thr)
    ensures Based(counts, c, d, l) && c' == AfterLook(c, d, l)
  {
  }

  /**
   * An upper-bound look at a stored window, which prunes below the root and
   * stops the walk at it, with the bound below the root out of range, obeys
   * its rule and left the store alone.
   */
  lemma StoredLook(d: nat, data: Table, startIndex: int, endIndex: int, crosskConst: real, thrCrossK: real,
                   s: Lists, s': Lists, l: Look, found: Result<seq<nat>>, thr: real)
    requires WellFormed(data) && Below(l.dims, |data.names|) && l.key == Reconstruct(data, startIndex, endIndex, l.dims)
    requires l.kind == Stored && !l.isNew && (l.prunes <==> |l.dims| < d) && (l.stops <==> |l.dims| == d) && s' == s
    requires |l.dims| < d ==> UpperBound(crosskConst, l.leaf, l.superCount).Ok? && !Prunes(crosskConst, thrCrossK, l.leaf, l.superCount)
    ensures Rule(d, data, startIndex, endIndex, crosskConst, thrCrossK, l) && Stepped(s, s', l, found, thr)
  {
  }

  /** The store grows by one pattern for a look that enumerated a window and by none for any other. */
  lemma SteppedGrew(s: Lists, s': Lists, l: Look, found: Result<seq<nat>>, thr: real)
    requires Stepped(s, s', l, found, thr) && (l.kind == Bound || l.kind == Stored ==> !l.isNew)
    ensures Grew(s, s', if l.isNew then 1 else 0)
  {
  }

  /** A look whose window was evaluated, or one that left the store alone, extends the store's log. */
  lemma LoggedStep(s0: Lists, s: Lists, s': Lists, looks: seq<Look>, l: Look, found: Result<seq<nat>>, thr: real, m: SeqMap)
    requires Logged(s0, s, looks, thr, m)
    requires Stepped(s, s', l, found, thr) && (l.kind == Bound || l.kind == Stored ==> !l.isNew)
    requires found == Occurrences(m, l.key)
    ensures Logged(s0, s', looks + [l], thr, m)
  {
    if l.kind == Support || l.kind == Fresh {
      assert Evaluated(s, s', l.key, found, l.isNew, l.above, thr);
      KeptTrans(s0, s, s');
    } else {
      assert s' == s && !l.isNew;
    }
    assert Kept(s0, s');
    AppendedStep(s0, s, s', VisitsOf(looks), VisitOf(l), m);
    VisitsOfSnoc(looks, l);
    TestedStep(s, s', looks, l, found, thr);
    CountedStep(looks, l, found, m);
  }

  /** The visits of one more look are the earlier visits and its own. */
  lemma VisitsOfSnoc(looks: seq<Look>, l: Look)
    ensures VisitsOf(looks + [l]) == VisitsOf(looks) + [VisitOf(l)]
  {
  }

  /** One more look keeps every window tested so far stored with its flag. */
  lemma TestedStep(s: Lists, s': Lists, looks: seq<Look>, l: Look, found: Result<seq<nat>>, thr: real)
    requires Tested(s, looks, thr) && Stepped(s, s', l, found, thr)
    ensures Tested(s', looks + [l], thr)
  {
    var ls := looks + [l];
    assert forall i | 0 <= i < |looks| :: ls[i] == looks[i];
    if l.kind == Support || l.kind == Fresh {
      forall i | 0 <= i < |looks| && (looks[i].kind == Support || looks[i].kind == Fresh)
        ensures Judged(s', looks[i].key, looks[i].above, thr)
      {
        var key := looks[i].key;
        var idx := s.patterns[key];
        assert s'.patterns[key] == idx && s'.keys[idx] == key && s'.support[idx] == s.support[idx];
        if key != l.key {
          assert s'.above[idx] == s.above[idx];
        }
      }
    }
  }

  /** A fresh look counting the occurrences the index gave keeps every fresh count right. */
  lemma CountedStep(looks: seq<Look>, l: Look, found: Result<seq<nat>>, m: SeqMap)
    requires Counted(looks, m) && (l.kind == Fresh ==> found.Ok? && l.patternCount == |found.value|)
    requires found == Occurrences(m, l.key)
    ensures Counted(looks + [l], m)
  {
    var ls := looks + [l];
    assert forall i | 0 <= i < |looks| :: ls[i] == looks[i];
    assert ls[|looks|] == l;
  }

  /**
   * After looks that appended the windows they enumerated with their
   * occurrences, the store's keys being distinct: the entry of every new
   * window holds the occurrences the index gives for it.
   */
  lemma LoggedStored(d: nat, data: Table, startIndex: int, endIndex: int, crosskConst: real, thrCrossK: real,
                     s0: Lists, s: Lists, looks: seq<Look>, thr: real, m: SeqMap)
    requires Logged(s0, s, looks, thr, m)
    requires forall i | 0 <= i < |looks| :: Rule(d, data, startIndex, endIndex, crosskConst, thrCrossK, looks[i])
    requires |s0.occurrences| == |s0.keys| && NoDup(s.keys)
    ensures forall i | 0 <= i < |looks| && looks[i].isNew :: StoredWith(s, looks[i].key, Occurrences(m, looks[i].key))
  {
    forall i | 0 <= i < |looks| && looks[i].isNew ensures StoredWith(s, looks[i].key, Occurrences(m, looks[i].key)) {
      assert Rule(d, data, startIndex, endIndex, crosskConst, thrCrossK, looks[i]);
      assert Judged(s, looks[i].key, looks[i].above, thr);
      AppendedOccurrences(s0, s, VisitsOf(looks), m, i);
    }
  }

  /**
   * Part way through a pass over a depth's nodes, after the first j: the
   * looks since `looks0` are of exactly the nodes among those j that were
   * not pruned when the pass began (p0), in the depth's order, and they are
   * Apriori looks exactly when the pass is not an upper-bound one.
   */
  ghost predicate InPass(looks0: seq<Look>, looks: seq<Look>, nodes: seq<seq<nat>>, j: nat, p0: set<seq<nat>>, upper: bool) {
    j <= |nodes| && looks0 <= looks && DimsOf(looks) == DimsOf(looks0) + Unpruned(nodes[..j], p0) &&
    forall i | |looks0| <= i < |looks| :: (looks[i].kind == Support) == !upper
  }

  /** A pass begins with no look of its own. */
  lemma InPassStart(looks0: seq<Look>, nodes: seq<seq<nat>>, p0: set<seq<nat>>, upper: bool)
    ensures InPass(looks0, looks0, nodes, 0, p0, upper)
  {
    assert nodes[..0] == [];
    assert DimsOf(looks0) + [] == DimsOf(looks0);
  }

  /** The pass's next node: no look if it was pruned at the start of the pass, one look of it otherwise. */
  lemma InPassStep(looks0: seq<Look>, looks1: seq<Look>, looks: seq<Look>, nodes: seq<seq<nat>>, j: nat,
                   p0: set<seq<nat>>, upper: bool)
    requires InPass(looks0, looks1, nodes, j, p0, upper) && j < |nodes| && looks1 <= looks
    requires nodes[j] in p0 ==> looks == looks1
    requires nodes[j] !in p0 ==>
               |looks| == |looks1| + 1 && looks[|looks1|].dims == nodes[j] && (looks[|looks1|].kind == Support) == !upper
    ensures InPass(looks0, looks, nodes, j + 1, p0, upper)
  {
    assert nodes[..j + 1][..j] == nodes[..j];
    assert forall i | 0 <= i < |looks1| :: looks[i] == looks1[i];
    if nodes[j] !in p0 {
      assert DimsOf(looks) == DimsOf(looks1) + [nodes[j]];
    }
  }

  /** The pass's next node was not looked at: not by the pass, whose depth lists it once, nor before, at other sizes. */
  lemma NotLooked(looks0: seq<Look>, looks: seq<Look>, nodes: seq<seq<nat>>, j: nat, p0: set<seq<nat>>, upper: bool)
    requires InPass(looks0, looks, nodes, j, p0, upper) && j < |nodes| && NoDup(nodes)
    requires forall i | 0 <= i < |looks0| :: |looks0[i].dims| != |nodes[j]|
    ensures !Looked(looks, nodes[j])
  {
    assert forall m | 0 <= m < j :: nodes[..j][m] != nodes[j];
    forall i | 0 <= i < |looks| ensures looks[i].dims != nodes[j] {
      if i < |looks0| {
        assert looks[i] == looks0[i];
      } else {
        var u := Unpruned(nodes[..j], p0);
        assert DimsOf(looks)[i] == u[i - |looks0|];
        assert u[i - |looks0|] in u;
        assert nodes[j] !in nodes[..j];
      }
    }
  }

  /**
   * After a whole pass: every node of the depth was looked at or is pruned,
   * and the pass looked only at nodes of the depth.
   */
  lemma PassDone(looks0: seq<Look>, looks: seq<Look>, nodes: seq<seq<nat>>, p0: set<seq<nat>>, p: set<seq<nat>>)
    requires looks0 <= looks && DimsOf(looks) == DimsOf(looks0) + Unpruned(nodes, p0) && p0 <= p
    ensures forall k | k in nodes :: Looked(looks, k) || k in p
    ensures forall i | |looks0| <= i < |looks| :: looks[i].dims in nodes
  {
    var u := Unpruned(nodes, p0);
    forall k | k in nodes && k !in p ensures Looked(looks, k) {
      var m :| 0 <= m < |u| && u[m] == k;
      assert DimsOf(looks)[|looks0| + m] == k;
    }
    forall i | |looks0| <= i < |looks| ensures looks[i].dims in nodes {
      assert DimsOf(looks)[i] == u[i - |looks0|];
    }
  }

  /** k is a node of the lattice over d dimensions, with `size` dimensions. */
  ghost predicate AtSize(d: nat, keys: set<seq<nat>>, size: int, k: seq<nat>) {
    k in keys && IsKey(d, k) && |k| == size
  }

  /**
   * A depth's list of tuples: none twice, each a lattice node of the given
   * size.  The fact about each node is drawn out by naming it in `AtSize`.
   */
  ghost predicate LevelList(d: nat, keys: set<seq<nat>>, nodes: seq<seq<nat>>, size: int) {
    NoDup(nodes) && forall k {:trigger AtSize(d, keys, size, k)} {:trigger k in nodes} | k in nodes :: AtSize(d, keys, size, k)
  }

  /** The depth's list, node by node. */
  lemma LevelListKeys(d: nat, keys: set<seq<nat>>, nodes: seq<seq<nat>>, size: int)
    requires LevelList(d, keys, nodes, size)
    ensures NoDup(nodes) && forall k | k in nodes :: k in keys && IsKey(d, k) && |k| == size
  {
    forall k | k in nodes ensures k in keys && IsKey(d, k) && |k| == size {
      assert AtSize(d, keys, size, k);
    }
  }

  /** The only node at depth 0 is the full tuple, so that depth lists at most one node. */
  lemma RootOnly(d: nat, keys: set<seq<nat>>, nodes: seq<seq<nat>>)
    requires LevelList(d, keys, nodes, d)
    ensures |nodes| <= 1
  {
    if |nodes| > 1 {
      assert AtSize(d, keys, d, nodes[0]) && AtSize(d, keys, d, nodes[1]);
      FullKeyIsRange(d, nodes[0]);
      FullKeyIsRange(d, nodes[1]);
      assert false;
    }
  }

  /** A look that pruned its supersets reaches only nodes at least its size. */
  lemma DeeperKept(d: nat, p: set<seq<nat>>, p': set<seq<nat>>, looks0: seq<Look>, looks: seq<Look>, size: int, k: seq<nat>)
    requires Exact(d, p, looks0) && Exact(d, p', looks) && looks0 <= looks && Traversal(d, looks)
    requires forall i | |looks0| <= i < |looks| :: |looks[i].dims| == size
    requires IsKey(d, k) && |k| < size
    ensures k in p' <==> k in p
  {
    assert forall i | 0 <= i < |looks0| :: looks[i] == looks0[i];
    assert (k in p' <==> PrunedBy(d, looks, k)) && (k in p <==> PrunedBy(d, looks0, k));
    if PrunedBy(d, looks, k) {
      var i :| 0 <= i < |looks| && looks[i].prunes && Toward(d, Parents, looks[i].dims, k);
      if i >= |looks0| {
        ContainsLength(d, k, looks[i].dims);
        assert false;
      }
      assert looks0[i] == looks[i];
    }
  }

  /** The nodes of the lattice over d dimensions: every key for two dimensions or more, none below. */
  ghost function LatticeKeys(d: nat): set<seq<nat>> {
    if d >= 2 then AllKeys(d) else {}
  }

  /** Every node of the lattice with `size` dimensions is in p. */
  ghost predicate Full(keys: set<seq<nat>>, p: set<seq<nat>>, size: int) {
    forall k | k in keys && |k| == size :: k in p
  }

  /**
   * The stop rule so far, the Apriori passes having walked the sizes up to
   * d - bottom - 1: each size walked before the last kept a node unpruned,
   * and the last one, if it left the whole size pruned, stopped the walk.
   */
  ghost predicate Going(d: nat, keys: set<seq<nat>>, bottom: int, p: set<seq<nat>>, stop: bool) {
    (forall size | 0 < size < d - bottom - 1 :: !Full(keys, p, size)) &&
    (bottom + 1 < d && Full(keys, p, d - bottom - 1) ==> stop)
  }

  /** The last look is of the full tuple, in the upper-bound pass at depth 0. */
  ghost predicate StoppedAtRoot(d: nat, top: int, looks: seq<Look>) {
    top == 1 && LastAtRoot(d, looks)
  }

  /** The last look is of the full tuple and stopped the walk. */
  ghost predicate LastAtRoot(d: nat, looks: seq<Look>) {
    |looks| > 0 && |looks[|looks| - 1].dims| == d && looks[|looks| - 1].stops
  }

  /** A look that stopped the walk is the last one, and only when the walk stopped. */
  ghost predicate StopsLast(looks: seq<Look>, stop: bool) {
    forall i | 0 <= i < |looks| && looks[i].stops :: stop && i == |looks| - 1
  }

  /** A look after looks none of which stopped the walk stops it only if it stops itself. */
  lemma StopsLastStep(looks: seq<Look>, l: Look)
    requires StopsLast(looks, false)
    ensures StopsLast(looks + [l], l.stops)
  {
    var ls := looks + [l];
    assert forall i | 0 <= i < |looks| :: ls[i] == looks[i];
  }

  /**
   * Why the walk stopped: the last Apriori pass left its whole size
   * pruned, or a look at the root stopped it; and a look that stopped it is
   * the last one.
   */
  ghost predicate Halt(d: nat, keys: set<seq<nat>>, top: int, bottom: int, p: set<seq<nat>>, looks: seq<Look>, stop: bool) {
    (stop ==> (bottom + 1 < d && Full(keys, p, d - bottom - 1)) || StoppedAtRoot(d, top, looks)) &&
    StopsLast(looks, stop)
  }

  /**
   * The superpattern counts after the look: a fresh window that did not
   * stop the walk hands the larger of its pattern count and its node's own
   * superpattern count down to the node's children; any other look leaves
   * the counts alone.
   */
  ghost function AfterLook(c: map<seq<nat>, int>, d: nat, l: Look): map<seq<nat>, int> {
    if l.kind == Fresh && !l.stops && l.dims in c
    then Raised(c, d, l.dims, if l.patternCount < c[l.dims] then c[l.dims] else l.patternCount)
    else c
  }

  /** The superpattern counts after the looks from index `from` on, one look at a time. */
  ghost function AfterLooks(c: map<seq<nat>, int>, d: nat, looks: seq<Look>, from: nat): map<seq<nat>, int>
    decreases |looks|
  {
    if |looks| <= from then c else AfterLook(AfterLooks(c, d, looks[..|looks| - 1], from), d, looks[|looks| - 1])
  }

  /**
   * The largest singleton count an upper-bound look's bound came from: the
   * largest among the node's dimensions below the root, the largest of all
   * at a fresh root.
   */
  ghost predicate LeafFrom(counts: map<nat, nat>, d: nat, l: Look) {
    (|l.dims| < d ==> l.leaf == MaxJoint(counts, l.dims)) &&
    (l.kind == Fresh && |l.dims| == d ==> IsLargest(counts, counts.Keys, l.leaf))
  }

  /** The numbers an upper-bound look's bound came from: its largest singleton count, and below the root its node's count in c. */
  ghost predicate Based(counts: map<nat, nat>, c: map<seq<nat>, int>, d: nat, l: Look) {
    LeafFrom(counts, d, l) && (|l.dims| < d ==> l.dims in c && l.superCount == c[l.dims])
  }

  /** Every upper-bound look took its largest singleton count from `counts`. */
  ghost predicate Leafed(counts: map<nat, nat>, d: nat, looks: seq<Look>) {
    forall i | 0 <= i < |looks| && looks[i].kind != Support :: LeafFrom(counts, d, looks[i])
  }

  /**
   * Part way through an upper-bound pass over the nodes with `size`
   * dimensions, which began at the superpattern counts c0 after the looks
   * `looks0`: the counts are c0 after the pass's looks, the counts of the
   * pass's own size are as they were, and each look of the pass computed
   * its bound from `counts` and from its node's count in c0.
   */
  ghost predicate Handing(c0: map<seq<nat>, int>, c: map<seq<nat>, int>, counts: map<nat, nat>, d: nat, size: int,
                          looks0: seq<Look>, looks: seq<Look>) {
    |looks0| <= |looks| && c == AfterLooks(c0, d, looks, |looks0|) && c.Keys == c0.Keys &&
    (forall k | k in c0 && |k| == size :: c[k] == c0[k]) &&
    forall i | |looks0| <= i < |looks| :: Based(counts, c0, d, looks[i])
  }

  /** A pass begins with the counts it finds. */
  lemma HandingStart(c0: map<seq<nat>, int>, counts: map<nat, nat>, d: nat, size: int, looks0: seq<Look>)
    ensures Handing(c0, c0, counts, d, size, looks0, looks0)
  {
  }

  /**
   * One more look of the pass, at a node of the pass's size: it hands down
   * only to the next size, so the pass's own counts stay as they were and
   * the node's count when it was reached is its count at the pass's start.
   */
  lemma HandingStep(c0: map<seq<nat>, int>, c: map<seq<nat>, int>, c': map<seq<nat>, int>, counts: map<nat, nat>,
                    d: nat, size: int, looks0: seq<Look>, looks: seq<Look>, l: Look)
    requires Handing(c0, c, counts, d, size, looks0, looks) && |l.dims| == size
    requires c' == AfterLook(c, d, l) && Based(counts, c, d, l)
    ensures Handing(c0, c', counts, d, size, looks0, looks + [l])
  {
    var ls := looks + [l];
    assert ls[..|ls| - 1] == looks;
    assert forall i | 0 <= i < |looks| :: ls[i] == looks[i];
    assert ls[|looks|] == l;
    forall k | k in c0 && |k| == size ensures c'[k] == c[k] {
    }
  }

  /** The looks of an upper-bound pass take their largest singleton counts from `counts`, as the earlier ones did. */
  lemma LeafedPass(c0: map<seq<nat>, int>, c: map<seq<nat>, int>, counts: map<nat, nat>, d: nat, size: int,
                   looks0: seq<Look>, looks: seq<Look>)
    requires Leafed(counts, d, looks0) && Handing(c0, c, counts, d, size, looks0, looks) && looks0 <= looks
    ensures Leafed(counts, d, looks)
  {
    forall i | 0 <= i < |looks| && looks[i].kind != Support ensures LeafFrom(counts, d, looks[i]) {
      if i < |looks0| {
        assert looks[i] == looks0[i];
      } else {
        assert Based(counts, c0, d, looks[i]);
      }
    }
  }

  /**
   * An Apriori pass adds no upper-bound look, and the singleton counts it
   * records change only while no upper-bound look has been made.
   */
  lemma LeafedBottom(counts0: map<nat, nat>, counts: map<nat, nat>, d: nat, looks0: seq<Look>, looks: seq<Look>)
    requires Leafed(counts0, d, looks0) && looks0 <= looks
    requires forall i | |looks0| <= i < |looks| :: looks[i].kind == Support
    requires counts != counts0 ==> forall i | 0 <= i < |looks0| :: looks0[i].kind == Support
    ensures Leafed(counts, d, looks)
  {
    forall i | 0 <= i < |looks| && looks[i].kind != Support ensures LeafFrom(counts, d, looks[i]) {
      assert looks[i] == looks0[i];
    }
  }

  /** Every superpattern count at -1, as on a fresh lattice: nothing handed down yet. */
  ghost function Unset(keys: set<seq<nat>>): map<seq<nat>, int> {
    map k | k in keys :: -1
  }

  /** A walk that began with nothing handed down states its bounds from the unset counts. */
  lemma HandedFresh(cw: map<seq<nat>, int>, c: map<seq<nat>, int>, d: nat, keys: set<seq<nat>>, looks: seq<Look>)
    requires cw == Unset(keys) && HandedWalk(cw, c, d, looks)
    ensures HandedFrom(Unset(keys), d, looks)
  {
  }

  /** An upper-bound look below the root took its node's superpattern count from `c`. */
  ghost predicate FoundIn(c: map<seq<nat>, int>, d: nat, l: Look) {
    l.kind != Support && |l.dims| < d ==> l.dims in c && l.superCount == c[l.dims]
  }

  /**
   * Across the walk, from the counts `cw` it began with: each upper-bound
   * look below the root took its node's superpattern count from `cw` after
   * every earlier look had handed down.
   */
  ghost predicate HandedFrom(cw: map<seq<nat>, int>, d: nat, looks: seq<Look>)
    decreases |looks|
  {
    |looks| == 0 ||
    (HandedFrom(cw, d, looks[..|looks| - 1]) && FoundIn(AfterLooks(cw, d, looks[..|looks| - 1], 0), d, looks[|looks| - 1]))
  }

  /** The counts `c` are `cw` after every look so far, and each bound came from the counts its look found. */
  ghost predicate HandedWalk(cw: map<seq<nat>, int>, c: map<seq<nat>, int>, d: nat, looks: seq<Look>) {
    c == AfterLooks(cw, d, looks, 0) && HandedFrom(cw, d, looks)
  }

  /** `HandedFrom` look by look: the i-th look found its count after the i looks before it. */
  lemma {:induction false} HandedAt(cw: map<seq<nat>, int>, d: nat, looks: seq<Look>, i: nat)
    requires HandedFrom(cw, d, looks) && i < |looks|
    ensures FoundIn(AfterLooks(cw, d, looks[..i], 0), d, looks[i])
    decreases |looks|
  {
    var front := looks[..|looks| - 1];
    if i < |front| {
      HandedAt(cw, d, front, i);
      assert front[..i] == looks[..i] && front[i] == looks[i];
    }
  }

  /** Looks that each found their count after the earlier ones extend `HandedFrom`. */
  lemma {:induction false} HandedExtend(cw: map<seq<nat>, int>, d: nat, looks0: seq<Look>, looks: seq<Look>)
    requires HandedFrom(cw, d, looks0) && looks0 <= looks
    requires forall i | |looks0| <= i < |looks| :: FoundIn(AfterLooks(cw, d, looks[..i], 0), d, looks[i])
    ensures HandedFrom(cw, d, looks)
    decreases |looks|
  {
    if |looks| > |looks0| {
      var front := looks[..|looks| - 1];
      assert looks0 <= front;
      forall i | |looks0| <= i < |front| ensures FoundIn(AfterLooks(cw, d, front[..i], 0), d, front[i]) {
        assert front[..i] == looks[..i] && front[i] == looks[i];
      }
      HandedExtend(cw, d, looks0, front);
    } else {
      assert looks == looks0;
    }
  }

  /** Handing down the looks up to `looks0` and then the rest is handing down all of them. */
  lemma {:induction false} AfterLooksSplit(cw: map<seq<nat>, int>, d: nat, looks0: seq<Look>, looks: seq<Look>)
    requires looks0 <= looks
    ensures AfterLooks(cw, d, looks, 0) == AfterLooks(AfterLooks(cw, d, looks0, 0), d, looks, |looks0|)
    decreases |looks|
  {
    if |looks| > |looks0| {
      var front := looks[..|looks| - 1];
      assert looks0 <= front;
      AfterLooksSplit(cw, d, looks0, front);
    } else {
      assert looks == looks0;
    }
  }

  /** Looks at nodes of one size hand down to the next size only, so the counts of their own size stay. */
  lemma {:induction false} SameSizeKept(c: map<seq<nat>, int>, d: nat, looks: seq<Look>, from: nat, size: int, k: seq<nat>)
    requires forall j | from <= j < |looks| :: |looks[j].dims| == size
    requires k in c && |k| == size
    ensures k in AfterLooks(c, d, looks, from) && AfterLooks(c, d, looks, from)[k] == c[k]
    decreases |looks|
  {
    if |looks| > from {
      SameSizeKept(c, d, looks[..|looks| - 1], from, size, k);
    }
  }

  /** Apriori looks hand nothing down. */
  lemma {:induction false} SupportKept(c: map<seq<nat>, int>, d: nat, looks: seq<Look>, from: nat)
    requires forall j | from <= j < |looks| :: looks[j].kind == Support
    ensures AfterLooks(c, d, looks, from) == c
    decreases |looks|
  {
    if |looks| > from {
      SupportKept(c, d, looks[..|looks| - 1], from);
    }
  }

  /**
   * An upper-bound pass over nodes of one size carries the walk's hand-down
   * on: the pass began at the walk's counts, and each of its looks found its
   * node's count as the pass began.
   */
  lemma HandedPass(cw: map<seq<nat>, int>, c0: map<seq<nat>, int>, c: map<seq<nat>, int>, counts: map<nat, nat>,
                   d: nat, size: int, nodes: seq<seq<nat>>, looks0: seq<Look>, looks: seq<Look>)
    requires HandedWalk(cw, c0, d, looks0) && Handing(c0, c, counts, d, size, looks0, looks) && looks0 <= looks
    requires forall k | k in nodes :: |k| == size
    requires forall i | |looks0| <= i < |looks| :: looks[i].dims in nodes
    ensures HandedWalk(cw, c, d, looks)
  {
    AfterLooksSplit(cw, d, looks0, looks);
    forall i | |looks0| <= i < |looks| ensures FoundIn(AfterLooks(cw, d, looks[..i], 0), d, looks[i]) {
      if looks[i].kind != Support && |looks[i].dims| < d {
        var front := looks[..i];
        assert looks0 <= front;
        assert Based(counts, c0, d, looks[i]);
        AfterLooksSplit(cw, d, looks0, front);
        assert forall j | |looks0| <= j < |front| :: front[j] == looks[j];
        SameSizeKept(c0, d, front, |looks0|, size, looks[i].dims);
      }
    }
    HandedExtend(cw, d, looks0, looks);
  }

  /** An Apriori pass carries the walk's hand-down on unchanged. */
  lemma HandedBottom(cw: map<seq<nat>, int>, c: map<seq<nat>, int>, d: nat, looks0: seq<Look>, looks: seq<Look>)
    requires HandedWalk(cw, c, d, looks0) && looks0 <= looks
    requires forall i | |looks0| <= i < |looks| :: looks[i].kind == Support
    ensures HandedWalk(cw, c, d, looks)
  {
    AfterLooksSplit(cw, d, looks0, looks);
    SupportKept(c, d, looks, |looks0|);
    HandedExtend(cw, d, looks0, looks);
  }

  /**
   * The depth of the walk's k-th pass, counting from 0: the Apriori passes
   * (even k) climb from the singletons' depth D - 1, the upper-bound passes
   * (odd k) descend from the root's depth 0, one of each per turn of the
   * while loop.
   */
  function PassLevel(d: nat, k: nat): int {
    if k % 2 == 0 then d - 1 - k / 2 else k / 2
  }

  /**
   * The pass a look belongs to by its kind and size: an Apriori look at size
   * s is in pass 2 (s - 1), an upper-bound look at size s in pass 2 (D - s) + 1.
   */
  function PassRank(d: nat, l: Look): int {
    if l.kind == Support then 2 * (|l.dims| - 1) else 2 * (d - |l.dims|) + 1
  }

  /** No look belongs to an earlier pass than a look before it. */
  ghost predicate Ranked(d: nat, looks: seq<Look>) {
    forall i, j | 0 <= i < j < |looks| :: PassRank(d, looks[i]) <= PassRank(d, looks[j])
  }

  /** Every look belongs to one of the first n passes. */
  ghost predicate RanksBelow(d: nat, looks: seq<Look>, n: int) {
    forall i | 0 <= i < |looks| :: 0 <= PassRank(d, looks[i]) < n
  }

  /**
   * The k-th pass, run after the looks `before`, made the looks `pass`: at
   * its depth, in the depth's order, exactly the nodes that the looks before
   * it had not pruned, each look of the pass's kind.
   */
  ghost predicate PassOf(d: nat, levels: LatticeLists.Levels, k: nat, before: seq<Look>, pass: seq<Look>) {
    PassLevel(d, k) in levels &&
    (exists p :: Exact(d, p, before) && DimsOf(pass) == Unpruned(levels[PassLevel(d, k)], p)) &&
    forall i | 0 <= i < |pass| :: (pass[i].kind == Support) == (k % 2 == 0)
  }

  /**
   * The looks are the walk's passes in order, the k-th ending before look
   * `ends[k]`: pass after pass, alternating between the two ends of the
   * lattice as `PassLevel` says.
   */
  ghost predicate Passes(d: nat, levels: LatticeLists.Levels, looks: seq<Look>, ends: seq<int>) {
    (if |ends| == 0 then |looks| == 0 else ends[|ends| - 1] == |looks|) &&
    forall k | 0 <= k < |ends| :: PassAt(d, levels, looks, ends, k)
  }

  /** Where pass k of the split `ends` begins. */
  function PassStart(ends: seq<int>, k: int): int
    requires 0 <= k < |ends|
  {
    if k == 0 then 0 else ends[k - 1]
  }

  /** Pass k of the split `ends` is a pass of the walk after the looks before it. */
  ghost predicate PassAt(d: nat, levels: LatticeLists.Levels, looks: seq<Look>, ends: seq<int>, k: int) {
    0 <= k < |ends| && 0 <= PassStart(ends, k) <= ends[k] <= |looks| &&
    PassOf(d, levels, k, looks[..PassStart(ends, k)], looks[PassStart(ends, k)..ends[k]])
  }

  /** A pass of the walk stays one when more looks follow. */
  lemma PassKept(d: nat, levels: LatticeLists.Levels, looks0: seq<Look>, looks: seq<Look>, ends: seq<int>, k: int)
    requires Passes(d, levels, looks0, ends) && looks0 <= looks && 0 <= k < |ends|
    ensures PassAt(d, levels, looks, ends + [|looks|], k)
  {
    assert PassAt(d, levels, looks0, ends, k);
    var start, ends' := PassStart(ends, k), ends + [|looks|];
    assert PassStart(ends', k) == start && ends'[k] == ends[k];
    assert looks[..start] == looks0[..start];
    assert looks[start..ends[k]] == looks0[start..ends[k]];
  }

  /**
   * The next pass of the walk, in turn t of the while loop, the Apriori one
   * at depth D - 1 - t or the upper-bound one at depth t, starting from the
   * pruned set p of the looks so far and looking at the depth's unpruned
   * nodes in order, extends the walk's passes by one.
   */
  lemma PassesNext(d: nat, levels: LatticeLists.Levels, t: nat, upper: bool, level: int, p: set<seq<nat>>,
                   looks0: seq<Look>, looks: seq<Look>, ends: seq<int>)
    requires Passes(d, levels, looks0, ends) && looks0 <= looks && Exact(d, p, looks0)
    requires |ends| == 2 * t + (if upper then 1 else 0) && level == (if upper then t else d - 1 - t)
    requires level in levels && DimsOf(looks) == DimsOf(looks0) + Unpruned(levels[level], p)
    requires forall i | |looks0| <= i < |looks| :: (looks[i].kind == Support) == !upper
    ensures Passes(d, levels, looks, ends + [|looks|])
  {
    var ends' := ends + [|looks|];
    forall k | 0 <= k < |ends| ensures PassAt(d, levels, looks, ends', k) {
      PassKept(d, levels, looks0, looks, ends, k);
    }
    assert PassLevel(d, |ends|) == level && (|ends| % 2 == 0) == !upper;
    assert PassStart(ends', |ends|) == |looks0|;
    assert looks[..|looks0|] == looks0;
    var pass := looks[|looks0|..];
    assert DimsOf(pass) == Unpruned(levels[level], p) by {
      assert forall i | 0 <= i < |pass| :: DimsOf(pass)[i] == DimsOf(looks)[|looks0| + i];
    }
    assert forall i | 0 <= i < |pass| :: pass[i] == looks[|looks0| + i];
    assert PassAt(d, levels, looks, ends', |ends|);
  }

  /** The passes of a split end in order. */
  lemma {:induction false} EndsOrdered(d: nat, levels: LatticeLists.Levels, looks: seq<Look>, ends: seq<int>, k: int, k': int)
    requires Passes(d, levels, looks, ends) && 0 <= k <= k' < |ends|
    ensures ends[k] <= ends[k']
    decreases k' - k
  {
    if k < k' {
      assert PassAt(d, levels, looks, ends, k');
      EndsOrdered(d, levels, looks, ends, k, k' - 1);
    }
  }

  /** Look i lies in pass k, the first pass from k0 on that ends after it. */
  lemma {:induction false} PassContaining(d: nat, levels: LatticeLists.Levels, looks: seq<Look>, ends: seq<int>, i: int, k0: int)
    returns (k: int)
    requires Passes(d, levels, looks, ends) && 0 <= i < |looks| && 0 <= k0 < |ends| && PassStart(ends, k0) <= i
    ensures k0 <= k < |ends| && PassStart(ends, k) <= i < ends[k]
    decreases |ends| - k0
  {
    if i < ends[k0] {
      k := k0;
    } else {
      k := PassContaining(d, levels, looks, ends, i, k0 + 1);
    }
  }

  /** A look in pass k has rank k. */
  lemma RankOfPass(d: nat, keys: set<seq<nat>>, levels: LatticeLists.Levels, looks: seq<Look>, ends: seq<int>, k: int, i: int)
    requires LatticeLists.Ordered(d, keys, levels) && Passes(d, levels, looks, ends)
    requires 0 <= k < |ends| && PassStart(ends, k) <= i < ends[k] && 0 <= i < |looks|
    ensures PassRank(d, looks[i]) == k
  {
    assert PassAt(d, levels, looks, ends, k);
    var start := PassStart(ends, k);
    var before, pass := looks[..start], looks[start..ends[k]];
    var p :| Exact(d, p, before) && DimsOf(pass) == Unpruned(levels[PassLevel(d, k)], p);
    assert pass[i - start] == looks[i];
    assert DimsOf(pass)[i - start] == looks[i].dims;
    assert looks[i].dims in levels[PassLevel(d, k)];
  }

  /**
   * The walk's passes come in rank order: every look of pass k has rank k,
   * so no look belongs to an earlier pass than a look before it.
   */
  lemma PassesRanked(d: nat, keys: set<seq<nat>>, levels: LatticeLists.Levels, looks: seq<Look>, ends: seq<int>)
    requires LatticeLists.Ordered(d, keys, levels) && Passes(d, levels, looks, ends)
    ensures RanksBelow(d, looks, |ends|) && Ranked(d, looks)
  {
    forall i | 0 <= i < |looks| ensures 0 <= PassRank(d, looks[i]) < |ends| {
      var k := PassContaining(d, levels, looks, ends, i, 0);
      RankOfPass(d, keys, levels, looks, ends, k, i);
    }
    forall i, j | 0 <= i < j < |looks| ensures PassRank(d, looks[i]) <= PassRank(d, looks[j]) {
      var ki := PassContaining(d, levels, looks, ends, i, 0);
      var kj := PassContaining(d, levels, looks, ends, j, 0);
      RankOfPass(d, keys, levels, looks, ends, ki, i);
      RankOfPass(d, keys, levels, looks, ends, kj, j);
      if kj < ki {
        EndsOrdered(d, levels, looks, ends, kj, ki - 1);
      }
    }
  }


  /**
   * The depths walked are those above `top` (by the upper-bound passes) and
   * below `bottom` (by the Apriori passes): each of their nodes was looked
   * at or is pruned, and every look lies in the range of its pass.
   */
  ghost predicate Reached(d: nat, keys: set<seq<nat>>, top: int, bottom: int, p: set<seq<nat>>, looks: seq<Look>) {
    (forall k | k in keys && (d - |k| < top || d - |k| > bottom) :: Looked(looks, k) || k in p) &&
    forall i | 0 <= i < |looks| ::
      (looks[i].kind == Support ==> d - |looks[i].dims| > bottom) && (looks[i].kind != Support ==> d - |looks[i].dims| < top)
  }

  /** A size a pass leaves alone that was not all pruned stays so. */
  lemma StillShort(d: nat, keys: set<seq<nat>>, p: set<seq<nat>>, p': set<seq<nat>>, looks0: seq<Look>, looks: seq<Look>,
                   size: int, size': int)
    requires Exact(d, p, looks0) && Exact(d, p', looks) && looks0 <= looks && Traversal(d, looks)
    requires forall k | k in keys :: IsKey(d, k)
    requires forall i | |looks0| <= i < |looks| :: |looks[i].dims| == size'
    requires size < size' && !Full(keys, p, size)
    ensures !Full(keys, p', size)
  {
    var k :| k in keys && |k| == size && k !in p;
    DeeperKept(d, p, p', looks0, looks, size', k);
  }

  /** An Apriori pass at `bottom` keeps the stop rule, its answer saying whether it left its size all pruned. */
  lemma GoingBottom(d: nat, keys: set<seq<nat>>, bottom: int, p: set<seq<nat>>, p': set<seq<nat>>,
                    looks0: seq<Look>, looks: seq<Look>, stop: bool)
    requires Exact(d, p, looks0) && Exact(d, p', looks) && looks0 <= looks && Traversal(d, looks)
    requires forall k | k in keys :: IsKey(d, k)
    requires forall i | |looks0| <= i < |looks| :: |looks[i].dims| == d - bottom
    requires Going(d, keys, bottom, p, false) && (Full(keys, p', d - bottom) ==> stop)
    ensures Going(d, keys, bottom - 1, p', stop)
  {
    forall size | 0 < size < d - bottom ensures !Full(keys, p', size) {
      StillShort(d, keys, p, p', looks0, looks, size, d - bottom);
    }
  }

  /** An upper-bound pass at `top`, above the Apriori sizes, leaves the stop rule as it was. */
  lemma GoingTop(d: nat, keys: set<seq<nat>>, top: int, bottom: int, p: set<seq<nat>>, p': set<seq<nat>>,
                 looks0: seq<Look>, looks: seq<Look>, stop: bool)
    requires Exact(d, p, looks0) && Exact(d, p', looks) && looks0 <= looks && Traversal(d, looks)
    requires forall k | k in keys :: IsKey(d, k)
    requires forall i | |looks0| <= i < |looks| :: |looks[i].dims| == d - top
    requires top <= bottom && Going(d, keys, bottom, p, false)
    ensures Going(d, keys, bottom, p', stop)
  {
    forall size | 0 < size < d - bottom ensures !Full(keys, p', size) {
      StillShort(d, keys, p, p', looks0, looks, size, d - top);
    }
  }

  /**
   * A pass over depth `level`, from the pruned set p to p', looking at
   * exactly the nodes that were unpruned: the depth joins the walked ones.
   */
  lemma ReachedStep(d: nat, keys: set<seq<nat>>, levels: LatticeLists.Levels, level: int, top: int, bottom: int,
                    p: set<seq<nat>>, p': set<seq<nat>>, looks0: seq<Look>, looks: seq<Look>, upper: bool)
    requires LatticeLists.Ordered(d, keys, levels) && level in levels && top <= bottom
    requires Reached(d, keys, top, bottom, p, looks0) && p <= p'
    requires looks0 <= looks && DimsOf(looks) == DimsOf(looks0) + Unpruned(levels[level], p)
    requires forall i | |looks0| <= i < |looks| :: (looks[i].kind == Support) == !upper
    requires if upper then level == top else level == bottom
    ensures Reached(d, keys, if upper then top + 1 else top, if upper then bottom else bottom - 1, p', looks)
  {
    var nodes := levels[level];
    PassDone(looks0, looks, nodes, p, p');
    assert forall i | 0 <= i < |looks0| :: looks[i] == looks0[i];
    forall k | k in keys && Looked(looks0, k) ensures Looked(looks, k) {
      var i :| 0 <= i < |looks0| && looks0[i].dims == k;
    }
  }

  /**
   * Part way through an upper-bound pass, after the first j nodes: the
   * pruned set grew from p0 to p and the store from s0 to s by `count`
   * windows, at most one per node, and the nodes not reached yet are pruned
   * only if they were at the start.
   */
  ghost predicate UpperState(nodes: seq<seq<nat>>, j: nat, p0: set<seq<nat>>, p: set<seq<nat>>, s0: Lists, s: Lists, count: nat) {
    j <= |nodes| && p0 <= p && Grew(s0, s, count) && count <= j &&
    forall i | j <= i < |nodes| :: nodes[i] in p <==> nodes[i] in p0
  }

  /** After the whole upper-bound pass, its bookkeeping speaks of the depth's nodes as a whole. */
  lemma UpperEnd(nodes: seq<seq<nat>>, j: nat, p0: set<seq<nat>>, p: set<seq<nat>>, s0: Lists, s: Lists, count: nat,
                 looks0: seq<Look>, looks: seq<Look>)
    requires UpperState(nodes, j, p0, p, s0, s, count) && InPass(looks0, looks, nodes, j, p0, true) && j == |nodes|
    ensures p0 <= p && Grew(s0, s, count) && count <= |nodes|
    ensures looks0 <= looks && DimsOf(looks) == DimsOf(looks0) + Unpruned(nodes, p0) &&
            forall i | |looks0| <= i < |looks| :: looks[i].kind != Support
  {
    assert nodes[..j] == nodes;
  }

  /**
   * Part way through the while loop: the depths above `bottom` and below
   * `top` have been walked, the lattice is untouched while no pass has run,
   * the store grew by `total` windows, and the nodes walked (`done`) are
   * lattice nodes, at least as many as the windows enumerated.
   */
  ghost predicate WalkState(d: nat, keys: set<seq<nat>>, top: int, bottom: int, p: set<seq<nat>>, s0: Lists, s: Lists,
                            total: nat, done: set<seq<nat>>) {
    0 <= top && bottom <= d - 1 && top <= bottom + 1 &&
    (bottom == d - 1 ==> p == {}) &&
    Grew(s0, s, total) && total <= |done| && done <= keys &&
    forall k | k in done :: |k| < d - bottom || |k| > d - top
  }

  /** Once the singletons' depth has been walked, every dimension has a recorded count. */
  ghost predicate AllRecorded(d: nat, bottom: int, recorded: set<nat>) {
    d >= 2 && bottom < d - 1 ==> forall i | 0 <= i < d :: i in recorded
  }

  /** The Apriori pass at `bottom` walked the depth's nodes and enumerated at most one window per node. */
  lemma WalkBottomStep(d: nat, keys: set<seq<nat>>, top: int, bottom: int, nodes: seq<seq<nat>>, p: set<seq<nat>>,
                       p': set<seq<nat>>, s0: Lists, s: Lists, s': Lists, total: nat, count: nat, done: set<seq<nat>>)
    returns (done': set<seq<nat>>)
    requires WalkState(d, keys, top, bottom, p, s0, s, total, done) && top <= bottom
    requires NoDup(nodes) && forall k | k in nodes :: k in keys && |k| == d - bottom
    requires Grew(s, s', count) && count <= |nodes|
    ensures WalkState(d, keys, top, bottom - 1, p', s0, s', total + count, done')
  {
    WalkedGrow(done, nodes, d - bottom);
    GrewTrans(s0, s, s', total, count);
    done' := done + (set k | k in nodes);
  }

  /** The upper-bound pass at `top` walked the depth's nodes and enumerated at most one window per node. */
  lemma WalkTopStep(d: nat, keys: set<seq<nat>>, top: int, bottom: int, nodes: seq<seq<nat>>, p: set<seq<nat>>,
                    p': set<seq<nat>>, s0: Lists, s: Lists, s': Lists, total: nat, count: nat, done: set<seq<nat>>)
    returns (done': set<seq<nat>>)
    requires WalkState(d, keys, top, bottom, p, s0, s, total, done) && top <= bottom && bottom < d - 1
    requires NoDup(nodes) && forall k | k in nodes :: k in keys && |k| == d - top
    requires Grew(s, s', count) && count <= |nodes|
    ensures WalkState(d, keys, top + 1, bottom, p', s0, s', total + count, done')
  {
    WalkedGrow(done, nodes, d - top);
    GrewTrans(s0, s, s', total, count);
    done' := done + (set k | k in nodes);
  }

  /** A depth whose every node is pruned leaves its size all pruned. */
  lemma LevelFull(d: nat, keys: set<seq<nat>>, levels: LatticeLists.Levels, t: int, p: set<seq<nat>>)
    requires LatticeLists.Ordered(d, keys, levels) && t in levels
    requires forall k | k in levels[t] :: k in p
    ensures Full(keys, p, d - t)
  {
    forall k | k in keys && |k| == d - t ensures k in p {
      assert k in levels[d - |k|];
    }
  }

  /** The constructed lattice's keys are the subsets it is built over. */
  lemma KeysAreKeys(d: nat, keys: set<seq<nat>>, levels: LatticeLists.Levels)
    requires LatticeLists.Complete(d, keys, levels)
    ensures forall k | k in keys :: IsKey(d, k)
  {
    if d < 2 {
      assert keys == {};
    }
  }

  /**
   * After the pass at `bottom`, every dimension is recorded once the
   * singletons' depth is walked: either it was before, or this pass was at
   * the singletons, none of them pruned, and each unpruned singleton
   * recorded its dimension.
   */
  lemma RecordedStep(d: nat, keys: set<seq<nat>>, levels: LatticeLists.Levels, bottom: int, p: set<seq<nat>>,
                     recorded0: set<nat>, recorded: set<nat>)
    requires LatticeLists.Ordered(d, keys, levels) && LatticeLists.Complete(d, keys, levels) && bottom in levels
    requires AllRecorded(d, bottom, recorded0) && recorded0 <= recorded
    requires bottom == d - 1 ==> p == {}
    requires forall k | k in levels[bottom] && |k| == 1 && k !in p :: k[0] in recorded
    ensures AllRecorded(d, bottom - 1, recorded)
  {
    if d >= 2 && bottom == d - 1 {
      forall i | 0 <= i < d ensures i in recorded {
        assert IsKey(d, [i]);
        assert [i] in levels[bottom] && [i][0] == i;
      }
    }
  }

  /**
   * The walk's bookkeeping after an Apriori pass at `bottom` took the
   * pruned set from p to p' and the store from s to s': the depth joins
   * the walked ones, the stop rule moves on with the pass's answer, and
   * once the singletons' depth is walked every dimension is recorded.
   */
  lemma BottomUpDone(d: nat, keys: set<seq<nat>>, levels: LatticeLists.Levels, top: int, bottom: int,
                     p: set<seq<nat>>, s: Lists, p': set<seq<nat>>, s': Lists, s0: Lists, total: nat, count: nat,
                     done0: set<seq<nat>>, recorded0: set<nat>, recorded: set<nat>,
                     looks0: seq<Look>, looks: seq<Look>, stop: bool, below: int, grown: nat,
                     counts0: map<nat, nat>, counts: map<nat, nat>, ends: seq<int>)
    returns (done: set<seq<nat>>)
    requires LatticeLists.Ordered(d, keys, levels) && LatticeLists.Complete(d, keys, levels)
    requires bottom in levels && top <= bottom
    requires WalkState(d, keys, top, bottom, p, s0, s, total, done0)
    requires AllRecorded(d, bottom, recorded0) && recorded0 <= recorded
    requires Exact(d, p, looks0) && Exact(d, p', looks) && Traversal(d, looks)
    requires Reached(d, keys, top, bottom, p, looks0) && Going(d, keys, bottom, p, false)
    requires p <= p' && Grew(s, s', count) && count <= |levels[bottom]|
    requires forall k | k in levels[bottom] && |k| == 1 && k !in p :: k[0] in recorded
    requires stop <==> forall k | k in levels[bottom] :: k in p'
    requires looks0 <= looks && DimsOf(looks) == DimsOf(looks0) + Unpruned(levels[bottom], p)
    requires forall i | |looks0| <= i < |looks| :: looks[i].kind == Support
    requires below == bottom - 1 && grown == total + count
    requires StopsLast(looks0, false) && forall i | |looks0| <= i < |looks| :: !looks[i].stops
    requires Leafed(counts0, d, looks0) && (counts != counts0 ==> top == 0)
    requires Passes(d, levels, looks0, ends) && |ends| == 2 * (d - 1 - bottom)
    ensures WalkState(d, keys, top, below, p', s0, s', grown, done)
    ensures AllRecorded(d, below, recorded)
    ensures Reached(d, keys, top, below, p', looks) && Going(d, keys, below, p', stop) &&
            (stop ==> Full(keys, p', d - bottom)) && Halt(d, keys, top, below, p', looks, stop)
    ensures Leafed(counts, d, looks)
    ensures Passes(d, levels, looks, ends + [|looks|])
  {
    var nodes := levels[bottom];
    PassesNext(d, levels, d - 1 - bottom, false, bottom, p, looks0, looks, ends);
    forall i | 0 <= i < |looks0| ensures looks[i] == looks0[i] && !looks[i].stops &&
                                         (counts != counts0 ==> looks0[i].kind == Support) {
      KeyLengthBound(d, looks[i].dims);
    }
    LeafedBottom(counts0, counts, d, looks0, looks);
    ReachedStep(d, keys, levels, bottom, top, bottom, p, p', looks0, looks, false);
    if stop {
      LevelFull(d, keys, levels, bottom, p');
    }
    KeysAreKeys(d, keys, levels);
    PassDone(looks0, looks, nodes, p, p');
    assert forall i | |looks0| <= i < |looks| :: |looks[i].dims| == d - bottom;
    GoingBottom(d, keys, bottom, p, p', looks0, looks, stop);
    RecordedStep(d, keys, levels, bottom, p, recorded0, recorded);
    done := WalkBottomStep(d, keys, top, bottom, nodes, p, p', s0, s, s', total, count, done0);
  }

  class UBPruning {
    const numOfDims: nat
    const data: Table
    const thresholdSupportValue: real
    const thresholdCrosskValue: real
    const enumPatternInst: EnumeratedPattern
    /** `_crossk_const`, copied from the store. */
    const crosskConst: real
    const patternCountInst: SequenceMap
    /** `_singleton_joint_counts`: dimension -> join-set count of that dimension's singleton window. */
    var singletonJointCounts: map<nat, nat>
    /**
     * The per-node steps the Apriori pass shares with `SupportPruning`
     * (look-up, enumeration, support test, pruning), over the same table and
     * store, with the support threshold.
     */
    const apriori: SupportPruning

    /** The shared steps work on this strategy's table, store and support threshold, and the store is consistent. */
    ghost predicate Valid()
      reads enumPatternInst
    {
      apriori.enumPatternInst == enumPatternInst && apriori.Valid() && apriori.numOfDims == numOfDims &&
      apriori.data == data && apriori.patternCountInst == patternCountInst &&
      apriori.thresholdValue == thresholdSupportValue && crosskConst == enumPatternInst.crosskConst
    }

    /**
     * The looks so far explain the walk: they reach keys in a traversal
     * order, the pruned set p is exactly their prunings, the store went from
     * s0 to s by them, and each obeys its kind's rule over this table.
     */
    ghost predicate Trace(p: set<seq<nat>>, s0: Lists, s: Lists, looks: seq<Look>, startIndex: int, endIndex: int, m: SeqMap) {
      Traversal(numOfDims, looks) && Exact(numOfDims, p, looks) && Logged(s0, s, looks, thresholdSupportValue, m) &&
      forall i | 0 <= i < |looks| :: Rule(numOfDims, data, startIndex, endIndex, crosskConst, thresholdCrosskValue, looks[i])
    }

    /** A look at an unpruned node not looked at before, which pruned as its rule says, extends the trace. */
    lemma TraceStep(p: set<seq<nat>>, p': set<seq<nat>>, s0: Lists, s: Lists, s': Lists, looks: seq<Look>, l: Look,
                    found: Result<seq<nat>>, startIndex: int, endIndex: int, m: SeqMap)
      requires Trace(p, s0, s, looks, startIndex, endIndex, m)
      requires IsKey(numOfDims, l.dims) && l.dims !in p && !Looked(looks, l.dims)
      requires Closed(numOfDims, Parents, p') && PrunedFrom(numOfDims, p, p', l.dims, l.prunes)
      requires Rule(numOfDims, data, startIndex, endIndex, crosskConst, thresholdCrosskValue, l)
      requires Stepped(s, s', l, found, thresholdSupportValue) && found == Occurrences(m, l.key)
      ensures Trace(p', s0, s', looks + [l], startIndex, endIndex, m)
    {
      TraversalStep(numOfDims, p, looks, l);
      ExactStep(numOfDims, p, p', looks, l);
      LoggedStep(s0, s, s', looks, l, found, thresholdSupportValue, m);
      var ls := looks + [l];
      assert forall i | 0 <= i < |looks| :: ls[i] == looks[i];
      assert ls[|looks|] == l;
    }

    /**
     * The bookkeeping of an Apriori pass after its j-th node answered: the
     * pass state and the trace move one node further, a pruned node adding
     * no look.
     */
    lemma AprioriStepDone(nodes: seq<seq<nat>>, j: nat, p0: set<seq<nat>>, s0: Lists, p: set<seq<nat>>, s: Lists,
                          p': set<seq<nat>>, s': Lists, count: nat, c: nat, entire: bool, passed: bool,
                          first: set<nat>, recorded: set<nat>, recorded': set<nat>, s0w: Lists,
                          looks0: seq<Look>, looks1: seq<Look>, l: Look, found: Result<seq<nat>>, startIndex: int, endIndex: int,
                          keys: set<seq<nat>>, size: int, m: SeqMap)
      returns (looks: seq<Look>)
      requires j < |nodes| && LevelList(numOfDims, keys, nodes, size) && |nodes[j]| == size
      requires PassState(nodes, j, p0, p, s0, s, count, entire, first, recorded)
      requires Trace(p, s0w, s, looks1, startIndex, endIndex, m) && InPass(looks0, looks1, nodes, j, p0, false)
      requires forall i | 0 <= i < |looks0| :: |looks0[i].dims| != size
      requires Closed(numOfDims, Parents, p') && Grew(s, s', c) && c <= 1
      requires PrunedFrom(numOfDims, p, p', nodes[j], nodes[j] !in p && !passed) && (passed <==> nodes[j] !in p')
      requires recorded <= recorded' && (|nodes[j]| == 1 && nodes[j] !in p ==> nodes[j][0] in recorded')
      requires nodes[j] in p ==> s' == s
      requires nodes[j] !in p ==>
                 l.dims == nodes[j] && l.kind == Support && l.above == passed && Rule(numOfDims, data, startIndex, endIndex, crosskConst, thresholdCrosskValue, l) &&
                 Evaluated(s, s', l.key, found, l.isNew, l.above, thresholdSupportValue) && found == Occurrences(m, l.key)
      ensures PassState(nodes, j + 1, p0, p', s0, s', count + c, entire && !passed, first, recorded')
      ensures Trace(p', s0w, s', looks, startIndex, endIndex, m) && InPass(looks0, looks, nodes, j + 1, p0, false)
    {
      LevelListKeys(numOfDims, keys, nodes, size);
      NotLooked(looks0, looks1, nodes, j, p0, false);
      PassStep(numOfDims, nodes, j, p0, p, p', s0, s, s', count, c, entire, passed, first, recorded, recorded');
      looks := looks1;
      if nodes[j] in p {
        assert p' == p;
      } else {
        TraceStep(p, p', s0w, s, s', looks1, l, found, startIndex, endIndex, m);
        looks := looks1 + [l];
      }
      InPassStep(looks0, looks1, looks, nodes, j, p0, false);
    }

    /**
     * The bookkeeping of an upper-bound pass after its j-th node answered:
     * the pass state, the trace, the hand-down of superpattern counts and
     * the stop move one node further, a pruned node adding no look.
     */
    lemma UpperStepDone(nodes: seq<seq<nat>>, j: nat, p0: set<seq<nat>>, s0: Lists, p: set<seq<nat>>, s: Lists,
                        p': set<seq<nat>>, s': Lists, count: nat, cnt: nat, s0w: Lists,
                        looks0: seq<Look>, looks1: seq<Look>, l: Look, found: Result<seq<nat>>, startIndex: int, endIndex: int,
                        size: int, m: SeqMap, c0: map<seq<nat>, int>, c: map<seq<nat>, int>,
                        c': map<seq<nat>, int>, counts: map<nat, nat>, stop: bool, keys: set<seq<nat>>)
      returns (looks: seq<Look>)
      requires j < |nodes|
      requires UpperState(nodes, j, p0, p, s0, s, count)
      requires Trace(p, s0w, s, looks1, startIndex, endIndex, m) && InPass(looks0, looks1, nodes, j, p0, true)
      requires forall i | 0 <= i < |looks0| :: |looks0[i].dims| != size
      requires Handing(c0, c, counts, numOfDims, size, looks0, looks1) && StopsLast(looks1, false)
      requires Closed(numOfDims, Parents, p') && p <= p' && Grew(s, s', cnt) && cnt <= 1 && (stop ==> size == numOfDims)
      requires nodes[j] in p ==> p' == p && s' == s && c' == c && !stop
      requires nodes[j] !in p ==>
                 l.dims == nodes[j] && l.kind != Support && Rule(numOfDims, data, startIndex, endIndex, crosskConst, thresholdCrosskValue, l) &&
                 PrunedFrom(numOfDims, p, p', nodes[j], l.prunes) &&
                 Stepped(s, s', l, found, thresholdSupportValue) && found == Occurrences(m, l.key) &&
                 l.stops == stop && Based(counts, c, numOfDims, l) && c' == AfterLook(c, numOfDims, l)
      requires LevelList(numOfDims, keys, nodes, size)
      ensures UpperState(nodes, j + 1, p0, p', s0, s', count + cnt)
      ensures Trace(p', s0w, s', looks, startIndex, endIndex, m) && InPass(looks0, looks, nodes, j + 1, p0, true)
      ensures Handing(c0, c', counts, numOfDims, size, looks0, looks) && StopsLast(looks, stop)
      ensures stop ==> LastAtRoot(numOfDims, looks)
    {
      LevelListKeys(numOfDims, keys, nodes, size);
      NotLooked(looks0, looks1, nodes, j, p0, true);
      GrewTrans(s0, s, s', count, cnt);
      looks := looks1;
      if nodes[j] in p {
        assert PrunedFrom(numOfDims, p, p', nodes[j], false);
      } else {
        TraceStep(p, p', s0w, s, s', looks1, l, found, startIndex, endIndex, m);
        HandingStep(c0, c, c', counts, numOfDims, size, looks0, looks1, l);
        StopsLastStep(looks1, l);
        looks := looks1 + [l];
      }
      LevelPrunedStep(numOfDims, nodes, j, p, p', nodes[j] !in p && l.prunes);
      InPassStep(looks0, looks1, looks, nodes, j, p0, true);
    }

    /** `__init__`: no singleton count recorded yet. */
    constructor (numOfDims: nat, data: Table, enumPatternInst: EnumeratedPattern, patternCountInst: SequenceMap,
                 thresholdSupportValue: real, thresholdCrosskValue: real)
      requires WellFormed(data) && enumPatternInst.Valid()
      ensures Valid() && singletonJointCounts == map[]
      ensures this.numOfDims == numOfDims && this.data == data && this.enumPatternInst == enumPatternInst
      ensures this.patternCountInst == patternCountInst && crosskConst == enumPatternInst.crosskConst
      ensures this.thresholdSupportValue == thresholdSupportValue && this.thresholdCrosskValue == thresholdCrosskValue
    {
      this.numOfDims := numOfDims;
      this.data := data;
      this.thresholdSupportValue := thresholdSupportValue;
      this.thresholdCrosskValue := thresholdCrosskValue;
      this.enumPatternInst := enumPatternInst;
      this.crosskConst := enumPatternInst.crosskConst;
      this.patternCountInst := patternCountInst;
      this.singletonJointCounts := map[];
      this.apriori := new SupportPruning(numOfDims, data, enumPatternInst, patternCountInst, thresholdSupportValue);
    }

    /**
     * Step i: the loop over the node's children raises each child's
     * `superpattern_count` to `biggerCount` when it is below.
     */
    method Propagate(lattice: LatticeGraph, level: int, dims: seq<nat>, biggerCount: int)
      requires lattice.Valid() && dims in lattice.nodes && level == lattice.numOfDim - |dims|
      modifies lattice.Repr`superpatternCount
      ensures lattice.Counts() == Raised(old(lattice.Counts()), lattice.numOfDim, dims, biggerCount)
    {
      ghost var c0 := lattice.Counts();
      var children := lattice.nodes[dims].children;
      lattice.NeighbourList(dims);
      ghost var d := lattice.numOfDim;
      assert Owned(lattice.nodes, lattice.Repr);
      assert forall k | k in lattice.nodes :: k in children <==> IsChildKey(d, k, dims);
      forall c | c in children
        ensures c in lattice.nodes
      {
        assert IsKey(d, c);
      }
      ghost var seen: set<seq<nat>> := {};
      for j := 0 to |children|
        invariant forall k | k in seen :: k in children
        invariant forall i | 0 <= i < j :: children[i] in seen
        invariant forall k | k in lattice.nodes ::
                    lattice.nodes[k].superpatternCount == (if k in seen && c0[k] < biggerCount then biggerCount else c0[k])
      {
        // `get_node(level + 1, child)`: every child is a node one depth further down.
        var child := lattice.nodes[children[j]];
        if child.superpatternCount < biggerCount {
          child.superpatternCount := biggerCount;
        }
        seen := seen + {children[j]};
      }
      ghost var c1 := lattice.Counts();
      assert forall k | k in lattice.nodes :: k in seen <==> k in children;
      RaisedPointwise(c0, c1, d, dims, biggerCount);
    }

    /**
     * Steps a to d of `_apriori_pruning`'s loop, as the Apriori strategy
     * takes them: a pruned node is skipped (None); otherwise its window is
     * looked up, enumerated when new (`count` is then 1), tested against the
     * support threshold, and a node below it prunes its supersets.
     */
    method AprioriVisit(lattice: LatticeGraph, level: int, dims: seq<nat>, startIndex: int, endIndex: int)
      returns (r: Result<Option<bool>>, count: nat, isNew: bool, key: PatternKey)
      requires Valid() && lattice.Valid() && lattice.numOfDim == numOfDims
      requires dims in lattice.nodes && level == numOfDims - |dims| && Closed(numOfDims, Parents, lattice.Pruned())
      modifies lattice.Repr`isPruned, enumPatternInst
      ensures lattice.Valid() && lattice.Counts() == old(lattice.Counts())
      ensures dims in old(lattice.Pruned()) ==> r == Ok(None) && enumPatternInst.Contents() == old(enumPatternInst.Contents())
      ensures dims !in old(lattice.Pruned()) && !Below(dims, |data.names|) ==> r == Err(IndexError)
      ensures r.Ok? ==> Valid() && Closed(numOfDims, Parents, lattice.Pruned()) &&
                        Grew(old(enumPatternInst.Contents()), enumPatternInst.Contents(), count) && count <= 1 &&
                        (r.value.None? <==> dims in old(lattice.Pruned())) &&
                        PrunedFrom(numOfDims, old(lattice.Pruned()), lattice.Pruned(), dims, r.value == Some(false))
      ensures r.Ok? && r.value.Some? ==>
                Below(dims, |data.names|) && key == Reconstruct(data, startIndex, endIndex, dims) &&
                key in enumPatternInst.keys && (r.value.value <==> dims !in lattice.Pruned()) &&
                Evaluated(old(enumPatternInst.Contents()), enumPatternInst.Contents(), key,
                          patternCountInst.FindPatternOccurrences(key), isNew, r.value.value, thresholdSupportValue)
    {
      r, isNew, key := apriori.VisitNode(lattice, level, dims, startIndex, endIndex);
      count := if r.Ok? && r.value.Some? && isNew then 1 else 0;
      if r.Ok? && r.value.Some? {
        assert Toward(numOfDims, Parents, dims, dims);
      }
    }

    /**
     * One pass of `_apriori_pruning`'s loop: the node is visited, and a
     * singleton that was visited has its window's join-set count recorded
     * into `counts`, the pass's view of `_singleton_joint_counts`. The count
     * is read from the window's entry after the support test, which changes
     * only the entry's flag. The answer says whether the node was visited
     * and reached the support threshold.
     */
    method AprioriNode(lattice: LatticeGraph, level: int, dims: seq<nat>, startIndex: int, endIndex: int,
                       counts0: map<nat, nat>, ghost recorded0: set<nat>)
      returns (r: Result<bool>, count: nat, counts: map<nat, nat>, ghost recorded: set<nat>, ghost look: Look)
      requires Valid() && lattice.Valid() && lattice.numOfDim == numOfDims
      requires dims in lattice.nodes && level == numOfDims - |dims| && Closed(numOfDims, Parents, lattice.Pruned())
      requires Records(data, counts0, enumPatternInst.Contents(), recorded0, startIndex, endIndex)
      modifies lattice.Repr`isPruned, enumPatternInst
      ensures lattice.Valid() && patternCountInst.seqHashmap == old(patternCountInst.seqHashmap) && lattice.Counts() == old(lattice.Counts())
      ensures dims !in old(lattice.Pruned()) && !Below(dims, |data.names|) ==> r == Err(IndexError)
      ensures r.Ok? ==> Valid() && Closed(numOfDims, Parents, lattice.Pruned()) &&
                        Grew(old(enumPatternInst.Contents()), enumPatternInst.Contents(), count) && count <= 1 &&
                        PrunedFrom(numOfDims, old(lattice.Pruned()), lattice.Pruned(), dims, dims !in old(lattice.Pruned()) && !r.value) &&
                        (r.value <==> dims !in lattice.Pruned())
      ensures r.Ok? ==> Records(data, counts, enumPatternInst.Contents(), recorded, startIndex, endIndex) &&
                        recorded0 <= recorded && (|dims| == 1 && dims !in old(lattice.Pruned()) ==> dims[0] in recorded)
      ensures r.Ok? && |dims| != 1 ==> counts == counts0
      ensures r.Ok? && dims in old(lattice.Pruned()) ==> enumPatternInst.Contents() == old(enumPatternInst.Contents())
      ensures r.Ok? && dims !in old(lattice.Pruned()) ==>
                look.dims == dims && look.kind == Support && look.above == r.value &&
                Rule(numOfDims, data, startIndex, endIndex, crosskConst, thresholdCrosskValue, look) &&
                Evaluated(old(enumPatternInst.Contents()), enumPatternInst.Contents(), look.key,
                          patternCountInst.FindPatternOccurrences(look.key), look.isNew, look.above, thresholdSupportValue)
    {
      ghost var s := enumPatternInst.Contents();
      var visited, isNew, key;
      visited, count, isNew, key := AprioriVisit(lattice, level, dims, startIndex, endIndex);
      counts, recorded := counts0, recorded0;
      look := Look(dims, Support, key, isNew, visited.Ok? && visited.value == Some(true), !(visited.Ok? && visited.value == Some(true)),
                   false, 0, 0, 0);
      if visited.Err? {
        return Err(visited.error), count, counts, recorded, look;
      }
      RecordsKept(data, counts0, s, enumPatternInst.Contents(), recorded0, startIndex, endIndex);
      if visited.value.None? {
        return Ok(false), count, counts, recorded, look;
      }
      if |dims| == 1 {
        // `_singleton_joint_counts[dims[0]] = _joinset_cardinality[pattern_index]`
        assert dims == [dims[0]];
        RecordsPut(data, counts0, enumPatternInst.Contents(), recorded0, startIndex, endIndex, dims[0]);
        var patternIndex := enumPatternInst.FindPattern(key);
        counts, recorded := counts0[dims[0] := enumPatternInst.joinsetCardinality[patternIndex]], recorded0 + {dims[0]};
      }
      r := Ok(visited.value.value);
    }

    /**
     * The next node of `_apriori_pruning`'s loop, the j-th of its depth; the
     * answer is `entire_level_pruned` after it, and the pass's bookkeeping
     * moves one node further.
     */
    method AprioriStep(lattice: LatticeGraph, level: int, nodesOfLevel: seq<seq<nat>>, j: nat, startIndex: int, endIndex: int,
                       ghost p0: set<seq<nat>>, ghost s0: Lists, nodesEnumerated0: nat, entire: bool,
                       counts0: map<nat, nat>, ghost first: set<nat>, ghost recorded0: set<nat>,
                       ghost s0w: Lists, ghost looks0: seq<Look>, ghost looks1: seq<Look>)
      returns (r: Result<bool>, nodesEnumerated: nat, counts: map<nat, nat>, ghost recorded: set<nat>, ghost looks: seq<Look>)
      requires Valid() && lattice.Valid() && lattice.numOfDim == numOfDims && Closed(numOfDims, Parents, lattice.Pruned())
      requires j < |nodesOfLevel| && LevelList(numOfDims, lattice.nodes.Keys, nodesOfLevel, numOfDims - level)
      requires Records(data, counts0, enumPatternInst.Contents(), recorded0, startIndex, endIndex)
      requires PassState(nodesOfLevel, j, p0, lattice.Pruned(), s0, enumPatternInst.Contents(), nodesEnumerated0,
                         entire, first, recorded0)
      requires Trace(lattice.Pruned(), s0w, enumPatternInst.Contents(), looks1, startIndex, endIndex, patternCountInst.seqHashmap)
      requires InPass(looks0, looks1, nodesOfLevel, j, p0, false)
      requires forall i | 0 <= i < |looks0| :: |looks0[i].dims| != numOfDims - level
      modifies lattice.Repr`isPruned, enumPatternInst
      ensures lattice.Valid() && patternCountInst.seqHashmap == old(patternCountInst.seqHashmap) && lattice.Counts() == old(lattice.Counts())
      ensures r.Ok? ==> Valid() && Closed(numOfDims, Parents, lattice.Pruned()) &&
                        Records(data, counts, enumPatternInst.Contents(), recorded, startIndex, endIndex) &&
                        PassState(nodesOfLevel, j + 1, p0, lattice.Pruned(), s0, enumPatternInst.Contents(), nodesEnumerated,
                                  r.value, first, recorded)
      ensures r.Ok? ==> Trace(lattice.Pruned(), s0w, enumPatternInst.Contents(), looks, startIndex, endIndex, patternCountInst.seqHashmap) &&
                        InPass(looks0, looks, nodesOfLevel, j + 1, p0, false)
      ensures r.Ok? && numOfDims - level != 1 ==> counts == counts0
    {
      var dims := nodesOfLevel[j];
      assert AtSize(numOfDims, lattice.nodes.Keys, numOfDims - level, dims);
      ghost var p, s := lattice.Pruned(), enumPatternInst.Contents();
      ghost var m, c := patternCountInst.seqHashmap, lattice.Counts();
      var passed, count;
      ghost var look;
      passed, count, counts, recorded, look := AprioriNode(lattice, level, dims, startIndex, endIndex, counts0, recorded0);
      nodesEnumerated := nodesEnumerated0 + count;
      looks := looks1;
      if passed.Err? {
        return Err(passed.error), nodesEnumerated, counts, recorded, looks;
      }
      looks := AprioriStepDone(nodesOfLevel, j, p0, s0, p, s, lattice.Pruned(), enumPatternInst.Contents(), nodesEnumerated0,
                               count, entire, passed.value, first, recorded0, recorded, s0w, looks0, looks1, look,
                               patternCountInst.FindPatternOccurrences(look.key), startIndex, endIndex,
                               lattice.nodes.Keys, numOfDims - level, m);
      assert lattice.Counts() == c;
      r := Ok(entire && !passed.value);
    }

    /**
     * `_apriori_pruning` over one depth, in the order the depth's dict holds
     * its nodes: the answers are the windows enumerated and
     * `entire_level_pruned`, which holds exactly when every node of the
     * depth ends up pruned. The singleton counts go from `counts0` to
     * `counts`.
     */
    method AprioriPass(lattice: LatticeGraph, level: int, startIndex: int, endIndex: int, counts0: map<nat, nat>,
                       ghost recorded0: set<nat>, ghost s0w: Lists, ghost looks0: seq<Look>)
      returns (r: Result<bool>, nodesEnumerated: nat, counts: map<nat, nat>, ghost recorded: set<nat>, ghost looks: seq<Look>)
      requires Valid() && lattice.Valid() && lattice.numOfDim == numOfDims && level in lattice.levels
      requires Closed(numOfDims, Parents, lattice.Pruned())
      requires Records(data, counts0, enumPatternInst.Contents(), recorded0, startIndex, endIndex)
      requires Trace(lattice.Pruned(), s0w, enumPatternInst.Contents(), looks0, startIndex, endIndex, patternCountInst.seqHashmap)
      requires forall i | 0 <= i < |looks0| :: |looks0[i].dims| != numOfDims - level
      modifies lattice.Repr`isPruned, enumPatternInst
      ensures lattice.Valid()
      ensures r.Ok? ==> Valid() && Closed(numOfDims, Parents, lattice.Pruned()) && old(lattice.Pruned()) <= lattice.Pruned() &&
                        Grew(old(enumPatternInst.Contents()), enumPatternInst.Contents(), nodesEnumerated) &&
                        nodesEnumerated <= |lattice.levels[level]|
      ensures r.Ok? ==> Records(data, counts, enumPatternInst.Contents(), recorded, startIndex, endIndex) &&
                        recorded0 <= recorded &&
                        forall k | k in lattice.levels[level] && |k| == 1 && k !in old(lattice.Pruned()) :: k[0] in recorded
      ensures r.Ok? ==> (r.value <==> forall k | k in lattice.levels[level] :: k in lattice.Pruned())
      ensures r.Ok? ==> Trace(lattice.Pruned(), s0w, enumPatternInst.Contents(), looks, startIndex, endIndex, patternCountInst.seqHashmap) && looks0 <= looks &&
                        DimsOf(looks) == DimsOf(looks0) + Unpruned(lattice.levels[level], old(lattice.Pruned())) &&
                        forall i | |looks0| <= i < |looks| :: looks[i].kind == Support
      ensures r.Ok? && numOfDims - level != 1 ==> counts == counts0
      ensures r.Ok? ==> lattice.Counts() == old(lattice.Counts())
    {
      var nodesOfLevel := lattice.levels[level];
      LevelFacts(lattice, level);
      assert LevelList(numOfDims, lattice.nodes.Keys, nodesOfLevel, numOfDims - level);
      ghost var p0, s0 := lattice.Pruned(), enumPatternInst.Contents();
      r, nodesEnumerated, counts, recorded, looks :=
        AprioriLoop(lattice, level, nodesOfLevel, startIndex, endIndex, counts0, recorded0, s0w, looks0, p0, s0);
      if r.Ok? {
        PassEnd(nodesOfLevel, p0, lattice.Pruned(), s0, enumPatternInst.Contents(), nodesEnumerated, r.value,
                recorded0, recorded, looks0, looks);
      }
    }

    /**
     * The loop of `_apriori_pruning`: one step per node of the depth, in
     * order, until the end or the first error.
     */
    method AprioriLoop(lattice: LatticeGraph, level: int, nodesOfLevel: seq<seq<nat>>, startIndex: int, endIndex: int,
                       counts0: map<nat, nat>, ghost recorded0: set<nat>, ghost s0w: Lists, ghost looks0: seq<Look>,
                       ghost p0: set<seq<nat>>, ghost s0: Lists)
      returns (r: Result<bool>, nodesEnumerated: nat, counts: map<nat, nat>, ghost recorded: set<nat>, ghost looks: seq<Look>)
      requires Valid() && lattice.Valid() && lattice.numOfDim == numOfDims && Closed(numOfDims, Parents, lattice.Pruned())
      requires LevelList(numOfDims, lattice.nodes.Keys, nodesOfLevel, numOfDims - level)
      requires p0 == lattice.Pruned() && s0 == enumPatternInst.Contents()
      requires Records(data, counts0, enumPatternInst.Contents(), recorded0, startIndex, endIndex)
      requires Trace(lattice.Pruned(), s0w, enumPatternInst.Contents(), looks0, startIndex, endIndex, patternCountInst.seqHashmap)
      requires forall i | 0 <= i < |looks0| :: |looks0[i].dims| != numOfDims - level
      modifies lattice.Repr`isPruned, enumPatternInst
      ensures lattice.Valid()
      ensures r.Ok? ==> Valid() && Closed(numOfDims, Parents, lattice.Pruned()) &&
                        Records(data, counts, enumPatternInst.Contents(), recorded, startIndex, endIndex) &&
                        PassState(nodesOfLevel, |nodesOfLevel|, p0, lattice.Pruned(), s0, enumPatternInst.Contents(),
                                  nodesEnumerated, r.value, recorded0, recorded)
      ensures r.Ok? ==> Trace(lattice.Pruned(), s0w, enumPatternInst.Contents(), looks, startIndex, endIndex, patternCountInst.seqHashmap) &&
                        InPass(looks0, looks, nodesOfLevel, |nodesOfLevel|, p0, false)
      ensures r.Ok? && numOfDims - level != 1 ==> counts == counts0
      ensures r.Ok? ==> lattice.Counts() == old(lattice.Counts())
    {
      ghost var c := lattice.Counts();
      var entireLevelPruned := true;
      nodesEnumerated, counts, recorded, looks := 0, counts0, recorded0, looks0;
      InPassStart(looks0, nodesOfLevel, p0, false);
      for j := 0 to |nodesOfLevel|
        invariant Valid() && lattice.Valid() && Closed(numOfDims, Parents, lattice.Pruned())
        invariant Records(data, counts, enumPatternInst.Contents(), recorded, startIndex, endIndex)
        invariant PassState(nodesOfLevel, j, p0, lattice.Pruned(), s0, enumPatternInst.Contents(), nodesEnumerated,
                            entireLevelPruned, recorded0, recorded)
        invariant Trace(lattice.Pruned(), s0w, enumPatternInst.Contents(), looks, startIndex, endIndex, patternCountInst.seqHashmap)
        invariant InPass(looks0, looks, nodesOfLevel, j, p0, false)
        invariant numOfDims - level != 1 ==> counts == counts0
        invariant lattice.Counts() == c
      {
        var passed;
        passed, nodesEnumerated, counts, recorded, looks :=
          AprioriStep(lattice, level, nodesOfLevel, j, startIndex, endIndex, p0, s0, nodesEnumerated, entireLevelPruned,
                      counts, recorded0, recorded, s0w, looks0, looks);
        if passed.Err? {
          return Err(passed.error), nodesEnumerated, counts, recorded, looks;
        }
        entireLevelPruned := passed.value;
      }
      r := Ok(entireLevelPruned);
    }

    /**
     * Steps e to g for a window not stored yet: its occurrences, then
     * `enumerate_pattern`; the entry's flag gets the cross-K test and then
     * the support test, which overwrites it; the answer is the entry's
     * pattern count, read back from the last entry.
     */
    method ExpandStep(key: PatternKey) returns (r: Result<nat>, ghost above: bool)
      requires Valid() && key !in enumPatternInst.keys
      modifies enumPatternInst
      ensures var found := patternCountInst.FindPatternOccurrences(key);
              (r.Ok? <==> found.Ok? && |found.value| > 0 && enumPatternInst.numOfReadings != 0) &&
              (r.Err? ==> found.Err? || r.error == ZeroDivisionError)
      ensures r.Ok? ==> Valid() && r.value == |patternCountInst.FindPatternOccurrences(key).value| &&
                        Evaluated(old(enumPatternInst.Contents()), enumPatternInst.Contents(), key,
                                  patternCountInst.FindPatternOccurrences(key), true, above, thresholdSupportValue)
    {
      ghost var s := enumPatternInst.Contents();
      var e := apriori.Enumerate(key);
      if e.Err? {
        return Err(e.error), false;
      }
      assert PyIndex(-1, enumPatternInst.numOfPatterns) == Some(s.n);
      var _ := enumPatternInst.IsAboveThreshold(-1, CrosskMetric, thresholdCrosskValue);
      ghost var s' := enumPatternInst.Contents();
      assert s'.keys[s.n] == key;
      var supportAbove := enumPatternInst.IsAboveThreshold(-1, SupportMetric, thresholdSupportValue);
      above := supportAbove.value;
      TestedEvaluated(s, s', key, patternCountInst.FindPatternOccurrences(key), true, s.n, above, thresholdSupportValue);
      StoredMetrics(enumPatternInst, s.n);
      r := Ok(enumPatternInst.patternCount[|enumPatternInst.patternCount| - 1]);
    }

    /**
     * Step h at the root: the bound from the largest recorded count
     * (`max(...values())`, a ValueError when none is recorded) over the
     * root's pattern count; the answer says whether it falls below the
     * cross-K threshold.
     */
    method RootStop(counts: map<nat, nat>, patternCount: nat) returns (r: Result<bool>, ghost largest: int)
      requires patternCount > 0
      ensures r.Err? <==> counts == map[]
      ensures r.Err? ==> r.error == ValueError
      ensures r.Ok? ==> IsLargest(counts, counts.Keys, largest) &&
                        UpperBound(crosskConst, largest, patternCount).Ok? &&
                        (r.value <==> UpperBound(crosskConst, largest, patternCount).value < thresholdCrosskValue)
    {
      var maxLeafCount := MaxValue(counts);
      if maxLeafCount.Err? {
        return Err(maxLeafCount.error), -1;
      }
      var ubMax := UpperBound(crosskConst, maxLeafCount.value, patternCount);
      r, largest := Ok(ubMax.value < thresholdCrosskValue), maxLeafCount.value;
    }

    /**
     * Steps e to h for a window not stored yet: it is enumerated and tested,
     * and at the root the answer says whether the bound over the root's
     * pattern count falls below the cross-K threshold; below the root it is
     * false. `count` is the window's pattern count.
     */
    method UpperTest(lattice: LatticeGraph, level: int, key: PatternKey, counts: map<nat, nat>)
      returns (r: Result<bool>, count: nat, ghost above: bool, ghost largest: int)
      requires Valid() && key !in enumPatternInst.keys && lattice.Valid()
      modifies enumPatternInst
      ensures lattice.Valid() && lattice.Pruned() == old(lattice.Pruned()) && lattice.Counts() == old(lattice.Counts())
      ensures var found := patternCountInst.FindPatternOccurrences(key);
              (r.Err? ==> found.Err? || r.error == ZeroDivisionError || (level == 0 && counts == map[] && r.error == ValueError)) &&
              (found.Ok? && |found.value| > 0 && enumPatternInst.numOfReadings != 0 && (level != 0 || counts != map[]) ==> r.Ok?)
      ensures r.Ok? ==> var found := patternCountInst.FindPatternOccurrences(key);
                        Valid() && found.Ok? && count == |found.value| > 0 &&
                        Evaluated(old(enumPatternInst.Contents()), enumPatternInst.Contents(), key, found, true, above, thresholdSupportValue) &&
                        (level == 0 ==> IsLargest(counts, counts.Keys, largest) && UpperBound(crosskConst, largest, count).Ok? &&
                                        (r.value <==> UpperBound(crosskConst, largest, count).value < thresholdCrosskValue)) &&
                        (level != 0 ==> !r.value)
    {
      largest, count := -1, 0;
      var currPatternCount;
      currPatternCount, above := ExpandStep(key);
      lattice.Untouched();
      if currPatternCount.Err? {
        return Err(currPatternCount.error), count, above, largest;
      }
      count := currPatternCount.value;
      r := Ok(false);
      if level == 0 {
        r, largest := RootStop(counts, count);
      }
    }

    /**
     * Steps e to i of `_upperbound_pruning`'s loop for a window not stored
     * yet: it is enumerated and tested; at the root the walk stops when the
     * bound over the root's count falls below the cross-K threshold;
     * otherwise the larger of the node's pattern count and its own
     * superpattern count is handed down to its children.
     */
    method UpperNew(lattice: LatticeGraph, level: int, dims: seq<nat>, key: PatternKey, counts: map<nat, nat>)
      returns (r: Result<bool>, ghost above: bool, ghost largest: int)
      requires Valid() && lattice.Valid() && dims in lattice.nodes && level == lattice.numOfDim - |dims|
      requires lattice.numOfDim == numOfDims && key !in enumPatternInst.keys
      modifies lattice.Repr`superpatternCount, enumPatternInst
      ensures lattice.Valid() && lattice.Pruned() == old(lattice.Pruned())
      ensures var found := patternCountInst.FindPatternOccurrences(key);
              (r.Err? ==> found.Err? || r.error == ZeroDivisionError || (level == 0 && counts == map[] && r.error == ValueError)) &&
              (found.Ok? && |found.value| > 0 && enumPatternInst.numOfReadings != 0 && (level != 0 || counts != map[]) ==> r.Ok?)
      ensures r.Ok? ==> Valid() &&
                        Evaluated(old(enumPatternInst.Contents()), enumPatternInst.Contents(), key,
                                  patternCountInst.FindPatternOccurrences(key), true, above, thresholdSupportValue) &&
                        Handed(numOfDims, dims, level, old(lattice.Counts()), lattice.Counts(),
                               patternCountInst.FindPatternOccurrences(key), counts, largest, r.value, crosskConst, thresholdCrosskValue)
    {
      var count;
      r, count, above, largest := UpperTest(lattice, level, key, counts);
      if r.Ok? && !r.value {
        HandDown(lattice, level, dims, count);
      }
    }

    /** Step i: the larger of the node's pattern count and its own superpattern count goes down to its children. */
    method HandDown(lattice: LatticeGraph, level: int, dims: seq<nat>, currPatternCount: int)
      requires lattice.Valid() && dims in lattice.nodes && level == lattice.numOfDim - |dims|
      modifies lattice.Repr`superpatternCount
      ensures lattice.Valid() && lattice.Pruned() == old(lattice.Pruned())
      ensures enumPatternInst.Contents() == old(enumPatternInst.Contents()) && (old(Valid()) ==> Valid())
      ensures dims in old(lattice.Counts())
      ensures var own := old(lattice.Counts())[dims];
              lattice.Counts() == Raised(old(lattice.Counts()), lattice.numOfDim, dims,
                                         if currPatternCount < own then own else currPatternCount)
    {
      var node := lattice.nodes[dims];
      assert lattice.Counts()[dims] == node.superpatternCount;
      var biggerCount := currPatternCount;
      if biggerCount < node.superpatternCount {
        biggerCount := node.superpatternCount;
      }
      Propagate(lattice, level, dims, biggerCount);
    }

    /**
     * Steps c to i of `_upperbound_pruning`'s loop, for an unpruned node the
     * bound did not prune: its window is cut out of the table (an IndexError
     * when a dimension is not a column) and looked up. A stored window stops
     * the walk at the root and prunes the node's supersets elsewhere; a new
     * one is handled by `UpperNew`. The look records which of the two it was.
     */
    method UpperExpand(lattice: LatticeGraph, level: int, dims: seq<nat>, startIndex: int, endIndex: int, counts: map<nat, nat>)
      returns (r: Result<bool>, isNew: bool, ghost above: bool, ghost largest: int, ghost look: Look)
      requires Valid() && lattice.Valid() && lattice.numOfDim == numOfDims
      requires dims in lattice.nodes && level == numOfDims - |dims| && Closed(numOfDims, Parents, lattice.Pruned())
      requires level != 0 ==> UpperBound(crosskConst, MaxJoint(counts, dims), lattice.Counts()[dims]).Ok? &&
                              !Prunes(crosskConst, thresholdCrosskValue, MaxJoint(counts, dims), lattice.Counts()[dims])
      modifies lattice.Repr`isPruned, lattice.Repr`superpatternCount, enumPatternInst
      ensures lattice.Valid()
      ensures !Below(dims, |data.names|) ==> r == Err(IndexError)
      ensures Below(dims, |data.names|) && Reconstruct(data, startIndex, endIndex, dims) in old(enumPatternInst.keys) ==>
                r == Ok(level == 0) && !isNew && unchanged(enumPatternInst) && lattice.Counts() == old(lattice.Counts()) &&
                Closed(numOfDims, Parents, lattice.Pruned()) &&
                PrunedFrom(numOfDims, old(lattice.Pruned()), lattice.Pruned(), dims, level != 0)
      ensures Below(dims, |data.names|) && Reconstruct(data, startIndex, endIndex, dims) !in old(enumPatternInst.keys) ==>
                var found := patternCountInst.FindPatternOccurrences(Reconstruct(data, startIndex, endIndex, dims));
                isNew &&
                (r.Err? ==> found.Err? || r.error == ZeroDivisionError || (level == 0 && counts == map[] && r.error == ValueError)) &&
                (found.Ok? && |found.value| > 0 && enumPatternInst.numOfReadings != 0 && (level != 0 || counts != map[]) ==> r.Ok?)
      ensures Below(dims, |data.names|) && Reconstruct(data, startIndex, endIndex, dims) !in old(enumPatternInst.keys) && r.Ok? ==>
                var key := Reconstruct(data, startIndex, endIndex, dims);
                var found := patternCountInst.FindPatternOccurrences(key);
                Valid() && Evaluated(old(enumPatternInst.Contents()), enumPatternInst.Contents(), key, found, true, above, thresholdSupportValue) &&
                lattice.Pruned() == old(lattice.Pruned()) && Closed(numOfDims, Parents, lattice.Pruned()) &&
                Handed(numOfDims, dims, level, old(lattice.Counts()), lattice.Counts(), found, counts, largest, r.value,
                       crosskConst, thresholdCrosskValue)
      ensures r.Ok? ==>
                look.dims == dims && look.isNew == isNew && (if isNew then look.kind == Fresh else look.kind == Stored) &&
                Rule(numOfDims, data, startIndex, endIndex, crosskConst, thresholdCrosskValue, look) &&
                PrunedFrom(numOfDims, old(lattice.Pruned()), lattice.Pruned(), dims, look.prunes) &&
                Stepped(old(enumPatternInst.Contents()), enumPatternInst.Contents(), look,
                        patternCountInst.FindPatternOccurrences(look.key), thresholdSupportValue) &&
                look.stops == r.value && Based(counts, old(lattice.Counts()), numOfDims, look) &&
                lattice.Counts() == AfterLook(old(lattice.Counts()), numOfDims, look)
    {
      largest, above := -1, false;
      ghost var leaf, superCount := MaxJoint(counts, dims), lattice.Counts()[dims];
      look := Look(dims, Bound, PatternKey([]), false, false, true, false, leaf, superCount, 0);
      if !Below(dims, |data.names|) {
        return Err(IndexError), false, above, largest, look;
      }
      var key := Reconstruct(data, startIndex, endIndex, dims);
      var patternIndex := enumPatternInst.FindPattern(key);
      if patternIndex != -1 {
        r, look := UpperStored(lattice, level, dims, startIndex, endIndex, key, counts);
        return r, false, above, largest, look;
      }
      isNew := true;
      r, above, largest, look := UpperFresh(lattice, level, dims, startIndex, endIndex, key, counts);
    }

    /**
     * Steps e and f for the node `dims` whose window `key` is stored: the
     * walk stops at the root; below it the node's supersets are pruned.
     */
    method UpperStored(lattice: LatticeGraph, level: int, dims: seq<nat>, startIndex: int, endIndex: int, key: PatternKey,
                       counts: map<nat, nat>)
      returns (r: Result<bool>, ghost look: Look)
      requires Valid() && lattice.Valid() && lattice.numOfDim == numOfDims
      requires dims in lattice.nodes && level == numOfDims - |dims| && Closed(numOfDims, Parents, lattice.Pruned())
      requires Below(dims, |data.names|) && key == Reconstruct(data, startIndex, endIndex, dims)
      requires level != 0 ==> UpperBound(crosskConst, MaxJoint(counts, dims), lattice.Counts()[dims]).Ok? &&
                              !Prunes(crosskConst, thresholdCrosskValue, MaxJoint(counts, dims), lattice.Counts()[dims])
      modifies lattice.Repr`isPruned
      ensures lattice.Valid() && lattice.Counts() == old(lattice.Counts()) && Closed(numOfDims, Parents, lattice.Pruned())
      ensures r == Ok(level == 0) && look.prunes == (level != 0) &&
              PrunedFrom(numOfDims, old(lattice.Pruned()), lattice.Pruned(), dims, look.prunes)
      ensures look.dims == dims && !look.isNew && look.kind == Stored &&
              Rule(numOfDims, data, startIndex, endIndex, crosskConst, thresholdCrosskValue, look) &&
              Stepped(enumPatternInst.Contents(), enumPatternInst.Contents(), look,
                      patternCountInst.FindPatternOccurrences(look.key), thresholdSupportValue) &&
              look.stops == r.value && Based(counts, old(lattice.Counts()), numOfDims, look)
    {
      ghost var c := lattice.Counts();
      look := Look(dims, Stored, key, false, false, level != 0, level == 0, MaxJoint(counts, dims), c[dims], 0);
      assert Based(counts, c, numOfDims, look);
      if level == 0 {
        r := Ok(true);
      } else {
        apriori.PruneFrom(lattice, level, dims);
        r := Ok(false);
      }
      StoredLook(numOfDims, data, startIndex, endIndex, crosskConst, thresholdCrosskValue,
                 enumPatternInst.Contents(), enumPatternInst.Contents(), look,
                 patternCountInst.FindPatternOccurrences(look.key), thresholdSupportValue);
    }

    /** `UpperNew` for the node `dims` and its window `key`, with the look that records it. */
    method UpperFresh(lattice: LatticeGraph, level: int, dims: seq<nat>, startIndex: int, endIndex: int, key: PatternKey,
                      counts: map<nat, nat>)
      returns (r: Result<bool>, ghost above: bool, ghost largest: int, ghost look: Look)
      requires Valid() && lattice.Valid() && lattice.numOfDim == numOfDims
      requires dims in lattice.nodes && level == numOfDims - |dims| && Closed(numOfDims, Parents, lattice.Pruned())
      requires Below(dims, |data.names|) && key == Reconstruct(data, startIndex, endIndex, dims) && key !in enumPatternInst.keys
      requires level != 0 ==> UpperBound(crosskConst, MaxJoint(counts, dims), lattice.Counts()[dims]).Ok? &&
                              !Prunes(crosskConst, thresholdCrosskValue, MaxJoint(counts, dims), lattice.Counts()[dims])
      modifies lattice.Repr`superpatternCount, enumPatternInst
      ensures lattice.Valid()
      ensures var found := patternCountInst.FindPatternOccurrences(key);
              (r.Err? ==> found.Err? || r.error == ZeroDivisionError || (level == 0 && counts == map[] && r.error == ValueError)) &&
              (found.Ok? && |found.value| > 0 && enumPatternInst.numOfReadings != 0 && (level != 0 || counts != map[]) ==> r.Ok?)
      ensures r.Ok? ==>
                var found := patternCountInst.FindPatternOccurrences(key);
                Valid() && Evaluated(old(enumPatternInst.Contents()), enumPatternInst.Contents(), key, found, true, above, thresholdSupportValue) &&
                lattice.Pruned() == old(lattice.Pruned()) && Closed(numOfDims, Parents, lattice.Pruned()) &&
                Handed(numOfDims, dims, level, old(lattice.Counts()), lattice.Counts(), found, counts, largest, r.value,
                       crosskConst, thresholdCrosskValue)
      ensures r.Ok? ==>
                look.dims == dims && look.isNew && look.kind == Fresh &&
                Rule(numOfDims, data, startIndex, endIndex, crosskConst, thresholdCrosskValue, look) &&
                PrunedFrom(numOfDims, old(lattice.Pruned()), lattice.Pruned(), dims, look.prunes) &&
                Stepped(old(enumPatternInst.Contents()), enumPatternInst.Contents(), look,
                        patternCountInst.FindPatternOccurrences(look.key), thresholdSupportValue) &&
                look.stops == r.value && Based(counts, old(lattice.Counts()), numOfDims, look) &&
                lattice.Counts() == AfterLook(old(lattice.Counts()), numOfDims, look)
    {
      ghost var leaf, superCount := MaxJoint(counts, dims), lattice.Counts()[dims];
      ghost var s := enumPatternInst.Contents();
      r, above, largest := UpperNew(lattice, level, dims, key, counts);
      ghost var found := patternCountInst.FindPatternOccurrences(key);
      look := Look(dims, Fresh, key, true, above, false, r.Ok? && r.value, if level == 0 then largest else leaf, superCount,
                   if found.Ok? then |found.value| else 0);
      if r.Ok? {
        FreshLook(numOfDims, data, startIndex, endIndex, crosskConst, thresholdCrosskValue,
                  s, enumPatternInst.Contents(), old(lattice.Counts()), lattice.Counts(), counts,
                  level, largest, r.value, look, found, thresholdSupportValue);
      }
    }

    /**
     * Step b below the root: the bound from the node's largest recorded
     * singleton count over its `superpattern_count` (a ZeroDivisionError on
     * a zero count); a bound strictly between 0 and the cross-K threshold
     * prunes the node and its supersets, and the answer says so.
     */
    method BoundPrune(lattice: LatticeGraph, level: int, dims: seq<nat>, counts: map<nat, nat>) returns (r: Result<bool>)
      requires lattice.Valid() && dims in lattice.nodes && level == lattice.numOfDim - |dims|
      requires Closed(lattice.numOfDim, Parents, lattice.Pruned())
      modifies lattice.Repr`isPruned
      ensures lattice.Valid() && Closed(lattice.numOfDim, Parents, lattice.Pruned()) && lattice.Counts() == old(lattice.Counts())
      ensures var ub := UpperBound(crosskConst, MaxJoint(counts, dims), old(lattice.Counts())[dims]);
              (r.Err? <==> ub.Err?) && (r.Err? ==> r.error == ZeroDivisionError) &&
              (r.Ok? ==> (r.value <==> 0.0 < ub.value < thresholdCrosskValue) &&
                         PrunedFrom(lattice.numOfDim, old(lattice.Pruned()), lattice.Pruned(), dims, r.value))
    {
      var node := lattice.nodes[dims];
      assert lattice.Counts()[dims] == node.superpatternCount;
      var maxLeafCount := GetJointSingletonCount(counts, dims);
      var ubMax := UpperBound(crosskConst, maxLeafCount, node.superpatternCount);
      if ubMax.Err? {
        return Err(ubMax.error);
      }
      if ubMax.value > 0.0 && ubMax.value < thresholdCrosskValue {
        assert IsKey(lattice.numOfDim, dims);
        apriori.PruneFrom(lattice, level, dims);
        assert Toward(lattice.numOfDim, Parents, dims, dims);
        return Ok(true);
      }
      r := Ok(false);
    }

    /**
     * The part of a visit after the bound: the node's window is looked up
     * or enumerated by `UpperExpand`, and `count` is 1 when it was new.
     */
    method UpperKept(lattice: LatticeGraph, level: int, dims: seq<nat>, startIndex: int, endIndex: int, counts: map<nat, nat>)
      returns (r: Result<bool>, count: nat, ghost look: Look)
      requires Valid() && lattice.Valid() && lattice.numOfDim == numOfDims
      requires dims in lattice.nodes && level == numOfDims - |dims| && Closed(numOfDims, Parents, lattice.Pruned())
      requires level != 0 ==> UpperBound(crosskConst, MaxJoint(counts, dims), lattice.Counts()[dims]).Ok? &&
                              !Prunes(crosskConst, thresholdCrosskValue, MaxJoint(counts, dims), lattice.Counts()[dims])
      modifies lattice.Repr`isPruned, lattice.Repr`superpatternCount, enumPatternInst
      ensures lattice.Valid()
      ensures r.Ok? ==> Valid() && Closed(numOfDims, Parents, lattice.Pruned()) && old(lattice.Pruned()) <= lattice.Pruned() &&
                        Grew(old(enumPatternInst.Contents()), enumPatternInst.Contents(), count) && count <= 1 &&
                        (r.value ==> level == 0)
      ensures r.Ok? ==>
                look.dims == dims && look.kind != Support && Rule(numOfDims, data, startIndex, endIndex, crosskConst, thresholdCrosskValue, look) &&
                PrunedFrom(numOfDims, old(lattice.Pruned()), lattice.Pruned(), dims, look.prunes) &&
                Stepped(old(enumPatternInst.Contents()), enumPatternInst.Contents(), look,
                        patternCountInst.FindPatternOccurrences(look.key), thresholdSupportValue) &&
                look.stops == r.value && Based(counts, old(lattice.Counts()), numOfDims, look) &&
                lattice.Counts() == AfterLook(old(lattice.Counts()), numOfDims, look)
    {
      var isNew;
      ghost var above, largest;
      KeyLengthBound(numOfDims, dims);
      ghost var s := enumPatternInst.Contents();
      count := 0;
      r, isNew, above, largest, look := UpperExpand(lattice, level, dims, startIndex, endIndex, counts);
      if r.Ok? {
        SteppedGrew(s, enumPatternInst.Contents(), look,
                    patternCountInst.FindPatternOccurrences(look.key), thresholdSupportValue);
        count := if isNew then 1 else 0;
      }
    }

    /**
     * One pass of `_upperbound_pruning`'s loop at a node not yet pruned:
     * below the root, a node the bound prunes is not looked up; any other
     * node goes on to `UpperExpand`. The answer is `stop_execution`, which
     * only the root can raise; `count` is 1 when a window was enumerated.
     */
    method UpperVisit(lattice: LatticeGraph, level: int, dims: seq<nat>, startIndex: int, endIndex: int, counts: map<nat, nat>)
      returns (r: Result<bool>, count: nat, ghost look: Look)
      requires Valid() && lattice.Valid() && lattice.numOfDim == numOfDims
      requires dims in lattice.nodes && level == numOfDims - |dims| && Closed(numOfDims, Parents, lattice.Pruned())
      requires dims !in lattice.Pruned()
      modifies lattice.Repr`isPruned, lattice.Repr`superpatternCount, enumPatternInst
      ensures lattice.Valid()
      ensures r.Ok? ==> Valid() && Closed(numOfDims, Parents, lattice.Pruned()) && old(lattice.Pruned()) <= lattice.Pruned() &&
                        Grew(old(enumPatternInst.Contents()), enumPatternInst.Contents(), count) && count <= 1 &&
                        (r.value ==> level == 0)
      ensures var ub := UpperBound(crosskConst, MaxJoint(counts, dims), old(lattice.Counts())[dims]);
              level != 0 ==>
                (ub.Err? ==> r == Err(ZeroDivisionError)) &&
                (ub.Ok? && 0.0 < ub.value < thresholdCrosskValue ==>
                   r == Ok(false) && count == 0 && enumPatternInst.Contents() == old(enumPatternInst.Contents()) &&
                   look.kind == Bound && PrunedFrom(numOfDims, old(lattice.Pruned()), lattice.Pruned(), dims, true))
      ensures r.Ok? ==>
                look.dims == dims && look.kind != Support && Rule(numOfDims, data, startIndex, endIndex, crosskConst, thresholdCrosskValue, look) &&
                PrunedFrom(numOfDims, old(lattice.Pruned()), lattice.Pruned(), dims, look.prunes) &&
                Stepped(old(enumPatternInst.Contents()), enumPatternInst.Contents(), look,
                        patternCountInst.FindPatternOccurrences(look.key), thresholdSupportValue) &&
                look.stops == r.value && Based(counts, old(lattice.Counts()), numOfDims, look) &&
                lattice.Counts() == AfterLook(old(lattice.Counts()), numOfDims, look)
    {
      count := 0;
      look := Look(dims, Bound, PatternKey([]), false, false, true, false, MaxJoint(counts, dims), lattice.Counts()[dims], 0);
      if level != 0 {
        var pruned := BoundPrune(lattice, level, dims, counts);
        if pruned.Err? {
          return Err(pruned.error), count, look;
        }
        if pruned.value {
          KeyLengthBound(numOfDims, dims);
          return Ok(false), count, look;
        }
        PrunedNone(numOfDims, old(lattice.Pruned()), lattice.Pruned(), dims);
      }
      ghost var s, p := enumPatternInst.Contents(), lattice.Pruned();
      assert s == old(enumPatternInst.Contents()) && p == old(lattice.Pruned()) && lattice.Counts() == old(lattice.Counts());
      r, count, look := UpperKept(lattice, level, dims, startIndex, endIndex, counts);
    }

    /**
     * One pass of `_upperbound_pruning`'s loop: a pruned node is skipped,
     * any other is visited.
     */
    method UpperNode(lattice: LatticeGraph, level: int, dims: seq<nat>, startIndex: int, endIndex: int, counts: map<nat, nat>)
      returns (r: Result<bool>, count: nat, ghost look: Look)
      requires Valid() && lattice.Valid() && lattice.numOfDim == numOfDims
      requires dims in lattice.nodes && level == numOfDims - |dims| && Closed(numOfDims, Parents, lattice.Pruned())
      modifies lattice.Repr`isPruned, lattice.Repr`superpatternCount, enumPatternInst
      ensures lattice.Valid() && patternCountInst.seqHashmap == old(patternCountInst.seqHashmap)
      ensures r.Ok? ==> Valid() && Closed(numOfDims, Parents, lattice.Pruned()) && old(lattice.Pruned()) <= lattice.Pruned() &&
                        Grew(old(enumPatternInst.Contents()), enumPatternInst.Contents(), count) && count <= 1 &&
                        (r.value ==> level == 0)
      ensures dims in old(lattice.Pruned()) ==>
                r == Ok(false) && count == 0 && lattice.Pruned() == old(lattice.Pruned()) &&
                enumPatternInst.Contents() == old(enumPatternInst.Contents()) && lattice.Counts() == old(lattice.Counts())
      ensures var ub := UpperBound(crosskConst, MaxJoint(counts, dims), old(lattice.Counts())[dims]);
              dims !in old(lattice.Pruned()) && level != 0 ==>
                (ub.Err? ==> r == Err(ZeroDivisionError)) &&
                (ub.Ok? && 0.0 < ub.value < thresholdCrosskValue ==>
                   r == Ok(false) && count == 0 && enumPatternInst.Contents() == old(enumPatternInst.Contents()) &&
                   look.kind == Bound && PrunedFrom(numOfDims, old(lattice.Pruned()), lattice.Pruned(), dims, true))
      ensures r.Ok? && dims !in old(lattice.Pruned()) ==>
                look.dims == dims && look.kind != Support && Rule(numOfDims, data, startIndex, endIndex, crosskConst, thresholdCrosskValue, look) &&
                PrunedFrom(numOfDims, old(lattice.Pruned()), lattice.Pruned(), dims, look.prunes) &&
                Stepped(old(enumPatternInst.Contents()), enumPatternInst.Contents(), look,
                        patternCountInst.FindPatternOccurrences(look.key), thresholdSupportValue) &&
                look.stops == r.value && Based(counts, old(lattice.Counts()), numOfDims, look) &&
                lattice.Counts() == AfterLook(old(lattice.Counts()), numOfDims, look)
    {
      var node := lattice.nodes[dims];
      if node.isPruned {
        return Ok(false), 0, Look(dims, Bound, PatternKey([]), false, false, true, false, 0, 0, 0);
      }
      r, count, look := UpperVisit(lattice, level, dims, startIndex, endIndex, counts);
    }

    /**
     * The next node of `_upperbound_pruning`'s loop, the j-th of its depth;
     * the answer is `stop_execution`, and the pass's bookkeeping moves one
     * node further.
     */
    method UpperStep(lattice: LatticeGraph, level: int, nodesOfLevel: seq<seq<nat>>, j: nat, startIndex: int, endIndex: int,
                     counts: map<nat, nat>, ghost p0: set<seq<nat>>, ghost s0: Lists, nodesEnumerated0: nat,
                     ghost s0w: Lists, ghost looks0: seq<Look>, ghost looks1: seq<Look>, ghost c0: map<seq<nat>, int>)
      returns (r: Result<bool>, nodesEnumerated: nat, ghost looks: seq<Look>)
      requires Valid() && lattice.Valid() && lattice.numOfDim == numOfDims && Closed(numOfDims, Parents, lattice.Pruned())
      requires j < |nodesOfLevel| && LevelList(numOfDims, lattice.nodes.Keys, nodesOfLevel, numOfDims - level)
      requires UpperState(nodesOfLevel, j, p0, lattice.Pruned(), s0, enumPatternInst.Contents(), nodesEnumerated0)
      requires Trace(lattice.Pruned(), s0w, enumPatternInst.Contents(), looks1, startIndex, endIndex, patternCountInst.seqHashmap)
      requires InPass(looks0, looks1, nodesOfLevel, j, p0, true)
      requires forall i | 0 <= i < |looks0| :: |looks0[i].dims| != numOfDims - level
      requires Handing(c0, lattice.Counts(), counts, numOfDims, numOfDims - level, looks0, looks1) && StopsLast(looks1, false)
      modifies lattice.Repr`isPruned, lattice.Repr`superpatternCount, enumPatternInst
      ensures lattice.Valid() && patternCountInst.seqHashmap == old(patternCountInst.seqHashmap)
      ensures r.Ok? ==> Valid() && Closed(numOfDims, Parents, lattice.Pruned()) &&
                        UpperState(nodesOfLevel, j + 1, p0, lattice.Pruned(), s0, enumPatternInst.Contents(), nodesEnumerated) &&
                        Trace(lattice.Pruned(), s0w, enumPatternInst.Contents(), looks, startIndex, endIndex, patternCountInst.seqHashmap) &&
                        InPass(looks0, looks, nodesOfLevel, j + 1, p0, true)
      ensures r.Ok? ==> Handing(c0, lattice.Counts(), counts, numOfDims, numOfDims - level, looks0, looks) && StopsLast(looks, r.value)
      ensures r.Ok? && r.value ==> level == 0 && LastAtRoot(numOfDims, looks)
    {
      var dims := nodesOfLevel[j];
      assert AtSize(numOfDims, lattice.nodes.Keys, numOfDims - level, dims);
      ghost var keys := lattice.nodes.Keys;
      ghost var p, s, c := lattice.Pruned(), enumPatternInst.Contents(), lattice.Counts();
      ghost var m := patternCountInst.seqHashmap;
      var count;
      ghost var look;
      r, count, look := UpperNode(lattice, level, dims, startIndex, endIndex, counts);
      nodesEnumerated := nodesEnumerated0 + count;
      looks := looks1;
      if r.Err? {
        return;
      }
      looks := UpperStepDone(nodesOfLevel, j, p0, s0, p, s, lattice.Pruned(), enumPatternInst.Contents(), nodesEnumerated0, count,
                             s0w, looks0, looks1, look, patternCountInst.FindPatternOccurrences(look.key), startIndex, endIndex,
                             numOfDims - level, m, c0, c, lattice.Counts(), counts,
                             r.value, keys);
    }

    /**
     * `_upperbound_pruning` over one depth, in the order the depth's dict
     * holds its nodes: the answers are the windows enumerated and
     * `stop_execution`, raised only at the root, which ends the pass.
     */
    method UpperPass(lattice: LatticeGraph, level: int, startIndex: int, endIndex: int, counts: map<nat, nat>,
                     ghost s0w: Lists, ghost looks0: seq<Look>)
      returns (r: Result<bool>, nodesEnumerated: nat, ghost looks: seq<Look>)
      requires Valid() && lattice.Valid() && lattice.numOfDim == numOfDims && level in lattice.levels
      requires Closed(numOfDims, Parents, lattice.Pruned())
      requires Trace(lattice.Pruned(), s0w, enumPatternInst.Contents(), looks0, startIndex, endIndex, patternCountInst.seqHashmap)
      requires forall i | 0 <= i < |looks0| :: |looks0[i].dims| != numOfDims - level
      requires StopsLast(looks0, false)
      modifies lattice.Repr`isPruned, lattice.Repr`superpatternCount, enumPatternInst
      ensures lattice.Valid()
      ensures r.Ok? ==> Valid() && Closed(numOfDims, Parents, lattice.Pruned()) && old(lattice.Pruned()) <= lattice.Pruned() &&
                        Grew(old(enumPatternInst.Contents()), enumPatternInst.Contents(), nodesEnumerated) &&
                        nodesEnumerated <= |lattice.levels[level]| && (r.value ==> level == 0)
      ensures r.Ok? ==> Trace(lattice.Pruned(), s0w, enumPatternInst.Contents(), looks, startIndex, endIndex, patternCountInst.seqHashmap) && looks0 <= looks &&
                        DimsOf(looks) == DimsOf(looks0) + Unpruned(lattice.levels[level], old(lattice.Pruned())) &&
                        forall i | |looks0| <= i < |looks| :: looks[i].kind != Support
      ensures r.Ok? ==> Handing(old(lattice.Counts()), lattice.Counts(), counts, numOfDims, numOfDims - level, looks0, looks) &&
                        StopsLast(looks, r.value)
      ensures r.Ok? && r.value ==> LastAtRoot(numOfDims, looks)
    {
      var nodesOfLevel := lattice.levels[level];
      LevelFacts(lattice, level);
      assert LevelList(numOfDims, lattice.nodes.Keys, nodesOfLevel, numOfDims - level);
      ghost var p0, s0, c0 := lattice.Pruned(), enumPatternInst.Contents(), lattice.Counts();
      ghost var m := patternCountInst.seqHashmap;
      nodesEnumerated, looks := 0, looks0;
      InPassStart(looks0, nodesOfLevel, p0, true);
      HandingStart(c0, counts, numOfDims, numOfDims - level, looks0);
      for j := 0 to |nodesOfLevel|
        invariant Valid() && lattice.Valid() && Closed(numOfDims, Parents, lattice.Pruned()) && patternCountInst.seqHashmap == m
        invariant UpperState(nodesOfLevel, j, p0, lattice.Pruned(), s0, enumPatternInst.Contents(), nodesEnumerated)
        invariant Trace(lattice.Pruned(), s0w, enumPatternInst.Contents(), looks, startIndex, endIndex, patternCountInst.seqHashmap)
        invariant InPass(looks0, looks, nodesOfLevel, j, p0, true)
        invariant Handing(c0, lattice.Counts(), counts, numOfDims, numOfDims - level, looks0, looks) && StopsLast(looks, false)
      {
        var stop;
        stop, nodesEnumerated, looks :=
          UpperStep(lattice, level, nodesOfLevel, j, startIndex, endIndex, counts, p0, s0, nodesEnumerated, s0w, looks0, looks, c0);
        if stop.Err? {
          return Err(stop.error), nodesEnumerated, looks;
        }
        if stop.value {
          // depth 0 holds the root alone, so the pass has reached its end
          RootOnly(numOfDims, lattice.nodes.Keys, nodesOfLevel);
          UpperEnd(nodesOfLevel, j + 1, p0, lattice.Pruned(), s0, enumPatternInst.Contents(), nodesEnumerated, looks0, looks);
          return Ok(true), nodesEnumerated, looks;
        }
      }
      UpperEnd(nodesOfLevel, |nodesOfLevel|, p0, lattice.Pruned(), s0, enumPatternInst.Contents(), nodesEnumerated, looks0, looks);
      r := Ok(false);
    }

    /**
     * The bottom-up half of one turn of the while loop: an Apriori pass at
     * `bottomostLevel`, whose answer is the new `stop_execution`. The first
     * pass, on the untouched lattice, records every singleton.
     */
    method BottomUp(lattice: LatticeGraph, topmostLevel: int, bottomostLevel: int, startIndex: int, endIndex: int,
                    counts0: map<nat, nat>, ghost recorded0: set<nat>, ghost s0: Lists, total0: nat, ghost done0: set<seq<nat>>,
                    ghost looks0: seq<Look>, ghost ends: seq<int>)
      returns (r: Result<bool>, bottom: int, total: nat, counts: map<nat, nat>, ghost recorded: set<nat>,
               ghost done: set<seq<nat>>, ghost looks: seq<Look>)
      requires Valid() && lattice.Valid() && lattice.numOfDim == numOfDims && Closed(numOfDims, Parents, lattice.Pruned())
      requires bottomostLevel in lattice.levels && topmostLevel <= bottomostLevel
      requires WalkState(numOfDims, lattice.nodes.Keys, topmostLevel, bottomostLevel, lattice.Pruned(), s0,
                         enumPatternInst.Contents(), total0, done0)
      requires Records(data, counts0, enumPatternInst.Contents(), recorded0, startIndex, endIndex)
      requires AllRecorded(numOfDims, bottomostLevel, recorded0)
      requires Trace(lattice.Pruned(), s0, enumPatternInst.Contents(), looks0, startIndex, endIndex, patternCountInst.seqHashmap)
      requires Reached(numOfDims, lattice.nodes.Keys, topmostLevel, bottomostLevel, lattice.Pruned(), looks0)
      requires Going(numOfDims, lattice.nodes.Keys, bottomostLevel, lattice.Pruned(), false)
      requires StopsLast(looks0, false) && Leafed(counts0, numOfDims, looks0)
      requires bottomostLevel == numOfDims - 1 ==> topmostLevel == 0
      requires Passes(numOfDims, lattice.levels, looks0, ends) && |ends| == 2 * (numOfDims - 1 - bottomostLevel)
      modifies lattice.Repr`isPruned, enumPatternInst
      ensures lattice.Valid()
      ensures r.Ok? ==> bottom == bottomostLevel - 1 && total0 <= total <= total0 + |lattice.levels[bottomostLevel]|
      ensures r.Ok? ==> Valid() && Closed(numOfDims, Parents, lattice.Pruned()) &&
                        WalkState(numOfDims, lattice.nodes.Keys, topmostLevel, bottom, lattice.Pruned(), s0,
                                  enumPatternInst.Contents(), total, done) &&
                        Records(data, counts, enumPatternInst.Contents(), recorded, startIndex, endIndex) &&
                        AllRecorded(numOfDims, bottom, recorded)
      ensures r.Ok? ==> Trace(lattice.Pruned(), s0, enumPatternInst.Contents(), looks, startIndex, endIndex, patternCountInst.seqHashmap) &&
                        Reached(numOfDims, lattice.nodes.Keys, topmostLevel, bottom, lattice.Pruned(), looks) &&
                        Going(numOfDims, lattice.nodes.Keys, bottom, lattice.Pruned(), r.value) &&
                        (r.value ==> Full(lattice.nodes.Keys, lattice.Pruned(), numOfDims - bottomostLevel)) &&
                        Halt(numOfDims, lattice.nodes.Keys, topmostLevel, bottom, lattice.Pruned(), looks, r.value) &&
                        Leafed(counts, numOfDims, looks)
      ensures r.Ok? ==> looks0 <= looks && (forall i | |looks0| <= i < |looks| :: looks[i].kind == Support) &&
                        lattice.Counts() == old(lattice.Counts())
      ensures r.Ok? ==> DimsOf(looks) == DimsOf(looks0) + Unpruned(lattice.levels[bottomostLevel], old(lattice.Pruned())) &&
                        Passes(numOfDims, lattice.levels, looks, ends + [|looks|])
    {
      ghost var s, p := enumPatternInst.Contents(), lattice.Pruned();
      var count;
      r, count, counts, recorded, looks :=
        AprioriPass(lattice, bottomostLevel, startIndex, endIndex, counts0, recorded0, s0, looks0);
      bottom, total, done := bottomostLevel - 1, total0 + count, done0;
      if r.Ok? {
        done := BottomUpDone(numOfDims, lattice.nodes.Keys, lattice.levels, topmostLevel, bottomostLevel, p, s,
                             lattice.Pruned(), enumPatternInst.Contents(), s0, total0, count, done0, recorded0, recorded,
                             looks0, looks, r.value, bottom, total, counts0, counts, ends);
      }
    }

    /**
     * The top-down half of one turn of the while loop: an upper-bound pass
     * at `topmostLevel`, whose answer is the new `stop_execution`.
     */
    method TopDown(lattice: LatticeGraph, topmostLevel: int, bottomostLevel: int, startIndex: int, endIndex: int,
                   counts: map<nat, nat>, ghost recorded: set<nat>, ghost s0: Lists, total: nat, ghost done0: set<seq<nat>>,
                   ghost looks0: seq<Look>, ghost cw: map<seq<nat>, int>, ghost ends: seq<int>)
      returns (r: Result<bool>, count: nat, ghost done: set<seq<nat>>, ghost looks: seq<Look>)
      requires Valid() && lattice.Valid() && lattice.numOfDim == numOfDims && Closed(numOfDims, Parents, lattice.Pruned())
      requires topmostLevel in lattice.levels && topmostLevel <= bottomostLevel < numOfDims - 1
      requires WalkState(numOfDims, lattice.nodes.Keys, topmostLevel, bottomostLevel, lattice.Pruned(), s0,
                         enumPatternInst.Contents(), total, done0)
      requires Records(data, counts, enumPatternInst.Contents(), recorded, startIndex, endIndex)
      requires Trace(lattice.Pruned(), s0, enumPatternInst.Contents(), looks0, startIndex, endIndex, patternCountInst.seqHashmap)
      requires Reached(numOfDims, lattice.nodes.Keys, topmostLevel, bottomostLevel, lattice.Pruned(), looks0)
      requires Going(numOfDims, lattice.nodes.Keys, bottomostLevel, lattice.Pruned(), false)
      requires StopsLast(looks0, false) && Leafed(counts, numOfDims, looks0)
      requires HandedWalk(cw, lattice.Counts(), numOfDims, looks0)
      requires Passes(numOfDims, lattice.levels, looks0, ends) && |ends| == 2 * topmostLevel + 1
      modifies lattice.Repr`isPruned, lattice.Repr`superpatternCount, enumPatternInst
      ensures lattice.Valid()
      ensures r.Ok? ==> HandedWalk(cw, lattice.Counts(), numOfDims, looks)
      ensures r.Ok? ==> looks0 <= looks && DimsOf(looks) == DimsOf(looks0) + Unpruned(lattice.levels[topmostLevel], old(lattice.Pruned())) &&
                        Passes(numOfDims, lattice.levels, looks, ends + [|looks|])
      ensures r.Ok? ==> Valid() && Closed(numOfDims, Parents, lattice.Pruned()) &&
                        WalkState(numOfDims, lattice.nodes.Keys, topmostLevel + 1, bottomostLevel, lattice.Pruned(), s0,
                                  enumPatternInst.Contents(), total + count, done) &&
                        Records(data, counts, enumPatternInst.Contents(), recorded, startIndex, endIndex)
      ensures r.Ok? ==> Trace(lattice.Pruned(), s0, enumPatternInst.Contents(), looks, startIndex, endIndex, patternCountInst.seqHashmap) &&
                        Reached(numOfDims, lattice.nodes.Keys, topmostLevel + 1, bottomostLevel, lattice.Pruned(), looks) &&
                        Going(numOfDims, lattice.nodes.Keys, bottomostLevel, lattice.Pruned(), r.value) &&
                        (r.value ==> StoppedAtRoot(numOfDims, topmostLevel + 1, looks)) &&
                        StopsLast(looks, r.value) && Leafed(counts, numOfDims, looks)
    {
      ghost var s, p, c0 := enumPatternInst.Contents(), lattice.Pruned(), lattice.Counts();
      LevelFacts(lattice, topmostLevel);
      ghost var keys := lattice.nodes.Keys;
      r, count, looks := UpperPass(lattice, topmostLevel, startIndex, endIndex, counts, s0, looks0);
      done := done0;
      if r.Err? {
        return;
      }
      ghost var nodes := lattice.levels[topmostLevel];
      LeafedPass(c0, lattice.Counts(), counts, numOfDims, numOfDims - topmostLevel, looks0, looks);
      ReachedStep(numOfDims, keys, lattice.levels, topmostLevel, topmostLevel, bottomostLevel, p, lattice.Pruned(),
                  looks0, looks, true);
      PassDone(looks0, looks, nodes, p, lattice.Pruned());
      HandedPass(cw, c0, lattice.Counts(), counts, numOfDims, numOfDims - topmostLevel, nodes, looks0, looks);
      PassesNext(numOfDims, lattice.levels, topmostLevel, true, topmostLevel, p, looks0, looks, ends);
      AllKeysAreKeys(lattice);
      GoingTop(numOfDims, keys, topmostLevel, bottomostLevel, p, lattice.Pruned(), looks0, looks, r.value);
      RecordsKept(data, counts, s, enumPatternInst.Contents(), recorded, startIndex, endIndex);
      done := WalkTopStep(numOfDims, lattice.nodes.Keys, topmostLevel, bottomostLevel, lattice.levels[topmostLevel],
                          p, lattice.Pruned(), s0, s, enumPatternInst.Contents(), total, count, done0);
    }

    /**
     * The second half of a turn of the while loop: the top-down pass when
     * the two ends have not crossed and the bottom-up pass did not stop the
     * walk, nothing otherwise.  The answer is the new `stop_execution`, and
     * the walk's bookkeeping holds at the new ends.
     */
    method WalkTop(lattice: LatticeGraph, topmostLevel: int, bottomostLevel: int, startIndex: int, endIndex: int,
                   counts: map<nat, nat>, ghost recorded: set<nat>, ghost s0: Lists, total0: nat, ghost done0: set<seq<nat>>,
                   ghost looks0: seq<Look>, ghost cw: map<seq<nat>, int>, ghost ends0: seq<int>, stop: bool)
      returns (r: Result<bool>, top: int, total: nat, ghost done: set<seq<nat>>, ghost looks: seq<Look>, ghost ends: seq<int>)
      requires Valid() && lattice.Valid() && lattice.numOfDim == numOfDims && Closed(numOfDims, Parents, lattice.Pruned())
      requires numOfDims >= 2 ==> forall t | 0 <= t < numOfDims :: t in lattice.levels
      requires WalkState(numOfDims, lattice.nodes.Keys, topmostLevel, bottomostLevel, lattice.Pruned(), s0,
                         enumPatternInst.Contents(), total0, done0)
      requires Records(data, counts, enumPatternInst.Contents(), recorded, startIndex, endIndex)
      requires Trace(lattice.Pruned(), s0, enumPatternInst.Contents(), looks0, startIndex, endIndex, patternCountInst.seqHashmap)
      requires Reached(numOfDims, lattice.nodes.Keys, topmostLevel, bottomostLevel, lattice.Pruned(), looks0)
      requires Going(numOfDims, lattice.nodes.Keys, bottomostLevel, lattice.Pruned(), stop)
      requires Halt(numOfDims, lattice.nodes.Keys, topmostLevel, bottomostLevel, lattice.Pruned(), looks0, stop)
      requires topmostLevel + bottomostLevel == numOfDims - 2
      requires Leafed(counts, numOfDims, looks0) && HandedWalk(cw, lattice.Counts(), numOfDims, looks0)
      requires Passes(numOfDims, lattice.levels, looks0, ends0) && |ends0| == numOfDims - 1 - bottomostLevel + topmostLevel
      modifies lattice.Repr`isPruned, lattice.Repr`superpatternCount, enumPatternInst
      ensures lattice.Valid()
      ensures r.Ok? ==> Valid() && lattice.Valid() && Closed(numOfDims, Parents, lattice.Pruned())
      ensures r.Ok? ==> WalkState(numOfDims, lattice.nodes.Keys, top, bottomostLevel, lattice.Pruned(), s0, enumPatternInst.Contents(), total, done)
      ensures r.Ok? ==> Records(data, counts, enumPatternInst.Contents(), recorded, startIndex, endIndex)
      ensures r.Ok? ==> Trace(lattice.Pruned(), s0, enumPatternInst.Contents(), looks, startIndex, endIndex, patternCountInst.seqHashmap)
      ensures r.Ok? ==> Reached(numOfDims, lattice.nodes.Keys, top, bottomostLevel, lattice.Pruned(), looks)
      ensures r.Ok? ==> Going(numOfDims, lattice.nodes.Keys, bottomostLevel, lattice.Pruned(), r.value)
      ensures r.Ok? ==> Halt(numOfDims, lattice.nodes.Keys, top, bottomostLevel, lattice.Pruned(), looks, r.value)
      ensures r.Ok? ==> top + bottomostLevel == numOfDims - 1 || (top + bottomostLevel == numOfDims - 2 && (r.value || top > bottomostLevel))
      ensures r.Ok? ==> topmostLevel <= top <= topmostLevel + 1
      ensures r.Ok? ==> Leafed(counts, numOfDims, looks) && HandedWalk(cw, lattice.Counts(), numOfDims, looks)
      ensures r.Ok? ==> Passes(numOfDims, lattice.levels, looks, ends) && |ends| == numOfDims - 1 - bottomostLevel + top
    {
      top, total, done, looks, ends := topmostLevel, total0, done0, looks0, ends0;
      if topmostLevel <= bottomostLevel && !stop {
        var nodesEnumerated;
        r, nodesEnumerated, done, looks :=
          TopDown(lattice, topmostLevel, bottomostLevel, startIndex, endIndex, counts, recorded, s0, total0, done0, looks0, cw, ends0);
        if r.Err? {
          return;
        }
        ends := ends0 + [|looks|];
        top := topmostLevel + 1;
        total := total0 + nodesEnumerated;
      } else {
        r := Ok(stop);
      }
    }

    /**
     * One turn of the while loop: the bottom-up half, then, while the two
     * ends have not crossed and nothing stopped the walk, the top-down half.
     * The answer is the new `stop_execution`, and the walk's bookkeeping
     * holds again at the new ends, which are closer together.
     */
    method WalkTurn(lattice: LatticeGraph, topmostLevel: int, bottomostLevel: int, startIndex: int, endIndex: int,
                    counts0: map<nat, nat>, ghost recorded0: set<nat>, ghost s0: Lists, total0: nat, ghost done0: set<seq<nat>>,
                    ghost looks0: seq<Look>, ghost cw: map<seq<nat>, int>, ghost ends0: seq<int>)
      returns (r: Result<bool>, top: int, bottom: int, total: nat, counts: map<nat, nat>, ghost recorded: set<nat>,
               ghost done: set<seq<nat>>, ghost looks: seq<Look>, ghost ends: seq<int>)
      requires Valid() && lattice.Valid() && lattice.numOfDim == numOfDims && Closed(numOfDims, Parents, lattice.Pruned())
      requires topmostLevel <= bottomostLevel
      requires numOfDims >= 2 ==> forall t | 0 <= t < numOfDims :: t in lattice.levels
      requires numOfDims < 2 ==> lattice.levels == map[0 := []]
      requires WalkState(numOfDims, lattice.nodes.Keys, topmostLevel, bottomostLevel, lattice.Pruned(), s0,
                         enumPatternInst.Contents(), total0, done0)
      requires Records(data, counts0, enumPatternInst.Contents(), recorded0, startIndex, endIndex)
      requires AllRecorded(numOfDims, bottomostLevel, recorded0)
      requires bottomostLevel == numOfDims - 1 ==> topmostLevel == 0
      requires Trace(lattice.Pruned(), s0, enumPatternInst.Contents(), looks0, startIndex, endIndex, patternCountInst.seqHashmap)
      requires Reached(numOfDims, lattice.nodes.Keys, topmostLevel, bottomostLevel, lattice.Pruned(), looks0)
      requires Going(numOfDims, lattice.nodes.Keys, bottomostLevel, lattice.Pruned(), false)
      requires topmostLevel + bottomostLevel == numOfDims - 1
      requires StopsLast(looks0, false) && Leafed(counts0, numOfDims, looks0)
      requires HandedWalk(cw, lattice.Counts(), numOfDims, looks0)
      requires Passes(numOfDims, lattice.levels, looks0, ends0) && |ends0| == numOfDims - 1 - bottomostLevel + topmostLevel
      modifies lattice.Repr`isPruned, lattice.Repr`superpatternCount, enumPatternInst
      ensures lattice.Valid()
      ensures r.Ok? ==> Valid() && lattice.Valid() && Closed(numOfDims, Parents, lattice.Pruned())
      ensures r.Ok? ==> WalkState(numOfDims, lattice.nodes.Keys, top, bottom, lattice.Pruned(), s0, enumPatternInst.Contents(), total, done)
      ensures r.Ok? ==> Records(data, counts, enumPatternInst.Contents(), recorded, startIndex, endIndex)
      ensures r.Ok? ==> AllRecorded(numOfDims, bottom, recorded)
      ensures r.Ok? ==> Trace(lattice.Pruned(), s0, enumPatternInst.Contents(), looks, startIndex, endIndex, patternCountInst.seqHashmap)
      ensures r.Ok? ==> Reached(numOfDims, lattice.nodes.Keys, top, bottom, lattice.Pruned(), looks)
      ensures r.Ok? ==> Going(numOfDims, lattice.nodes.Keys, bottom, lattice.Pruned(), r.value)
      ensures r.Ok? ==> Halt(numOfDims, lattice.nodes.Keys, top, bottom, lattice.Pruned(), looks, r.value)
      ensures r.Ok? ==> (bottom == numOfDims - 1 ==> top == 0 && !r.value)
      ensures r.Ok? ==> top + bottom == numOfDims - 1 || (top + bottom == numOfDims - 2 && (r.value || top > bottom))
      ensures r.Ok? ==> bottom == bottomostLevel - 1 && topmostLevel <= top <= topmostLevel + 1
      ensures r.Ok? ==> Leafed(counts, numOfDims, looks) && HandedWalk(cw, lattice.Counts(), numOfDims, looks)
      ensures r.Ok? ==> Passes(numOfDims, lattice.levels, looks, ends) && |ends| == numOfDims - 1 - bottom + top
    {
      if numOfDims < 2 {
        assert bottomostLevel == 0;
      }
      top := topmostLevel;
      ghost var c := lattice.Counts();
      r, bottom, total, counts, recorded, done, looks :=
        BottomUp(lattice, topmostLevel, bottomostLevel, startIndex, endIndex, counts0, recorded0, s0, total0, done0, looks0, ends0);
      ends := ends0 + [|looks|];
      if r.Err? {
        return;
      }
      assert lattice.Counts() == c;
      HandedBottom(cw, c, numOfDims, looks0, looks);
      r, top, total, done, looks, ends :=
        WalkTop(lattice, topmostLevel, bottom, startIndex, endIndex, counts, recorded, s0, total, done, looks, cw, ends, r.value);
    }

    /**
     * The while loop of `prune_and_enumerate_patterns` on a fresh lattice:
     * an Apriori pass at the deepest depth not walked yet, then, while the
     * two ends have not crossed and nothing stopped the walk, an upper-bound
     * pass at the shallowest; `stop_execution` is the last pass's answer.
     * The answer is `total_nodes_enumerated`, at most one per node walked,
     * and the walk records every singleton's count in `counts`.
     */
    method Walk(lattice: LatticeGraph, startIndex: int, endIndex: int, counts0: map<nat, nat>)
      returns (r: Result<nat>, counts: map<nat, nat>, ghost recorded: set<nat>, ghost looks: seq<Look>,
               ghost top: int, ghost bottom: int, ghost stopped: bool, ghost ends: seq<int>)
      requires Valid() && lattice.Valid() && lattice.numOfDim == numOfDims && lattice.Pruned() == {}
      requires numOfDims >= 2 ==> forall t | 0 <= t < numOfDims :: t in lattice.levels
      requires numOfDims < 2 ==> lattice.levels == map[0 := []]
      modifies lattice.Repr`isPruned, lattice.Repr`superpatternCount, enumPatternInst
      ensures lattice.Valid()
      ensures r.Ok? ==> Valid() && Grew(old(enumPatternInst.Contents()), enumPatternInst.Contents(), r.value) &&
                        r.value <= |lattice.nodes.Keys|
      ensures r.Ok? ==> Records(data, counts, enumPatternInst.Contents(), recorded, startIndex, endIndex) &&
                        (numOfDims >= 2 ==> forall d | 0 <= d < numOfDims :: d in recorded)
      ensures r.Ok? ==> Trace(lattice.Pruned(), old(enumPatternInst.Contents()), enumPatternInst.Contents(), looks, startIndex, endIndex, patternCountInst.seqHashmap)
      ensures r.Ok? ==> 0 <= top && bottom <= numOfDims - 1 && top <= bottom + 1 && numOfDims - 2 <= top + bottom <= numOfDims - 1 &&
                        (top > bottom || stopped) &&
                        Reached(numOfDims, lattice.nodes.Keys, top, bottom, lattice.Pruned(), looks) &&
                        Going(numOfDims, lattice.nodes.Keys, bottom, lattice.Pruned(), stopped) &&
                        Halt(numOfDims, lattice.nodes.Keys, top, bottom, lattice.Pruned(), looks, stopped)
      ensures r.Ok? ==> Leafed(counts, numOfDims, looks) && HandedWalk(old(lattice.Counts()), lattice.Counts(), numOfDims, looks)
      ensures r.Ok? ==> Passes(numOfDims, lattice.levels, looks, ends) && |ends| == numOfDims - 1 - bottom + top
    {
      ghost var s0, cw := enumPatternInst.Contents(), lattice.Counts();
      counts, recorded := counts0, {};
      var topmostLevel := 0;
      var stopExecution := false;
      var totalNodesEnumerated: nat := 0;
      var bottomostLevel := numOfDims - 1;
      ghost var done: set<seq<nat>> := {};
      looks, ends := [], [];
      WalkStart(lattice, s0, startIndex, endIndex, patternCountInst.seqHashmap);
      assert HandedWalk(cw, cw, numOfDims, []);
      while topmostLevel <= bottomostLevel && !stopExecution
        invariant Valid() && lattice.Valid() && Closed(numOfDims, Parents, lattice.Pruned())
        invariant WalkState(numOfDims, lattice.nodes.Keys, topmostLevel, bottomostLevel, lattice.Pruned(), s0,
                            enumPatternInst.Contents(), totalNodesEnumerated, done)
        invariant Records(data, counts, enumPatternInst.Contents(), recorded, startIndex, endIndex)
        invariant AllRecorded(numOfDims, bottomostLevel, recorded)
        invariant bottomostLevel == numOfDims - 1 ==> topmostLevel == 0 && !stopExecution
        invariant Trace(lattice.Pruned(), s0, enumPatternInst.Contents(), looks, startIndex, endIndex, patternCountInst.seqHashmap)
        invariant Reached(numOfDims, lattice.nodes.Keys, topmostLevel, bottomostLevel, lattice.Pruned(), looks)
        invariant Going(numOfDims, lattice.nodes.Keys, bottomostLevel, lattice.Pruned(), stopExecution)
        invariant Halt(numOfDims, lattice.nodes.Keys, topmostLevel, bottomostLevel, lattice.Pruned(), looks, stopExecution)
        invariant Leafed(counts, numOfDims, looks) && HandedWalk(cw, lattice.Counts(), numOfDims, looks)
        invariant Passes(numOfDims, lattice.levels, looks, ends) && |ends| == numOfDims - 1 - bottomostLevel + topmostLevel
        invariant topmostLevel + bottomostLevel == numOfDims - 1 ||
                  (topmostLevel + bottomostLevel == numOfDims - 2 && (stopExecution || topmostLevel > bottomostLevel))
        decreases bottomostLevel - topmostLevel
      {
        var passed;
        passed, topmostLevel, bottomostLevel, totalNodesEnumerated, counts, recorded, done, looks, ends :=
          WalkTurn(lattice, topmostLevel, bottomostLevel, startIndex, endIndex, counts, recorded, s0, totalNodesEnumerated,
                   done, looks, cw, ends);
        if passed.Err? {
          return Err(passed.error), counts, recorded, looks, topmostLevel, bottomostLevel, stopExecution, ends;
        }
        stopExecution := passed.value;
      }
      SubsetSize(done, lattice.nodes.Keys);
      r := Ok(totalNodesEnumerated);
      top, bottom, stopped := topmostLevel, bottomostLevel, stopExecution;
    }

    /** Before the first pass nothing is looked at, nothing pruned, and every depth is still to be walked. */
    lemma WalkStart(lattice: LatticeGraph, s0: Lists, startIndex: int, endIndex: int, m: SeqMap)
      requires lattice.Valid() && lattice.numOfDim == numOfDims && lattice.Pruned() == {}
      ensures Trace({}, s0, s0, [], startIndex, endIndex, m)
      ensures Reached(numOfDims, lattice.nodes.Keys, 0, numOfDims - 1, {}, [])
      ensures Going(numOfDims, lattice.nodes.Keys, numOfDims - 1, {}, false)
    {
      assert VisitsOf([]) == [];
      forall k | k in lattice.nodes.Keys ensures 0 <= numOfDims - |k| <= numOfDims - 1 {
        KeyLengthBound(numOfDims, k);
      }
    }

    /** The lattice's nodes are keys. */
    lemma AllKeysAreKeys(lattice: LatticeGraph)
      requires lattice.Valid()
      ensures forall k | k in lattice.nodes.Keys :: IsKey(lattice.numOfDim, k)
    {
    }

    /** The nodes of a fresh lattice are those of `LatticeKeys`. */
    lemma LatticeKeysOf(lattice: LatticeGraph)
      requires lattice.Valid()
      ensures lattice.nodes.Keys == LatticeKeys(lattice.numOfDim)
    {
      lattice.NodeCount();
      if lattice.numOfDim >= 2 {
        forall k ensures k in lattice.nodes.Keys <==> k in AllKeys(lattice.numOfDim) {
          AllKeysMembers(lattice.numOfDim, k);
        }
      }
    }

    /** A fresh lattice has nothing handed down. */
    lemma FreshCounts(lattice: LatticeGraph)
      requires lattice.Valid() && Unmarked(lattice.nodes, lattice.Repr) && lattice.nodes.Keys == LatticeKeys(lattice.numOfDim)
      ensures lattice.Counts() == Unset(LatticeKeys(lattice.numOfDim))
    {
    }

    /** A walked depth lists lattice nodes of its size, each once. */
    lemma LevelFacts(lattice: LatticeGraph, level: int)
      requires lattice.Valid() && level in lattice.levels
      ensures NoDup(lattice.levels[level])
      ensures forall k | k in lattice.levels[level] :: k in lattice.nodes && |k| == lattice.numOfDim - level
    {
    }

    /**
     * The body of `prune_and_enumerate_patterns` up to its return: a fresh
     * lattice of 2^D - 1 nodes walked from both ends, answering the
     * lattice's node count, the walk's total and its singleton counts.
     */
    method WalkFresh(startIndex: int, endIndex: int)
      returns (total: Result<nat>, numOfNodes: int, counts: map<nat, nat>, ghost recorded: set<nat>, ghost looks: seq<Look>,
               ghost pruned: set<seq<nat>>, ghost top: int, ghost bottom: int, ghost stopped: bool,
               ghost levels: LatticeLists.Levels, ghost ends: seq<int>)
      requires Valid()
      modifies enumPatternInst
      ensures numOfNodes == Pow2(numOfDims) - 1
      ensures total.Ok? ==> Valid() && Kept(old(enumPatternInst.Contents()), enumPatternInst.Contents())
      ensures total.Ok? ==> total.value == |enumPatternInst.keys| - |old(enumPatternInst.keys)| <= numOfNodes
      ensures total.Ok? ==> Records(data, counts, enumPatternInst.Contents(), recorded, startIndex, endIndex) &&
                            (numOfDims >= 2 ==> forall d | 0 <= d < numOfDims :: d in recorded)
      ensures total.Ok? ==> Trace(pruned, old(enumPatternInst.Contents()), enumPatternInst.Contents(), looks, startIndex, endIndex, patternCountInst.seqHashmap) &&
                            total.value == |Enumerated(looks)|
      ensures total.Ok? ==> forall i | 0 <= i < |looks| && looks[i].isNew ::
                              StoredWith(enumPatternInst.Contents(), looks[i].key, patternCountInst.FindPatternOccurrences(looks[i].key))
      ensures total.Ok? ==> 0 <= top && bottom <= numOfDims - 1 && top <= bottom + 1 && numOfDims - 2 <= top + bottom <= numOfDims - 1 &&
                            (top > bottom || stopped) &&
                            Reached(numOfDims, LatticeKeys(numOfDims), top, bottom, pruned, looks) &&
                            Going(numOfDims, LatticeKeys(numOfDims), bottom, pruned, stopped) &&
                            Halt(numOfDims, LatticeKeys(numOfDims), top, bottom, pruned, looks, stopped)
      ensures total.Ok? ==> Leafed(counts, numOfDims, looks) && HandedFrom(Unset(LatticeKeys(numOfDims)), numOfDims, looks)
      ensures total.Ok? ==> LatticeLists.Ordered(numOfDims, LatticeKeys(numOfDims), levels) &&
                            LatticeLists.Complete(numOfDims, LatticeKeys(numOfDims), levels) &&
                            Passes(numOfDims, levels, looks, ends) && |ends| == numOfDims - 1 - bottom + top && Ranked(numOfDims, looks)
    {
      ghost var s0 := enumPatternInst.Contents();
      var lattice := new LatticeGraph(numOfDims);
      assert enumPatternInst.Contents() == s0;
      lattice.NodeCount();
      assert lattice.Pruned() == {};
      forall t | 0 <= t < numOfDims && numOfDims >= 2
        ensures t in lattice.levels
      {
        lattice.LevelContents(t, []);
      }
      LatticeKeysOf(lattice);
      FreshCounts(lattice);
      ghost var cw := lattice.Counts();
      levels := lattice.levels;
      assert LatticeLists.Ordered(numOfDims, LatticeKeys(numOfDims), levels) &&
             LatticeLists.Complete(numOfDims, LatticeKeys(numOfDims), levels);
      numOfNodes := lattice.numOfNodes;
      total, counts, recorded, looks, top, bottom, stopped, ends := Walk(lattice, startIndex, endIndex, singletonJointCounts);
      pruned := lattice.Pruned();
      if total.Err? {
        return;
      }
      HandedFresh(cw, lattice.Counts(), numOfDims, LatticeKeys(numOfDims), looks);
      PassesRanked(numOfDims, LatticeKeys(numOfDims), levels, looks, ends);
      LoggedStored(numOfDims, data, startIndex, endIndex, crosskConst, thresholdCrosskValue,
                   s0, enumPatternInst.Contents(), looks, thresholdSupportValue, patternCountInst.seqHashmap);
    }

    /**
     * `prune_and_enumerate_patterns`: walk a fresh lattice from both ends
     * and answer the number of lattice nodes minus the windows enumerated,
     * which is never negative. The singleton counts are written back to
     * `_singleton_joint_counts`, also when the walk fails part way.
     */
    method PruneAndEnumeratePatterns(startIndex: int, endIndex: int)
      returns (r: Result<int>, ghost recorded: set<nat>, ghost looks: seq<Look>, ghost pruned: set<seq<nat>>,
               ghost top: int, ghost bottom: int, ghost stopped: bool, ghost levels: LatticeLists.Levels, ghost ends: seq<int>)
      requires Valid()
      modifies this, enumPatternInst
      ensures r.Ok? ==> Valid() && Kept(old(enumPatternInst.Contents()), enumPatternInst.Contents())
      ensures r.Ok? ==> r.value == Pow2(numOfDims) - 1 - (|enumPatternInst.keys| - |old(enumPatternInst.keys)|) && 0 <= r.value
      ensures r.Ok? ==> Records(data, singletonJointCounts, enumPatternInst.Contents(), recorded, startIndex, endIndex) &&
                        (numOfDims >= 2 ==> forall d | 0 <= d < numOfDims :: d in recorded)
      ensures r.Ok? ==> Trace(pruned, old(enumPatternInst.Contents()), enumPatternInst.Contents(), looks, startIndex, endIndex, patternCountInst.seqHashmap) &&
                        r.value == Pow2(numOfDims) - 1 - |Enumerated(looks)|
      ensures r.Ok? ==> forall i | 0 <= i < |looks| && looks[i].isNew ::
                          StoredWith(enumPatternInst.Contents(), looks[i].key, patternCountInst.FindPatternOccurrences(looks[i].key))
      ensures r.Ok? ==> 0 <= top && bottom <= numOfDims - 1 && top <= bottom + 1 && numOfDims - 2 <= top + bottom <= numOfDims - 1 &&
                        (top > bottom || stopped) &&
                        Reached(numOfDims, LatticeKeys(numOfDims), top, bottom, pruned, looks) &&
                        Going(numOfDims, LatticeKeys(numOfDims), bottom, pruned, stopped) &&
                        Halt(numOfDims, LatticeKeys(numOfDims), top, bottom, pruned, looks, stopped)
      ensures r.Ok? ==> Leafed(singletonJointCounts, numOfDims, looks) && HandedFrom(Unset(LatticeKeys(numOfDims)), numOfDims, looks)
      ensures r.Ok? ==> LatticeLists.Ordered(numOfDims, LatticeKeys(numOfDims), levels) &&
                        LatticeLists.Complete(numOfDims, LatticeKeys(numOfDims), levels) &&
                        Passes(numOfDims, levels, looks, ends) && |ends| == numOfDims - 1 - bottom + top && Ranked(numOfDims, looks)
    {
      var totalNodesEnumerated, numOfNodes, counts;
      totalNodesEnumerated, numOfNodes, counts, recorded, looks, pruned, top, bottom, stopped, levels, ends := WalkFresh(startIndex, endIndex);
      singletonJointCounts := counts;
      if totalNodesEnumerated.Err? {
        return Err(totalNodesEnumerated.error), recorded, looks, pruned, top, bottom, stopped, levels, ends;
      }
      r := Ok(numOfNodes - totalNodesEnumerated.value);
    }
  }
}
