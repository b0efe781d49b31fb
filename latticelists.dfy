/**
 * The lattice construction of latticegraph.py seen as values: the set of
 * tuples that have a node, the order in which each depth's dict received its
 * tuples, and every node's child and parent lists, as maps from tuple to list.
 * The heap-level construction (module LatticeGraphs) is proved to leave
 * exactly these maps behind; what the maps contain is proved here.
 *
 * Depth t holds the tuples with D - t dimensions, so the depth of a tuple k
 * is always D - |k|.
 */
module LatticeLists {
  import opened Wrappers
  import opened Subsets

  type Lists = map<seq<nat>, seq<seq<nat>>>
  type Levels = map<int, seq<seq<nat>>>

  // ---------------------------------------------------------------------
  // Shapes
  // ---------------------------------------------------------------------

  /**
   * `levels` lists, once each, the tuples stored at each depth present: the
   * tuples of size d - t at depth t.  Every tuple's depth is present.
   */
  ghost predicate Ordered(d: nat, keys: set<seq<nat>>, levels: Levels)
  {
    (forall k {:trigger k in keys} | k in keys :: d - |k| in levels && k in levels[d - |k|]) &&
    (forall t | t in levels :: NoDup(levels[t])) &&
    (forall t, k {:trigger k in levels[t]} | t in levels && k in levels[t] :: k in keys && t == d - |k|)
  }

  /** As a set, `cs` is exactly the immediate subsets of k. */
  ghost predicate ChildSet(d: nat, k: seq<nat>, cs: seq<seq<nat>>)
  {
    forall c :: c in cs <==> IsChildKey(d, c, k)
  }

  /** As a set, `ps` is exactly the immediate supersets of k. */
  ghost predicate ParentSet(d: nat, k: seq<nat>, ps: seq<seq<nat>>)
  {
    forall p :: p in ps <==> IsParentKey(d, p, k)
  }

  /**
   * Which tuples and depths the finished construction holds: for D >= 2 every
   * non-empty subset, at depths 0..D-1; for D <= 1 the level loop never runs
   * and only the empty depth 0 exists.
   */
  ghost predicate Complete(d: nat, keys: set<seq<nat>>, levels: Levels)
  {
    if d >= 2 then
      (forall t :: t in levels <==> 0 <= t < d) &&
      (forall k {:trigger k in keys} {:trigger IsKey(d, k)} :: k in keys <==> IsKey(d, k))
    else
      levels == map[0 := []] && keys == {}
  }

  /** Every child list and every parent list names exactly the lattice neighbours. */
  ghost predicate Linked(d: nat, kids: Lists, pars: Lists)
  {
    (forall k | k in kids :: ChildSet(d, k, kids[k])) &&
    (forall k | k in pars :: ParentSet(d, k, pars[k]))
  }

  // ---------------------------------------------------------------------
  // What the loops do to the depth order
  // ---------------------------------------------------------------------

  /** `_nodes_by_level[depth][key] = ...`: a tuple new to its depth goes last, a present one keeps its place. */
  function Placed(levels: Levels, depth: int, key: seq<nat>): Levels
    requires depth in levels
  {
    if key in levels[depth] then levels else levels[depth := levels[depth] + [key]]
  }

  /** One pass of the innermost loop: depth `depth` is created if missing, then the child is placed. */
  function ChildPlaced(levels: Levels, depth: int, c: seq<nat>): Levels
  {
    Placed(if depth in levels then levels else levels[depth := []], depth, c)
  }

  /** The first n tuples of cs, as a set. */
  function Handled(cs: seq<seq<nat>>, n: nat): set<seq<nat>>
    requires n <= |cs|
  {
    set i | 0 <= i < n :: cs[i]
  }

  /** The innermost loop's first n passes. */
  function ChildrenPlaced(levels: Levels, depth: int, cs: seq<seq<nat>>, n: nat): Levels
    requires n <= |cs|
    decreases n
  {
    if n == 0 then levels
    else ChildPlaced(ChildrenPlaced(levels, depth, cs, n - 1), depth, cs[n - 1])
  }

  /** The middle loop's pass for q at depth t: q is placed, then its combinations at depth t + 1. */
  function ParentPlaced(levels: Levels, t: int, q: seq<nat>): Levels
    requires t in levels
  {
    ChildrenPlaced(Placed(levels, t, q), t + 1, ChildCombinations(q), |ChildCombinations(q)|)
  }

  /** One more handled tuple. */
  lemma HandledNext(cs: seq<seq<nat>>, n: nat)
    requires n < |cs|
    ensures Handled(cs, n + 1) == Handled(cs, n) + {cs[n]}
  {
  }

  /** All of cs handled. */
  lemma HandledAll(cs: seq<seq<nat>>)
    ensures Handled(cs, |cs|) == set c | c in cs
  {
    forall c | c in cs ensures c in Handled(cs, |cs|) {
      var i :| 0 <= i < |cs| && cs[i] == c;
    }
  }

  /** Placing a tuple at its own depth keeps the order consistent with the tuples present. */
  lemma PlacedOrdered(d: nat, keys: set<seq<nat>>, levels: Levels, depth: int, key: seq<nat>)
    requires Ordered(d, keys, levels) && depth in levels && depth == d - |key|
    ensures Ordered(d, keys + {key}, Placed(levels, depth, key))
    ensures Placed(levels, depth, key).Keys == levels.Keys
  {
    var l' := Placed(levels, depth, key);
    if key !in levels[depth] {
      forall t | t in l' ensures NoDup(l'[t]) {
        if t == depth {
          assert forall i | 0 <= i < |levels[depth]| :: levels[depth][i] in levels[depth];
        }
      }
    }
  }

  /** A present tuple is listed at its depth. */
  lemma OrderedAt(d: nat, keys: set<seq<nat>>, levels: Levels, k: seq<nat>)
    requires Ordered(d, keys, levels) && k in keys
    ensures d - |k| in levels && k in levels[d - |k|]
  {
  }

  /** Creating an empty depth keeps the order consistent. */
  lemma DepthAddedOrdered(d: nat, keys: set<seq<nat>>, levels: Levels, depth: int)
    requires Ordered(d, keys, levels)
    ensures Ordered(d, keys, if depth in levels then levels else levels[depth := []])
  {
  }

  /** One more pass of the innermost loop keeps the order consistent. */
  lemma ChildPlacedOrdered(d: nat, keys: set<seq<nat>>, levels: Levels, depth: int, cs: seq<seq<nat>>, n: nat)
    requires n < |cs| && depth == d - |cs[n]|
    requires Ordered(d, keys + Handled(cs, n), ChildrenPlaced(levels, depth, cs, n))
    ensures Ordered(d, keys + Handled(cs, n + 1), ChildrenPlaced(levels, depth, cs, n + 1))
  {
    var before := ChildrenPlaced(levels, depth, cs, n);
    var fkeys := keys + Handled(cs, n);
    DepthAddedOrdered(d, fkeys, before, depth);
    PlacedOrdered(d, fkeys, if depth in before then before else before[depth := []], depth, cs[n]);
    HandledNext(cs, n);
  }

  /** So do the first n passes. */
  lemma {:induction false} ChildrenPlacedOrdered(d: nat, keys: set<seq<nat>>, levels: Levels, depth: int, cs: seq<seq<nat>>, n: nat)
    requires n <= |cs| && Ordered(d, keys, levels)
    requires forall c {:trigger c in cs} | c in cs :: depth == d - |c|
    ensures Ordered(d, keys + Handled(cs, n), ChildrenPlaced(levels, depth, cs, n))
    ensures ChildrenPlaced(levels, depth, cs, n).Keys == levels.Keys + (if n == 0 then {} else {depth})
    decreases n
  {
    if n == 0 {
      assert keys + Handled(cs, 0) == keys;
    } else {
      assert cs[n - 1] in cs;
      ChildrenPlacedOrdered(d, keys, levels, depth, cs, n - 1);
      ChildPlacedOrdered(d, keys, levels, depth, cs, n - 1);
    }
  }

  /** A child is listed at its depth exactly when an earlier pass of the innermost loop, or an earlier loop, created it. */
  lemma PlacedBefore(d: nat, keys: set<seq<nat>>, levels: Levels, depth: int, cs: seq<seq<nat>>, j: nat)
    requires Ordered(d, keys, levels) && j < |cs|
    requires forall x {:trigger x in cs} | x in cs :: depth == d - |x|
    ensures var l := ChildrenPlaced(levels, depth, cs, j);
      cs[j] in keys + Handled(cs, j) <==> depth in l && cs[j] in l[depth]
  {
    ChildrenPlacedOrdered(d, keys, levels, depth, cs, j);
    assert cs[j] in cs;
    if cs[j] in keys + Handled(cs, j) {
      OrderedAt(d, keys + Handled(cs, j), ChildrenPlaced(levels, depth, cs, j), cs[j]);
    }
  }

  /** And the middle loop's pass. */
  lemma ParentPlacedOrdered(d: nat, keys: set<seq<nat>>, levels: Levels, t: int, q: seq<nat>)
    requires Ordered(d, keys, levels) && t in levels && t == d - |q| && |q| > 0
    ensures Ordered(d, keys + {q} + (set c | c in ChildCombinations(q)), ParentPlaced(levels, t, q))
    ensures ParentPlaced(levels, t, q).Keys == levels.Keys + {t + 1}
  {
    var cc := ChildCombinations(q);
    PlacedOrdered(d, keys, levels, t, q);
    forall c | c in cc ensures t + 1 == d - |c| {
      var i :| 0 <= i < |q| && cc[i] == c;
      assert c == RemoveAt(q, |q| - 1 - i);
    }
    ChildrenPlacedOrdered(d, keys + {q}, Placed(levels, t, q), t + 1, cc, |cc|);
    HandledAll(cc);
  }

  // ---------------------------------------------------------------------
  // What the loops do to the lists
  // ---------------------------------------------------------------------

  /** A tuple's list, created empty if absent. */
  function PadOne(m: Lists, c: seq<nat>): Lists
  {
    if c in m then m else m[c := []]
  }

  /** q appended to c's list, which is created empty if absent. */
  function AppendOne(m: Lists, c: seq<nat>, q: seq<nat>): Lists
  {
    m[c := (if c in m then m[c] else []) + [q]]
  }

  /** Creating an empty entry before appending changes nothing. */
  lemma AppendAfterPad(m: Lists, c: seq<nat>, q: seq<nat>)
    ensures AppendOne(PadOne(m, c), c, q) == AppendOne(m, c, q)
  {
  }

  /** The child lists after the innermost loop's first n passes: each new tuple starts empty. */
  function Padded(m: Lists, cs: seq<seq<nat>>, n: nat): Lists
    requires n <= |cs|
    decreases n
  {
    if n == 0 then m else PadOne(Padded(m, cs, n - 1), cs[n - 1])
  }

  /** The parent lists after the innermost loop's first n passes: q appended to each tuple's list. */
  function Appended(m: Lists, cs: seq<seq<nat>>, n: nat, q: seq<nat>): Lists
    requires n <= |cs|
    decreases n
  {
    if n == 0 then m else AppendOne(Appended(m, cs, n - 1, q), cs[n - 1], q)
  }

  /** The child lists after the middle loop handles q: q gains its combinations, new tuples start empty. */
  function ChildrenAfter(m: Lists, q: seq<nat>): Lists
  {
    map k | k in m.Keys + {q} + (set c | c in ChildCombinations(q)) ::
      var was := if k in m then m[k] else [];
      if k == q then was + ChildCombinations(q) else was
  }

  /** The parent lists after the middle loop handles q: each combination of q gains q. */
  function ParentsAfter(m: Lists, q: seq<nat>): Lists
  {
    map k | k in m.Keys + {q} + (set c | c in ChildCombinations(q)) ::
      var was := if k in m then m[k] else [];
      if k in ChildCombinations(q) then was + [q] else was
  }

  /** After padding, the entries are the old ones and one, empty, per new tuple. */
  lemma {:induction false} PaddedValues(m: Lists, cs: seq<seq<nat>>, n: nat, k: seq<nat>)
    requires n <= |cs|
    ensures k in Padded(m, cs, n) <==> k in m || k in Handled(cs, n)
    ensures k in Padded(m, cs, n) ==> Padded(m, cs, n)[k] == if k in m then m[k] else []
    decreases n
  {
    if n > 0 {
      PaddedValues(m, cs, n - 1, k);
      HandledNext(cs, n - 1);
    }
  }

  /** With no tuple repeated, the appends land one per tuple of cs. */
  lemma {:induction false} AppendedValues(m: Lists, cs: seq<seq<nat>>, n: nat, q: seq<nat>, k: seq<nat>)
    requires n <= |cs| && NoDup(cs)
    ensures k in Appended(m, cs, n, q) <==> k in m || k in Handled(cs, n)
    ensures k in Appended(m, cs, n, q) ==>
      Appended(m, cs, n, q)[k] == (if k in m then m[k] else []) + (if k in Handled(cs, n) then [q] else [])
    decreases n
  {
    if n > 0 {
      AppendedValues(m, cs, n - 1, q, k);
      HandledNext(cs, n - 1);
      if k == cs[n - 1] {
        assert k !in Handled(cs, n - 1);
      }
    }
  }

  /** A tuple is never among its own child combinations. */
  lemma NotOwnChild(q: seq<nat>)
    ensures q !in ChildCombinations(q)
  {
    forall i | 0 <= i < |q| ensures |ChildCombinations(q)[i]| == |q| - 1 {
      assert ChildCombinations(q)[i] == RemoveAt(q, |q| - 1 - i);
    }
  }

  /**
   * The middle loop's body for q, step by step: create q if it is new, append
   * its combinations to its children, then pad the new combinations in and
   * append q to each one's parents.  Together that is ChildrenAfter / ParentsAfter.
   */
  lemma ParentPassChildren(kids: Lists, q: seq<nat>)
    ensures
      var k1 := if q in kids then kids else kids[q := []];
      var cc := ChildCombinations(q);
      Padded(k1[q := k1[q] + cc], cc, |cc|) == ChildrenAfter(kids, q)
  {
    var k1 := if q in kids then kids else kids[q := []];
    var cc := ChildCombinations(q);
    var a := Padded(k1[q := k1[q] + cc], cc, |cc|);
    var b := ChildrenAfter(kids, q);
    NotOwnChild(q);
    HandledAll(cc);
    forall k ensures k in a <==> k in b {
      PaddedValues(k1[q := k1[q] + cc], cc, |cc|, k);
    }
    forall k | k in a ensures a[k] == b[k] {
      PaddedValues(k1[q := k1[q] + cc], cc, |cc|, k);
    }
  }

  lemma ParentPassParents(pars: Lists, q: seq<nat>)
    requires Ascending(q)
    ensures
      var p1 := if q in pars then pars else pars[q := []];
      var cc := ChildCombinations(q);
      Appended(p1, cc, |cc|, q) == ParentsAfter(pars, q)
  {
    var p1 := if q in pars then pars else pars[q := []];
    var cc := ChildCombinations(q);
    var a := Appended(p1, cc, |cc|, q);
    var b := ParentsAfter(pars, q);
    NotOwnChild(q);
    ChildCombinationsDistinct(q);
    HandledAll(cc);
    forall k ensures k in a <==> k in b {
      AppendedValues(p1, cc, |cc|, q, k);
    }
    forall k | k in a ensures a[k] == b[k] {
      AppendedValues(p1, cc, |cc|, q, k);
    }
  }

  // ---------------------------------------------------------------------
  // The graph as one value
  // ---------------------------------------------------------------------

  /** What the dict of dicts and its nodes hold: the tuples, each depth's order, every node's lists. */
  datatype Shape = Shape(keys: set<seq<nat>>, levels: Levels, kids: Lists, pars: Lists)

  /** `if c not in _nodes_by_level[depth]: _create_node(depth, c)`, the depth created first if missing. */
  function Ensured(s: Shape, depth: int, c: seq<nat>): Shape
  {
    Shape(s.keys + {c}, ChildPlaced(s.levels, depth, c), PadOne(s.kids, c), PadOne(s.pars, c))
  }

  /** One pass of the innermost loop: the child ensured at depth t + 1, then q appended to its parents. */
  function ChildLinked(s: Shape, t: int, q: seq<nat>, c: seq<nat>): Shape
  {
    var s1 := Ensured(s, t + 1, c);
    s1.(pars := AppendOne(s1.pars, c, q))
  }

  /** The innermost loop's first n passes. */
  function ChildrenLinked(s: Shape, t: int, q: seq<nat>, cs: seq<seq<nat>>, n: nat): Shape
    requires n <= |cs|
    decreases n
  {
    if n == 0 then s else ChildLinked(ChildrenLinked(s, t, q, cs, n - 1), t, q, cs[n - 1])
  }

  /** The middle loop's pass for q at depth t: q ensured, its combinations added to its children, each one linked. */
  function ParentLinked(s: Shape, t: int, q: seq<nat>): Shape
  {
    var s1 := Ensured(s, t, q);
    var cc := ChildCombinations(q);
    ChildrenLinked(s1.(kids := s1.kids[q := s1.kids[q] + cc]), t, q, cc, |cc|)
  }

  /** The innermost loop, component by component: the tuples are the old ones and the handled children, ... */
  lemma {:induction false} LinkedKeys(s: Shape, t: int, q: seq<nat>, cs: seq<seq<nat>>, n: nat)
    requires n <= |cs|
    ensures ChildrenLinked(s, t, q, cs, n).keys == s.keys + Handled(cs, n)
    decreases n
  {
    if n == 0 {
      assert s.keys + Handled(cs, 0) == s.keys;
    } else {
      LinkedKeys(s, t, q, cs, n - 1);
      HandledNext(cs, n - 1);
    }
  }

  /** ... the depth order is ChildrenPlaced, ... */
  lemma {:induction false} LinkedLevels(s: Shape, t: int, q: seq<nat>, cs: seq<seq<nat>>, n: nat)
    requires n <= |cs|
    ensures ChildrenLinked(s, t, q, cs, n).levels == ChildrenPlaced(s.levels, t + 1, cs, n)
    decreases n
  {
    if n > 0 {
      LinkedLevels(s, t, q, cs, n - 1);
    }
  }

  /** ... the child lists are padded ... */
  lemma {:induction false} LinkedKids(s: Shape, t: int, q: seq<nat>, cs: seq<seq<nat>>, n: nat)
    requires n <= |cs|
    ensures ChildrenLinked(s, t, q, cs, n).kids == Padded(s.kids, cs, n)
    decreases n
  {
    if n > 0 {
      LinkedKids(s, t, q, cs, n - 1);
    }
  }

  /** ... and q is appended to the children's parent lists. */
  lemma {:induction false} LinkedPars(s: Shape, t: int, q: seq<nat>, cs: seq<seq<nat>>, n: nat)
    requires n <= |cs|
    ensures ChildrenLinked(s, t, q, cs, n).pars == Appended(s.pars, cs, n, q)
    decreases n
  {
    if n > 0 {
      LinkedPars(s, t, q, cs, n - 1);
      AppendAfterPad(Appended(s.pars, cs, n - 1, q), cs[n - 1], q);
    }
  }

  /** All four together. */
  lemma ChildrenLinkedParts(s: Shape, t: int, q: seq<nat>, cs: seq<seq<nat>>, n: nat)
    requires n <= |cs|
    ensures ChildrenLinked(s, t, q, cs, n) ==
      Shape(s.keys + Handled(cs, n), ChildrenPlaced(s.levels, t + 1, cs, n), Padded(s.kids, cs, n), Appended(s.pars, cs, n, q))
  {
    LinkedKeys(s, t, q, cs, n);
    LinkedLevels(s, t, q, cs, n);
    LinkedKids(s, t, q, cs, n);
    LinkedPars(s, t, q, cs, n);
  }

  /** The innermost loop's membership test on depth t + 1 asks whether the child has a node. */
  lemma LinkedBefore(d: nat, s: Shape, t: int, q: seq<nat>, cs: seq<seq<nat>>, j: nat)
    requires Ordered(d, s.keys, s.levels) && j < |cs|
    requires forall c {:trigger c in cs} | c in cs :: t + 1 == d - |c|
    ensures var s' := ChildrenLinked(s, t, q, cs, j);
      cs[j] in s'.keys <==> t + 1 in s'.levels && cs[j] in s'.levels[t + 1]
  {
    ChildrenLinkedParts(s, t, q, cs, j);
    PlacedBefore(d, s.keys, s.levels, t + 1, cs, j);
  }

  /** The middle loop's pass for q at depth t in closed form. */
  function ParentAfter(s: Shape, t: int, q: seq<nat>): Shape
    requires t in s.levels
  {
    Shape(s.keys + {q} + (set c | c in ChildCombinations(q)), ParentPlaced(s.levels, t, q),
          ChildrenAfter(s.kids, q), ParentsAfter(s.pars, q))
  }

  /** The pass, step by step, is the closed form; it keeps the depth order consistent. */
  lemma ParentPass(d: nat, s: Shape, t: int, q: seq<nat>)
    requires Ordered(d, s.keys, s.levels) && t in s.levels
    requires t == d - |q| && |q| > 0 && Ascending(q)
    ensures ParentLinked(s, t, q) == ParentAfter(s, t, q)
    ensures Ordered(d, ParentAfter(s, t, q).keys, ParentAfter(s, t, q).levels)
    ensures ParentAfter(s, t, q).levels.Keys == s.levels.Keys + {t + 1}
  {
    var s1 := Ensured(s, t, q);
    var cc := ChildCombinations(q);
    ChildrenLinkedParts(s1.(kids := s1.kids[q := s1.kids[q] + cc]), t, q, cc, |cc|);
    HandledAll(cc);
    ParentPassChildren(s.kids, q);
    ParentPassParents(s.pars, q);
    ParentPlacedOrdered(d, s.keys, s.levels, t, q);
  }

  // ---------------------------------------------------------------------
  // Progress of the construction
  // ---------------------------------------------------------------------

  /** Before the level loop handles depth t: which tuples and depths exist. */
  ghost predicate StageKeys(d: nat, t: nat, keys: set<seq<nat>>, levels: Levels)
  {
    Ordered(d, keys, levels) &&
    (forall u :: u in levels <==> 0 <= u <= t) &&
    (forall k {:trigger k in keys} {:trigger IsKey(d, k)} :: k in keys <==> IsKey(d, k) && d - |k| <= t && 0 < t)
  }

  /** Before the level loop handles depth t: depths above t list their children, depth t none yet; all parents are listed. */
  ghost predicate StageLists(d: nat, t: nat, kids: Lists, pars: Lists)
  {
    (forall k {:trigger k in kids} | k in kids ::
       if d - |k| < t then ChildSet(d, k, kids[k]) else kids[k] == []) &&
    (forall k | k in pars :: ParentSet(d, k, pars[k]))
  }

  /** The queue for depth t: the tuples of size d - t, each at least once. */
  ghost predicate QueueFull(d: nat, t: int, queue: seq<seq<nat>>)
  {
    (forall q {:trigger q in queue} | q in queue :: IsKey(d, q) && |q| == d - t) &&
    (forall k {:trigger IsKey(d, k)} | IsKey(d, k) && |k| == d - t :: k in queue)
  }

  /** In the middle loop at depth t, after the first i queued tuples: which tuples and depths exist. */
  ghost predicate InnerKeys(d: nat, t: nat, queue: seq<seq<nat>>, i: nat, keys: set<seq<nat>>, levels: Levels, temp: seq<seq<nat>>)
  {
    i <= |queue| &&
    Ordered(d, keys, levels) &&
    (forall u :: u in levels <==> 0 <= u <= t || (u == t + 1 && i > 0)) &&
    (forall k {:trigger k in keys} {:trigger IsKey(d, k)} :: k in keys <==>
       IsKey(d, k) &&
       ((0 < t && d - |k| <= t) || (d - |k| == t && k in queue[..i]) || (d - |k| == t + 1 && k in temp))) &&
    (forall c {:trigger c in temp} | c in temp :: IsKey(d, c) && |c| == d - t - 1) &&
    (forall q, c | q in queue[..i] && c in ChildCombinations(q) :: c in temp)
  }

  /**
   * In the middle loop at depth t, after the first i queued tuples: the tuples
   * handled so far list their children, the rest of depth t and depth t + 1
   * none; depth t + 1 lists as parents exactly the handled tuples above it.
   */
  ghost predicate InnerLists(d: nat, t: nat, queue: seq<seq<nat>>, i: nat, kids: Lists, pars: Lists)
    requires i <= |queue|
  {
    (forall k {:trigger k in kids} | k in kids ::
       if d - |k| < t || (d - |k| == t && k in queue[..i]) then ChildSet(d, k, kids[k])
       else kids[k] == []) &&
    (forall k {:trigger k in pars} | k in pars ::
       if d - |k| <= t then ParentSet(d, k, pars[k])
       else forall p :: p in pars[k] <==> p in queue[..i] && IsChildKey(d, k, p))
  }

  /** Entering the middle loop. */
  lemma InnerStart(d: nat, t: nat, queue: seq<seq<nat>>, keys: set<seq<nat>>, levels: Levels, kids: Lists, pars: Lists)
    requires StageKeys(d, t, keys, levels) && StageLists(d, t, kids, pars)
    requires kids.Keys == keys && pars.Keys == keys
    ensures InnerKeys(d, t, queue, 0, keys, levels, [])
    ensures InnerLists(d, t, queue, 0, kids, pars)
  {
    assert queue[..0] == [];
  }

  /** One pass of the middle loop keeps the key facts. */
  lemma InnerKeysStep(d: nat, t: nat, queue: seq<seq<nat>>, i: nat, keys: set<seq<nat>>, levels: Levels, temp: seq<seq<nat>>,
                      keys': set<seq<nat>>, levels': Levels)
    requires InnerKeys(d, t, queue, i, keys, levels, temp) && i < |queue|
    requires QueueFull(d, t, queue) && t + 2 <= d
    requires keys' == keys + {queue[i]} + (set c | c in ChildCombinations(queue[i]))
    requires levels'.Keys == levels.Keys + {t + 1} && Ordered(d, keys', levels')
    ensures InnerKeys(d, t, queue, i + 1, keys', levels', temp + ChildCombinations(queue[i]))
  {
    var q := queue[i];
    assert q in queue;
    ChildCombinationsAreChildren(d, q);
    assert queue[..i + 1] == queue[..i] + [q];
    var temp' := temp + ChildCombinations(q);
    forall k ensures k in keys' <==>
       IsKey(d, k) &&
       ((0 < t && d - |k| <= t) || (d - |k| == t && k in queue[..i + 1]) || (d - |k| == t + 1 && k in temp'))
    {
      if k in ChildCombinations(q) {
        assert IsChildKey(d, k, q);
      }
    }
  }

  /** One pass of the middle loop keeps the child lists in step. */
  lemma InnerChildrenStep(d: nat, t: nat, queue: seq<seq<nat>>, i: nat, kids: Lists, pars: Lists)
    requires i < |queue| && InnerLists(d, t, queue, i, kids, pars)
    requires QueueFull(d, t, queue) && t + 2 <= d
    ensures forall k {:trigger k in ChildrenAfter(kids, queue[i])} | k in ChildrenAfter(kids, queue[i]) ::
      var m := ChildrenAfter(kids, queue[i]);
      if d - |k| < t || (d - |k| == t && k in queue[..i + 1]) then ChildSet(d, k, m[k])
      else m[k] == []
  {
    var q := queue[i];
    assert q in queue;
    ChildCombinationsExact(d, q);
    ChildCombinationsAreChildren(d, q);
    NotOwnChild(q);
    assert queue[..i + 1] == queue[..i] + [q];
  }

  /** One pass of the middle loop keeps the parent lists in step. */
  lemma InnerParentsStep(d: nat, t: nat, queue: seq<seq<nat>>, i: nat, keys: set<seq<nat>>, levels: Levels, temp: seq<seq<nat>>,
                         kids: Lists, pars: Lists)
    requires InnerKeys(d, t, queue, i, keys, levels, temp) && i < |queue|
    requires InnerLists(d, t, queue, i, kids, pars) && pars.Keys == keys
    requires QueueFull(d, t, queue) && t + 2 <= d
    ensures forall k {:trigger k in ParentsAfter(pars, queue[i])} | k in ParentsAfter(pars, queue[i]) ::
      var m := ParentsAfter(pars, queue[i]);
      if d - |k| <= t then ParentSet(d, k, m[k])
      else forall p :: p in m[k] <==> p in queue[..i + 1] && IsChildKey(d, k, p)
  {
    var q := queue[i];
    assert q in queue;
    ChildCombinationsExact(d, q);
    NotOwnChild(q);
    assert queue[..i + 1] == queue[..i] + [q];
    var m := ParentsAfter(pars, q);
    forall k | k in m
      ensures if d - |k| <= t then ParentSet(d, k, m[k])
              else forall p :: p in m[k] <==> p in queue[..i + 1] && IsChildKey(d, k, p)
    {
      if k !in pars {
        if k == q {
          // a tuple of depth t that no earlier pass created: the root, which has no parents
          assert t == 0 && |k| == d;
          forall p ensures !IsParentKey(d, p, k) {
            if IsParentKey(d, p, k) { KeyLengthBound(d, p); }
          }
        } else {
          // a new child: no handled tuple above it has it as a combination
          assert k in ChildCombinations(q);
          forall p | p in queue[..i] ensures !IsChildKey(d, k, p) {
            if IsChildKey(d, k, p) {
              assert p in queue;
              ChildCombinationsExact(d, p);
            }
          }
        }
      }
    }
  }

  /** Every tuple one size below the queue's is a combination of a queued tuple. */
  lemma QueueCovers(d: nat, t: nat, queue: seq<seq<nat>>, temp: seq<seq<nat>>)
    requires QueueFull(d, t, queue) && t + 2 <= d
    requires forall q, c | q in queue && c in ChildCombinations(q) :: c in temp
    ensures forall k {:trigger IsKey(d, k)} | IsKey(d, k) && |k| == d - t - 1 :: k in temp
  {
    forall k | IsKey(d, k) && |k| == d - t - 1 ensures k in temp {
      var p := HasParent(d, k);
      ParentChildInverse(d, p, k);
      assert p in queue;
      ChildInCombinations(d, k, p);
    }
  }

  /** Once every queued tuple is handled, depth t + 1 lists exactly its parents. */
  lemma QueueParents(d: nat, t: nat, queue: seq<seq<nat>>, k: seq<nat>, ps: seq<seq<nat>>)
    requires QueueFull(d, t, queue) && IsKey(d, k) && d - |k| == t + 1
    requires forall p :: p in ps <==> p in queue && IsChildKey(d, k, p)
    ensures ParentSet(d, k, ps)
  {
    forall p ensures p in ps <==> IsParentKey(d, p, k) {
      if IsParentKey(d, p, k) {
        ParentChildInverse(d, p, k);
        assert p in queue;
      }
      if p in queue {
        ParentChildInverse(d, p, k);
      }
    }
  }

  /** Leaving the middle loop: the stage for depth t + 1, with the new queue full. */
  lemma InnerDone(d: nat, t: nat, queue: seq<seq<nat>>, keys: set<seq<nat>>, levels: Levels, temp: seq<seq<nat>>,
                  kids: Lists, pars: Lists)
    requires InnerKeys(d, t, queue, |queue|, keys, levels, temp)
    requires InnerLists(d, t, queue, |queue|, kids, pars)
    requires kids.Keys == keys && pars.Keys == keys
    requires QueueFull(d, t, queue) && t + 2 <= d
    ensures StageKeys(d, t + 1, keys, levels) && StageLists(d, t + 1, kids, pars)
    ensures QueueFull(d, t + 1, temp)
  {
    assert queue[..|queue|] == queue;
    RangeIsKey(d, d - t);
    assert Range(d - t) in queue;
    QueueCovers(d, t, queue, temp);
    forall k ensures k in keys <==> IsKey(d, k) && d - |k| <= t + 1 && 0 < t + 1 {
      if IsKey(d, k) {
        KeyLengthBound(d, k);
        if d - |k| == t {
          assert k in queue;
        }
      }
    }
    forall k | k in pars && d - |k| == t + 1 ensures ParentSet(d, k, pars[k]) {
      QueueParents(d, t, queue, k, pars[k]);
    }
  }

  lemma HeadIsMember(s: seq<seq<nat>>)
    requires |s| > 0
    ensures s[0] in s
  {
  }

  /** After the level loop: every tuple has its node, every list its neighbours. */
  lemma StageDone(d: nat, t: nat, keys: set<seq<nat>>, levels: Levels, kids: Lists, pars: Lists)
    requires StageKeys(d, t, keys, levels) && StageLists(d, t, kids, pars)
    requires kids.Keys == keys && pars.Keys == keys
    requires t as int == (if d == 0 then 0 else d - 1)
    ensures Complete(d, keys, levels) && Linked(d, kids, pars)
  {
    if d >= 2 {
      forall k | IsKey(d, k) ensures k in keys {
        KeyLengthBound(d, k);
      }
      forall k | k in kids && d - |k| >= t ensures ChildSet(d, k, kids[k]) {
        assert |k| == 1;
      }
    } else {
      assert keys == {};
      assert levels.Keys == {0} by {
        forall u ensures u in levels.Keys <==> u == 0 { }
      }
      assert forall k :: k !in levels[0];
      if |levels[0]| > 0 {
        HeadIsMember(levels[0]);
        assert false;
      }
    }
  }

  // ---------------------------------------------------------------------
  // The same progress, on shapes
  // ---------------------------------------------------------------------

  /** Before the level loop handles depth t; every node has both lists. */
  ghost predicate Stage(d: nat, t: nat, s: Shape)
  {
    StageKeys(d, t, s.keys, s.levels) && StageLists(d, t, s.kids, s.pars) &&
    s.kids.Keys == s.keys && s.pars.Keys == s.keys
  }

  /** In the middle loop at depth t, after the first i queued tuples. */
  ghost predicate Inner(d: nat, t: nat, queue: seq<seq<nat>>, i: nat, s: Shape, temp: seq<seq<nat>>)
  {
    InnerKeys(d, t, queue, i, s.keys, s.levels, temp) && InnerLists(d, t, queue, i, s.kids, s.pars) &&
    s.kids.Keys == s.keys && s.pars.Keys == s.keys
  }

  /** `_nodes_by_level = {0: dict()}` and `level_queue = [tuple(range(D))]`. */
  lemma StageStart(d: nat)
    ensures Stage(d, 0, Shape({}, map[0 := []], map[], map[]))
    ensures d >= 2 ==> QueueFull(d, 0, [Range(d)])
  {
    if d >= 2 {
      RangeIsKey(d, d);
      forall k | IsKey(d, k) && |k| == d ensures k in [Range(d)] {
        FullKeyIsRange(d, k);
      }
    }
  }

  /** Entering the middle loop. */
  lemma InnerFirst(d: nat, t: nat, queue: seq<seq<nat>>, s: Shape)
    requires Stage(d, t, s)
    ensures Inner(d, t, queue, 0, s, [])
  {
    InnerStart(d, t, queue, s.keys, s.levels, s.kids, s.pars);
  }

  /** A pass of the middle loop: what it needs, and what it leaves for the next. */
  lemma InnerNext(d: nat, t: nat, queue: seq<seq<nat>>, i: nat, s: Shape, temp: seq<seq<nat>>)
    requires Inner(d, t, queue, i, s, temp) && i < |queue|
    requires QueueFull(d, t, queue) && t + 2 <= d
    ensures Ordered(d, s.keys, s.levels) && t in s.levels
    ensures IsKey(d, queue[i]) && t == d - |queue[i]| && |queue[i]| >= 2
    ensures t in s.levels && Inner(d, t, queue, i + 1, ParentAfter(s, t, queue[i]), temp + ChildCombinations(queue[i]))
  {
    var q := queue[i];
    assert q in queue;
    ParentPlacedOrdered(d, s.keys, s.levels, t, q);
    var s' := ParentAfter(s, t, q);
    InnerKeysStep(d, t, queue, i, s.keys, s.levels, temp, s'.keys, s'.levels);
    InnerListsStep(d, t, queue, i, s.keys, s.levels, temp, s.kids, s.pars);
  }

  /** The same pass, as the heap methods compute it. */
  lemma InnerLinked(d: nat, t: nat, queue: seq<seq<nat>>, i: nat, s: Shape, temp: seq<seq<nat>>)
    requires Inner(d, t, queue, i, s, temp) && i < |queue|
    requires QueueFull(d, t, queue) && t + 2 <= d
    ensures Ordered(d, s.keys, s.levels) && t in s.levels
    ensures IsKey(d, queue[i]) && t == d - |queue[i]| && |queue[i]| >= 2
    ensures Inner(d, t, queue, i + 1, ParentLinked(s, t, queue[i]), temp + ChildCombinations(queue[i]))
  {
    InnerNext(d, t, queue, i, s, temp);
    ParentPass(d, s, t, queue[i]);
  }

  /** One pass of the middle loop keeps both kinds of lists in step. */
  lemma InnerListsStep(d: nat, t: nat, queue: seq<seq<nat>>, i: nat, keys: set<seq<nat>>, levels: Levels, temp: seq<seq<nat>>,
                       kids: Lists, pars: Lists)
    requires InnerKeys(d, t, queue, i, keys, levels, temp) && i < |queue|
    requires InnerLists(d, t, queue, i, kids, pars) && pars.Keys == keys
    requires QueueFull(d, t, queue) && t + 2 <= d
    ensures InnerLists(d, t, queue, i + 1, ChildrenAfter(kids, queue[i]), ParentsAfter(pars, queue[i]))
  {
    InnerChildrenStep(d, t, queue, i, kids, pars);
    InnerParentsStep(d, t, queue, i, keys, levels, temp, kids, pars);
  }

  /** Leaving the middle loop. */
  lemma InnerLast(d: nat, t: nat, queue: seq<seq<nat>>, s: Shape, temp: seq<seq<nat>>)
    requires Inner(d, t, queue, |queue|, s, temp)
    requires QueueFull(d, t, queue) && t + 2 <= d
    ensures Stage(d, t + 1, s) && QueueFull(d, t + 1, temp)
  {
    InnerDone(d, t, queue, s.keys, s.levels, temp, s.kids, s.pars);
  }

  /** Leaving the level loop. */
  lemma StageLast(d: nat, t: nat, s: Shape)
    requires Stage(d, t, s) && t as int == (if d == 0 then 0 else d - 1)
    ensures Complete(d, s.keys, s.levels) && Linked(d, s.kids, s.pars)
  {
    StageDone(d, t, s.keys, s.levels, s.kids, s.pars);
  }
}
