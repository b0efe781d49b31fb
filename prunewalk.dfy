/**
 * What `LatticeGraph.prune_nodes_recursively` computes, stated on sets of
 * keys: a depth-first walk through the parent lists (prune type 'parents') or
 * the child lists ('children') that marks every node it reaches and stops at
 * nodes already marked.
 */
module PruneWalks {
  import opened Wrappers
  import opened Subsets

  /** The two accepted prune types, `prune_types = ['parents', 'children']`. */
  datatype Direction = Parents | Children

  /** Reads a prune type string; any other string is not a direction. */
  function PruneDirection(s: string): (r: Option<Direction>)
    ensures r.Some? <==> s == "parents" || s == "children"
    ensures r == Some(Parents) <==> s == "parents"
  {
    if s == "parents" then Some(Parents)
    else if s == "children" then Some(Children)
    else None
  }

  /** One step of the walk: an immediate superset (parents) or subset (children). */
  ghost predicate Neighbour(d: nat, dir: Direction, k: seq<nat>, m: seq<nat>)
  {
    if dir == Parents then IsParentKey(d, m, k) else IsChildKey(d, m, k)
  }

  /** Any number of steps: a superset (parents) or subset (children) of `a`, or `a` itself. */
  ghost predicate Toward(d: nat, dir: Direction, a: seq<nat>, k: seq<nat>)
  {
    IsKey(d, k) && if dir == Parents then Contains(k, a) else Contains(a, k)
  }

  /** A set of keys closed under stepping in direction `dir`. */
  ghost predicate Closed(d: nat, dir: Direction, q: set<seq<nat>>)
  {
    forall k, m | k in q && Neighbour(d, dir, k, m) :: m in q
  }

  /**
   * The marked set went from p to q by a walk from `key`: nothing was
   * unmarked, `key` is marked, every newly marked key lies in direction `dir`
   * from `key`, and every newly marked key had all its neighbours marked.
   */
  ghost predicate Walked(d: nat, dir: Direction, key: seq<nat>, p: set<seq<nat>>, q: set<seq<nat>>)
  {
    p <= q && key in q &&
    (forall k | k in q - p :: Toward(d, dir, key, k)) &&
    (forall k, m | k in q - p && Neighbour(d, dir, k, m) :: m in q)
  }

  /**
   * Part way through the walk from `key`, which is marked: the newly marked
   * keys lie in direction `dir` from `key`, and all of them but `key` itself
   * have all their neighbours marked.
   */
  ghost predicate Walking(d: nat, dir: Direction, key: seq<nat>, p: set<seq<nat>>, q: set<seq<nat>>)
  {
    p + {key} <= q &&
    (forall k | k in q - p :: Toward(d, dir, key, k)) &&
    (forall k, m | k in q - p && k != key && Neighbour(d, dir, k, m) :: m in q)
  }

  /** Marking the start key begins the walk. */
  lemma WalkingStart(d: nat, dir: Direction, key: seq<nat>, p: set<seq<nat>>)
    requires IsKey(d, key) && key !in p
    ensures Walking(d, dir, key, p, p + {key})
  {
  }

  /** A completed walk from a neighbour `m` of `key` keeps the walk from `key` going. */
  lemma WalkingStep(d: nat, dir: Direction, key: seq<nat>, m: seq<nat>, p: set<seq<nat>>, q: set<seq<nat>>, q': set<seq<nat>>)
    requires Walking(d, dir, key, p, q) && Neighbour(d, dir, key, m) && Walked(d, dir, m, q, q')
    ensures Walking(d, dir, key, p, q') && q <= q' && m in q'
  {
    forall k | k in q' - p ensures Toward(d, dir, key, k) {
      if k !in q {
        assert Toward(d, dir, m, k);
      }
    }
  }

  /** Once every neighbour of `key` is marked, the walk from `key` is complete. */
  lemma WalkingDone(d: nat, dir: Direction, key: seq<nat>, p: set<seq<nat>>, q: set<seq<nat>>)
    requires Walking(d, dir, key, p, q)
    requires forall m | Neighbour(d, dir, key, m) :: m in q
    ensures Walked(d, dir, key, p, q)
  {
  }

  /** A subset is no larger than its superset. */
  lemma {:induction false} SubsetSize(a: set<seq<nat>>, b: set<seq<nat>>)
    requires a <= b
    ensures |a| <= |b|
    decreases |a|
  {
    if a != {} {
      var x :| x in a;
      SubsetSize(a - {x}, b - {x});
    }
  }

  /** Marking the start key leaves fewer keys unmarked: the walk's termination measure. */
  lemma FewerUnmarked(all: set<seq<nat>>, key: seq<nat>, p: set<seq<nat>>, q: set<seq<nat>>)
    requires key in all && key !in p && p + {key} <= q
    ensures |all - q| < |all - p|
  {
    assert all - q <= (all - p) - {key};
    SubsetSize(all - q, (all - p) - {key});
  }

  /** Marking more keys never leaves more keys unmarked. */
  lemma NoMoreUnmarked(all: set<seq<nat>>, p: set<seq<nat>>, q: set<seq<nat>>)
    requires p <= q
    ensures |all - q| <= |all - p|
  {
    SubsetSize(all - q, all - p);
  }

  /** The first j entries of `next` were marked, and then so was entry j. */
  lemma SeenGrows(next: seq<seq<nat>>, j: nat, q: set<seq<nat>>, q': set<seq<nat>>)
    requires j < |next| && q <= q' && next[j] in q'
    requires forall i | 0 <= i < j :: next[i] in q
    ensures forall i | 0 <= i < j + 1 :: next[i] in q'
  {
  }

  /** Containment between keys of equal length is equality; so a proper superset is longer. */
  lemma ContainsLength(d: nat, big: seq<nat>, small: seq<nat>)
    requires IsKey(d, big) && IsKey(d, small) && Contains(big, small)
    ensures |small| <= |big|
    ensures |small| == |big| ==> small == big
  {
    PigeonAscending(small, big);
    if |small| == |big| {
      AscendingContainedEqual(small, big);
    }
  }

  /** A proper superset of `a` contains an immediate superset of `a`. */
  lemma ParentTowards(d: nat, a: seq<nat>, k: seq<nat>) returns (p: seq<nat>)
    requires IsKey(d, a) && IsKey(d, k) && Contains(k, a) && k != a
    ensures IsParentKey(d, p, a) && Contains(k, p)
  {
    ContainsLength(d, k, a);
    if Contains(a, k) {
      ContainsLength(d, a, k);
      assert false;
    }
    var x :| x in k && x !in a;
    p := Insert(a, x);
    InsertFacts(a, x);
    forall i | 0 <= i < |p| ensures p[i] < d {
      assert p[i] in p;
    }
  }

  /** A proper subset of `a` is contained in an immediate subset of `a`. */
  lemma ChildTowards(d: nat, a: seq<nat>, k: seq<nat>) returns (c: seq<nat>)
    requires IsKey(d, a) && IsKey(d, k) && Contains(a, k) && k != a
    ensures IsChildKey(d, c, a) && Contains(c, k)
  {
    ContainsLength(d, a, k);
    if Contains(k, a) {
      ContainsLength(d, k, a);
      assert false;
    }
    var x :| x in a && x !in k;
    var i :| 0 <= i < |a| && a[i] == x;
    c := RemoveAt(a, i);
    RemoveAtIsChild(d, a, i);
    forall y | y in k ensures y in c {
      var j :| 0 <= j < |a| && a[j] == y;
      if j < i {
        assert c[j] == y;
      } else {
        assert j != i;
        assert c[j - 1] == y;
      }
    }
  }

  /** A closed set holding `a` holds everything in direction `dir` from `a`. */
  lemma {:induction false} ClosedReaches(d: nat, dir: Direction, q: set<seq<nat>>, a: seq<nat>, k: seq<nat>)
    requires Closed(d, dir, q) && a in q && IsKey(d, a) && Toward(d, dir, a, k)
    ensures k in q
    decreases if dir == Parents then |k| - |a| else |a| - |k|
  {
    if k != a {
      var m;
      if dir == Parents {
        ContainsLength(d, k, a);
        m := ParentTowards(d, a, k);
      } else {
        ContainsLength(d, a, k);
        m := ChildTowards(d, a, k);
      }
      assert Neighbour(d, dir, a, m);
      ClosedReaches(d, dir, q, m, k);
    }
  }

  /**
   * When the marked set was closed before the walk (as it is when every
   * prune goes the same way), the walk marks exactly everything in direction
   * `dir` from the start key, and the marked set stays closed.
   */
  lemma WalkClosure(d: nat, dir: Direction, key: seq<nat>, p: set<seq<nat>>, q: set<seq<nat>>)
    requires IsKey(d, key) && Closed(d, dir, p) && Walked(d, dir, key, p, q)
    ensures Closed(d, dir, q)
    ensures forall k :: k in q <==> k in p || Toward(d, dir, key, k)
  {
    forall k, m | k in q && Neighbour(d, dir, k, m) ensures m in q {
      if k in p {
        assert m in p;
      }
    }
    forall k | Toward(d, dir, key, k) ensures k in q {
      ClosedReaches(d, dir, q, key, k);
    }
  }
}
