/**
 * The subset lattice of src/nwc_pattern_miner/module/mining/latticegraph.py.
 *
 * A graph for D dimensions keeps one node per non-empty subset of {0..D-1}.
 * The Python object stores them as a dict of dicts, depth -> (tuple -> node),
 * where depth t holds the tuples with D - t dimensions.  Since the depth of a
 * tuple is determined by its size, the model keeps the same information as
 *   - `nodes`: one map from tuple to node (all depths together), and
 *   - `levels`: for each depth present in the dict, its tuples in insertion
 *     order (Python dicts iterate in insertion order).
 * `ShapeOf` reads the tuples, the depth order and every node's lists into one
 * value, so that each step of the construction is an equation on values
 * (module LatticeLists).
 *
 * The construction (shared with the older copy in module/mining/latticegraph.py)
 * is a module-level method; `LatticeGraph` wraps its result and adds node
 * lookup and the recursive pruning walk.
 */
module LatticeGraphs {
  import opened Wrappers
  import opened Subsets
  import opened LatticeNodes
  import opened LatticeLists
  import opened PruneWalks

  type Nodes = map<seq<nat>, LatticeNode>

  /** `repr` holds every node of the graph, and every node carries the tuple it is stored under. */
  ghost predicate Owned(nodes: Nodes, repr: set<LatticeNode>)
  {
    forall k | k in nodes :: nodes[k] in repr && nodes[k].dimensions == k
  }

  /** No node of the graph has been pruned or given a superpattern count. */
  ghost predicate Unmarked(nodes: Nodes, repr: set<LatticeNode>)
    reads repr`isPruned, repr`superpatternCount
    requires Owned(nodes, repr)
  {
    forall k | k in nodes :: !nodes[k].isPruned && nodes[k].superpatternCount == -1
  }

  /** The graph as a value: its tuples, the depth order and every node's lists, by tuple. */
  ghost function ShapeOf(nodes: Nodes, levels: Levels, repr: set<LatticeNode>): Shape
    reads repr`children, repr`parents
    requires Owned(nodes, repr)
  {
    Shape(nodes.Keys, levels, map k | k in nodes :: nodes[k].children, map k | k in nodes :: nodes[k].parents)
  }

  // ---------------------------------------------------------------------
  // Construction
  // ---------------------------------------------------------------------

  /** `_create_node`: `_nodes_by_level[depth][key] = LatticeNode(key)`. */
  method PlaceNode(nodes: Nodes, levels: Levels, depth: int, key: seq<nat>, ghost repr: set<LatticeNode>)
    returns (nodes': Nodes, levels': Levels, ghost repr': set<LatticeNode>)
    requires depth in levels && Owned(nodes, repr)
    requires Unmarked(nodes, repr)
    ensures Owned(nodes', repr') && Unmarked(nodes', repr') && fresh(repr' - repr)
    ensures var s := old(ShapeOf(nodes, levels, repr));
      ShapeOf(nodes', levels', repr') == Shape(s.keys + {key}, Placed(s.levels, depth, key), s.kids[key := []], s.pars[key := []])
  {
    ghost var s := ShapeOf(nodes, levels, repr);
    var node := new LatticeNode(key);
    nodes' := nodes[key := node];
    if key in levels[depth] {
      levels' := levels;
    } else {
      levels' := levels[depth := levels[depth] + [key]];
    }
    repr' := repr + {node};
    ghost var s' := ShapeOf(nodes', levels', repr');
    forall k | k in s'.kids ensures s'.kids[k] == s.kids[key := []][k] && s'.pars[k] == s.pars[key := []][k] { }
    assert s'.kids == s.kids[key := []];
    assert s'.pars == s.pars[key := []];
  }

  /**
   * Create depth `depth` if it is missing, and the tuple there if no other
   * superset created it before: the first half of a pass of the innermost
   * loop, and the start of a pass of the middle loop (whose depth exists).
   */
  method EnsureNode(depth: int, key: seq<nat>, nodes: Nodes, levels: Levels, ghost repr: set<LatticeNode>)
    returns (nodes': Nodes, levels': Levels, ghost repr': set<LatticeNode>)
    requires Owned(nodes, repr)
    requires key in nodes <==> depth in levels && key in levels[depth]
    requires Unmarked(nodes, repr)
    ensures Owned(nodes', repr') && Unmarked(nodes', repr')
    ensures Owned(nodes', repr') && fresh(repr' - repr)
    ensures ShapeOf(nodes', levels', repr') == Ensured(old(ShapeOf(nodes, levels, repr)), depth, key)
  {
    nodes', levels', repr' := nodes, levels, repr;
    if depth !in levels' {
      levels' := levels'[depth := []];
    }
    if key !in levels'[depth] {
      nodes', levels', repr' := PlaceNode(nodes', levels', depth, key, repr');
    }
  }

  /** The second half: `get_node(depth + 1, child).add_parents([parent])`. */
  method AddParent(child: seq<nat>, q: seq<nat>, nodes: Nodes, levels: Levels, ghost repr: set<LatticeNode>)
    requires child in nodes && Owned(nodes, repr)
    modifies repr`parents
    ensures var s := old(ShapeOf(nodes, levels, repr));
      ShapeOf(nodes, levels, repr) == s.(pars := AppendOne(s.pars, child, q))
  {
    ghost var pars := ShapeOf(nodes, levels, repr).pars;
    var node := nodes[child];
    node.AddParents([q]);
    forall k | k in nodes ensures nodes[k].parents == pars[child := pars[child] + [q]][k] {
      if k != child {
        assert nodes[k].dimensions != node.dimensions;
      }
    }
  }

  /** `get_node(depth, parent).add_children(children)`. */
  method AddChildren(key: seq<nat>, cs: seq<seq<nat>>, nodes: Nodes, levels: Levels, ghost repr: set<LatticeNode>)
    requires key in nodes && Owned(nodes, repr)
    modifies repr`children
    ensures var s := old(ShapeOf(nodes, levels, repr));
      ShapeOf(nodes, levels, repr) == s.(kids := s.kids[key := s.kids[key] + cs])
  {
    ghost var kids := ShapeOf(nodes, levels, repr).kids;
    var node := nodes[key];
    node.AddChildren(cs);
    forall k | k in nodes ensures nodes[k].children == kids[key := kids[key] + cs][k] {
      if k != key {
        assert nodes[k].dimensions != node.dimensions;
      }
    }
  }

  /** One pass of the innermost loop. */
  method LinkNext(d: nat, t: int, q: seq<nat>, children: seq<seq<nat>>, j: nat,
                  nodes: Nodes, levels: Levels, ghost repr: set<LatticeNode>, ghost s0: Shape)
    returns (nodes': Nodes, levels': Levels, ghost repr': set<LatticeNode>)
    requires j < |children| && Ordered(d, s0.keys, s0.levels)
    requires forall c {:trigger c in children} | c in children :: t + 1 == d - |c|
    requires Owned(nodes, repr) && ShapeOf(nodes, levels, repr) == ChildrenLinked(s0, t, q, children, j)
    modifies repr`parents
    requires Unmarked(nodes, repr)
    ensures Owned(nodes', repr') && Unmarked(nodes', repr')
    ensures Owned(nodes', repr') && ShapeOf(nodes', levels', repr') == ChildrenLinked(s0, t, q, children, j + 1)
    ensures fresh(repr' - repr)
  {
    var child := children[j];
    LinkedBefore(d, s0, t, q, children, j);
    nodes', levels', repr' := EnsureNode(t + 1, child, nodes, levels, repr);
    AddParent(child, q, nodes', levels', repr');
  }

  /** The innermost loop: `for child in children`, each one linked back to q. */
  method LinkChildren(d: nat, t: int, q: seq<nat>, children: seq<seq<nat>>, nodes: Nodes, levels: Levels, ghost repr: set<LatticeNode>)
    returns (nodes': Nodes, levels': Levels, ghost repr': set<LatticeNode>)
    requires Owned(nodes, repr) && Ordered(d, nodes.Keys, levels)
    requires forall c {:trigger c in children} | c in children :: t + 1 == d - |c|
    modifies repr`parents
    requires Unmarked(nodes, repr)
    ensures Owned(nodes', repr') && Unmarked(nodes', repr')
    ensures Owned(nodes', repr') && fresh(repr' - repr)
    ensures ShapeOf(nodes', levels', repr') == ChildrenLinked(old(ShapeOf(nodes, levels, repr)), t, q, children, |children|)
  {
    ghost var s0 := ShapeOf(nodes, levels, repr);
    nodes', levels', repr' := nodes, levels, repr;
    for j := 0 to |children|
      invariant Owned(nodes', repr') && fresh(repr' - repr) && Unmarked(nodes', repr')
      invariant ShapeOf(nodes', levels', repr') == ChildrenLinked(s0, t, q, children, j)
    {
      nodes', levels', repr' := LinkNext(d, t, q, children, j, nodes', levels', repr', s0);
    }
  }

  /**
   * The middle loop's pass for the queued tuple q at depth t: create q if no
   * superset created it, give it its children (`combinations(parent, n)`,
   * with n = |q| - 1 on this level), and link each child back to q.
   */
  method LinkParent(d: nat, t: int, q: seq<nat>, nodes: Nodes, levels: Levels, ghost repr: set<LatticeNode>)
    returns (children: seq<seq<nat>>, nodes': Nodes, levels': Levels, ghost repr': set<LatticeNode>)
    requires Owned(nodes, repr) && Ordered(d, nodes.Keys, levels) && t in levels
    requires IsKey(d, q) && t == d - |q| && |q| >= 2
    modifies repr`children, repr`parents
    requires Unmarked(nodes, repr)
    ensures Owned(nodes', repr') && Unmarked(nodes', repr')
    ensures children == ChildCombinations(q)
    ensures Owned(nodes', repr') && fresh(repr' - repr)
    ensures ShapeOf(nodes', levels', repr') == ParentLinked(old(ShapeOf(nodes, levels, repr)), t, q)
  {
    PlacedOrdered(d, nodes.Keys, levels, t, q);
    ChildCombinationsAreChildren(d, q);
    nodes', levels', repr' := EnsureNode(t, q, nodes, levels, repr);
    children := ChildCombinations(q);
    AddChildren(q, children, nodes', levels', repr');
    nodes', levels', repr' := LinkChildren(d, t, q, children, nodes', levels', repr');
  }

  /**
   * The middle loop at depth t: every queued tuple in turn, collecting the
   * next level's queue in `temp`.
   */
  method LinkLevel(d: nat, t: nat, queue: seq<seq<nat>>, nodes: Nodes, levels: Levels, ghost repr: set<LatticeNode>)
    returns (temp: seq<seq<nat>>, nodes': Nodes, levels': Levels, ghost repr': set<LatticeNode>)
    requires Owned(nodes, repr) && Stage(d, t, ShapeOf(nodes, levels, repr))
    requires QueueFull(d, t, queue) && t + 2 <= d
    modifies repr`children, repr`parents
    requires Unmarked(nodes, repr)
    ensures Owned(nodes', repr') && Unmarked(nodes', repr')
    ensures Owned(nodes', repr') && fresh(repr' - repr)
    ensures Stage(d, t + 1, ShapeOf(nodes', levels', repr')) && QueueFull(d, t + 1, temp)
  {
    InnerFirst(d, t, queue, ShapeOf(nodes, levels, repr));
    temp, nodes', levels', repr' := [], nodes, levels, repr;
    for i := 0 to |queue|
      invariant Owned(nodes', repr') && fresh(repr' - repr) && Unmarked(nodes', repr')
      invariant Inner(d, t, queue, i, ShapeOf(nodes', levels', repr'), temp)
    {
      InnerLinked(d, t, queue, i, ShapeOf(nodes', levels', repr'), temp);
      var children;
      children, nodes', levels', repr' := LinkParent(d, t, queue[i], nodes', levels', repr');
      temp := temp + children;
    }
    InnerLast(d, t, queue, ShapeOf(nodes', levels', repr'), temp);
  }

  /**
   * `_init_graph(D)`: `for n in range(D - 1, 0, -1)` handles depth D - n - 1,
   * whose queue is the previous pass's `temp_queue`.
   */
  method BuildLattice(d: nat) returns (nodes: Nodes, levels: Levels, ghost repr: set<LatticeNode>)
    ensures Owned(nodes, repr) && fresh(repr) && Unmarked(nodes, repr)
    ensures Ordered(d, nodes.Keys, levels) && Complete(d, nodes.Keys, levels)
    ensures var s := ShapeOf(nodes, levels, repr); Linked(d, s.kids, s.pars)
  {
    StageStart(d);
    nodes, levels, repr := map[], map[0 := []], {};
    var queue := [Range(d)];
    var n: int := d - 1;
    while n > 0
      invariant -1 <= n <= d - 1 && (n >= 0 || d == 0)
      invariant Owned(nodes, repr) && fresh(repr) && Unmarked(nodes, repr)
      invariant Stage(d, d - n - 1, ShapeOf(nodes, levels, repr))
      invariant n > 0 ==> QueueFull(d, d - n - 1, queue)
      decreases n
    {
      var depth := d - n - 1;
      queue, nodes, levels, repr := LinkLevel(d, depth, queue, nodes, levels, repr);
      n := n - 1;
    }
    StageLast(d, d - n - 1, ShapeOf(nodes, levels, repr));
  }

  // ---------------------------------------------------------------------
  // The graph object
  // ---------------------------------------------------------------------

  /** `LatticeGraph(num_of_dim)`: the lattice, node lookup and the pruning walk. */
  class LatticeGraph {
    const numOfDim: nat
    const numOfNodes: int := Pow2(numOfDim) - 1
    const nodes: Nodes
    const levels: Levels
    ghost const Repr: set<LatticeNode>

    /** The construction's result: every subset has its node, and every node its exact neighbours. */
    ghost predicate Valid()
      reads Repr`children, Repr`parents
    {
      Owned(nodes, Repr) && Ordered(numOfDim, nodes.Keys, levels) && Complete(numOfDim, nodes.Keys, levels) &&
      Linked(numOfDim, ShapeOf(nodes, levels, Repr).kids, ShapeOf(nodes, levels, Repr).pars)
    }

    /** The tuples whose node is pruned. */
    ghost function Pruned(): set<seq<nat>>
      reads Repr`isPruned
      requires Owned(nodes, Repr)
    {
      set k | k in nodes && nodes[k].isPruned
    }

    /** Every node's `superpattern_count`, by tuple. */
    ghost function Counts(): map<seq<nat>, int>
      reads Repr`superpatternCount
      requires Owned(nodes, Repr)
    {
      map k | k in nodes :: nodes[k].superpatternCount
    }

    /** A step that touches no node leaves the graph, its pruned set and its counts as they were. */
    twostate lemma Untouched()
      requires old(Valid()) && unchanged(Repr)
      ensures Valid() && Pruned() == old(Pruned()) && Counts() == old(Counts())
    {
    }

    /** `__init__`: `num_of_nodes = 2 ** num_of_dim - 1`, then `_init_graph(num_of_dim)`. */
    constructor (numOfDim: nat)
      ensures Valid() && fresh(Repr) && Unmarked(nodes, Repr)
      ensures this.numOfDim == numOfDim && numOfNodes == Pow2(numOfDim) - 1
    {
      this.numOfDim := numOfDim;
      var ns, ls, r := BuildLattice(numOfDim);
      nodes, levels, Repr := ns, ls, r;
    }

    /** `num_of_nodes` is the number of nodes built when D >= 2; for D <= 1 only the empty depth 0 exists. */
    lemma NodeCount()
      requires Valid()
      ensures numOfDim >= 2 ==> |nodes.Keys| == numOfNodes
      ensures numOfDim < 2 ==> nodes == map[] && levels == map[0 := []]
    {
      if numOfDim >= 2 {
        forall k ensures k in nodes.Keys <==> k in AllKeys(numOfDim) {
          AllKeysMembers(numOfDim, k);
        }
        assert nodes.Keys == AllKeys(numOfDim);
        AllKeysSize(numOfDim);
      }
    }

    /** Depth t lists, once each, the canonical subsets with D - t dimensions. */
    lemma LevelContents(t: int, k: seq<nat>)
      requires Valid() && numOfDim >= 2
      ensures t in levels <==> 0 <= t < numOfDim
      ensures t in levels ==> NoDup(levels[t]) && (k in levels[t] <==> IsKey(numOfDim, k) && |k| == numOfDim - t)
    {
    }

    /** `c` is among p's children exactly when p is among c's parents. */
    lemma ChildParentInverse(p: seq<nat>, c: seq<nat>)
      requires Valid() && p in nodes && c in nodes
      ensures c in nodes[p].children <==> p in nodes[c].parents
      ensures c in nodes[p].children <==> IsChildKey(numOfDim, c, p)
    {
      NeighbourList(p);
      NeighbourList(c);
      ParentChildInverse(numOfDim, p, c);
    }

    /** The root `(0, ..., D-1)` has no parents, and a single dimension has no children. */
    lemma RootAndSingletons(k: seq<nat>)
      requires Valid() && k in nodes
      ensures |k| == numOfDim ==> k == Range(numOfDim) && nodes[k].parents == []
      ensures |k| == 1 ==> nodes[k].children == []
    {
      NeighbourList(k);
      if |k| == numOfDim {
        FullKeyIsRange(numOfDim, k);
        forall p ensures p !in nodes[k].parents {
          if IsKey(numOfDim, p) {
            KeyLengthBound(numOfDim, p);
          }
        }
        NothingIn(nodes[k].parents);
      }
      if |k| == 1 {
        NothingIn(nodes[k].children);
      }
    }

    /** `get_node(depth, dimension)`: `_nodes_by_level[depth][dimension]`, a KeyError when absent. */
    function GetNode(depth: int, key: seq<nat>): (r: Result<LatticeNode>)
      reads Repr`children, Repr`parents
      requires Valid()
      ensures r.Ok? <==> numOfDim >= 2 && IsKey(numOfDim, key) && depth == numOfDim - |key|
      ensures r.Ok? ==> key in nodes && r.value == nodes[key] && r.value.dimensions == key
      ensures r.Err? ==> r.error == KeyError
    {
      if depth in levels && key in levels[depth] then Ok(nodes[key]) else Err(KeyError)
    }

    /** A node's parent (or child) list names exactly its immediate supersets (subsets). */
    lemma NeighbourList(key: seq<nat>)
      requires Valid() && key in nodes
      ensures forall m :: m in nodes[key].parents <==> IsParentKey(numOfDim, m, key)
      ensures forall m :: m in nodes[key].children <==> IsChildKey(numOfDim, m, key)
    {
      var s := ShapeOf(nodes, levels, Repr);
      assert s.kids[key] == nodes[key].children && s.pars[key] == nodes[key].parents;
    }

    /** `prune_node()` on the node stored under `key`. */
    method MarkNode(key: seq<nat>)
      requires Owned(nodes, Repr) && key in nodes
      modifies Repr`isPruned
      ensures Pruned() == old(Pruned()) + {key}
    {
      nodes[key].PruneNode();
      forall k | k in nodes ensures nodes[k].isPruned == (k in old(Pruned()) || k == key) {
        if k != key {
          assert nodes[k].dimensions != nodes[key].dimensions;
        }
      }
    }

    /**
     * `prune_nodes_recursively(depth, dimension, prune_type)`: a depth-first
     * walk that marks the node and then, through its parent list ('parents',
     * one depth up) or child list ('children', one depth down), every node it
     * reaches that is not marked yet.  An unknown prune type raises after the
     * start node is marked; an already-marked start node returns at once.
     */
    method PruneNodesRecursively(depth: int, key: seq<nat>, pruneType: string) returns (r: Result<()>)
      requires Valid()
      modifies Repr`isPruned
      ensures GetNode(depth, key).Err? ==> r == Err(KeyError) && Pruned() == old(Pruned())
      ensures GetNode(depth, key).Ok? && old(nodes[key].isPruned) ==> r == Ok(()) && Pruned() == old(Pruned())
      ensures GetNode(depth, key).Ok? && PruneDirection(pruneType).None? ==>
        r == (if old(nodes[key].isPruned) then Ok(()) else Err(WrongPruneType)) && Pruned() == old(Pruned()) + {key}
      ensures GetNode(depth, key).Ok? && PruneDirection(pruneType).Some? ==>
        r == Ok(()) && Walked(numOfDim, PruneDirection(pruneType).value, key, old(Pruned()), Pruned())
      decreases |nodes.Keys - Pruned()|, 0
    {
      var found := GetNode(depth, key);
      if found.Err? {
        return Err(KeyError);
      }
      var node := found.value;
      if node.isPruned {
        return Ok(());
      }
      ghost var p0 := Pruned();
      MarkNode(key);
      var dir := PruneDirection(pruneType);
      if dir.None? {
        return Err(WrongPruneType);
      }
      var nextDepth := if dir.value == Parents then depth - 1 else depth + 1;
      var next := if dir.value == Parents then node.parents else node.children;
      NeighbourList(key);
      WalkingStart(numOfDim, dir.value, key, p0);
      FewerUnmarked(nodes.Keys, key, p0, Pruned());
      PruneEach(nextDepth, next, pruneType, dir.value, key, p0);
      WalkingDone(numOfDim, dir.value, key, p0, Pruned());
      return Ok(());
    }

    /** The loop `for next_level_dimension in next_level_nodes`, each one walked from in turn. */
    method PruneEach(depth: int, next: seq<seq<nat>>, pruneType: string, ghost dir: Direction, ghost key: seq<nat>, ghost p0: set<seq<nat>>)
      requires Valid() && numOfDim >= 2 && PruneDirection(pruneType) == Some(dir)
      requires forall m | m in next :: Neighbour(numOfDim, dir, key, m) && depth == numOfDim - |m|
      requires Walking(numOfDim, dir, key, p0, Pruned())
      modifies Repr`isPruned
      ensures Walking(numOfDim, dir, key, p0, Pruned())
      ensures forall m | m in next :: m in Pruned()
      decreases |nodes.Keys - Pruned()|, 1
    {
      ghost var q0 := Pruned();
      for j := 0 to |next|
        invariant Walking(numOfDim, dir, key, p0, Pruned()) && q0 <= Pruned()
        invariant forall i | 0 <= i < j :: next[i] in Pruned()
      {
        assert next[j] in next;
        ghost var q := Pruned();
        NoMoreUnmarked(nodes.Keys, q0, q);
        var _ := PruneNodesRecursively(depth, next[j], pruneType);
        WalkingStep(numOfDim, dir, key, next[j], p0, q, Pruned());
        SeenGrows(next, j, q, Pruned());
      }
    }
  }
}
