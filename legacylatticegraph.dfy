/**
 * The older `LatticeGraph` (module/mining/latticegraph.py): a graph that
 * starts with only an empty depth 0 and is filled by a separate
 * `init_graph(num_of_dim)` call, with node creation and lookup but no
 * pruning walk.  The construction itself is the one of module LatticeGraphs
 * (`BuildLattice`), whose loops are the same.  Unlike the current graph,
 * the nodes are kept in one dict per depth, so `create_node` may put a
 * second node under a tuple at another depth.
 */
module LegacyLatticeGraphs {
  import opened Wrappers
  import opened Subsets
  import opened LatticeNodes
  import opened LatticeLists
  import opened LatticeGraphs

  /** Every node's child and parent lists name exactly its immediate subsets and supersets. */
  ghost predicate LinkedNodes(d: nat, nodes: Nodes)
    reads set k | k in nodes :: nodes[k]
  {
    forall k | k in nodes :: ChildSet(d, k, nodes[k].children) && ParentSet(d, k, nodes[k].parents)
  }

  /** One dict per depth, as `_nodes_by_level` holds them. */
  type Depths = map<int, Nodes>

  /** The per-depth dicts of a graph kept by tuple: depth t holds the nodes of the tuples it lists. */
  function ByDepth(nodes: Nodes, levels: Levels): Depths {
    map t | t in levels :: map k | k in levels[t] && k in nodes :: nodes[k]
  }

  /**
   * Each depth's dict holds exactly the tuples its order lists, once each,
   * and every node is owned by the graph and carries its tuple.
   */
  ghost predicate Layered(nodes: Depths, levels: Levels, repr: set<LatticeNode>)
  {
    nodes.Keys == levels.Keys &&
    (forall t | t in levels :: NoDup(levels[t]) && forall k :: k in nodes[t] <==> k in levels[t]) &&
    forall t, k | t in nodes && k in nodes[t] :: nodes[t][k] in repr && nodes[t][k].dimensions == k
  }

  /** The construction's nodes, split by the depth order, are layered. */
  lemma ByDepthLayered(d: nat, nodes: Nodes, levels: Levels, repr: set<LatticeNode>)
    requires Owned(nodes, repr) && Ordered(d, nodes.Keys, levels)
    ensures Layered(ByDepth(nodes, levels), levels, repr)
  {
    var byDepth := ByDepth(nodes, levels);
    forall t | t in levels
      ensures NoDup(levels[t]) && forall k :: k in byDepth[t] <==> k in levels[t]
    {
    }
  }

  /** Placing a new node under a tuple of an existing depth keeps the graph layered. */
  lemma PlacedLayered(nodes: Depths, levels: Levels, repr: set<LatticeNode>, depth: int, key: seq<nat>, node: LatticeNode)
    requires Layered(nodes, levels, repr) && depth in levels && node.dimensions == key
    ensures Layered(nodes[depth := nodes[depth][key := node]], Placed(levels, depth, key), repr + {node})
  {
    var levels' := Placed(levels, depth, key);
    if key !in levels[depth] {
      assert forall i | 0 <= i < |levels[depth]| :: levels'[depth][i] == levels[depth][i];
    }
  }

  class LatticeGraph {
    var nodesByLevel: Depths
    /** Each depth's tuples in the order its dict holds them. */
    var levels: Levels
    /** The nodes by tuple, as `init_graph` builds them: every tuple has one depth there. */
    ghost var index: Nodes
    ghost var Repr: set<LatticeNode>

    /** The depth dicts agree with the depth order, and every node is owned and carries its tuple. */
    ghost predicate Valid()
      reads this
    {
      Layered(nodesByLevel, levels, Repr)
    }

    /** `init_graph(d)` has run on the graph, and nothing has been created since. */
    ghost predicate Initialized(d: nat)
      reads this, set k | k in index :: index[k]
    {
      Owned(index, Repr) && Ordered(d, index.Keys, levels) && Complete(d, index.Keys, levels) &&
      LinkedNodes(d, index) && nodesByLevel == ByDepth(index, levels)
    }

    /** `__init__`: only depth 0 exists, and it is empty. */
    constructor ()
      ensures Valid() && nodesByLevel == map[0 := map[]] && levels == map[0 := []] && Repr == {}
    {
      nodesByLevel, levels, index, Repr := map[0 := map[]], map[0 := []], map[], {};
    }

    /** `get_node(depth, dimension)`: `_nodes_by_level[depth][dimension]`, a KeyError when either is absent. */
    function GetNode(depth: int, key: seq<nat>): (r: Result<LatticeNode>)
      reads this
      ensures r.Ok? <==> depth in nodesByLevel && key in nodesByLevel[depth]
      ensures r.Ok? ==> r.value == nodesByLevel[depth][key]
      ensures r.Err? ==> r.error == KeyError
    {
      if depth in nodesByLevel && key in nodesByLevel[depth] then Ok(nodesByLevel[depth][key]) else Err(KeyError)
    }

    /**
     * `create_node(depth, dimension)`: a new unlinked node under the tuple in
     * an existing depth's dict (a KeyError for a missing depth), replacing a
     * node already there; every other lookup, the same tuple at another
     * depth included, answers what it answered before.
     */
    method CreateNode(depth: int, key: seq<nat>) returns (r: Result<()>)
      requires Valid()
      modifies this
      ensures depth !in old(nodesByLevel) ==> r == Err(KeyError) && unchanged(this)
      ensures depth in old(nodesByLevel) ==> r == Ok(()) && Valid() && old(Repr) <= Repr && fresh(Repr - old(Repr))
      ensures depth in old(nodesByLevel) ==>
                GetNode(depth, key).Ok? && fresh(GetNode(depth, key).value) &&
                GetNode(depth, key).value.dimensions == key && GetNode(depth, key).value.parents == [] &&
                GetNode(depth, key).value.children == [] && !GetNode(depth, key).value.isPruned &&
                GetNode(depth, key).value.superpatternCount == -1
      ensures depth in old(nodesByLevel) ==>
                forall t, k | t != depth || k != key :: GetNode(t, k) == old(GetNode(t, k))
      ensures depth in old(nodesByLevel) ==> levels == Placed(old(levels), depth, key)
    {
      if depth !in nodesByLevel {
        return Err(KeyError);
      }
      var node := new LatticeNode(key);
      PlacedLayered(nodesByLevel, levels, Repr, depth, key, node);
      nodesByLevel := nodesByLevel[depth := nodesByLevel[depth][key := node]];
      levels := Placed(levels, depth, key);
      Repr := Repr + {node};
      r := Ok(());
    }

    /**
     * `init_graph(num_of_dim)` on a fresh graph: builds every node and link
     * of the subset lattice.
     */
    method InitGraph(numOfDim: nat)
      requires nodesByLevel == map[0 := map[]] && levels == map[0 := []]
      modifies this
      ensures Valid() && Initialized(numOfDim) && fresh(Repr)
    {
      var m, ls, ns, r := BuildByDepth(numOfDim);
      nodesByLevel := m;
      levels := ls;
      index := ns;
      Repr := r;
    }
  }

  /**
   * The loops of `init_graph` (the shared construction), with the nodes
   * split into one dict per depth.
   */
  method BuildByDepth(d: nat) returns (m: Depths, levels: Levels, ghost nodes: Nodes, ghost repr: set<LatticeNode>)
    ensures fresh(repr) && Owned(nodes, repr) && Layered(m, levels, repr)
    ensures Ordered(d, nodes.Keys, levels) && Complete(d, nodes.Keys, levels) && LinkedNodes(d, nodes)
    ensures m == ByDepth(nodes, levels)
  {
    var ns, ls, r := BuildLattice(d);
    ghost var s := ShapeOf(ns, ls, r);
    assert forall k | k in ns :: s.kids[k] == ns[k].children && s.pars[k] == ns[k].parents;
    ByDepthLayered(d, ns, ls, r);
    m, levels, nodes, repr := ByDepth(ns, ls), ls, ns, r;
  }

  /** A fresh graph holds no node: every lookup raises. */
  lemma FreshLookup(g: LatticeGraph, depth: int, key: seq<nat>)
    requires g.nodesByLevel == map[0 := map[]]
    ensures g.GetNode(depth, key) == Err(KeyError)
  {
  }

  /**
   * After `init_graph(d)` a lookup succeeds exactly for a non-empty
   * ascending tuple below d at depth d - size, when d >= 2, and returns the
   * node built for that tuple, which carries it.
   */
  lemma InitializedLookup(g: LatticeGraph, d: nat, depth: int, key: seq<nat>)
    requires g.Initialized(d)
    ensures g.GetNode(depth, key).Ok? <==> d >= 2 && IsKey(d, key) && depth == d - |key|
    ensures g.GetNode(depth, key).Ok? ==>
              key in g.index && g.GetNode(depth, key).value == g.index[key] && g.GetNode(depth, key).value.dimensions == key
  {
  }

  /** After `init_graph(d)` with d >= 2 there are 2^d - 1 nodes; for d <= 1 none, and depth 0 stays empty. */
  lemma InitializedCount(g: LatticeGraph, d: nat)
    requires g.Initialized(d)
    ensures d >= 2 ==> |g.index.Keys| == Pow2(d) - 1
    ensures d < 2 ==> g.index == map[] && g.nodesByLevel == map[0 := map[]]
  {
    if d >= 2 {
      forall k ensures k in g.index.Keys <==> k in AllKeys(d) {
        AllKeysMembers(d, k);
      }
      assert g.index.Keys == AllKeys(d);
      AllKeysSize(d);
    } else {
      assert g.levels == map[0 := []];
    }
  }

  /** After `init_graph(d)` with d >= 2, depth t holds, and lists once each, the subsets with d - t dimensions. */
  lemma InitializedLevels(g: LatticeGraph, d: nat, t: int, k: seq<nat>)
    requires g.Initialized(d) && d >= 2
    ensures t in g.nodesByLevel <==> 0 <= t < d
    ensures t in g.nodesByLevel ==> NoDup(g.levels[t]) && (k in g.levels[t] <==> IsKey(d, k) && |k| == d - t) &&
                                    (k in g.nodesByLevel[t] <==> k in g.levels[t])
  {
  }

  /** After `init_graph(d)`, a node's parents are its immediate supersets and its children its immediate subsets. */
  lemma InitializedNeighbours(g: LatticeGraph, d: nat, depth: int, key: seq<nat>)
    requires g.Initialized(d) && g.GetNode(depth, key).Ok?
    ensures forall m :: m in g.GetNode(depth, key).value.parents <==> IsParentKey(d, m, key)
    ensures forall m :: m in g.GetNode(depth, key).value.children <==> IsChildKey(d, m, key)
  {
    assert g.GetNode(depth, key).value == g.index[key];
  }
}
