/**
 * The three-dimensional lattice of
 * src/nwc_pattern_miner/tests/mining/test_latticegraph.py: its seven keys,
 * the child combinations in the order the construction lists them, and the
 * two prune walks the tests make on a fresh lattice.
 */
module LatticeGraphTests {
  import opened Wrappers
  import opened Subsets
  import opened PruneWalks
  import opened LatticeGraphs
  import LegacyLatticeGraphs

  /** The seven keys of the lattice over three dimensions. */
  function ThreeKeys(): set<seq<nat>> {
    {[0], [1], [2], [0, 1], [0, 2], [1, 2], [0, 1, 2]}
  }

  /** Every key over three dimensions is one of the seven. */
  lemma KeysOfThree(k: seq<nat>)
    requires IsKey(3, k)
    ensures k in ThreeKeys()
  {
    KeyLengthBound(3, k);
    if |k| == 1 {
      assert k == [k[0]];
    } else if |k| == 2 {
      assert k == [k[0], k[1]];
    } else {
      assert k[0] < k[1] < k[2];
      assert k == [0, 1, 2];
    }
  }

  /** `test_init_graph`: the children lists in the order shown, root first. */
  lemma FixtureCombinations()
    ensures ChildCombinations([0, 1, 2]) == [[0, 1], [0, 2], [1, 2]]
    ensures ChildCombinations([0, 1]) == [[0], [1]]
    ensures ChildCombinations([0, 2]) == [[0], [2]]
    ensures ChildCombinations([1, 2]) == [[1], [2]]
  {
    assert RemoveAt([0, 1, 2], 2) == [0, 1] && RemoveAt([0, 1, 2], 1) == [0, 2] && RemoveAt([0, 1, 2], 0) == [1, 2];
    assert RemoveAt([0, 1], 1) == [0] && RemoveAt([0, 1], 0) == [1];
    assert RemoveAt([0, 2], 1) == [0] && RemoveAt([0, 2], 0) == [2];
    assert RemoveAt([1, 2], 1) == [1] && RemoveAt([1, 2], 0) == [2];
  }

  /** The subsets reached from (0, 1) through the child lists: (0, 1), (0,) and (1,). */
  lemma ChildrenOfZeroOne(k: seq<nat>)
    ensures Toward(3, Children, [0, 1], k) <==> k in {[0, 1], [0], [1]}
  {
    if Toward(3, Children, [0, 1], k) {
      KeysOfThree(k);
      assert 2 !in k;
    }
    if k in {[0, 1], [0], [1]} {
      assert Ascending(k) && Below(k, 3);
    }
  }

  /** The supersets reached from (0,) through the parent lists: (0,), (0, 1), (0, 2) and (0, 1, 2). */
  lemma ParentsOfZero(k: seq<nat>)
    ensures Toward(3, Parents, [0], k) <==> k in {[0], [0, 1], [0, 2], [0, 1, 2]}
  {
    if Toward(3, Parents, [0], k) {
      KeysOfThree(k);
      assert 0 in k;
    }
    if k in {[0], [0, 1], [0, 2], [0, 1, 2]} {
      assert Ascending(k) && Below(k, 3);
    }
  }

  /**
   * `test_prune_children`: on a fresh three-dimensional lattice,
   * `prune_nodes_recursively(1, (0, 1), 'children')` prunes (0, 1), (0,)
   * and (1,) and nothing else.
   */
  method PruneChildrenFixture() returns (g: LatticeGraph, r: Result<()>)
    ensures g.Valid() && g.numOfDim == 3 && r == Ok(())
    ensures g.Pruned() == {[0, 1], [0], [1]}
  {
    g := new LatticeGraph(3);
    assert g.Pruned() == {};
    assert g.GetNode(1, [0, 1]).Ok? by {
      assert Ascending([0, 1]) && Below([0, 1], 3);
    }
    r := g.PruneNodesRecursively(1, [0, 1], "children");
    WalkClosure(3, Children, [0, 1], {}, g.Pruned());
    forall k ensures k in g.Pruned() <==> k in {[0, 1], [0], [1]} {
      ChildrenOfZeroOne(k);
    }
  }

  /**
   * `test_prune_parents`: on a fresh three-dimensional lattice,
   * `prune_nodes_recursively(2, (0,), 'parents')` prunes (0,), (0, 1),
   * (0, 2) and the root, leaving depth 0 empty of unpruned nodes.
   */
  method PruneParentsFixture() returns (g: LatticeGraph, r: Result<()>)
    ensures g.Valid() && g.numOfDim == 3 && r == Ok(())
    ensures g.Pruned() == {[0], [0, 1], [0, 2], [0, 1, 2]}
  {
    g := new LatticeGraph(3);
    assert g.Pruned() == {};
    assert g.GetNode(2, [0]).Ok? by {
      assert Ascending([0]) && Below([0], 3);
    }
    r := g.PruneNodesRecursively(2, [0], "parents");
    WalkClosure(3, Parents, [0], {}, g.Pruned());
    forall k ensures k in g.Pruned() <==> k in {[0], [0, 1], [0, 2], [0, 1, 2]} {
      ParentsOfZero(k);
    }
  }

  /** The immediate supersets of (0,) over three dimensions: (0, 1) and (0, 2). */
  lemma ParentKeysOfZero(m: seq<nat>)
    ensures IsParentKey(3, m, [0]) <==> m == [0, 1] || m == [0, 2]
  {
    if IsParentKey(3, m, [0]) {
      KeysOfThree(m);
      assert 0 in [0];
    }
    if m == [0, 1] || m == [0, 2] {
      assert Ascending(m) && Below(m, 3) && m[0] == 0;
    }
  }

  /** A list naming exactly the immediate supersets of (0,) over three dimensions holds (0, 1) and (0, 2) and nothing else. */
  lemma ParentListOfZero(ps: seq<seq<nat>>)
    requires forall m :: m in ps <==> IsParentKey(3, m, [0])
    ensures forall m :: m in ps <==> m == [0, 1] || m == [0, 2]
  {
    forall m ensures m in ps <==> m == [0, 1] || m == [0, 2] {
      ParentKeysOfZero(m);
    }
  }

  /**
   * The older graph after `init_graph(3)`: depth 0 exists, and
   * `get_node(2, (0,))` returns the singleton it built, whose parents are
   * (0, 1) and (0, 2).
   */
  method LegacyInitialized() returns (g: LegacyLatticeGraphs.LatticeGraph, built: LatticeNodes.LatticeNode)
    ensures fresh(g) && g.Valid() && 0 in g.nodesByLevel && g.GetNode(2, [0]) == Ok(built)
    ensures forall m :: m in built.parents <==> m == [0, 1] || m == [0, 2]
  {
    g := new LegacyLatticeGraphs.LatticeGraph();
    g.InitGraph(3);
    assert Ascending([0]) && Below([0], 3);
    LegacyLatticeGraphs.InitializedLookup(g, 3, 2, [0]);
    LegacyLatticeGraphs.InitializedNeighbours(g, 3, 2, [0]);
    built := g.GetNode(2, [0]).value;
    ParentListOfZero(built.parents);
    assert 0 in g.nodesByLevel;
  }

  /**
   * The older graph keeps one dict per depth: after `init_graph(3)`,
   * `create_node(0, (0,))` puts a second, unlinked node under (0,) at depth
   * 0, and `get_node(2, (0,))` still returns the singleton built by
   * `init_graph`, whose parents are (0, 1) and (0, 2).
   */
  method LegacyCreateAtOtherDepth() returns (built: LatticeNodes.LatticeNode, created: LatticeNodes.LatticeNode, found: LatticeNodes.LatticeNode)
    ensures found == built && created != built && created.parents == [] && created.dimensions == [0]
    ensures forall m :: m in found.parents <==> m == [0, 1] || m == [0, 2]
  {
    var g;
    g, built := LegacyInitialized();
    var _ := g.CreateNode(0, [0]);
    created := g.GetNode(0, [0]).value;
    found := g.GetNode(2, [0]).value;
  }
}
