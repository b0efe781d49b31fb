/**
 * One node of the subset lattice: the tuple of dimensions it stands for, the
 * keys of its immediate supersets (parents) and subsets (children), a pruned
 * flag that only ever goes from false to true, and the largest pattern count
 * seen among its supersets (-1 until one is propagated to it).
 */
module LatticeNodes {

  class LatticeNode {
    var parents: seq<seq<nat>>
    var children: seq<seq<nat>>
    var isPruned: bool
    var superpatternCount: int
    const dimensions: seq<nat>

    /** A fresh node: unpruned, no edges, no superpattern count yet. */
    constructor (dimensions: seq<nat>)
      ensures this.dimensions == dimensions
      ensures parents == [] && children == []
      ensures !isPruned && superpatternCount == -1
    {
      this.dimensions := dimensions;
      parents := [];
      children := [];
      isPruned := false;
      superpatternCount := -1;
    }

    /**
     * Marks the node pruned. Only the flag may change, so on a pruned node
     * nothing changes, and no method sets the flag back to false.
     */
    method PruneNode()
      modifies this`isPruned
      ensures isPruned
    {
      isPruned := true;
    }

    /** Appends parent keys after the ones already recorded. */
    method AddParents(ps: seq<seq<nat>>)
      modifies this`parents
      ensures parents == old(parents) + ps
    {
      parents := parents + ps;
    }

    /** Appends child keys after the ones already recorded. */
    method AddChildren(cs: seq<seq<nat>>)
      modifies this`children
      ensures children == old(children) + cs
    {
      children := children + cs;
    }
  }
}
