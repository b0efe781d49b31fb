/**
 * The older Apriori strategy (`SupportPruning.prune_patterns` of
 * module/pruning/support_pruning.py). The strategy builds its lattice once
 * and prunes a copy of it on each call. It walks every depth, deepest first,
 * with no early stop. A node found pruned counts as not enumerated. A window
 * already stored also counts as not enumerated, and its node prunes its
 * supersets. A new window is enumerated, and its node prunes its supersets
 * when its support falls below the threshold. The calls this strategy makes
 * (`LatticeGraph(num_of_dim)`, `prune_nodes_recursively`, the two-argument
 * `enumerate_pattern`) are those of the current lattice and store, so it is
 * modelled against modules LatticeGraphs and CandidatePatterns.
 *
 * A visit here records in `above` whether the node was kept, that is: its
 * window was new and its support reached the threshold. The order the walk
 * keeps (`SupportPrunings.Pruning`) is then the current strategy's.
 */
module LegacySupportPrunings {
  import opened Wrappers
  import opened Frames
  import opened Subsets
  import opened PruneWalks
  import opened LatticeGraphs
  import opened StateGraphs
  import opened CandidatePatterns
  import SP = SupportPrunings

  /**
   * Looking up one node's window took the store from s to s'. The window is
   * new exactly when it was not stored. A new window is appended with the
   * occurrences `found` gave for it, its flag is its support test, the node
   * is kept exactly when that test passed, and no earlier flag changes. A
   * stored window leaves the store as it was, and its node is not kept.
   */
  ghost predicate Looked(s: Lists, s': Lists, key: PatternKey, found: Result<seq<nat>>, isNew: bool, kept: bool, thr: real) {
    (isNew <==> key !in s.keys) &&
    (!isNew ==> s' == s && !kept) &&
    (isNew ==> SP.Kept(s, s') && s'.keys == s.keys + [key] && found.Ok? && s'.occurrences == s.occurrences + [found.value] &&
               SP.Judged(s', key, kept, thr) && forall i | 0 <= i < |s.above| :: s'.above[i] == s.above[i])
  }

  /**
   * A walk with the given visits, the index holding m, took the store from
   * s0 to s. The stored entries were kept and the new windows appended in
   * visiting order, with the occurrences the index gives for them. Every
   * visited window is stored. Every new window was judged by its support,
   * and a stored window's node was not kept. No flag of s0 changed.
   */
  ghost predicate Grown(s0: Lists, s: Lists, visits: seq<SP.Visit>, thr: real, m: SeqMap) {
    SP.Kept(s0, s) && SP.Appended(s0, s, visits, m) &&
    (forall i | 0 <= i < |visits| :: visits[i].key in s.keys) &&
    (forall i | 0 <= i < |visits| && visits[i].isNew :: SP.Judged(s, visits[i].key, visits[i].above, thr)) &&
    (forall i | 0 <= i < |visits| && !visits[i].isNew :: !visits[i].above) &&
    forall i | 0 <= i < |s0.above| :: s.above[i] == s0.above[i]
  }

  /** A visit's window was new exactly when neither the first store nor an earlier visit had it. */
  ghost predicate Memo(keys0: seq<PatternKey>, visits: seq<SP.Visit>) {
    forall i | 0 <= i < |visits| ::
      visits[i].isNew <==> visits[i].key !in keys0 && forall j | 0 <= j < i :: visits[j].key != visits[i].key
  }

  /** A window the walk enumerated is the window of one of its visits. */
  lemma {:induction false} NewKeyVisited(visits: seq<SP.Visit>, key: PatternKey)
    requires key in SP.NewKeys(visits)
    ensures exists j | 0 <= j < |visits| :: visits[j].key == key
  {
    var n := |visits| - 1;
    if key in SP.NewKeys(visits[..n]) {
      NewKeyVisited(visits[..n], key);
      var j :| 0 <= j < n && visits[..n][j].key == key;
      assert visits[j].key == key;
    } else {
      assert visits[n].key == key;
    }
  }

  /** A looked-up node extends the grown store by its visit. */
  lemma GrownStep(s0: Lists, s: Lists, s': Lists, visits: seq<SP.Visit>, v: SP.Visit, found: Result<seq<nat>>, thr: real, m: SeqMap)
    requires Grown(s0, s, visits, thr, m) && Looked(s, s', v.key, found, v.isNew, v.above, thr)
    requires found == Occurrences(m, v.key)
    ensures Grown(s0, s', visits + [v], thr, m)
  {
    var vs := visits + [v];
    assert vs[..|vs| - 1] == visits;
    assert vs[|visits|] == v;
    assert forall i | 0 <= i < |visits| :: vs[i] == visits[i];
    SP.AppendedStep(s0, s, s', visits, v, m);
    if v.isNew {
      SP.KeptTrans(s0, s, s');
      JudgedStep(s, s', visits, v, found, thr);
    }
  }

  /** A new window appended leaves every earlier visit stored, and every earlier new window judged as it was. */
  lemma JudgedStep(s: Lists, s': Lists, visits: seq<SP.Visit>, v: SP.Visit, found: Result<seq<nat>>, thr: real)
    requires v.isNew && Looked(s, s', v.key, found, v.isNew, v.above, thr)
    requires forall i | 0 <= i < |visits| :: visits[i].key in s.keys
    requires forall i | 0 <= i < |visits| && visits[i].isNew :: SP.Judged(s, visits[i].key, visits[i].above, thr)
    ensures forall i | 0 <= i < |visits| :: visits[i].key in s'.keys
    ensures forall i | 0 <= i < |visits| && visits[i].isNew :: SP.Judged(s', visits[i].key, visits[i].above, thr)
  {
    forall i | 0 <= i < |visits| && visits[i].isNew ensures SP.Judged(s', visits[i].key, visits[i].above, thr) {
      var key := visits[i].key;
      var idx := s.patterns[key];
      assert s'.patterns[key] == idx && s'.keys[idx] == key && s'.support[idx] == s.support[idx];
      assert s'.above[idx] == s.above[idx];
    }
  }

  /** A visit of a node not looked at before counts when its window was stored, and is enumerated otherwise. */
  lemma CountStep(visits: seq<SP.Visit>, v: SP.Visit, done: set<seq<nat>>, count: nat)
    requires v.dims !in done && count + |SP.NewKeys(visits)| == |done|
    ensures count + (if v.isNew then 0 else 1) + |SP.NewKeys(visits + [v])| == |done + {v.dims}|
  {
    var vs := visits + [v];
    assert vs[..|vs| - 1] == visits;
    assert |done + {v.dims}| == |done| + 1;
  }

  /** A looked-up node extends the memo of the visits. */
  lemma MemoStep(s0: Lists, s: Lists, s': Lists, visits: seq<SP.Visit>, v: SP.Visit, found: Result<seq<nat>>, thr: real, m: SeqMap)
    requires Grown(s0, s, visits, thr, m) && Memo(s0.keys, visits) && Looked(s, s', v.key, found, v.isNew, v.above, thr)
    ensures Memo(s0.keys, visits + [v])
  {
    var vs := visits + [v];
    var n := |visits|;
    assert forall i | 0 <= i < n :: vs[i] == visits[i];
    if v.key in s.keys && v.key !in s0.keys {
      assert v.key in SP.NewKeys(visits);
      NewKeyVisited(visits, v.key);
    }
    assert forall j | 0 <= j < n && visits[j].key == v.key :: v.key in s.keys;
  }


  /**
   * The strategy object: the table the windows are cut from, the dimension
   * count, the support threshold, the pattern store it enumerates into, the
   * occurrence index it counts with, and the lattice built once in
   * `__init__`.
   */
  class SupportPruning {
    const numOfDims: nat
    const data: Table
    const thresholdValue: real
    const enumPatternInst: EnumeratedPattern
    const patternCountInst: SequenceMap
    const latticeGraphInst: LatticeGraph

    /** The table is a table, and the store is consistent. */
    ghost predicate Valid()
      reads enumPatternInst
    {
      WellFormed(data) && enumPatternInst.Valid()
    }

    /** The lattice built in `__init__` is over the strategy's dimensions, and none of its nodes is pruned. */
    ghost predicate Template()
      reads latticeGraphInst.Repr`children, latticeGraphInst.Repr`parents, latticeGraphInst.Repr`isPruned
    {
      latticeGraphInst.Valid() && latticeGraphInst.numOfDim == numOfDims && latticeGraphInst.Pruned() == {}
    }

    /** The depth of the singletons, where the walk starts: D - 1, or 0 when the lattice has only its empty depth 0. */
    function Deepest(): (t: nat)
      ensures numOfDims >= 2 ==> t == numOfDims - 1
      ensures numOfDims < 2 ==> t == 0
    {
      if numOfDims >= 2 then numOfDims - 1 else 0
    }

    /** `__init__`: keeps its arguments and builds the lattice over the dimensions. */
    constructor (numOfDims: nat, data: Table, enumPatternInst: EnumeratedPattern,
                 patternCountInst: SequenceMap, thresholdValue: real)
      ensures this.numOfDims == numOfDims && this.data == data && this.thresholdValue == thresholdValue
      ensures this.enumPatternInst == enumPatternInst && this.patternCountInst == patternCountInst
      ensures Template()
    {
      this.numOfDims := numOfDims;
      this.data := data;
      this.thresholdValue := thresholdValue;
      this.enumPatternInst := enumPatternInst;
      this.patternCountInst := patternCountInst;
      var lattice := new LatticeGraph(numOfDims);
      this.latticeGraphInst := lattice;
    }

    /**
     * Each visit was of a node in `done`, of size at most `size`, and its
     * window was cut from the table; `done` holds lattice keys, each of
     * which was visited or is a superset of a visit that was not kept.
     */
    ghost predicate Located(keys: set<seq<nat>>, visits: seq<SP.Visit>, done: set<seq<nat>>, size: int, startIndex: int, endIndex: int)
    {
      WellFormed(data) && done <= keys &&
      (forall k | k in done :: SP.Seen(visits, k) || SP.Covered(numOfDims, visits, k)) &&
      forall i | 0 <= i < |visits| ::
        visits[i].dims in done && |visits[i].dims| <= size && Below(visits[i].dims, |data.names|) &&
        visits[i].key == Reconstruct(data, startIndex, endIndex, visits[i].dims)
    }

    /**
     * What the walk has done so far, from the store s0 to the store s with
     * the pruned set p. The store grew by the visits, which keep the walk's
     * order and were cut from the table. `count` is the nodes looked at
     * whose window was not enumerated.
     */
    ghost predicate Progress(keys: set<seq<nat>>, p: set<seq<nat>>, s0: Lists, s: Lists, visits: seq<SP.Visit>,
                             done: set<seq<nat>>, count: nat, size: int, startIndex: int, endIndex: int, m: SeqMap)
    {
      Grown(s0, s, visits, thresholdValue, m) && Memo(s0.keys, visits) && SP.Pruning(numOfDims, p, visits) &&
      Located(keys, visits, done, size, startIndex, endIndex) &&
      count + |SP.NewKeys(visits)| == |done|
    }

    /** A visit of a node of size `size` not looked at before, cut from the table, extends the located visits. */
    lemma LocatedStep(keys: set<seq<nat>>, visits: seq<SP.Visit>, done: set<seq<nat>>, size: int, startIndex: int, endIndex: int, v: SP.Visit)
      requires Located(keys, visits, done, size, startIndex, endIndex) && v.dims in keys && v.dims !in done
      requires |v.dims| <= size && Below(v.dims, |data.names|) && v.key == Reconstruct(data, startIndex, endIndex, v.dims)
      ensures Located(keys, visits + [v], done + {v.dims}, size, startIndex, endIndex)
    {
      var vs := visits + [v];
      assert forall i | 0 <= i < |visits| :: vs[i] == visits[i];
      forall k | k in done + {v.dims} ensures SP.Seen(vs, k) || SP.Covered(numOfDims, vs, k) {
        SP.RecordStep(numOfDims, visits, v, k);
      }
    }

    /** Before the walk nothing has been looked at, over a well-formed table. */
    lemma ProgressStart(keys: set<seq<nat>>, s0: Lists, size: int, startIndex: int, endIndex: int, m: SeqMap)
      requires WellFormed(data)
      ensures Progress(keys, {}, s0, s0, [], {}, 0, size, startIndex, endIndex, m)
    {
      assert SP.NewKeys([]) == [];
    }

    /** Progress bounds the visits' sizes; a larger bound holds as well. */
    lemma ProgressWiden(keys: set<seq<nat>>, p: set<seq<nat>>, s0: Lists, s: Lists, visits: seq<SP.Visit>,
                        done: set<seq<nat>>, count: nat, size: int, size': int, startIndex: int, endIndex: int, m: SeqMap)
      requires Progress(keys, p, s0, s, visits, done, count, size, startIndex, endIndex, m) && size <= size'
      ensures Progress(keys, p, s0, s, visits, done, count, size', startIndex, endIndex, m)
    {
    }

    /** A node found pruned is looked at without a visit, and counts. */
    lemma ProgressSkip(keys: set<seq<nat>>, p: set<seq<nat>>, s0: Lists, s: Lists, visits: seq<SP.Visit>,
                       done: set<seq<nat>>, count: nat, size: int, startIndex: int, endIndex: int, dims: seq<nat>, m: SeqMap)
      requires Progress(keys, p, s0, s, visits, done, count, size, startIndex, endIndex, m)
      requires dims in keys && dims !in done && dims in p
      ensures Progress(keys, p, s0, s, visits, done + {dims}, count + 1, size, startIndex, endIndex, m)
    {
    }

    /**
     * A node looked at for the first time, unpruned and of the current size,
     * whose window was looked up and which, when not kept, pruned exactly
     * its supersets: the walk goes on with one more visit, which counts when
     * its window was stored already.
     */
    lemma ProgressVisit(keys: set<seq<nat>>, p: set<seq<nat>>, p': set<seq<nat>>, s0: Lists, s: Lists, s': Lists,
                        visits: seq<SP.Visit>, done: set<seq<nat>>, count: nat, size: int, startIndex: int, endIndex: int,
                        v: SP.Visit, found: Result<seq<nat>>, m: SeqMap)
      requires Progress(keys, p, s0, s, visits, done, count, size, startIndex, endIndex, m)
      requires v.dims in keys && v.dims !in done && v.dims !in p && IsKey(numOfDims, v.dims) && |v.dims| == size
      requires Below(v.dims, |data.names|) && v.key == Reconstruct(data, startIndex, endIndex, v.dims)
      requires Looked(s, s', v.key, found, v.isNew, v.above, thresholdValue) && found == Occurrences(m, v.key)
      requires Closed(numOfDims, Parents, p') && forall k :: k in p' <==> k in p || (!v.above && Toward(numOfDims, Parents, v.dims, k))
      ensures Progress(keys, p', s0, s', visits + [v], done + {v.dims}, count + (if v.isNew then 0 else 1),
                       size, startIndex, endIndex, m)
    {
      var vs := visits + [v];
      assert Grown(s0, s', vs, thresholdValue, m) && Memo(s0.keys, vs) by {
        GrownStep(s0, s, s', visits, v, found, thresholdValue, m);
        MemoStep(s0, s, s', visits, v, found, thresholdValue, m);
      }
      assert SP.Pruning(numOfDims, p', vs) by {
        SP.PruningStep(numOfDims, p, p', visits, v);
      }
      assert Located(keys, vs, done + {v.dims}, size, startIndex, endIndex) by {
        LocatedStep(keys, visits, done, size, startIndex, endIndex, v);
      }
      CountStep(visits, v, done, count);
    }

    /** Step c for a window not stored yet: its occurrences, then `enumerate_pattern` with them. */
    method Enumerate(key: PatternKey) returns (r: Result<()>)
      requires Valid() && key !in enumPatternInst.keys
      modifies enumPatternInst
      ensures var found := patternCountInst.FindPatternOccurrences(key);
              (r.Ok? <==> found.Ok? && |found.value| > 0 && enumPatternInst.numOfReadings != 0) &&
              (r.Err? ==> found.Err? || r.error == ZeroDivisionError)
      ensures var s, s' := old(enumPatternInst.Contents()), enumPatternInst.Contents();
              r.Ok? ==> (Valid() && SP.Kept(s, s') && s'.keys == s.keys + [key] && s'.above == s.above + [true] &&
                         s'.occurrences == s.occurrences + [patternCountInst.FindPatternOccurrences(key).value] &&
                         key in s'.patterns && s'.patterns[key] == s.n)
    {
      ghost var s := enumPatternInst.Contents();
      var occ := patternCountInst.FindPatternOccurrences(key);
      if occ.Err? {
        return Err(occ.error);
      }
      r := enumPatternInst.EnumeratePattern(key, occ.value);
      OnboardedAppends(enumPatternInst.anomalousWindowsMap, enumPatternInst.lag, enumPatternInst.numOfReadings,
                       enumPatternInst.crosskConst, s, key, occ.value);
    }

    /**
     * Steps c and d for one window: look it up; a stored window is not kept,
     * and a new one is enumerated and tested.
     */
    method EvaluateNode(key: PatternKey) returns (r: Result<bool>, isNew: bool)
      requires Valid()
      modifies enumPatternInst
      ensures var found := patternCountInst.FindPatternOccurrences(key);
              r.Ok? <==> key in old(enumPatternInst.keys) ||
                         (found.Ok? && |found.value| > 0 && enumPatternInst.numOfReadings != 0)
      ensures r.Err? ==> patternCountInst.FindPatternOccurrences(key).Err? || r.error == ZeroDivisionError
      ensures r.Ok? ==> (Valid() &&
                Looked(old(enumPatternInst.Contents()), enumPatternInst.Contents(), key,
                       patternCountInst.FindPatternOccurrences(key), isNew, r.value, thresholdValue))
    {
      var patternIndex := enumPatternInst.FindPattern(key);
      isNew := patternIndex == -1;
      if !isNew {
        return Ok(false), isNew;
      }
      r := EnumerateNew(key);
    }

    /**
     * Steps c and d for a window not stored yet: it is enumerated with its
     * occurrences, and kept when its support (index -1, the entry just
     * appended) reaches the threshold. A missing index column or an
     * enumeration that divides by zero raises.
     */
    method EnumerateNew(key: PatternKey) returns (r: Result<bool>)
      requires Valid() && key !in enumPatternInst.keys
      modifies enumPatternInst
      ensures var found := patternCountInst.FindPatternOccurrences(key);
              (r.Ok? <==> found.Ok? && |found.value| > 0 && enumPatternInst.numOfReadings != 0) &&
              (r.Err? ==> found.Err? || r.error == ZeroDivisionError)
      ensures r.Ok? ==> (Valid() &&
                Looked(old(enumPatternInst.Contents()), enumPatternInst.Contents(), key,
                       patternCountInst.FindPatternOccurrences(key), true, r.value, thresholdValue))
    {
      ghost var s := enumPatternInst.Contents();
      var e := Enumerate(key);
      if e.Err? {
        return Err(e.error);
      }
      ghost var s' := enumPatternInst.Contents();
      assert s'.keys[s.n] == key;
      assert PyIndex(-1, enumPatternInst.numOfPatterns) == Some(s.n);
      r := enumPatternInst.IsAboveThreshold(-1, SP.ThresholdMetric, thresholdValue);
      assert forall i | 0 <= i < |s.above| :: enumPatternInst.aboveSomeThreshold[i] == s.above[i];
    }

    /**
     * Steps b to d for an unpruned node: its window is cut out of the table
     * (an IndexError when a dimension is not a column) and looked up.
     */
    method EvaluateDims(dims: seq<nat>, startIndex: int, endIndex: int) returns (r: Result<bool>, isNew: bool, key: PatternKey)
      requires Valid()
      modifies enumPatternInst
      ensures !Below(dims, |data.names|) ==> r == Err(IndexError) && unchanged(enumPatternInst)
      ensures r.Ok? ==> (Below(dims, |data.names|) && key == Reconstruct(data, startIndex, endIndex, dims) && Valid() &&
                         Looked(old(enumPatternInst.Contents()), enumPatternInst.Contents(), key,
                                patternCountInst.FindPatternOccurrences(key), isNew, r.value, thresholdValue))
    {
      if !Below(dims, |data.names|) {
        return Err(IndexError), false, PatternKey([]);
      }
      key := Reconstruct(data, startIndex, endIndex, dims);
      r, isNew := EvaluateNode(key);
    }

    /** Step d's pruning: a node not kept prunes itself and all its supersets. */
    method PruneFrom(lattice: LatticeGraph, level: int, dims: seq<nat>)
      requires lattice.Valid() && IsKey(lattice.numOfDim, dims) && dims in lattice.nodes && level == lattice.numOfDim - |dims|
      requires Closed(lattice.numOfDim, Parents, lattice.Pruned())
      modifies lattice.Repr`isPruned
      ensures lattice.Valid() && Closed(lattice.numOfDim, Parents, lattice.Pruned())
      ensures forall k :: k in lattice.Pruned() <==> k in old(lattice.Pruned()) || Toward(lattice.numOfDim, Parents, dims, k)
    {
      ghost var p := lattice.Pruned();
      var _ := lattice.PruneNodesRecursively(level, dims, SP.PruneType);
      WalkClosure(lattice.numOfDim, Parents, dims, p, lattice.Pruned());
    }

    /**
     * One pass of the inner loop: a pruned node is skipped (None).
     * Otherwise its window is cut out of the table and looked up, and a
     * node not kept prunes itself and all its supersets.
     */
    method VisitNode(lattice: LatticeGraph, level: int, dims: seq<nat>, startIndex: int, endIndex: int)
      returns (r: Result<Option<bool>>, isNew: bool, key: PatternKey)
      requires Valid() && lattice.Valid() && lattice.numOfDim == numOfDims
      requires dims in lattice.nodes && level == numOfDims - |dims|
      requires Closed(numOfDims, Parents, lattice.Pruned())
      modifies lattice.Repr`isPruned, enumPatternInst
      ensures lattice.Valid()
      ensures dims in old(lattice.Pruned()) ==>
                r == Ok(None) && !isNew && unchanged(enumPatternInst) && lattice.Pruned() == old(lattice.Pruned())
      ensures dims !in old(lattice.Pruned()) && !Below(dims, |data.names|) ==> r == Err(IndexError)
      ensures dims !in old(lattice.Pruned()) && r.Ok? ==>
                r.value.Some? && Valid() && Below(dims, |data.names|) && key == Reconstruct(data, startIndex, endIndex, dims) &&
                Looked(old(enumPatternInst.Contents()), enumPatternInst.Contents(), key,
                       patternCountInst.FindPatternOccurrences(key), isNew, r.value.value, thresholdValue) &&
                Closed(numOfDims, Parents, lattice.Pruned()) &&
                forall k :: k in lattice.Pruned() <==>
                  k in old(lattice.Pruned()) || (!r.value.value && Toward(numOfDims, Parents, dims, k))
    {
      var node := lattice.nodes[dims];
      if node.isPruned {
        return Ok(None), false, PatternKey([]);
      }
      ghost var p := lattice.Pruned();
      var kept;
      kept, isNew, key := EvaluateDims(dims, startIndex, endIndex);
      assert lattice.Valid() && lattice.Pruned() == p;
      if kept.Err? {
        return Err(kept.error), isNew, key;
      }
      ghost var s' := enumPatternInst.Contents();
      if !kept.value {
        PruneFrom(lattice, level, dims);
      }
      assert enumPatternInst.Contents() == s';
      r := Ok(Some(kept.value));
    }

    /**
     * One pass of the inner loop, with the walk's record: a node looked at
     * is added to `done`, a visit to the visits, and the count grows by one
     * for a pruned node and for a stored window.
     */
    method WalkNode(lattice: LatticeGraph, level: int, dims: seq<nat>, startIndex: int, endIndex: int, ghost s0: Lists,
                    ghost visits0: seq<SP.Visit>, ghost done0: set<seq<nat>>, count0: nat)
      returns (r: Result<()>, count: nat, ghost visits: seq<SP.Visit>, ghost done: set<seq<nat>>)
      requires Valid() && lattice.Valid() && lattice.numOfDim == numOfDims && Closed(numOfDims, Parents, lattice.Pruned())
      requires dims in lattice.nodes && level == numOfDims - |dims| && dims !in done0
      requires Progress(lattice.nodes.Keys, lattice.Pruned(), s0, enumPatternInst.Contents(), visits0, done0, count0,
                        |dims|, startIndex, endIndex, patternCountInst.seqHashmap)
      modifies lattice.Repr`isPruned, enumPatternInst
      ensures lattice.Valid()
      ensures r.Ok? ==> (Valid() && Closed(numOfDims, Parents, lattice.Pruned()) &&
                         Progress(lattice.nodes.Keys, lattice.Pruned(), s0, enumPatternInst.Contents(), visits, done, count,
                                  |dims|, startIndex, endIndex, patternCountInst.seqHashmap) &&
                         done == done0 + {dims} && visits0 <= visits && |visits| <= |visits0| + 1 &&
                         (|visits| == |visits0| + 1 ==> visits[|visits0|].dims == dims))
    {
      ghost var p, s := lattice.Pruned(), enumPatternInst.Contents();
      var res, isNew, key := VisitNode(lattice, level, dims, startIndex, endIndex);
      if res.Err? {
        return Err(res.error), count0, visits0, done0;
      }
      if res.value.None? {
        ProgressSkip(lattice.nodes.Keys, p, s0, s, visits0, done0, count0, |dims|, startIndex, endIndex, dims, patternCountInst.seqHashmap);
        return Ok(()), count0 + 1, visits0, done0 + {dims};
      }
      ghost var v := SP.Visit(dims, key, isNew, res.value.value);
      ProgressVisit(lattice.nodes.Keys, p, lattice.Pruned(), s0, s, enumPatternInst.Contents(), visits0, done0, count0,
                    |dims|, startIndex, endIndex, v, patternCountInst.FindPatternOccurrences(key), patternCountInst.seqHashmap);
      count := if isNew then count0 else count0 + 1;
      r, visits, done := Ok(()), visits0 + [v], done0 + {dims};
    }

    /**
     * The inner loop over one depth's nodes, in the order the depth's dict
     * holds them; afterwards every node of the depth has been looked at.
     */
    method WalkLevel(lattice: LatticeGraph, level: int, startIndex: int, endIndex: int, ghost s0: Lists,
                     ghost visits0: seq<SP.Visit>, ghost done0: set<seq<nat>>, count0: nat)
      returns (r: Result<()>, count: nat, ghost visits: seq<SP.Visit>, ghost done: set<seq<nat>>)
      requires Valid() && lattice.Valid() && lattice.numOfDim == numOfDims && level in lattice.levels
      requires Closed(numOfDims, Parents, lattice.Pruned())
      requires Progress(lattice.nodes.Keys, lattice.Pruned(), s0, enumPatternInst.Contents(), visits0, done0, count0,
                        numOfDims - level, startIndex, endIndex, patternCountInst.seqHashmap)
      requires forall k | k in done0 :: |k| < numOfDims - level
      modifies lattice.Repr`isPruned, enumPatternInst
      ensures lattice.Valid()
      ensures r.Ok? ==> (Valid() && Closed(numOfDims, Parents, lattice.Pruned()) &&
                         Progress(lattice.nodes.Keys, lattice.Pruned(), s0, enumPatternInst.Contents(), visits, done, count,
                                  numOfDims - level, startIndex, endIndex, patternCountInst.seqHashmap) &&
                         done0 <= done && (forall k | k in done :: |k| <= numOfDims - level) &&
                         forall k | k in lattice.levels[level] :: k in done)
    {
      var nodesOfLevel := lattice.levels[level];
      ghost var size := numOfDims - level;
      assert forall k | k in nodesOfLevel :: k in lattice.nodes && |k| == size;
      assert NoDup(nodesOfLevel);
      count, visits, done := count0, visits0, done0;
      for j := 0 to |nodesOfLevel|
        invariant Valid() && lattice.Valid() && Closed(numOfDims, Parents, lattice.Pruned())
        invariant Progress(lattice.nodes.Keys, lattice.Pruned(), s0, enumPatternInst.Contents(), visits, done, count,
                           size, startIndex, endIndex, patternCountInst.seqHashmap)
        invariant SP.InLevel(visits0, visits, done0, done, size, nodesOfLevel, j)
      {
        var dims := nodesOfLevel[j];
        assert dims in nodesOfLevel;
        SP.NotDone(done, size, nodesOfLevel, j);
        ghost var visits1, done1 := visits, done;
        var passed;
        passed, count, visits, done := WalkNode(lattice, level, dims, startIndex, endIndex, s0, visits, done, count);
        if passed.Err? {
          r := Err(passed.error);
          return;
        }
        SP.LevelStep(visits0, visits1, visits, done0, done1, size, nodesOfLevel, j);
      }
      SP.DoneAll(done, size, nodesOfLevel);
      r := Ok(());
    }

    /** The windows enumerated and the nodes found pruned or stored are at most the lattice's keys. */
    lemma CountBound(keys: set<seq<nat>>, p: set<seq<nat>>, s0: Lists, s: Lists, visits: seq<SP.Visit>,
                     done: set<seq<nat>>, count: nat, size: int, startIndex: int, endIndex: int, m: SeqMap)
      requires Progress(keys, p, s0, s, visits, done, count, size, startIndex, endIndex, m)
      ensures count + |SP.NewKeys(visits)| <= |keys|
    {
      SubsetSize(done, keys);
    }

    /**
     * One pass of the outer loop: the nodes looked at so far are all smaller
     * than the depth's, and every key smaller than the depth's has been
     * looked at; after it, the same holds of the depth's own keys.
     */
    method WalkDepth(lattice: LatticeGraph, level: int, startIndex: int, endIndex: int, ghost s0: Lists,
                     ghost visits0: seq<SP.Visit>, ghost done0: set<seq<nat>>, count0: nat)
      returns (r: Result<()>, count: nat, ghost visits: seq<SP.Visit>, ghost done: set<seq<nat>>)
      requires Valid() && lattice.Valid() && lattice.numOfDim == numOfDims && level in lattice.levels
      requires 0 <= level <= Deepest()
      requires Closed(numOfDims, Parents, lattice.Pruned())
      requires Progress(lattice.nodes.Keys, lattice.Pruned(), s0, enumPatternInst.Contents(), visits0, done0, count0,
                        numOfDims - level - 1, startIndex, endIndex, patternCountInst.seqHashmap)
      requires forall k | k in done0 :: |k| < numOfDims - level
      requires forall k | k in lattice.nodes && |k| < numOfDims - level :: k in done0
      modifies lattice.Repr`isPruned, enumPatternInst
      ensures lattice.Valid()
      ensures r.Ok? ==> (Valid() && Closed(numOfDims, Parents, lattice.Pruned()) &&
                         Progress(lattice.nodes.Keys, lattice.Pruned(), s0, enumPatternInst.Contents(), visits, done, count,
                                  numOfDims - level, startIndex, endIndex, patternCountInst.seqHashmap) &&
                         (forall k | k in done :: |k| <= numOfDims - level) &&
                         (forall k | k in lattice.nodes && |k| <= numOfDims - level :: k in done))
    {
      ProgressWiden(lattice.nodes.Keys, lattice.Pruned(), s0, enumPatternInst.Contents(), visits0, done0, count0,
                    numOfDims - level - 1, numOfDims - level, startIndex, endIndex, patternCountInst.seqHashmap);
      r, count, visits, done := WalkLevel(lattice, level, startIndex, endIndex, s0, visits0, done0, count0);
      if r.Ok? && numOfDims >= 2 {
        forall k | k in lattice.nodes && |k| == numOfDims - level ensures k in lattice.levels[level] {
          lattice.LevelContents(level, k);
        }
      }
    }

    /**
     * The outer loop over every depth of the lattice, from the largest depth
     * (the singletons) down to depth 0; the answer is `nodes_not_enumerated`.
     */
    method WalkDepths(lattice: LatticeGraph, startIndex: int, endIndex: int)
      returns (r: Result<nat>, ghost visits: seq<SP.Visit>, ghost done: set<seq<nat>>)
      requires Valid() && lattice.Valid() && lattice.numOfDim == numOfDims && lattice.Pruned() == {}
      requires forall t | 0 <= t <= Deepest() :: t in lattice.levels
      modifies lattice.Repr`isPruned, enumPatternInst
      ensures lattice.Valid()
      ensures r.Ok? ==> Valid() && Closed(numOfDims, Parents, lattice.Pruned()) &&
                        (forall k | k in lattice.nodes && |k| <= numOfDims :: k in done) &&
                        Progress(lattice.nodes.Keys, lattice.Pruned(), old(enumPatternInst.Contents()), enumPatternInst.Contents(),
                                 visits, done, r.value, numOfDims, startIndex, endIndex, patternCountInst.seqHashmap)
    {
      ghost var s0 := enumPatternInst.Contents();
      done := {};
      var nodesNotEnumerated: nat := 0;
      visits := [];
      var level: int := Deepest();
      ProgressStart(lattice.nodes.Keys, s0, numOfDims - level - 1, startIndex, endIndex, patternCountInst.seqHashmap);
      while level >= 0
        invariant -1 <= level <= Deepest()
        invariant Valid() && lattice.Valid() && Closed(numOfDims, Parents, lattice.Pruned())
        invariant Progress(lattice.nodes.Keys, lattice.Pruned(), s0, enumPatternInst.Contents(), visits, done, nodesNotEnumerated,
                           numOfDims - level - 1, startIndex, endIndex, patternCountInst.seqHashmap)
        invariant SP.Swept(lattice.nodes.Keys, done, numOfDims - level - 1)
        decreases level
      {
        var res;
        res, nodesNotEnumerated, visits, done :=
          WalkDepth(lattice, level, startIndex, endIndex, s0, visits, done, nodesNotEnumerated);
        if res.Err? {
          return Err(res.error), visits, done;
        }
        level := level - 1;
      }
      r := Ok(nodesNotEnumerated);
    }

    /**
     * Once every key is looked at, every key was visited or is a superset of
     * a visit that was not kept, and the count and the windows enumerated
     * make up all the keys.
     */
    lemma Finished(keys: set<seq<nat>>, p: set<seq<nat>>, s0: Lists, s: Lists, visits: seq<SP.Visit>,
                   done: set<seq<nat>>, count: nat, size: int, startIndex: int, endIndex: int, m: SeqMap)
      requires Progress(keys, p, s0, s, visits, done, count, size, startIndex, endIndex, m)
      requires size == numOfDims && forall k | k in keys && |k| <= size :: k in done
      requires numOfDims >= 2 ==> forall k :: k in keys <==> IsKey(numOfDims, k)
      requires numOfDims < 2 ==> keys == {}
      ensures numOfDims >= 2 ==> forall k | IsKey(numOfDims, k) :: SP.Seen(visits, k) || SP.Covered(numOfDims, visits, k)
      ensures count + |SP.NewKeys(visits)| == |keys|
    {
      forall k | k in keys ensures k in done {
        KeyLengthBound(numOfDims, k);
      }
      assert done == keys;
    }

    /**
     * The walk of `prune_patterns` on a fresh lattice over the dimensions,
     * which is what the deep copy of the unpruned template is.
     */
    method PruneCopy(startIndex: int, endIndex: int)
      returns (r: Result<int>, ghost visits: seq<SP.Visit>, ghost pruned: set<seq<nat>>)
      requires Valid()
      modifies enumPatternInst
      ensures r.Ok? ==> Valid() && Grown(old(enumPatternInst.Contents()), enumPatternInst.Contents(), visits, thresholdValue,
                                         patternCountInst.seqHashmap)
      ensures r.Ok? ==> forall i | 0 <= i < |visits| && visits[i].isNew ::
                          SP.StoredWith(enumPatternInst.Contents(), visits[i].key, patternCountInst.FindPatternOccurrences(visits[i].key))
      ensures r.Ok? ==> Memo(old(enumPatternInst.keys), visits) && SP.Pruning(numOfDims, pruned, visits)
      ensures r.Ok? ==> forall i | 0 <= i < |visits| ::
                          Below(visits[i].dims, |data.names|) &&
                          visits[i].key == Reconstruct(data, startIndex, endIndex, visits[i].dims)
      ensures r.Ok? ==> forall k | IsKey(numOfDims, k) && numOfDims >= 2 ::
                          SP.Seen(visits, k) || SP.Covered(numOfDims, visits, k)
      ensures r.Ok? ==> r.value + |SP.NewKeys(visits)| == (if numOfDims >= 2 then Pow2(numOfDims) - 1 else 0)
    {
      var lattice := new LatticeGraph(numOfDims);
      lattice.NodeCount();
      assert lattice.Pruned() == {};
      forall t | 0 <= t <= Deepest()
        ensures t in lattice.levels
      {
        if numOfDims >= 2 {
          lattice.LevelContents(t, []);
        }
      }
      ghost var done;
      var nodesNotEnumerated;
      nodesNotEnumerated, visits, done := WalkDepths(lattice, startIndex, endIndex);
      pruned := lattice.Pruned();
      if nodesNotEnumerated.Err? {
        return Err(nodesNotEnumerated.error), visits, pruned;
      }
      forall i | 0 <= i < |visits| && visits[i].isNew
        ensures SP.StoredWith(enumPatternInst.Contents(), visits[i].key, patternCountInst.FindPatternOccurrences(visits[i].key))
      {
        assert SP.Judged(enumPatternInst.Contents(), visits[i].key, visits[i].above, thresholdValue);
        SP.AppendedOccurrences(old(enumPatternInst.Contents()), enumPatternInst.Contents(), visits, patternCountInst.seqHashmap, i);
      }
      Finished(lattice.nodes.Keys, pruned, old(enumPatternInst.Contents()), enumPatternInst.Contents(), visits, done,
               nodesNotEnumerated.value, numOfDims, startIndex, endIndex, patternCountInst.seqHashmap);
      r := Ok(nodesNotEnumerated.value);
    }

    /**
     * `prune_patterns`: walk a copy of the template lattice over every depth
     * and answer the number of nodes whose window was not enumerated. With
     * the windows enumerated, that makes every node of the lattice: 2^D - 1
     * for D >= 2, none for smaller D. Every node is visited or pruned, and
     * the template itself is left as it was.
     */
    method PrunePatterns(startIndex: int, endIndex: int)
      returns (r: Result<int>, ghost visits: seq<SP.Visit>, ghost pruned: set<seq<nat>>)
      requires Valid() && Template()
      modifies enumPatternInst
      ensures Template()
      ensures r.Ok? ==> Valid() && Grown(old(enumPatternInst.Contents()), enumPatternInst.Contents(), visits, thresholdValue,
                                         patternCountInst.seqHashmap)
      ensures r.Ok? ==> forall i | 0 <= i < |visits| && visits[i].isNew ::
                          SP.StoredWith(enumPatternInst.Contents(), visits[i].key, patternCountInst.FindPatternOccurrences(visits[i].key))
      ensures r.Ok? ==> Memo(old(enumPatternInst.keys), visits) && SP.Pruning(numOfDims, pruned, visits)
      ensures r.Ok? ==> forall i | 0 <= i < |visits| ::
                          Below(visits[i].dims, |data.names|) &&
                          visits[i].key == Reconstruct(data, startIndex, endIndex, visits[i].dims)
      ensures r.Ok? ==> forall k | IsKey(numOfDims, k) && numOfDims >= 2 ::
                          SP.Seen(visits, k) || SP.Covered(numOfDims, visits, k)
      ensures r.Ok? ==> r.value + |SP.NewKeys(visits)| == (if numOfDims >= 2 then Pow2(numOfDims) - 1 else 0)
    {
      r, visits, pruned := PruneCopy(startIndex, endIndex);
    }
  }
}
