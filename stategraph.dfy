/**
 * `SequenceMap` (module/patterncount/stategraph.py): for every feature
 * column, a map from each run of `L` consecutive values to the rows where
 * that run starts; a pattern lookup intersects the start lists of its columns.
 */
module StateGraphs {
  import opened Wrappers
  import opened Frames

  /** One column's index: a run of values to the ascending list of its start rows. */
  type ColumnMap = map<seq<int>, seq<nat>>

  /** `_seq_hashmap`: a column name to that column's index. */
  type SeqMap = map<string, ColumnMap>

  /** The positions of the columns other than `nc`, in table order (`_feature_col_names`). */
  function Features(names: seq<string>, nc: string): (r: seq<nat>)
    ensures forall i: int :: i in r <==> 0 <= i < |names| && names[i] != nc
    ensures forall a | 0 <= a < |r| :: r[a] < |names| && names[r[a]] != nc
    ensures forall a, b | 0 <= a < b < |r| :: r[a] < r[b]
  {
    if |names| == 0 then []
    else
      var front := Features(names[..|names| - 1], nc);
      if names[|names| - 1] != nc then front + [|names| - 1] else front
  }

  /** How many start rows `range(N - L + 1)` visits. */
  function Starts(rows: nat, len: nat): nat {
    if len <= rows then rows - len + 1 else 0
  }

  /** The run of `len` values starting at row `idx`. */
  function Window(col: seq<int>, idx: nat, len: nat): seq<int>
    requires idx + len <= |col|
  {
    col[idx..idx + len]
  }

  /** The reference definition: the rows below n, ascending, where `key` starts in `col`. */
  function Hits(col: seq<int>, len: nat, n: nat, key: seq<int>): (r: seq<nat>)
    requires n <= Starts(|col|, len)
  {
    if n == 0 then []
    else Hits(col, len, n - 1, key) + (if Window(col, n - 1, len) == key then [n - 1] else [])
  }

  /** Records that `key` starts at row `idx`, after the rows recorded before. */
  function Append(m: ColumnMap, key: seq<int>, idx: nat): ColumnMap {
    m[key := (if key in m then m[key] else []) + [idx]]
  }

  /** What the inner loop of `init_seq_map` leaves after the first n start rows. */
  function IndexColumn(m: ColumnMap, col: seq<int>, len: nat, n: nat): ColumnMap
    requires n <= Starts(|col|, len)
  {
    if n == 0 then m
    else Append(IndexColumn(m, col, len, n - 1), Window(col, n - 1, len), n - 1)
  }

  /** The inner loop of `init_seq_map`: records the start rows 0..n-1 of `col` in `cm`. */
  method IndexRuns(cm: ColumnMap, col: seq<int>, len: nat, n: nat) returns (r: ColumnMap)
    requires n <= Starts(|col|, len)
    ensures r == IndexColumn(cm, col, len, n)
  {
    r := cm;
    for idx: nat := 0 to n
      invariant r == IndexColumn(cm, col, len, idx)
    {
      var seqKey := col[idx..idx + len];
      if seqKey !in r {
        r := r[seqKey := []];
      }
      r := r[seqKey := r[seqKey] + [idx]];
    }
  }

  /** What the outer loop of `init_seq_map` leaves after the first j feature columns. */
  function IndexTable(m: SeqMap, t: Table, feats: seq<nat>, len: nat, j: nat): SeqMap
    requires WellFormed(t) && j <= |feats| && forall i | 0 <= i < |feats| :: feats[i] < |t.names|
  {
    if j == 0 then m
    else
      var m' := IndexTable(m, t, feats, len, j - 1);
      var fc := t.names[feats[j - 1]];
      m'[fc := IndexColumn(if fc in m' then m'[fc] else map[], t.columns[feats[j - 1]], len, Starts(t.rows, len))]
  }

  /** Exactly the rows where `key` starts are hit, in strictly ascending order. */
  lemma {:induction false} HitsFacts(col: seq<int>, len: nat, n: nat, key: seq<int>)
    requires n <= Starts(|col|, len)
    ensures forall idx: nat :: idx in Hits(col, len, n, key) <==> idx < n && Window(col, idx, len) == key
    ensures forall a, b | 0 <= a < b < |Hits(col, len, n, key)| :: Hits(col, len, n, key)[a] < Hits(col, len, n, key)[b]
  {
    if n > 0 {
      HitsFacts(col, len, n - 1, key);
      var h := Hits(col, len, n - 1, key);
      assert forall a | 0 <= a < |h| :: h[a] in h;
    }
  }

  /** The inner loop appends to each run's list exactly the rows where it starts. */
  lemma {:induction false} IndexColumnHits(m: ColumnMap, col: seq<int>, len: nat, n: nat, key: seq<int>)
    requires n <= Starts(|col|, len)
    ensures key in IndexColumn(m, col, len, n) <==> key in m || Hits(col, len, n, key) != []
    ensures key in IndexColumn(m, col, len, n) ==>
              IndexColumn(m, col, len, n)[key] == (if key in m then m[key] else []) + Hits(col, len, n, key)
  {
    if n > 0 {
      IndexColumnHits(m, col, len, n - 1, key);
    }
  }

  /**
   * Built from an empty map, a column's index holds a run exactly when the
   * run starts somewhere, and then lists exactly the rows where it starts,
   * in strictly ascending order.
   */
  lemma ColumnIndexFacts(col: seq<int>, len: nat, key: seq<int>)
    ensures var m := IndexColumn(map[], col, len, Starts(|col|, len));
            (key in m <==> exists idx: nat | idx < Starts(|col|, len) :: Window(col, idx, len) == key) &&
            (key in m ==> (forall idx: nat :: idx in m[key] <==> idx < Starts(|col|, len) && Window(col, idx, len) == key) &&
                          forall a, b | 0 <= a < b < |m[key]| :: m[key][a] < m[key][b])
  {
    var n := Starts(|col|, len);
    IndexColumnHits(map[], col, len, n, key);
    HitsFacts(col, len, n, key);
    var h := Hits(col, len, n, key);
    if h != [] {
      assert h[0] in h;
    }
  }

  /** Every start row of a column is listed under its own run and under no other. */
  lemma ColumnPartition(col: seq<int>, len: nat, idx: nat)
    requires idx < Starts(|col|, len)
    ensures var m := IndexColumn(map[], col, len, Starts(|col|, len));
            Window(col, idx, len) in m && idx in m[Window(col, idx, len)] &&
            forall key | key in m && idx in m[key] :: key == Window(col, idx, len)
  {
    var m := IndexColumn(map[], col, len, Starts(|col|, len));
    ColumnIndexFacts(col, len, Window(col, idx, len));
    forall key | key in m && idx in m[key] ensures key == Window(col, idx, len) {
      ColumnIndexFacts(col, len, key);
    }
  }

  /**
   * The outer loop adds an index exactly for the first j feature columns'
   * names, so the index holds no other name than those it held before.
   */
  lemma {:induction false} IndexTableNames(m: SeqMap, t: Table, feats: seq<nat>, len: nat, j: nat)
    requires WellFormed(t) && j <= |feats| && forall i | 0 <= i < |feats| :: feats[i] < |t.names|
    ensures forall name :: name in IndexTable(m, t, feats, len, j) <==>
              name in m || exists i | 0 <= i < j :: t.names[feats[i]] == name
  {
    if j > 0 {
      IndexTableNames(m, t, feats, len, j - 1);
    }
  }

  /** A name that none of the first j feature columns carries keeps what it held. */
  lemma {:induction false} IndexTableOther(m: SeqMap, t: Table, feats: seq<nat>, len: nat, j: nat, name: string)
    requires WellFormed(t) && j <= |feats| && forall i | 0 <= i < |feats| :: feats[i] < |t.names|
    requires forall i | 0 <= i < j :: t.names[feats[i]] != name
    ensures name in IndexTable(m, t, feats, len, j) <==> name in m
    ensures name in m ==> IndexTable(m, t, feats, len, j)[name] == m[name]
  {
    if j > 0 {
      IndexTableOther(m, t, feats, len, j - 1, name);
    }
  }

  /** Feature column i gets its own index, built on what its name held before. */
  lemma {:induction false} IndexTableColumn(m: SeqMap, t: Table, feats: seq<nat>, len: nat, j: nat, i: nat)
    requires WellFormed(t) && j <= |feats| && forall i | 0 <= i < |feats| :: feats[i] < |t.names|
    requires NoDup(feats) && i < j
    ensures var fc := t.names[feats[i]];
            fc in IndexTable(m, t, feats, len, j) &&
            IndexTable(m, t, feats, len, j)[fc] ==
              IndexColumn(if fc in m then m[fc] else map[], t.columns[feats[i]], len, Starts(t.rows, len))
  {
    var fc := t.names[feats[i]];
    forall k | 0 <= k < j && k != i ensures t.names[feats[k]] != fc {
      assert feats[k] != feats[i];
      assert feats[k] < feats[i] || feats[i] < feats[k];
    }
    if i < j - 1 {
      IndexTableColumn(m, t, feats, len, j - 1, i);
    } else {
      IndexTableOther(m, t, feats, len, j - 1, fc);
    }
  }

  /** After indexing from empty, feature column i lists exactly the rows where `key` starts. */
  lemma IndexedRuns(t: Table, feats: seq<nat>, len: nat, i: nat, key: seq<int>)
    requires WellFormed(t) && forall k | 0 <= k < |feats| :: feats[k] < |t.names|
    requires NoDup(feats) && i < |feats|
    ensures var m := IndexTable(map[], t, feats, len, |feats|);
            t.names[feats[i]] in m &&
            forall x: nat :: (key in m[t.names[feats[i]]] && x in m[t.names[feats[i]]][key]) <==>
              x < Starts(t.rows, len) && Window(t.columns[feats[i]], x, len) == key
  {
    IndexTableColumn(map[], t, feats, len, |feats|, i);
    ColumnIndexFacts(t.columns[feats[i]], len, key);
  }

  class SequenceMap {
    const data: Table
    const dataLength: nat
    const ncWindowColName: string
    /** The feature columns, by position; the names are `data.names` at these positions. */
    const featureCols: seq<nat>
    var seqHashmap: SeqMap

    /** The constant fields agree with the table they were taken from. */
    ghost predicate Valid() {
      WellFormed(data) && dataLength == data.rows && featureCols == Features(data.names, ncWindowColName)
    }

    constructor(data: Table, ncWindowColName: string)
      requires WellFormed(data)
      ensures Valid() && this.data == data && this.ncWindowColName == ncWindowColName
      ensures seqHashmap == map[]
    {
      this.data := data;
      this.dataLength := data.rows;
      this.ncWindowColName := ncWindowColName;
      this.featureCols := Features(data.names, ncWindowColName);
      this.seqHashmap := map[];
    }

    /** The names of the indexed columns. */
    ghost function FeatureNames(): set<string>
      requires Valid()
    {
      set i | 0 <= i < |featureCols| :: data.names[featureCols[i]]
    }

    /** `init_seq_map(L)`: indexes every feature column, adding to what the map already holds. */
    method InitSeqMap(patternLength: nat)
      requires Valid()
      modifies this`seqHashmap
      ensures seqHashmap == IndexTable(old(seqHashmap), data, featureCols, patternLength, |featureCols|)
    {
      for j := 0 to |featureCols|
        invariant seqHashmap == IndexTable(old(seqHashmap), data, featureCols, patternLength, j)
      {
        var fc := data.names[featureCols[j]];
        var runs: ColumnMap := if fc in seqHashmap then seqHashmap[fc] else map[];
        var n := if dataLength >= patternLength then dataLength - patternLength + 1 else 0;
        runs := IndexRuns(runs, data.columns[featureCols[j]], patternLength, n);
        seqHashmap := seqHashmap[fc := runs];
      }
    }

    /**
     * `find_pattern_occurences`: the rows where every column of the pattern
     * starts its own run of values. A column name without an index is a
     * KeyError, unless an earlier column's run was already missing (then the
     * answer is empty); a pattern without columns is an IndexError.
     */
    function FindPatternOccurrences(p: PatternKey): (r: Result<seq<nat>>)
      reads this
      ensures r == Err(KeyError) <==>
                exists k | 0 <= k < |p.columns| :: p.columns[k].name !in seqHashmap && Present(seqHashmap, p.columns, k)
      ensures r == Err(IndexError) <==> |p.columns| == 0
      ensures r.Err? ==> r == Err(KeyError) || r == Err(IndexError)
      ensures r.Ok? ==> NoDup(r.value)
      ensures r.Ok? ==> forall x :: x in r.value <==>
                (Present(seqHashmap, p.columns, |p.columns|) &&
                 forall j | 0 <= j < |p.columns| :: x in seqHashmap[p.columns[j].name][p.columns[j].values])
    {
      Occurrences(seqHashmap, p)
    }

    /**
     * After one `init_seq_map(L)` on a fresh map, a pattern whose columns are
     * feature columns (the j-th at position pos[j]) is found at row x exactly
     * when every one of its columns runs through the pattern's values from
     * row x on.
     */
    lemma FoundWhereMatching(p: PatternKey, len: nat, pos: seq<nat>)
      requires Valid() && seqHashmap == IndexTable(map[], data, featureCols, len, |featureCols|)
      requires |p.columns| > 0 && |pos| == |p.columns|
      requires forall j | 0 <= j < |pos| :: pos[j] in featureCols && data.names[pos[j]] == p.columns[j].name
      ensures FindPatternOccurrences(p).Ok?
      ensures forall x: nat :: x in FindPatternOccurrences(p).value <==>
                x < Starts(data.rows, len) &&
                forall j | 0 <= j < |pos| :: Window(data.columns[pos[j]], x, len) == p.columns[j].values
    {
      var m := seqHashmap;
      var cols := p.columns;
      forall j | 0 <= j < |cols|
        ensures cols[j].name in m
        ensures forall x: nat :: (cols[j].values in m[cols[j].name] && x in m[cols[j].name][cols[j].values]) <==>
                  x < Starts(data.rows, len) && Window(data.columns[pos[j]], x, len) == cols[j].values
      {
        var i :| 0 <= i < |featureCols| && featureCols[i] == pos[j];
        IndexedRuns(data, featureCols, len, i, cols[j].values);
      }
      assert forall k | 0 <= k < |cols| :: cols[k].name in m;
    }
  }

  /**
   * What `find_pattern_occurences` answers when the index holds m; it reads
   * nothing but m, so the strategies can speak of it without the heap.
   */
  function Occurrences(m: SeqMap, p: PatternKey): (r: Result<seq<nat>>)
    ensures r == Err(KeyError) <==>
              exists k | 0 <= k < |p.columns| :: p.columns[k].name !in m && Present(m, p.columns, k)
    ensures r == Err(IndexError) <==> |p.columns| == 0
    ensures r.Err? ==> r == Err(KeyError) || r == Err(IndexError)
    ensures r.Ok? ==> NoDup(r.value)
    ensures r.Ok? ==> forall x :: x in r.value <==>
              (Present(m, p.columns, |p.columns|) && forall j | 0 <= j < |p.columns| :: x in m[p.columns[j].name][p.columns[j].values])
  {
    match Gather(m, p.columns, 0)
    case Err(e) => Err(e)
    case Ok(None) => Ok([])
    case Ok(Some(lists)) =>
      if |lists| == 0 then Err(IndexError)
      else
        assert lists[0][..|lists[0]|] == lists[0];
        var kept := Keep(lists[0], lists, |lists[0]|);
        KeptEverywhere(m, p.columns, lists, kept);
        Ok(kept)
  }

  /** The first k columns of the pattern have an index that holds their run of values. */
  ghost predicate Present(m: SeqMap, cols: seq<PatternColumn>, k: nat)
    requires k <= |cols|
  {
    forall j | 0 <= j < k :: cols[j].name in m && cols[j].values in m[cols[j].name]
  }

  /**
   * The loop over the pattern's columns from column i on: a missing column
   * name stops it with a KeyError, a missing run stops it with no lists
   * (`return list()`), and otherwise it collects each column's start list.
   */
  function Gather(m: SeqMap, cols: seq<PatternColumn>, i: nat): (r: Result<Option<seq<seq<nat>>>>)
    requires i <= |cols|
    ensures r.Err? ==> r.error == KeyError
    ensures r.Err? <==> exists k | i <= k < |cols| ::
              (cols[k].name !in m && forall j | i <= j < k :: cols[j].name in m && cols[j].values in m[cols[j].name])
    ensures r == Ok(None) ==> exists k | i <= k < |cols| :: cols[k].name in m && cols[k].values !in m[cols[k].name]
    ensures r.Ok? && r.value.Some? ==>
              |r.value.value| == |cols| - i &&
              (forall j | i <= j < |cols| :: cols[j].name in m && cols[j].values in m[cols[j].name]) &&
              forall j | i <= j < |cols| :: r.value.value[j - i] == m[cols[j].name][cols[j].values]
    decreases |cols| - i
  {
    if i == |cols| then Ok(Some([]))
    else if cols[i].name !in m then Err(KeyError)
    else if cols[i].values !in m[cols[i].name] then Ok(None)
    else
      match Gather(m, cols, i + 1)
      case Err(e) => Err(e)
      case Ok(None) => Ok(None)
      case Ok(Some(rest)) => Ok(Some([m[cols[i].name][cols[i].values]] + rest))
  }

  /** Being in every gathered list is being in every column's start list. */
  lemma KeptEverywhere(m: SeqMap, cols: seq<PatternColumn>, lists: seq<seq<nat>>, kept: seq<nat>)
    requires |lists| == |cols| > 0 && Present(m, cols, |cols|)
    requires forall j | 0 <= j < |cols| :: lists[j] == m[cols[j].name][cols[j].values]
    requires forall x :: x in kept <==> x in lists[0] && forall j | 0 <= j < |lists| :: x in lists[j]
    ensures forall x :: x in kept <==> forall j | 0 <= j < |cols| :: x in m[cols[j].name][cols[j].values]
  {
  }

  /**
   * `set(first).intersection(*lists)` over the first n entries of `first`,
   * without repeats, in the order of their first occurrence. `list(...)` of
   * a Python set has the set's iteration order, which the language leaves
   * open; the order chosen here is one of them, and no contract of this
   * model depends on it (only `get_pattern_metrics`' `x[0]` would see it,
   * and that function is not part of this model).
   */
  function Keep(first: seq<nat>, lists: seq<seq<nat>>, n: nat): (r: seq<nat>)
    requires n <= |first|
    ensures NoDup(r)
    ensures forall x :: x in r <==> x in first[..n] && forall j | 0 <= j < |lists| :: x in lists[j]
  {
    if n == 0 then []
    else
      var r := Keep(first, lists, n - 1);
      var x := first[n - 1];
      assert first[..n] == first[..n - 1] + [x];
      if x !in r && forall j | 0 <= j < |lists| :: x in lists[j] then r + [x] else r
  }
}
