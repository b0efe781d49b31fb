/**
 * The six-row engine fixture of tests/patterncount/test_stategraph.py,
 * indexed with pattern length 2.
 */
module StateGraphTests {
  import opened Wrappers
  import opened Frames
  import opened StateGraphs

  function EngineData(): Table {
    Table(["engrpm", "brkpw", "nox", "ncwindow"],
          [[2015, 1755, 1076, 2015, 1755, 1076], [660, 574, 158, 610, 574, 158],
           [82, 48, 27, 13, 48, 26], [0, 1, 0, 1, 0, 0]], 6)
  }

  lemma EngrpmIndex()
    ensures IndexColumn(map[], EngineData().columns[0], 2, 5) ==
      map[[2015, 1755] := [0, 3], [1755, 1076] := [1, 4], [1076, 2015] := [2]]
  {
    var col := EngineData().columns[0];
    var e: ColumnMap := map[];
    var a, b, c := [2015, 1755], [1755, 1076], [1076, 2015];
    assert Window(col, 0, 2) == a && Window(col, 1, 2) == b && Window(col, 2, 2) == c;
    assert Window(col, 3, 2) == a && Window(col, 4, 2) == b;
    assert [] + [0] == [0] && [] + [1] == [1] && [] + [2] == [2] && [0] + [3] == [0, 3] && [1] + [4] == [1, 4];
    assert IndexColumn(e, col, 2, 1) == map[a := [0]];
    assert IndexColumn(e, col, 2, 2) == map[a := [0], b := [1]];
    assert IndexColumn(e, col, 2, 3) == map[a := [0], b := [1], c := [2]];
    assert IndexColumn(e, col, 2, 4) == map[a := [0, 3], b := [1], c := [2]];
  }

  lemma BrkpwIndex()
    ensures IndexColumn(map[], EngineData().columns[1], 2, 5) ==
      map[[660, 574] := [0], [574, 158] := [1, 4], [158, 610] := [2], [610, 574] := [3]]
  {
    var col := EngineData().columns[1];
    var e: ColumnMap := map[];
    var a, b, c, d := [660, 574], [574, 158], [158, 610], [610, 574];
    assert Window(col, 0, 2) == a && Window(col, 1, 2) == b && Window(col, 2, 2) == c;
    assert Window(col, 3, 2) == d && Window(col, 4, 2) == b;
    assert [] + [0] == [0] && [] + [1] == [1] && [] + [2] == [2] && [] + [3] == [3] && [1] + [4] == [1, 4];
    assert IndexColumn(e, col, 2, 1) == map[a := [0]];
    assert IndexColumn(e, col, 2, 2) == map[a := [0], b := [1]];
    assert IndexColumn(e, col, 2, 3) == map[a := [0], b := [1], c := [2]];
    assert IndexColumn(e, col, 2, 4) == map[a := [0], b := [1], c := [2], d := [3]];
  }

  lemma NoxIndex()
    ensures IndexColumn(map[], EngineData().columns[2], 2, 5) ==
      map[[82, 48] := [0], [48, 27] := [1], [27, 13] := [2], [13, 48] := [3], [48, 26] := [4]]
  {
    var col := EngineData().columns[2];
    var e: ColumnMap := map[];
    var a, b, c, d, f := [82, 48], [48, 27], [27, 13], [13, 48], [48, 26];
    assert Window(col, 0, 2) == a && Window(col, 1, 2) == b && Window(col, 2, 2) == c;
    assert Window(col, 3, 2) == d && Window(col, 4, 2) == f;
    assert [] + [0] == [0] && [] + [1] == [1] && [] + [2] == [2] && [] + [3] == [3] && [] + [4] == [4];
    assert IndexColumn(e, col, 2, 1) == map[a := [0]];
    assert IndexColumn(e, col, 2, 2) == map[a := [0], b := [1]];
    assert IndexColumn(e, col, 2, 3) == map[a := [0], b := [1], c := [2]];
    assert IndexColumn(e, col, 2, 4) == map[a := [0], b := [1], c := [2], d := [3]];
  }

  lemma EngineWellFormed()
    ensures WellFormed(EngineData())
  {
    var n := EngineData().names;
    assert n[0][0] == 'e' && n[1][0] == 'b' && n[2][0] == 'n' && n[3][1] == 'c';
    assert n[0] != n[1] && n[0] != n[2] && n[0] != n[3] && n[1] != n[2] && n[1] != n[3] && n[2] != n[3];
  }

  /** Taking one more column into account appends its position when it is a feature column. */
  lemma FeaturesSnoc(names: seq<string>, nc: string, k: nat)
    requires k < |names|
    ensures Features(names[..k + 1], nc) == Features(names[..k], nc) + (if names[k] != nc then [k] else [])
  {
    assert names[..k + 1][..k] == names[..k];
  }

  /** The flag column is the only one left out of the index. */
  lemma EngineFeatures()
    ensures WellFormed(EngineData()) && Features(EngineData().names, "ncwindow") == [0, 1, 2]
  {
    EngineWellFormed();
    var n, nc := EngineData().names, "ncwindow";
    assert |n[0]| != |nc| && |n[1]| != |nc| && |n[2]| != |nc| && n[3] == nc;
    assert n[..0] == [] && n[..4] == n;
    FeaturesSnoc(n, nc, 0);
    FeaturesSnoc(n, nc, 1);
    FeaturesSnoc(n, nc, 2);
    FeaturesSnoc(n, nc, 3);
  }

  /** `test_init_seq_map`: each feature column gets the index the test expects. */
  lemma EngineIndex()
    ensures WellFormed(EngineData())
    ensures var m := IndexTable(map[], EngineData(), [0, 1, 2], 2, 3);
            "engrpm" in m && "brkpw" in m && "nox" in m &&
            m["engrpm"] == map[[2015, 1755] := [0, 3], [1755, 1076] := [1, 4], [1076, 2015] := [2]] &&
            m["brkpw"] == map[[660, 574] := [0], [574, 158] := [1, 4], [158, 610] := [2], [610, 574] := [3]] &&
            m["nox"] == map[[82, 48] := [0], [48, 27] := [1], [27, 13] := [2], [13, 48] := [3], [48, 26] := [4]]
  {
    EngineWellFormed();
    var t := EngineData();
    var feats := [0, 1, 2];
    assert NoDup(feats);
    assert Starts(t.rows, 2) == 5;
    IndexTableColumn(map[], t, feats, 2, 3, 0);
    IndexTableColumn(map[], t, feats, 2, 3, 1);
    IndexTableColumn(map[], t, feats, 2, 3, 2);
    EngrpmIndex();
    BrkpwIndex();
    NoxIndex();
  }

  /** `test_init_seq_map`: the index holds exactly the three feature columns. */
  lemma EngineIndexNames()
    ensures WellFormed(EngineData())
    ensures IndexTable(map[], EngineData(), [0, 1, 2], 2, 3).Keys == {"engrpm", "brkpw", "nox"}
  {
    EngineWellFormed();
    IndexTableNames(map[], EngineData(), [0, 1, 2], 2, 3);
  }

  /** The pattern `test_find_pattern_occurences` looks up: rows 1..2 of the three feature columns. */
  function EngineKey(): PatternKey {
    PatternKey([PatternColumn("engrpm", [1755, 1076]), PatternColumn("brkpw", [574, 158]), PatternColumn("nox", [48, 27])])
  }

  /** `test_find_pattern_occurences`: rows 1..2 of the three feature columns occur only at row 1. */
  lemma EngineFind(sm: SequenceMap)
    requires sm.Valid() && sm.data == EngineData() && sm.ncWindowColName == "ncwindow"
    requires sm.seqHashmap == IndexTable(map[], EngineData(), [0, 1, 2], 2, 3)
    ensures sm.FindPatternOccurrences(EngineKey()) == Ok([1])
  {
    EngineFeatures();
    var p, pos := EngineKey(), [0, 1, 2];
    assert sm.featureCols == pos;
    assert sm.data.names[0] == p.columns[0].name && sm.data.names[1] == p.columns[1].name;
    assert sm.data.names[2] == p.columns[2].name;
    sm.FoundWhereMatching(p, 2, pos);
    var r := sm.FindPatternOccurrences(p).value;
    OnlyRowOne(sm.data.columns, p, pos, Starts(sm.data.rows, 2), r);
  }

  /** Only row 1 starts the runs (1755, 1076), (574, 158) and (48, 27) of the fixture. */
  lemma OnlyRowOne(cols: seq<seq<int>>, p: PatternKey, pos: seq<nat>, n: nat, r: seq<nat>)
    requires cols == EngineData().columns && p == EngineKey() && pos == [0, 1, 2] && n == Starts(6, 2) && NoDup(r)
    requires forall x: nat :: x in r <==>
               x < n && forall j | 0 <= j < |pos| :: Window(cols[pos[j]], x, 2) == p.columns[j].values
    ensures r == [1]
  {
    assert n == 5;
    forall x: nat | x in r ensures x == 1 {
      assert Window(cols[pos[2]], x, 2) == p.columns[2].values;
      assert cols[2][x + 1] == Window(cols[2], x, 2)[1];
      NoxOnce(x);
    }
    RowOneMatches(cols, p, pos);
    assert 1 in r;
    NoDupBound(r, {1});
    assert |r| == 1 && r[0] in r;
    assert r == [r[0]];
  }

  /** In the nox column, 27 follows only row 1. */
  lemma NoxOnce(x: nat)
    requires x < 5 && EngineData().columns[2][x + 1] == 27
    ensures x == 1
  {
    var nox := EngineData().columns[2];
    assert nox[1] == 48 && nox[2] == 27 && nox[3] == 13 && nox[4] == 48 && nox[5] == 26;
  }

  /** Row 1 of every feature column starts the pattern's run. */
  lemma RowOneMatches(cols: seq<seq<int>>, p: PatternKey, pos: seq<nat>)
    requires cols == EngineData().columns && p == EngineKey() && pos == [0, 1, 2]
    ensures forall j | 0 <= j < |pos| :: Window(cols[pos[j]], 1, 2) == p.columns[j].values
  {
    assert cols[0][1..3] == [1755, 1076] && cols[1][1..3] == [574, 158] && cols[2][1..3] == [48, 27];
  }
}
