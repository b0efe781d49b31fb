/**
 * The data a miner works on: a table of integer columns, and the pattern
 * windows cut out of it. A pattern window is the sub-table of some columns
 * over a run of rows; its string key (`stringify_dataframe`, the pandas JSON
 * of the window) is modelled as the window value itself, so two windows get
 * the same key exactly when they have the same column names and values.
 */
module Frames {
  import opened Wrappers

  /** A data frame stored by column: `columns[i]` holds the values of column `names[i]`. */
  datatype Table = Table(names: seq<string>, columns: seq<seq<int>>, rows: nat)

  /** Every column has one name and `rows` values, and no name is used twice. */
  predicate WellFormed(t: Table) {
    |t.names| == |t.columns| && NoDup(t.names) &&
    forall i | 0 <= i < |t.columns| :: |t.columns[i]| == t.rows
  }

  /** One column of a pattern window. */
  datatype PatternColumn = PatternColumn(name: string, values: seq<int>)

  /** A pattern window, which is also its own key. */
  datatype PatternKey = PatternKey(columns: seq<PatternColumn>)

  /** Python's slice `s[a:b]`: negative bounds count from the end, and bounds are clamped. */
  function PySlice<T>(s: seq<T>, a: int, b: int): (r: seq<T>)
    ensures |r| <= |s|
    ensures 0 <= a <= b <= |s| ==> r == s[a..b]
  {
    var n := |s| as int;
    var lo := if a < 0 then (if a + n < 0 then 0 else a + n) else (if a > n then n else a);
    var hi := if b < 0 then (if b + n < 0 then 0 else b + n) else (if b > n then n else b);
    if lo < hi then s[lo..hi] else []
  }

  /** A negative bound down to -len(s) counts from the end: it reads as the bound plus len(s). */
  lemma PySliceFromEnd<T>(s: seq<T>, a: int, b: int)
    ensures -|s| <= a < 0 ==> PySlice(s, a, b) == PySlice(s, a + |s|, b)
    ensures -|s| <= b < 0 ==> PySlice(s, a, b) == PySlice(s, a, b + |s|)
  {
  }

  /**
   * A bound beyond either end is clamped to that end, so a start past the
   * end, an end before the start, or crossed non-negative bounds give the
   * empty slice.
   */
  lemma PySliceClamped<T>(s: seq<T>, a: int, b: int)
    ensures a < -|s| ==> PySlice(s, a, b) == PySlice(s, 0, b)
    ensures b > |s| ==> PySlice(s, a, b) == PySlice(s, a, |s|)
    ensures a >= |s| || b <= -|s| ==> PySlice(s, a, b) == []
    ensures 0 <= b <= a ==> PySlice(s, a, b) == []
  {
  }

  /**
   * `_reconstruct_pattern_df(start, end, dims)`: the columns listed in `dims`,
   * in that order, each cut to rows start..end-1.
   */
  function Reconstruct(t: Table, start: int, end: int, dims: seq<nat>): (r: PatternKey)
    requires WellFormed(t) && forall i | 0 <= i < |dims| :: dims[i] < |t.names|
    ensures |r.columns| == |dims|
    ensures forall i | 0 <= i < |dims| :: r.columns[i].name == t.names[dims[i]]
    ensures 0 <= start <= end <= t.rows ==>
              forall i | 0 <= i < |dims| :: r.columns[i].values == t.columns[dims[i]][start..end]
  {
    PatternKey(seq(|dims|, i requires 0 <= i < |dims| =>
      PatternColumn(t.names[dims[i]], PySlice(t.columns[dims[i]], start, end))))
  }
}
