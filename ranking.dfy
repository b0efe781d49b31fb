/**
 * The selection query of `get_pattern_indexes`, shared by both copies of
 * `EnumeratedPattern`: from a list of candidate pattern indexes, either the
 * first k by descending metric value (a stable sort, so ties stay in index
 * order) or those whose value reaches a threshold.
 */
module Rankings {
  import opened Wrappers

  /** Candidate indexes: ascending and inside the metric list. */
  predicate Candidates(values: seq<real>, s: seq<nat>) {
    (forall i | 0 <= i < |s| :: s[i] < |values|) &&
    forall a, b | 0 <= a < b < |s| :: s[a] < s[b]
  }

  /** `[x for x in range(n) if flags[x]]`: the positions whose flag is set, ascending. */
  function Flagged(flags: seq<bool>): (r: seq<nat>)
    ensures forall x: int :: x in r <==> 0 <= x < |flags| && flags[x]
    ensures forall i | 0 <= i < |r| :: r[i] < |flags|
    ensures forall a, b | 0 <= a < b < |r| :: r[a] < r[b]
  {
    if |flags| == 0 then []
    else
      var front := Flagged(flags[..|flags| - 1]);
      if flags[|flags| - 1] then front + [|flags| - 1] else front
  }

  /** `range(n)`. */
  function Indexes(n: nat): (r: seq<nat>)
    ensures |r| == n && forall i | 0 <= i < n :: r[i] == i
  {
    if n == 0 then [] else Indexes(n - 1) + [n - 1]
  }

  /** The ranking order: a higher value first, and between equal values the lower index. */
  predicate Before(values: seq<real>, x: nat, y: nat)
    requires x < |values| && y < |values|
  {
    values[x] > values[y] || (values[x] == values[y] && x < y)
  }

  /** Inserts x into a ranked list, after every entry whose value is at least x's. */
  function InsertRanked(values: seq<real>, ranked: seq<nat>, x: nat): (r: seq<nat>)
    requires x < |values| && forall i | 0 <= i < |ranked| :: ranked[i] < |values|
    ensures multiset(r) == multiset(ranked) + multiset{x}
    ensures forall i | 0 <= i < |r| :: r[i] < |values|
  {
    if |ranked| == 0 then [x]
    else if values[ranked[0]] >= values[x] then
      assert ranked == [ranked[0]] + ranked[1..];
      [ranked[0]] + InsertRanked(values, ranked[1..], x)
    else [x] + ranked
  }

  /**
   * `sorted(s, key=lambda i: values[i], reverse=True)`: Python's sort is
   * stable also in reverse, so equal values keep their order in s.
   */
  function Ranked(values: seq<real>, s: seq<nat>): (r: seq<nat>)
    requires forall i | 0 <= i < |s| :: s[i] < |values|
    ensures multiset(r) == multiset(s)
    ensures forall i | 0 <= i < |r| :: r[i] < |values|
  {
    if |s| == 0 then []
    else
      assert s == s[..|s| - 1] + [s[|s| - 1]];
      InsertRanked(values, Ranked(values, s[..|s| - 1]), s[|s| - 1])
  }

  /** A list in ranking order. */
  predicate RankedOrder(values: seq<real>, r: seq<nat>)
    requires forall i | 0 <= i < |r| :: r[i] < |values|
  {
    forall a, b | 0 <= a < b < |r| :: Before(values, r[a], r[b])
  }

  /** Inserting an index larger than every entry keeps the ranking order. */
  lemma {:induction false} InsertRankedOrder(values: seq<real>, ranked: seq<nat>, x: nat)
    requires x < |values| && forall i | 0 <= i < |ranked| :: ranked[i] < x
    requires RankedOrder(values, ranked)
    ensures RankedOrder(values, InsertRanked(values, ranked, x))
  {
    if |ranked| > 0 && values[ranked[0]] >= values[x] {
      InsertRankedOrder(values, ranked[1..], x);
      var r := InsertRanked(values, ranked, x);
      var tail := InsertRanked(values, ranked[1..], x);
      forall b | 1 <= b < |r| ensures Before(values, r[0], r[b]) {
        assert r[b] == tail[b - 1];
        assert r[b] in multiset(tail);
        if r[b] != x {
          assert r[b] in multiset(ranked[1..]);
          var c :| 0 <= c < |ranked[1..]| && ranked[1..][c] == r[b];
          assert ranked[c + 1] == r[b];
        }
      }
    }
  }

  /** Sorting ascending candidates puts them in ranking order. */
  lemma {:induction false} RankedIsOrdered(values: seq<real>, s: seq<nat>)
    requires Candidates(values, s)
    ensures RankedOrder(values, Ranked(values, s))
  {
    if |s| > 0 {
      var front := s[..|s| - 1];
      RankedIsOrdered(values, front);
      var r := Ranked(values, front);
      forall i | 0 <= i < |r| ensures r[i] < s[|s| - 1] {
        assert r[i] in multiset(front);
        var c :| 0 <= c < |front| && front[c] == r[i];
      }
      InsertRankedOrder(values, r, s[|s| - 1]);
    }
  }

  /** `[i for i in s if values[i] >= threshold]`. */
  function AtLeast(values: seq<real>, s: seq<nat>, threshold: real): (r: seq<nat>)
    requires forall i | 0 <= i < |s| :: s[i] < |values|
    ensures forall x :: x in r <==> x in s && values[x] >= threshold
    ensures forall i | 0 <= i < |r| :: r[i] < |values|
    ensures (forall a, b | 0 <= a < b < |s| :: s[a] < s[b]) ==> forall a, b | 0 <= a < b < |r| :: r[a] < r[b]
  {
    if |s| == 0 then []
    else
      var front := AtLeast(values, s[..|s| - 1], threshold);
      assert forall x :: x in s <==> x in s[..|s| - 1] || x == s[|s| - 1] by {
        assert s == s[..|s| - 1] + [s[|s| - 1]];
      }
      assert (forall a, b | 0 <= a < b < |s| :: s[a] < s[b]) ==>
               forall i | 0 <= i < |front| :: front[i] < s[|s| - 1] by {
        forall i | 0 <= i < |front| ensures front[i] in s[..|s| - 1] {
          assert front[i] in front;
        }
      }
      if values[s[|s| - 1]] >= threshold then front + [s[|s| - 1]] else front
  }

  /**
   * The selection rule of `get_pattern_indexes` over the candidates: 'topk'
   * with k other than -1 ranks them and keeps `[:k]`; 'threshold' with a
   * threshold other than -1 keeps those reaching it; anything else raises.
   */
  function SelectIndexes(values: seq<real>, cands: seq<nat>, filterType: string, k: int, threshold: real): (r: Result<seq<nat>>)
    requires forall i | 0 <= i < |cands| :: cands[i] < |values|
    ensures r.Err? <==> !(filterType == "topk" && k != -1) && !(filterType == "threshold" && threshold != -1.0)
    ensures r.Err? ==> r.error == WrongParameters
    ensures r.Ok? ==> forall i | 0 <= i < |r.value| :: r.value[i] < |values| && r.value[i] in cands
  {
    if filterType == "topk" && k != -1 then
      var ranked := Ranked(values, cands);
      forall i | 0 <= i < |ranked| ensures ranked[i] in cands {
        assert ranked[i] in multiset(cands);
      }
      Ok(PyPrefix(ranked, k))
    else if filterType == "threshold" && threshold != -1.0 then Ok(AtLeast(values, cands, threshold))
    else Err(WrongParameters)
  }

  /** Equal multisets: one is duplicate-free when the other is. */
  lemma {:induction false} PermutationNoDup(s: seq<nat>, t: seq<nat>)
    requires multiset(s) == multiset(t) && NoDup(s)
    ensures NoDup(t)
  {
    forall i, j | 0 <= i < j < |t| ensures t[i] != t[j] {
      if t[i] == t[j] {
        assert t == t[..j] + [t[j]] + t[j + 1..];
        assert t[i] in t[..j];
        assert multiset(t)[t[i]] >= 2;
        DistinctCount(s, t[i]);
      }
    }
  }

  /** A duplicate-free list holds each value at most once. */
  lemma {:induction false} DistinctCount(s: seq<nat>, x: nat)
    requires NoDup(s)
    ensures multiset(s)[x] <= 1
  {
    if |s| > 0 {
      var front := s[..|s| - 1];
      assert s == front + [s[|s| - 1]];
      DistinctCount(front, x);
      if s[|s| - 1] == x {
        assert x !in front;
      }
    }
  }

  /** Every entry of a ranked list that falls outside its `[:k]` ranks after each entry inside. */
  lemma PrefixFirst(values: seq<real>, ranked: seq<nat>, k: int)
    requires forall i | 0 <= i < |ranked| :: ranked[i] < |values|
    requires RankedOrder(values, ranked) && NoDup(ranked)
    ensures forall c, x | c in ranked && c !in PyPrefix(ranked, k) && x in PyPrefix(ranked, k) :: Before(values, x, c)
  {
    var r := PyPrefix(ranked, k);
    forall c, x | c in ranked && c !in r && x in r ensures Before(values, x, c) {
      var p :| 0 <= p < |ranked| && ranked[p] == c;
      var a :| 0 <= a < |r| && r[a] == x;
      assert ranked[a] == x;
    }
  }

  /**
   * Top-k mode, for ascending candidates: the result is in ranking order,
   * holds no index twice, draws only on the candidates, has the length of
   * `[:k]`, and every candidate left out ranks after every index kept.
   */
  lemma TopK(values: seq<real>, cands: seq<nat>, k: int)
    requires Candidates(values, cands)
    ensures var r := SelectIndexes(values, cands, "topk", k, -1.0);
            k != -1 ==>
              r.Ok? && RankedOrder(values, r.value) && NoDup(r.value) &&
              |r.value| == |PyPrefix(cands, k)| &&
              (forall x :: x in r.value ==> x in cands) &&
              forall c, x | c in cands && c !in r.value && x in r.value :: Before(values, x, c)
  {
    if k != -1 {
      var ranked := Ranked(values, cands);
      var r := PyPrefix(ranked, k);
      assert SelectIndexes(values, cands, "topk", k, -1.0) == Ok(r);
      RankedIsOrdered(values, cands);
      assert NoDup(cands);
      PermutationNoDup(cands, ranked);
      assert |ranked| == |cands| by {
        assert |multiset(ranked)| == |multiset(cands)|;
      }
      PrefixFirst(values, ranked, k);
      forall c | c in cands ensures c in ranked {
        assert c in multiset(ranked);
      }
    }
  }

  /** Two ascending lists with the same members are the same list. */
  lemma {:induction false} AscendingUnique(r: seq<nat>, t: seq<nat>)
    requires forall a, b | 0 <= a < b < |r| :: r[a] < r[b]
    requires forall a, b | 0 <= a < b < |t| :: t[a] < t[b]
    requires forall x :: x in r <==> x in t
    ensures r == t
  {
    assert |r| > 0 ==> r[0] in t;
    assert |t| > 0 ==> t[0] in r;
    if |r| > 0 && |t| > 0 {
      assert r[0] == t[0];
      forall x ensures x in r[1..] <==> x in t[1..] {
        if x in r[1..] { assert x in r && x != t[0]; }
        if x in t[1..] { assert x in t && x != r[0]; }
      }
      AscendingUnique(r[1..], t[1..]);
      assert r == [r[0]] + r[1..] && t == [t[0]] + t[1..];
    }
  }

  /**
   * The ranking order is strict and total on distinct indexes, so two lists
   * in ranking order with the same members are the same list: the ranking
   * of a set of candidates is determined by the values alone.
   */
  lemma {:induction false} RankedUnique(values: seq<real>, r: seq<nat>, t: seq<nat>)
    requires (forall i | 0 <= i < |r| :: r[i] < |values|) && (forall i | 0 <= i < |t| :: t[i] < |values|)
    requires RankedOrder(values, r) && RankedOrder(values, t)
    requires forall x :: x in r <==> x in t
    ensures r == t
  {
    assert |r| > 0 ==> r[0] in t;
    assert |t| > 0 ==> t[0] in r;
    if |r| > 0 && |t| > 0 {
      var i :| 0 <= i < |r| && r[i] == t[0];
      var j :| 0 <= j < |t| && t[j] == r[0];
      assert r[0] == t[0];
      assert r == [r[0]] + r[1..] && t == [t[0]] + t[1..];
      forall x ensures x in r[1..] <==> x in t[1..] {
        if x in r[1..] {
          var a :| 0 <= a < |r[1..]| && r[1..][a] == x;
          assert Before(values, r[0], r[a + 1]);
          assert x in t && x != t[0];
        }
        if x in t[1..] {
          var a :| 0 <= a < |t[1..]| && t[1..][a] == x;
          assert Before(values, t[0], t[a + 1]);
          assert x in r && x != r[0];
        }
      }
      RankedUnique(values, r[1..], t[1..]);
    }
  }
}
