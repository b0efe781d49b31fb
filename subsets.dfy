/**
 * Dimension subsets as the lattice stores them: a subset of {0..D-1} is the
 * strictly ascending tuple of its members (the order `itertools.combinations`
 * produces from an ascending tuple).  This module holds the combinatorics the
 * lattice construction and the pruning walk rely on.
 */
module Subsets {
  import opened Wrappers

  /** Strictly ascending: the canonical tuple of a set of dimensions. */
  predicate Ascending(s: seq<nat>) {
    forall i, j :: 0 <= i < j < |s| ==> s[i] < s[j]
  }

  /** Every dimension of `s` is one of 0..d-1. */
  predicate Below(s: seq<nat>, d: nat) {
    forall i :: 0 <= i < |s| ==> s[i] < d
  }

  /** A lattice key for dimensionality d: a non-empty canonical subset of {0..d-1}. */
  predicate IsKey(d: nat, s: seq<nat>) {
    |s| >= 1 && Ascending(s) && Below(s, d)
  }

  /** Every member of `small` is a member of `big` (subset, read on tuples). */
  predicate Contains(big: seq<nat>, small: seq<nat>) {
    forall x :: x in small ==> x in big
  }

  /** `p` is an immediate superset of `k`: one more dimension. */
  predicate IsParentKey(d: nat, p: seq<nat>, k: seq<nat>) {
    IsKey(d, p) && |p| == |k| + 1 && Contains(p, k)
  }

  /** `c` is an immediate subset of `k`: one dimension fewer. */
  predicate IsChildKey(d: nat, c: seq<nat>, k: seq<nat>) {
    IsKey(d, c) && |c| + 1 == |k| && Contains(k, c)
  }

  /** `tuple(range(n))`. */
  function Range(n: nat): (r: seq<nat>)
    ensures |r| == n
    ensures forall i :: 0 <= i < n ==> r[i] == i
  {
    if n == 0 then [] else Range(n - 1) + [n - 1]
  }

  /** `s` with the element at position i removed. */
  function RemoveAt(s: seq<nat>, i: nat): seq<nat>
    requires i < |s|
  {
    s[..i] + s[i + 1..]
  }

  /**
   * `itertools.combinations(p, len(p) - 1)`: in lexicographic order these are
   * p without its last element, then without the one before, ..., then
   * without its first element.
   */
  function ChildCombinations(p: seq<nat>): seq<seq<nat>>
  {
    seq(|p|, i requires 0 <= i < |p| => RemoveAt(p, |p| - 1 - i))
  }

  // ---------------------------------------------------------------------
  // Facts about removal and ascending tuples
  // ---------------------------------------------------------------------

  lemma RemoveAtIndex(s: seq<nat>, i: nat, j: nat)
    requires i < |s| && j < |s| - 1
    ensures RemoveAt(s, i)[j] == if j < i then s[j] else s[j + 1]
  {
  }

  /** Removing one element of a key keeps it canonical and makes it a subset of the key. */
  lemma RemoveAtIsChild(d: nat, p: seq<nat>, i: nat)
    requires IsKey(d, p) && |p| >= 2 && i < |p|
    ensures IsChildKey(d, RemoveAt(p, i), p)
  {
    var c := RemoveAt(p, i);
    forall a, b | 0 <= a < b < |c| ensures c[a] < c[b] {
      RemoveAtIndex(p, i, a);
      RemoveAtIndex(p, i, b);
    }
    forall a | 0 <= a < |c| ensures c[a] < d && c[a] in p {
      RemoveAtIndex(p, i, a);
    }
  }

  /** Every listed child combination of a key is an immediate subset of it. */
  lemma ChildCombinationsAreChildren(d: nat, p: seq<nat>)
    requires IsKey(d, p) && |p| >= 2
    ensures forall c :: c in ChildCombinations(p) ==> IsChildKey(d, c, p)
  {
    forall c | c in ChildCombinations(p) ensures IsChildKey(d, c, p) {
      var i :| 0 <= i < |p| && c == ChildCombinations(p)[i];
      RemoveAtIsChild(d, p, |p| - 1 - i);
    }
  }

  lemma AscendingTail(s: seq<nat>)
    requires Ascending(s) && |s| > 0
    ensures Ascending(s[1..])
  {
  }

  /** Two ascending tuples of equal length, one inside the other, are equal. */
  lemma {:induction false} AscendingContainedEqual(a: seq<nat>, b: seq<nat>)
    requires Ascending(a) && Ascending(b) && |a| == |b| && Contains(b, a)
    ensures a == b
  {
    if |a| > 0 {
      // a[0] is some b[j]; b[0] is no smaller
      assert a[0] in b;
      var j :| 0 <= j < |b| && b[j] == a[0];
      if b[0] != a[0] {
        // b[0] < a[0], yet every element of a sits at some position of b;
        // count: a has |b| elements, all in b[1..] ... derive a contradiction
        assert j > 0;
        // the elements of a are all >= a[0] > b[0], so all lie in b[1..]
        assert Contains(b[1..], a) by {
          forall k | 0 <= k < |a| ensures a[k] in b[1..] {
            assert a[k] >= a[0];
            assert a[k] in b;
            var m :| 0 <= m < |b| && b[m] == a[k];
            assert m != 0;
            assert b[1..][m - 1] == a[k];
          }
        }
        PigeonAscending(a, b[1..]);
        assert false;
      }
      AscendingTail(a);
      AscendingTail(b);
      assert Contains(b[1..], a[1..]) by {
        forall k | 1 <= k < |a| ensures a[k] in b[1..] {
          assert a[k] > a[0];
          assert a[k] in b;
          var m :| 0 <= m < |b| && b[m] == a[k];
          assert m != 0;
          assert b[1..][m - 1] == a[k];
        }
        assert forall x :: x in a[1..] ==> exists k :: 1 <= k < |a| && a[k] == x;
      }
      AscendingContainedEqual(a[1..], b[1..]);
      assert a == [a[0]] + a[1..] && b == [b[0]] + b[1..];
    }
  }

  /** An ascending tuple cannot fit inside a shorter ascending tuple. */
  lemma {:induction false} PigeonAscending(a: seq<nat>, b: seq<nat>)
    requires Ascending(a) && Ascending(b) && Contains(b, a)
    ensures |a| <= |b|
  {
    if |a| > 0 {
      assert a[|a| - 1] in b;
      var front := a[..|a| - 1];
      var last := a[|a| - 1];
      var m :| 0 <= m < |b| && b[m] == last;
      // every element of front is < last, so it lies in b[..m]
      assert Contains(b[..m], front) by {
        forall k | 0 <= k < |front| ensures front[k] in b[..m] {
          assert a[k] < a[|a| - 1];
          assert a[k] in b;
          var t :| 0 <= t < |b| && b[t] == a[k];
          assert t < m;
          assert b[..m][t] == a[k];
        }
      }
      PigeonAscending(front, b[..m]);
    }
  }

  /** An immediate subset of an ascending tuple is that tuple with one element removed. */
  lemma {:induction false} ChildIsRemoval(c: seq<nat>, p: seq<nat>) returns (i: nat)
    requires Ascending(c) && Ascending(p) && |p| == |c| + 1 && Contains(p, c)
    ensures i < |p| && c == RemoveAt(p, i)
  {
    if |c| == 0 {
      i := 0;
    } else if c[0] == p[0] {
      AscendingTail(c);
      AscendingTail(p);
      SameHeadTails(c, p);
      var t := ChildIsRemoval(c[1..], p[1..]);
      i := t + 1;
      assert c == [c[0]] + c[1..];
      assert RemoveAt(p, i) == [p[0]] + RemoveAt(p[1..], t);
    } else {
      i := 0;
      AscendingTail(p);
      HeadMissing(c, p);
      AscendingContainedEqual(c, p[1..]);
    }
  }

  /** Ascending tuples with the same head, one inside the other: so are their tails. */
  lemma SameHeadTails(c: seq<nat>, p: seq<nat>)
    requires Ascending(c) && Ascending(p) && |c| > 0 && |p| > 0 && c[0] == p[0] && Contains(p, c)
    ensures Contains(p[1..], c[1..])
  {
    forall x | x in c[1..] ensures x in p[1..] {
      var k :| 1 <= k < |c| && c[k] == x;
      assert c[k] > c[0];
      assert c[k] in p;
      var m :| 0 <= m < |p| && p[m] == c[k];
      assert m != 0;
      assert p[1..][m - 1] == c[k];
    }
  }

  /** If the head of p is not the head of c, p's head is below all of c, which then lies in p's tail. */
  lemma HeadMissing(c: seq<nat>, p: seq<nat>)
    requires Ascending(c) && Ascending(p) && |c| > 0 && |p| > 0 && c[0] != p[0] && Contains(p, c)
    ensures Contains(p[1..], c)
  {
    assert c[0] in p;
    assert c[0] > p[0];
    forall x | x in c ensures x in p[1..] {
      var k :| 0 <= k < |c| && c[k] == x;
      assert c[k] >= c[0];
      assert c[k] in p;
      var m :| 0 <= m < |p| && p[m] == c[k];
      assert m != 0;
      assert p[1..][m - 1] == c[k];
    }
  }

  /** Every immediate subset of a key is one of its listed child combinations. */
  lemma ChildInCombinations(d: nat, c: seq<nat>, p: seq<nat>)
    requires IsKey(d, p) && IsChildKey(d, c, p)
    ensures c in ChildCombinations(p)
  {
    var i := ChildIsRemoval(c, p);
    assert ChildCombinations(p)[|p| - 1 - i] == c;
  }

  /** The elements of an ascending tuple of naturals grow at least as fast as their positions. */
  /** As a set, the child combinations of a key are exactly its immediate subsets. */
  lemma ChildCombinationsExact(d: nat, q: seq<nat>)
    requires IsKey(d, q) && |q| >= 2
    ensures forall c :: c in ChildCombinations(q) <==> IsChildKey(d, c, q)
  {
    ChildCombinationsAreChildren(d, q);
    forall c | IsChildKey(d, c, q) ensures c in ChildCombinations(q) {
      ChildInCombinations(d, c, q);
    }
  }

  /** The child combinations of a key are pairwise distinct. */
  lemma ChildCombinationsDistinct(q: seq<nat>)
    requires Ascending(q)
    ensures NoDup(ChildCombinations(q))
  {
    forall i, j | 0 <= i < j < |q| ensures ChildCombinations(q)[i] != ChildCombinations(q)[j] {
      var a, b := |q| - 1 - j, |q| - 1 - i;
      RemoveAtIndex(q, a, a);
      RemoveAtIndex(q, b, a);
      assert RemoveAt(q, a)[a] != RemoveAt(q, b)[a];
    }
  }

  lemma {:induction false} AscendingAtLeastIndex(s: seq<nat>, i: nat)
    requires Ascending(s) && i < |s|
    ensures s[i] >= i
  {
    if i > 0 {
      AscendingAtLeastIndex(s, i - 1);
    }
  }

  /** A key has at most d dimensions. */
  lemma KeyLengthBound(d: nat, k: seq<nat>)
    requires IsKey(d, k)
    ensures |k| <= d
  {
    AscendingAtLeastIndex(k, |k| - 1);
  }

  /** The only key with all d dimensions is the root (0, ..., d-1). */
  lemma FullKeyIsRange(d: nat, k: seq<nat>)
    requires IsKey(d, k) && |k| == d
    ensures k == Range(d)
  {
    assert Contains(Range(d), k) by {
      forall i | 0 <= i < |k| ensures k[i] in Range(d) {
        assert Range(d)[k[i]] == k[i];
      }
    }
    AscendingContainedEqual(k, Range(d));
  }

  /** (0, ..., m-1) is a key for every 1 <= m <= d. */
  lemma RangeIsKey(d: nat, m: nat)
    requires 1 <= m <= d
    ensures IsKey(d, Range(m)) && |Range(m)| == m
  {
  }

  /** Inserting a missing dimension into a key, at its sorted position. */
  function Insert(s: seq<nat>, x: nat): seq<nat>
  {
    if |s| == 0 then [x]
    else if x < s[0] then [x] + s
    else [s[0]] + Insert(s[1..], x)
  }

  lemma {:induction false} InsertFacts(s: seq<nat>, x: nat)
    requires Ascending(s) && x !in s
    ensures |Insert(s, x)| == |s| + 1
    ensures Ascending(Insert(s, x))
    ensures forall y :: y in Insert(s, x) <==> y in s || y == x
  {
    if |s| > 0 && x >= s[0] {
      AscendingTail(s);
      InsertFacts(s[1..], x);
      var t := Insert(s[1..], x);
      assert Insert(s, x) == [s[0]] + t;
      forall i | 0 < i < |t| + 1 ensures s[0] < ([s[0]] + t)[i] {
        assert t[i - 1] in t;
      }
      assert s == [s[0]] + s[1..];
    }
  }

  /** A dimension below d missing from a key with fewer than d dimensions. */
  lemma {:induction false} MissingDimension(d: nat, k: seq<nat>) returns (x: nat)
    requires Ascending(k) && Below(k, d) && |k| < d
    ensures x < d && x !in k
  {
    if |k| == 0 {
      x := 0;
    } else if k[|k| - 1] == |k| - 1 {
      // k is exactly 0..|k|-1, so |k| itself is missing
      x := |k|;
      forall i | 0 <= i < |k| ensures k[i] != x {
        assert k[i] <= k[|k| - 1];
      }
    } else {
      var front := k[..|k| - 1];
      AscendingAtLeastIndex(k, |k| - 1);
      x := MissingDimension(k[|k| - 1], front);
      assert front[..] == front;
      assert x != k[|k| - 1];
      assert k == front + [k[|k| - 1]];
    }
  }

  /** Every key below the root has an immediate superset in the lattice. */
  lemma HasParent(d: nat, k: seq<nat>) returns (p: seq<nat>)
    requires IsKey(d, k) && |k| < d
    ensures IsParentKey(d, p, k)
  {
    var x := MissingDimension(d, k);
    p := Insert(k, x);
    InsertFacts(k, x);
    forall i | 0 <= i < |p| ensures p[i] < d {
      assert p[i] in p;
    }
  }

  /** The subset relation on keys restricted to an immediate step, read on ChildCombinations. */
  lemma ParentChildInverse(d: nat, p: seq<nat>, c: seq<nat>)
    requires IsKey(d, p) && IsKey(d, c)
    ensures IsParentKey(d, p, c) <==> IsChildKey(d, c, p)
  {
  }

  // ---------------------------------------------------------------------
  // Counting: there are 2^d canonical subsets of {0..d-1}, 2^d - 1 of them non-empty
  // ---------------------------------------------------------------------

  function Pow2(n: nat): (r: nat)
    ensures r >= 1
  {
    if n == 0 then 1 else 2 * Pow2(n - 1)
  }

  /** All ascending tuples over 0..d-1 (the empty one included). */
  function AscendingBelow(d: nat): set<seq<nat>>
  {
    if d == 0 then {[]}
    else AscendingBelow(d - 1) + Extend(AscendingBelow(d - 1), d - 1)
  }

  /** Appends x to every tuple of `a`. */
  function Extend(a: set<seq<nat>>, x: nat): set<seq<nat>>
  {
    set s | s in a :: s + [x]
  }

  /** All lattice keys for dimensionality d. */
  function AllKeys(d: nat): set<seq<nat>>
  {
    AscendingBelow(d) - {[]}
  }

  lemma {:induction false} AscendingBelowMembers(d: nat, s: seq<nat>)
    ensures s in AscendingBelow(d) <==> Ascending(s) && Below(s, d)
  {
    if s in AscendingBelow(d) {
      AscendingBelowSound(d, s);
    }
    if Ascending(s) && Below(s, d) {
      AscendingBelowComplete(d, s);
    }
  }

  /** Every tuple of AscendingBelow(d) is ascending over 0..d-1. */
  lemma {:induction false} AscendingBelowSound(d: nat, s: seq<nat>)
    requires s in AscendingBelow(d)
    ensures Ascending(s) && Below(s, d)
  {
    if d > 0 {
      if s in AscendingBelow(d - 1) {
        AscendingBelowSound(d - 1, s);
      } else {
        ExtendedEndsWith(AscendingBelow(d - 1), d - 1, s);
        var front := s[..|s| - 1];
        AscendingBelowSound(d - 1, front);
        AppendTop(d, front);
        assert s == front + [d - 1];
      }
    }
  }

  /** An ascending tuple over 0..d-2 followed by d-1 is ascending over 0..d-1. */
  lemma AppendTop(d: nat, t: seq<nat>)
    requires d > 0 && Ascending(t) && Below(t, d - 1)
    ensures Ascending(t + [d - 1]) && Below(t + [d - 1], d)
  {
    var s := t + [d - 1];
    forall i, j | 0 <= i < j < |s| ensures s[i] < s[j] {
      if j < |t| {
        assert s[i] == t[i] && s[j] == t[j];
      } else {
        assert s[i] == t[i];
      }
    }
  }

  /** No dimension is below 0, so only the empty tuple is over 0..-1. */
  lemma BelowNothing(s: seq<nat>)
    ensures Below(s, 0) ==> s == []
  {
    if |s| > 0 {
      assert s[0] >= 0;
    }
  }

  /** Every ascending tuple over 0..d-1 is in AscendingBelow(d). */
  lemma {:induction false} AscendingBelowComplete(d: nat, s: seq<nat>)
    requires Ascending(s) && Below(s, d)
    ensures s in AscendingBelow(d)
  {
    if d == 0 {
      BelowNothing(s);
    } else if Below(s, d - 1) {
      AscendingBelowComplete(d - 1, s);
    } else {
      TopIsLast(d, s);
      var front := s[..|s| - 1];
      AscendingBelowComplete(d - 1, front);
      assert front + [d - 1] in Extend(AscendingBelow(d - 1), d - 1);
    }
  }

  /** A tuple of Extend(a, x) is a member of `a` followed by x. */
  lemma ExtendedEndsWith(a: set<seq<nat>>, x: nat, s: seq<nat>)
    requires s in Extend(a, x)
    ensures |s| > 0 && s[|s| - 1] == x && s[..|s| - 1] in a
  {
    var t :| t in a && s == t + [x];
    assert s[..|s| - 1] == t;
  }

  /** An ascending tuple over 0..d-1 that reaches d-1 ends with it, after a tuple over 0..d-2. */
  lemma TopIsLast(d: nat, s: seq<nat>)
    requires d > 0 && Ascending(s) && Below(s, d) && !Below(s, d - 1)
    ensures |s| > 0 && s == s[..|s| - 1] + [d - 1]
    ensures Ascending(s[..|s| - 1]) && Below(s[..|s| - 1], d - 1)
  {
    var i :| 0 <= i < |s| && s[i] >= d - 1;
    assert s[i] <= s[|s| - 1];
    var front := s[..|s| - 1];
    assert s == front + [d - 1];
    forall j | 0 <= j < |front| ensures front[j] < d - 1 {
      assert s[j] < s[|s| - 1];
    }
  }

  lemma {:induction false} ExtendSize(a: set<seq<nat>>, x: nat)
    ensures |Extend(a, x)| == |a|
    decreases |a|
  {
    if a != {} {
      var s :| s in a;
      var rest := a - {s};
      ExtendSize(rest, x);
      assert Extend(a, x) == Extend(rest, x) + {s + [x]};
      assert s + [x] !in Extend(rest, x) by {
        forall t | t in rest ensures t + [x] != s + [x] {
          assert t != s;
          if |t| == |s| {
            var i :| 0 <= i < |t| && t[i] != s[i];
            assert (t + [x])[i] != (s + [x])[i];
          }
        }
      }
    } else {
      assert Extend(a, x) == {};
    }
  }

  lemma {:induction false} AscendingBelowSize(d: nat)
    ensures |AscendingBelow(d)| == Pow2(d)
  {
    if d > 0 {
      AscendingBelowSize(d - 1);
      AscendingBelowDoubles(d);
    }
  }

  /** Going from d-1 to d dimensions doubles the ascending tuples: each is kept, and kept with d-1 appended. */
  lemma AscendingBelowDoubles(d: nat)
    requires d > 0
    ensures |AscendingBelow(d)| == 2 * |AscendingBelow(d - 1)|
  {
    var a := AscendingBelow(d - 1);
    ExtendSize(a, d - 1);
    ExtendDisjoint(d, a);
    DisjointUnionSize(a, Extend(a, d - 1));
  }

  /** Two disjoint sets have as many members together as apart. */
  lemma DisjointUnionSize(a: set<seq<nat>>, b: set<seq<nat>>)
    requires a * b == {}
    ensures |a + b| == |a| + |b|
  {
  }

  /** The tuples ending with d-1 are none of the tuples over 0..d-2. */
  lemma ExtendDisjoint(d: nat, a: set<seq<nat>>)
    requires d > 0 && a == AscendingBelow(d - 1)
    ensures a * Extend(a, d - 1) == {}
  {
    forall s | s in Extend(a, d - 1) ensures s !in a {
      ExtendedEndsWith(a, d - 1, s);
      AscendingBelowMembers(d - 1, s);
      assert !Below(s, d - 1);
    }
  }

  /** The lattice for dimensionality d has 2^d - 1 keys. */
  lemma AllKeysSize(d: nat)
    ensures |AllKeys(d)| == Pow2(d) - 1
  {
    AscendingBelowSize(d);
    AscendingBelowMembers(d, []);
  }

  lemma AllKeysMembers(d: nat, s: seq<nat>)
    ensures s in AllKeys(d) <==> IsKey(d, s)
  {
    AscendingBelowMembers(d, s);
  }
}
