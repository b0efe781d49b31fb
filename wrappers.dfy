/**
 * Error results and the pieces of Python indexing semantics the model relies on.
 */
module Wrappers {

  datatype Option<T> = None | Some(value: T)

  /** The exceptions the modelled Python code raises. */
  datatype Failure =
    | KeyError          // a dict lookup of a missing key
    | IndexError        // a list index outside -len..len-1
    | ValueError        // `max` of an empty collection
    | ZeroDivisionError
    | WrongPruneType    // 'Wrong prune type provided'
    | InvalidMetric     // 'Invalid metric type provided'
    | WrongParameters   // 'Insufficient / wrong parameters for finding pattern indexes'

  datatype Result<T> = Ok(value: T) | Err(error: Failure)

  /**
   * The position that Python's `s[i]` reads in a list of length n: negative
   * indexes count from the end; anything outside -n..n-1 is an IndexError.
   */
  function PyIndex(i: int, n: nat): (r: Option<nat>)
    ensures r.Some? <==> -(n as int) <= i < n
  {
    if 0 <= i < n then Some(i)
    else if -(n as int) <= i < 0 then Some((i + n) as nat)
    else None
  }

  /** `s[-1]` reads the last element: right after an append, the element just appended. */
  lemma PyIndexLast<T>(s: seq<T>, x: T)
    ensures PyIndex(-1, |s + [x]|) == Some(|s|)
    ensures (s + [x])[PyIndex(-1, |s + [x]|).value] == x
  {
  }

  /**
   * A negative index reads where its sum with the length reads, so each
   * position p of a list of length n is read by exactly p and p - n.
   */
  lemma PyIndexFromEnd(i: int, n: nat)
    requires -(n as int) <= i < 0
    ensures PyIndex(i, n) == PyIndex(i + n, n)
    ensures forall j | -(n as int) <= j < n :: PyIndex(j, n) == PyIndex(i, n) <==> j == i || j == i + n
  {
  }

  /** Python's `s[:k]`: a negative k drops that many elements from the end. */
  function PyPrefix<T>(s: seq<T>, k: int): (r: seq<T>)
    ensures |r| == (if k >= 0 then (if k < |s| then k else |s|)
                    else (if |s| + k > 0 then |s| + k else 0))
    ensures r <= s
  {
    if k >= 0 then (if k < |s| then s[..k] else s)
    else (if |s| + k > 0 then s[..|s| + k] else [])
  }

  /**
   * numpy's `np.array(s)[indexes]` with a list of integer indexes: each index
   * reads as `s[i]` does, and any index outside -len..len-1 is an IndexError.
   */
  function PyGather<T>(s: seq<T>, indexes: seq<int>): (r: Result<seq<T>>)
    ensures r.Err? <==> exists i | 0 <= i < |indexes| :: PyIndex(indexes[i], |s|).None?
    ensures r.Err? ==> r.error == IndexError
    ensures r.Ok? ==> |r.value| == |indexes| &&
                      forall i | 0 <= i < |indexes| :: r.value[i] == s[PyIndex(indexes[i], |s|).value]
  {
    if |indexes| == 0 then Ok([])
    else
      var front := PyGather(s, indexes[..|indexes| - 1]);
      var p := PyIndex(indexes[|indexes| - 1], |s|);
      if front.Err? then front
      else if p.None? then Err(IndexError)
      else Ok(front.value + [s[p.value]])
  }

  /** No element occurs twice. */
  predicate NoDup<T(==)>(s: seq<T>) {
    forall i, j :: 0 <= i < j < |s| ==> s[i] != s[j]
  }

  /** A sequence without members is empty. */
  lemma NothingIn<T>(s: seq<T>)
    requires forall x :: x !in s
    ensures s == []
  {
    forall x ensures multiset(s)[x] == 0 {
      assert x !in s;
    }
    assert multiset(s) == multiset{};
  }

  /** A duplicate-free sequence drawn from a finite set is no longer than the set. */
  lemma {:induction false} NoDupBound<T>(s: seq<T>, a: set<T>)
    requires NoDup(s) && forall x :: x in s ==> x in a
    ensures |s| <= |a|
  {
    if |s| > 0 {
      var last := s[|s| - 1];
      var front := s[..|s| - 1];
      assert forall i :: 0 <= i < |front| ==> front[i] != last;
      assert forall x :: x in front ==> x in a - {last};
      NoDupBound(front, a - {last});
    }
  }
}
