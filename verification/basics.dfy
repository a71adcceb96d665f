/** Small failure-carrying datatypes and a sequence predicate shared by the model. */
module Basics {

  /** A value that may be absent, as Python's `None`. */
  datatype Option<+T> = None | Some(value: T)

  /** The outcome of an operation that can raise. */
  datatype Result<+T, +E> = Success(value: T) | Failure(error: E)

  /** No element of `s` occurs twice. */
  predicate Distinct<T(==)>(s: seq<T>)
  {
    forall i, j :: 0 <= i < j < |s| ==> s[i] != s[j]
  }

  /** A sequence without repeats is as long as the set of its elements. */
  lemma {:induction false} DistinctCard<T>(s: seq<T>, elems: set<T>)
    requires Distinct(s)
    requires forall x :: x in elems <==> x in s
    ensures |elems| == |s|
    decreases |s|
  {
    if |s| > 0 {
      var last := s[|s| - 1];
      var init := s[..|s| - 1];
      assert forall x :: x in elems - {last} <==> x in init by {
        forall x
          ensures x in elems - {last} <==> x in init
        {
          if x in s && x != last {
            var i :| 0 <= i < |s| && s[i] == x;
            assert init[i] == x;
          }
        }
      }
      DistinctCard(init, elems - {last});
    }
  }
}
