/** Small building blocks shared by the scheduler and the co-occurrence builder. */
module Basics {

  datatype Option<T> = None | Some(value: T)

  datatype Result<T, E> = Success(value: T) | Failure(error: E)

  /** No element occurs twice. */
  ghost predicate Distinct<T>(s: seq<T>) {
    forall i, j :: 0 <= i < j < |s| ==> s[i] != s[j]
  }

  /** A set of naturals all below `n` has at most `n` elements. */
  lemma {:induction false} CardBound(s: set<nat>, n: nat)
    requires forall v :: v in s ==> v < n
    ensures |s| <= n
  {
    if n > 0 {
      var rest := s - {n - 1};
      CardBound(rest, n - 1);
      assert s <= rest + {n - 1};
    } else {
      assert s == {};
    }
  }
}
