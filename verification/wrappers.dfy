/** Datatypes, a predicate and a fact about products shared by the other modules. */
module Wrappers {
  datatype Option<+T> = None | Some(value: T)

  datatype Result<+T, +E> = Ok(value: T) | Err(error: E)

  /** No element twice. */
  ghost predicate Distinct<T(!new)>(s: seq<T>) {
    forall i, j :: 0 <= i < j < |s| ==> s[i] != s[j]
  }

  lemma {:induction false} MulBound(e: int, k: nat)
    ensures e >= 1 ==> e * k >= k
    ensures e <= -1 ==> e * k <= -(k as int)
  {
  }
}
