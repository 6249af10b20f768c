/** Where the elements of one sequence stand in another. */
module Sequences {

  lemma Assoc<T>(a: seq<T>, b: seq<T>, c: seq<T>)
    ensures a + (b + c) == a + b + c
  {}

  /** Places in a sequence of length n, in order. */
  ghost predicate Places(idx: seq<nat>, n: nat) {
    (forall k :: 0 <= k < |idx| ==> idx[k] < n) && forall j, k :: 0 <= j < k < |idx| ==> idx[j] < idx[k]
  }

  lemma PlacesMore(idx: seq<nat>, n: nat)
    requires Places(idx, n)
    ensures Places(idx, n + 1) && Places(idx + [n], n + 1) && n !in idx
    ensures forall i :: i in idx + [n] <==> i in idx || i == n
  {}
}
