/** Lists of pairs, searched from the front by their first component. */
module Pairs {
  /** The position of the first pair under `k`, or the length of the list. */
  function FindKey<K(==), V>(list: seq<(K, V)>, k: K): (i: nat)
    ensures i <= |list|
    ensures i < |list| ==> list[i].0 == k
    ensures forall j | 0 <= j < i :: list[j].0 != k
  {
    if list == [] || list[0].0 == k then 0 else 1 + FindKey(list[1..], k)
  }
}
