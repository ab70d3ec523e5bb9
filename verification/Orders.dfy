/** Iteration orders of maps, which the program leaves to the hash map. */
module Orders {
  predicate Distinct(list: seq<string>) {
    forall i, j | 0 <= i < j < |list| :: list[i] != list[j]
  }

  /** `order` lists every key of `m` once. */
  ghost predicate Enumerates<V>(order: seq<string>, m: map<string, V>) {
    (forall k :: k in order <==> k in m) && Distinct(order)
  }
}
