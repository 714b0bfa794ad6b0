/** Orders in which goroutines are listed. */
module Orders {

  /** No goroutine is listed twice. */
  predicate Unrepeated(order: seq<nat>) {
    forall i, j :: 0 <= i < j < |order| ==> order[i] != order[j]
  }
}
