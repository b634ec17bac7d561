/** Result types shared by the model. */
module Wrappers {
  datatype Option<+T> = None | Some(value: T)

  datatype Result<+T, +E> = Ok(value: T) | Err(error: E)

  /** Every key once, in the order a map or a directory happens to be ranged over. */
  ghost predicate Lists<V>(order: seq<string>, entries: map<string, V>) {
    && (forall k :: k in order <==> k in entries)
    && (forall i, j :: 0 <= i < j < |order| ==> order[i] != order[j])
  }
}
