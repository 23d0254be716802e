/** What several modules need of values in general. */
module Helpers {

  datatype Option<T> = None | Some(value: T)

  ghost predicate Distinct<T>(items: seq<T>) {
    forall i, j :: 0 <= i < j < |items| ==> items[i] != items[j]
  }
}
