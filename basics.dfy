/** Option and Result, used for the nullable fields and the error answers of the team controller. */
module Basics {

  /** A value that may be absent (`undefined` / `null` in the source). */
  datatype Option<+T> = None | Some(value: T)

  /** Either a value or the error the controller answers with. */
  datatype Result<+T, +E> = Ok(value: T) | Err(error: E)

  /** Strictly increasing: a list of positions in their original order, each once. */
  predicate Increasing(s: seq<nat>) {
    forall i, j :: 0 <= i < j < |s| ==> s[i] < s[j]
  }
}
