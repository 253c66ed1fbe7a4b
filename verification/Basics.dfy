/** Small value types shared by the component models. */
module Basics {

  datatype Option<+T> = None | Some(value: T)

  /** Success with a value, or the exception the source raises. */
  datatype Result<+T, +E> = Ok(value: T) | Err(error: E)

  type Byte = b: int | 0 <= b < 256
  type Bytes = seq<Byte>

  function Min(a: int, b: int): int { if a <= b then a else b }

  function Max(a: int, b: int): int { if a <= b then b else a }

  ghost predicate NoDuplicates<T>(s: seq<T>) {
    forall i, j :: 0 <= i < j < |s| ==> s[i] != s[j]
  }

  function ToSet<T>(s: seq<T>): set<T> { set x | x in s }
}
