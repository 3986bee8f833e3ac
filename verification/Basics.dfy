/** Declarations that several modules share. */
module Basics {
  /** NULL, or something. */
  datatype Option<+T> = None | Some(value: T)

  type Octet = x: int | 0 <= x < 256

  function Min(a: nat, b: nat): nat {
    if a < b then a else b
  }

  /** The element at `k`; behind the end there is nothing but `none`. */
  function At<T>(s: seq<T>, k: nat, none: T): T {
    if k < |s| then s[k] else none
  }

  ghost predicate NoDup<T>(list: seq<T>) {
    forall i, j | 0 <= i < j < |list| :: list[i] != list[j]
  }
}
