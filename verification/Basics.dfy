/** Shared value types. */
module Basics {

  datatype Option<+T> = None | Some(value: T)

  datatype Result<+T, +E> = Ok(value: T) | Err(error: E)

  /** An octet. */
  type Byte = x: nat | x < 256

  /** Largest value of the 64-bit unsigned types the service uses. */
  const MAX_WORD: nat := 0xFFFF_FFFF_FFFF_FFFF

  function Min(a: int, b: int): int {
    if a <= b then a else b
  }

  function Max(a: int, b: int): int {
    if a >= b then a else b
  }

  function One(b: bool): (r: nat)
    ensures r < 2
  {
    if b then 1 else 0
  }

  /** Addition that stops at the largest word. */
  function SaturatedAdd(a: nat, b: nat): nat {
    if b > MAX_WORD - a then MAX_WORD else a + b
  }

  predicate NoRepeats<T(==)>(s: seq<T>) {
    forall i, j :: 0 <= i < j < |s| ==> s[i] != s[j]
  }

  lemma Regroup<T>(a: seq<T>, b: seq<T>, c: seq<T>)
    ensures a + (b + c) == a + b + c
  {
  }

  lemma MiddlePart<T>(a: seq<T>, b: seq<T>, c: seq<T>)
    ensures (a + b + c)[|a|..|a| + |b|] == b
  {
  }
}
