/**
 What several modules use: optional values, lists without repetition, lists
 joined, the limits of machine words, and numbers as bytes.
 */
module Basics {

  const UINT32_LIMIT: int := 0x1_0000_0000
  const UINT64_LIMIT: int := 0x1_0000_0000_0000_0000

  datatype Option<T> = None | Some(value: T)

  predicate NoDup<T(==)>(s: seq<T>) {
    forall i, j :: 0 <= i < j < |s| ==> s[i] != s[j]
  }

  lemma {:induction false} Associate<T>(a: seq<T>, b: seq<T>, c: seq<T>)
    ensures a + (b + c) == (a + b) + c
  {
  }

  /** The byte that stands for a number. */
  function Byte(n: nat): (x: bv8)
    requires n < 0x100
    ensures x as nat == n
  {
    if n == 0 then 0 else
    NextByte(Byte(n - 1));
    Byte(n - 1) + 1
  }

  lemma {:induction false} NextByte(x: bv8)
    requires x != 0xFF
    ensures (x + 1) as nat == x as nat + 1
  {
  }
}
