/**
 Byte strings compared without regard to the case of ASCII letters, and the
 hash that goes with that comparison.
 */
module Names {

  /** The bytes of a C string, without its terminator. */
  type Name = s: seq<bv8> | forall i :: 0 <= i < |s| ==> s[i] != 0

  function ToLower(c: bv8): bv8 {
    if 0x41 <= c <= 0x5A then c + 0x20 else c
  }

  /** Two strings that differ at most in the case of ASCII letters. */
  predicate SameName(a: seq<bv8>, b: seq<bv8>) {
    |a| == |b| && forall i :: 0 <= i < |a| ==> ToLower(a[i]) == ToLower(b[i])
  }

  lemma {:induction false} SameNameIsEquivalence(a: seq<bv8>, b: seq<bv8>, c: seq<bv8>)
    ensures SameName(a, a)
    ensures SameName(a, b) ==> SameName(b, a)
    ensures SameName(a, b) && SameName(b, c) ==> SameName(a, c)
  {
  }

  predicate IsUpper(c: bv8) {
    0x41 <= c <= 0x5A
  }

  /** Bytes fold to the same one when they are equal or the two cases of one ASCII letter, and only then. */
  lemma {:induction false} CasesOfALetter(a: bv8, b: bv8)
    ensures ToLower(a) == ToLower(b) <==> a == b || (IsUpper(a) && b == a + 0x20) || (IsUpper(b) && a == b + 0x20)
  {
  }

  /** The byte read at index i of a terminated string. */
  function ByteAt(s: Name, i: nat): bv8
    requires i <= |s|
  {
    if i < |s| then s[i] else 0
  }

  method StrCaseCmp(a: Name, b: Name) returns (r: int)
    ensures r == 0 <==> SameName(a, b)
    ensures r != 0 ==> exists i :: 0 <= i <= |a| && i <= |b| && SameName(a[..i], b[..i])
                                   && r == ToLower(ByteAt(a, i)) as int - ToLower(ByteAt(b, i)) as int
  {
    var i := 0;
    while true
      invariant 0 <= i <= |a| && i <= |b|
      invariant forall k :: 0 <= k < i ==> ToLower(a[k]) == ToLower(b[k])
      decreases |a| - i
    {
      var ca := ToLower(ByteAt(a, i));
      var cb := ToLower(ByteAt(b, i));
      LowerKeepsTerminator(ByteAt(a, i), ByteAt(b, i));
      if ca != cb || ca == 0 {
        assert SameName(a[..i], b[..i]);
        return ca as int - cb as int;
      }
      i := i + 1;
    }
  }

  lemma {:induction false} LowerKeepsTerminator(a: bv8, b: bv8)
    ensures ToLower(a) == 0 <==> a == 0
    ensures ToLower(a) as int - ToLower(b) as int == 0 <==> ToLower(a) == ToLower(b)
  {
  }

  // ----- the hash -----

  /** Rotate, then xor in the byte with bit 5 set, which folds letters onto lower case. */
  function Step(h: bv32, c: bv8): bv32 {
    ((h << 5) | (h >> 27)) ^ ((c as bv32) | 0x20)
  }

  function Mix(s: seq<bv8>): bv32 {
    if s == [] then 0
    else Step(Mix(s[..|s| - 1]), s[|s| - 1])
  }

  function Finish(h: bv32): bv32 {
    var g := h ^ (h >> 16);
    g ^ (g >> 8)
  }

  function CaseHash(s: seq<bv8>): bv32 {
    Finish(Mix(s))
  }

  lemma {:induction false} FoldedByte(h: bv32, a: bv8, b: bv8)
    requires ToLower(a) == ToLower(b)
    ensures Step(h, a) == Step(h, b)
  {
  }

  /** Names that compare equal hash equal. */
  lemma {:induction false} SameNameSameHash(a: seq<bv8>, b: seq<bv8>)
    requires SameName(a, b)
    ensures Mix(a) == Mix(b) && CaseHash(a) == CaseHash(b)
  {
    hide Step, ToLower, Finish;
    if a == [] {
    } else {
      var n := |a| - 1;
      SameNameSameHash(a[..n], b[..n]);
      FoldedByte(Mix(a[..n]), a[n], b[n]);
    }
  }

  /** Hash of a terminated string, found with its length in one pass. */
  method StrCaseHash(s: Name) returns (hash: bv32, len: nat)
    ensures hash == CaseHash(s) && len == |s|
  {
    hash, len := 0, 0;
    while ByteAt(s, len) != 0
      invariant 0 <= len <= |s| && hash == Mix(s[..len])
      decreases |s| - len
    {
      assert s[..len + 1][..len] == s[..len];
      hash := Step(hash, s[len]);
      len := len + 1;
    }
    assert s[..len] == s;
    hash := Finish(hash);
  }

  /** Hash of the first len bytes at s, which need no terminator. */
  method StrCaseHashLen(s: seq<bv8>, len: nat) returns (hash: bv32)
    requires len <= |s|
    ensures hash == CaseHash(s[..len])
  {
    hash := 0;
    var i := 0;
    while i < len
      invariant 0 <= i <= len && hash == Mix(s[..i])
    {
      assert s[..i + 1][..i] == s[..i];
      hash := Step(hash, s[i]);
      i := i + 1;
    }
    hash := Finish(hash);
  }
}
