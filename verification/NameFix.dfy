/**
 Deterministic collision handling for the names of one directory: a name that
 compares equal to an earlier one gets the suffix "~<ordinal>".
 */
module NameFix {
  import opened Names

  const BUCKETS: nat := 64
  const FIRST_ORDINAL: nat := 2
  const ORDINAL_LIMIT: nat := 1000000
  /** Longest suffix, "~999999". */
  const SUFFIX_MAX: nat := 7

  datatype Error = Inval | NoMem | NameTooLong | Overflow
  datatype Outcome = Issued(name: Name) | Failed(error: Error)

  /** One bucket: the names remembered there, the latest first. */
  datatype Chain = End | Link(hash: bv32, name: Name, next: Chain)

  // ----- candidate names -----

  function Digit(d: nat): (c: bv8)
    requires d < 10
    ensures 0x30 <= c <= 0x39
  {
    match d
    case 0 => 0x30 case 1 => 0x31 case 2 => 0x32 case 3 => 0x33 case 4 => 0x34
    case 5 => 0x35 case 6 => 0x36 case 7 => 0x37 case 8 => 0x38 case _ => 0x39
  }

  function Decimal(n: nat): (r: Name)
    ensures r != []
    ensures forall i :: 0 <= i < |r| ==> 0x30 <= r[i] <= 0x39
  {
    if n < 10 then [Digit(n)] else Decimal(n / 10) + [Digit(n % 10)]
  }

  /** "~" and the ordinal. */
  function Suffix(ordinal: nat): (r: Name)
    ensures |r| >= 2
  {
    [0x7E] + Decimal(ordinal)
  }

  /** Bytes of the base name left once suffix and terminator fit the buffer. */
  function Kept(base: Name, ordinal: nat, size: nat): (keep: nat)
    requires |base| < size && |Suffix(ordinal)| < size
    ensures keep <= |base| && keep + |Suffix(ordinal)| < size
  {
    if |base| + |Suffix(ordinal)| >= size then size - |Suffix(ordinal)| - 1 else |base|
  }

  function Candidate(base: Name, ordinal: nat, size: nat): (r: Name)
    requires |base| < size && |Suffix(ordinal)| < size
    ensures |r| < size
  {
    base[..Kept(base, ordinal, size)] + Suffix(ordinal)
  }

  predicate Taken(held: seq<Name>, name: Name) {
    exists i :: 0 <= i < |held| && SameName(held[i], name)
  }

  predicate Distinct(held: seq<Name>) {
    forall i, j :: 0 <= i < j < |held| ==> !SameName(held[i], held[j])
  }

  /** The first ordinal from k on whose candidate is free decides. */
  function FirstFree(held: seq<Name>, base: Name, size: nat, k: nat): Outcome
    requires |base| < size
    decreases ORDINAL_LIMIT - k
  {
    if k >= ORDINAL_LIMIT then Failed(Overflow)
    else if |Suffix(k)| >= size then Failed(NameTooLong)
    else if !Taken(held, Candidate(base, k, size)) then Issued(Candidate(base, k, size))
    else FirstFree(held, base, size, k + 1)
  }

  /** What a name becomes when names held were issued before it. */
  function Settle(held: seq<Name>, name: Name, size: nat): Outcome
    requires size > 0 ==> |name| < size
  {
    if size == 0 then Failed(Inval)
    else if !Taken(held, name) then Issued(name)
    else FirstFree(held, name, size, FIRST_ORDINAL)
  }

  // ----- the collision table -----

  function Bucket(hash: bv32): (b: nat)
    ensures b < BUCKETS
  {
    hash as int % BUCKETS
  }

  function ChainNames(c: Chain): set<Name> {
    match c
    case End => {}
    case Link(_, name, next) => {name} + ChainNames(next)
  }

  predicate ChainOk(c: Chain, b: nat) {
    match c
    case End => true
    case Link(hash, name, next) => hash == CaseHash(name) && Bucket(hash) == b && ChainOk(next, b)
  }

  class State {
    const buckets: array<Chain>
    /** The names issued so far, in order. */
    ghost var held: seq<Name>

    ghost predicate Valid()
      reads this, buckets
    {
      && buckets.Length == BUCKETS
      && (forall b :: 0 <= b < BUCKETS ==> ChainOk(buckets[b], b))
      && (forall n: Name :: n in held <==> n in ChainNames(buckets[Bucket(CaseHash(n))]))
      && Distinct(held)
    }

    constructor ()
      ensures Valid() && held == [] && fresh(buckets)
    {
      buckets := new Chain[BUCKETS](_ => End);
      held := [];
    }

    method Contains(name: Name, hash: bv32) returns (found: bool)
      requires Valid() && hash == CaseHash(name)
      ensures found <==> Taken(held, name)
    {
      var b := Bucket(hash);
      forall i | 0 <= i < |held| && SameName(held[i], name)
        ensures held[i] in ChainNames(buckets[b])
      {
        SameNameSameHash(held[i], name);
        assert held[i] in held;
      }
      var entry := buckets[b];
      while entry.Link?
        invariant ChainOk(entry, b)
        invariant forall n :: n in ChainNames(buckets[b]) && SameName(n, name) ==> n in ChainNames(entry)
        invariant ChainNames(entry) <= ChainNames(buckets[b])
        decreases entry
      {
        if entry.hash == hash {
          var cmp := StrCaseCmp(entry.name, name);
          if cmp == 0 {
            BucketNameIsHeld(entry.name, b);
            return true;
          }
        } else if SameName(entry.name, name) {
          SameNameSameHash(entry.name, name);
        }
        entry := entry.next;
      }
      return false;
    }

    lemma {:induction false} BucketNameIsHeld(name: Name, b: nat)
      requires Valid() && b < BUCKETS && name in ChainNames(buckets[b])
      ensures name in held
    {
      ChainNameHash(buckets[b], b, name);
    }

    method Remember(name: Name, hash: bv32, memory: bool) returns (ok: bool)
      requires Valid() && hash == CaseHash(name) && !Taken(held, name)
      modifies this, buckets
      ensures Valid()
      ensures ok == memory
      ensures held == if ok then old(held) + [name] else old(held)
    {
      if !memory {
        return false;
      }
      var b := Bucket(hash);
      buckets[b] := Link(hash, name, buckets[b]);
      held := held + [name];
      ok := true;
    }

    /** Settle a name and remember it; memory says whether the allocation succeeds. */
    method Apply(name: Name, size: nat, memory: bool) returns (r: Outcome)
      requires Valid() && (size > 0 ==> |name| < size)
      modifies this, buckets
      ensures Valid()
      ensures var s := Settle(old(held), name, size);
              r == if s.Issued? && !memory then Failed(NoMem) else s
      ensures held == if r.Issued? then old(held) + [r.name] else old(held)
    {
      if size == 0 {
        return Failed(Inval);
      }
      var hash, len := StrCaseHash(name);
      var taken := Contains(name, hash);
      if !taken {
        var ok := Remember(name, hash, memory);
        return if ok then Issued(name) else Failed(NoMem);
      }
      var ordinal := FIRST_ORDINAL;
      while ordinal < ORDINAL_LIMIT
        invariant FIRST_ORDINAL <= ordinal <= ORDINAL_LIMIT
        invariant Valid() && held == old(held) && unchanged(this) && unchanged(buckets)
        invariant FirstFree(held, name, size, ordinal) == FirstFree(held, name, size, FIRST_ORDINAL)
      {
        var suffix := BuildSuffix(ordinal);
        if |suffix| >= size {
          return Failed(NameTooLong);
        }
        var keep := |name|;
        if keep + |suffix| >= size {
          keep := size - |suffix| - 1;
        }
        var candidate := name[..keep] + suffix;
        hash, len := StrCaseHash(candidate);
        taken := Contains(candidate, hash);
        if !taken {
          var ok := Remember(candidate, hash, memory);
          return if ok then Issued(candidate) else Failed(NoMem);
        }
        ordinal := ordinal + 1;
      }
      return Failed(Overflow);
    }
  }

  lemma {:induction false} ChainNameHash(c: Chain, b: nat, name: Name)
    requires ChainOk(c, b) && name in ChainNames(c)
    ensures Bucket(CaseHash(name)) == b
  {
    if c.name != name {
      ChainNameHash(c.next, b, name);
    }
  }

  /** The digits of a number, none for zero. */
  function Leading(v: nat): seq<bv8> {
    if v == 0 then [] else Decimal(v)
  }

  lemma {:induction false} LeadingStep(v: nat, n: nat, tail: seq<bv8>)
    requires 0 < v < Power10(n)
    ensures n > 0 && v / 10 < Power10(n - 1)
    ensures Leading(v / 10) + ([Digit(v % 10)] + tail) == Leading(v) + tail
  {
    hide Digit;
  }

  /** The digits of an ordinal, found last first. */
  method Digits(ordinal: nat) returns (digits: seq<bv8>)
    requires FIRST_ORDINAL <= ordinal < ORDINAL_LIMIT
    ensures Reverse(digits) == Decimal(ordinal)
  {
    hide Digit, Decimal, Power10, Reverse, Leading;
    TenDigits(ordinal);
    NothingLeading();
    LeadingStep(ordinal, 10, []);
    digits := [Digit(ordinal % 10)];
    ReverseGrows([], digits[0]);
    assert [] + digits == digits;
    var v: nat := ordinal / 10;
    while v != 0 && |digits| < 10
      invariant 1 <= |digits| <= 10 && v < Power10(10 - |digits|)
      invariant Leading(v) + Reverse(digits) == Decimal(ordinal)
      decreases v
    {
      ReverseGrows(digits, Digit(v % 10));
      LeadingStep(v, 10 - |digits|, Reverse(digits));
      digits := digits + [Digit(v % 10)];
      v := v / 10;
    }
  }

  lemma {:induction false} TenDigits(ordinal: nat)
    requires 0 < ordinal < ORDINAL_LIMIT
    ensures ordinal < Power10(10) && Power10(0) == 1 && Leading(ordinal) == Decimal(ordinal)
  {
    hide Decimal;
    assert ORDINAL_LIMIT == Power10(6) && Power10(6) <= Power10(10);
  }

  lemma {:induction false} NothingLeading()
    ensures Leading(0) == [] && Reverse([]) == []
  {
  }

  method BuildSuffix(ordinal: nat) returns (suffix: Name)
    requires FIRST_ORDINAL <= ordinal < ORDINAL_LIMIT
    ensures suffix == Suffix(ordinal)
  {
    hide Decimal;
    var digits := Digits(ordinal);
    var text: seq<bv8> := [0x7E];
    var nd := |digits|;
    assert digits[..nd] == digits;
    while nd > 0
      invariant 0 <= nd <= |digits|
      invariant text + Reverse(digits[..nd]) == Suffix(ordinal)
    {
      nd := nd - 1;
      assert digits[..nd + 1] == digits[..nd] + [digits[nd]];
      ReverseGrows(digits[..nd], digits[nd]);
      text := text + [digits[nd]];
    }
    assert text + Reverse([]) == text;
    suffix := text;
  }

  function Power10(n: nat): nat {
    if n == 0 then 1 else 10 * Power10(n - 1)
  }

  function Reverse(s: seq<bv8>): seq<bv8> {
    if s == [] then [] else Reverse(s[1..]) + [s[0]]
  }

  lemma {:induction false} ReverseGrows(s: seq<bv8>, c: bv8)
    ensures Reverse(s + [c]) == [c] + Reverse(s)
  {
    if s != [] {
      ReverseGrows(s[1..], c);
      assert (s + [c])[1..] == s[1..] + [c];
    }
  }

  // ----- what settling guarantees -----

  lemma {:induction false} DigitInjective(a: nat, b: nat)
    requires a < 10 && b < 10
    ensures Digit(a) == Digit(b) ==> a == b
  {
  }

  /** A decimal numeral determines its number. */
  lemma {:induction false} DecimalInjective(m: nat, n: nat)
    requires Decimal(m) == Decimal(n)
    ensures m == n
  {
    hide Digit;
    var a, b := Decimal(m), Decimal(n);
    DigitInjective(m % 10, n % 10);
    if m < 10 && n < 10 {
      assert a[0] == b[0];
    } else if m >= 10 && n >= 10 {
      assert a[..|a| - 1] == Decimal(m / 10) && b[..|b| - 1] == Decimal(n / 10);
      assert a[|a| - 1] == Digit(m % 10) && b[|b| - 1] == Digit(n % 10);
      DecimalInjective(m / 10, n / 10);
    }
  }

  /** Folding case moves no byte onto or off a digit or "~". */
  lemma {:induction false} CaselessBytes(a: bv8, b: bv8)
    requires ToLower(a) == ToLower(b)
    ensures a == 0x7E <==> b == 0x7E
    ensures 0x30 <= a <= 0x39 ==> a == b
  {
  }

  lemma {:induction false} CandidateEnd(base: Name, k: nat, size: nat, i: nat)
    requires |base| < size && |Suffix(k)| < size
    requires i < |Suffix(k)|
    ensures var c := Candidate(base, k, size);
            |Suffix(k)| <= |c| && c[|c| - |Suffix(k)| + i] == Suffix(k)[i]
  {
  }

  /** Candidates for different ordinals never coincide, however short the
      buffer and whatever the two base names. */
  lemma {:induction false} CandidatesDiffer(a: Name, b: Name, j: nat, k: nat, size: nat)
    requires |a| < size && |b| < size && |Suffix(j)| < size && |Suffix(k)| < size
    requires SameName(Candidate(a, j, size), Candidate(b, k, size))
    ensures j == k
  {
    if |Suffix(j)| < |Suffix(k)| {
      ShorterSuffixDiffers(a, b, j, k, size);
    } else if |Suffix(k)| < |Suffix(j)| {
      ShorterSuffixDiffers(b, a, k, j, size);
    } else {
      forall i | 0 <= i < |Decimal(j)|
        ensures Decimal(j)[i] == Decimal(k)[i]
      {
        CandidateEnd(a, j, size, i + 1);
        CandidateEnd(b, k, size, i + 1);
        CaselessBytes(Decimal(j)[i], Decimal(k)[i]);
      }
      assert Decimal(j) == Decimal(k);
      DecimalInjective(j, k);
    }
  }

  /** The "~" of the shorter suffix faces a digit of the longer one. */
  lemma {:induction false} ShorterSuffixDiffers(a: Name, b: Name, j: nat, k: nat, size: nat)
    requires |a| < size && |b| < size && |Suffix(j)| < |Suffix(k)| < size
    ensures !SameName(Candidate(a, j, size), Candidate(b, k, size))
  {
    var x, y := Candidate(a, j, size), Candidate(b, k, size);
    if |x| == |y| {
      var i := |Suffix(k)| - |Suffix(j)|;
      CandidateEnd(a, j, size, 0);
      CandidateEnd(b, k, size, i);
      assert y[|x| - |Suffix(j)|] == Decimal(k)[i - 1];
      if ToLower(x[|x| - |Suffix(j)|]) == ToLower(y[|x| - |Suffix(j)|]) {
        CaselessBytes(x[|x| - |Suffix(j)|], y[|x| - |Suffix(j)|]);
      }
    }
  }

  /** The search issues the least free ordinal, and fails only when every
      ordinal before the failure is taken. */
  lemma {:induction false} FirstFreeIsLeast(held: seq<Name>, base: Name, size: nat, k: nat)
    returns (n: nat)
    requires |base| < size && k <= ORDINAL_LIMIT
    ensures k <= n <= ORDINAL_LIMIT
    ensures forall j :: k <= j < n ==> |Suffix(j)| < size && Taken(held, Candidate(base, j, size))
    ensures var r := FirstFree(held, base, size, k);
            match r
            case Issued(name) => n < ORDINAL_LIMIT && |Suffix(n)| < size
                                 && name == Candidate(base, n, size) && !Taken(held, name)
            case Failed(NameTooLong) => n < ORDINAL_LIMIT && |Suffix(n)| >= size
            case Failed(e) => e == Overflow && n == ORDINAL_LIMIT
    decreases ORDINAL_LIMIT - k
  {
    hide Suffix, Candidate, Taken;
    n := k;
    if k < ORDINAL_LIMIT && |Suffix(k)| < size && Taken(held, Candidate(base, k, size)) {
      n := FirstFreeIsLeast(held, base, size, k + 1);
    }
  }

  // ----- candidates, read back -----

  predicate IsDigit(c: bv8) {
    0x30 <= c <= 0x39
  }

  /** A numeral without leading zeros. */
  predicate IsNumeral(digits: Name) {
    digits != [] && digits[0] != 0x30 && forall i :: 0 <= i < |digits| ==> IsDigit(digits[i])
  }

  /** The number a numeral stands for, in base ten. */
  function Value(digits: Name): nat
    requires forall i :: 0 <= i < |digits| ==> IsDigit(digits[i])
  {
    if digits == [] then 0 else
    DigitAtLeast(digits[|digits| - 1]);
    Value(digits[..|digits| - 1]) * 10 + (digits[|digits| - 1] as nat - 0x30)
  }

  lemma {:induction false} DigitAtLeast(c: bv8)
    requires IsDigit(c)
    ensures 0x30 <= c as nat <= 0x39
  {
  }

  /** A name is the base name, as much of it as fits, a tilde and a number: all
      of the base name, or so much that the buffer is full. */
  ghost predicate IsNumbered(base: Name, n: nat, size: nat, name: Name, m: nat) {
    && m <= |base| && m < |name| < size && (m == |base| || |name| + 1 == size)
    && name[..m] == base[..m] && name[m] == 0x7E
    && IsNumeral(name[m + 1..]) && Value(name[m + 1..]) == n
  }

  lemma {:induction false} DigitValue(d: nat)
    requires d < 10
    ensures IsDigit(Digit(d)) && Digit(d) as nat == 0x30 + d
    ensures d > 0 ==> Digit(d) != 0x30
  {
  }

  lemma {:induction false} DecimalValue(n: nat)
    requires n > 0
    ensures IsNumeral(Decimal(n)) && Value(Decimal(n)) == n
  {
    hide Digit;
    DigitValue(n % 10);
    if n < 10 {
      assert [Digit(n)][..0] == [];
    } else {
      DecimalValue(n / 10);
      var front := Decimal(n / 10);
      assert (front + [Digit(n % 10)])[..|front|] == front;
    }
  }

  lemma {:induction false} DigitOf(c: bv8)
    requires IsDigit(c)
    ensures 0x30 <= c as nat <= 0x39 && Digit(c as nat - 0x30) == c
  {
    var d := c as nat - 0x30;
    DigitValue(d);
    SameByte(Digit(d), c);
  }

  lemma {:induction false} SameByte(a: bv8, b: bv8)
    requires a as nat == b as nat
    ensures a == b
  {
  }

  /** A numeral is the decimal of the number it stands for. */
  lemma {:induction false} NumeralIsDecimal(digits: Name)
    requires IsNumeral(digits)
    ensures Value(digits) > 0 && Decimal(Value(digits)) == digits
    decreases |digits|
  {
    hide Digit, IsDigit;
    var last := |digits| - 1;
    var front, c := digits[..last], digits[last];
    DigitOf(c);
    if last == 0 {
      assert front == [] && Value(front) == 0;
      assert c != 0x30;
      SameByte0(c);
      assert digits == [c];
    } else {
      assert front[0] == digits[0];
      NumeralIsDecimal(front);
      assert digits == front + [c];
      assert Value(digits) / 10 == Value(front) && Value(digits) % 10 == c as nat - 0x30;
    }
  }

  lemma {:induction false} SameByte0(c: bv8)
    requires c != 0x30
    ensures c as nat != 0x30
  {
  }

  /** The candidate for an ordinal is the only numbered name there is, and there is none when its suffix does not fit. */
  lemma {:induction false} CandidateIsNumbered(base: Name, n: nat, size: nat, name: Name)
    requires |base| < size && n > 0
    ensures (exists m :: IsNumbered(base, n, size, name, m)) <==> |Suffix(n)| < size && name == Candidate(base, n, size)
  {
    hide Decimal, Value, IsNumeral;
    DecimalValue(n);
    if |Suffix(n)| < size && name == Candidate(base, n, size) {
      var m := Kept(base, n, size);
      assert name[m + 1..] == Decimal(n);
      assert IsNumbered(base, n, size, name, m);
    }
    if m: nat :| IsNumbered(base, n, size, name, m) {
      NumeralIsDecimal(name[m + 1..]);
      assert name == name[..m] + [name[m]] + name[m + 1..];
      assert name[m..] == Suffix(n);
    }
  }

  /** What settling comes to: an unclaimed name is unchanged; a claimed one is
      numbered with the least number from 2 on that makes it new, and fits its
      buffer; it cannot be had when that number is too long or too great. */
  lemma {:induction false} SettledIsNew(held: seq<Name>, name: Name, size: nat)
    requires size > 0 && |name| < size
    ensures var r := Settle(held, name, size);
            && (!Taken(held, name) ==> r == Issued(name))
            && (r.Issued? ==> |r.name| < size && !Taken(held, r.name))
    ensures Taken(held, name) ==>
              exists n: nat {:trigger LeastFree(held, name, size, n)} :: FIRST_ORDINAL <= n <= ORDINAL_LIMIT && LeastFree(held, name, size, n)
                && match Settle(held, name, size)
                   case Issued(x) => n < ORDINAL_LIMIT && exists m :: IsNumbered(name, n, size, x, m)
                   case Failed(NameTooLong) => n < ORDINAL_LIMIT && forall x: Name, m: nat :: !IsNumbered(name, n, size, x, m)
                   case Failed(e) => e == Overflow && n == ORDINAL_LIMIT
  {
    hide Candidate, Suffix, IsNumbered;
    if Taken(held, name) {
      var n := FirstFreeIsLeast(held, name, size, FIRST_ORDINAL);
      forall j: nat, x: Name, m: nat | FIRST_ORDINAL <= j < n && IsNumbered(name, j, size, x, m)
        ensures Taken(held, x)
      {
        CandidateIsNumbered(name, j, size, x);
      }
      assert LeastFree(held, name, size, n);
      if |Suffix(n)| < size {
        CandidateIsNumbered(name, n, size, Candidate(name, n, size));
      } else {
        forall x: Name, m: nat
          ensures !IsNumbered(name, n, size, x, m)
        {
          CandidateIsNumbered(name, n, size, x);
        }
      }
    }
  }

  /** Every name numbered with less than n is taken. */
  ghost predicate LeastFree(held: seq<Name>, name: Name, size: nat, n: nat) {
    forall j: nat, x: Name, m: nat :: FIRST_ORDINAL <= j < n && IsNumbered(name, j, size, x, m) ==> Taken(held, x)
  }

  // ----- it cannot run out of ordinals early -----

  lemma {:induction false} SuffixLength(n: nat, digits: nat)
    requires n < Power10(digits) && digits > 0
    ensures |Decimal(n)| <= digits
  {
    if n >= 10 {
      assert n / 10 < Power10(digits - 1);
      SuffixLength(n / 10, digits - 1);
    }
  }

  lemma {:induction false} EveryOrdinalFits(n: nat)
    requires n < ORDINAL_LIMIT
    ensures |Suffix(n)| <= SUFFIX_MAX
  {
    assert ORDINAL_LIMIT == Power10(6);
    SuffixLength(n, 6);
  }

  /** Held names can block at most one ordinal each. */
  lemma {:induction false} BlockedOrdinals(held: seq<Name>, base: Name, size: nat, ordinals: set<nat>)
    requires |base| < size
    requires forall k :: k in ordinals ==> |Suffix(k)| < size && Taken(held, Candidate(base, k, size))
    ensures |ordinals| <= |held|
  {
    if held == [] {
      assert ordinals == {};
    } else {
      var last := |held| - 1;
      var rest := set k | k in ordinals && Taken(held[..last], Candidate(base, k, size));
      var blocked := ordinals - rest;
      forall j, k | j in blocked && k in blocked
        ensures j == k
      {
        OnlyLastBlocks(held, Candidate(base, j, size));
        OnlyLastBlocks(held, Candidate(base, k, size));
        SameNameIsEquivalence(held[last], Candidate(base, j, size), Candidate(base, k, size));
        SameNameIsEquivalence(Candidate(base, j, size), held[last], Candidate(base, k, size));
        CandidatesDiffer(base, base, j, k, size);
      }
      AtMostOne(blocked);
      BlockedOrdinals(held[..last], base, size, rest);
      assert ordinals == rest + blocked;
    }
  }

  lemma {:induction false} TakenGrows(held: seq<Name>, name: Name, n: Name)
    ensures Taken(held + [name], n) <==> Taken(held, n) || SameName(name, n)
  {
    var more := held + [name];
    assert more[|held|] == name;
    assert forall i :: 0 <= i < |held| ==> more[i] == held[i];
  }

  lemma {:induction false} OnlyLastBlocks(held: seq<Name>, name: Name)
    requires held != [] && Taken(held, name) && !Taken(held[..|held| - 1], name)
    ensures SameName(held[|held| - 1], name)
  {
    var last := |held| - 1;
    TakenGrows(held[..last], held[last], name);
    assert held[..last] + [held[last]] == held;
  }

  lemma {:induction false} AtMostOne(s: set<nat>)
    requires forall j, k :: j in s && k in s ==> j == k
    ensures |s| <= 1
  {
    if s != {} {
      var k :| k in s;
      assert s == {k};
    }
  }

  function Ordinals(limit: nat): (s: set<nat>)
    ensures forall k :: k in s <==> FIRST_ORDINAL <= k < limit
    ensures limit >= FIRST_ORDINAL ==> |s| == limit - FIRST_ORDINAL
  {
    if limit <= FIRST_ORDINAL then {} else Ordinals(limit - 1) + {limit - 1}
  }

  /** With room for the longest suffix, settling fails for no directory that
      holds fewer names than there are ordinals. */
  lemma {:induction false} SettlingSucceeds(held: seq<Name>, name: Name, size: nat)
    requires |name| < size && SUFFIX_MAX < size
    requires |held| < ORDINAL_LIMIT - FIRST_ORDINAL
    ensures Settle(held, name, size).Issued?
  {
    if Taken(held, name) {
      var n := FirstFreeIsLeast(held, name, size, FIRST_ORDINAL);
      if n < ORDINAL_LIMIT {
        EveryOrdinalFits(n);
      } else {
        BlockedOrdinals(held, name, size, Ordinals(ORDINAL_LIMIT));
      }
    }
  }

  // ----- whole directories -----

  datatype Request = Request(name: Name, size: nat, memory: bool)

  predicate WellFormed(q: Request) {
    q.size > 0 ==> |q.name| < q.size
  }

  /** Outcomes of a sequence of requests, starting with names already held. */
  function Run(held: seq<Name>, requests: seq<Request>): (r: seq<Outcome>)
    requires forall i :: 0 <= i < |requests| ==> WellFormed(requests[i])
    ensures |r| == |requests|
    decreases |requests|
  {
    if requests == [] then []
    else
      var q := requests[0];
      assert WellFormed(q);
      var s := Settle(held, q.name, q.size);
      var o := if s.Issued? && !q.memory then Failed(NoMem) else s;
      [o] + Run(if o.Issued? then held + [o.name] else held, requests[1..])
  }

  /** Whatever is asked and whenever memory runs out, the names issued for a
      directory differ from each other and from those held, and fit. */
  lemma {:induction false} IssuedNamesDiffer(held: seq<Name>, requests: seq<Request>)
    requires forall i :: 0 <= i < |requests| ==> WellFormed(requests[i])
    requires Distinct(held)
    decreases |requests|
    ensures var r := Run(held, requests);
            && (forall i :: 0 <= i < |r| && r[i].Issued? ==> |r[i].name| < requests[i].size && !Taken(held, r[i].name))
            && (forall i, j :: 0 <= i < j < |r| && r[i].Issued? && r[j].Issued? ==> !SameName(r[i].name, r[j].name))
  {
    if requests == [] {
    } else {
      var q := requests[0];
      var r := Run(held, requests);
      if q.size > 0 {
        SettledIsNew(held, q.name, q.size);
      }
      if r[0].Issued? {
        var held' := held + [r[0].name];
        IssuedNamesDiffer(held', requests[1..]);
        forall n: Name {
          TakenGrows(held, r[0].name, n);
        }
      } else {
        IssuedNamesDiffer(held, requests[1..]);
      }
    }
  }
}
