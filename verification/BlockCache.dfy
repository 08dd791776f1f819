/**
 The block cache itself: one array of entries threaded by hash chains, by a
 doubly linked list in order of use, and by a free list that reuses its links.
 */
module BlockCache {
  import opened Basics
  import opened BlockDevice
  import opened CacheModel

  /** One entry, with the buffer it owns. */
  datatype Entry = Entry(lba: Lba, age: int, lruPrev: int, lruNext: int, valid: bool, data: Bytes)

  predicate IsPowerOfTwo(n: nat) {
    n == 1 || (n > 0 && n % 2 == 0 && IsPowerOfTwo(n / 2))
  }

  function Unused(sectorSize: nat): (e: Entry)
    ensures !e.valid && |e.data| == sectorSize
  {
    Entry(0, 0, -1, -1, false, seq(sectorSize, _ => 0))
  }

  /** Element k of a list of entries, or -1 past either end. */
  function At(l: seq<nat>, k: int): int {
    if 0 <= k < |l| then l[k] else -1
  }

  predicate InRange(l: seq<nat>, n: nat) {
    forall k :: 0 <= k < |l| ==> l[k] < n
  }

  ghost predicate LruLinked(es: seq<Entry>, l: seq<nat>, head: int, tail: int) {
    && InRange(l, |es|) && NoDup(l)
    && head == At(l, 0) && tail == At(l, |l| - 1)
    && (forall k {:trigger es[l[k]]} :: 0 <= k < |l| ==> es[l[k]].lruPrev == At(l, k - 1))
    && (forall k {:trigger es[l[k]]} :: 0 <= k < |l| ==> es[l[k]].lruNext == At(l, k + 1))
  }

  ghost predicate FreeLinked(es: seq<Entry>, l: seq<nat>, head: int) {
    && InRange(l, |es|) && NoDup(l)
    && head == At(l, 0)
    && (forall k {:trigger es[l[k]]} :: 0 <= k < |l| ==> es[l[k]].lruNext == At(l, k + 1))
  }

  ghost predicate ChainLinked(next: seq<int>, l: seq<nat>, head: int) {
    && InRange(l, |next|) && NoDup(l)
    && head == At(l, 0)
    && (forall k {:trigger next[l[k]]} :: 0 <= k < |l| ==> next[l[k]] == At(l, k + 1))
  }

  function Hash(lba: Lba, buckets: nat): nat
    requires buckets > 0
  {
    lba % buckets
  }

  /** The chain of every bucket holds exactly the valid entries that hash
      there, but for entry hole when it is one. */
  ghost predicate Filed(es: seq<Entry>, chains: seq<seq<nat>>, hole: int)
    requires |chains| > 0
  {
    && (forall b: nat, x: nat {:trigger x in chains[b]} :: b < |chains| && x in chains[b] ==>
          x != hole && x < |es| && es[x].valid && Hash(es[x].lba, |chains|) == b)
    && (forall x: nat :: x < |es| && es[x].valid && x != hole ==> x in chains[Hash(es[x].lba, |chains|)])
  }

  ghost predicate Indexed(es: seq<Entry>, buckets: seq<int>, next: seq<int>, chains: seq<seq<nat>>, hole: int) {
    && |chains| == |buckets| > 0 && |next| == |es|
    && (forall b :: 0 <= b < |chains| ==> ChainLinked(next, chains[b], buckets[b]))
    && Filed(es, chains, hole)
  }

  /** Entry x is now in front of chain b; nothing else changed. */
  ghost predicate PutInFront(before: seq<seq<nat>>, after: seq<seq<nat>>, b: nat, x: nat) {
    b < |before| && after == before[b := [x] + before[b]]
  }

  /** Entry x is out of chain b, wherever it stood; nothing else changed. */
  ghost predicate TakenOut(before: seq<seq<nat>>, after: seq<seq<nat>>, b: nat, x: nat) {
    b < |before| && exists k :: 0 <= k < |before[b]| && before[b][k] == x && after == before[b := Without(before[b], k)]
  }

  function Lines(es: seq<Entry>, stamps: seq<nat>, l: seq<nat>): (r: seq<Line>)
    requires InRange(l, |es|) && InRange(l, |stamps|)
    ensures |r| == |l|
  {
    if l == [] then [] else [LineOf(es, stamps, l[0])] + Lines(es, stamps, l[1..])
  }

  /** What entry x caches. */
  function LineOf(es: seq<Entry>, stamps: seq<nat>, x: nat): Line
    requires x < |es| && x < |stamps|
  {
    Line(x, es[x].lba, stamps[x], es[x].data)
  }

  lemma {:induction false} LinesConcat(es: seq<Entry>, stamps: seq<nat>, a: seq<nat>, b: seq<nat>)
    requires InRange(a, |es|) && InRange(a, |stamps|) && InRange(b, |es|) && InRange(b, |stamps|)
    ensures InRange(a + b, |es|) && InRange(a + b, |stamps|)
    ensures Lines(es, stamps, a + b) == Lines(es, stamps, a) + Lines(es, stamps, b)
  {
    if a == [] {
      assert a + b == b;
    } else {
      LinesConcat(es, stamps, a[1..], b);
      assert (a + b)[1..] == a[1..] + b;
    }
  }

  /** Lines depend only on the entries listed. */
  lemma {:induction false} LinesFrame(es: seq<Entry>, stamps: seq<nat>, after: seq<Entry>, stamps': seq<nat>, l: seq<nat>)
    requires InRange(l, |es|) && InRange(l, |stamps|) && |after| == |es| && |stamps'| == |stamps|
    requires forall x :: x in l ==> LineOf(after, stamps', x) == LineOf(es, stamps, x)
    ensures Lines(after, stamps', l) == Lines(es, stamps, l)
  {
    if l != [] {
      assert l[0] in l;
      LinesFrame(es, stamps, after, stamps', l[1..]);
    }
  }

  lemma {:induction false} LinesSplit(es: seq<Entry>, stamps: seq<nat>, l: seq<nat>, k: nat)
    requires InRange(l, |es|) && InRange(l, |stamps|) && k < |l|
    ensures Lines(es, stamps, l) == Lines(es, stamps, l[..k]) + [LineOf(es, stamps, l[k])] + Lines(es, stamps, l[k + 1..])
  {
    assert l == l[..k] + ([l[k]] + l[k + 1..]);
    LinesConcat(es, stamps, l[..k], [l[k]] + l[k + 1..]);
    LinesConcat(es, stamps, [l[k]], l[k + 1..]);
  }

  lemma {:induction false} LinesOne(es: seq<Entry>, stamps: seq<nat>, x: nat)
    requires x < |es| && x < |stamps|
    ensures Lines(es, stamps, [x]) == [LineOf(es, stamps, x)]
  {
  }

  /** Every entry is in exactly one list, the valid ones in the list of use. */
  ghost predicate Partitioned(es: seq<Entry>, lru: seq<nat>, free: seq<nat>) {
    && |lru| + |free| == |es|
    && (forall i: nat :: i < |es| ==> (es[i].valid <==> i in lru) && (!es[i].valid <==> i in free))
  }

  /** All three threadings of the entries at once. */
  ghost predicate Threaded(es: seq<Entry>, buckets: seq<int>, next: seq<int>, chains: seq<seq<nat>>,
                           lru: seq<nat>, lruHead: int, lruTail: int, free: seq<nat>, freeHead: int) {
    && LruLinked(es, lru, lruHead, lruTail)
    && FreeLinked(es, free, freeHead)
    && Indexed(es, buckets, next, chains, -1)
    && Partitioned(es, lru, free)
  }

  /** The 32-bit ages are the times of last use, and every buffer is one sector. */
  ghost predicate Stamped(es: seq<Entry>, stamps: seq<nat>, sectorSize: nat) {
    && |stamps| == |es|
    && (forall i: nat :: i < |es| && es[i].valid ==> es[i].age == stamps[i] % GENERATION_LIMIT)
    && (forall i: nat :: i < |es| ==> |es[i].data| == sectorSize)
  }

  /** Two entries that differ at most in their list links. */
  predicate SameContents(x: Entry, y: Entry) {
    y == x.(lruPrev := y.lruPrev, lruNext := y.lruNext)
  }

  lemma {:induction false} EmptyInv(a: State)
    requires a.lines == [] && a.free == seq(|a.free|, i => i) && a.free != []
    ensures Inv(a)
  {
  }

  lemma {:induction false} AllFree(es: seq<Entry>, free: seq<nat>)
    requires es != [] && free == seq(|es|, i => i)
    requires forall i :: 0 <= i < |es| ==> !es[i].valid && es[i].lruNext == if i + 1 < |es| then i + 1 else -1
    ensures Partitioned(es, [], free) && FreeLinked(es, free, 0)
  {
    forall i: nat | i < |es|
      ensures i in free
    {
      assert free[i] == i;
    }
  }

  lemma {:induction false} EmptyIndexed(es: seq<Entry>, buckets: seq<int>, next: seq<int>, chains: seq<seq<nat>>)
    requires |chains| == |buckets| > 0 && |next| == |es| && forall i :: 0 <= i < |es| ==> !es[i].valid
    requires forall b :: 0 <= b < |chains| ==> chains[b] == [] && buckets[b] == -1
    ensures Indexed(es, buckets, next, chains, -1)
  {
  }

  function Without(l: seq<nat>, k: nat): (m: seq<nat>)
    requires k < |l|
    ensures |m| == |l| - 1
  {
    l[..k] + l[k + 1..]
  }

  lemma {:induction false} WithoutAt(l: seq<nat>, k: nat, j: int)
    requires k < |l| && j >= -1
    ensures At(Without(l, k), j) == if j < k then At(l, j) else At(l, j + 1)
  {
  }

  lemma {:induction false} WithoutKeeps(l: seq<nat>, k: nat, n: nat)
    requires k < |l| && InRange(l, n) && NoDup(l)
    ensures var m := Without(l, k);
            && InRange(m, n) && NoDup(m) && l[k] !in m
            && (forall x :: x in l && x != l[k] ==> x in m) && (forall x :: x in m ==> x in l)
  {
    var m := Without(l, k);
    assert forall j :: 0 <= j < |m| ==> m[j] == l[if j < k then j else j + 1];
    forall x | x in l && x != l[k]
      ensures x in m
    {
      var i :| 0 <= i < |l| && l[i] == x;
      assert m[if i < k then i else i - 1] == x;
    }
  }

  /** Joining the neighbours of element k takes it out of the list. */
  lemma {:induction false} UnlinkLinks(es: seq<Entry>, after: seq<Entry>, l: seq<nat>, k: nat, head: int, tail: int)
    requires LruLinked(es, l, head, tail) && k < |l| && |after| == |es|
    requires k + 1 < |l| ==> after[l[k + 1]].lruPrev == At(l, k - 1)
    requires k > 0 ==> after[l[k - 1]].lruNext == At(l, k + 1)
    requires forall j {:trigger after[l[j]]} :: 0 <= j < |l| && j != k && j != k + 1 ==> after[l[j]].lruPrev == es[l[j]].lruPrev
    requires forall j {:trigger after[l[j]]} :: 0 <= j < |l| && j != k && j != k - 1 ==> after[l[j]].lruNext == es[l[j]].lruNext
    ensures LruLinked(after, Without(l, k), if k == 0 then At(l, 1) else head, if k + 1 == |l| then At(l, k - 1) else tail)
  {
    var m := Without(l, k);
    WithoutKeeps(l, k, |es|);
    hide NoDup, Without;
    WithoutAt(l, k, 0);
    WithoutAt(l, k, |m| - 1);
    forall j {:trigger after[m[j]]} | 0 <= j < |m|
      ensures after[m[j]].lruPrev == At(m, j - 1) && after[m[j]].lruNext == At(m, j + 1)
    {
      WithoutAt(l, k, j - 1);
      WithoutAt(l, k, j);
      WithoutAt(l, k, j + 1);
    }
  }

  lemma {:induction false} UnlinkChain(next: seq<int>, after: seq<int>, l: seq<nat>, k: nat, head: int)
    requires ChainLinked(next, l, head) && k < |l| && |after| == |next|
    requires k > 0 ==> after[l[k - 1]] == At(l, k + 1)
    requires forall j {:trigger after[l[j]]} :: 0 <= j < |l| && j != k && j != k - 1 ==> after[l[j]] == next[l[j]]
    ensures ChainLinked(after, Without(l, k), if k == 0 then At(l, 1) else head)
  {
    var m := Without(l, k);
    WithoutKeeps(l, k, |next|);
    hide NoDup, Without;
    WithoutAt(l, k, 0);
    forall j {:trigger after[m[j]]} | 0 <= j < |m|
      ensures after[m[j]] == At(m, j + 1)
    {
      WithoutAt(l, k, j);
      WithoutAt(l, k, j + 1);
    }
  }

  /** A chain is untouched when none of its links is. */
  lemma {:induction false} ChainFrame(next: seq<int>, after: seq<int>, l: seq<nat>, head: int)
    requires ChainLinked(next, l, head) && |after| == |next|
    requires forall x :: x in l ==> x < |next| && after[x] == next[x]
    ensures ChainLinked(after, l, head)
  {
  }

  /** The links after taking element p out of a chain. */
  function CutLinks(next: seq<int>, l: seq<nat>, p: nat): seq<int>
    requires p < |l| && InRange(l, |next|)
  {
    (if p == 0 then next else next[l[p - 1] := At(l, p + 1)])[l[p] := -1]
  }

  lemma {:induction false} CutChain(next: seq<int>, l: seq<nat>, p: nat, head: int)
    requires ChainLinked(next, l, head) && p < |l|
    ensures ChainLinked(CutLinks(next, l, p), Without(l, p), if p == 0 then At(l, 1) else head)
  {
    UnlinkChain(next, CutLinks(next, l, p), l, p, head);
  }

  lemma {:induction false} FiledOut(es: seq<Entry>, chains: seq<seq<nat>>, b: nat, p: nat)
    requires |chains| > 0 && Filed(es, chains, -1) && b < |chains| && p < |chains[b]| && NoDup(chains[b])
    ensures Filed(es, chains[b := Without(chains[b], p)], chains[b][p])
  {
    assert forall k :: 0 <= k < |chains[b]| ==> chains[b][k] in chains[b];
    WithoutKeeps(chains[b], p, |es|);
    hide NoDup, Without;
  }

  lemma {:induction false} FiledIn(es: seq<Entry>, chains: seq<seq<nat>>, idx: nat)
    requires |chains| > 0 && idx < |es| && es[idx].valid && Filed(es, chains, idx)
    ensures var b := Hash(es[idx].lba, |chains|);
            Filed(es, chains[b := [idx] + chains[b]], -1)
  {
  }

  /** Entry p of chain b leaves it; the other chains do not reach it. */
  lemma {:induction false} RemoveIndexed(es: seq<Entry>, buckets: seq<int>, next: seq<int>, chains: seq<seq<nat>>, b: nat, p: nat)
    requires Indexed(es, buckets, next, chains, -1) && b < |chains| && p < |chains[b]|
    ensures Indexed(es, if p == 0 then buckets[b := At(chains[b], 1)] else buckets, CutLinks(next, chains[b], p),
                    chains[b := Without(chains[b], p)], chains[b][p])
  {
    var l := chains[b];
    var after := CutLinks(next, l, p);
    assert ChainLinked(next, l, buckets[b]);
    CutChain(next, l, p, buckets[b]);
    FiledOut(es, chains, b, p);
    hide NoDup, Without, At;
    forall c | 0 <= c < |chains| && c != b
      ensures ChainLinked(after, chains[c], buckets[c])
    {
      assert l[p] in l && (p > 0 ==> l[p - 1] in l);
      ChainFrame(next, after, chains[c], buckets[c]);
    }
  }

  /** Entry idx goes to the front of its chain. */
  lemma {:induction false} InsertIndexed(es: seq<Entry>, buckets: seq<int>, next: seq<int>, chains: seq<seq<nat>>, idx: nat)
    requires Indexed(es, buckets, next, chains, idx) && idx < |es| && es[idx].valid
    ensures var b := Hash(es[idx].lba, |chains|);
            Indexed(es, buckets[b := idx], next[idx := buckets[b]], chains[b := [idx] + chains[b]], -1)
  {
    var b := Hash(es[idx].lba, |chains|);
    var after := next[idx := buckets[b]];
    FiledIn(es, chains, idx);
    forall c | 0 <= c < |chains|
      ensures ChainLinked(after, chains[c], buckets[c]) && idx !in chains[c]
    {
      assert forall k :: 0 <= k < |chains[c]| ==> chains[c][k] in chains[c];
      ChainFrame(next, after, chains[c], buckets[c]);
    }
    PushChain(after, chains[b], buckets[b], idx);
  }

  lemma {:induction false} PushChain(next: seq<int>, l: seq<nat>, head: int, idx: nat)
    requires ChainLinked(next, l, head) && idx < |next| && idx !in l && next[idx] == head
    ensures ChainLinked(next, [idx] + l, idx)
  {
  }

  /** Filing looks at validity and address only. */
  lemma {:induction false} FiledFrame(es: seq<Entry>, after: seq<Entry>, chains: seq<seq<nat>>, hole: int)
    requires |chains| > 0 && Filed(es, chains, hole) && |after| == |es|
    requires forall i :: 0 <= i < |es| && i != hole ==> after[i].valid == es[i].valid && after[i].lba == es[i].lba
    ensures Filed(after, chains, hole)
  {
  }

  lemma {:induction false} FreeFrame(es: seq<Entry>, after: seq<Entry>, free: seq<nat>, head: int)
    requires FreeLinked(es, free, head) && |after| == |es|
    requires forall i: nat :: i < |es| && i in free ==> after[i] == es[i]
    ensures FreeLinked(after, free, head)
  {
    assert forall k :: 0 <= k < |free| ==> free[k] in free;
  }

  /** The list after element k is moved to the front. */
  function ToFront(l: seq<nat>, k: nat): seq<nat>
    requires k < |l|
  {
    [l[k]] + Without(l, k)
  }

  lemma {:induction false} ToFrontMembers(l: seq<nat>, k: nat)
    requires k < |l| && NoDup(l)
    ensures forall x :: x in ToFront(l, k) <==> x in l
    ensures |ToFront(l, k)| == |l|
    ensures l[k] !in Without(l, k)
    ensures k == 0 ==> ToFront(l, k) == l
  {
    forall x | x in l
      ensures x in ToFront(l, k)
    {
      var i :| 0 <= i < |l| && l[i] == x;
      assert ToFront(l, k)[if i == k then 0 else if i < k then i + 1 else i] == x;
    }
  }

  lemma {:induction false} ToFrontIs(l: seq<nat>, k: nat)
    requires k < |l|
    ensures ToFront(l, k) == [l[k]] + Without(l, k)
  {
  }

  lemma {:induction false} HeadIsFirst(l: seq<nat>, k: nat)
    requires NoDup(l) && k < |l|
    ensures l[0] == l[k] ==> k == 0
  {
  }

  lemma {:induction false} TouchShape(a: State, k: nat)
    requires k < |a.lines|
    ensures Touch(a, k) == a.(lines := Touch(a, k).lines) && |Touch(a, k).lines| == |a.lines|
  {
  }

  /** Moving an entry to the front and stamping it is a touch of its line. */
  lemma {:induction false} LinesTouched(es: seq<Entry>, after: seq<Entry>, stamps: seq<nat>, a: State, l: seq<nat>, k: nat)
    requires |after| == |es| == |stamps| && InRange(l, |es|) && NoDup(l) && k < |l|
    requires a.lines == Lines(es, stamps, l)
    requires forall i :: 0 <= i < |es| ==> after[i].lba == es[i].lba && after[i].data == es[i].data
    ensures InRange(ToFront(l, k), |es|)
    ensures Lines(after, stamps[l[k] := a.clock], ToFront(l, k)) == Touch(a, k).lines
  {
    var x, pre, post, stamps' := l[k], l[..k], l[k + 1..], stamps[l[k] := a.clock];
    assert x !in pre && x !in post;
    hide NoDup, Lines;
    LinesFrame(es, stamps, after, stamps', pre);
    LinesFrame(es, stamps, after, stamps', post);
    hide LineOf;
    LinesSplit(es, stamps, l, k);
    LinesOne(after, stamps', x);
    LinesConcat(after, stamps', pre, post);
    LinesConcat(after, stamps', [x], pre + post);
    TouchSplit(a, Lines(es, stamps, pre), a.lines[k], Lines(es, stamps, post));
    assert LineOf(after, stamps', x) == LineOf(es, stamps, x).(stamp := a.clock);
  }

  lemma {:induction false} TouchSplit(a: State, pre: seq<Line>, x: Line, post: seq<Line>)
    requires a.lines == pre + [x] + post
    ensures Touch(a, |pre|).lines == [x.(stamp := a.clock)] + (pre + post)
  {
  }


  lemma {:induction false} AgeFrame(es: seq<Entry>, after: seq<Entry>, l: seq<nat>, head: int, tail: int)
    requires LruLinked(es, l, head, tail) && |after| == |es|
    requires forall i :: 0 <= i < |es| ==> after[i].lruPrev == es[i].lruPrev && after[i].lruNext == es[i].lruNext
    ensures LruLinked(after, l, head, tail)
  {
  }

  /** What the threadings say of the list of use without its links. */
  lemma {:induction false} ThreadedShape(es: seq<Entry>, buckets: seq<int>, next: seq<int>, chains: seq<seq<nat>>,
                                         l: seq<nat>, head: int, tail: int, free: seq<nat>, freeHead: int)
    requires Threaded(es, buckets, next, chains, l, head, tail, free, freeHead)
    ensures InRange(l, |es|) && NoDup(l) && head == At(l, 0) && tail == At(l, |l| - 1) && freeHead == At(free, 0)
    ensures InRange(free, |es|) && NoDup(free) && |l| + |free| == |es|
    ensures forall i: nat :: i < |es| ==> (es[i].valid <==> i in l) && (!es[i].valid <==> i in free)
  {
  }

  /** The threadings survive moving entry l[k] to the front and restamping it. */
  lemma {:induction false} UseThreaded(es: seq<Entry>, after: seq<Entry>, buckets: seq<int>, next: seq<int>,
                                       chains: seq<seq<nat>>, l: seq<nat>, k: nat, lruHead: int, lruTail: int,
                                       lruHead': int, lruTail': int, free: seq<nat>, freeHead: int)
    requires Threaded(es, buckets, next, chains, l, lruHead, lruTail, free, freeHead) && k < |l| && |after| == |es|
    requires LruLinked(after, ToFront(l, k), lruHead', lruTail')
    requires forall i :: 0 <= i < |es| ==> after[i].valid == es[i].valid && after[i].lba == es[i].lba
    requires forall i: nat :: i < |es| && i !in l ==> after[i] == es[i]
    ensures Threaded(after, buckets, next, chains, ToFront(l, k), lruHead', lruTail', free, freeHead)
  {
    ToFrontMembers(l, k);
    hide ToFront, NoDup;
    FiledFrame(es, after, chains, -1);
    FreeFrame(es, after, free, freeHead);
  }

  /** The threadings while entry hole is in none of them. */
  ghost predicate Holed(es: seq<Entry>, buckets: seq<int>, next: seq<int>, chains: seq<seq<nat>>,
                        lru: seq<nat>, lruHead: int, lruTail: int, free: seq<nat>, freeHead: int, hole: nat) {
    && LruLinked(es, lru, lruHead, lruTail)
    && FreeLinked(es, free, freeHead)
    && Indexed(es, buckets, next, chains, hole)
    && hole < |es| && hole !in lru && hole !in free
    && |lru| + |free| + 1 == |es|
    && (forall i: nat :: i < |es| && i != hole ==> (es[i].valid <==> i in lru) && (!es[i].valid <==> i in free))
  }

  /** Taking the tail out of the list of use leaves a hole there. */
  lemma {:induction false} HoleAtTail(es: seq<Entry>, after: seq<Entry>, buckets: seq<int>, next: seq<int>,
                                      chains: seq<seq<nat>>, l: seq<nat>, head: int, tail: int, free: seq<nat>, freeHead: int)
    requires l != [] && InRange(l, |es|) && NoDup(l) && |after| == |es|
    requires FreeLinked(es, free, freeHead) && Partitioned(es, l, free)
    requires Indexed(es, buckets, next, chains, l[|l| - 1])
    requires LruLinked(after, Without(l, |l| - 1), head, tail)
    requires forall i :: 0 <= i < |es| ==> SameContents(es[i], after[i])
    requires forall i: nat :: i < |es| && i !in l ==> after[i] == es[i]
    ensures Without(l, |l| - 1) == l[..|l| - 1]
    ensures Holed(after, buckets, next, chains, l[..|l| - 1], head, tail, free, freeHead, l[|l| - 1])
  {
    var hole := l[|l| - 1];
    WithoutKeeps(l, |l| - 1, |es|);
    FiledFrame(es, after, chains, hole);
    FreeFrame(es, after, free, freeHead);
    assert Without(l, |l| - 1) == l[..|l| - 1];
    assert hole in l;
  }

  /** Popping a free entry leaves a hole there. */
  lemma {:induction false} HoleAtFree(es: seq<Entry>, after: seq<Entry>, buckets: seq<int>, next: seq<int>,
                                      chains: seq<seq<nat>>, l: seq<nat>, head: int, tail: int, free: seq<nat>, freeHead: int)
    requires free != [] && Threaded(es, buckets, next, chains, l, head, tail, free, At(free, 0)) && |after| == |es|
    requires FreeLinked(after, free[1..], freeHead)
    requires forall i :: 0 <= i < |es| ==> SameContents(es[i], after[i])
    requires forall i :: 0 <= i < |es| && i != free[0] ==> after[i] == es[i]
    ensures Holed(after, buckets, next, chains, l, head, tail, free[1..], freeHead, free[0])
  {
    var hole := free[0];
    assert hole in free && free == [hole] + free[1..];
    assert forall k :: 0 <= k < |l| ==> l[k] in l;
    FiledFrame(es, after, chains, -1);
  }

  /** Filing the hole under a new address and putting it in front fills it. */
  lemma {:induction false} HoleFilled(es: seq<Entry>, after: seq<Entry>, buckets: seq<int>, next: seq<int>,
                                      chains: seq<seq<nat>>, l: seq<nat>, head: int, tail: int, free: seq<nat>,
                                      freeHead: int, hole: nat)
    requires |after| == |es| && hole < |es| && hole !in l && hole !in free && |l| + |free| + 1 == |es|
    requires FreeLinked(es, free, freeHead) && Indexed(es, buckets, next, chains, -1)
    requires LruLinked(after, [hole] + l, head, tail) && es[hole].valid
    requires forall i: nat :: i < |es| && i != hole ==> (es[i].valid <==> i in l) && (!es[i].valid <==> i in free)
    requires forall i :: 0 <= i < |es| ==> SameContents(es[i], after[i])
    requires forall i: nat :: i < |es| && i !in [hole] + l ==> after[i] == es[i]
    ensures Threaded(after, buckets, next, chains, [hole] + l, head, tail, free, freeHead)
  {
    FiledFrame(es, after, chains, -1);
    FreeFrame(es, after, free, freeHead);
  }

  class Cache {
    const device: Device
    const clustering: bool
    const entries: array<Entry>
    const buckets: array<int>
    const next: array<int>
    var validCount: int
    var clock: int
    var freeHead: int
    var lruHead: int
    var lruTail: int
    var lastMiss: Lba
    var generation: int

    ghost var lru: seq<nat>
    ghost var free: seq<nat>
    ghost var chains: seq<seq<nat>>
    /** Times of last use and their counters, without wrap-around. */
    ghost var stamps: seq<nat>
    ghost var ticks: nat
    ghost var replaced: nat

    ghost predicate Shape()
      reads this
    {
      && buckets != next && next.Length == entries.Length > 0
      && buckets.Length == 2 * entries.Length + 1
      && |stamps| == entries.Length
    }

    ghost predicate Linked()
      reads this, entries, buckets, next
    {
      && Shape()
      && Threaded(entries[..], buckets[..], next[..], chains, lru, lruHead, lruTail, free, freeHead)
    }

    ghost function Abs(): State
      reads this, entries, device
      requires InRange(lru, entries.Length) && InRange(lru, |stamps|)
    {
      State(Lines(entries[..], stamps, lru), free, ticks, replaced, lastMiss, device.asked)
    }

    ghost predicate Counted()
      reads this, entries
    {
      && Shape()
      && validCount == |lru|
      && clock == ticks % GENERATION_LIMIT && generation == replaced % GENERATION_LIMIT
      && Stamped(entries[..], stamps, device.drive.sectorSize)
    }

    ghost predicate Valid()
      reads this, entries, buckets, next, device
      ensures Valid() ==> InRange(lru, entries.Length) && InRange(lru, |stamps|) && |lru| + |free| == entries.Length > 0
      ensures Valid() ==> device.drive.Valid() && device.drive.sectorSize > 0
    {
      && device.drive.Valid() && IsPowerOfTwo(device.drive.sectorSize)
      && Linked() && Counted()
      && Inv(Abs())
      && Clusters(Abs(), clustering)
    }

    constructor (device: Device, capacity: nat, clustering: bool)
      requires capacity > 0
      ensures Shape() && Counted() && fresh(entries) && fresh(buckets) && fresh(next) && entries.Length == capacity
      ensures this.device == device && this.clustering == clustering
      ensures lru == [] && ticks == 0 && replaced == 0 && lastMiss == 0
      ensures forall i :: 0 <= i < capacity ==> !entries[i].valid
    {
      this.device := device;
      this.clustering := clustering;
      var sectorSize := device.drive.sectorSize;
      entries := new Entry[capacity](_ => Unused(sectorSize));
      buckets := new int[2 * capacity + 1];
      next := new int[capacity];
      validCount, clock, generation, lastMiss := 0, 0, 0, 0;
      freeHead, lruHead, lruTail := -1, -1, -1;
      lru, free, ticks, replaced := [], [], 0, 0;
      stamps := seq(capacity, _ => 0);
    }

    /** Set up a cache; streamMemory says whether the optional staging buffer
        for clustered reads could be allocated. */
    static method Init(device: Device, capacity: nat, streamMemory: bool) returns (err: Error, cache: Cache?)
      requires device.drive.Valid()
      ensures err == (if capacity == 0 then Inval
                      else if capacity > (LBA_LIMIT - 2) / 2 then Range
                      else if !IsPowerOfTwo(device.drive.sectorSize) then Inval
                      else Ok)
      ensures err == Ok <==> cache != null
      ensures cache != null ==> cache.Valid() && fresh(cache) && cache.device == device
                                && cache.Abs() == State([], seq(capacity, i => i), 0, 0, 0, device.asked)
                                && (cache.clustering <==> streamMemory && capacity >= CLUSTER_CAPACITY)
    {
      if capacity == 0 {
        return Inval, null;
      }
      if capacity > (LBA_LIMIT - 2) / 2 {
        return Range, null;
      }
      if device.drive.sectorSize == 0 || !IsPowerOfTwo(device.drive.sectorSize) {
        return Inval, null;
      }
      cache := new Cache(device, capacity, streamMemory && capacity >= CLUSTER_CAPACITY);
      cache.Start();
      return Ok, cache;
    }

    /** Every entry is free once the indices are reset. */
    method Start()
      requires Shape() && Counted() && validCount == 0 && |lru| == 0
      requires device.drive.Valid() && IsPowerOfTwo(device.drive.sectorSize)
      requires clustering ==> entries.Length >= CLUSTER_CAPACITY
      requires forall i :: 0 <= i < entries.Length ==> !entries[i].valid
      modifies this`freeHead, this`lruHead, this`lruTail, this`lru, this`free, this`chains
      modifies entries, buckets, next
      ensures Valid()
      ensures Abs() == State([], seq(entries.Length, i => i), ticks, replaced, lastMiss, device.asked)
    {
      hide Inv, Linked;
      ResetIndices();
      EmptyInv(State([], seq(entries.Length, i => i), ticks, replaced, lastMiss, device.asked));
    }

    /** Empty chains, an empty list of use, and every entry in the free list. */
    method ResetIndices()
      requires Shape() && forall i :: 0 <= i < entries.Length ==> !entries[i].valid
      modifies this`freeHead, this`lruHead, this`lruTail, this`lru, this`free, this`chains
      modifies entries, buckets, next
      ensures Linked() && lru == [] && free == seq(entries.Length, i => i)
      ensures forall i :: 0 <= i < entries.Length ==> SameContents(old(entries[i]), entries[i])
    {
      Unlink(buckets);
      Unlink(next);
      freeHead, lruHead, lruTail := 0, -1, -1;
      var i := 0;
      while i < entries.Length
        invariant 0 <= i <= entries.Length
        invariant forall k :: 0 <= k < entries.Length ==> SameContents(old(entries[k]), entries[k])
        invariant forall k :: 0 <= k < i ==> entries[k].lruNext == if k + 1 < entries.Length then k + 1 else -1
        modifies entries
      {
        entries[i] := entries[i].(lruPrev := -1, lruNext := if i + 1 < entries.Length then i + 1 else -1);
        i := i + 1;
      }
      lru, free := [], seq(entries.Length, j => j);
      chains := seq(buckets.Length, _ => []);
      AllFree(entries[..], free);
      EmptyIndexed(entries[..], buckets[..], next[..], chains);
    }

    static method Unlink(links: array<int>)
      modifies links
      ensures forall k :: 0 <= k < links.Length ==> links[k] == -1
    {
      var i := 0;
      while i < links.Length
        invariant 0 <= i <= links.Length && forall k :: 0 <= k < i ==> links[k] == -1
      {
        links[i] := -1;
        i := i + 1;
      }
    }

    method LruRemove(idx: nat, ghost k: nat)
      requires k < |lru| && lru[k] == idx && LruLinked(entries[..], lru, lruHead, lruTail)
      modifies this`lruHead, this`lruTail, this`lru, entries
      ensures lru == Without(old(lru), k) && LruLinked(entries[..], lru, lruHead, lruTail)
      ensures forall i :: 0 <= i < entries.Length ==> SameContents(old(entries[i]), entries[i])
      ensures forall i: nat :: i < entries.Length && i !in old(lru) ==> entries[i] == old(entries[i])
    {
      ghost var es := entries[..];
      var prev := entries[idx].lruPrev;
      var nxt := entries[idx].lruNext;
      if prev >= 0 {
        entries[prev] := entries[prev].(lruNext := nxt);
      } else if lruHead == idx {
        lruHead := nxt;
      }
      if nxt >= 0 {
        entries[nxt] := entries[nxt].(lruPrev := prev);
      } else if lruTail == idx {
        lruTail := prev;
      }
      entries[idx] := entries[idx].(lruPrev := -1, lruNext := -1);
      UnlinkLinks(es, entries[..], lru, k, old(lruHead), old(lruTail));
      lru := Without(lru, k);
    }

    method LruInsertHead(idx: nat)
      requires idx < entries.Length && idx !in lru && LruLinked(entries[..], lru, lruHead, lruTail)
      modifies this`lruHead, this`lruTail, this`lru, entries
      ensures lru == [idx] + old(lru) && LruLinked(entries[..], lru, lruHead, lruTail)
      ensures forall i :: 0 <= i < entries.Length ==> SameContents(old(entries[i]), entries[i])
      ensures forall i: nat :: i < entries.Length && i !in lru ==> entries[i] == old(entries[i])
    {
      entries[idx] := entries[idx].(lruPrev := -1, lruNext := lruHead);
      if lruHead >= 0 {
        entries[lruHead] := entries[lruHead].(lruPrev := idx);
      } else {
        lruTail := idx;
      }
      lruHead := idx;
      lru := [idx] + lru;
    }

    method PopFree() returns (idx: int)
      requires FreeLinked(entries[..], free, freeHead)
      modifies this`freeHead, this`free, entries
      ensures old(free) == [] ==> idx == -1 && free == []
      ensures old(free) != [] ==> idx == old(free[0]) && free == old(free[1..])
      ensures FreeLinked(entries[..], free, freeHead)
      ensures forall i :: 0 <= i < entries.Length ==> SameContents(old(entries[i]), entries[i])
      ensures forall i :: 0 <= i < entries.Length && i != idx ==> entries[i] == old(entries[i])
    {
      idx := freeHead;
      if idx < 0 {
        return -1;
      }
      freeHead := entries[idx].lruNext;
      entries[idx] := entries[idx].(lruNext := -1, lruPrev := -1);
      free := free[1..];
    }

    method FindIndex(lba: Lba) returns (idx: int)
      requires Linked()
      ensures idx >= 0 ==> idx < entries.Length && entries[idx].valid && entries[idx].lba == lba
      ensures idx < 0 ==> idx == -1 && forall i: nat :: i < entries.Length && entries[i].valid ==> entries[i].lba != lba
    {
      var b := Hash(lba, buckets.Length);
      ghost var chain := chains[b];
      ghost var p := 0;
      idx := buckets[b];
      assert ChainLinked(next[..], chain, buckets[..][b]);
      while idx >= 0
        invariant 0 <= p <= |chain| && idx == At(chain, p)
        invariant forall q :: 0 <= q < p ==> entries[chain[q]].lba != lba
        decreases |chain| - p
      {
        var entry := entries[idx];
        assert entries[..][chain[p]] == entry && chain[p] in chain;
        if entry.valid && entry.lba == lba {
          return idx;
        }
        idx := next[idx];
        p := p + 1;
      }
      forall i: nat | i < entries.Length && entries[i].valid
        ensures entries[i].lba != lba
      {
        assert entries[..][i] == entries[i];
      }
      idx := -1;
    }

    method InsertIndex(idx: nat)
      requires Shape() && idx < entries.Length && entries[idx].valid
      requires Indexed(entries[..], buckets[..], next[..], chains, idx)
      modifies this`chains, buckets, next
      ensures Indexed(entries[..], buckets[..], next[..], chains, -1)
      // in front of its own chain; the others are as they were
      ensures var b := Hash(entries[idx].lba, buckets.Length);
              && PutInFront(old(chains), chains, b, idx) && buckets[b] == idx
              && forall c {:trigger buckets[c]} :: 0 <= c < buckets.Length && c != b ==> buckets[c] == old(buckets[c])
    {
      InsertIndexed(entries[..], buckets[..], next[..], chains, idx);
      var b := Hash(entries[idx].lba, buckets.Length);
      next[idx] := buckets[b];
      buckets[b] := idx;
      chains := chains[b := [idx] + chains[b]];
    }

    method RemoveIndex(idx: nat)
      requires Shape() && idx < entries.Length && entries[idx].valid
      requires Indexed(entries[..], buckets[..], next[..], chains, -1)
      modifies this`chains, buckets, next
      ensures Indexed(entries[..], buckets[..], next[..], chains, idx)
      // out of its own chain, wherever it stood; the others are as they were
      ensures var b := Hash(entries[idx].lba, buckets.Length);
              && TakenOut(old(chains), chains, b, idx)
              && forall c {:trigger buckets[c]} :: 0 <= c < buckets.Length && c != b ==> buckets[c] == old(buckets[c])
    {
      var b := Hash(entries[idx].lba, buckets.Length);
      ghost var chain := chains[b];
      assert ChainLinked(next[..], chain, buckets[..][b]);
      assert entries[..][idx] == entries[idx];
      ghost var next0 := next[..];
      ghost var k :| 0 <= k < |chain| && chain[k] == idx;
      ghost var p := 0;
      var prev := -1;
      var cur := buckets[b];
      while cur >= 0
        invariant 0 <= p <= k && cur == At(chain, p) && prev == At(chain, p - 1)
        decreases |chain| - p
      {
        if cur == idx {
          if prev >= 0 {
            next[prev] := next[cur];
          } else {
            buckets[b] := next[cur];
          }
          next[cur] := -1;
          RemoveIndexed(entries[..], old(buckets[..]), next0, chains, b, p);
          assert next[..] == CutLinks(next0, chain, p);
          chains := chains[b := Without(chain, p)];
          return;
        }
        prev := cur;
        cur := next[cur];
        p := p + 1;
      }
      assert false;
    }

    method MakeMru(idx: nat, ghost k: nat)
      requires k < |lru| && lru[k] == idx && LruLinked(entries[..], lru, lruHead, lruTail)
      modifies this`lruHead, this`lruTail, this`lru, entries
      ensures lru == ToFront(old(lru), k) && LruLinked(entries[..], lru, lruHead, lruTail)
      ensures forall i :: 0 <= i < entries.Length ==> SameContents(old(entries[i]), entries[i])
      ensures forall i: nat :: i < entries.Length && i !in lru ==> entries[i] == old(entries[i])
    {
      hide ToFront, NoDup;
      ToFrontMembers(lru, k);
      ToFrontIs(lru, k);
      HeadIsFirst(lru, k);
      if lruHead == idx {
        return;
      }
      LruRemove(idx, k);
      LruInsertHead(idx);
    }

    /** Make entry idx the most recently used one, now. */
    method Use(idx: nat, ghost k: nat)
      requires Valid() && k < |lru| && lru[k] == idx
      modifies this`lruHead, this`lruTail, this`lru, this`stamps, entries
      ensures Valid() && Abs() == Touch(old(Abs()), k) && lru[0] == idx
      ensures forall i :: 0 <= i < entries.Length ==> entries[i].data == old(entries[i].data)
    {
      hide Touch, Inv, Lines, LineOf, ToFront, NoDup, LruLinked, FreeLinked, Indexed, Partitioned;
      ghost var es, l, head, tail := entries[..], lru, lruHead, lruTail;
      ThreadedShape(es, buckets[..], next[..], chains, l, head, tail, free, freeHead);
      ghost var a := Abs();
      TouchKeepsInv(device.drive, a, k);
      TouchShape(a, k);
      ToFrontIs(l, k);
      entries[idx] := entries[idx].(age := clock);
      stamps := stamps[idx := ticks];
      assert LruLinked(entries[..], l, head, tail) by { AgeFrame(es, entries[..], l, head, tail); }
      MakeMru(idx, k);
      assert Abs().lines == Touch(a, k).lines by { LinesTouched(es, entries[..], old(stamps), a, l, k); }
      UseThreaded(es, entries[..], buckets[..], next[..], chains, l, k, head, tail, lruHead, lruTail, free, freeHead);
    }

    /** The entry the next sector goes into; nothing changes yet. */
    method Reserve() returns (victim: nat)
      requires Valid()
      ensures victim == CacheModel.Victim(Abs()) && victim < entries.Length
    {
      hide Inv, LruLinked, FreeLinked, Indexed, Partitioned, NoDup, Lines;
      ThreadedShape(entries[..], buckets[..], next[..], chains, lru, lruHead, lruTail, free, freeHead);
      VictimIs(entries[..], stamps, Abs(), lru);
      if validCount < entries.Length {
        victim := freeHead;
      } else {
        victim := lruTail;
      }
    }

    /** Take the victim out of every list. */
    method Detach(victim: nat)
      requires Valid() && victim == CacheModel.Victim(Abs())
      modifies this`lruHead, this`lruTail, this`lru, this`freeHead, this`free, this`chains
      modifies this`validCount, this`generation, this`replaced, entries, buckets, next
      ensures Shape() && Holed(entries[..], buckets[..], next[..], chains, lru, lruHead, lruTail, free, freeHead, victim)
      ensures forall i :: 0 <= i < entries.Length ==> SameContents(old(entries[i]), entries[i])
      ensures if old(free) == [] then
                lru == old(lru[..|lru| - 1]) && free == [] && validCount == old(validCount)
                && replaced == old(replaced) + 1 && generation == replaced % GENERATION_LIMIT
              else
                lru == old(lru) && free == old(free[1..]) && validCount == old(validCount) + 1
                && replaced == old(replaced) && generation == old(generation)
    {
      hide Hash, IsPowerOfTwo, CacheModel.Coherent, PutInFront, TakenOut, Inv, LruLinked, FreeLinked, Indexed, Partitioned, NoDup, Lines, Holed;
      ghost var es, l := entries[..], lru;
      ThreadedShape(es, buckets[..], next[..], chains, l, lruHead, lruTail, free, freeHead);
      VictimIs(es, stamps, Abs(), l);
      if entries[victim].valid {
        RemoveIndex(victim);
        LruRemove(victim, |l| - 1);
        generation := (generation + 1) % GENERATION_LIMIT;
        replaced := replaced + 1;
        HoleAtTail(es, entries[..], buckets[..], next[..], chains, l, lruHead, lruTail, free, freeHead);
      } else {
        ghost var f := free;
        var freeIdx := PopFree();
        validCount := validCount + 1;
        HoleAtFree(es, entries[..], buckets[..], next[..], chains, l, lruHead, lruTail, f, freeHead);
      }
    }

    /** Fill a reserved entry, whose buffer already holds the sector, and index it. */
    method Commit(victim: nat, lba: Lba)
      requires Valid() && victim == CacheModel.Victim(Abs()) && Find(Abs().lines, lba) < 0
      modifies this`lruHead, this`lruTail, this`lru, this`freeHead, this`free, this`chains, this`stamps
      modifies this`validCount, this`generation, this`replaced, entries, buckets, next
      ensures Valid() && Abs() == Install(old(Abs()), lba, old(entries[victim].data)) && lru != [] && lru[0] == victim
      ensures entries[victim].data == old(entries[victim].data)
    {
      hide CacheModel.Coherent, IsPowerOfTwo, Inv, LruLinked, FreeLinked, Indexed, Partitioned, NoDup, Lines, LineOf, Install, Find, Threaded, Holed;
      ghost var es, l := entries[..], lru;
      ThreadedShape(es, buckets[..], next[..], chains, l, lruHead, lruTail, free, freeHead);
      ghost var a := Abs();
      VictimIs(es, stamps, a, l);
      InstallKeepsInv(device.drive, a, lba, entries[victim].data);
      InstallShape(a, lba, entries[victim].data);
      Detach(victim);
      Attach(victim, lba);
      assert Abs().lines == Install(a, lba, es[victim].data).lines by {
        LinesInstalled(es, entries[..], old(stamps), a, l, victim, lba);
      }
    }

    /** Put the entry that is in no list under a new address, in front. */
    method Attach(victim: nat, lba: Lba)
      requires Shape() && Holed(entries[..], buckets[..], next[..], chains, lru, lruHead, lruTail, free, freeHead, victim)
      modifies this`lruHead, this`lruTail, this`lru, this`chains, this`stamps, entries, buckets, next
      ensures Linked() && lru == [victim] + old(lru) && stamps == old(stamps)[victim := ticks]
      ensures entries[victim].lba == lba && entries[victim].age == clock && entries[victim].valid
      ensures entries[victim].data == old(entries[victim].data)
      ensures forall i :: 0 <= i < entries.Length && i != victim ==> SameContents(old(entries[i]), entries[i])
    {
      hide Hash, PutInFront, TakenOut, LruLinked, FreeLinked, Indexed, Partitioned, NoDup;
      ghost var es, l := entries[..], lru;
      entries[victim] := entries[victim].(lba := lba, age := clock, valid := true);
      stamps := stamps[victim := ticks];
      HoleUpdated(es, entries[..], buckets[..], next[..], chains, l, lruHead, lruTail, free, freeHead, victim);
      InsertIndex(victim);
      ghost var filed := entries[..];
      LruInsertHead(victim);
      HoleFilled(filed, entries[..], buckets[..], next[..], chains, l, lruHead, lruTail, free, freeHead, victim);
    }

    /** Position of the line for lba and its entry, or -1 twice. */
    method Lookup(lba: Lba) returns (idx: int, ghost k: int)
      requires Valid()
      ensures k == Find(Abs().lines, lba)
      ensures if k < 0 then idx == -1 else idx == lru[k] && idx < entries.Length
    {
      hide Inv, LruLinked, FreeLinked, Partitioned, NoDup, Lines, LineOf, Find;
      ThreadedShape(entries[..], buckets[..], next[..], chains, lru, lruHead, lruTail, free, freeHead);
      idx := FindIndex(lba);
      if idx >= 0 {
        k :| 0 <= k < |lru| && lru[k] == idx;
        LineIs(entries[..], stamps, lru, k);
        FindIs(Abs(), k, lba);
      } else {
        k := Find(Abs().lines, lba);
        forall j | 0 <= j < |lru|
          ensures Abs().lines[j].lba != lba
        {
          LineIs(entries[..], stamps, lru, j);
          assert lru[j] in lru;
        }
      }
    }

    /** Time passes. */
    method Tick()
      requires Valid()
      modifies this`clock, this`ticks
      ensures Valid() && Abs() == old(Abs()).(clock := old(ticks) + 1)
    {
      hide Inv, Threaded, Lines;
      ThreadedShape(entries[..], buckets[..], next[..], chains, lru, lruHead, lruTail, free, freeHead);
      ghost var a := Abs();
      ClockKeepsInv(a, ticks + 1);
      clock := (clock + 1) % GENERATION_LIMIT;
      ticks := ticks + 1;
    }

    /** Write into the buffer of the entry to be replaced. */
    method Fill(victim: nat, data: Bytes)
      requires Valid() && victim == CacheModel.Victim(Abs()) && |data| == device.drive.sectorSize
      modifies entries
      ensures Valid() && Abs() == Overwrite(old(Abs()), data) && entries[victim].data == data
      ensures CacheModel.Victim(Abs()) == victim
    {
      hide Inv, LruLinked, FreeLinked, Indexed, Partitioned, NoDup, Lines, LineOf, Overwrite;
      ghost var es := entries[..];
      ThreadedShape(es, buckets[..], next[..], chains, lru, lruHead, lruTail, free, freeHead);
      ghost var a := Abs();
      VictimIs(es, stamps, a, lru);
      OverwriteKeepsInv(a, data);
      entries[victim] := entries[victim].(data := data);
      DataFrame(es, entries[..], buckets[..], next[..], chains, lru, lruHead, lruTail, free, freeHead);
      assert Abs().lines == Overwrite(a, data).lines by { LinesOverwritten(es, entries[..], stamps, a, lru, data); }
    }

    /** Place one sector's data into the entry to be replaced and index it. */
    method InstallSector(lba: Lba, src: Bytes) returns (victim: nat)
      requires Valid() && Find(Abs().lines, lba) < 0 && |src| == device.drive.sectorSize
      modifies this, entries, buckets, next
      ensures Valid() && Abs() == Install(old(Abs()), lba, src) && victim == CacheModel.Victim(old(Abs()))
    {
      hide Inv, Threaded, Stamped, Lines, Find, Install, Overwrite;
      victim := Reserve();
      ghost var a := Abs();
      OverwriteFinds(a, src, lba);
      InstallOverwritten(a, lba, src, src);
      Fill(victim, src);
      Commit(victim, lba);
    }

    /** Read a miss alone, straight into the buffer of the entry to be replaced. */
    method ReadAlone(lba: Lba) returns (err: Error, slot: int)
      requires Valid() && Find(Abs().lines, lba) < 0
      modifies this, entries, buckets, next, device
      ensures Valid()
      ensures var (b, r) := ReadSingle(device.drive, old(Abs()), lba);
              Abs() == b && (match r case Found(s) => err == Ok && slot == s case DeviceError => err == Io)
    {
      hide Inv, Threaded, Stamped, Lines, Find, Install, Overwrite;
      ghost var a := Abs();
      AskingKeepsInv(a);
      lastMiss := lba;
      var victim := Reserve();
      var buf := entries[victim].data;
      BuffersAreSectors(entries[..], stamps, device.drive.sectorSize, victim);
      if Full(a) {
        VictimLine(entries[..], stamps, a, lru);
      }
      var ok, data := device.Read(lba, 1, buf);
      ghost var asking := Abs();
      SpanOne(device.drive, lba);
      OverwriteFinds(asking, data, lba);
      InstallOverwritten(asking, lba, data, data);
      OverwriteKeepsInv(asking, data);
      Fill(victim, data);
      if !ok {
        return Io, -1;
      }
      InstallShape(asking, lba, data);
      Commit(victim, lba);
      return Ok, victim;
    }

    /** Install the sectors of a clustered read from the staging buffer, the
        requested one last so that the others cannot evict it. */
    method InstallCluster(lba: Lba, run: nat, stream: Bytes) returns (idx: int)
      requires Valid() && 1 <= run && lba + run <= LBA_LIMIT
      requires stream == device.drive.Span(lba, run)
      requires forall x: Lba :: lba <= x < lba + run ==> Find(Abs().lines, x) < 0
      modifies this, entries, buckets, next
      ensures Valid() && Abs() == InstallRun(device.drive, old(Abs()), lba, run)
      ensures Abs().lines != [] && idx == Abs().lines[0].slot
    {
      hide Inv, Threaded, Stamped, Lines, Find, Install;
      ghost var a := Abs();
      idx := -1;
      var i := run;
      while i > 0
        invariant 0 <= i <= run && Valid()
        invariant InstallRun(device.drive, Abs(), lba, i) == InstallRun(device.drive, a, lba, run)
        invariant forall x: Lba :: lba <= x < lba + i ==> Find(Abs().lines, x) < 0
        invariant i < run ==> Abs().lines != [] && idx == Abs().lines[0].slot
      {
        i := i - 1;
        SpanSector(device.drive, lba, run, i);
        InstallShape(Abs(), lba + i, device.drive.sector(lba + i));
        InstallFindsBelow(Abs(), lba + i, device.drive.sector(lba + i));
        idx := InstallSector(lba + i, stream[device.drive.Offset(i)..device.drive.Offset(i + 1)]);
      }
    }

    /** Sectors from lba on, at most a cluster, that are not cached. */
    method MissRun(lba: Lba) returns (run: nat)
      requires Valid()
      ensures run == RunLength(Abs().lines, lba, 1)
    {
      hide Inv, Threaded, Stamped, Lines, Find, RunLength;
      run := 1;
      while run < READAHEAD && (lba + run) % LBA_LIMIT > lba
        invariant 1 <= run <= READAHEAD && lba + run <= LBA_LIMIT
        invariant RunLength(Abs().lines, lba, 1) == RunLength(Abs().lines, lba, run)
      {
        RunStep(Abs().lines, lba, run);
        ghost var k;
        var idx;
        idx, k := Lookup(lba + run);
        if idx >= 0 {
          return;
        }
        run := run + 1;
      }
      RunStep(Abs().lines, lba, run);
    }

    /** Try to serve a sequential miss by one request for a run of sectors. */
    method ReadAhead(lba: Lba, run: nat) returns (idx: int)
      requires Valid() && 1 < run == RunLength(Abs().lines, lba, 1) && Find(Abs().lines, lba) < 0
      modifies this, entries, buckets, next, device
      ensures Valid()
      ensures var a := old(Abs());
              var asking := a.(asked := a.asked + 1);
              if device.drive.reply(a.asked, lba, run).Delivered? then
                var b := InstallRun(device.drive, asking, lba, run);
                Abs() == b.(lastMiss := lba + run - 1) && b.lines != [] && idx == b.lines[0].slot >= 0
              else
                Abs() == asking && idx == -1
    {
      hide Inv, Threaded, Stamped, Lines, Find, InstallRun, RunLength;
      ghost var a := Abs();
      AskingKeepsInv(a);
      RunIsMissing(a.lines, lba);
      var ok, stream := device.Read(lba, run, []);
      if !ok {
        return -1;
      }
      idx := InstallCluster(lba, run, stream);
      AskingKeepsInv(Abs());
      lastMiss := lba + run - 1;
    }

    method ReadMissed(lba: Lba) returns (err: Error, slot: int)
      requires Valid() && Find(Abs().lines, lba) < 0
      modifies this, entries, buckets, next, device
      ensures Valid()
      ensures var (b, r) := ReadMiss(device.drive, clustering, old(Abs()), lba);
              Abs() == b && (match r case Found(s) => err == Ok && slot == s case DeviceError => err == Io)
    {
      hide Inv, Threaded, Stamped, Lines, Find, InstallRun, RunLength, ReadSingle;
      if clustering && lba == (lastMiss + 1) % LBA_LIMIT {
        var run := MissRun(lba);
        if run > 1 {
          var idx := ReadAhead(lba, run);
          if idx >= 0 {
            return Ok, idx;
          }
        }
      }
      err, slot := ReadAlone(lba);
    }

    /** Read one sector through the cache; the bytes are those of entry slot. */
    method Read(lba: Lba) returns (err: Error, slot: int)
      requires Valid()
      modifies this, entries, buckets, next, device
      ensures Valid()
      ensures var (b, r) := CacheModel.Read(device.drive, clustering, old(Abs()), lba);
              Abs() == b && (match r case Found(s) => err == Ok && slot == s case DeviceError => err == Io)
      ensures err == Ok || err == Io
      ensures err == Ok ==> 0 <= slot < entries.Length
      ensures Coherent(device.drive, old(Abs()).lines) ==>
                && (err == Ok ==> entries[slot].data == device.drive.sector(lba))
                && (device.drive.Careful() ==> Coherent(device.drive, Abs().lines))
      ensures device.drive.AlwaysDelivers() ==> err == Ok
    {
      err, slot := ReadIndexed(lba);
      hide Inv, Threaded, Stamped, Lines, Find, Coherent, CacheModel.Read;
      ReadReturnsMedium(device.drive, clustering, old(Abs()), lba);
      if err == Ok {
        LineIs(entries[..], stamps, lru, 0);
      }
      if Coherent(device.drive, old(Abs()).lines) {
        CoherentUnlessSpoiled(device.drive, clustering, old(Abs()), lba);
      }
    }

    method ReadIndexed(lba: Lba) returns (err: Error, slot: int)
      requires Valid()
      modifies this, entries, buckets, next, device
      ensures Valid()
      ensures var (b, r) := CacheModel.Read(device.drive, clustering, old(Abs()), lba);
              Abs() == b && (match r case Found(s) => err == Ok && slot == s case DeviceError => err == Io)
    {
      hide Inv, Threaded, Stamped, Lines, Find, Touch, ReadMiss;
      Tick();
      ghost var k;
      var hit;
      hit, k := Lookup(lba);
      if hit >= 0 {
        LineIs(entries[..], stamps, lru, k);
        Use(hit, k);
        return Ok, hit;
      }
      err, slot := ReadMissed(lba);
    }

    method Contains(lba: Lba) returns (found: bool)
      requires Valid()
      ensures found <==> Find(Abs().lines, lba) >= 0
    {
      ghost var k;
      var idx;
      idx, k := Lookup(lba);
      return idx >= 0;
    }

    /** Read a cached sector without any request; a miss changes nothing. */
    method ReadCached(lba: Lba) returns (slot: int)
      requires Valid()
      modifies this, entries
      ensures Valid()
      ensures var (b, r) := CacheModel.ReadCached(old(Abs()), lba);
              Abs() == b && slot == (match r case Found(s) => s case DeviceError => -1)
      ensures slot >= 0 ==> slot < entries.Length && Find(old(Abs()).lines, lba) >= 0
      ensures Coherent(device.drive, old(Abs()).lines) ==>
                && Coherent(device.drive, Abs().lines)
                && (slot >= 0 ==> entries[slot].data == device.drive.sector(lba))
    {
      hide Inv, Threaded, Stamped, Lines, Find, Touch;
      ghost var a := Abs();
      ghost var k;
      slot, k := Lookup(lba);
      if slot < 0 {
        return;
      }
      LineIs(entries[..], stamps, lru, k);
      Tick();
      TouchKeepsInv(device.drive, Abs(), k);
      TouchAtFront(Abs(), k);
      Use(slot, k);
      LineIs(entries[..], stamps, lru, 0);
    }

    /** Keep a sector read by somebody else. */
    method Retain(lba: Lba, data: Bytes)
      requires Valid() && |data| == device.drive.sectorSize
      modifies this, entries, buckets, next
      ensures Valid() && Abs() == CacheModel.Retain(old(Abs()), lba, data)
      ensures Coherent(device.drive, old(Abs()).lines) && data == device.drive.sector(lba) ==>
                Coherent(device.drive, Abs().lines)
    {
      hide Inv, Threaded, Stamped, Lines, Find, Install;
      ghost var k;
      var idx;
      idx, k := Lookup(lba);
      if idx < 0 {
        InstallKeepsInv(device.drive, Abs(), lba, data);
        var _ := InstallSector(lba, data);
      }
    }

    /** Drop every sector. */
    method Flush()
      requires Valid()
      modifies this, entries, buckets, next
      ensures Valid() && Abs() == CacheModel.Flush(old(Abs()))
    {
      hide Inv, Threaded, Lines;
      var i := 0;
      while i < entries.Length
        invariant 0 <= i <= entries.Length
        invariant forall k :: 0 <= k < i ==> !entries[k].valid
        invariant forall k: nat :: k < entries.Length ==> entries[k] == old(entries[k]).(valid := entries[k].valid)
        modifies entries
      {
        entries[i] := entries[i].(valid := false);
        i := i + 1;
      }
      validCount := 0;
      lru := [];
      generation := (generation + 1) % GENERATION_LIMIT;
      replaced := replaced + 1;
      Start();
    }
  }

  lemma {:induction false} TouchAtFront(a: State, k: nat)
    requires k < |a.lines|
    ensures Touch(a, k).lines != [] && Touch(a, k).lines[0] == a.lines[k].(stamp := a.clock)
  {
  }

  lemma {:induction false} RunStep(lines: seq<Line>, lba: Lba, n: nat)
    requires 1 <= n <= READAHEAD && lba + n <= LBA_LIMIT
    ensures RunLength(lines, lba, n) == if n < READAHEAD && lba + n < LBA_LIMIT && Find(lines, lba + n) < 0
                                        then RunLength(lines, lba, n + 1) else n
  {
  }

  lemma {:induction false} InstallFindsBelow(a: State, lba: Lba, data: Bytes)
    requires a.lines != [] || a.free != []
    ensures forall x: Lba :: x < lba && Find(a.lines, x) < 0 ==> Find(Install(a, lba, data).lines, x) < 0
  {
    forall x: Lba | x < lba && Find(a.lines, x) < 0
      ensures Find(Install(a, lba, data).lines, x) < 0
    {
      InstallFinds(a, lba, data, x);
    }
  }

  lemma {:induction false} RunIsMissing(lines: seq<Line>, lba: Lba)
    requires Find(lines, lba) < 0
    ensures forall x: Lba :: lba <= x < lba + RunLength(lines, lba, 1) ==> Find(lines, x) < 0
  {
  }

  lemma {:induction false} BuffersAreSectors(es: seq<Entry>, stamps: seq<nat>, sectorSize: nat, x: nat)
    requires Stamped(es, stamps, sectorSize) && x < |es|
    ensures |es[x].data| == sectorSize
  {
  }

  /** The last line of a full cache is the buffer of the entry to be replaced. */
  lemma {:induction false} VictimLine(es: seq<Entry>, stamps: seq<nat>, a: State, l: seq<nat>)
    requires InRange(l, |es|) && InRange(l, |stamps|) && a.lines == Lines(es, stamps, l) && l != [] && Full(a)
    ensures CacheModel.Victim(a) < |es| && a.lines[|l| - 1].data == es[CacheModel.Victim(a)].data
  {
    LineIs(es, stamps, l, |l| - 1);
    VictimIs(es, stamps, a, l);
  }

  lemma {:induction false} SpanOne(d: Drive, lba: Lba)
    ensures d.Span(lba, 1) == d.sector(lba) && d.Offset(1) == d.sectorSize
  {
    assert d.Span(lba, 0) == [];
  }

  lemma {:induction false} LineIs(es: seq<Entry>, stamps: seq<nat>, l: seq<nat>, k: nat)
    requires InRange(l, |es|) && InRange(l, |stamps|) && k < |l|
    ensures Lines(es, stamps, l)[k] == LineOf(es, stamps, l[k])
    ensures Lines(es, stamps, l)[k].lba == es[l[k]].lba && Lines(es, stamps, l)[k].slot == l[k]
    ensures Lines(es, stamps, l)[k].data == es[l[k]].data
  {
    LinesSplit(es, stamps, l, k);
  }

  lemma {:induction false} ClockKeepsInv(a: State, now: nat)
    requires Inv(a) && now >= a.clock
    ensures Inv(a.(clock := now))
  {
  }

  /** Buffers take no part in the threadings. */
  lemma {:induction false} DataFrame(es: seq<Entry>, after: seq<Entry>, buckets: seq<int>, next: seq<int>,
                                     chains: seq<seq<nat>>, l: seq<nat>, head: int, tail: int, free: seq<nat>, freeHead: int)
    requires Threaded(es, buckets, next, chains, l, head, tail, free, freeHead) && |after| == |es|
    requires forall i :: 0 <= i < |es| ==> after[i] == es[i].(data := after[i].data)
    ensures Threaded(after, buckets, next, chains, l, head, tail, free, freeHead)
  {
    AgeFrame(es, after, l, head, tail);
    FiledFrame(es, after, chains, -1);
  }

  lemma {:induction false} LinesOverwritten(es: seq<Entry>, after: seq<Entry>, stamps: seq<nat>, a: State, l: seq<nat>,
                                            data: Bytes)
    requires |after| == |es| == |stamps| && InRange(l, |es|) && NoDup(l) && (l != [] || a.free != [])
    requires a.lines == Lines(es, stamps, l)
    requires var v := if a.free == [] then l[|l| - 1] else a.free[0];
             && (a.free != [] ==> v !in l) && v < |es| && after == es[v := es[v].(data := data)]
    ensures Lines(after, stamps, l) == Overwrite(a, data).lines
  {
    if a.free == [] {
      var last := |l| - 1;
      LinesSplit(es, stamps, l, last);
      LinesSplit(after, stamps, l, last);
      assert l[last] !in l[..last];
      LinesFrame(es, stamps, after, stamps, l[..last]);
    } else {
      LinesFrame(es, stamps, after, stamps, l);
    }
  }

  /** A hole may be given any address: nothing links to it. */
  lemma {:induction false} HoleUpdated(es: seq<Entry>, after: seq<Entry>, buckets: seq<int>, next: seq<int>,
                                       chains: seq<seq<nat>>, l: seq<nat>, head: int, tail: int, free: seq<nat>,
                                       freeHead: int, hole: nat)
    requires Holed(es, buckets, next, chains, l, head, tail, free, freeHead, hole)
    requires |after| == |es| && forall i :: 0 <= i < |es| && i != hole ==> after[i] == es[i]
    ensures Holed(after, buckets, next, chains, l, head, tail, free, freeHead, hole)
  {
    assert forall k :: 0 <= k < |l| ==> l[k] in l;
    FiledFrame(es, after, chains, hole);
    FreeFrame(es, after, free, freeHead);
  }

  /** Writing the victim and moving it to the front installs its sector. */
  lemma {:induction false} LinesLast(es: seq<Entry>, stamps: seq<nat>, l: seq<nat>)
    requires InRange(l, |es|) && InRange(l, |stamps|) && l != []
    ensures var lines, last := Lines(es, stamps, l), |l| - 1;
            |lines| == |l| && lines[..last] == Lines(es, stamps, l[..last]) && lines[last] == LineOf(es, stamps, l[last])
  {
    LinesSplit(es, stamps, l, |l| - 1);
  }

  lemma {:induction false} LinesInstalled(es: seq<Entry>, after: seq<Entry>, stamps: seq<nat>, a: State, l: seq<nat>,
                                          victim: nat, lba: Lba)
    requires |after| == |es| == |stamps| && InRange(l, |es|) && NoDup(l) && victim < |es|
    requires a.lines == Lines(es, stamps, l) && (l != [] || a.free != []) && victim == CacheModel.Victim(a)
    requires a.free != [] ==> victim !in l
    requires after[victim].lba == lba && after[victim].data == es[victim].data
    requires forall i :: 0 <= i < |es| && i != victim ==> after[i].lba == es[i].lba && after[i].data == es[i].data
    ensures var kept := if a.free == [] then l[..|l| - 1] else l;
            && InRange([victim] + kept, |es|)
            && Lines(after, stamps[victim := a.clock], [victim] + kept) == Install(a, lba, es[victim].data).lines
  {
    hide Lines;
    var stamps' := stamps[victim := a.clock];
    var kept := if a.free == [] then l[..|l| - 1] else l;
    if a.free == [] {
      LinesLast(es, stamps, l);
    }
    assert victim !in kept;
    LinesFrame(es, stamps, after, stamps', kept);
    LinesConcat(after, stamps', [victim], kept);
    LinesOne(after, stamps', victim);
  }

  lemma {:induction false} VictimIs(es: seq<Entry>, stamps: seq<nat>, a: State, l: seq<nat>)
    requires InRange(l, |es|) && InRange(l, |stamps|) && a.lines == Lines(es, stamps, l) && (l != [] || a.free != [])
    ensures CacheModel.Victim(a) == if a.free == [] then l[|l| - 1] else a.free[0]
    ensures l != [] ==> l[|l| - 1] in l
  {
    if l != [] {
      LinesSplit(es, stamps, l, |l| - 1);
    }
  }
}
