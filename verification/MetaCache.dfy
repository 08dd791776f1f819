/**
 The cache of parsed directories: a list in order of use, kept within a budget
 of bytes, with a second chance for directories found near its front.
 */
module MetaCache {
  import opened Basics
  import opened BlockDevice
  import opened MetaDir

  /** Directories this close to the front are not moved when found. */
  const LRU_FRONT: nat := 8
  const OVERSIZE_SLOTS: nat := 4
  /** Largest budget a mount asks for. */
  const BUDGET_MAX: nat := 0x4000_0000
  /** Marks resume cookies that are entry indices. */
  const COOKIE_TAG: nat := 0x8000_0000
  const BACKEND_CDDA: nat := 7

  /** How one enumeration by a backend goes: entries it gets past before it
      fails, the error it then gives, and entries that memory lasts for. */
  datatype Reply = Reply(reach: nat, error: Error, memory: nat)

  class Backend {
    const list: Key -> seq<Node>
    const reply: nat -> Reply
    /** The backend's own resume cookies: what it leaves when stopped after some
        entries, what it leaves at the end, and how many entries past a cookie stands for. */
    const stopCookie: (Key, nat) -> nat
    const endCookie: Key -> nat
    const position: (Key, nat) -> nat
    var asked: nat

    ghost predicate Valid() {
      && (forall key: Key :: |list(key)| < COOKIE_TAG)
      && (forall key: Key, j: nat :: 0 < j <= |list(key)| ==> 0 < stopCookie(key, j) < COOKIE_TAG && position(key, stopCookie(key, j)) == j)
      && (forall key: Key :: endCookie(key) < COOKIE_TAG && position(key, endCookie(key)) == |list(key)|)
      && (forall key: Key :: position(key, 0) == 0)
      && (forall n: nat :: reply(n).error != Ok && reply(n).error != Unsupported)
      && (forall key: Key, i: nat :: i < |list(key)| ==> ValidNode(list(key)[i]))
    }

    /** Begin an enumeration: it gets past n entries, and then ends with err. */
    method Enumerate(key: Key) returns (n: nat, err: Error, memory: nat)
      requires Valid()
      modifies this
      ensures asked == old(asked) + 1
      ensures n <= |list(key)| && memory == reply(old(asked)).memory
      ensures err == if reply(old(asked)).reach >= |list(key)| then Ok else reply(old(asked)).error
      ensures n == if err == Ok then |list(key)| else reply(old(asked)).reach
      ensures err != Unsupported
    {
      var r := reply(asked);
      asked := asked + 1;
      n, err := if r.reach >= |list(key)| then |list(key)| else r.reach, if r.reach >= |list(key)| then Ok else r.error;
      memory := r.memory;
    }
  }

  /** These entries, packed one by one, outgrow a budget. */
  predicate Outgrows(budget: nat, nodes: seq<Node>) {
    nodes != [] && PackedBytes(|nodes|, PoolBytes(nodes)) > budget
  }

  predicate Within(n: Node, longest: nat) {
    |n.name| <= longest && (n.comment.Some? ==> |n.comment.value| <= longest)
  }

  /** A directory does not outgrow a budget that has room for its entries, each with the longest strings there are. */
  lemma {:induction false} SmallDirectoriesFit(budget: nat, nodes: seq<Node>, longest: nat)
    requires forall i :: 0 <= i < |nodes| ==> Within(nodes[i], longest)
    requires HEADER_BYTES + |nodes| * (ENTRY_BYTES + 2 * (longest + 1)) <= budget
    ensures !Outgrows(budget, nodes)
  {
    StringsWithin(nodes, longest);
    assert |nodes| * (ENTRY_BYTES + 2 * (longest + 1)) == |nodes| * ENTRY_BYTES + |nodes| * (2 * (longest + 1));
  }

  lemma {:induction false} StringsWithin(nodes: seq<Node>, longest: nat)
    requires forall i :: 0 <= i < |nodes| ==> Within(nodes[i], longest)
    ensures PoolBytes(nodes) <= |nodes| * (2 * (longest + 1))
    decreases |nodes|
  {
    if nodes != [] {
      var last := |nodes| - 1;
      assert forall i :: 0 <= i < last ==> nodes[..last][i] == nodes[i];
      StringsWithin(nodes[..last], longest);
      assert |nodes| * (2 * (longest + 1)) == last * (2 * (longest + 1)) + 2 * (longest + 1);
    }
  }

  /** The entries that an enumeration packs before it fails or memory runs out. */
  function Packable(nodes: seq<Node>, reply: Reply): (r: seq<Node>)
    ensures r <= nodes
  {
    if reply.reach <= reply.memory && reply.reach < |nodes| then nodes[..reply.reach]
    else if reply.memory < |nodes| then nodes[..reply.memory]
    else nodes
  }

  /** Whether an enumeration that goes like this gives a directory that can be served. */
  predicate Fits(budget: nat, nodes: seq<Node>, reply: Reply) {
    reply.reach >= |nodes| && reply.memory > |nodes| && !Outgrows(budget, nodes)
  }

  /** What a remembered extent means: some directory there outgrows the budget. */
  ghost predicate KnownOversize(budget: nat, list: Key -> seq<Node>, extent: (Lba, nat)) {
    extent.1 == 0 || exists key: Key :: key.lba == extent.0 && key.length == extent.1 && key.backend != BACKEND_CDDA && Outgrows(budget, list(key))
  }

  ghost predicate SameExtentSameList(list: Key -> seq<Node>) {
    forall a: Key, b: Key :: a.lba == b.lba && a.length == b.length && a.backend != BACKEND_CDDA && b.backend != BACKEND_CDDA ==>
      list(a) == list(b)
  }

  function Ref(l: seq<Dir>, k: int): Dir? {
    if 0 <= k < |l| then l[k] else null
  }

  function Total(l: seq<Dir>): nat {
    if l == [] then 0 else Total(l[..|l| - 1]) + l[|l| - 1].bytes
  }

  function Without(l: seq<Dir>, k: nat): (m: seq<Dir>)
    requires k < |l|
    ensures |m| == |l| - 1
  {
    l[..k] + l[k + 1..]
  }

  ghost predicate UniqueKeys(l: seq<Dir>) {
    forall i, j :: 0 <= i < j < |l| ==> l[i].key != l[j].key
  }

  lemma {:induction false} TotalConcat(a: seq<Dir>, b: seq<Dir>)
    ensures Total(a + b) == Total(a) + Total(b)
    decreases |b|
  {
    if b == [] {
      assert a + b == a;
    } else {
      TotalConcat(a, b[..|b| - 1]);
      assert (a + b)[..|a + b| - 1] == a + b[..|b| - 1];
    }
  }

  lemma {:induction false} TotalOne(d: Dir)
    ensures Total([d]) == d.bytes
  {
    assert [d][..0] == [];
  }

  lemma {:induction false} TotalWithout(l: seq<Dir>, k: nat)
    requires k < |l|
    ensures Total(l) == Total(Without(l, k)) + l[k].bytes
  {
    hide Total;
    assert l == l[..k] + [l[k]] + l[k + 1..];
    TotalConcat(l[..k] + [l[k]], l[k + 1..]);
    TotalConcat(l[..k], [l[k]]);
    TotalConcat(l[..k], l[k + 1..]);
    TotalOne(l[k]);
  }

  lemma {:induction false} WithoutAt(l: seq<Dir>, k: nat, j: int)
    requires k < |l| && j >= -1
    ensures Ref(Without(l, k), j) == if j < k then Ref(l, j) else Ref(l, j + 1)
  {
  }

  lemma {:induction false} WithoutMembers(l: seq<Dir>, k: nat)
    requires k < |l| && NoDup(l)
    ensures var m := Without(l, k);
            && NoDup(m) && l[k] !in m && (UniqueKeys(l) ==> UniqueKeys(m))
            && (forall x :: x in l && x != l[k] ==> x in m) && (forall x :: x in m ==> x in l)
  {
    var m := Without(l, k);
    assert forall j :: 0 <= j < |m| ==> m[j] == l[if j < k then j else j + 1];
    forall x | x in l && x != l[k]
      ensures x in m
    {
      var i :| 0 <= i < |l| && l[i] == x;
      assert m[if i < k then i else i - 1] == x;
    }
  }

  lemma {:induction false} WithoutDistinct(l: seq<Dir>, k: nat)
    requires k < |l| && NoDup(l)
    ensures NoDup(Without(l, k))
  {
    WithoutMembers(l, k);
  }

  /** An element of a list without repetition stands nowhere else in it. */
  lemma {:induction false} OnlyAt(l: seq<Dir>, k: int)
    requires NoDup(l)
    ensures 0 <= k < |l| ==> forall j {:trigger l[j]} :: 0 <= j < |l| && j != k ==> l[j] != l[k]
  {
  }

  /** Joining the neighbours of element k links the list without it. */
  lemma {:induction false} Relinked(l: seq<Dir>, k: nat, prev: seq<Dir?>, next: seq<Dir?>)
    requires k < |l| && |prev| == |next| == |l|
    requires forall j {:trigger prev[j]} :: 0 <= j < |l| && j != k ==> prev[j] == if j == k + 1 then Ref(l, k - 1) else Ref(l, j - 1)
    requires forall j {:trigger next[j]} :: 0 <= j < |l| && j != k ==> next[j] == if j == k - 1 then Ref(l, k + 1) else Ref(l, j + 1)
    ensures var m := Without(l, k);
            forall j {:trigger m[j]} :: 0 <= j < |m| ==>
              var i := if j < k then j else j + 1;
              m[j] == l[i] && prev[i] == Ref(m, j - 1) && next[i] == Ref(m, j + 1)
  {
    var m := Without(l, k);
    forall j {:trigger m[j]} | 0 <= j < |m|
      ensures var i := if j < k then j else j + 1;
              m[j] == l[i] && prev[i] == Ref(m, j - 1) && next[i] == Ref(m, j + 1)
    {
      var i := if j < k then j else j + 1;
      assert m[j] == l[i];
      WithoutAt(l, k, j - 1);
      WithoutAt(l, k, j + 1);
    }
  }

  /** How far trimming has come: the directories before p are still to be
      looked at, those of moved got their second chance. */
  ghost predicate Trimming(before: seq<Dir>, was: set<Dir>, moved: seq<Dir>, p: nat, dirs: seq<Dir>) {
    && p <= |before| && |dirs| == |moved| + p && dirs == moved + before[..p] && NoDup(dirs)
    && (UniqueKeys(before) ==> UniqueKeys(dirs))
    && (forall k :: 0 <= k < |moved| ==> moved[k] in before && moved[k] in was)
    && (p > 0 ==> forall i {:trigger before[i]} :: p <= i < |before| && before[i] in was ==> before[i] in moved)
  }

  lemma {:induction false} StartTrimming(before: seq<Dir>, was: set<Dir>)
    requires NoDup(before)
    ensures Trimming(before, was, [], |before|, before)
  {
    assert [] + before[..|before|] == before;
  }

  lemma {:induction false} TrimmedMembers(before: seq<Dir>, was: set<Dir>, moved: seq<Dir>, p: nat, dirs: seq<Dir>)
    requires Trimming(before, was, moved, p, dirs)
    ensures |dirs| == |moved| + p
    ensures forall k {:trigger dirs[k]} :: 0 <= k < |dirs| ==> dirs[k] in before
  {
    hide NoDup, UniqueKeys;
  }

  /** What becomes of the last directory keeps trimming on its way. */
  lemma {:induction false} KeepTrimming(before: seq<Dir>, was: set<Dir>, moved: seq<Dir>, p: nat, dirs: seq<Dir>)
    requires Trimming(before, was, moved, p, dirs) && dirs != []
    ensures var t, rest := dirs[|dirs| - 1], dirs[..|dirs| - 1];
            && t !in rest
            && (p > 0 && t in was ==> Trimming(before, was, [t] + moved, p - 1, [t] + rest))
            && (p > 0 && t !in was ==> Trimming(before, was, moved, p - 1, rest))
            && (p == 0 ==> |moved| > 0 && Trimming(before, was, moved[..|moved| - 1], 0, rest))
  {
    var last := |dirs| - 1;
    var t, rest := dirs[last], dirs[..last];
    WithoutMembers(dirs, last);
    WithoutLast(dirs, last);
    UniqueFront(t, rest, dirs, last);
    DistinctFront(t, rest);
    hide NoDup, UniqueKeys;
    if p > 0 {
      assert t == before[p - 1];
      assert rest == moved + before[..p - 1];
      assert [t] + rest == ([t] + moved) + before[..p - 1];
      assert forall i {:trigger before[i]} :: p - 1 <= i < |before| ==> i == p - 1 || p <= i;
      assert forall x :: x in moved ==> x in [t] + moved;
    } else {
      assert rest == moved[..last] + before[..0];
    }
  }

  lemma {:induction false} DistinctFront(t: Dir, l: seq<Dir>)
    requires NoDup(l) && t !in l
    ensures NoDup([t] + l)
  {
  }

  lemma {:induction false} EndTrimming(before: seq<Dir>, was: set<Dir>, moved: seq<Dir>, p: nat, dirs: seq<Dir>)
    requires Trimming(before, was, moved, p, dirs)
    ensures UniqueKeys(before) ==> UniqueKeys(dirs)
    ensures forall k {:trigger dirs[k]} :: 0 <= k < |dirs| ==> dirs[k] in before
    ensures (exists x :: x in before && x in was && x !in dirs) ==> forall y :: y in before && y !in was ==> y !in dirs
    ensures (forall x :: x in before ==> x !in was) ==> dirs <= before
  {
    hide NoDup, UniqueKeys;
    if moved != [] {
      assert moved[0] in before;
    }
    if p > 0 {
      forall x | x in before && x in was
        ensures x in dirs
      {
        var i :| 0 <= i < |before| && before[i] == x;
        if i < p {
          assert dirs[|moved| + i] == x;
        } else {
          var k :| 0 <= k < |moved| && moved[k] == x;
          assert dirs[k] == x;
        }
      }
    }
  }

  class Cache {
    const budget: nat
    var lruHead: Dir?
    var lruTail: Dir?
    var total: nat
    /** Extents known to outgrow the budget, length 0 for none. */
    var oversize: seq<(Lba, nat)>
    var oversizeNext: nat
    ghost var dirs: seq<Dir>

    ghost predicate Linked()
      reads this`lruHead, this`lruTail, this`dirs, dirs`lruPrev, dirs`lruNext
    {
      && NoDup(dirs)
      && lruHead == Ref(dirs, 0) && lruTail == Ref(dirs, |dirs| - 1)
      && (forall k {:trigger dirs[k].lruPrev} :: 0 <= k < |dirs| ==> dirs[k].lruPrev == Ref(dirs, k - 1))
      && (forall k {:trigger dirs[k].lruNext} :: 0 <= k < |dirs| ==> dirs[k].lruNext == Ref(dirs, k + 1))
    }

    ghost predicate Healthy(list: Key -> seq<Node>)
      reads this`dirs, dirs`hashes, dirs`hashed
    {
      && UniqueKeys(dirs)
      && forall d :: d in dirs ==> d.Sound() && d.Hashed() && d.nodes == list(d.key)
    }

    ghost predicate Valid(list: Key -> seq<Node>)
      reads this, dirs
    {
      && Linked() && Healthy(list)
      && total == Total(dirs) && total <= budget <= BUDGET_MAX
      && |oversize| == OVERSIZE_SLOTS && forall i :: 0 <= i < OVERSIZE_SLOTS ==> KnownOversize(budget, list, oversize[i])
    }

    /** Directories that the cache may keep at all. */
    predicate Cacheable(key: Key) {
      budget != 0 && key.backend != BACKEND_CDDA && key.length != 0
    }

    ghost predicate Caches(key: Key)
      reads this`dirs
    {
      exists d :: d in dirs && d.key == key
    }

    /** The extent of a directory is remembered, whatever its backend. */
    ghost predicate Remembers(key: Key)
      reads this`oversize
    {
      (key.lba, key.length) in oversize
    }

    /** Whether the cache answers for a directory. */
    ghost predicate Serves(backend: Backend, key: Key)
      reads this`dirs, this`oversize, backend`asked
    {
      Caches(key) || (!Remembers(key) && Fits(budget, backend.list(key), backend.reply(backend.asked)))
    }

    /** Requests to the backend that it takes to find out. */
    ghost function Tries(key: Key): nat
      reads this`dirs, this`oversize
    {
      if Caches(key) || Remembers(key) then 0 else 1
    }

    constructor (budget: nat)
      requires budget <= BUDGET_MAX
      ensures this.budget == budget && dirs == [] && forall list :: Valid(list)
    {
      this.budget, total, lruHead, lruTail, dirs := budget, 0, null, null, [];
      oversize, oversizeNext := seq(OVERSIZE_SLOTS, _ => (0, 0)), 0;
    }

    /** The links after taking out element k, while dirs still lists it. */
    ghost predicate Bridged(k: nat)
      requires k < |dirs|
      reads this, dirs
    {
      && lruHead == (if k == 0 then Ref(dirs, 1) else Ref(dirs, 0))
      && lruTail == (if k == |dirs| - 1 then Ref(dirs, k - 1) else Ref(dirs, |dirs| - 1))
      && (forall j {:trigger dirs[j].lruPrev} :: 0 <= j < |dirs| && j != k ==>
            dirs[j].lruPrev == if j == k + 1 then Ref(dirs, k - 1) else Ref(dirs, j - 1))
      && (forall j {:trigger dirs[j].lruNext} :: 0 <= j < |dirs| && j != k ==>
            dirs[j].lruNext == if j == k - 1 then Ref(dirs, k + 1) else Ref(dirs, j + 1))
    }

    method Bridge(d: Dir, ghost k: nat)
      requires Linked() && k < |dirs| && dirs[k] == d
      modifies this`lruHead, this`lruTail, dirs`lruPrev, dirs`lruNext
      ensures Bridged(k) && d.lruPrev == null && d.lruNext == null
    {
      hide NoDup, UniqueKeys;
      OnlyAt(dirs, k);
      OnlyAt(dirs, k - 1);
      OnlyAt(dirs, k + 1);
      if d.lruPrev != null {
        d.lruPrev.lruNext := d.lruNext;
      } else {
        lruHead := d.lruNext;
      }
      if d.lruNext != null {
        d.lruNext.lruPrev := d.lruPrev;
      } else {
        lruTail := d.lruPrev;
      }
      d.lruPrev, d.lruNext := null, null;
    }

    method Unlink(d: Dir, ghost k: nat)
      requires Linked() && k < |dirs| && dirs[k] == d
      modifies this`lruHead, this`lruTail, this`dirs, dirs`lruPrev, dirs`lruNext
      ensures Linked() && dirs == Without(old(dirs), k)
      ensures d.lruPrev == null && d.lruNext == null
    {
      hide NoDup, UniqueKeys, Without, Ref;
      ghost var l := dirs;
      Bridge(d, k);
      ghost var prev := seq(|l|, i requires 0 <= i < |l| reads l => l[i].lruPrev);
      ghost var next := seq(|l|, i requires 0 <= i < |l| reads l => l[i].lruNext);
      Relinked(l, k, prev, next);
      WithoutDistinct(l, k);
      WithoutAt(l, k, 0);
      WithoutAt(l, k, |l| - 2);
      dirs := Without(l, k);
    }

    method PushHead(d: Dir)
      requires Linked() && d !in dirs
      modifies this`lruHead, this`lruTail, this`dirs, d`lruPrev, d`lruNext, dirs`lruPrev
      ensures Linked() && dirs == [d] + old(dirs)
    {
      d.lruPrev := null;
      d.lruNext := lruHead;
      if lruHead != null {
        lruHead.lruPrev := d;
      } else {
        lruTail := d;
      }
      lruHead := d;
      dirs := [d] + dirs;
    }

    method Evict(d: Dir, ghost k: nat)
      requires Linked() && k < |dirs| && dirs[k] == d && total >= d.bytes
      modifies this`lruHead, this`lruTail, this`dirs, this`total, dirs`lruPrev, dirs`lruNext
      ensures Linked() && dirs == Without(old(dirs), k) && total == old(total) - d.bytes
    {
      Unlink(d, k);
      total := total - d.bytes;
    }

    /** Move the last directory back to the front, once. */
    method SecondChance(t: Dir)
      requires Linked() && dirs != [] && dirs[|dirs| - 1] == t
      modifies this`lruHead, this`lruTail, this`dirs, dirs`lruPrev, dirs`lruNext, t`referenced
      ensures Linked() && dirs == [t] + old(dirs)[..|old(dirs)| - 1] && !t.referenced
    {
      hide NoDup, UniqueKeys;
      ghost var last, l := |dirs| - 1, dirs;
      WithoutMembers(l, last);
      WithoutLast(l, last);
      t.referenced := false;
      Unlink(t, last);
      PushHead(t);
    }

    /** Deal with the last directory: evict it, or give it its second chance. */
    method TrimOne(ghost extra: nat, ghost before: seq<Dir>, ghost was: set<Dir>, ghost moved: seq<Dir>, ghost p: nat)
      returns (ghost moved': seq<Dir>, ghost p': nat)
      requires Linked() && total == Total(dirs) + extra && total > budget && lruTail != null
      requires Trimming(before, was, moved, p, dirs)
      requires forall k {:trigger dirs[k].referenced} :: 0 <= k < |dirs| ==> dirs[k].referenced == (k >= |moved| && dirs[k] in was)
      modifies this`lruHead, this`lruTail, this`dirs, this`total, dirs`lruPrev, dirs`lruNext, dirs`referenced
      ensures Linked() && total == Total(dirs) + extra
      ensures Trimming(before, was, moved', p', dirs)
      ensures forall k {:trigger dirs[k].referenced} :: 0 <= k < |dirs| ==> dirs[k].referenced == (k >= |moved'| && dirs[k] in was)
      ensures p' < p || (p' == p && |dirs| < |old(dirs)|)
    {
      hide NoDup, UniqueKeys, Total, Without, Trimming;
      var t := lruTail;
      ghost var last, l := |dirs| - 1, dirs;
      TotalWithout(l, last);
      KeepTrimming(before, was, moved, p, l);
      TrimmedMembers(before, was, moved, p, l);
      WithoutLast(l, last);
      OnlyAt(l, last);
      moved', p' := moved, p;
      if t.referenced {
        SecondChance(t);
        TotalFront(t, Without(l, last));
        moved', p' := [t] + moved, p - 1;
      } else {
        Evict(t, last);
        if p > 0 {
          p' := p - 1;
        } else {
          moved' := moved[..last];
        }
      }
    }

    /** Bring the list within budget, with extra bytes counted that are not on it. */
    method Trim(ghost extra: nat)
      requires Linked() && total == Total(dirs) + extra
      modifies this`lruHead, this`lruTail, this`dirs, this`total, dirs`lruPrev, dirs`lruNext, dirs`referenced
      ensures Linked() && total == Total(dirs) + extra
      ensures total <= budget || dirs == []
      ensures forall i {:trigger dirs[i]} :: 0 <= i < |dirs| ==> dirs[i] in old(dirs)
      ensures UniqueKeys(old(dirs)) ==> UniqueKeys(dirs)
      // nothing happens within budget
      ensures old(total) <= budget ==> dirs == old(dirs)
      // a directory used since it was last moved outlives all that were not
      ensures (exists x :: x in old(dirs) && old(x.referenced) && x !in dirs) ==>
                forall y :: y in old(dirs) && !old(y.referenced) ==> y !in dirs
      // without second chances, the least recent go first
      ensures (forall x :: x in old(dirs) ==> !old(x.referenced)) ==> dirs <= old(dirs)
    {
      hide NoDup, UniqueKeys, Total, Without, Trimming;
      ghost var before: seq<Dir>, moved: seq<Dir>, p: nat := dirs, [], |dirs|;
      ghost var was := set x | x in dirs && x.referenced;
      StartTrimming(before, was);
      while total > budget && lruTail != null
        invariant Linked() && total == Total(dirs) + extra
        invariant Trimming(before, was, moved, p, dirs)
        invariant forall k {:trigger dirs[k].referenced} :: 0 <= k < |dirs| ==> dirs[k].referenced == (k >= |moved| && dirs[k] in was)
        invariant old(total) <= budget ==> dirs == before
        decreases p, |dirs|
      {
        TrimmedMembers(before, was, moved, p, dirs);
        moved, p := TrimOne(extra, before, was, moved, p);
      }
      EndTrimming(before, was, moved, p, dirs);
    }

    /** The directory cached for key; when found it moves to the front, unless
        it stands near it and is only marked. */
    method FindExtent(key: Key) returns (d: Dir?, ghost k: nat)
      requires Linked()
      modifies this`lruHead, this`lruTail, this`dirs, dirs`lruPrev, dirs`lruNext, dirs`referenced
      ensures Linked()
      ensures d == null ==> dirs == old(dirs) && forall x :: x in dirs ==> x.key != key && x.referenced == old(x.referenced)
      ensures d != null ==> k < |old(dirs)| && old(dirs)[k] == d && d.key == key
      ensures d != null ==> dirs == if k < LRU_FRONT then old(dirs) else [d] + Without(old(dirs), k)
      ensures d != null ==> forall x :: x in old(dirs) ==> x.referenced == (old(x.referenced) || (x == d && k < LRU_FRONT))
    {
      hide NoDup, UniqueKeys;
      ghost var l := dirs;
      d, k := lruHead, 0;
      var pos := 0;
      while d != null
        invariant Linked() && dirs == l && d == Ref(l, pos) && pos <= |l|
        invariant forall j :: 0 <= j < pos ==> l[j].key != key
        invariant forall x :: x in l ==> x.referenced == old(x.referenced)
        decreases |l| - pos
      {
        if d.key == key {
          k := pos;
          if pos >= LRU_FRONT {
            WithoutMembers(l, k);
            Unlink(d, k);
            PushHead(d);
          } else {
            d.referenced := true;
          }
          return;
        }
        d := d.lruNext;
        pos := pos + 1;
      }
    }

    /** Finding leaves the same directories cached. */
    lemma {:induction false} FoundKeeps(l: seq<Dir>, d: Dir, k: nat)
      requires k < |l| && l[k] == d && NoDup(l)
      ensures var m := [d] + Without(l, k);
              && Total(m) == Total(l) && (UniqueKeys(l) ==> UniqueKeys(m)) && (forall x :: x in m <==> x in l)
    {
      TotalWithout(l, k);
      TotalFront(d, Without(l, k));
      UniqueFront(d, Without(l, k), l, k);
      WithoutMembers(l, k);
    }

    /** Find a directory; the cache stays valid. */
    method Find(key: Key, ghost list: Key -> seq<Node>) returns (d: Dir?)
      requires Valid(list)
      modifies this`lruHead, this`lruTail, this`dirs, dirs`lruPrev, dirs`lruNext, dirs`referenced
      ensures Valid(list) && total == old(total) && (forall x :: x in dirs <==> x in old(dirs)) && forall i {:trigger dirs[i]} :: 0 <= i < |dirs| ==> dirs[i] in old(dirs)
      ensures d == null ==> forall x :: x in dirs ==> x.key != key
      ensures d != null ==> d in dirs && d.key == key
    {
      hide NoDup, UniqueKeys, Total, Without, Dir.Sound, Dir.Hashed;
      ghost var k;
      d, k := FindExtent(key);
      if d != null {
        FoundKeeps(old(dirs), d, k);
      }
    }

    /** Enumerate a directory and pack it, unless it outgrows the budget, memory
        runs out or the backend fails. */
    method Build(backend: Backend, key: Key) returns (d: Dir?, tooBig: bool)
      requires backend.Valid()
      modifies backend
      ensures d != null ==> fresh(d) && d.key == key && d.nodes == backend.list(key) && d.Sound() && d.Hashed() && !d.referenced
      ensures d != null ==> d.bytes <= budget || (backend.list(key) == [] && d.bytes == HEADER_BYTES)
      ensures backend.asked == old(backend.asked) + 1
      ensures tooBig <==> Outgrows(budget, Packable(backend.list(key), backend.reply(old(backend.asked))))
      ensures d != null <==> Fits(budget, backend.list(key), backend.reply(old(backend.asked)))
    {
      hide Represents, PoolBytes;
      ghost var nodes := backend.list(key);
      var entries, pool := [], [];
      NothingPacked();
      d, tooBig := null, false;
      var n, err, memory := backend.Enumerate(key);
      while |entries| < n
        invariant |entries| <= n && Represents(entries, pool, nodes[..|entries|]) && |pool| == PoolBytes(nodes[..|entries|])
        invariant |entries| <= memory || entries == []
        invariant backend.asked == old(backend.asked) + 1
        invariant entries == [] || PackedBytes(|entries|, |pool|) <= budget
      {
        ghost var i := |entries|;
        if memory <= |entries| {
          return;
        }
        assert nodes[..i + 1] == nodes[..i] + [nodes[i]];
        entries, pool := PackNode(entries, pool, backend.list(key)[|entries|], nodes[..i]);
        SameLength(entries, pool, nodes[..i + 1]);
        if PackedBytes(|entries|, |pool|) > budget {
          Overgrown(budget, nodes, i + 1);
          var packable := Packable(nodes, backend.reply(old(backend.asked)));
          assert packable[..i + 1] == nodes[..i + 1];
          Overgrown(budget, packable, i + 1);
          tooBig := true;
          return;
        }
      }
      if err != Ok || memory <= |entries| {
        return;
      }
      assert nodes[..n] == nodes && (n == 0 ==> nodes == []);
      d := new Dir(key, entries, pool, nodes);
    }

    lemma {:induction false} NothingPacked()
      ensures Represents([], [], []) && PoolBytes([]) == 0
    {
    }

    lemma {:induction false} SameLength(entries: seq<Entry>, pool: Bytes, nodes: seq<Node>)
      requires Represents(entries, pool, nodes)
      ensures |entries| == |nodes|
    {
    }

    lemma {:induction false} Overgrown(budget: nat, nodes: seq<Node>, k: nat)
      requires 0 < k <= |nodes| && Outgrows(budget, nodes[..k])
      ensures Outgrows(budget, nodes)
    {
      hide PoolBytes;
      PoolGrows(nodes, k);
    }

    lemma {:induction false} PoolGrows(nodes: seq<Node>, k: nat)
      requires k <= |nodes|
      ensures PoolBytes(nodes[..k]) <= PoolBytes(nodes)
      decreases |nodes|
    {
      if k == |nodes| {
        assert nodes[..k] == nodes;
      } else {
        PoolGrows(nodes[..|nodes| - 1], k);
        assert nodes[..|nodes| - 1][..k] == nodes[..k];
      }
    }

    /** Find a directory, or build and keep it. An orphan is not kept. */
    method Get(backend: Backend, key: Key) returns (d: Dir?, orphan: bool)
      requires Valid(backend.list) && backend.Valid() && Cacheable(key)
      modifies this, dirs, backend
      ensures Valid(backend.list)
      // answered exactly when cached, or neither remembered nor failing now
      ensures d != null <==> old(Serves(backend, key))
      ensures backend.asked == old(backend.asked + Tries(key))
      ensures d != null ==> d.key == key && d.nodes == backend.list(key) && d.Sound() && d.Hashed()
      ensures d != null ==> if orphan then fresh(d) && d !in dirs && backend.list(key) == [] && budget < HEADER_BYTES else d in dirs
      ensures d != null ==> if old(Caches(key)) then d in old(dirs) else fresh(d)
      ensures d != null && !orphan && !old(Caches(key)) ==> dirs[0] == d
      ensures forall i {:trigger dirs[i]} :: 0 <= i < |dirs| ==> dirs[i] in old(dirs) || dirs[i] == d
      // what is remembered afterwards
      ensures oversize == if old(Tries(key)) == 1 && Outgrows(budget, Packable(backend.list(key), backend.reply(old(backend.asked))))
                          then old(oversize[oversizeNext % OVERSIZE_SLOTS := (key.lba, key.length)]) else old(oversize)
    {
      hide NoDup, UniqueKeys, Total, Dir.Sound, Dir.Hashed, Cache.Linked, Outgrows, Packable, PoolBytes, KnownOversize;
      orphan := false;
      d := Find(key, backend.list);
      if d != null {
        return;
      }
      var i := 0;
      while i < OVERSIZE_SLOTS
        invariant i <= OVERSIZE_SLOTS && forall k :: 0 <= k < i ==> oversize[k] != (key.lba, key.length)
      {
        if oversize[i].1 == key.length && oversize[i].0 == key.lba {
          return;
        }
        i := i + 1;
      }
      var tooBig;
      d, tooBig := Build(backend, key);
      if d == null {
        if tooBig {
          NowKnown(backend.list, key, backend.reply(old(backend.asked)));
          oversize := oversize[oversizeNext % OVERSIZE_SLOTS := (key.lba, key.length)];
          oversizeNext := oversizeNext + 1;
        }
        return;
      }
      NotTooBig(backend.list(key), backend.reply(old(backend.asked)));
      if d.bytes > budget {
        orphan := true;
        return;
      }
      Keep(d, backend.list);
    }

    lemma {:induction false} NowKnown(list: Key -> seq<Node>, key: Key, reply: Reply)
      requires Outgrows(budget, Packable(list(key), reply)) && key.backend != BACKEND_CDDA
      ensures KnownOversize(budget, list, (key.lba, key.length))
    {
      var packable := Packable(list(key), reply);
      assert list(key)[..|packable|] == packable;
      Overgrown(budget, list(key), |packable|);
    }

    /** When directories of one extent list the same, whichever backend they are
        named under, building is skipped only where it is bound to fail: the
        cache answers as if nothing were remembered. */
    lemma {:induction false} SkipsOnlyFailures(backend: Backend, key: Key)
      requires Valid(backend.list) && SameExtentSameList(backend.list) && Cacheable(key)
      ensures Remembers(key) ==> Outgrows(budget, backend.list(key))
      ensures Serves(backend, key) <==> Caches(key) || Fits(budget, backend.list(key), backend.reply(backend.asked))
    {
      hide Outgrows, Linked, Healthy, Total;
      if Remembers(key) {
        var i :| 0 <= i < |oversize| && oversize[i] == (key.lba, key.length);
        assert KnownOversize(budget, backend.list, oversize[i]);
      }
    }

    lemma {:induction false} NotTooBig(nodes: seq<Node>, reply: Reply)
      requires Fits(budget, nodes, reply)
      ensures !Outgrows(budget, Packable(nodes, reply))
    {
    }

    /** Trimming leaves healthy directories. */
    method MakeRoom(ghost extra: nat, ghost list: Key -> seq<Node>)
      requires Linked() && Healthy(list) && total == Total(dirs) + extra
      modifies this`lruHead, this`lruTail, this`dirs, this`total, dirs`lruPrev, dirs`lruNext, dirs`referenced
      ensures Linked() && Healthy(list) && total == Total(dirs) + extra && (total <= budget || dirs == [])
      ensures forall i {:trigger dirs[i]} :: 0 <= i < |dirs| ==> dirs[i] in old(dirs)
    {
      hide NoDup, UniqueKeys, Total, Dir.Sound, Dir.Hashed, Cache.Linked;
      Trim(extra);
    }

    /** Count a new directory, make room for it, and put it in front. */
    method Keep(d: Dir, ghost list: Key -> seq<Node>)
      requires Valid(list) && d.bytes <= budget && d !in dirs && forall x :: x in dirs ==> x.key != d.key
      requires d.Sound() && d.Hashed() && d.nodes == list(d.key)
      modifies this`lruHead, this`lruTail, this`dirs, this`total, dirs`lruPrev, dirs`lruNext, dirs`referenced, d`lruPrev, d`lruNext
      ensures Valid(list) && dirs != [] && dirs[0] == d && forall i {:trigger dirs[i]} :: 0 <= i < |dirs| ==> dirs[i] == d || dirs[i] in old(dirs)
      // no wrap-around in 32 bits
      ensures old(total) + d.bytes < UINT32_LIMIT
    {
      hide NoDup, UniqueKeys, Total, Dir.Sound, Dir.Hashed, Cache.Linked, KnownOversize;
      total := total + d.bytes;
      MakeRoom(d.bytes, list);
      NewKey(d, dirs);
      TotalFront(d, dirs);
      if dirs == [] {
        EmptyList();
      }
      PushHead(d);
    }

    lemma {:induction false} NewKey(d: Dir, l: seq<Dir>)
      requires UniqueKeys(l) && forall x :: x in l ==> x.key != d.key
      ensures UniqueKeys([d] + l)
    {
    }

    /** Drop every directory. */
    method Flush()
      requires Linked() && total == Total(dirs) && |oversize| == OVERSIZE_SLOTS
      modifies this`lruHead, this`lruTail, this`dirs, this`total, this`oversize, dirs`lruPrev, dirs`lruNext
      ensures dirs == [] && total == 0 && |oversize| == OVERSIZE_SLOTS && (forall i :: 0 <= i < OVERSIZE_SLOTS ==> oversize[i].1 == 0)
      ensures forall list :: budget <= BUDGET_MAX ==> Valid(list)
    {
      hide NoDup, UniqueKeys, Total, Without;
      ghost var before := dirs;
      while lruTail != null
        invariant Linked() && total == Total(dirs) && dirs <= before && |oversize| == OVERSIZE_SLOTS
        decreases |dirs|
      {
        TotalWithout(dirs, |dirs| - 1);
        WithoutLast(dirs, |dirs| - 1);
        assert forall k {:trigger dirs[k]} :: 0 <= k < |dirs| ==> dirs[k] in before;
        Evict(lruTail, |dirs| - 1);
      }
      var extents := oversize;
      oversize := seq(|extents|, i requires 0 <= i < |extents| => (extents[i].0, 0));
      EmptyList();
    }

    lemma {:induction false} EmptyList()
      requires dirs == []
      ensures Total(dirs) == 0 && UniqueKeys(dirs)
    {
    }
  }

  lemma {:induction false} WithoutLast(l: seq<Dir>, k: nat)
    requires k == |l| - 1
    ensures Without(l, k) == l[..k]
  {
  }

  lemma {:induction false} TotalFront(d: Dir, l: seq<Dir>)
    ensures Total([d] + l) == d.bytes + Total(l)
  {
    TotalConcat([d], l);
    TotalOne(d);
  }

  lemma {:induction false} UniqueFront(d: Dir, l: seq<Dir>, whole: seq<Dir>, k: nat)
    requires k < |whole| && whole[k] == d && l == Without(whole, k)
    ensures UniqueKeys(whole) ==> UniqueKeys([d] + l)
  {
    assert forall j :: 0 <= j < |l| ==> l[j] == whole[if j < k then j else j + 1];
  }
}
