/**
 The objects a handler gives to its clients: locks, file handles, the entries
 they share, and the volumes they are on, across changes of medium.
 */
module Handler {
  import opened Basics

  /** An address; 0 is no object. */
  type Ptr = nat

  const NULL: Ptr := 0

  datatype Error = Done | NoDisk | NotMounted | NoFreeStore | InvalidLock | ObjectNotFound | WrongType | WriteProtected | Unresolved

  datatype Node = Node(isDir: bool, id: nat)

  /** An object of the file system with the directories above it. */
  datatype Object = Object(node: Node, parent: Node, grandparent: Node, hasGrandparent: bool)

  /** What resolving a path, or a directory's parent, comes to. */
  datatype Resolution = Found(what: Object) | Unfound(error: Error)

  /** What is in the drive; DOS may refuse a node for the volume. */
  datatype Medium = Absent | Unreadable | Readable(nodeCreated: bool)

  datatype Entry = Entry(volume: Ptr, refcount: int, what: Object)
  datatype Lock = Lock(entry: Ptr, exclusive: bool, prev: Ptr, next: Ptr, link: Ptr)
  datatype Handle = Handle(entry: Ptr, pos: nat)
  /** A volume; lockList is what its DOS node shows of the chain of locks. */
  datatype Volume = Volume(objectCount: int, lockHead: Ptr, lockList: Ptr)

  // ----- reference counts -----

  function LocksOn(locks: map<Ptr, Lock>, e: Ptr): set<Ptr> {
    set l | l in locks && locks[l].entry == e
  }

  function HandlesOn(handles: map<Ptr, Handle>, e: Ptr): set<Ptr> {
    set h | h in handles && handles[h].entry == e
  }

  /** Every entry is counted once for each lock and handle on it, and once more
      for the reference the handler itself is working with, if it is that. */
  ghost predicate Refs(entries: map<Ptr, Entry>, locks: map<Ptr, Lock>, handles: map<Ptr, Handle>, extra: Ptr) {
    && (forall l :: l in locks ==> locks[l].entry in entries)
    && (forall h :: h in handles ==> handles[h].entry in entries)
    && (forall e :: e in entries ==>
          entries[e].refcount == |LocksOn(locks, e)| + |HandlesOn(handles, e)| + (if e == extra then 1 else 0) && entries[e].refcount > 0)
    && (extra != NULL ==> extra in entries) && NULL !in entries
  }

  // ----- object counts -----

  function LockVolume(entries: map<Ptr, Entry>, x: Lock): Ptr {
    if x.entry in entries then entries[x.entry].volume else NULL
  }

  function HandleVolume(entries: map<Ptr, Entry>, x: Handle): Ptr {
    if x.entry in entries then entries[x.entry].volume else NULL
  }

  function VolumeLocks(entries: map<Ptr, Entry>, locks: map<Ptr, Lock>, v: Ptr): set<Ptr> {
    set l | l in locks && LockVolume(entries, locks[l]) == v
  }

  function VolumeHandles(entries: map<Ptr, Entry>, handles: map<Ptr, Handle>, v: Ptr): set<Ptr> {
    set h | h in handles && HandleVolume(entries, handles[h]) == v
  }

  /** Every volume is counted once for each lock and handle on it, and once more
      for the object just taken off it, if it is that one. */
  ghost predicate Counts(entries: map<Ptr, Entry>, locks: map<Ptr, Lock>, handles: map<Ptr, Handle>, volumes: map<Ptr, Volume>, owed: Ptr) {
    && (forall l :: l in locks ==> LockVolume(entries, locks[l]) in volumes)
    && (forall h :: h in handles ==> HandleVolume(entries, handles[h]) in volumes)
    && (forall v :: v in volumes ==>
          volumes[v].objectCount == |VolumeLocks(entries, locks, v)| + |VolumeHandles(entries, handles, v)| + (if v == owed then 1 else 0))
    && (owed != NULL ==> owed in volumes)
    && NULL !in volumes
  }

  // ----- chains of locks -----

  function At(l: seq<Ptr>, k: int): Ptr {
    if 0 <= k < |l| then l[k] else NULL
  }

  /** The locks of chain are linked both ways, and by their DOS links. */
  ghost predicate Linked(locks: map<Ptr, Lock>, head: Ptr, chain: seq<Ptr>) {
    && NoDup(chain) && NULL !in chain && head == At(chain, 0)
    && (forall k :: 0 <= k < |chain| ==> chain[k] in locks)
    && (forall k {:trigger locks[chain[k]]} :: 0 <= k < |chain| ==>
          locks[chain[k]].prev == At(chain, k - 1) && locks[chain[k]].next == At(chain, k + 1) && locks[chain[k]].link == At(chain, k + 1))
  }

  /** The chain of a volume holds exactly the locks on it. */
  ghost predicate Chained(entries: map<Ptr, Entry>, locks: map<Ptr, Lock>, volumes: map<Ptr, Volume>, chains: map<Ptr, seq<Ptr>>) {
    && chains.Keys == volumes.Keys
    && (forall v :: v in volumes ==> Linked(locks, volumes[v].lockHead, chains[v]) && volumes[v].lockList == volumes[v].lockHead)
    && (forall v :: v in volumes ==> forall l {:trigger l in chains[v]} :: l in chains[v] <==> l in locks && LockVolume(entries, locks[l]) == v)
  }

  // ----- memory -----

  /** Objects in use and objects kept for reuse are different, and all were allocated. */
  ghost predicate Pooled(used: set<Ptr>, pool: seq<Ptr>, top: nat) {
    && NoDup(pool) && (forall p :: p in used ==> 0 < p < top)
    && (forall i :: 0 <= i < |pool| ==> 0 < pool[i] < top && pool[i] !in used)
  }

  lemma {:induction false} PoolPop(used: set<Ptr>, pool: seq<Ptr>, top: nat)
    requires Pooled(used, pool, top) && pool != []
    ensures pool[0] !in used && pool[0] != NULL && Pooled(used + {pool[0]}, pool[1..], top)
  {
  }

  lemma {:induction false} PoolPush(used: set<Ptr>, pool: seq<Ptr>, top: nat, p: Ptr)
    requires Pooled(used, pool, top) && p in used
    ensures Pooled(used - {p}, [p] + pool, top)
  {
  }

  lemma {:induction false} PoolGrow(used: set<Ptr>, pool: seq<Ptr>, top: nat, top': nat)
    requires Pooled(used, pool, top) && top <= top'
    ensures Pooled(used, pool, top')
    ensures forall p :: top <= p < top' && p != NULL ==> p !in used && Pooled(used + {p}, pool, top')
  {
  }

  lemma {:induction false} LocksOnAdd(locks: map<Ptr, Lock>, l: Ptr, x: Lock, e: Ptr)
    requires l !in locks
    ensures |LocksOn(locks[l := x], e)| == |LocksOn(locks, e)| + if x.entry == e then 1 else 0
  {
    var a, b := LocksOn(locks, e), LocksOn(locks[l := x], e);
    if x.entry == e {
      assert b == a + {l};
    } else {
      assert b == a;
    }
  }

  lemma {:induction false} LocksOnDrop(locks: map<Ptr, Lock>, l: Ptr, e: Ptr)
    requires l in locks
    ensures |LocksOn(locks - {l}, e)| == |LocksOn(locks, e)| - if locks[l].entry == e then 1 else 0
  {
    var a, b := LocksOn(locks, e), LocksOn(locks - {l}, e);
    forall o: Ptr
      ensures o in b <==> o in a && o != l
    {
    }
    assert b == a - {l};
  }

  lemma {:induction false} HandlesOnAdd(handles: map<Ptr, Handle>, h: Ptr, x: Handle, e: Ptr)
    requires h !in handles
    ensures |HandlesOn(handles[h := x], e)| == |HandlesOn(handles, e)| + if x.entry == e then 1 else 0
  {
    var a, b := HandlesOn(handles, e), HandlesOn(handles[h := x], e);
    if x.entry == e {
      assert b == a + {h};
    } else {
      assert b == a;
    }
  }

  lemma {:induction false} HandlesOnDrop(handles: map<Ptr, Handle>, h: Ptr, e: Ptr)
    requires h in handles
    ensures |HandlesOn(handles - {h}, e)| == |HandlesOn(handles, e)| - if handles[h].entry == e then 1 else 0
  {
    var a, b := HandlesOn(handles, e), HandlesOn(handles - {h}, e);
    forall o: Ptr
      ensures o in b <==> o in a && o != h
    {
    }
    assert b == a - {h};
  }

  /** Locks that differ only in their links. */
  ghost predicate Relinked(a: map<Ptr, Lock>, b: map<Ptr, Lock>) {
    a.Keys == b.Keys && forall l :: l in a ==> b[l].entry == a[l].entry
  }

  // ----- reference counts, step by step -----

  /** A new lock takes over the handler's own reference. */
  lemma {:induction false} RefsLock(entries: map<Ptr, Entry>, locks: map<Ptr, Lock>, handles: map<Ptr, Handle>, l: Ptr, x: Lock)
    requires Refs(entries, locks, handles, x.entry) && l !in locks && x.entry != NULL
    ensures Refs(entries, locks[l := x], handles, NULL)
  {
    hide LocksOn, HandlesOn;
    forall e | e in entries {
      LocksOnAdd(locks, l, x, e);
    }
  }

  /** The reference of a lock taken away becomes the handler's own. */
  lemma {:induction false} RefsUnlock(entries: map<Ptr, Entry>, locks: map<Ptr, Lock>, handles: map<Ptr, Handle>, l: Ptr)
    requires Refs(entries, locks, handles, NULL) && l in locks
    ensures Refs(entries, locks - {l}, handles, locks[l].entry)
  {
    hide LocksOn, HandlesOn;
    forall e | e in entries {
      LocksOnDrop(locks, l, e);
    }
  }

  lemma {:induction false} RefsClose(entries: map<Ptr, Entry>, locks: map<Ptr, Lock>, handles: map<Ptr, Handle>, h: Ptr)
    requires Refs(entries, locks, handles, NULL) && h in handles
    ensures Refs(entries, locks, handles - {h}, handles[h].entry)
  {
    hide LocksOn, HandlesOn;
    forall e | e in entries {
      HandlesOnDrop(handles, h, e);
    }
  }

  /** A new handle retains its entry. */
  lemma {:induction false} RefsOpen(entries: map<Ptr, Entry>, locks: map<Ptr, Lock>, handles: map<Ptr, Handle>, extra: Ptr, h: Ptr, x: Handle)
    requires Refs(entries, locks, handles, extra) && h !in handles && x.entry in entries
    ensures var y := entries[x.entry];
            Refs(entries[x.entry := y.(refcount := y.refcount + 1)], locks, handles[h := x], extra)
  {
    hide LocksOn, HandlesOn;
    forall e | e in entries {
      HandlesOnAdd(handles, h, x, e);
    }
  }

  lemma {:induction false} RefsRetain(entries: map<Ptr, Entry>, locks: map<Ptr, Lock>, handles: map<Ptr, Handle>, e: Ptr)
    requires Refs(entries, locks, handles, NULL) && e in entries
    ensures Refs(entries[e := entries[e].(refcount := entries[e].refcount + 1)], locks, handles, e)
  {
    hide LocksOn, HandlesOn;
  }

  /** Giving up the handler's own reference frees the entry if it was the last. */
  lemma {:induction false} RefsRelease(entries: map<Ptr, Entry>, locks: map<Ptr, Lock>, handles: map<Ptr, Handle>, e: Ptr)
    requires Refs(entries, locks, handles, e) && e != NULL
    ensures entries[e].refcount != 1 ==> Refs(entries[e := entries[e].(refcount := entries[e].refcount - 1)], locks, handles, NULL)
    ensures entries[e].refcount == 1 ==>
              && Refs(entries - {e}, locks, handles, NULL)
              && (forall l :: l in locks ==> locks[l].entry != e) && (forall h :: h in handles ==> handles[h].entry != e)
  {
    if entries[e].refcount == 1 {
      assert LocksOn(locks, e) == {} && HandlesOn(handles, e) == {};
      assert forall l :: l in locks && locks[l].entry == e ==> l in LocksOn(locks, e);
      assert forall h :: h in handles && handles[h].entry == e ==> h in HandlesOn(handles, e);
    }
    hide LocksOn, HandlesOn;
  }

  lemma {:induction false} RefsNew(entries: map<Ptr, Entry>, locks: map<Ptr, Lock>, handles: map<Ptr, Handle>, e: Ptr, x: Entry)
    requires Refs(entries, locks, handles, NULL) && e !in entries && e != NULL && x.refcount == 1
    ensures Refs(entries[e := x], locks, handles, e)
  {
    assert LocksOn(locks, e) == {} && HandlesOn(handles, e) == {};
    hide LocksOn, HandlesOn;
  }

  lemma {:induction false} RefsRelinked(entries: map<Ptr, Entry>, a: map<Ptr, Lock>, b: map<Ptr, Lock>, handles: map<Ptr, Handle>, extra: Ptr)
    requires Refs(entries, a, handles, extra) && Relinked(a, b)
    ensures Refs(entries, b, handles, extra)
  {
    forall e
      ensures LocksOn(a, e) == LocksOn(b, e)
    {
    }
    hide LocksOn, HandlesOn;
  }

  // ----- object counts, step by step -----

  /** Entries that differ, for the locks and handles there are, in other things than their volumes. */
  ghost predicate SameVolumes(a: map<Ptr, Entry>, b: map<Ptr, Entry>, locks: map<Ptr, Lock>, handles: map<Ptr, Handle>) {
    && (forall l :: l in locks ==> LockVolume(a, locks[l]) == LockVolume(b, locks[l]))
    && (forall h :: h in handles ==> HandleVolume(a, handles[h]) == HandleVolume(b, handles[h]))
  }

  /** Volumes that differ in other things than their object counts. */
  ghost predicate SameCounts(a: map<Ptr, Volume>, b: map<Ptr, Volume>) {
    a.Keys == b.Keys && forall v :: v in a ==> a[v].objectCount == b[v].objectCount
  }

  lemma {:induction false} CountsFrame(a: map<Ptr, Entry>, b: map<Ptr, Entry>, locks: map<Ptr, Lock>, locks': map<Ptr, Lock>,
                                       handles: map<Ptr, Handle>, volumes: map<Ptr, Volume>, volumes': map<Ptr, Volume>, owed: Ptr)
    requires Counts(a, locks, handles, volumes, owed) && SameVolumes(a, b, locks, handles) && Relinked(locks, locks') && SameCounts(volumes, volumes')
    ensures Counts(b, locks', handles, volumes', owed)
  {
    forall v
      ensures VolumeLocks(a, locks, v) == VolumeLocks(b, locks', v) && VolumeHandles(a, handles, v) == VolumeHandles(b, handles, v)
    {
      assert forall l :: l in locks ==> LockVolume(b, locks'[l]) == LockVolume(a, locks[l]);
    }
    hide VolumeLocks, VolumeHandles, HandleVolume;
    assert forall l :: l in locks' ==> LockVolume(b, locks'[l]) == LockVolume(a, locks[l]);
  }

  lemma {:induction false} VolumeLocksAdd(entries: map<Ptr, Entry>, locks: map<Ptr, Lock>, l: Ptr, x: Lock, v: Ptr)
    requires l !in locks
    ensures |VolumeLocks(entries, locks[l := x], v)| == |VolumeLocks(entries, locks, v)| + if LockVolume(entries, x) == v then 1 else 0
  {
    hide LockVolume;
    var a, b := VolumeLocks(entries, locks, v), VolumeLocks(entries, locks[l := x], v);
    forall o: Ptr
      ensures o in b <==> if o == l then LockVolume(entries, x) == v else o in a
    {
    }
    assert b - {l} == a;
  }

  lemma {:induction false} VolumeLocksDrop(entries: map<Ptr, Entry>, locks: map<Ptr, Lock>, l: Ptr, v: Ptr)
    requires l in locks
    ensures |VolumeLocks(entries, locks - {l}, v)| == |VolumeLocks(entries, locks, v)| - if LockVolume(entries, locks[l]) == v then 1 else 0
  {
    hide LockVolume;
    var a, b := VolumeLocks(entries, locks, v), VolumeLocks(entries, locks - {l}, v);
    forall o: Ptr
      ensures o in b <==> o in a && o != l
    {
    }
    assert b == a - {l};
  }

  lemma {:induction false} VolumeHandlesAdd(entries: map<Ptr, Entry>, handles: map<Ptr, Handle>, h: Ptr, x: Handle, v: Ptr)
    requires h !in handles
    ensures |VolumeHandles(entries, handles[h := x], v)| == |VolumeHandles(entries, handles, v)| + if HandleVolume(entries, x) == v then 1 else 0
  {
    hide HandleVolume;
    var a, b := VolumeHandles(entries, handles, v), VolumeHandles(entries, handles[h := x], v);
    forall o: Ptr
      ensures o in b <==> if o == h then HandleVolume(entries, x) == v else o in a
    {
    }
    assert b - {h} == a;
  }

  lemma {:induction false} VolumeHandlesDrop(entries: map<Ptr, Entry>, handles: map<Ptr, Handle>, h: Ptr, v: Ptr)
    requires h in handles
    ensures |VolumeHandles(entries, handles - {h}, v)| == |VolumeHandles(entries, handles, v)| - if HandleVolume(entries, handles[h]) == v then 1 else 0
  {
    hide HandleVolume;
    var a, b := VolumeHandles(entries, handles, v), VolumeHandles(entries, handles - {h}, v);
    forall o: Ptr
      ensures o in b <==> o in a && o != h
    {
    }
    assert b == a - {h};
  }

  lemma {:induction false} CountsLock(entries: map<Ptr, Entry>, locks: map<Ptr, Lock>, handles: map<Ptr, Handle>, volumes: map<Ptr, Volume>, l: Ptr, x: Lock)
    requires Counts(entries, locks, handles, volumes, NULL) && l !in locks && LockVolume(entries, x) in volumes
    ensures var v := LockVolume(entries, x);
            Counts(entries, locks[l := x], handles, volumes[v := volumes[v].(objectCount := volumes[v].objectCount + 1)], NULL)
  {
    hide VolumeLocks, VolumeHandles, LockVolume, HandleVolume;
    forall v | v in volumes {
      VolumeLocksAdd(entries, locks, l, x, v);
    }
  }

  lemma {:induction false} CountsOpen(entries: map<Ptr, Entry>, locks: map<Ptr, Lock>, handles: map<Ptr, Handle>, volumes: map<Ptr, Volume>, h: Ptr, x: Handle)
    requires Counts(entries, locks, handles, volumes, NULL) && h !in handles && HandleVolume(entries, x) in volumes
    ensures var v := HandleVolume(entries, x);
            Counts(entries, locks, handles[h := x], volumes[v := volumes[v].(objectCount := volumes[v].objectCount + 1)], NULL)
  {
    hide VolumeLocks, VolumeHandles, LockVolume, HandleVolume;
    forall v | v in volumes {
      VolumeHandlesAdd(entries, handles, h, x, v);
    }
  }

  lemma {:induction false} CountsUnlock(entries: map<Ptr, Entry>, locks: map<Ptr, Lock>, handles: map<Ptr, Handle>, volumes: map<Ptr, Volume>, l: Ptr)
    requires Counts(entries, locks, handles, volumes, NULL) && l in locks
    ensures Counts(entries, locks - {l}, handles, volumes, LockVolume(entries, locks[l]))
  {
    hide VolumeLocks, VolumeHandles, LockVolume, HandleVolume;
    forall v | v in volumes {
      VolumeLocksDrop(entries, locks, l, v);
    }
  }

  lemma {:induction false} CountsClose(entries: map<Ptr, Entry>, locks: map<Ptr, Lock>, handles: map<Ptr, Handle>, volumes: map<Ptr, Volume>, h: Ptr)
    requires Counts(entries, locks, handles, volumes, NULL) && h in handles
    ensures Counts(entries, locks, handles - {h}, volumes, HandleVolume(entries, handles[h]))
  {
    hide VolumeLocks, VolumeHandles, LockVolume, HandleVolume;
    forall v | v in volumes {
      VolumeHandlesDrop(entries, handles, h, v);
    }
  }

  lemma {:induction false} CountsSettled(entries: map<Ptr, Entry>, locks: map<Ptr, Lock>, handles: map<Ptr, Handle>, volumes: map<Ptr, Volume>, v: Ptr)
    requires Counts(entries, locks, handles, volumes, v) && v != NULL
    ensures volumes[v].objectCount > 0
    ensures Counts(entries, locks, handles, volumes[v := volumes[v].(objectCount := volumes[v].objectCount - 1)], NULL)
  {
    hide VolumeLocks, VolumeHandles, LockVolume, HandleVolume;
  }

  /** A volume without objects has no locks and no handles. */
  lemma {:induction false} NoObjects(entries: map<Ptr, Entry>, locks: map<Ptr, Lock>, handles: map<Ptr, Handle>, volumes: map<Ptr, Volume>, v: Ptr)
    requires Counts(entries, locks, handles, volumes, NULL) && v in volumes && volumes[v].objectCount == 0
    ensures forall l :: l in locks ==> LockVolume(entries, locks[l]) != v
    ensures forall h :: h in handles ==> HandleVolume(entries, handles[h]) != v
    ensures Counts(entries, locks, handles, volumes - {v}, NULL)
  {
    assert VolumeLocks(entries, locks, v) == {} && VolumeHandles(entries, handles, v) == {};
    assert forall l :: l in locks && LockVolume(entries, locks[l]) == v ==> l in VolumeLocks(entries, locks, v);
    assert forall h :: h in handles && HandleVolume(entries, handles[h]) == v ==> h in VolumeHandles(entries, handles, v);
    hide VolumeLocks, VolumeHandles, LockVolume, HandleVolume;
  }

  lemma {:induction false} CountsMount(entries: map<Ptr, Entry>, locks: map<Ptr, Lock>, handles: map<Ptr, Handle>, volumes: map<Ptr, Volume>, v: Ptr, x: Volume)
    requires Counts(entries, locks, handles, volumes, NULL) && v !in volumes && v != NULL && x.objectCount == 0
    ensures Counts(entries, locks, handles, volumes[v := x], NULL)
  {
    assert VolumeLocks(entries, locks, v) == {} && VolumeHandles(entries, handles, v) == {};
    hide VolumeLocks, VolumeHandles, LockVolume, HandleVolume;
  }

  // ----- chains, step by step -----

  lemma {:induction false} LinkedFrame(a: map<Ptr, Lock>, b: map<Ptr, Lock>, head: Ptr, chain: seq<Ptr>)
    requires Linked(a, head, chain) && forall l :: l in chain ==> l in b && b[l] == a[l]
    ensures Linked(b, head, chain)
  {
    hide NoDup;
    forall k {:trigger b[chain[k]]} | 0 <= k < |chain|
      ensures chain[k] in b && b[chain[k]] == a[chain[k]]
    {
      assert chain[k] in chain;
    }
  }

  /** The locks after lock l goes in front of the chain at head. */
  function PushedLocks(locks: map<Ptr, Lock>, head: Ptr, l: Ptr, x: Lock): map<Ptr, Lock> {
    (if head in locks then locks[head := locks[head].(prev := l)] else locks)[l := x.(prev := NULL, next := head, link := head)]
  }

  lemma {:induction false} LinkedPush(locks: map<Ptr, Lock>, head: Ptr, chain: seq<Ptr>, l: Ptr, x: Lock)
    requires Linked(locks, head, chain) && l !in locks && l != NULL
    ensures Linked(PushedLocks(locks, head, l, x), l, [l] + chain)
  {
    hide NoDup, PushedLocks;
    var after, chain' := PushedLocks(locks, head, l, x), [l] + chain;
    PushedNoDup(locks, chain, l);
    PushedIs(locks, head, l, x, l);
    forall k | 0 <= k < |chain'|
      ensures chain'[k] in after
    {
      PushedIs(locks, head, l, x, chain'[k]);
    }
    forall k {:trigger after[chain'[k]]} | 0 <= k < |chain'|
      ensures after[chain'[k]].prev == At(chain', k - 1) && after[chain'[k]].next == At(chain', k + 1) && after[chain'[k]].link == At(chain', k + 1)
    {
      if k > 0 {
        assert locks[chain[k - 1]].next == At(chain, k) && locks[chain[k - 1]].prev == At(chain, k - 2);
        assert chain'[k] == chain[k - 1];
        PushedIs(locks, head, l, x, chain[k - 1]);
        HeadIsFirst(chain, k - 1);
      }
    }
  }

  lemma {:induction false} HeadIsFirst(chain: seq<Ptr>, k: nat)
    requires NoDup(chain) && k < |chain| && NULL !in chain
    ensures chain[k] == At(chain, 0) <==> k == 0
  {
  }

  lemma {:induction false} PushedNoDup(locks: map<Ptr, Lock>, chain: seq<Ptr>, l: Ptr)
    requires NoDup(chain) && l !in locks && forall k :: 0 <= k < |chain| ==> chain[k] in locks
    ensures NoDup([l] + chain)
  {
  }

  lemma {:induction false} PushedIs(locks: map<Ptr, Lock>, head: Ptr, l: Ptr, x: Lock, y: Ptr)
    requires l !in locks && (y == l || y in locks)
    ensures var after := PushedLocks(locks, head, l, x);
            && y in after
            && (y == l ==> after[y] == x.(prev := NULL, next := head, link := head))
            && (y != l ==> after[y] == if y == head then locks[y].(prev := l) else locks[y])
  {
  }

  /** The locks after lock l comes out of its chain. */
  function UnlinkedLocks(locks: map<Ptr, Lock>, l: Ptr): map<Ptr, Lock>
    requires l in locks
  {
    var x := locks[l];
    var a := if x.prev in locks then locks[x.prev := locks[x.prev].(next := x.next, link := x.next)] else locks;
    var b := if x.next in a then a[x.next := a[x.next].(prev := x.prev)] else a;
    b[l := b[l].(prev := NULL, next := NULL, link := NULL)]
  }

  function Without(l: seq<Ptr>, k: nat): (m: seq<Ptr>)
    requires k < |l|
    ensures |m| == |l| - 1
  {
    l[..k] + l[k + 1..]
  }

  lemma {:induction false} WithoutAt(l: seq<Ptr>, k: nat, j: int)
    requires k < |l| && j >= -1
    ensures At(Without(l, k), j) == if j < k then At(l, j) else At(l, j + 1)
  {
  }

  lemma {:induction false} WithoutMembers(l: seq<Ptr>, k: nat)
    requires k < |l| && NoDup(l)
    ensures var m := Without(l, k);
            NoDup(m) && forall x :: x in m <==> x in l && x != l[k]
  {
    var m := Without(l, k);
    assert forall j :: 0 <= j < |m| ==> m[j] == l[if j < k then j else j + 1];
    forall x | x in l && x != l[k]
      ensures x in m
    {
      var i :| 0 <= i < |l| && l[i] == x;
      assert m[if i < k then i else i - 1] == x;
    }
  }

  /** What taking out lock l does to another lock. */
  lemma {:induction false} UnlinkedIs(locks: map<Ptr, Lock>, l: Ptr, y: Ptr)
    requires l in locks && y in locks && y != l && NULL !in locks
    ensures var x, after := locks[l], UnlinkedLocks(locks, l);
            && y in after
            && after[y].prev == (if y == x.next then x.prev else locks[y].prev)
            && after[y].next == (if y == x.prev then x.next else locks[y].next)
            && after[y].link == (if y == x.prev then x.next else locks[y].link)
  {
  }

  /** What taking out element k does to every other element. */
  lemma {:induction false} UnlinkedAt(locks: map<Ptr, Lock>, head: Ptr, chain: seq<Ptr>, k: nat, i: nat)
    requires Linked(locks, head, chain) && NULL !in locks && k < |chain| && i < |chain| && i != k
    ensures var after := UnlinkedLocks(locks, chain[k]);
            && chain[i] in after
            && after[chain[i]].prev == (if i == k + 1 then At(chain, k - 1) else At(chain, i - 1))
            && after[chain[i]].next == (if i == k - 1 then At(chain, k + 1) else At(chain, i + 1))
            && after[chain[i]].link == after[chain[i]].next
  {
    hide UnlinkedLocks;
    UnlinkedIs(locks, chain[k], chain[i]);
    assert locks[chain[i]].prev == At(chain, i - 1) && locks[chain[k]].prev == At(chain, k - 1) && locks[chain[k]].next == At(chain, k + 1);
  }

  lemma {:induction false} UnlinkedElement(locks: map<Ptr, Lock>, head: Ptr, chain: seq<Ptr>, k: nat, j: nat)
    requires Linked(locks, head, chain) && NULL !in locks && k < |chain| && j < |chain| - 1
    ensures var after, m := UnlinkedLocks(locks, chain[k]) - {chain[k]}, Without(chain, k);
            && m[j] in after
            && after[m[j]].prev == At(m, j - 1) && after[m[j]].next == At(m, j + 1) && after[m[j]].link == At(m, j + 1)
  {
    hide UnlinkedLocks, Linked;
    WithoutAt(chain, k, j - 1);
    WithoutAt(chain, k, j);
    WithoutAt(chain, k, j + 1);
    LinkedNoDup(locks, head, chain);
    UnlinkedAt(locks, head, chain, k, if j < k then j else j + 1);
  }

  lemma {:induction false} LinkedUnlink(locks: map<Ptr, Lock>, head: Ptr, chain: seq<Ptr>, k: nat)
    requires Linked(locks, head, chain) && NULL !in locks && k < |chain|
    ensures Linked(UnlinkedLocks(locks, chain[k]) - {chain[k]}, if k == 0 then At(chain, 1) else head, Without(chain, k))
  {
    hide UnlinkedLocks, Without, NoDup;
    var after, m := UnlinkedLocks(locks, chain[k]) - {chain[k]}, Without(chain, k);
    WithoutMembers(chain, k);
    WithoutAt(chain, k, 0);
    assert NULL !in m;
    forall j | 0 <= j < |m|
      ensures m[j] in after
    {
      UnlinkedElement(locks, head, chain, k, j);
    }
    forall j {:trigger after[m[j]]} | 0 <= j < |m|
      ensures after[m[j]].prev == At(m, j - 1) && after[m[j]].next == At(m, j + 1) && after[m[j]].link == At(m, j + 1)
    {
      UnlinkedElement(locks, head, chain, k, j);
    }
  }

  lemma {:induction false} UnlinkedKeeps(locks: map<Ptr, Lock>, l: Ptr)
    requires l in locks
    ensures Relinked(locks, UnlinkedLocks(locks, l))
    ensures forall x :: x in locks && x != l && x != locks[l].prev && x != locks[l].next ==> UnlinkedLocks(locks, l)[x] == locks[x]
  {
  }

  lemma {:induction false} PushedKeeps(locks: map<Ptr, Lock>, head: Ptr, l: Ptr, x: Lock)
    requires l !in locks
    ensures Relinked(locks[l := x], PushedLocks(locks, head, l, x))
    ensures forall y :: y in locks && y != head ==> PushedLocks(locks, head, l, x)[y] == locks[y]
  {
  }

  // ----- all chains -----

  lemma {:induction false} ChainedFrame(a: map<Ptr, Entry>, b: map<Ptr, Entry>, locks: map<Ptr, Lock>, handles: map<Ptr, Handle>,
                                        volumes: map<Ptr, Volume>, volumes': map<Ptr, Volume>, chains: map<Ptr, seq<Ptr>>)
    requires Chained(a, locks, volumes, chains) && SameVolumes(a, b, locks, handles)
    requires volumes'.Keys == volumes.Keys && forall v :: v in volumes ==> volumes'[v].lockHead == volumes[v].lockHead && volumes'[v].lockList == volumes[v].lockList
    ensures Chained(b, locks, volumes', chains)
  {
    hide Linked, LockVolume;
  }

  lemma {:induction false} ChainedPush(entries: map<Ptr, Entry>, locks: map<Ptr, Lock>, volumes: map<Ptr, Volume>, chains: map<Ptr, seq<Ptr>>,
                                       l: Ptr, x: Lock, v: Ptr)
    requires Chained(entries, locks, volumes, chains) && l !in locks && l != NULL && v in volumes && LockVolume(entries, x) == v
    ensures Chained(entries, PushedLocks(locks, volumes[v].lockHead, l, x), volumes[v := volumes[v].(lockHead := l, lockList := l)],
                    chains[v := [l] + chains[v]])
  {
    hide Linked, LockVolume, PushedLocks;
    var head := volumes[v].lockHead;
    var after := PushedLocks(locks, head, l, x);
    PushedKeeps(locks, head, l, x);
    HeadIsOn(locks, head, chains[v]);
    LinkedPush(locks, head, chains[v], l, x);
    forall y | y in locks[l := x]
      ensures y in after && LockVolume(entries, after[y]) == LockVolume(entries, locks[l := x][y])
    {
      SameEntrySameVolume(entries, after[y], locks[l := x][y]);
    }
    forall w | w in volumes && w != v
      ensures Linked(after, volumes[w].lockHead, chains[w])
    {
      HeadIsOn(locks, volumes[w].lockHead, chains[w]);
      assert forall y :: y in chains[w] ==> y in locks && LockVolume(entries, locks[y]) == w;
      LinkedFrame(locks, after, volumes[w].lockHead, chains[w]);
    }
  }

  lemma {:induction false} SameEntrySameVolume(entries: map<Ptr, Entry>, x: Lock, y: Lock)
    requires x.entry == y.entry
    ensures LockVolume(entries, x) == LockVolume(entries, y)
  {
  }

  lemma {:induction false} HeadIsOn(locks: map<Ptr, Lock>, head: Ptr, chain: seq<Ptr>)
    requires Linked(locks, head, chain)
    ensures head != NULL ==> head in chain
    ensures NULL !in chain
  {
  }

  lemma {:induction false} NeighboursAreOn(locks: map<Ptr, Lock>, head: Ptr, chain: seq<Ptr>, l: Ptr)
    requires Linked(locks, head, chain) && l in chain
    ensures locks[l].prev != NULL ==> locks[l].prev in chain
    ensures locks[l].next != NULL ==> locks[l].next in chain
  {
    var k :| 0 <= k < |chain| && chain[k] == l;
    assert locks[chain[k]].prev == At(chain, k - 1);
  }

  lemma {:induction false} PlaceIn(chain: seq<Ptr>, l: Ptr) returns (k: nat)
    requires l in chain
    ensures k < |chain| && chain[k] == l
  {
    k :| 0 <= k < |chain| && chain[k] == l;
  }

  /** The head of a chain after lock l comes out of it. */
  function UnlinkedHead(x: Volume, lock: Lock, l: Ptr): Volume {
    if lock.prev == NULL && x.lockHead == l then x.(lockHead := lock.next, lockList := lock.next) else x
  }

  lemma {:induction false} ChainedUnlink(entries: map<Ptr, Entry>, locks: map<Ptr, Lock>, volumes: map<Ptr, Volume>, chains: map<Ptr, seq<Ptr>>, l: Ptr, v: Ptr)
    returns (k: nat)
    requires Chained(entries, locks, volumes, chains) && l in locks && LockVolume(entries, locks[l]) == v && v in volumes && NULL !in locks
    ensures k < |chains[v]| && chains[v][k] == l
    ensures Chained(entries, UnlinkedLocks(locks, l) - {l}, volumes[v := UnlinkedHead(volumes[v], locks[l], l)], chains[v := Without(chains[v], k)])
  {
    hide LockVolume, UnlinkedLocks, Without, NoDup, Linked;
    k := PlaceIn(chains[v], l);
    var head, chain := volumes[v].lockHead, chains[v];
    var after := UnlinkedLocks(locks, l) - {l};
    LinkedUnlink(locks, head, chain, k);
    UnlinkedHeadIs(locks, head, chain, k);
    LinkedNoDup(locks, head, chain);
    WithoutMembers(chain, k);
    UnlinkedVolumes(entries, locks, l);
    forall w | w in volumes && w != v
      ensures Linked(after, volumes[w].lockHead, chains[w])
    {
      OtherChain(entries, locks, volumes, chains, l, v, w);
    }
  }

  lemma {:induction false} LinkedNoDup(locks: map<Ptr, Lock>, head: Ptr, chain: seq<Ptr>)
    requires Linked(locks, head, chain)
    ensures NoDup(chain)
  {
  }

  lemma {:induction false} UnlinkedVolumes(entries: map<Ptr, Entry>, locks: map<Ptr, Lock>, l: Ptr)
    requires l in locks
    ensures var after := UnlinkedLocks(locks, l) - {l};
            after.Keys == locks.Keys - {l} && forall y :: y in after ==> LockVolume(entries, after[y]) == LockVolume(entries, locks[y])
  {
    hide UnlinkedLocks;
    UnlinkedKeeps(locks, l);
  }

  /** Taking out a lock leaves the chains of other volumes alone. */
  lemma {:induction false} OtherChain(entries: map<Ptr, Entry>, locks: map<Ptr, Lock>, volumes: map<Ptr, Volume>, chains: map<Ptr, seq<Ptr>>,
                                      l: Ptr, v: Ptr, w: Ptr)
    requires Chained(entries, locks, volumes, chains) && l in locks && LockVolume(entries, locks[l]) == v && v in volumes
    requires w in volumes && w != v
    ensures Linked(UnlinkedLocks(locks, l) - {l}, volumes[w].lockHead, chains[w])
  {
    hide LockVolume, UnlinkedLocks, Linked;
    UnlinkedKeeps(locks, l);
    NeighboursAreOn(locks, volumes[v].lockHead, chains[v], l);
    HeadIsOn(locks, volumes[w].lockHead, chains[w]);
    assert forall y :: y in chains[w] ==> y in locks && LockVolume(entries, locks[y]) == w;
    LinkedFrame(locks, UnlinkedLocks(locks, l) - {l}, volumes[w].lockHead, chains[w]);
  }

  lemma {:induction false} UnlinkedHeadIs(locks: map<Ptr, Lock>, head: Ptr, chain: seq<Ptr>, k: nat)
    requires Linked(locks, head, chain) && k < |chain|
    ensures locks[chain[k]].next == At(chain, k + 1)
    ensures (locks[chain[k]].prev == NULL && head == chain[k]) <==> k == 0
  {
    assert locks[chain[k]].prev == At(chain, k - 1);
  }

  lemma {:induction false} ChainedMount(entries: map<Ptr, Entry>, locks: map<Ptr, Lock>, handles: map<Ptr, Handle>, volumes: map<Ptr, Volume>,
                                        chains: map<Ptr, seq<Ptr>>, v: Ptr, x: Volume)
    requires Chained(entries, locks, volumes, chains) && Counts(entries, locks, handles, volumes, NULL) && v !in volumes
    requires x.lockHead == NULL && x.lockList == NULL
    ensures Chained(entries, locks, volumes[v := x], chains[v := []])
  {
    hide LockVolume, VolumeLocks, VolumeHandles;
  }

  lemma {:induction false} ChainedDestroy(entries: map<Ptr, Entry>, locks: map<Ptr, Lock>, volumes: map<Ptr, Volume>, chains: map<Ptr, seq<Ptr>>, v: Ptr)
    requires Chained(entries, locks, volumes, chains)
    ensures Chained(entries, locks, volumes - {v}, chains - {v})
  {
    hide LockVolume, Linked;
  }

  // ----- the handler -----

  /** The entries after one reference to e is given up. */
  function Released(entries: map<Ptr, Entry>, e: Ptr): map<Ptr, Entry> {
    if e !in entries then entries
    else if entries[e].refcount == 1 then entries - {e}
    else entries[e := entries[e].(refcount := entries[e].refcount - 1)]
  }

  // ----- stale volumes -----

  /** Volumes that are not current and have no objects. */
  function Stale(volumes: map<Ptr, Volume>, current: Ptr): set<Ptr> {
    set v | v in volumes && v != current && volumes[v].objectCount == 0
  }

  /** All volumes but those of todo were looked at; tried of them were stale,
      and freed of these are gone, all of them if all could be detached. */
  ghost predicate Reaping(before: map<Ptr, Volume>, volumes: map<Ptr, Volume>, current: Ptr, todo: set<Ptr>, tried: int, freed: int, all: bool) {
    && todo <= volumes.Keys && (all ==> Stale(volumes, current) <= todo)
    && (forall v :: v in volumes ==> v in before && volumes[v] == before[v])
    && (forall v :: v in before && v !in Stale(before, current) ==> v in volumes)
    && tried == |Stale(before, current) - todo| && |before| == |volumes| + freed
  }

  lemma {:induction false} StartReaping(volumes: map<Ptr, Volume>, current: Ptr, all: bool)
    ensures Reaping(volumes, volumes, current, volumes.Keys, 0, 0, all)
  {
    assert Stale(volumes, current) - volumes.Keys == {};
  }

  /** Whatever becomes of volume v, which is looked at now, nothing but the volumes of todo is left to be looked at. */
  ghost predicate Stepping(before: map<Ptr, Volume>, volumes: map<Ptr, Volume>, current: Ptr, todo: set<Ptr>,
                           tried: int, freed: int, all: bool, v: Ptr)
    requires v in volumes
  {
    if v != current && volumes[v].objectCount == 0
    then (!all ==> Reaping(before, volumes, current, todo, tried + 1, freed, all))
         && Reaping(before, volumes - {v}, current, todo, tried + 1, freed + 1, all)
    else Reaping(before, volumes, current, todo, tried, freed, all)
  }

  ghost predicate Taken(todo: set<Ptr>, v: Ptr, rest: set<Ptr>) {
    v in todo && rest == todo - {v}
  }

  method TakeOne(todo: set<Ptr>) returns (v: Ptr, rest: set<Ptr>)
    requires |todo| > 0
    ensures Taken(todo, v, rest) && |rest| < |todo|
  {
    v :| v in todo;
    rest := todo - {v};
  }

  lemma {:induction false} KeepReaping(before: map<Ptr, Volume>, volumes: map<Ptr, Volume>, current: Ptr, todo: set<Ptr>,
                                       rest: set<Ptr>, tried: int, freed: int, all: bool, v: Ptr)
    requires Reaping(before, volumes, current, todo, tried, freed, all) && Taken(todo, v, rest)
    ensures v in volumes && Stepping(before, volumes, current, rest, tried, freed, all, v)
  {
    var a, b := Stale(before, current) - todo, Stale(before, current) - rest;
    assert (volumes - {v}).Keys == volumes.Keys - {v};
    if v in Stale(before, current) {
      assert b == a + {v};
      assert Stale(volumes - {v}, current) == Stale(volumes, current) - {v};
    } else {
      assert b == a;
    }
  }

  /** Every volume left is as it was, all that were not stale are left, every
      stale one was tried once, freed of these are gone, and all of them if all
      could be detached. */
  ghost predicate Reaped(before: map<Ptr, Volume>, volumes: map<Ptr, Volume>, current: Ptr, tried: int, freed: int, all: bool) {
    && (forall v :: v in volumes ==> v in before && volumes[v] == before[v])
    && (forall v :: v in before && v !in Stale(before, current) ==> v in volumes)
    && tried == |Stale(before, current)| && |before| == |volumes| + freed
    && (all ==> Stale(volumes, current) == {})
  }

  lemma {:induction false} EndReaping(before: map<Ptr, Volume>, volumes: map<Ptr, Volume>, current: Ptr, todo: set<Ptr>, tried: int, freed: int, all: bool)
    requires Reaping(before, volumes, current, todo, tried, freed, all) && |todo| == 0
    ensures Reaped(before, volumes, current, tried, freed, all)
  {
    assert Stale(before, current) - {} == Stale(before, current);
  }

  class Global {
    /** memory(n) says whether allocation n succeeds, detaches(n) whether DOS
        lets go of a volume node at attempt n. */
    const memory: nat -> bool
    const detaches: nat -> bool
    const root: Object

    var entries: map<Ptr, Entry>
    var locks: map<Ptr, Lock>
    var handles: map<Ptr, Handle>
    var volumes: map<Ptr, Volume>
    var entryPool: seq<Ptr>
    var lockPool: seq<Ptr>
    var handlePool: seq<Ptr>
    var current: Ptr
    var mounted: bool
    /** Addresses given out, allocations and detachments tried. */
    var top: nat
    var allocations: nat
    var detachments: nat
    ghost var chains: map<Ptr, seq<Ptr>>

    ghost predicate Memory()
      reads this`entries, this`locks, this`handles, this`volumes, this`entryPool, this`lockPool, this`handlePool, this`top
    {
      && top > 0
      && Pooled(entries.Keys, entryPool, top) && Pooled(locks.Keys, lockPool, top) && Pooled(handles.Keys, handlePool, top)
      && (forall v :: v in volumes ==> 0 < v < top)
    }

    ghost predicate MountState()
      reads this`current, this`mounted, this`volumes
    {
      (current == NULL || current in volumes) && (!mounted ==> current == NULL)
    }

    /** All counts are right, but for a reference to entry extra and an object of
        volume owed that the handler is working with. */
    ghost predicate Holding(extra: Ptr, owed: Ptr)
      reads this`entries, this`locks, this`handles, this`volumes, this`entryPool, this`lockPool, this`handlePool, this`top,
            this`current, this`mounted, this`chains
    {
      && Refs(entries, locks, handles, extra)
      && Counts(entries, locks, handles, volumes, owed)
      && Chained(entries, locks, volumes, chains)
      && Memory() && MountState()
    }

    ghost predicate Valid()
      reads this
    {
      Holding(NULL, NULL)
    }

    constructor (memory: nat -> bool, detaches: nat -> bool, root: Object)
      ensures Valid() && locks == map[] && handles == map[] && volumes == map[] && !mounted
    {
      this.memory, this.detaches, this.root := memory, detaches, root;
      entries, locks, handles, volumes, chains := map[], map[], map[], map[], map[];
      entryPool, lockPool, handlePool := [], [], [];
      current, mounted, top, allocations, detachments := NULL, false, 1, 0, 0;
    }

    lemma {:induction false} NoNullLock()
      requires Memory()
      ensures NULL !in locks
    {
    }

    // ----- memory and entries -----

    method Allocate() returns (p: Ptr)
      requires Memory()
      modifies this`top, this`allocations
      ensures Memory() && top >= old(top)
      ensures p != NULL ==>
                && p !in entries && p !in locks && p !in handles && p !in volumes && p < top
                && Pooled(entries.Keys + {p}, entryPool, top) && Pooled(locks.Keys + {p}, lockPool, top) && Pooled(handles.Keys + {p}, handlePool, top)
      ensures allocations == old(allocations) + 1 && (p != NULL <==> memory(old(allocations)))
    {
      hide Pooled;
      p := NULL;
      var next := top;
      if memory(allocations) {
        p, next := top, top + 1;
      }
      PoolGrow(entries.Keys, entryPool, top, next);
      PoolGrow(locks.Keys, lockPool, top, next);
      PoolGrow(handles.Keys, handlePool, top, next);
      allocations, top := allocations + 1, next;
    }

    /** Whether an object can be had from its pool or by allocation number n,
        and the number of the allocation after that. */
    ghost predicate Room(pool: seq<Ptr>, n: nat) {
      pool != [] || memory(n)
    }

    ghost function After(pool: seq<Ptr>, n: nat): nat {
      if pool == [] then n + 1 else n
    }

    function Rest(pool: seq<Ptr>): seq<Ptr> {
      if pool == [] then [] else pool[1..]
    }

    /** A lock's memory, used before or new. */
    method TakeLock() returns (l: Ptr)
      requires Memory()
      modifies this`lockPool, this`top, this`allocations
      ensures l == NULL <==> !old(Room(lockPool, allocations))
      ensures old(lockPool) != [] ==> l == old(lockPool[0])
      ensures lockPool == Rest(old(lockPool)) && allocations == old(After(lockPool, allocations))
      ensures l == NULL ==> Memory()
      ensures l != NULL ==> l !in locks && Pooled(locks.Keys + {l}, lockPool, top) && Pooled(entries.Keys, entryPool, top)
                            && Pooled(handles.Keys, handlePool, top) && top > 0 && forall v :: v in volumes ==> 0 < v < top
    {
      hide Pooled;
      if lockPool != [] {
        PoolPop(locks.Keys, lockPool, top);
        l, lockPool := lockPool[0], lockPool[1..];
      } else {
        l := Allocate();
      }
    }

    method TakeHandle() returns (h: Ptr)
      requires Memory()
      modifies this`handlePool, this`top, this`allocations
      ensures h == NULL <==> !old(Room(handlePool, allocations))
      ensures old(handlePool) != [] ==> h == old(handlePool[0])
      ensures handlePool == Rest(old(handlePool)) && allocations == old(After(handlePool, allocations))
      ensures h == NULL ==> Memory()
      ensures h != NULL ==> h !in handles && Pooled(handles.Keys + {h}, handlePool, top) && Pooled(entries.Keys, entryPool, top)
                            && Pooled(locks.Keys, lockPool, top) && top > 0 && forall v :: v in volumes ==> 0 < v < top
    {
      hide Pooled;
      if handlePool != [] {
        PoolPop(handles.Keys, handlePool, top);
        h, handlePool := handlePool[0], handlePool[1..];
      } else {
        h := Allocate();
      }
    }

    method TakeEntry() returns (e: Ptr)
      requires Memory()
      modifies this`entryPool, this`top, this`allocations
      ensures e == NULL <==> !old(Room(entryPool, allocations))
      ensures old(entryPool) != [] ==> e == old(entryPool[0])
      ensures entryPool == Rest(old(entryPool)) && allocations == old(After(entryPool, allocations))
      ensures e == NULL ==> Memory()
      ensures e != NULL ==> e !in entries && Pooled(entries.Keys + {e}, entryPool, top) && Pooled(locks.Keys, lockPool, top)
                            && Pooled(handles.Keys, handlePool, top) && top > 0 && forall v :: v in volumes ==> 0 < v < top
    {
      hide Pooled;
      if entryPool != [] {
        PoolPop(entries.Keys, entryPool, top);
        e, entryPool := entryPool[0], entryPool[1..];
      } else {
        e := Allocate();
      }
    }

    method AllocEntry(volume: Ptr, what: Object) returns (e: Ptr)
      requires Valid() && volume in volumes
      modifies this`entries, this`entryPool, this`top, this`allocations
      ensures e == NULL <==> !old(Room(entryPool, allocations))
      ensures entryPool == Rest(old(entryPool)) && allocations == old(After(entryPool, allocations))
      ensures e == NULL ==> Valid() && entries == old(entries)
      ensures e != NULL ==> e !in old(entries) && entries == old(entries)[e := Entry(volume, 1, what)] && Holding(e, NULL)
    {
      hide Refs, Counts, Chained, SameVolumes, Pooled;
      e := TakeEntry();
      if e == NULL {
        return;
      }
      ghost var before := entries;
      entries := entries[e := Entry(volume, 1, what)];
      assert entries.Keys == before.Keys + {e};
      RefsNew(before, locks, handles, e, entries[e]);
      HoldersStay(before, entries, locks, handles, NULL, e);
      SameLocks(locks);
      CountsFrame(before, entries, locks, locks, handles, volumes, volumes, NULL);
      ChainedFrame(before, entries, locks, handles, volumes, volumes, chains);
    }

    method RetainEntry(e: Ptr)
      requires Valid() && e in entries
      modifies this`entries
      ensures Holding(e, NULL) && entries == old(entries)[e := old(entries[e]).(refcount := old(entries[e].refcount) + 1)]
    {
      hide Refs, Counts, Chained, SameVolumes, Pooled;
      ghost var before := entries;
      entries := entries[e := entries[e].(refcount := entries[e].refcount + 1)];
      RefsRetain(before, locks, handles, e);
      HoldersStay(before, entries, locks, handles, NULL, e);
      SameLocks(locks);
      CountsFrame(before, entries, locks, locks, handles, volumes, volumes, NULL);
      ChainedFrame(before, entries, locks, handles, volumes, volumes, chains);
      assert entries.Keys == before.Keys;
    }

    method ReleaseEntry(e: Ptr)
      requires Holding(e, NULL) && e != NULL
      modifies this`entries, this`entryPool
      ensures Valid() && entries == Released(old(entries), e)
      ensures entryPool == if e in entries then old(entryPool) else [e] + old(entryPool)
    {
      hide Refs, Counts, Chained, SameVolumes, Pooled;
      ghost var before := entries;
      LastReference(before, locks, handles, e);
      PoolPush(entries.Keys, entryPool, top, e);
      RefsRelease(before, locks, handles, e);
      entries := entries[e := entries[e].(refcount := entries[e].refcount - 1)];
      if entries[e].refcount == 0 {
        entries := entries - {e};
        entryPool := [e] + entryPool;
        assert entries == before - {e};
      } else {
        assert entries.Keys == before.Keys;
      }
      HoldersStay(before, entries, locks, handles, e, NULL);
      SameLocks(locks);
      CountsFrame(before, entries, locks, locks, handles, volumes, volumes, NULL);
      ChainedFrame(before, entries, locks, handles, volumes, volumes, chains);
    }

    // ----- volumes -----

    method DestroyStaleVolume(v: Ptr, ghost extra: Ptr) returns (ok: bool)
      requires Holding(extra, NULL) && v in volumes && v != current && volumes[v].objectCount == 0
      modifies this`volumes, this`detachments, this`chains
      ensures Holding(extra, NULL)
      ensures detachments == old(detachments) + 1 && ok == detaches(old(detachments))
      ensures volumes == if ok then old(volumes) - {v} else old(volumes)
    {
      hide Refs, Counts, Chained;
      ok := detaches(detachments);
      detachments := detachments + 1;
      if ok {
        NoObjects(entries, locks, handles, volumes, v);
        ChainedDestroy(entries, locks, volumes, chains, v);
        volumes := volumes - {v};
        chains := chains - {v};
      }
    }

    /** An object of a volume is gone; a stale volume goes with its last one. */
    method ReleaseVolumeObject(v: Ptr, ghost extra: Ptr)
      requires Holding(extra, v) && v != NULL
      modifies this`volumes, this`detachments, this`chains
      ensures Holding(extra, NULL)
      ensures old(v in volumes && volumes[v].objectCount > 0)
      ensures var count := old(volumes[v].objectCount) - 1;
              if v != current && count == 0 && detaches(old(detachments)) then volumes == old(volumes) - {v}
              else volumes == old(volumes)[v := old(volumes[v]).(objectCount := count)]
    {
      hide Refs, Counts, Chained, SameVolumes;
      CountsSettled(entries, locks, handles, volumes, v);
      OwedIsVolume(entries, locks, handles, volumes, v);
      ghost var before := volumes;
      volumes := volumes[v := volumes[v].(objectCount := volumes[v].objectCount - 1)];
      SameEntries(entries, locks, handles);
      ChainedFrame(entries, entries, locks, handles, before, volumes, chains);
      assert volumes.Keys == before.Keys;
      if v != current && volumes[v].objectCount == 0 {
        var _ := DestroyStaleVolume(v, extra);
        assert volumes == before - {v} || volumes == before[v := before[v].(objectCount := 0)];
      }
    }

    /** How many of these attempts to detach a volume from DOS succeed. */
    ghost function Granted(first: nat, end: nat): nat
      requires first <= end
      decreases end
    {
      if first == end then 0 else Granted(first, end - 1) + if detaches(end - 1) then 1 else 0
    }

    lemma {:induction false} GrantedFrom(first: nat)
      ensures Granted(first, first) == 0
    {
    }

    lemma {:induction false} GrantedNext(first: nat, end: nat)
      requires first < end
      ensures Granted(first, end) == Granted(first, end - 1) + if detaches(end - 1) then 1 else 0
    {
    }

    method AllVolumes(ghost all: bool) returns (todo: set<Ptr>)
      ensures Reaping(volumes, volumes, current, todo, 0, 0, all)
    {
      todo := volumes.Keys;
      StartReaping(volumes, current, all);
    }

    ghost predicate AlwaysDetaches() {
      forall n :: detaches(n)
    }

    /** Every stale volume without objects is tried once, and those that DOS lets go of are freed. */
    method ReapStaleVolumes()
      requires Valid()
      modifies this`volumes, this`detachments, this`chains
      ensures Valid() && locks == old(locks) && handles == old(handles)
      ensures detachments >= old(detachments)
      ensures Reaped(old(volumes), volumes, current, detachments - old(detachments), Granted(old(detachments), detachments), AlwaysDetaches())
    {
      hide Refs, Counts, Chained, Stale, Reaping, Reaped, Stepping, Granted, AlwaysDetaches, Holding, Taken;
      ghost var before, all, first := volumes, AlwaysDetaches(), detachments;
      GrantedFrom(first);
      var todo := AllVolumes(all);
      while |todo| > 0
        invariant Valid() && detachments >= first
        invariant Reaping(before, volumes, current, todo, detachments - first, Granted(first, detachments), all)
        decreases |todo|
      {
        var v, rest := TakeOne(todo);
        KeepReaping(before, volumes, current, todo, rest, detachments - first, Granted(first, detachments), all, v);
        ReapOne(before, rest, first, v, all);
        todo := rest;
      }
      EndReaping(before, volumes, current, todo, detachments - first, Granted(first, detachments), all);
    }

    method ReapOne(ghost before: map<Ptr, Volume>, ghost todo: set<Ptr>, ghost first: nat, v: Ptr, ghost all: bool)
      requires Valid() && first <= detachments && v in volumes && (all ==> AlwaysDetaches())
      requires Stepping(before, volumes, current, todo, detachments - first, Granted(first, detachments), all, v)
      modifies this`volumes, this`detachments, this`chains
      ensures Valid() && first <= detachments
      ensures Reaping(before, volumes, current, todo, detachments - first, Granted(first, detachments), all)
    {
      hide Refs, Counts, Chained, Reaping, Granted, Holding;
      if v != current && volumes[v].objectCount == 0 {
        var _ := DestroyStaleVolume(v, NULL);
        GrantedNext(first, detachments);
      }
    }

    // ----- locks -----

    /** Put lock l, made from x, in front of the chain of its volume. */
    method LinkVolumeLock(v: Ptr, l: Ptr, ghost x: Lock)
      requires v in volumes && l in locks && locks[l] == x && x.prev == x.next == x.link == NULL && l != NULL && NULL !in locks
      requires volumes[v].lockHead != NULL ==> volumes[v].lockHead in locks && volumes[v].lockHead != l
      modifies this`locks, this`volumes
      ensures locks == PushedLocks(old(locks) - {l}, old(volumes[v].lockHead), l, x)
      ensures volumes == old(volumes)[v := old(volumes[v]).(lockHead := l, lockList := l)]
    {
      ghost var before := locks;
      var head := volumes[v].lockHead;
      locks := locks[l := locks[l].(prev := NULL, next := head, link := head)];
      if head != NULL {
        locks := locks[head := locks[head].(prev := l)];
      }
      volumes := volumes[v := volumes[v].(lockHead := l, lockList := l)];
      PushedInSteps(before - {l}, head, l, x, locks);
    }

    /** Take lock l out of the chain of its volume. */
    method UnlinkVolumeLock(v: Ptr, l: Ptr)
      requires v in volumes && l in locks && NULL !in locks
      requires (locks[l].prev != NULL ==> locks[l].prev in locks) && (locks[l].next != NULL ==> locks[l].next in locks)
      modifies this`locks, this`volumes
      ensures locks == UnlinkedLocks(old(locks), l) && volumes == old(volumes)[v := UnlinkedHead(old(volumes[v]), old(locks[l]), l)]
    {
      ghost var before := locks;
      var prev, next := locks[l].prev, locks[l].next;
      if prev != NULL {
        locks := locks[prev := locks[prev].(next := next, link := next)];
      } else if volumes[v].lockHead == l {
        volumes := volumes[v := volumes[v].(lockHead := next, lockList := next)];
      }
      if next != NULL {
        locks := locks[next := locks[next].(prev := prev)];
      }
      locks := locks[l := locks[l].(prev := NULL, next := NULL, link := NULL)];
      UnlinkedInSteps(before, l, locks);
    }

    /** Enter a new lock at l, which takes over the handler's reference to e. */
    method AddLock(l: Ptr, e: Ptr, exclusive: bool)
      requires Refs(entries, locks, handles, e) && Counts(entries, locks, handles, volumes, NULL) && Chained(entries, locks, volumes, chains)
      requires e != NULL && e in entries && entries[e].volume in volumes && l !in locks && l != NULL && NULL !in locks
      modifies this`locks, this`volumes, this`chains
      ensures Refs(entries, locks, handles, NULL) && Counts(entries, locks, handles, volumes, NULL) && Chained(entries, locks, volumes, chains)
      ensures locks.Keys == old(locks).Keys + {l} && locks[l].entry == e && locks[l].exclusive == exclusive
      ensures Relinked(old(locks), locks - {l}) && volumes.Keys == old(volumes).Keys
      ensures var v := entries[e].volume;
              && v in old(chains) && chains == old(chains)[v := [l] + old(chains)[v]]
              && volumes == old(volumes)[v := old(volumes)[v].(objectCount := old(volumes)[v].objectCount + 1, lockHead := l, lockList := l)]
    {
      hide Refs, Counts, Chained, Relinked, PushedLocks;
      ghost var before, volumes0 := locks, volumes;
      var v := entries[e].volume;
      var x := Lock(e, exclusive, NULL, NULL, NULL);
      LockAdded(entries, locks, handles, volumes, chains, l, x, v);
      HeadIsLock(entries, before, volumes, chains, v);
      PushedKeysAre(before, volumes[v].lockHead, l, x);
      volumes := volumes[v := volumes[v].(objectCount := volumes[v].objectCount + 1)];
      locks := locks[l := x];
      assert locks - {l} == before;
      LinkVolumeLock(v, l, x);
      chains := chains[v := [l] + chains[v]];
      assert volumes == volumes0[v := volumes0[v].(objectCount := volumes0[v].objectCount + 1, lockHead := l, lockList := l)];
    }

    /** Make a lock of an entry; the lock takes over the handler's reference. */
    method LockFromEntry(e: Ptr, exclusive: bool) returns (l: Ptr)
      requires Holding(e, NULL) && e != NULL && e in entries && entries[e].volume in volumes
      modifies this`locks, this`lockPool, this`volumes, this`chains, this`top, this`allocations
      ensures l == NULL <==> !old(Room(lockPool, allocations))
      ensures l == NULL ==> Holding(e, NULL) && locks == old(locks) && volumes == old(volumes)
      ensures l != NULL ==>
                && Valid() && l !in old(locks) && locks.Keys == old(locks).Keys + {l} && locks[l].entry == e && locks[l].exclusive == exclusive
                && Relinked(old(locks), locks - {l}) && volumes.Keys == old(volumes).Keys
      // the lock is counted by its volume and heads its chain
      ensures l != NULL ==>
                var v := entries[e].volume;
                && v in old(chains) && chains == old(chains)[v := [l] + old(chains)[v]]
                && volumes == old(volumes)[v := old(volumes)[v].(objectCount := old(volumes)[v].objectCount + 1, lockHead := l, lockList := l)]
    {
      hide Refs, Counts, Chained, Relinked, Pooled;
      NoNullLock();
      l := TakeLock();
      if l != NULL {
        AddLock(l, e, exclusive);
      }
    }

    /** Take lock l off the chain of its volume and the list of locks; its
        reference becomes the handler's own. */
    method DropLock(l: Ptr) returns (e: Ptr, v: Ptr)
      requires Refs(entries, locks, handles, NULL) && Counts(entries, locks, handles, volumes, NULL) && Chained(entries, locks, volumes, chains)
      requires l in locks && NULL !in locks
      modifies this`locks, this`volumes, this`chains
      ensures e == old(locks[l].entry) && e in entries && v == entries[e].volume == old(LockVolume(entries, locks[l])) && e != NULL && v != NULL && v in volumes
      ensures Refs(entries, locks, handles, e) && Counts(entries, locks, handles, volumes, v) && Chained(entries, locks, volumes, chains)
      ensures locks.Keys == old(locks).Keys - {l} && Relinked(old(locks) - {l}, locks)
      ensures SameCounts(old(volumes), volumes)
    {
      hide Refs, Counts, Chained, Relinked, UnlinkedLocks, LockVolume;
      LockHasEntry(entries, locks, handles, volumes, l);
      e := locks[l].entry;
      v := entries[e].volume;
      VolumeOfLock(entries, locks[l]);
      UnlinkedKeysAre(locks, l);
      ghost var k := LockRemoved(entries, locks, handles, volumes, chains, l, v);
      NeighboursAreLocks(entries, locks, volumes, chains, l, v);
      UnlinkVolumeLock(v, l);
      locks := locks - {l};
      chains := chains[v := Without(chains[v], k)];
    }

    method FreeLock(l: Ptr)
      requires Valid() && l in locks
      modifies this`locks, this`lockPool, this`volumes, this`chains, this`detachments, this`entries, this`entryPool
      ensures Valid() && locks.Keys == old(locks).Keys - {l} && Relinked(old(locks) - {l}, locks)
      ensures lockPool == [l] + old(lockPool)
      ensures entries == Released(old(entries), old(locks[l].entry))
      ensures VolumeReleased(old(volumes), volumes, old(LockVolume(entries, locks[l])), current)
    {
      hide Refs, Counts, Chained, Relinked, LockVolume, Released, Pooled;
      NoNullLock();
      PoolPush(locks.Keys, lockPool, top, l);
      var e, v := DropLock(l);
      lockPool := [l] + lockPool;
      ReleaseVolumeObject(v, e);
      ReleaseEntry(e);
    }

    // ----- file handles -----

    /** Make a handle of an entry, which is retained for it. */
    method AllocHandle(e: Ptr, ghost extra: Ptr) returns (h: Ptr)
      requires Holding(extra, NULL) && e in entries && entries[e].volume in volumes
      modifies this`handles, this`handlePool, this`volumes, this`entries, this`top, this`allocations
      ensures Holding(extra, NULL)
      ensures h == NULL <==> !old(Room(handlePool, allocations))
      ensures h == NULL ==> handles == old(handles) && entries == old(entries) && volumes == old(volumes)
      ensures h != NULL ==>
                && h !in old(handles) && handles == old(handles)[h := Handle(e, 0)] && volumes.Keys == old(volumes).Keys
                && entries == old(entries)[e := old(entries[e]).(refcount := old(entries[e].refcount) + 1)]
    {
      hide Refs, Counts, Chained, Pooled, SameVolumes;
      h := TakeHandle();
      if h == NULL {
        return;
      }
      var v := entries[e].volume;
      var x := Handle(e, 0);
      HandleAdded(entries, locks, handles, volumes, chains, extra, h, x, v);
      ghost var entries0, volumes0, handles0 := entries, volumes, handles;
      handles := handles[h := x];
      entries := entries[e := entries[e].(refcount := entries[e].refcount + 1)];
      volumes := volumes[v := volumes[v].(objectCount := volumes[v].objectCount + 1)];
      assert entries.Keys == entries0.Keys && volumes.Keys == volumes0.Keys && handles.Keys == handles0.Keys + {h};
    }

    method FreeHandle(h: Ptr)
      requires Valid() && h in handles
      modifies this`handles, this`handlePool, this`volumes, this`chains, this`detachments, this`entries, this`entryPool
      ensures Valid() && handles == old(handles) - {h}
      ensures handlePool == [h] + old(handlePool)
      ensures entries == Released(old(entries), old(handles[h].entry))
      ensures VolumeReleased(old(volumes), volumes, old(HandleVolume(entries, handles[h])), current)
    {
      hide Refs, Counts, Chained, HandleVolume, Released, Pooled;
      HandleHasEntry(entries, locks, handles, volumes, h);
      var e := handles[h].entry;
      var v := entries[e].volume;
      RefsClose(entries, locks, handles, h);
      CountsClose(entries, locks, handles, volumes, h);
      PoolPush(handles.Keys, handlePool, top, h);
      handles := handles - {h};
      handlePool := [h] + handlePool;
      ReleaseVolumeObject(v, e);
      ReleaseEntry(e);
    }

    // ----- what clients ask for -----

    /** Whether objects of a volume can be used. */
    function ValidateVolume(volume: Ptr): Error
      reads this`current, this`mounted
    {
      if volume == NULL then (if mounted then Done else NoDisk)
      else if volume != current then NotMounted else Done
    }

    /** A lock of a new entry for an object of the current volume. */
    method NewLock(what: Object, exclusive: bool) returns (err: Error, l: Ptr)
      requires Valid() && current != NULL
      modifies this
      ensures Valid() && current == old(current) && mounted == old(mounted) && handles == old(handles)
      ensures err == if old(Room(entryPool, allocations) && Room(lockPool, After(entryPool, allocations))) then Done else NoFreeStore
      ensures err == NoFreeStore ==> l == NULL && locks == old(locks) && entries == old(entries) && volumes == old(volumes)
      ensures err == Done ==> Locked(l, what)
      ensures err == Done ==> l !in old(locks) && locks.Keys == old(locks).Keys + {l} && Relinked(old(locks), locks - {l}) && locks[l].exclusive == exclusive
      ensures err == Done ==> locks[l].entry !in old(entries) && entries - {locks[l].entry} == old(entries)
    {
      hide Refs, Counts, Chained, Memory, Relinked;
      l := NULL;
      var e := AllocEntry(current, what);
      if e == NULL {
        return NoFreeStore, NULL;
      }
      NotNull(e);
      l := LockFromEntry(e, exclusive);
      assert entries - {e} == old(entries);
      if l == NULL {
        ReleaseEntry(e);
        return NoFreeStore, NULL;
      }
      err := Done;
    }

    /** Lock l is alone on an entry for an object of the current volume. */
    ghost predicate Locked(l: Ptr, what: Object)
      reads this`locks, this`entries, this`current
    {
      l != NULL && l in locks && locks[l].entry in entries && entries[locks[l].entry] == Entry(current, 1, what)
    }

    lemma {:induction false} NotNull(e: Ptr)
      requires Holding(e, NULL) && e in entries
      ensures e != NULL
    {
    }

    method SetObject(e: Ptr, what: Object)
      requires Holding(e, NULL) && e in entries
      modifies this`entries
      ensures Holding(e, NULL) && entries == old(entries)[e := old(entries[e]).(what := what)]
    {
      hide Counts, Chained, SameVolumes, Pooled;
      ghost var before := entries;
      entries := entries[e := entries[e].(what := what)];
      assert entries.Keys == before.Keys;
      RefsFilled(before, entries, locks, handles, e);
      hide Refs;
      HoldersStay(before, entries, locks, handles, e, e);
      SameLocks(locks);
      CountsFrame(before, entries, locks, locks, handles, volumes, volumes, NULL);
      ChainedFrame(before, entries, locks, handles, volumes, volumes, chains);
    }

    /** Resolve a path from a lock on a directory, or from the root. */
    function Resolve(parent: Ptr, found: Resolution): (err: Error)
      requires found.Unfound? ==> found.error != Done
      reads this`current, this`mounted, this`locks, this`entries
      ensures err == Done ==> found.Found? && (parent != NULL ==> parent in locks && LockVolume(entries, locks[parent]) in {NULL, current})
    {
      if parent != NULL && parent !in locks then InvalidLock
      else if parent != NULL && ValidateVolume(LockVolume(entries, locks[parent])) != Done then ValidateVolume(LockVolume(entries, locks[parent]))
      else if parent == NULL && !mounted then NoDisk
      else match found case Found(_) => Done case Unfound(error) => error
    }

    /** A new entry for the object that a path leads to, with the handler's reference. */
    method ResolvedEntry(parent: Ptr, found: Resolution) returns (err: Error, e: Ptr)
      requires Valid() && (found.Unfound? ==> found.error != Done)
      modifies this`entries, this`entryPool, this`top, this`allocations
      ensures err == Done <==> e != NULL
      ensures err != Done ==> Valid() && entries == old(entries)
      ensures err == Done ==>
                && Holding(e, NULL) && current != NULL && old(Resolve(parent, found)) == Done && found.Found?
                && e !in old(entries) && entries == old(entries)[e := Entry(current, 1, found.what)]
      ensures err == if current == NULL then (if mounted then NotMounted else NoDisk)
                     else if !old(Room(entryPool, allocations)) then NoFreeStore else old(Resolve(parent, found))
      ensures current != NULL ==> allocations == old(After(entryPool, allocations))
    {
      hide Refs, Counts, Chained, Memory;
      e := NULL;
      if current == NULL {
        return if mounted then NotMounted else NoDisk, NULL;
      }
      ghost var before := entries;
      e := AllocEntry(current, root);
      if e == NULL {
        return NoFreeStore, NULL;
      }
      ResolveStays(before, e, parent);
      err := Resolve(parent, found);
      if err != Done {
        ReleaseEntry(e);
        assert entries == before;
        e := NULL;
        return;
      }
      SetObject(e, found.what);
      assert entries == before[e := Entry(current, 1, found.what)];
    }

    lemma {:induction false} ResolveStays(before: map<Ptr, Entry>, e: Ptr, parent: Ptr)
      requires e !in before && e in entries && entries == before[e := entries[e]] && e != NULL
      requires Refs(before, locks, handles, NULL)
      ensures parent in locks ==> LockVolume(entries, locks[parent]) == LockVolume(before, locks[parent])
    {
      hide LocksOn, HandlesOn;
    }

    /** Lock an object found by its path. */
    method LockObject(parent: Ptr, found: Resolution, exclusive: bool) returns (err: Error, l: Ptr)
      requires Valid() && (found.Unfound? ==> found.error != Done)
      modifies this
      ensures Valid() && current == old(current) && mounted == old(mounted) && handles == old(handles)
      ensures err == if current == NULL then (if mounted then NotMounted else NoDisk)
                     else if !old(Room(entryPool, allocations)) then NoFreeStore
                     else if old(Resolve(parent, found)) != Done then old(Resolve(parent, found))
                     else if !old(Room(lockPool, After(entryPool, allocations))) then NoFreeStore else Done
      ensures err != Done ==> l == NULL && locks == old(locks) && entries == old(entries) && volumes == old(volumes)
      ensures err == Done ==>
                && old(Resolve(parent, found)) == Done && Locked(l, found.what)
                && l !in old(locks) && locks.Keys == old(locks).Keys + {l} && Relinked(old(locks), locks - {l})
                && locks[l].exclusive == (exclusive && !found.what.node.isDir)
    {
      hide Refs, Counts, Chained, Memory, Relinked, Resolve;
      l := NULL;
      var e;
      err, e := ResolvedEntry(parent, found);
      if err != Done {
        return;
      }
      l := LockFromEntry(e, exclusive && !found.what.node.isDir);
      if l == NULL {
        ReleaseEntry(e);
        assert entries == old(entries);
        return NoFreeStore, NULL;
      }
    }

    method FreeLockObject(l: Ptr) returns (err: Error)
      requires Valid()
      modifies this
      ensures Valid() && current == old(current) && mounted == old(mounted) && handles == old(handles)
      ensures err == if l != NULL && l !in old(locks) then InvalidLock else Done
      ensures l !in old(locks) ==> locks == old(locks) && entries == old(entries) && volumes == old(volumes)
      ensures l in old(locks) ==>
                && locks.Keys == old(locks).Keys - {l} && Relinked(old(locks) - {l}, locks)
                && entries == Released(old(entries), old(locks[l].entry))
                && VolumeReleased(old(volumes), volumes, old(LockVolume(entries, locks[l])), current)
    {
      hide Refs, Counts, Chained, Memory, Relinked, Released, LockVolume, VolumeReleased;
      NoNull();
      if l == NULL {
        return Done;
      }
      if l !in locks {
        return InvalidLock;
      }
      FreeLock(l);
      err := Done;
    }

    lemma {:induction false} NoNull()
      requires Valid()
      ensures NULL !in locks && NULL !in handles && NULL !in entries && NULL !in volumes
    {
      hide LocksOn, HandlesOn, VolumeLocks, VolumeHandles;
    }

    /** Another lock on an entry in use. */
    method LockAgain(e: Ptr, exclusive: bool) returns (err: Error, l: Ptr)
      requires Valid() && e in entries && entries[e].volume in volumes
      modifies this
      ensures Valid() && current == old(current) && mounted == old(mounted) && handles == old(handles)
      ensures err == if old(Room(lockPool, allocations)) then Done else NoFreeStore
      ensures err != Done ==> l == NULL && locks == old(locks) && entries == old(entries) && volumes == old(volumes)
      ensures err == Done ==>
                && l !in old(locks) && locks.Keys == old(locks).Keys + {l} && Relinked(old(locks), locks - {l})
                && locks[l].entry == e && locks[l].exclusive == exclusive
                && entries == old(entries)[e := old(entries[e]).(refcount := old(entries[e].refcount) + 1)]
    {
      hide Refs, Counts, Chained, Memory, Relinked;
      NoNull();
      RetainEntry(e);
      l := LockFromEntry(e, exclusive);
      if l == NULL {
        AtLeastTwo(old(entries), locks, handles, e);
        ReleaseEntry(e);
        assert entries == old(entries);
        return NoFreeStore, NULL;
      }
      err := Done;
    }

    /** Duplicate a lock, or lock the root. */
    method DupLock(src: Ptr) returns (err: Error, l: Ptr)
      requires Valid()
      modifies this
      ensures Valid() && current == old(current) && mounted == old(mounted) && handles == old(handles)
      ensures err != Done ==> l == NULL && locks == old(locks) && entries == old(entries) && volumes == old(volumes)
      ensures src == NULL ==>
                err == if !mounted then NoDisk
                       else if current != NULL && old(Room(entryPool, allocations) && Room(lockPool, After(entryPool, allocations))) then Done
                       else NoFreeStore
      ensures src != NULL ==>
                err == if src !in old(locks) then InvalidLock
                       else if old(LockVolume(entries, locks[src])) != current then NotMounted
                       else if old(Room(lockPool, allocations)) then Done else NoFreeStore
      ensures err == Done && src == NULL ==> Locked(l, root) && l !in old(locks) && locks.Keys == old(locks).Keys + {l}
      ensures err == Done && src != NULL ==>
                && l !in old(locks) && locks.Keys == old(locks).Keys + {l} && Relinked(old(locks), locks - {l})
                && locks[l].entry == old(locks[src].entry) && locks[l].exclusive == old(locks[src].exclusive)
                && var e := old(locks[src].entry);
                   entries == old(entries)[e := old(entries[e]).(refcount := old(entries[e].refcount) + 1)]
    {
      hide Refs, Counts, Chained, Memory, Relinked, LockVolume;
      l := NULL;
      NoNull();
      if src == NULL {
        if !mounted {
          return NoDisk, NULL;
        }
        if current == NULL {
          return NoFreeStore, NULL;
        }
        err, l := NewLock(root, false);
        return;
      }
      if src !in locks {
        return InvalidLock, NULL;
      }
      LockHasEntry(entries, locks, handles, volumes, src);
      VolumeOfLock(entries, locks[src]);
      err := ValidateVolume(entries[locks[src].entry].volume);
      if err != Done {
        return;
      }
      err, l := LockAgain(locks[src].entry, locks[src].exclusive);
    }

    /** A lock on what a handle is on, or on the root. */
    method DupLockFromHandle(h: Ptr) returns (err: Error, l: Ptr)
      requires Valid()
      modifies this
      ensures Valid() && current == old(current) && mounted == old(mounted) && handles == old(handles)
      ensures err != Done ==> l == NULL && locks == old(locks) && entries == old(entries) && volumes == old(volumes)
      ensures h == NULL ==>
                err == if !mounted then NoDisk
                       else if current != NULL && old(Room(entryPool, allocations) && Room(lockPool, After(entryPool, allocations))) then Done
                       else NoFreeStore
      ensures h != NULL ==>
                err == if h !in old(handles) then ObjectNotFound
                       else if old(HandleVolume(entries, handles[h])) != current then NotMounted
                       else if old(Room(lockPool, allocations)) then Done else NoFreeStore
      ensures err == Done && h == NULL ==> Locked(l, root) && l !in old(locks) && locks.Keys == old(locks).Keys + {l}
      ensures err == Done && h != NULL ==>
                && l !in old(locks) && locks.Keys == old(locks).Keys + {l} && Relinked(old(locks), locks - {l})
                && locks[l].entry == handles[h].entry && !locks[l].exclusive
                && var e := handles[h].entry;
                   entries == old(entries)[e := old(entries[e]).(refcount := old(entries[e].refcount) + 1)]
    {
      hide Refs, Counts, Chained, Memory, Relinked, HandleVolume;
      l := NULL;
      NoNull();
      if h == NULL {
        if !mounted {
          return NoDisk, NULL;
        }
        if current == NULL {
          return NoFreeStore, NULL;
        }
        err, l := NewLock(root, false);
        return;
      }
      if h !in handles {
        return ObjectNotFound, NULL;
      }
      HandleHasEntry(entries, locks, handles, volumes, h);
      err := ValidateVolume(entries[handles[h].entry].volume);
      if err != Done {
        return;
      }
      err, l := LockAgain(handles[h].entry, false);
    }

    /** What asking for the directory above comes to, when it may be asked for. */
    ghost function ParentError(isRoot: bool, above: Resolution): Error
      reads this`entryPool, this`lockPool, this`allocations
    {
      if isRoot then Done
      else match above
        case Unfound(error) => error
        case Found(_) => if Room(entryPool, allocations) && Room(lockPool, After(entryPool, allocations)) then Done else NoFreeStore
    }

    /** A lock of the directory that an entry is in; the root has none. */
    method ParentEntry(e: Ptr, isRoot: bool, above: Resolution) returns (err: Error, l: Ptr)
      requires Valid() && e in entries && entries[e].volume == current != NULL && (above.Unfound? ==> above.error != Done)
      modifies this
      ensures Valid() && current == old(current) && mounted == old(mounted) && handles == old(handles)
      ensures err == old(ParentError(isRoot, above))
      ensures err != Done || isRoot ==> l == NULL && locks == old(locks) && entries == old(entries) && volumes == old(volumes)
      ensures err == Done && !isRoot ==>
                && above.Found? && Locked(l, above.what.(node := old(entries[e].what.parent)))
                && l !in old(locks) && locks.Keys == old(locks).Keys + {l} && Relinked(old(locks), locks - {l}) && !locks[l].exclusive
                && locks[l].entry !in old(entries) && entries - {locks[l].entry} == old(entries)
    {
      hide Refs, Counts, Chained, Memory, Relinked, Locked;
      l := NULL;
      if isRoot {
        return Done, NULL;
      }
      match above
      case Unfound(error) => err := error;
      case Found(what) => err, l := NewLock(what.(node := entries[e].what.parent), false);
    }

    method ParentOfLock(src: Ptr, isRoot: bool, above: Resolution) returns (err: Error, l: Ptr)
      requires Valid() && (above.Unfound? ==> above.error != Done)
      modifies this
      ensures Valid() && current == old(current) && mounted == old(mounted) && handles == old(handles)
      ensures err != Done || src == NULL || isRoot ==> l == NULL && locks == old(locks) && entries == old(entries) && volumes == old(volumes)
      ensures src == NULL ==> err == if mounted then Done else NoDisk
      ensures src != NULL ==>
                err == if src !in old(locks) then InvalidLock
                       else if old(LockVolume(entries, locks[src])) != current then NotMounted
                       else old(ParentError(isRoot, above))
      ensures err == Done && src != NULL && !isRoot ==>
                && above.Found? && src in old(locks) && old(locks[src].entry in entries)
                && Locked(l, above.what.(node := old(entries[locks[src].entry].what.parent)))
                && l !in old(locks) && locks.Keys == old(locks).Keys + {l} && Relinked(old(locks), locks - {l})
    {
      hide Refs, Counts, Chained, Memory, Relinked, LockVolume, Locked;
      l := NULL;
      NoNull();
      if src == NULL {
        return if mounted then Done else NoDisk, NULL;
      }
      if src !in locks {
        return InvalidLock, NULL;
      }
      LockHasEntry(entries, locks, handles, volumes, src);
      VolumeOfLock(entries, locks[src]);
      err := ValidateVolume(entries[locks[src].entry].volume);
      if err != Done {
        return;
      }
      err, l := ParentEntry(locks[src].entry, isRoot, above);
    }

    method ParentOfHandle(h: Ptr, isRoot: bool, above: Resolution) returns (err: Error, l: Ptr)
      requires Valid() && (above.Unfound? ==> above.error != Done)
      modifies this
      ensures Valid() && current == old(current) && mounted == old(mounted) && handles == old(handles)
      ensures err != Done || h == NULL || isRoot ==> l == NULL && locks == old(locks) && entries == old(entries) && volumes == old(volumes)
      ensures h == NULL ==> err == if mounted then Done else NoDisk
      ensures h != NULL ==>
                err == if h !in old(handles) then ObjectNotFound
                       else if old(HandleVolume(entries, handles[h])) != current then NotMounted
                       else old(ParentError(isRoot, above))
      ensures err == Done && h != NULL && !isRoot ==>
                && above.Found? && h in handles && old(handles[h].entry in entries)
                && Locked(l, above.what.(node := old(entries[handles[h].entry].what.parent)))
                && l !in old(locks) && locks.Keys == old(locks).Keys + {l} && Relinked(old(locks), locks - {l})
    {
      hide Refs, Counts, Chained, Memory, Relinked, HandleVolume, Locked;
      l := NULL;
      NoNull();
      if h == NULL {
        return if mounted then Done else NoDisk, NULL;
      }
      if h !in handles {
        return ObjectNotFound, NULL;
      }
      HandleHasEntry(entries, locks, handles, volumes, h);
      err := ValidateVolume(entries[handles[h].entry].volume);
      if err != Done {
        return;
      }
      err, l := ParentEntry(handles[h].entry, isRoot, above);
    }

    /** Open an object found by its path. */
    method OpenObject(parent: Ptr, found: Resolution, forReading: bool) returns (err: Error, h: Ptr)
      requires Valid() && (found.Unfound? ==> found.error != Done)
      modifies this
      ensures Valid() && current == old(current) && mounted == old(mounted) && locks == old(locks)
      ensures err == if !forReading then WriteProtected
                     else if current == NULL then (if mounted then NotMounted else NoDisk)
                     else if !old(Room(entryPool, allocations)) then NoFreeStore
                     else if old(Resolve(parent, found)) != Done then old(Resolve(parent, found))
                     else if found.what.node.isDir then WrongType
                     else if !old(Room(handlePool, After(entryPool, allocations))) then NoFreeStore else Done
      ensures err != Done ==> h == NULL && handles == old(handles) && entries == old(entries)
      ensures err == Done ==>
                && old(Resolve(parent, found)) == Done && !found.what.node.isDir
                && h !in old(handles) && h in handles && handles == old(handles)[h := handles[h]] && handles[h].pos == 0
                && handles[h].entry !in old(entries) && entries == old(entries)[handles[h].entry := Entry(current, 1, found.what)]
    {
      hide Refs, Counts, Chained, Memory, Resolve;
      h := NULL;
      if !forReading {
        return WriteProtected, NULL;
      }
      var e;
      ghost var before := entries;
      err, e := ResolvedEntry(parent, found);
      if err != Done {
        return;
      }
      if found.what.node.isDir {
        ReleaseEntry(e);
        assert entries == before;
        return WrongType, NULL;
      }
      NotNull(e);
      h := AllocHandle(e, e);
      ReleaseEntry(e);
      if h == NULL {
        assert entries == before;
        err := NoFreeStore;
      } else {
        assert entries == before[e := Entry(current, 1, found.what)];
      }
    }

    /** Turn a lock into a handle. */
    method OpenFromLock(l: Ptr) returns (err: Error, h: Ptr)
      requires Valid()
      modifies this
      ensures Valid() && current == old(current) && mounted == old(mounted)
      ensures err == if l == NULL then ObjectNotFound
                     else if l !in old(locks) then InvalidLock
                     else if old(LockVolume(entries, locks[l])) != current then NotMounted
                     else if !old(Room(handlePool, allocations)) then NoFreeStore else Done
      ensures err != Done ==> h == NULL && handles == old(handles) && locks == old(locks) && entries == old(entries)
      ensures err == Done ==>
                && l in old(locks) && h !in old(handles) && handles == old(handles)[h := Handle(old(locks[l].entry), 0)]
                && locks.Keys == old(locks).Keys - {l} && Relinked(old(locks) - {l}, locks)
                && entries == old(entries)
    {
      hide Refs, Counts, Chained, Memory, Relinked, LockVolume, VolumeReleased;
      h := NULL;
      NoNull();
      if l == NULL {
        return ObjectNotFound, NULL;
      }
      if l !in locks {
        return InvalidLock, NULL;
      }
      LockHasEntry(entries, locks, handles, volumes, l);
      VolumeOfLock(entries, locks[l]);
      ghost var before, e := entries, locks[l].entry;
      AtLeastTwo(entries, locks, handles, e);
      err := ValidateVolume(entries[locks[l].entry].volume);
      if err != Done {
        return;
      }
      h := AllocHandle(locks[l].entry, NULL);
      if h == NULL {
        return NoFreeStore, NULL;
      }
      FreeLock(l);
      assert entries == before;
    }

    method Close(h: Ptr) returns (err: Error)
      requires Valid()
      modifies this
      ensures Valid() && current == old(current) && mounted == old(mounted) && locks == old(locks)
      ensures err == if h != NULL && h !in old(handles) then ObjectNotFound else Done
      ensures h !in old(handles) ==> handles == old(handles) && entries == old(entries) && volumes == old(volumes)
      ensures h in old(handles) ==>
                && handles == old(handles) - {h} && entries == Released(old(entries), old(handles[h].entry))
                && VolumeReleased(old(volumes), volumes, old(HandleVolume(entries, handles[h])), current)
    {
      hide Refs, Counts, Chained, Memory, Released, HandleVolume, VolumeReleased;
      NoNull();
      if h == NULL {
        return Done;
      }
      if h !in handles {
        return ObjectNotFound;
      }
      FreeHandle(h);
      err := Done;
    }

    // ----- change of medium -----

    /** Mount the medium in the drive, and show it as a volume. */
    method Mount(medium: Medium)
      requires Valid()
      modifies this`mounted, this`current, this`volumes, this`chains, this`top, this`allocations
      ensures Valid() && locks == old(locks) && handles == old(handles) && entries == old(entries)
      ensures old(mounted) || medium != Readable(true) ==> volumes == old(volumes) && current == old(current)
      ensures !old(mounted) && medium == Readable(true) ==>
                if memory(old(allocations))
                then mounted && current !in old(volumes) && volumes == old(volumes)[current := Volume(0, NULL, NULL)]
                else !mounted && volumes == old(volumes)
    {
      hide Refs, Counts, Chained, Pooled;
      if mounted || medium == Absent || medium == Unreadable {
        return;
      }
      mounted := true;
      if medium.nodeCreated {
        var v := Allocate();
        if v == NULL {
          mounted := false;
          return;
        }
        CountsMount(entries, locks, handles, volumes, v, Volume(0, NULL, NULL));
        ChainedMount(entries, locks, handles, volumes, chains, v, Volume(0, NULL, NULL));
        volumes := volumes[v := Volume(0, NULL, NULL)];
        chains := chains[v := []];
        current := v;
      }
    }

    /** The medium is gone: its volume goes stale, or goes when nobody uses it. */
    method Unmount()
      requires Valid()
      modifies this`mounted, this`current, this`volumes, this`chains, this`detachments
      ensures Valid() && !mounted && current == NULL && locks == old(locks) && handles == old(handles) && entries == old(entries)
      ensures forall v :: v in volumes ==> v in old(volumes) && volumes[v] == old(volumes[v])
      ensures forall v :: v in old(volumes) && v !in volumes ==> v == old(current) && old(volumes[v].objectCount) == 0
      ensures old(current) != NULL && old(volumes[current].objectCount) == 0 && detaches(old(detachments)) ==> old(current) !in volumes
    {
      hide Refs, Counts, Chained, Memory;
      if !mounted {
        return;
      }
      var v := current;
      mounted := false;
      current := NULL;
      if v == NULL || volumes[v].objectCount != 0 {
        return;
      }
      NoNull();
      var _ := DestroyStaleVolume(v, NULL);
    }

    /** Take away everything clients still hold, at the end. */
    method DrainAllObjects()
      requires Valid()
      modifies this
      ensures Valid() && locks == map[] && handles == map[] && entries == map[] && current == old(current)
      ensures forall v :: v in volumes ==> v in old(volumes) && volumes[v].objectCount == 0
    {
      hide Refs, Counts, Chained, Memory, Relinked, Released, LockVolume, HandleVolume, VolumeReleased;
      while handles != map[]
        invariant Valid() && current == old(current)
        invariant forall v :: v in volumes ==> v in old(volumes)
        decreases |handles|
      {
        var h :| h in handles;
        VolumesStay(volumes, HandleVolume(entries, handles[h]), current);
        DropOne(handles, h);
        FreeHandle(h);
      }
      while locks != map[]
        invariant Valid() && current == old(current) && handles == map[]
        invariant forall v :: v in volumes ==> v in old(volumes)
        decreases |locks|
      {
        var l :| l in locks;
        VolumesStay(volumes, LockVolume(entries, locks[l]), current);
        ghost var before := locks;
        DropOne(locks, l);
        FreeLock(l);
        SameSize(before - {l}, locks);
      }
      NobodyLeft(entries, locks, handles, volumes);
    }
  }

  /** An object of volume v went: the volume stays, unless it is stale and that was its last. */
  ghost predicate VolumeReleased(a: map<Ptr, Volume>, b: map<Ptr, Volume>, v: Ptr, current: Ptr) {
    && v in a && a[v].objectCount > 0
    && (b.Keys == a.Keys || (b.Keys == a.Keys - {v} && v != current && a[v].objectCount == 1))
    && forall w :: w in b ==> b[w].objectCount == a[w].objectCount - if w == v then 1 else 0
  }

  lemma {:induction false} OwedIsVolume(entries: map<Ptr, Entry>, locks: map<Ptr, Lock>, handles: map<Ptr, Handle>, volumes: map<Ptr, Volume>, v: Ptr)
    requires Counts(entries, locks, handles, volumes, v) && v != NULL
    ensures v in volumes
  {
  }

  lemma {:induction false} SameEntries(entries: map<Ptr, Entry>, locks: map<Ptr, Lock>, handles: map<Ptr, Handle>)
    ensures SameVolumes(entries, entries, locks, handles)
  {
  }

  lemma {:induction false} HeadIsLock(entries: map<Ptr, Entry>, locks: map<Ptr, Lock>, volumes: map<Ptr, Volume>, chains: map<Ptr, seq<Ptr>>, v: Ptr)
    requires Chained(entries, locks, volumes, chains) && v in volumes
    ensures v in chains && (volumes[v].lockHead != NULL ==> volumes[v].lockHead in locks)
  {
    hide LockVolume;
    HeadIsOn(locks, volumes[v].lockHead, chains[v]);
  }

  lemma {:induction false} PushedKeysAre(locks: map<Ptr, Lock>, head: Ptr, l: Ptr, x: Lock)
    requires l !in locks
    ensures var after := PushedLocks(locks, head, l, x);
            && after.Keys == locks.Keys + {l} && after[l].entry == x.entry && after[l].exclusive == x.exclusive
            && Relinked(locks, after - {l})
  {
  }

  lemma {:induction false} UnlinkedKeysAre(locks: map<Ptr, Lock>, l: Ptr)
    requires l in locks
    ensures UnlinkedLocks(locks, l).Keys == locks.Keys && Relinked(locks - {l}, UnlinkedLocks(locks, l) - {l})
  {
  }

  lemma {:induction false} PushedInSteps(locks: map<Ptr, Lock>, head: Ptr, l: Ptr, x: Lock, after: map<Ptr, Lock>)
    requires l !in locks && (head == NULL || head in locks) && NULL !in locks
    requires var a := locks[l := x.(prev := NULL, next := head, link := head)];
             after == if head != NULL then a[head := a[head].(prev := l)] else a
    ensures after == PushedLocks(locks, head, l, x)
  {
  }

  /** What a new lock does to all counts and chains. */
  lemma {:induction false} LockAdded(entries: map<Ptr, Entry>, locks: map<Ptr, Lock>, handles: map<Ptr, Handle>, volumes: map<Ptr, Volume>,
                                     chains: map<Ptr, seq<Ptr>>, l: Ptr, x: Lock, v: Ptr)
    requires Refs(entries, locks, handles, x.entry) && Counts(entries, locks, handles, volumes, NULL) && Chained(entries, locks, volumes, chains)
    requires l !in locks && l != NULL && x.entry != NULL && x.entry in entries && entries[x.entry].volume == v && v in volumes
    ensures var after := PushedLocks(locks, volumes[v].lockHead, l, x);
            var volumes' := volumes[v := volumes[v].(objectCount := volumes[v].objectCount + 1, lockHead := l, lockList := l)];
            && v in chains
            && Refs(entries, after, handles, NULL) && Counts(entries, after, handles, volumes', NULL)
            && Chained(entries, after, volumes', chains[v := [l] + chains[v]])
  {
    hide Refs, Counts, PushedLocks, SameVolumes, Relinked, Linked;
    VolumeOfLock(entries, x);
    var head := volumes[v].lockHead;
    var after := PushedLocks(locks, head, l, x);
    var counted := volumes[v := volumes[v].(objectCount := volumes[v].objectCount + 1)];
    var volumes' := volumes[v := volumes[v].(objectCount := volumes[v].objectCount + 1, lockHead := l, lockList := l)];
    PushedKeeps(locks, head, l, x);
    RefsLock(entries, locks, handles, l, x);
    RefsRelinked(entries, locks[l := x], after, handles, NULL);
    CountsLock(entries, locks, handles, volumes, l, x);
    SameEntries(entries, after, handles);
    SameEntries(entries, locks[l := x], handles);
    CountsFrame(entries, entries, locks[l := x], after, handles, counted, volumes', NULL);
    ChainedPush(entries, locks, volumes, chains, l, x, v);
    ChainedFrame(entries, entries, after, handles, volumes[v := volumes[v].(lockHead := l, lockList := l)], volumes', chains[v := [l] + chains[v]]);
  }

  lemma {:induction false} VolumeOfLock(entries: map<Ptr, Entry>, x: Lock)
    ensures x.entry in entries ==> LockVolume(entries, x) == entries[x.entry].volume
  {
  }

  lemma {:induction false} LockHasEntry(entries: map<Ptr, Entry>, locks: map<Ptr, Lock>, handles: map<Ptr, Handle>, volumes: map<Ptr, Volume>, l: Ptr)
    requires Refs(entries, locks, handles, NULL) && Counts(entries, locks, handles, volumes, NULL) && l in locks
    ensures locks[l].entry in entries && locks[l].entry != NULL && entries[locks[l].entry].volume in volumes && NULL !in volumes
  {
    hide LocksOn, HandlesOn, VolumeLocks, VolumeHandles;
    VolumeOfLock(entries, locks[l]);
  }

  lemma {:induction false} NeighboursAreLocks(entries: map<Ptr, Entry>, locks: map<Ptr, Lock>, volumes: map<Ptr, Volume>,
                                              chains: map<Ptr, seq<Ptr>>, l: Ptr, v: Ptr)
    requires Chained(entries, locks, volumes, chains) && l in locks && v in volumes && LockVolume(entries, locks[l]) == v
    ensures v in chains && (locks[l].prev != NULL ==> locks[l].prev in locks) && (locks[l].next != NULL ==> locks[l].next in locks)
    ensures locks[l].prev != l && locks[l].next != l
  {
    hide LockVolume;
    NeighboursAreOn(locks, volumes[v].lockHead, chains[v], l);
    var k := PlaceIn(chains[v], l);
    LinkIs(locks, volumes[v].lockHead, chains[v], k);
  }

  lemma {:induction false} LinkIs(locks: map<Ptr, Lock>, head: Ptr, chain: seq<Ptr>, k: nat)
    requires Linked(locks, head, chain) && k < |chain|
    ensures locks[chain[k]].prev == At(chain, k - 1) && locks[chain[k]].prev != chain[k]
    ensures locks[chain[k]].next == At(chain, k + 1) && locks[chain[k]].next != chain[k]
  {
    assert chain[k] in chain;
  }

  lemma {:induction false} UnlinkedInSteps(locks: map<Ptr, Lock>, l: Ptr, after: map<Ptr, Lock>)
    requires l in locks && NULL !in locks
    requires var x := locks[l];
             && (x.prev != NULL ==> x.prev in locks) && (x.next != NULL ==> x.next in locks)
             && var a := if x.prev != NULL then locks[x.prev := locks[x.prev].(next := x.next, link := x.next)] else locks;
                var b := if x.next != NULL then a[x.next := a[x.next].(prev := x.prev)] else a;
                after == b[l := b[l].(prev := NULL, next := NULL, link := NULL)]
    ensures after == UnlinkedLocks(locks, l)
  {
  }

  /** What taking away a lock does to all counts and chains. */
  lemma {:induction false} LockRemoved(entries: map<Ptr, Entry>, locks: map<Ptr, Lock>, handles: map<Ptr, Handle>, volumes: map<Ptr, Volume>,
                                       chains: map<Ptr, seq<Ptr>>, l: Ptr, v: Ptr)
    returns (k: nat)
    requires Refs(entries, locks, handles, NULL) && Counts(entries, locks, handles, volumes, NULL) && Chained(entries, locks, volumes, chains)
    requires l in locks && NULL !in locks && LockVolume(entries, locks[l]) == v && v in volumes
    ensures v in chains && k < |chains[v]|
    ensures var after := UnlinkedLocks(locks, l) - {l};
            var volumes' := volumes[v := UnlinkedHead(volumes[v], locks[l], l)];
            && Refs(entries, after, handles, locks[l].entry) && Counts(entries, after, handles, volumes', v)
            && Chained(entries, after, volumes', chains[v := Without(chains[v], k)])
  {
    hide Refs, Counts, SameVolumes, Linked, LockVolume, UnlinkedLocks, Without;
    var after := UnlinkedLocks(locks, l) - {l};
    var volumes' := volumes[v := UnlinkedHead(volumes[v], locks[l], l)];
    k := ChainedUnlink(entries, locks, volumes, chains, l, v);
    UnlinkedKeeps(locks, l);
    RefsUnlock(entries, locks, handles, l);
    RefsRelinked(entries, locks - {l}, after, handles, locks[l].entry);
    CountsUnlock(entries, locks, handles, volumes, l);
    SameEntries(entries, locks - {l}, handles);
    CountsFrame(entries, entries, locks - {l}, after, handles, volumes, volumes', v);
  }

  lemma {:induction false} VolumesStay(a: map<Ptr, Volume>, v: Ptr, current: Ptr)
    ensures forall b :: VolumeReleased(a, b, v, current) ==> forall w :: w in b ==> w in a
  {
  }

  lemma {:induction false} DropOne<V>(m: map<Ptr, V>, p: Ptr)
    requires p in m
    ensures |m - {p}| == |m| - 1
  {
    assert (m - {p}).Keys == m.Keys - {p};
    assert |m.Keys| == |m| && |(m - {p}).Keys| == |m - {p}|;
  }

  lemma {:induction false} SameSize<V>(a: map<Ptr, V>, b: map<Ptr, V>)
    requires a.Keys == b.Keys
    ensures |a| == |b|
  {
    assert |a.Keys| == |a| && |b.Keys| == |b|;
  }

  /** Without locks and handles there are no entries, and volumes without objects. */
  lemma {:induction false} NobodyLeft(entries: map<Ptr, Entry>, locks: map<Ptr, Lock>, handles: map<Ptr, Handle>, volumes: map<Ptr, Volume>)
    requires Refs(entries, locks, handles, NULL) && Counts(entries, locks, handles, volumes, NULL) && locks == map[] && handles == map[]
    ensures entries == map[] && forall v :: v in volumes ==> volumes[v].objectCount == 0
  {
    forall e
      ensures LocksOn(locks, e) == {} && HandlesOn(handles, e) == {}
    {
    }
    forall v | v in volumes
      ensures volumes[v].objectCount == 0
    {
      assert VolumeLocks(entries, locks, v) == {} && VolumeHandles(entries, handles, v) == {};
    }
    assert entries.Keys == {};
  }

  lemma {:induction false} AtLeastTwo(entries: map<Ptr, Entry>, locks: map<Ptr, Lock>, handles: map<Ptr, Handle>, e: Ptr)
    requires Refs(entries, locks, handles, NULL) && e in entries
    ensures entries[e].refcount >= 1
  {
    hide LocksOn, HandlesOn;
  }

  lemma {:induction false} RefsFilled(a: map<Ptr, Entry>, b: map<Ptr, Entry>, locks: map<Ptr, Lock>, handles: map<Ptr, Handle>, e: Ptr)
    requires Refs(a, locks, handles, e) && a.Keys == b.Keys && forall x :: x in a ==> b[x].refcount == a[x].refcount
    ensures Refs(b, locks, handles, e)
  {
    hide LocksOn, HandlesOn;
  }

  lemma {:induction false} HandleHasEntry(entries: map<Ptr, Entry>, locks: map<Ptr, Lock>, handles: map<Ptr, Handle>, volumes: map<Ptr, Volume>, h: Ptr)
    requires Refs(entries, locks, handles, NULL) && Counts(entries, locks, handles, volumes, NULL) && h in handles
    ensures handles[h].entry in entries && handles[h].entry != NULL && entries[handles[h].entry].volume in volumes && NULL !in volumes
    ensures HandleVolume(entries, handles[h]) == entries[handles[h].entry].volume
  {
    hide LocksOn, HandlesOn, VolumeLocks, VolumeHandles;
  }

  /** What a new handle does to all counts and chains. */
  lemma {:induction false} HandleAdded(entries: map<Ptr, Entry>, locks: map<Ptr, Lock>, handles: map<Ptr, Handle>, volumes: map<Ptr, Volume>,
                                       chains: map<Ptr, seq<Ptr>>, extra: Ptr, h: Ptr, x: Handle, v: Ptr)
    requires Refs(entries, locks, handles, extra) && Counts(entries, locks, handles, volumes, NULL) && Chained(entries, locks, volumes, chains)
    requires h !in handles && x.entry in entries && entries[x.entry].volume == v && v in volumes
    ensures var y := entries[x.entry];
            var entries' := entries[x.entry := y.(refcount := y.refcount + 1)];
            var volumes' := volumes[v := volumes[v].(objectCount := volumes[v].objectCount + 1)];
            && Refs(entries', locks, handles[h := x], extra) && Counts(entries', locks, handles[h := x], volumes', NULL)
            && Chained(entries', locks, volumes', chains)
  {
    hide Counts, Chained, LocksOn, HandlesOn;
    var y := entries[x.entry];
    var entries' := entries[x.entry := y.(refcount := y.refcount + 1)];
    var volumes' := volumes[v := volumes[v].(objectCount := volumes[v].objectCount + 1)];
    RefsOpen(entries, locks, handles, extra, h, x);
    hide Refs;
    CountsOpen(entries, locks, handles, volumes, h, x);
    OpenedVolumes(entries, entries', locks, handles, extra, h, x);
    SameLocks(locks);
    CountsFrame(entries, entries', locks, locks, handles[h := x], volumes', volumes', NULL);
    ChainedFrame(entries, entries', locks, handles[h := x], volumes, volumes', chains);
  }

  lemma {:induction false} OpenedVolumes(a: map<Ptr, Entry>, b: map<Ptr, Entry>, locks: map<Ptr, Lock>, handles: map<Ptr, Handle>,
                                         extra: Ptr, h: Ptr, x: Handle)
    requires Refs(a, locks, handles, extra) && x.entry in a && a.Keys == b.Keys && forall e :: e in a ==> a[e].volume == b[e].volume
    ensures SameVolumes(a, b, locks, handles[h := x])
  {
    hide LocksOn, HandlesOn;
  }

  lemma {:induction false} LastReference(entries: map<Ptr, Entry>, locks: map<Ptr, Lock>, handles: map<Ptr, Handle>, e: Ptr)
    requires Refs(entries, locks, handles, e) && e != NULL
    ensures e in entries && entries[e].refcount > 0
  {
    hide LocksOn, HandlesOn;
  }

  lemma {:induction false} SameLocks(locks: map<Ptr, Lock>)
    ensures Relinked(locks, locks)
  {
  }

  /** Entries with holders keep their volumes. */
  lemma {:induction false} HoldersStay(a: map<Ptr, Entry>, b: map<Ptr, Entry>, locks: map<Ptr, Lock>, handles: map<Ptr, Handle>, x: Ptr, y: Ptr)
    requires Refs(a, locks, handles, x) && Refs(b, locks, handles, y)
    requires forall e :: e in a && e in b ==> a[e].volume == b[e].volume
    ensures SameVolumes(a, b, locks, handles)
  {
    hide LocksOn, HandlesOn;
  }
}
