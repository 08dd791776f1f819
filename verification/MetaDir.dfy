/**
 A directory parsed once and kept: compact entries, and a pool of strings that
 they point into.
 */
module MetaDir {
  import opened Basics
  import opened BlockDevice
  import opened Names

  const COMMENT_MAX: nat := 80
  const HASH_MIN: nat := 8
  /** Bytes of the header of a cached directory, and of one entry, as laid out on the 68000. */
  const HEADER_BYTES: nat := 40
  const ENTRY_BYTES: nat := 68

  datatype Kind = File | Directory | Symlink | Virtual

  /** What identifies a directory on the medium. */
  datatype Key = Key(lba: Lba, length: nat, backend: nat)

  datatype Info = Info(size: nat, modified: int, created: int, mode: nat, protection: Option<bv32>)

  /** A node without the identifiers that every scan makes anew. */
  datatype Node = Node(name: Name, kind: Kind, place: Key, info: Info, comment: Option<Name>)

  /** The compact form of a node: strings are offsets into the pool. */
  datatype Entry = Entry(kind: Kind, place: Key, info: Info, nameOff: nat, commentOff: Option<nat>)

  predicate ValidNode(n: Node) {
    n.comment.Some? ==> |n.comment.value| < COMMENT_MAX
  }

  // ----- the pool of strings -----

  ghost predicate StringAt(pool: Bytes, off: nat, s: Name) {
    off + |s| < |pool| && pool[off..off + |s|] == s && pool[off + |s|] == 0
  }

  ghost predicate Holds(e: Entry, pool: Bytes, n: Node) {
    && e.kind == n.kind && e.place == n.place && e.info == n.info
    && StringAt(pool, e.nameOff, n.name)
    && e.commentOff.Some? == n.comment.Some?
    && (n.comment.Some? ==> |n.comment.value| < COMMENT_MAX && StringAt(pool, e.commentOff.value, n.comment.value))
  }

  ghost predicate Represents(entries: seq<Entry>, pool: Bytes, nodes: seq<Node>) {
    |entries| == |nodes| && forall i :: 0 <= i < |entries| ==> Holds(entries[i], pool, nodes[i])
  }

  function PackedBytes(entries: nat, pool: nat): nat {
    HEADER_BYTES + entries * ENTRY_BYTES + pool
  }

  /** Bytes that the nodes of a directory take in compact form. */
  function PoolBytes(nodes: seq<Node>): nat {
    if nodes == [] then 0 else
    var n := nodes[|nodes| - 1];
    PoolBytes(nodes[..|nodes| - 1]) + |n.name| + 1 + (if n.comment.Some? then |n.comment.value| + 1 else 0)
  }

  lemma {:induction false} StringsStay(pool: Bytes, more: Bytes, off: nat, s: Name)
    requires StringAt(pool, off, s)
    ensures StringAt(pool + more, off, s)
  {
    assert (pool + more)[off..off + |s|] == pool[off..off + |s|];
  }

  lemma {:induction false} StringAdded(pool: Bytes, s: Name)
    ensures StringAt(pool + s + [0], |pool|, s)
  {
    assert (pool + s + [0])[|pool|..|pool| + |s|] == s;
  }

  lemma {:induction false} EntryStays(e: Entry, pool: Bytes, more: Bytes, n: Node)
    requires Holds(e, pool, n)
    ensures Holds(e, pool + more, n)
  {
    hide StringAt;
    StringsStay(pool, more, e.nameOff, n.name);
    if n.comment.Some? {
      StringsStay(pool, more, e.commentOff.value, n.comment.value);
    }
  }

  /** Append a node to the compact form of those before it. */
  method PackNode(entries: seq<Entry>, pool: Bytes, n: Node, ghost nodes: seq<Node>) returns (entries': seq<Entry>, pool': Bytes)
    requires ValidNode(n) && Represents(entries, pool, nodes) && |pool| == PoolBytes(nodes)
    ensures Represents(entries', pool', nodes + [n]) && |pool'| == PoolBytes(nodes + [n])
  {
    hide StringAt, Holds;
    var nameOff := |pool|;
    pool' := pool + n.name + [0];
    StringAdded(pool, n.name);
    var e := Entry(n.kind, n.place, n.info, nameOff, None);
    if n.comment.Some? {
      var commentOff := |pool'|;
      StringAdded(pool', n.comment.value);
      StringsStay(pool', n.comment.value + [0], nameOff, n.name);
      assert pool' + (n.comment.value + [0]) == pool' + n.comment.value + [0];
      pool' := pool' + n.comment.value + [0];
      e := e.(commentOff := Some(commentOff));
    }
    EntryHolds(e, pool', n);
    assert pool <= pool';
    forall i | 0 <= i < |entries|
      ensures Holds(entries[i], pool', nodes[i])
    {
      EntryStays(entries[i], pool, pool'[|pool|..], nodes[i]);
      assert pool + pool'[|pool|..] == pool';
    }
    entries' := entries + [e];
    assert (nodes + [n])[..|nodes|] == nodes;
  }

  lemma {:induction false} EntryHolds(e: Entry, pool: Bytes, n: Node)
    requires e.kind == n.kind && e.place == n.place && e.info == n.info && ValidNode(n)
    requires StringAt(pool, e.nameOff, n.name) && e.commentOff.Some? == n.comment.Some?
    requires n.comment.Some? ==> StringAt(pool, e.commentOff.value, n.comment.value)
    ensures Holds(e, pool, n)
  {
  }

  method CopyString(pool: Bytes, off: nat, ghost s: Name) returns (r: Name)
    requires StringAt(pool, off, s)
    ensures r == s
  {
    var i := off;
    r := [];
    while pool[i] != 0
      invariant off <= i <= off + |s| && r == s[..i - off]
      decreases off + |s| - i
    {
      PoolByte(pool, off, s, i - off);
      r := r + [pool[i]];
      i := i + 1;
    }
    PoolByte(pool, off, s, i - off);
  }

  /** The node that an entry stands for. */
  method EntryToNode(e: Entry, pool: Bytes, ghost n: Node) returns (r: Node)
    requires Holds(e, pool, n)
    ensures r == n
  {
    var name := CopyString(pool, e.nameOff, n.name);
    r := Node(name, e.kind, e.place, e.info, None);
    if e.commentOff.Some? {
      var comment := CopyString(pool, e.commentOff.value, n.comment.value);
      var len := |comment|;
      if len >= COMMENT_MAX {
        len := COMMENT_MAX - 1;
      }
      assert comment[..|comment|] == comment;
      r := r.(comment := Some(comment[..len]));
    }
  }

  // ----- names -----

  /** Bytes that differ by the case bit and are letters, or do not differ. */
  predicate SameByte(x: bv8, y: bv8) {
    x == y || ((x | 0x20) == (y | 0x20) && 0x61 <= (x | 0x20) <= 0x7A)
  }

  lemma {:induction false} SameByteIgnoresCase(x: bv8, y: bv8)
    ensures SameByte(x, y) <==> ToLower(x) == ToLower(y)
    ensures SameByte(x, y) ==> x == y || x ^ y == 0x20
    ensures SameByte(x, y) ==> (x == 0 <==> y == 0)
  {
  }

  lemma {:induction false} DiffersAt(a: Name, name: Name, i: nat)
    requires i < |name| && i <= |a| && ToLower(ByteAt(a, i)) != ToLower(name[i])
    ensures !SameName(a, name)
  {
  }

  /** Whether the pool string a at off equals name, ignoring case. */
  method NameEq(pool: Bytes, off: nat, name: Name, ghost a: Name) returns (eq: bool)
    requires StringAt(pool, off, a)
    ensures eq <==> SameName(a, name)
  {
    hide SameByte, ToLower;
    var i := 0;
    while i < |name|
      invariant i <= |name| && i <= |a|
      invariant forall k :: 0 <= k < i ==> ToLower(a[k]) == ToLower(name[k])
    {
      PoolByte(pool, off, a, i);
      SameByteIgnoresCase(pool[off + i], name[i]);
      if !SameByte(pool[off + i], name[i]) {
        DiffersAt(a, name, i);
        return false;
      }
      i := i + 1;
    }
    PoolByte(pool, off, a, i);
    eq := pool[off + i] == 0;
  }

  lemma {:induction false} PoolByte(pool: Bytes, off: nat, a: Name, i: nat)
    requires StringAt(pool, off, a) && i <= |a|
    ensures off + i < |pool| && pool[off + i] == ByteAt(a, i) && (pool[off + i] == 0 <==> i == |a|)
  {
    if i < |a| {
      assert pool[off + i] == pool[off..off + |a|][i];
    }
  }

  /** Names that are the same have first bytes that differ by no more than the case bit. */
  lemma {:induction false} FirstBytes(a: Name, name: Name)
    requires SameName(a, name)
    ensures ByteAt(a, 0) == ByteAt(name, 0) || ByteAt(a, 0) ^ ByteAt(name, 0) == 0x20
  {
    hide ToLower, SameByte;
    if a != [] {
      assert ToLower(a[0]) == ToLower(name[0]);
      SameByteIgnoresCase(a[0], name[0]);
    }
  }

  /** The first node of that name, ignoring case, or -1: what a backend finds by scanning. */
  function FirstNamed(nodes: seq<Node>, name: Name): (i: int)
    ensures -1 <= i < |nodes|
    ensures i >= 0 ==> SameName(nodes[i].name, name)
    ensures forall j :: 0 <= j < |nodes| && (i < 0 || j < i) ==> !SameName(nodes[j].name, name)
  {
    if nodes == [] then -1 else
    var last := |nodes| - 1;
    var i := FirstNamed(nodes[..last], name);
    assert forall j :: 0 <= j < last ==> nodes[..last][j] == nodes[j];
    if i >= 0 then i else if SameName(nodes[last].name, name) then last else -1
  }

  lemma {:induction false} FirstNamedIs(nodes: seq<Node>, name: Name, i: int)
    requires -1 <= i < |nodes| && (i >= 0 ==> SameName(nodes[i].name, name))
    requires forall j :: 0 <= j < |nodes| && (i < 0 || j < i) ==> !SameName(nodes[j].name, name)
    ensures FirstNamed(nodes, name) == i
  {
  }

  // ----- a cached directory -----

  class Dir {
    const key: Key
    const entries: seq<Entry>
    const pool: Bytes
    const bytes: nat
    ghost const nodes: seq<Node>
    /** Hashes of the names, filled by the first lookup that needs them. */
    var hashes: seq<bv32>
    var hashed: bool
    var referenced: bool
    var lruPrev: Dir?
    var lruNext: Dir?

    ghost predicate Sound() {
      Represents(entries, pool, nodes) && bytes == PackedBytes(|entries|, |pool|)
    }

    ghost predicate Hashed()
      reads this`hashes, this`hashed
    {
      hashed ==> |hashes| == |entries| && |entries| == |nodes| && forall i :: 0 <= i < |nodes| ==> hashes[i] == CaseHash(nodes[i].name)
    }

    constructor (key: Key, entries: seq<Entry>, pool: Bytes, ghost nodes: seq<Node>)
      requires Represents(entries, pool, nodes)
      ensures this.key == key && this.nodes == nodes && this.entries == entries && this.pool == pool && Sound() && Hashed()
      ensures !referenced && lruPrev == null && lruNext == null
    {
      this.key, this.entries, this.pool, this.nodes := key, entries, pool, nodes;
      bytes := PackedBytes(|entries|, |pool|);
      hashes, hashed, referenced := [], false, false;
      lruPrev, lruNext := null, null;
    }

    method HashNames()
      requires Sound() && Hashed()
      modifies this`hashes, this`hashed
      ensures Hashed() && hashed
    {
      hide Holds, CaseHash;
      if hashed {
        return;
      }
      var h: seq<bv32> := [];
      while |h| < |entries|
        invariant |h| <= |entries| && forall i :: 0 <= i < |h| ==> h[i] == CaseHash(nodes[i].name)
      {
        var name := NameOf(|h|);
        var hash, _ := StrCaseHash(name);
        h := h + [hash];
      }
      hashes, hashed := h, true;
    }

    method NameOf(i: nat) returns (name: Name)
      requires Sound() && i < |entries|
      ensures name == nodes[i].name
    {
      assert Holds(entries[i], pool, nodes[i]);
      name := CopyString(pool, entries[i].nameOff, nodes[i].name);
    }

    /** The first entry of that name, ignoring case, or -1. */
    method FindName(name: Name) returns (r: int)
      requires Sound() && Hashed()
      modifies this`hashes, this`hashed
      ensures Hashed()
      ensures r == FirstNamed(nodes, name)
    {
      if |entries| < HASH_MIN {
        r := FindByFirstByte(name);
      } else {
        HashNames();
        r := FindByHash(name);
      }
      FirstNamedIs(nodes, name, r);
    }

    method FindByFirstByte(name: Name) returns (r: int)
      requires Sound()
      ensures -1 <= r < |nodes| && (r >= 0 ==> SameName(nodes[r].name, name))
      ensures forall j :: 0 <= j < |nodes| && (r < 0 || j < r) ==> !SameName(nodes[j].name, name)
    {
      hide SameName;
      var c0 := ByteAt(name, 0);
      var i := 0;
      while i < |entries|
        invariant i <= |entries| && forall j :: 0 <= j < i ==> !SameName(nodes[j].name, name)
      {
        assert Holds(entries[i], pool, nodes[i]);
        ghost var a := nodes[i].name;
        PoolByte(pool, entries[i].nameOff, a, 0);
        var x := pool[entries[i].nameOff];
        if SameName(a, name) {
          FirstBytes(a, name);
        }
        if x == c0 || x ^ c0 == 0x20 {
          var eq := NameEq(pool, entries[i].nameOff, name, a);
          if eq {
            return i;
          }
        }
        i := i + 1;
      }
      r := -1;
    }

    method FindByHash(name: Name) returns (r: int)
      requires Sound() && Hashed() && hashed
      ensures -1 <= r < |nodes| && (r >= 0 ==> SameName(nodes[r].name, name))
      ensures forall j :: 0 <= j < |nodes| && (r < 0 || j < r) ==> !SameName(nodes[j].name, name)
    {
      hide SameName, CaseHash;
      var hash := StrCaseHashLen(name, |name|);
      assert name[..|name|] == name;
      var i := 0;
      while i < |entries|
        invariant i <= |entries| && forall j :: 0 <= j < i ==> !SameName(nodes[j].name, name)
      {
        assert Holds(entries[i], pool, nodes[i]);
        ghost var a := nodes[i].name;
        if SameName(a, name) {
          SameNameSameHash(a, name);
        }
        if hashes[i] == hash {
          var eq := NameEq(pool, entries[i].nameOff, name, a);
          if eq {
            return i;
          }
        }
        i := i + 1;
      }
      r := -1;
    }
  }
}
