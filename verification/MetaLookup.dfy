/**
 Names and whole paths looked up in cached directories, and by a backend's own
 scan.
 */
module MetaLookup {
  import opened Basics
  import opened BlockDevice
  import opened Names
  import opened MetaDir
  import opened MetaCache

  const NAME_MAX: nat := 128
  const SLASH: bv8 := 0x2F

  // ----- one name -----

  /** Look a name up in a directory of the cache. */
  method FindIn(cache: Cache, ghost list: Key -> seq<Node>, d: Dir, name: Name) returns (r: int)
    requires cache.Valid(list) && d in cache.dirs
    modifies d`hashes, d`hashed
    ensures cache.Valid(list) && d.Sound()
    ensures r == FirstNamed(d.nodes, name)
  {
    hide NoDup, UniqueKeys, Total, Dir.Sound, FirstNamed;
    r := d.FindName(name);
  }

  method CachedLookup(cache: Cache, backend: Backend, key: Key, name: Name) returns (err: Error, node: Option<Node>)
    requires cache.Valid(backend.list) && backend.Valid()
    modifies cache, cache.dirs, backend
    ensures cache.Valid(backend.list)
    ensures err == Ok || err == NotFound || err == Unsupported
    ensures err != Unsupported <==> cache.Cacheable(key) && old(cache.Serves(backend, key))
    ensures backend.asked == old(backend.asked + if cache.Cacheable(key) then cache.Tries(key) else 0)
    ensures err != Unsupported ==>
              var i := FirstNamed(backend.list(key), name);
              (err == Ok <==> i >= 0) && (err == Ok ==> node == Some(backend.list(key)[i]))
  {
    hide cache.Valid, FirstNamed, Dir.Sound, Dir.Hashed, Cache.Serves, Cache.Tries;
    node := None;
    if !cache.Cacheable(key) {
      return Unsupported, None;
    }
    var d, orphan := cache.Get(backend, key);
    if d == null {
      return Unsupported, None;
    }
    var r;
    if orphan {
      r := d.FindName(name);
    } else {
      r := FindIn(cache, backend.list, d, name);
    }
    err := NotFound;
    if r >= 0 {
      EntryIs(d, r);
      var n := EntryToNode(d.entries[r], d.pool, d.nodes[r]);
      err, node := Ok, Some(n);
    }
  }

  lemma {:induction false} EntryIs(d: Dir, r: int)
    requires d.Sound() && 0 <= r < |d.nodes|
    ensures r < |d.entries| && Holds(d.entries[r], d.pool, d.nodes[r])
  {
  }

  /** The scan of a backend: it stops at the first entry of that name. */
  method BackendLookup(backend: Backend, key: Key, name: Name) returns (err: Error, node: Option<Node>)
    requires backend.Valid()
    modifies backend
    ensures var i, reply := FirstNamed(backend.list(key), name), backend.reply(old(backend.asked));
            if 0 <= i < reply.reach then err == Ok && node == Some(backend.list(key)[i])
            else err == if reply.reach >= |backend.list(key)| then NotFound else reply.error
  {
    hide SameName;
    var n, error, _ := backend.Enumerate(key);
    var index := 0;
    while index < n
      invariant index <= n && |backend.list(key)| >= n && forall j :: 0 <= j < index ==> !SameName(backend.list(key)[j].name, name)
    {
      var cmp := StrCaseCmp(backend.list(key)[index].name, name);
      if cmp == 0 {
        FirstNamedIs(backend.list(key), name, index);
        return Ok, Some(backend.list(key)[index]);
      }
      index := index + 1;
    }
    err, node := if error == Ok then NotFound else error, None;
  }

  /** The request in which the backend scans, when the cache does not answer. */
  ghost function Scan(cache: Cache, backend: Backend, key: Key): MetaCache.Reply
    reads cache`dirs, cache`oversize, backend`asked
  {
    backend.reply(backend.asked + if cache.Cacheable(key) then cache.Tries(key) else 0)
  }

  /** The entries that a lookup can see: all of a directory that the cache
      answers for, or those that the backend gets past. */
  ghost function Scope(cache: Cache, backend: Backend, key: Key): nat
    reads cache`dirs, cache`oversize, backend`asked
  {
    if cache.Cacheable(key) && cache.Serves(backend, key) then |backend.list(key)| else Scan(cache, backend, key).reach
  }

  /** Look a name up, in the cache when it can, by the backend when it cannot. */
  method Lookup(cache: Cache, backend: Backend, dir: Node, name: Name) returns (err: Error, node: Option<Node>)
    requires cache.Valid(backend.list) && backend.Valid()
    modifies cache, cache.dirs, backend
    ensures cache.Valid(backend.list)
    ensures dir.kind != Directory ==> err == NotDir
    ensures dir.kind == Directory ==>
              var nodes, i, reach := backend.list(dir.place), FirstNamed(backend.list(dir.place), name), old(Scope(cache, backend, dir.place));
              if 0 <= i < reach then err == Ok && node == Some(nodes[i])
              else if reach >= |nodes| then err == NotFound
              else err == old(Scan(cache, backend, dir.place)).error
  {
    hide cache.Valid, FirstNamed, Cache.Serves, Cache.Tries;
    node := None;
    if dir.kind != Directory {
      return NotDir, None;
    }
    err, node := CachedLookup(cache, backend, dir.place, name);
    if err == Unsupported {
      err, node := BackendLookup(backend, dir.place, name);
    }
  }

  // ----- whole paths -----

  /** Where a path leads: through the nodes it names, or nowhere. Unsupported
      paths are left to the caller. */
  datatype Walk = Trail(nodes: seq<Node>) | Dead(error: Error)

  /** What the first component of a path comes to: entry i, at the end of the
      path or to be entered with the rest of it. */
  datatype Stride = Halt(error: Error) | Last(i: nat) | Enter(i: nat, rest: Name)

  /** Length of the first component of a path. */
  function Head(path: Name): (n: nat)
    ensures n <= |path| && (n < |path| ==> path[n] == SLASH)
    ensures forall i :: 0 <= i < n ==> path[i] != SLASH
  {
    if path == [] || path[0] == SLASH then 0 else 1 + Head(path[1..])
  }

  function StrideFrom(nodes: seq<Node>, path: Name): (s: Stride)
    ensures s.Last? ==> s.i < |nodes|
    ensures s.Enter? ==> s.i < |nodes| && |s.rest| < |path|
  {
    var n := Head(path);
    if n == 0 || n >= NAME_MAX then Halt(Unsupported) else
    var i := FirstNamed(nodes, path[..n]);
    if i < 0 then Halt(NotFound)
    else if nodes[i].kind == Symlink then Halt(Unsupported)
    else if n >= |path| - 1 then Last(i)
    else if path[n + 1] == SLASH then Halt(Unsupported)
    else if nodes[i].kind != Directory then Halt(NotDir)
    else Enter(i, path[n + 1..])
  }

  /** The walk that a path makes from directory key through cached directories. */
  function WalkFrom(list: Key -> seq<Node>, cached: set<Key>, key: Key, path: Name): Walk
    decreases |path|
  {
    if key !in cached then Dead(Unsupported) else
    match StrideFrom(list(key), path)
    case Halt(error) => Dead(error)
    case Last(i) => Trail([list(key)[i]])
    case Enter(i, rest) => After([list(key)[i]], WalkFrom(list, cached, list(key)[i].place, rest))
  }

  /** A walk continued after the nodes of t. */
  function After(t: seq<Node>, w: Walk): Walk {
    match w
    case Trail(nodes) => Trail(t + nodes)
    case Dead(_) => w
  }

  /** The names in a path; one slash after a name only separates it from the next. */
  function Components(path: Name): seq<Name>
    decreases |path|
  {
    var n := Head(path);
    if n >= |path| - 1 then [path[..n]] else [path[..n]] + Components(path[n + 1..])
  }

  /** Looking up names one by one, each in the directory named before it. */
  function Follow(list: Key -> seq<Node>, key: Key, names: seq<Name>): Option<seq<Node>>
    decreases |names|
  {
    if names == [] then Some([]) else
    var i := FirstNamed(list(key), names[0]);
    if i < 0 then None else
    var node := list(key)[i];
    if |names| > 1 && node.kind != Directory then None else
    match Follow(list, node.place, names[1..])
    case None => None
    case Some(nodes) => Some([node] + nodes)
  }

  /** A walk leads where looking up its components one by one leads. */
  lemma {:induction false} WalkFollowsComponents(list: Key -> seq<Node>, cached: set<Key>, key: Key, path: Name)
    ensures match WalkFrom(list, cached, key, path)
            case Trail(nodes) => nodes != [] && Follow(list, key, Components(path)) == Some(nodes)
            case Dead(error) => error == Unsupported || Follow(list, key, Components(path)) == None
    decreases |path|
  {
    hide FirstNamed, Head;
    var n := Head(path);
    if key in cached {
      match StrideFrom(list(key), path)
      case Halt(_) => ComponentsHead(path);
      case Last(i) =>
        assert Components(path) == [path[..n]] && Components(path)[1..] == [];
        assert Follow(list, list(key)[i].place, []) == Some([]) && [list(key)[i]] + [] == [list(key)[i]];
      case Enter(i, rest) =>
        ComponentsHead(path);
        ComponentsHead(rest);
        WalkFollowsComponents(list, cached, list(key)[i].place, rest);
    }
  }

  lemma {:induction false} ComponentsHead(path: Name)
    ensures Components(path) != [] && Components(path)[0] == path[..Head(path)]
    ensures Head(path) < |path| - 1 ==> Components(path)[1..] == Components(path[Head(path) + 1..]) && |Components(path)| > 1
  {
    if Head(path) < |path| - 1 {
      assert Components(path[Head(path) + 1..]) != [];
    }
  }

  /** Names with a slash between each and the next. */
  function Joined(names: seq<Name>): seq<bv8>
    decreases |names|
  {
    if names == [] then [] else if |names| == 1 then names[0] else names[0] + [SLASH] + Joined(names[1..])
  }

  /** The components of a path hold no slash, and joined they are the path,
      apart from a slash at its end. */
  lemma {:induction false} ComponentsJoin(path: Name)
    ensures forall k :: 0 <= k < |Components(path)| ==> SLASH !in Components(path)[k]
    ensures path == Joined(Components(path)) || path == Joined(Components(path)) + [SLASH]
    decreases |path|
  {
    hide Head, Joined, Components;
    var n, names := Head(path), Components(path);
    ComponentsHead(path);
    if n < |path| - 1 {
      var rest := path[n + 1..];
      ComponentsJoin(rest);
      ComponentsHead(rest);
      JoinedMore(names);
      assert names == [path[..n]] + Components(rest);
      assert path == path[..n] + [SLASH] + rest;
      if rest == Joined(Components(rest)) + [SLASH] {
        assert path == Joined(names) + [SLASH];
      }
    } else {
      OneName(path);
      JoinedMore(names);
      assert path == path[..n] || path == path[..n] + [SLASH];
    }
  }

  lemma {:induction false} JoinedMore(names: seq<Name>)
    requires names != []
    ensures Joined(names) == if |names| == 1 then names[0] else names[0] + [SLASH] + Joined(names[1..])
  {
  }

  /** The directory for name k of a path, when the names before led to nodes. */
  function DirAt(key: Key, nodes: seq<Node>, k: nat): Key
    requires k <= |nodes|
  {
    if k == 0 then key else nodes[k - 1].place
  }

  predicate Named(name: Name) {
    0 < |name| < NAME_MAX
  }

  /** Name k leads to node k: the first of that name in a cached directory, no
      link, and a directory unless it is the last. */
  ghost predicate Passes(list: Key -> seq<Node>, cached: set<Key>, key: Key, names: seq<Name>, nodes: seq<Node>, k: nat)
    requires k < |nodes| <= |names|
  {
    var dir := DirAt(key, nodes, k);
    var i := FirstNamed(list(dir), names[k]);
    && dir in cached && Named(names[k]) && i >= 0 && nodes[k] == list(dir)[i] && nodes[k].kind != Symlink
    && (k + 1 < |names| ==> names[k + 1] != [] && nodes[k].kind == Directory)
  }

  /** Why the name behind these nodes is not passed. */
  ghost predicate Stops(list: Key -> seq<Node>, cached: set<Key>, key: Key, names: seq<Name>, nodes: seq<Node>, error: Error)
    requires |nodes| < |names|
  {
    var k := |nodes|;
    var dir := DirAt(key, nodes, k);
    var i := FirstNamed(list(dir), names[k]);
    var more := k + 1 < |names|;
    if dir !in cached || !Named(names[k]) then error == Unsupported
    else if i < 0 then error == NotFound
    else if list(dir)[i].kind == Symlink || (more && names[k + 1] == []) then error == Unsupported
    else more && list(dir)[i].kind != Directory && error == NotDir
  }

  /** All of these names pass and the walk gives their nodes, or the first that does not pass decides the error. */
  ghost predicate Ends(list: Key -> seq<Node>, cached: set<Key>, key: Key, names: seq<Name>, nodes: seq<Node>, w: Walk) {
    && |nodes| <= |names| && (forall k :: 0 <= k < |nodes| ==> Passes(list, cached, key, names, nodes, k))
    && match w
       case Trail(t) => t == nodes && |nodes| == |names|
       case Dead(error) => |nodes| < |names| && Stops(list, cached, key, names, nodes, error)
  }

  /** What a walk comes to, for every path and whatever is cached. */
  lemma {:induction false} WalkEnds(list: Key -> seq<Node>, cached: set<Key>, key: Key, path: Name) returns (nodes: seq<Node>)
    ensures Ends(list, cached, key, Components(path), nodes, WalkFrom(list, cached, key, path))
    decreases |path|
  {
    hide FirstNamed, Head, Components, Passes, Stops, StrideFrom, Ends;
    nodes := [];
    if key !in cached {
      EndsUncached(list, cached, key, path);
    } else {
      match StrideFrom(list(key), path)
      case Halt(_) => EndsHalted(list, cached, key, path);
      case Last(i) =>
        nodes := [list(key)[i]];
        EndsLast(list, cached, key, path);
      case Enter(i, rest) =>
        var more := WalkEnds(list, cached, list(key)[i].place, rest);
        nodes := [list(key)[i]] + more;
        EndsLater(list, cached, key, path, more);
    }
  }

  lemma {:induction false} EndsUncached(list: Key -> seq<Node>, cached: set<Key>, key: Key, path: Name)
    requires key !in cached
    ensures Ends(list, cached, key, Components(path), [], Dead(Unsupported))
  {
    hide FirstNamed, Head, Components;
    ComponentsHead(path);
  }

  lemma {:induction false} EndsHalted(list: Key -> seq<Node>, cached: set<Key>, key: Key, path: Name)
    requires key in cached && StrideFrom(list(key), path).Halt?
    ensures Ends(list, cached, key, Components(path), [], Dead(StrideFrom(list(key), path).error))
  {
    hide FirstNamed, Head, Components;
    ComponentsHead(path);
    if Head(path) < |path| - 1 {
      NextName(path);
    } else {
      OneName(path);
    }
  }

  lemma {:induction false} EndsLast(list: Key -> seq<Node>, cached: set<Key>, key: Key, path: Name)
    requires key in cached && StrideFrom(list(key), path).Last?
    ensures var t := [list(key)[StrideFrom(list(key), path).i]];
            Ends(list, cached, key, Components(path), t, Trail(t))
  {
    hide FirstNamed, Head, Components;
    OneName(path);
  }

  lemma {:induction false} EndsLater(list: Key -> seq<Node>, cached: set<Key>, key: Key, path: Name, more: seq<Node>)
    requires key in cached && StrideFrom(list(key), path).Enter?
    requires var s := StrideFrom(list(key), path);
             var place := list(key)[s.i].place;
             Ends(list, cached, place, Components(s.rest), more, WalkFrom(list, cached, place, s.rest))
    ensures Ends(list, cached, key, Components(path), [list(key)[StrideFrom(list(key), path).i]] + more, WalkFrom(list, cached, key, path))
  {
    hide FirstNamed, Head, Components, Passes, Stops, StrideFrom;
    var s, names := StrideFrom(list(key), path), Components(path);
    var node := list(key)[s.i];
    var nodes := [node] + more;
    PassesFirst(list, cached, key, path, more);
    assert nodes[1..] == more;
    forall k | 0 <= k < |nodes|
      ensures Passes(list, cached, key, names, nodes, k)
    {
      if k > 0 {
        PassesLater(list, cached, key, names, nodes, k);
      }
    }
    if |more| < |Components(s.rest)| {
      StopsLater(list, cached, key, names, nodes);
    }
  }

  lemma {:induction false} PassesFirst(list: Key -> seq<Node>, cached: set<Key>, key: Key, path: Name, more: seq<Node>)
    requires key in cached && StrideFrom(list(key), path).Enter? && |more| <= |Components(StrideFrom(list(key), path).rest)|
    ensures |Components(path)| == |Components(StrideFrom(list(key), path).rest)| + 1
    ensures var s := StrideFrom(list(key), path);
            Components(path)[1..] == Components(s.rest) && Passes(list, cached, key, Components(path), [list(key)[s.i]] + more, 0)
  {
    hide FirstNamed, Head, Components;
    ComponentsHead(path);
    NextName(path);
  }

  /** The steps of a path are those of its rest, one later. */
  lemma {:induction false} PassesLater(list: Key -> seq<Node>, cached: set<Key>, key: Key, names: seq<Name>, nodes: seq<Node>, k: nat)
    requires 0 < k < |nodes| <= |names| && Passes(list, cached, nodes[0].place, names[1..], nodes[1..], k - 1)
    ensures Passes(list, cached, key, names, nodes, k)
  {
    hide FirstNamed;
    assert DirAt(key, nodes, k) == DirAt(nodes[0].place, nodes[1..], k - 1);
  }

  lemma {:induction false} StopsLater(list: Key -> seq<Node>, cached: set<Key>, key: Key, names: seq<Name>, nodes: seq<Node>)
    requires 0 < |nodes| < |names|
    ensures forall error: Error :: Stops(list, cached, nodes[0].place, names[1..], nodes[1..], error) <==> Stops(list, cached, key, names, nodes, error)
  {
    hide FirstNamed;
    assert DirAt(key, nodes, |nodes|) == DirAt(nodes[0].place, nodes[1..], |nodes| - 1);
  }

  lemma {:induction false} OneName(path: Name)
    requires Head(path) >= |path| - 1
    ensures Components(path) == [path[..Head(path)]]
  {
  }

  /** The next name is empty exactly when another slash follows the one behind this name. */
  lemma {:induction false} NextName(path: Name)
    requires Head(path) < |path| - 1
    ensures |Components(path)| > 1 && (Components(path)[1] == [] <==> path[Head(path) + 1] == SLASH)
    ensures Components(path)[1..] == Components(path[Head(path) + 1..])
  {
    hide Components;
    var rest := path[Head(path) + 1..];
    ComponentsHead(path);
    ComponentsHead(rest);
    assert Components(path)[1] == Components(path)[1..][0];
  }

  ghost function Keys(dirs: seq<Dir>): set<Key> {
    set d | d in dirs :: d.key
  }

  function Before(slot: nat): nat {
    if slot == 0 then 2 else slot - 1
  }

  /** The ring holds the last three nodes of a trail, the latest at slot. */
  ghost predicate RingHolds(ringDir: seq<Dir>, ringEnt: seq<int>, slot: nat, t: seq<Node>) {
    && |ringDir| == |ringEnt| == 3 && slot < 3
    && (|t| >= 1 ==> Stands(ringDir[slot], ringEnt[slot], t[|t| - 1]))
    && (|t| >= 2 ==> Stands(ringDir[Before(slot)], ringEnt[Before(slot)], t[|t| - 2]))
    && (|t| >= 3 ==> Stands(ringDir[Before(Before(slot))], ringEnt[Before(Before(slot))], t[|t| - 3]))
  }

  ghost predicate Stands(d: Dir, e: int, n: Node) {
    d.Sound() && 0 <= e < |d.nodes| && d.nodes[e] == n
  }

  lemma {:induction false} EmptyRing(ringDir: seq<Dir>, ringEnt: seq<int>, slot: nat)
    requires |ringDir| == |ringEnt| == 3 && slot < 3
    ensures RingHolds(ringDir, ringEnt, slot, [])
  {
  }

  lemma {:induction false} AfterNothing(w: Walk)
    ensures After([], w) == w
  {
    match w
    case Trail(nodes) => assert [] + nodes == nodes;
    case _ =>
  }

  lemma {:induction false} RingTurns(ringDir: seq<Dir>, ringEnt: seq<int>, slot: nat, t: seq<Node>, d: Dir, e: int, n: Node)
    requires slot < 3 && Stands(d, e, n) && RingHolds(ringDir, ringEnt, Before(slot), t)
    ensures RingHolds(ringDir[slot := d], ringEnt[slot := e], slot, t + [n])
  {
    hide Stands;
  }

  method NodeAt(d: Dir, e: int, ghost n: Node) returns (r: Node)
    requires Stands(d, e, n)
    ensures r == n
  {
    EntryIs(d, e);
    r := EntryToNode(d.entries[e], d.pool, n);
  }

  /** What the first component makes of a walk. */
  lemma {:induction false} WalkStep(list: Key -> seq<Node>, cached: set<Key>, key: Key, path: Name, t: seq<Node>)
    ensures key !in cached ==> After(t, WalkFrom(list, cached, key, path)) == Dead(Unsupported)
    ensures key in cached ==>
              After(t, WalkFrom(list, cached, key, path)) ==
              match StrideFrom(list(key), path)
              case Halt(error) => Dead(error)
              case Last(i) => Trail(t + [list(key)[i]])
              case Enter(i, rest) => After(t + [list(key)[i]], WalkFrom(list, cached, list(key)[i].place, rest))
  {
    hide StrideFrom;
    if key in cached && StrideFrom(list(key), path).Enter? {
      var s := StrideFrom(list(key), path);
      match WalkFrom(list, cached, list(key)[s.i].place, s.rest)
      case Trail(nodes) => assert t + ([list(key)[s.i]] + nodes) == (t + [list(key)[s.i]]) + nodes;
      case Dead(_) =>
    }
  }

  /** Take the first component of a path in a cached directory. */
  method TakeStride(cache: Cache, ghost list: Key -> seq<Node>, d: Dir, path: Name) returns (s: Stride)
    requires cache.Valid(list) && d in cache.dirs
    modifies d`hashes, d`hashed
    ensures cache.Valid(list) && d.Sound() && s == StrideFrom(d.nodes, path)
    ensures s.Last? ==> Stands(d, s.i, d.nodes[s.i])
    ensures s.Enter? ==> Stands(d, s.i, d.nodes[s.i]) && s.i < |d.entries| && d.entries[s.i].place == d.nodes[s.i].place
  {
    hide cache.Valid, FirstNamed, Head;
    var n := Head(path);
    if n == 0 || n >= NAME_MAX {
      OfCache(cache, list, d);
      return Halt(Unsupported);
    }
    var e := FindIn(cache, list, d, path[..n]);
    if e < 0 {
      return Halt(NotFound);
    }
    EntryIs(d, e);
    if d.entries[e].kind == Symlink {
      return Halt(Unsupported);
    }
    if n == |path| || n + 1 == |path| {
      return Last(e);
    }
    if path[n + 1] == SLASH {
      return Halt(Unsupported);
    }
    if d.entries[e].kind != Directory {
      return Halt(NotDir);
    }
    s := Enter(e, path[n + 1..]);
  }

  lemma {:induction false} OfCache(cache: Cache, list: Key -> seq<Node>, d: Dir)
    requires cache.Valid(list) && d in cache.dirs
    ensures d.Sound() && d.nodes == list(d.key)
  {
  }

  method FindCached(cache: Cache, ghost list: Key -> seq<Node>, key: Key) returns (d: Dir?)
    requires cache.Valid(list)
    modifies cache, cache.dirs
    ensures cache.Valid(list) && Keys(cache.dirs) == Keys(old(cache.dirs))
    ensures forall i {:trigger cache.dirs[i]} :: 0 <= i < |cache.dirs| ==> cache.dirs[i] in old(cache.dirs)
    ensures d == null <==> key !in Keys(old(cache.dirs))
    ensures d != null ==> d in cache.dirs && d.key == key && d.nodes == list(key) && d.Sound()
  {
    hide NoDup, UniqueKeys, Total, Dir.Sound, Dir.Hashed, Cache.Linked;
    d := cache.Find(key, list);
  }

  /** Walk a path through cached directories, keeping the last three nodes. */
  method LookupPath(cache: Cache, ghost list: Key -> seq<Node>, dir: Key, path: Name)
    returns (err: Error, node: Option<Node>, parent: Option<Node>, grandparent: Option<Node>, depth: nat)
    requires cache.Valid(list)
    modifies cache, cache.dirs
    ensures cache.Valid(list) && Keys(cache.dirs) == Keys(old(cache.dirs))
    ensures match WalkFrom(list, Keys(old(cache.dirs)), dir, path)
            case Trail(t) =>
              && err == Ok && depth == |t| > 0 && node == Some(t[|t| - 1])
              && parent == (if |t| >= 2 then Some(t[|t| - 2]) else None)
              && grandparent == (if |t| >= 3 then Some(t[|t| - 3]) else None)
            case Dead(error) => err == error && err != Ok
  {
    hide cache.Valid, StrideFrom, WalkFrom, After, RingHolds, Stands, Keys, Dir.Sound;
    ghost var cached := Keys(cache.dirs);
    ghost var whole := WalkFrom(list, cached, dir, path);
    ghost var trail: seq<Node> := [];
    node, parent, grandparent, depth := None, None, None, 0;
    WalkStep(list, cached, dir, path, []);
    AfterNothing(whole);
    var d := FindCached(cache, list, dir);
    if d == null {
      return Unsupported, None, None, None, 0;
    }
    var ringDir: seq<Dir>, ringEnt: seq<int> := [d, d, d], [0, 0, 0];
    var slot, p := 0, path;
    EmptyRing(ringDir, ringEnt, Before(slot));
    while true
      invariant cache.Valid(list) && Keys(cache.dirs) == cached
      invariant d in cache.dirs && d.key in cached && d.nodes == list(d.key)
      invariant forall i {:trigger cache.dirs[i]} :: 0 <= i < |cache.dirs| ==> cache.dirs[i] in old(cache.dirs)
      invariant After(trail, WalkFrom(list, cached, d.key, p)) == whole
      invariant |ringDir| == |ringEnt| == 3 && 0 <= slot < 3 && depth == |trail|
      invariant RingHolds(ringDir, ringEnt, Before(slot), trail)
      decreases |p|
    {
      WalkStep(list, cached, d.key, p, trail);
      HaltIsError(list(d.key), p);
      var s := TakeStride(cache, list, d, p);
      if s.Halt? {
        return s.error, None, None, None, 0;
      }
      RingTurns(ringDir, ringEnt, slot, trail, d, s.i, d.nodes[s.i]);
      ringDir, ringEnt := ringDir[slot := d], ringEnt[slot := s.i];
      depth, trail := depth + 1, trail + [d.nodes[s.i]];
      if s.Last? {
        break;
      }
      p := s.rest;
      WalkStep(list, cached, d.nodes[s.i].place, p, trail);
      d := FindCached(cache, list, d.entries[s.i].place);
      if d == null {
        return Unsupported, None, None, None, 0;
      }
      slot := if slot == 2 then 0 else slot + 1;
    }
    node, parent, grandparent := LastThree(ringDir, ringEnt, slot, depth, trail);
    err := Ok;
  }

  lemma {:induction false} HaltIsError(nodes: seq<Node>, path: Name)
    ensures StrideFrom(nodes, path).Halt? ==> StrideFrom(nodes, path).error != Ok
  {
  }

  method LastThree(ringDir: seq<Dir>, ringEnt: seq<int>, slot0: nat, depth: nat, ghost t: seq<Node>)
    returns (node: Option<Node>, parent: Option<Node>, grandparent: Option<Node>)
    requires RingHolds(ringDir, ringEnt, slot0, t) && depth == |t| > 0
    ensures node == Some(t[|t| - 1])
    ensures parent == (if |t| >= 2 then Some(t[|t| - 2]) else None)
    ensures grandparent == (if |t| >= 3 then Some(t[|t| - 3]) else None)
  {
    hide Stands;
    var slot := slot0;
    parent, grandparent := None, None;
    var n := NodeAt(ringDir[slot], ringEnt[slot], t[|t| - 1]);
    node := Some(n);
    if depth >= 2 {
      slot := Before(slot);
      n := NodeAt(ringDir[slot], ringEnt[slot], t[|t| - 2]);
      parent := Some(n);
    }
    if depth >= 3 {
      slot := Before(slot);
      n := NodeAt(ringDir[slot], ringEnt[slot], t[|t| - 3]);
      grandparent := Some(n);
    }
  }
}
