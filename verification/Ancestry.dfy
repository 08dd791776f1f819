/**
 The parent of a node, found by searching the mounted tree depth first with an
 explicit stack of directory listings.
 */
module Ancestry {
  import opened Basics
  import opened BlockDevice

  const FIRST_CAPACITY: nat := 8

  datatype Kind = File | Directory | Symlink | Virtual

  /** What identifies a node. */
  datatype Node = Node(backend: nat, kind: Kind, size: nat, lba: Lba, length: nat, name: Bytes)
  {
    predicate IsDir() {
      kind == Directory
    }
  }

  /** A node and all that is below it, in listing order. */
  datatype Tree = Tree(node: Node, kids: seq<Tree>)

  /** An entry of the tree, with the directory it is in and the one above. */
  datatype Place = Place(entry: Node, parent: Node, grandparent: Node)

  /** A listing that has stopped: the entries from resume on are to come. */
  datatype Frame = Frame(dir: Tree, resume: nat)

  /** A listing on the stack, with the cookie to resume it. */
  datatype Slot = Slot(dir: Tree, cookie: nat)

  // ----- the order of the search -----

  /** All entries below the kids from number i on, in preorder. */
  function Below(dir: Tree, i: nat, grandparent: Node): seq<Place>
    requires i <= |dir.kids|
    decreases dir, |dir.kids| - i
  {
    if i == |dir.kids| then [] else
    var kid := dir.kids[i];
    [Place(kid.node, dir.node, grandparent)]
    + (if kid.node.IsDir() then Below(kid, 0, dir.node) else [])
    + Below(dir, i + 1, grandparent)
  }

  function FirstMatch(places: seq<Place>, target: Node): Option<Place>
    decreases |places|
  {
    if places == [] then None
    else if places[0].entry == target then Some(places[0])
    else FirstMatch(places[1..], target)
  }

  /** The search as a recursive procedure. */
  function Search(dir: Tree, i: nat, grandparent: Node, target: Node): Option<Place>
    requires i <= |dir.kids|
    decreases dir, |dir.kids| - i
  {
    if i == |dir.kids| then None else
    var kid := dir.kids[i];
    if kid.node == target then Some(Place(kid.node, dir.node, grandparent)) else
    var deeper := if kid.node.IsDir() then Search(kid, 0, dir.node, target) else None;
    if deeper.Some? then deeper else Search(dir, i + 1, grandparent, target)
  }

  lemma {:induction false} FirstMatchConcat(a: seq<Place>, b: seq<Place>, target: Node)
    ensures FirstMatch(a + b, target) == if FirstMatch(a, target).Some? then FirstMatch(a, target) else FirstMatch(b, target)
    decreases |a|
  {
    if a == [] {
      assert a + b == b;
    } else {
      FirstMatchConcat(a[1..], b, target);
      assert (a + b)[1..] == a[1..] + b;
    }
  }

  /** Recursive search finds the first match in preorder. */
  lemma {:induction false} SearchIsFirstMatch(dir: Tree, i: nat, grandparent: Node, target: Node)
    requires i <= |dir.kids|
    ensures Search(dir, i, grandparent, target) == FirstMatch(Below(dir, i, grandparent), target)
    decreases dir, |dir.kids| - i
  {
    if i < |dir.kids| {
      var kid := dir.kids[i];
      var head, mid, tail := [Place(kid.node, dir.node, grandparent)], if kid.node.IsDir() then Below(kid, 0, dir.node) else [], Below(dir, i + 1, grandparent);
      if kid.node.IsDir() {
        SearchIsFirstMatch(kid, 0, dir.node, target);
      }
      SearchIsFirstMatch(dir, i + 1, grandparent, target);
      FirstMatchConcat(head + mid, tail, target);
      FirstMatchConcat(head, mid, target);
      assert FirstMatch(head, target) == if kid.node == target then Some(head[0]) else None by {
        assert head[1..] == [];
      }
    }
  }

  /** The first match is the first entry that equals the target; there is one
      exactly when the target is in the tree. */
  lemma {:induction false} FirstMatchIsFirst(places: seq<Place>, target: Node)
    ensures FirstMatch(places, target).Some? <==> exists i :: 0 <= i < |places| && places[i].entry == target
    ensures FirstMatch(places, target).Some? ==>
              exists i :: 0 <= i < |places| && FirstMatch(places, target) == Some(places[i]) && places[i].entry == target
                          && forall j :: 0 <= j < i ==> places[j].entry != target
    decreases |places|
  {
    if places != [] && places[0].entry != target {
      FirstMatchIsFirst(places[1..], target);
      forall i | 0 < i < |places|
        ensures places[i] == places[1..][i - 1]
      {
      }
      if FirstMatch(places[1..], target).Some? {
        var i :| 0 <= i < |places[1..]| && FirstMatch(places[1..], target) == Some(places[1..][i]) && places[1..][i].entry == target
                 && forall j :: 0 <= j < i ==> places[1..][j].entry != target;
        assert places[i + 1] == places[1..][i];
      }
    }
  }

  // ----- paths -----

  /** Going down from a directory by numbers of entries, through directories only, leads to a place. */
  ghost predicate LeadsTo(dir: Tree, grandparent: Node, path: seq<nat>, place: Place)
    decreases |path|
  {
    && path != [] && path[0] < |dir.kids|
    && var kid := dir.kids[path[0]];
       if |path| == 1 then place == Place(kid.node, dir.node, grandparent)
       else kid.node.IsDir() && LeadsTo(kid, dir.node, path[1..], place)
  }

  /** A directory comes before what is in it, and all that before the next entry. */
  predicate Sooner(a: seq<nat>, b: seq<nat>)
    decreases |a|
  {
    b != [] && (a == [] || a[0] < b[0] || (a[0] == b[0] && Sooner(a[1..], b[1..])))
  }

  /** A path that starts with entry i or a later one and leads to the target. */
  ghost predicate Reaches(dir: Tree, i: nat, grandparent: Node, target: Node, path: seq<nat>, place: Place) {
    path != [] && path[0] >= i && LeadsTo(dir, grandparent, path, place) && place.entry == target
  }

  /** The search succeeds exactly when some path leads to the target, and gives
      the place that the soonest of these paths leads to. */
  lemma {:induction false} SearchIsSoonest(dir: Tree, i: nat, grandparent: Node, target: Node) returns (path: seq<nat>)
    requires i <= |dir.kids|
    ensures match Search(dir, i, grandparent, target)
            case None => forall q: seq<nat>, x: Place :: !Reaches(dir, i, grandparent, target, q, x)
            case Some(place) =>
              && Reaches(dir, i, grandparent, target, path, place)
              && forall q: seq<nat>, x: Place :: Reaches(dir, i, grandparent, target, q, x) ==> q == path || Sooner(path, q)
    decreases dir, |dir.kids| - i
  {
    path := [];
    if i < |dir.kids| {
      var kid := dir.kids[i];
      var deeper := if kid.node.IsDir() then Search(kid, 0, dir.node, target) else None;
      if kid.node == target {
        path := [i];
        forall q: seq<nat>, x: Place | Reaches(dir, i, grandparent, target, q, x)
          ensures q == path || Sooner(path, q)
        {
          SoonerOrSame(i, q);
        }
        return;
      }
      var below := [];
      if kid.node.IsDir() {
        below := SearchIsSoonest(kid, 0, dir.node, target);
      }
      var later := SearchIsSoonest(dir, i + 1, grandparent, target);
      path := if deeper.Some? then [i] + below else later;
      if deeper.Some? {
        assert path[1..] == below;
      }
      forall q: seq<nat>, x: Place | Reaches(dir, i, grandparent, target, q, x)
        ensures Search(dir, i, grandparent, target).Some? && (q == path || Sooner(path, q))
      {
        if q[0] > i {
          assert Reaches(dir, i + 1, grandparent, target, q, x);
        } else {
          assert |q| > 1 && Reaches(kid, 0, dir.node, target, q[1..], x);
          assert q == [i] + q[1..];
        }
      }
    }
  }

  lemma {:induction false} SoonerOrSame(i: nat, q: seq<nat>)
    requires q != [] && q[0] >= i
    ensures q == [i] || Sooner([i], q)
  {
    if q[0] == i && |q| > 1 {
      assert [i][1..] == [];
    }
  }

  // ----- the stack -----

  function Above(frames: seq<Frame>, root: Node): Node {
    if frames == [] then root else frames[|frames| - 1].dir.node
  }

  ghost predicate ValidStack(frames: seq<Frame>) {
    forall i :: 0 <= i < |frames| ==> frames[i].resume <= |frames[i].dir.kids|
  }

  /** What is still to be looked at: the rest of the top listing, then that of the one below it, and so on. */
  function Pending(frames: seq<Frame>, root: Node): seq<Place>
    requires ValidStack(frames)
    decreases |frames|
  {
    if frames == [] then [] else
    var top, rest := frames[|frames| - 1], frames[..|frames| - 1];
    Below(top.dir, top.resume, Above(rest, root)) + Pending(rest, root)
  }

  /** The listings, and the memory, of one search: reply(n) says after how many
      entries listing call number n fails and how; grows(n) whether stack growth number n succeeds. */
  class Mount {
    const root: Tree
    /** The cookie left by a listing stopped after some entries, and how many
        entries past a cookie stands for. */
    const cookieAt: (Tree, nat) -> nat
    const placeOf: (Tree, nat) -> nat
    const fails: nat -> Option<(nat, Error)>
    const grows: nat -> bool
    var asked: nat
    var grown: nat

    ghost predicate Valid() {
      && (forall n :: fails(n).Some? ==> fails(n).value.1 != Ok)
      && (forall dir: Tree, j: nat :: 0 < j <= |dir.kids| ==> placeOf(dir, cookieAt(dir, j)) == j)
      && (forall dir: Tree :: placeOf(dir, 0) == 0)
    }

    /** Where the listings on the stack stand. */
    ghost function Standing(slots: seq<Slot>): seq<Frame> {
      seq(|slots|, i requires 0 <= i < |slots| => Frame(slots[i].dir, placeOf(slots[i].dir, slots[i].cookie)))
    }

    lemma {:induction false} TopOf(slots: seq<Slot>, above: Node)
      requires slots != []
      ensures var top, n := slots[|slots| - 1], |slots|;
              && |Standing(slots)| == n && Standing(slots)[n - 1] == Frame(top.dir, placeOf(top.dir, top.cookie))
              && Standing(slots)[..n - 1] == Standing(slots[..n - 1])
              && Above(Standing(slots)[..n - 1], above) == if n > 1 then slots[n - 2].dir.node else above
      ensures ValidStack(Standing(slots)) ==> placeOf(slots[|slots| - 1].dir, slots[|slots| - 1].cookie) <= |slots[|slots| - 1].dir.kids|
    {
      var stack := Standing(slots);
      assert stack[|slots| - 1].resume == placeOf(slots[|slots| - 1].dir, slots[|slots| - 1].cookie);
    }

    lemma {:induction false} Pushed(slots: seq<Slot>, dir: Tree, cookie: nat, kid: Tree)
      requires Valid()
      ensures Standing(slots + [Slot(dir, cookie), Slot(kid, 0)]) == Standing(slots) + [Frame(dir, placeOf(dir, cookie)), Frame(kid, 0)]
    {
    }

    lemma {:induction false} AtRoot()
      requires Valid()
      ensures Standing([Slot(root, 0)]) == [Frame(root, 0)] && Standing([]) == []
    {
    }

    ghost predicate Reliable() {
      (forall n :: fails(n) == None) && forall n :: grows(n)
    }

    /** Resume a listing until an entry matches or is a directory; it leaves the cookie to go on with. */
    method ScanUntil(slot: Slot, target: Node) returns (err: Error, found: bool, descend: bool, cookie: nat, ghost resume: nat)
      requires Valid() && placeOf(slot.dir, slot.cookie) <= |slot.dir.kids|
      modifies this`asked
      ensures placeOf(slot.dir, slot.cookie) <= resume <= |slot.dir.kids|
      ensures found || descend ==> resume > placeOf(slot.dir, slot.cookie) && (found <==> slot.dir.kids[resume - 1].node == target)
                                   && (descend ==> slot.dir.kids[resume - 1].node.IsDir())
                                   && placeOf(slot.dir, cookie) == resume
      ensures found ==> !descend
      ensures forall i :: placeOf(slot.dir, slot.cookie) <= i < (if found || descend then resume - 1 else resume) ==>
                slot.dir.kids[i].node != target && !slot.dir.kids[i].node.IsDir()
      ensures !found && !descend ==> (err == Ok ==> resume == |slot.dir.kids|) && (err != Ok ==> !Reliable())
    {
      var fail := fails(asked);
      asked := asked + 1;
      var k := placeOf(slot.dir, slot.cookie);
      err, found, descend, cookie, resume := Ok, false, false, slot.cookie, k;
      while k < |slot.dir.kids|
        invariant placeOf(slot.dir, slot.cookie) <= k <= |slot.dir.kids| && !found && !descend && resume == k
        invariant forall i :: placeOf(slot.dir, slot.cookie) <= i < k ==> slot.dir.kids[i].node != target && !slot.dir.kids[i].node.IsDir()
      {
        if fail.Some? && k >= fail.value.0 {
          err := fail.value.1;
          return;
        }
        var entry := slot.dir.kids[k].node;
        k, resume := k + 1, k + 1;
        if entry == target || entry.IsDir() {
          found, descend := entry == target, entry != target;
          err, cookie := Eof, cookieAt(slot.dir, k);
          return;
        }
      }
      if fail.Some? {
        err := fail.value.1;
      }
    }

    /** Double the stack. */
    method Grow(frames: array<Slot>) returns (wider: array<Slot>, ok: bool)
      requires frames.Length > 0
      modifies this`grown
      ensures ok ==> fresh(wider) && wider.Length == 2 * frames.Length && wider[..frames.Length] == frames[..]
      ensures !ok ==> wider == frames && !Reliable()
    {
      ok := grows(grown);
      grown := grown + 1;
      wider := frames;
      if ok {
        var spare := frames[0];
        wider := new Slot[2 * frames.Length](_ => spare);
        var i := 0;
        while i < frames.Length
          invariant i <= frames.Length && wider[..i] == frames[..i]
        {
          wider[i] := frames[i];
          i := i + 1;
        }
      }
    }

    /** Parent and grandparent of target: those of its first place in preorder,
        and neither when the tree does not hold it. */
    method ResolveParent(target: Node) returns (err: Error, parent: Option<Node>, grandparent: Option<Node>)
      requires Valid()
      modifies this
      ensures err != Ok ==> !Reliable() && parent == None && grandparent == None
      ensures err == Ok ==>
                match FirstMatch(Below(root, 0, root.node), target)
                case Some(place) => parent == Some(place.parent) && grandparent == Some(place.grandparent)
                case None => parent == None && grandparent == None
    {
      hide Below, FirstMatch, Standing, Valid, ValidStack, Pending, Above;
      var frames, depth := new Slot[FIRST_CAPACITY](_ => Slot(root, 0)), 1;
      ghost var whole := FirstMatch(Below(root, 0, root.node), target);
      err, parent, grandparent := Ok, None, None;
      StartSearch(root, target);
      AtRoot();
      assert frames[..1] == [Slot(root, 0)];
      while depth > 0
        invariant depth <= frames.Length && fresh(frames) && frames.Length > 0
        invariant ValidStack(Standing(frames[..depth])) && FirstMatch(Pending(Standing(frames[..depth]), root.node), target) == whole
        invariant parent == None && grandparent == None && (depth == 0 ==> err == Ok)
        decreases |Pending(Standing(frames[..depth]), root.node)|, depth
      {
        if depth == frames.Length {
          var ok;
          ghost var before := frames[..];
          frames, ok := Grow(frames);
          if !ok {
            err := NoMemory;
            return;
          }
          assert frames[..depth] == before[..depth];
        }
        var found, descend, cookie;
        ghost var slots, resume := frames[..depth], 0;
        TopOf(slots, root.node);
        err, found, descend, cookie, resume := ScanUntil(frames[depth - 1], target);
        var dir := frames[depth - 1].dir;
        KeepSearching(Standing(slots), root.node, target, resume, found, descend);
        if found {
          parent := Some(dir.node);
          grandparent := Some(if depth > 1 then frames[depth - 2].dir.node else root.node);
          err := Ok;
          return;
        }
        if descend {
          var kid := dir.kids[placeOf(dir, cookie) - 1];
          frames[depth - 1] := Slot(dir, cookie);
          frames[depth] := Slot(kid, 0);
          Pushed(slots[..depth - 1], dir, cookie, kid);
          assert frames[..depth + 1] == slots[..depth - 1] + [Slot(dir, cookie), Slot(kid, 0)];
          depth := depth + 1;
          continue;
        }
        if err != Ok {
          if err == Eof {
            err := NotFound;
          }
          return;
        }
        assert frames[..depth - 1] == slots[..depth - 1];
        depth := depth - 1;
      }
      assert frames[..0] == [];
      NothingPending(root.node, target);
    }
  }

  lemma {:induction false} NothingPending(root: Node, target: Node)
    ensures Pending([], root) == [] && FirstMatch(Pending([], root), target) == None
  {
  }

  lemma {:induction false} StartSearch(root: Tree, target: Node)
    ensures ValidStack([Frame(root, 0)]) && Pending([Frame(root, 0)], root.node) == Below(root, 0, root.node)
  {
    hide Below;
    assert [Frame(root, 0)][..0] == [];
    assert Below(root, 0, root.node) + [] == Below(root, 0, root.node);
  }

  /** Entries that neither match nor are directories can be passed over. */
  lemma {:induction false} PassOver(dir: Tree, i: nat, j: nat, grandparent: Node, target: Node)
    requires i <= j <= |dir.kids|
    requires forall k :: i <= k < j ==> dir.kids[k].node != target && !dir.kids[k].node.IsDir()
    ensures |Below(dir, j, grandparent)| <= |Below(dir, i, grandparent)|
    ensures FirstMatch(Below(dir, i, grandparent), target) == FirstMatch(Below(dir, j, grandparent), target)
    decreases j - i
  {
    hide Below, FirstMatch;
    if i < j {
      PassOver(dir, i + 1, j, grandparent, target);
      BelowAt(dir, i, grandparent);
      FirstMatchAt(Below(dir, i, grandparent), target);
      assert [] + Below(dir, i + 1, grandparent) == Below(dir, i + 1, grandparent);
    }
  }

  /** What a scan of the top listing makes of what is pending. */
  lemma {:induction false} KeepSearching(frames: seq<Frame>, root: Node, target: Node, resume: nat, found: bool, descend: bool)
    requires ValidStack(frames) && frames != []
    requires var top := frames[|frames| - 1];
             && top.resume <= resume <= |top.dir.kids| && !(found && descend)
             && (found || descend ==> resume > top.resume && (found <==> top.dir.kids[resume - 1].node == target)
                                      && (descend ==> top.dir.kids[resume - 1].node.IsDir()))
             && (forall i :: top.resume <= i < (if found || descend then resume - 1 else resume) ==>
                   top.dir.kids[i].node != target && !top.dir.kids[i].node.IsDir())
    ensures var top, rest := frames[|frames| - 1], frames[..|frames| - 1];
            var match0 := FirstMatch(Pending(frames, root), target);
            && (found ==> match0 == Some(Place(target, top.dir.node, Above(rest, root))))
            && (descend ==>
                  var frames' := rest + [Frame(top.dir, resume), Frame(top.dir.kids[resume - 1], 0)];
                  && ValidStack(frames') && FirstMatch(Pending(frames', root), target) == match0
                  && |Pending(frames', root)| < |Pending(frames, root)|)
            && (!found && !descend && resume == |top.dir.kids| ==>
                  ValidStack(rest) && FirstMatch(Pending(rest, root), target) == match0 && |Pending(rest, root)| <= |Pending(frames, root)|)
  {
    hide Below, FirstMatch;
    var top, rest := frames[|frames| - 1], frames[..|frames| - 1];
    var gp := Above(rest, root);
    var stop := if found || descend then resume - 1 else resume;
    PassOver(top.dir, top.resume, stop, gp, target);
    var left := Pending(rest, root);
    FirstMatchConcat(Below(top.dir, top.resume, gp), left, target);
    FirstMatchConcat(Below(top.dir, stop, gp), left, target);
    if found || descend {
      var kid := top.dir.kids[stop];
      StopAt(top.dir, stop, gp, target);
      if descend {
        var a, b := Below(kid, 0, top.dir.node), Below(top.dir, resume, gp);
        FirstMatchConcat(a + b, left, target);
        PushedPending(rest, root, top.dir, resume, kid);
        assert a + (b + left) == (a + b) + left;
      }
    } else if resume == |top.dir.kids| {
      NoneBelow(top.dir, gp, target);
    }
  }

  lemma {:induction false} NoneBelow(dir: Tree, grandparent: Node, target: Node)
    ensures Below(dir, |dir.kids|, grandparent) == [] && FirstMatch([], target) == None
  {
  }

  lemma {:induction false} StopAt(dir: Tree, i: nat, grandparent: Node, target: Node)
    requires i < |dir.kids|
    ensures var kid := dir.kids[i];
            && (kid.node == target ==> FirstMatch(Below(dir, i, grandparent), target) == Some(Place(target, dir.node, grandparent)))
            && (kid.node != target && kid.node.IsDir() ==>
                  var rest := Below(kid, 0, dir.node) + Below(dir, i + 1, grandparent);
                  FirstMatch(Below(dir, i, grandparent), target) == FirstMatch(rest, target) && |Below(dir, i, grandparent)| == 1 + |rest|)
  {
    hide Below, FirstMatch;
    BelowAt(dir, i, grandparent);
    FirstMatchAt(Below(dir, i, grandparent), target);
  }

  lemma {:induction false} BelowAt(dir: Tree, i: nat, grandparent: Node)
    requires i < |dir.kids|
    ensures var kid, below := dir.kids[i], Below(dir, i, grandparent);
            && below != [] && below[0] == Place(kid.node, dir.node, grandparent)
            && below[1..] == (if kid.node.IsDir() then Below(kid, 0, dir.node) else []) + Below(dir, i + 1, grandparent)
  {
  }

  lemma {:induction false} FirstMatchAt(places: seq<Place>, target: Node)
    requires places != []
    ensures FirstMatch(places, target) == if places[0].entry == target then Some(places[0]) else FirstMatch(places[1..], target)
  {
  }

  lemma {:induction false} PushedPending(rest: seq<Frame>, root: Node, dir: Tree, resume: nat, kid: Tree)
    requires ValidStack(rest) && resume <= |dir.kids|
    ensures var frames := rest + [Frame(dir, resume), Frame(kid, 0)];
            ValidStack(frames)
            && Pending(frames, root) == Below(kid, 0, dir.node) + (Below(dir, resume, Above(rest, root)) + Pending(rest, root))
  {
    hide Below;
    var frames := rest + [Frame(dir, resume), Frame(kid, 0)];
    assert frames[..|frames| - 1] == rest + [Frame(dir, resume)];
    assert (rest + [Frame(dir, resume)])[..|rest|] == rest;
  }
}
