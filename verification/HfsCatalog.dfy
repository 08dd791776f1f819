/**
 Searching an HFS or HFS+ catalogue, a B+-tree of records sorted by parent
 directory, for the records of one directory.
 */
module HfsCatalog {
  import opened Basics
  import opened BlockDevice
  import opened Callback

  const MAX_DEPTH: nat := 20

  /** Numbers of nodes and of directories. */
  type Num = x: nat | x < 0x1_0000_0000

  datatype Record = Record(parent: Num, name: Bytes, data: Bytes)

  /** A record of an index node, unless it runs past the end of the node. */
  datatype IndexRecord = Entry(parent: Num, child: Num) | Broken

  /** A record of a leaf, unless it runs past the end of the node. */
  datatype LeafRecord = Whole(record: Record) | Damaged

  /** A node as read from the medium. The records are missing when their
      number cannot be right; peek is the parent number found where the first
      record would be. */
  datatype Node =
    | Index(entries: Option<seq<IndexRecord>>)
    | Leaf(records: Option<seq<LeafRecord>>, next: Num, peek: Option<Num>)
    | Foreign

  // ----- well-formed catalogues -----

  /** The shape of a catalogue: which nodes hang below which. */
  datatype Tree = Tip(num: Num) | Branch(num: Num, kids: seq<Tree>)

  function Leaves(t: Tree): seq<Num>
    decreases t, 0
  {
    match t
    case Tip(num) => [num]
    case Branch(_, kids) => LeavesOf(kids)
  }

  function LeavesOf(kids: seq<Tree>): seq<Num>
    decreases kids, 1, |kids|
  {
    if kids == [] then [] else LeavesOf(kids[..|kids| - 1]) + Leaves(kids[|kids| - 1])
  }

  /** Index nodes on the longest way down. */
  ghost predicate NoHigher(t: Tree, h: nat)
    decreases t
  {
    t.Branch? ==> h > 0 && forall i :: 0 <= i < |t.kids| ==> NoHigher(t.kids[i], h - 1)
  }

  /** The whole records of a leaf. */
  function Wholes(records: seq<LeafRecord>): seq<Record> {
    if records == [] then []
    else Wholes(records[..|records| - 1]) + (match records[|records| - 1] case Whole(r) => [r] case Damaged => [])
  }

  ghost function WholesAt(nodes: Num -> Node, num: Num): seq<Record> {
    match nodes(num)
    case Leaf(Some(records), _, _) => Wholes(records)
    case _ => []
  }

  /** Node num is a leaf that starts with a whole record. */
  ghost predicate SoundLeaf(nodes: Num -> Node, num: Num) {
    var n := nodes(num);
    && num != 0 && n.Leaf? && n.records.Some? && WholesAt(nodes, num) != []
    && n.peek == Some(WholesAt(nodes, num)[0].parent)
  }

  /** Records of leaves, in order. */
  ghost function Records(nodes: Num -> Node, leaves: seq<Num>): seq<Record> {
    if leaves == [] then [] else WholesAt(nodes, leaves[0]) + Records(nodes, leaves[1..])
  }

  /** The nodes are arranged as t says: every index record holds the parent
      number of the first record below its child. */
  ghost predicate Matches(nodes: Num -> Node, t: Tree)
    decreases t
  {
    match t
    case Tip(num) => SoundLeaf(nodes, num)
    case Branch(num, kids) =>
      var n := nodes(num);
      && n.Index? && n.entries.Some? && |n.entries.value| == |kids| > 0
      && (forall i :: 0 <= i < |kids| ==> Matches(nodes, kids[i]) && kids[i].num != 0)
      && (forall i :: 0 <= i < |kids| ==> FirstParent(nodes, kids[i]).Some?)
      && (forall i :: 0 <= i < |kids| ==> n.entries.value[i] == Entry(FirstParent(nodes, kids[i]).value, kids[i].num))
  }

  ghost function FirstParent(nodes: Num -> Node, t: Tree): Option<Num> {
    var records := Records(nodes, Leaves(t));
    if records == [] then None else Some(records[0].parent)
  }

  /** Every leaf links to the next one. */
  ghost predicate Chained(nodes: Num -> Node, leaves: seq<Num>) {
    && (forall i :: 0 <= i < |leaves| ==> SoundLeaf(nodes, leaves[i]))
    && (forall i {:trigger leaves[i]} :: 0 <= i < |leaves| ==>
          nodes(leaves[i]).next == if i + 1 < |leaves| then leaves[i + 1] else 0)
  }

  ghost predicate Sorted(records: seq<Record>) {
    forall i, j :: 0 <= i < j < |records| ==> records[i].parent <= records[j].parent
  }

  ghost predicate WellFormed(nodes: Num -> Node, t: Tree) {
    && Matches(nodes, t) && NoHigher(t, MAX_DEPTH)
    && Chained(nodes, Leaves(t)) && Sorted(Records(nodes, Leaves(t)))
  }

  // ----- the records of one directory -----

  /** The records of a directory that hold enough data, in order. */
  function Of(records: seq<Record>, parent: Num, minData: nat): seq<Record> {
    if records == [] then [] else Pick(records[0], parent, minData) + Of(records[1..], parent, minData)
  }

  function Pick(r: Record, parent: Num, minData: nat): seq<Record> {
    if r.parent == parent && |r.data| >= minData then [r] else []
  }

  lemma {:induction false} OfConcat(a: seq<Record>, b: seq<Record>, parent: Num, minData: nat)
    ensures Of(a + b, parent, minData) == Of(a, parent, minData) + Of(b, parent, minData)
    decreases |a|
  {
    hide Pick;
    if a == [] {
      assert a + b == b;
    } else {
      OfConcat(a[1..], b, parent, minData);
      assert (a + b)[1..] == a[1..] + b && (a + b)[0] == a[0];
      Associate(Pick(a[0], parent, minData), Of(a[1..], parent, minData), Of(b, parent, minData));
    }
  }

  lemma {:induction false} OfNone(a: seq<Record>, parent: Num, minData: nat)
    requires forall i :: 0 <= i < |a| ==> a[i].parent != parent
    ensures Of(a, parent, minData) == []
    decreases |a|
  {
    if a != [] {
      OfNone(a[1..], parent, minData);
    }
  }

  lemma {:induction false} RecordsConcat(nodes: Num -> Node, a: seq<Num>, b: seq<Num>)
    ensures Records(nodes, a + b) == Records(nodes, a) + Records(nodes, b)
    decreases |a|
  {
    hide WholesAt;
    if a == [] {
      assert a + b == b;
    } else {
      RecordsConcat(nodes, a[1..], b);
      assert (a + b)[1..] == a[1..] + b && (a + b)[0] == a[0];
      Associate(WholesAt(nodes, a[0]), Records(nodes, a[1..]), Records(nodes, b));
    }
  }

  lemma {:induction false} LeavesConcat(a: seq<Tree>, b: seq<Tree>)
    ensures LeavesOf(a + b) == LeavesOf(a) + LeavesOf(b)
    decreases |b|
  {
    if b == [] {
      assert a + b == a;
    } else {
      LeavesConcat(a, b[..|b| - 1]);
      assert (a + b)[..|a + b| - 1] == a + b[..|b| - 1];
    }
  }

  /** The records before a child whose key is below the directory are all below it. */
  lemma {:induction false} NothingBefore(nodes: Num -> Node, before: seq<Num>, t: Tree, after: seq<Num>, parent: Num)
    requires Sorted(Records(nodes, before + Leaves(t) + after))
    requires FirstParent(nodes, t).Some? && FirstParent(nodes, t).value < parent
    ensures forall i :: 0 <= i < |Records(nodes, before)| ==> Records(nodes, before)[i].parent < parent
  {
    hide Records, Leaves;
    RecordsConcat(nodes, before, Leaves(t));
    RecordsConcat(nodes, before + Leaves(t), after);
    var x := Records(nodes, before);
    var all := Records(nodes, before + Leaves(t) + after);
    forall i {:trigger x[i]} | 0 <= i < |x|
      ensures x[i].parent < parent
    {
      assert all[i] == x[i] && all[|x|] == Records(nodes, Leaves(t))[0];
    }
  }

  lemma {:induction false} SplitKids(kids: seq<Tree>, c: nat)
    requires c < |kids|
    ensures LeavesOf(kids) == LeavesOf(kids[..c]) + Leaves(kids[c]) + LeavesOf(kids[c + 1..])
  {
    LeavesConcat(kids[..c + 1], kids[c + 1..]);
    assert kids == kids[..c + 1] + kids[c + 1..];
    assert kids[..c + 1][..c] == kids[..c];
  }

  /** Node u of the tree stands between leaves that hold no record of the directory and others. */
  ghost predicate Standing(nodes: Num -> Node, t: Tree, before: seq<Num>, u: Tree, after: seq<Num>, parent: Num, levels: nat) {
    && Leaves(t) == before + Leaves(u) + after && Matches(nodes, u) && NoHigher(u, levels)
    && forall i :: 0 <= i < |Records(nodes, before)| ==> Records(nodes, before)[i].parent < parent
  }

  /** Going down to child c, the last one whose key is below the directory or the first. */
  lemma {:induction false} GoDown(nodes: Num -> Node, t: Tree, before: seq<Num>, u: Tree, after: seq<Num>, parent: Num,
                                  levels: nat, c: nat)
    requires Standing(nodes, t, before, u, after, parent, levels) && u.Branch? && Sorted(Records(nodes, Leaves(t)))
    requires c < |u.kids| && (c > 0 ==> nodes(u.num).entries.value[c].parent < parent)
    ensures levels > 0
    ensures Standing(nodes, t, before + LeavesOf(u.kids[..c]), u.kids[c], LeavesOf(u.kids[c + 1..]) + after, parent, levels - 1)
  {
    hide Records, Sorted, LeavesOf;
    var kid, before', after' := u.kids[c], before + LeavesOf(u.kids[..c]), LeavesOf(u.kids[c + 1..]) + after;
    SplitKids(u.kids, c);
    assert Leaves(u) == LeavesOf(u.kids);
    assert Leaves(t) == before' + Leaves(kid) + after';
    if c == 0 {
      NoLeaves(u.kids[..0]);
      assert before' == before;
    } else {
      NothingBefore(nodes, before', kid, after', parent);
    }
  }

  lemma {:induction false} AtRoot(nodes: Num -> Node, t: Tree, parent: Num)
    requires WellFormed(nodes, t)
    ensures Standing(nodes, t, [], t, [], parent, MAX_DEPTH)
  {
    hide Leaves, NoHigher, Matches, Chained, Sorted;
    assert Leaves(t) == [] + Leaves(t) + [];
  }

  lemma {:induction false} AtTip(nodes: Num -> Node, t: Tree, before: seq<Num>, u: Tree, after: seq<Num>, parent: Num, levels: nat)
    requires Standing(nodes, t, before, u, after, parent, levels) && (levels == 0 || nodes(u.num).Leaf?)
    ensures |before| < |Leaves(t)| && Leaves(t)[..|before|] == before && Leaves(t)[|before|] == u.num
  {
    assert u.Tip?;
  }

  lemma {:induction false} NoLeaves(kids: seq<Tree>)
    requires kids == []
    ensures LeavesOf(kids) == []
  {
  }

  // ----- the walk -----

  /** The catalogue file; fails(n) says whether the read of node number n fails. */
  class Reader {
    const nodes: Num -> Node
    const fails: nat -> bool
    var asked: nat

    ghost predicate Reliable() {
      forall n: nat :: !fails(n)
    }

    method ReadNode(num: Num) returns (err: Error, node: Node)
      modifies this
      ensures err == Ok ==> node == nodes(num)
      ensures err != Ok ==> err == Io && !Reliable()
    {
      err, node := if fails(asked) then Io else Ok, nodes(num);
      asked := asked + 1;
    }
  }

  /** Of the records wanted, the callback was given all, or those up to the one
      it refused or to a failed read. */
  ghost predicate Heard(before: seq<Record>, after: seq<Record>, wanted: seq<Record>, err: Error,
                        answers: nat -> Error, reliable: bool) {
    && before <= after <= before + wanted
    && (err == Ok ==> after == before + wanted)
    && (err != Ok ==> !reliable || (before != after && err == answers(|after| - 1)))
  }

  /** The child to go down to: the last one whose key is below the directory, or the first. */
  method ChooseChild(entries: seq<IndexRecord>, parent: Num) returns (child: Num, ghost c: int)
    ensures child == 0 || (0 <= c < |entries| && entries[c].Entry? && entries[c].child == child)
    ensures entries != [] && (forall i :: 0 <= i < |entries| ==> entries[i].Entry? && entries[i].child != 0) ==>
              && child != 0 && (c > 0 ==> entries[c].parent < parent)
              && (c + 1 < |entries| ==> entries[c].parent >= parent || entries[c + 1].parent >= parent)
  {
    child, c := 0, -1;
    var r := 0;
    while r < |entries|
      invariant r <= |entries|
      invariant child == 0 || (0 <= c < r && entries[c].Entry? && entries[c].child == child)
      invariant r > 0 && (forall i :: 0 <= i < |entries| ==> entries[i].Entry? && entries[i].child != 0) ==>
                  child != 0 && c == r - 1 && entries[c].parent < parent
    {
      match entries[r] {
        case Broken => break;
        case Entry(key, pointer) =>
          if key < parent || child == 0 {
            child, c := pointer, r;
          }
          if key >= parent {
            break;
          }
      }
      r := r + 1;
    }
  }

  /** The leaf to start from: no record of the directory comes before it. */
  method Descend(reader: Reader, root: Num, parent: Num, ghost t: Tree) returns (err: Error, cur: Num, ghost k: nat)
    modifies reader
    ensures t.num == root && WellFormed(reader.nodes, t) ==>
              if err == Ok
              then k < |Leaves(t)| && Leaves(t)[k] == cur
                   && forall i :: 0 <= i < |Records(reader.nodes, Leaves(t)[..k])| ==>
                        Records(reader.nodes, Leaves(t)[..k])[i].parent < parent
              else err == Io && !reader.Reliable()
  {
    hide Records, Sorted, Leaves, LeavesOf;
    ghost var nodes := reader.nodes;
    ghost var sound := t.num == root && WellFormed(nodes, t);
    ghost var u, before, after := t, [], [];
    cur, k := root, 0;
    if sound {
      AtRoot(nodes, t, parent);
    }
    var depth := 0;
    while depth < MAX_DEPTH
      invariant depth <= MAX_DEPTH
      invariant sound ==> Standing(nodes, t, before, u, after, parent, MAX_DEPTH - depth) && u.num == cur
    {
      var node;
      err, node := reader.ReadNode(cur);
      if err != Ok {
        return;
      }
      if node.Leaf? {
        break;
      }
      if node.Foreign? || node.entries.None? {
        err := Corrupt;
        return;
      }
      var child;
      ghost var c;
      child, c := ChooseChild(node.entries.value, parent);
      if child == 0 {
        err := NotFound;
        return;
      }
      if sound {
        GoDown(nodes, t, before, u, after, parent, MAX_DEPTH - depth, c);
        u, before, after := u.kids[c], before + LeavesOf(u.kids[..c]), LeavesOf(u.kids[c + 1..]) + after;
      }
      cur := child;
      depth := depth + 1;
    }
    err, k := Ok, |before|;
    if sound {
      AtTip(nodes, t, before, u, after, parent, MAX_DEPTH - depth);
    }
  }

  // ----- the leaves -----

  lemma {:induction false} OfAppend(records: seq<LeafRecord>, r: nat, parent: Num, minData: nat)
    requires r < |records|
    ensures Of(Wholes(records[..r + 1]), parent, minData) ==
            Of(Wholes(records[..r]), parent, minData)
            + (match records[r] case Whole(x) => Pick(x, parent, minData) case Damaged => [])
  {
    hide Pick;
    var a := Wholes(records[..r]);
    assert records[..r + 1][..r] == records[..r];
    if records[r].Damaged? {
      assert a + [] == a && Of(a, parent, minData) + [] == Of(a, parent, minData);
    } else {
      OfConcat(Wholes(records[..r]), [records[r].record], parent, minData);
      assert Of([records[r].record], parent, minData) == Pick(records[r].record, parent, minData);
    }
  }

  lemma {:induction false} WholesConcat(a: seq<LeafRecord>, b: seq<LeafRecord>)
    ensures Wholes(a + b) == Wholes(a) + Wholes(b)
    decreases |b|
  {
    if b == [] {
      assert a + b == a;
    } else {
      WholesConcat(a, b[..|b| - 1]);
      assert (a + b)[..|a + b| - 1] == a + b[..|b| - 1];
    }
  }

  /** In a sorted leaf nothing after a record past the directory belongs to it. */
  lemma {:induction false} NothingPast(records: seq<LeafRecord>, r: nat, parent: Num, minData: nat)
    requires r < |records| && records[r].Whole? && records[r].record.parent > parent && Sorted(Wholes(records))
    ensures Of(Wholes(records), parent, minData) == Of(Wholes(records[..r]), parent, minData)
    ensures exists i :: 0 <= i < |Wholes(records)| && Wholes(records)[i].parent > parent
  {
    hide Wholes;
    var a, b := Wholes(records[..r]), Wholes(records[r..]);
    assert records == records[..r] + records[r..];
    WholesConcat(records[..r], records[r..]);
    HeadIsWhole(records[r..]);
    forall i | 0 <= i < |b|
      ensures b[i].parent > parent
    {
      assert b[0] == Wholes(records)[|a|] && b[i] == Wholes(records)[|a| + i];
    }
    assert Wholes(records)[|a|].parent > parent;
    OfNone(b, parent, minData);
    OfConcat(a, b, parent, minData);
  }

  lemma {:induction false} HeadIsWhole(records: seq<LeafRecord>)
    requires records != [] && records[0].Whole?
    ensures Wholes(records) != [] && Wholes(records)[0] == records[0].record
    decreases |records|
  {
    if |records| > 1 {
      HeadIsWhole(records[..|records| - 1]);
    }
  }

  /** Give the callback the records of one leaf; past says that one came after the directory. */
  method ScanLeaf(listener: Listener<Record>, records: seq<LeafRecord>, parent: Num, minData: nat)
    returns (err: Error, past: bool, found: bool)
    modifies listener
    ensures Sorted(Wholes(records)) ==>
              Heard(old(listener.got), listener.got, Of(Wholes(records), parent, minData), err, listener.answers, true)
    ensures Sorted(Wholes(records)) && past ==> exists i :: 0 <= i < |Wholes(records)| && Wholes(records)[i].parent > parent
    ensures found ==> exists i :: 0 <= i < |Wholes(records)| && Wholes(records)[i].parent == parent
  {
    hide Of, Wholes, Sorted;
    ghost var before := listener.got;
    err, past, found := Ok, false, false;
    var r := 0;
    assert records[..0] == [];
    NoWholes(parent, minData);
    while r < |records|
      invariant r <= |records| && !past && err == Ok
      invariant listener.got == before + Of(Wholes(records[..r]), parent, minData)
      invariant found ==> exists i :: 0 <= i < |Wholes(records)| && Wholes(records)[i].parent == parent
    {
      OfAppend(records, r, parent, minData);
      match records[r] {
        case Damaged =>
        case Whole(record) =>
          if record.parent > parent {
            past := true;
            if Sorted(Wholes(records)) {
              NothingPast(records, r, parent, minData);
            }
            return;
          }
          if record.parent == parent {
            found := true;
            InWholes(records, r);
            if |record.data| >= minData {
              err := listener.Accept(record);
              if err != Ok {
                OfPrefix(records, r + 1, parent, minData);
                return;
              }
            }
          }
      }
      r := r + 1;
    }
    assert records[..|records|] == records;
  }

  lemma {:induction false} NoWholes(parent: Num, minData: nat)
    ensures Of(Wholes([]), parent, minData) == []
  {
  }

  lemma {:induction false} InWholes(records: seq<LeafRecord>, r: nat)
    requires r < |records| && records[r].Whole?
    ensures exists i :: 0 <= i < |Wholes(records)| && Wholes(records)[i] == records[r].record
  {
    hide Wholes;
    assert records == records[..r] + records[r..];
    WholesConcat(records[..r], records[r..]);
    HeadIsWhole(records[r..]);
    assert Wholes(records)[|Wholes(records[..r])|] == records[r].record;
  }

  lemma {:induction false} OfPrefix(records: seq<LeafRecord>, r: nat, parent: Num, minData: nat)
    requires r <= |records|
    ensures Of(Wholes(records[..r]), parent, minData) <= Of(Wholes(records), parent, minData)
  {
    hide Of, Wholes;
    assert records == records[..r] + records[r..];
    WholesConcat(records[..r], records[r..]);
    OfConcat(Wholes(records[..r]), Wholes(records[r..]), parent, minData);
  }

  // ----- the chain of leaves -----

  /** Following links forward comes to an end. */
  ghost predicate Forward(nodes: Num -> Node, rank: Num -> nat) {
    forall num: Num :: nodes(num).Leaf? && nodes(num).next != 0 ==> rank(nodes(num).next) < rank(num)
  }

  ghost predicate Tail(nodes: Num -> Node, cur: Num, rest: seq<Num>) {
    && Chained(nodes, rest) && Sorted(Records(nodes, rest))
    && cur == if rest == [] then 0 else rest[0]
  }

  lemma {:induction false} NextLeaf(nodes: Num -> Node, cur: Num, rest: seq<Num>, parent: Num, minData: nat)
    requires Tail(nodes, cur, rest) && rest != []
    ensures SoundLeaf(nodes, cur) && Sorted(WholesAt(nodes, cur)) && Tail(nodes, nodes(cur).next, rest[1..])
    ensures Of(Records(nodes, rest), parent, minData) ==
            Of(WholesAt(nodes, cur), parent, minData) + Of(Records(nodes, rest[1..]), parent, minData)
    ensures forall i, j :: 0 <= i < |WholesAt(nodes, cur)| && 0 <= j < |Records(nodes, rest[1..])| ==>
              WholesAt(nodes, cur)[i].parent <= Records(nodes, rest[1..])[j].parent
    ensures nodes(cur).Leaf? && nodes(cur).records.Some? && nodes(cur).next == if rest[1..] == [] then 0 else rest[1]
    ensures var b := Records(nodes, rest[1..]);
            |Records(nodes, rest)| == |WholesAt(nodes, cur)| + |b|
            && forall j {:trigger b[j]} :: 0 <= j < |b| ==> b[j] == Records(nodes, rest)[|WholesAt(nodes, cur)| + j]
    ensures rest[1..] != [] ==> Records(nodes, rest[1..]) != [] && nodes(rest[1]).Leaf?
                                && nodes(rest[1]).peek == Some(Records(nodes, rest[1..])[0].parent)
  {
    hide WholesAt, Records, Sorted, Of;
    var a, b := WholesAt(nodes, cur), Records(nodes, rest[1..]);
    assert SoundLeaf(nodes, rest[0]);
    FirstRecords(nodes, rest);
    SortedParts(a, b);
    OfConcat(a, b, parent, minData);
    if rest[1..] != [] {
      assert SoundLeaf(nodes, rest[1]);
      FirstRecords(nodes, rest[1..]);
    }
  }

  lemma {:induction false} FirstRecords(nodes: Num -> Node, rest: seq<Num>)
    requires rest != []
    ensures Records(nodes, rest) == WholesAt(nodes, rest[0]) + Records(nodes, rest[1..])
  {
  }

  lemma {:induction false} SortedParts(a: seq<Record>, b: seq<Record>)
    requires Sorted(a + b)
    ensures Sorted(a) && Sorted(b)
    ensures forall i, j :: 0 <= i < |a| && 0 <= j < |b| ==> a[i].parent <= b[j].parent
  {
    var all := a + b;
    forall i | 0 <= i < |a|
      ensures a[i] == all[i]
    {
    }
    forall j | 0 <= j < |b|
      ensures b[j] == all[|a| + j]
    {
    }
  }

  /** Once a record is past the directory, or stands past it, none is left. */
  lemma {:induction false} NoneLeft(a: seq<Record>, b: seq<Record>, parent: Num, minData: nat)
    requires forall i, j :: 0 <= i < |a| && 0 <= j < |b| ==> a[i].parent <= b[j].parent
    ensures (exists i :: 0 <= i < |a| && a[i].parent > parent) ==> Of(b, parent, minData) == []
    ensures (exists i :: 0 <= i < |a| && a[i].parent == parent) ==> forall j :: 0 <= j < |b| ==> b[j].parent >= parent
  {
    if exists i :: 0 <= i < |a| && a[i].parent > parent {
      OfNone(b, parent, minData);
    }
  }

  lemma {:induction false} StandsPast(b: seq<Record>, parent: Num, minData: nat)
    requires Sorted(b) && b != [] && b[0].parent > parent
    ensures Of(b, parent, minData) == []
  {
    OfNone(b, parent, minData);
  }

  lemma {:induction false} NoLeavesLeft(nodes: Num -> Node, rest: seq<Num>, parent: Num, minData: nat)
    requires Tail(nodes, 0, rest)
    ensures Of(Records(nodes, rest), parent, minData) == []
  {
    assert rest == [] || SoundLeaf(nodes, rest[0]);
  }

  /** What is heard of one leaf, as part of what is heard of all. */
  lemma {:induction false} HeardPart(before: seq<Record>, mid: seq<Record>, after: seq<Record>, one: seq<Record>, more: seq<Record>,
                                     wanted: seq<Record>, err: Error, answers: nat -> Error, reliable: bool)
    requires before <= mid && before + wanted == mid + (one + more) && Heard(mid, after, one, err, answers, true)
    ensures err != Ok || more == [] ==> Heard(before, after, wanted, err, answers, reliable)
    ensures err == Ok ==> before <= after && before + wanted == after + more
  {
  }

  /** Give the callback the records of the leaves from cur on. */
  method Scan(reader: Reader, listener: Listener<Record>, cur0: Num, parent: Num, minData: nat, ghost rank: Num -> nat, ghost leaves: seq<Num>)
    returns (err: Error)
    requires Tail(reader.nodes, cur0, leaves) || Forward(reader.nodes, rank)
    modifies reader, listener
    ensures Tail(reader.nodes, cur0, leaves) ==>
              Heard(old(listener.got), listener.got, Of(Records(reader.nodes, leaves), parent, minData), err, listener.answers, reader.Reliable())
  {
    hide Of, Wholes, Sorted, Records, SoundLeaf, Chained;
    ghost var nodes, rest, before := reader.nodes, leaves, listener.got;
    ghost var sound := Tail(nodes, cur0, leaves);
    ghost var wanted := Of(Records(nodes, leaves), parent, minData);
    var cur, found := cur0, false;
    err := Ok;
    while cur != 0
      invariant err == Ok
      invariant sound && found ==> forall j :: 0 <= j < |Records(nodes, rest)| ==> Records(nodes, rest)[j].parent >= parent
      invariant sound ==> Tail(nodes, cur, rest) && before <= listener.got && before + wanted == listener.got + Of(Records(nodes, rest), parent, minData)
      decreases if sound then |rest| else if cur == 0 then 0 else 1 + rank(cur)
    {
      var node;
      err, node := reader.ReadNode(cur);
      if err != Ok {
        return;
      }
      if sound {
        NextLeaf(nodes, cur, rest, parent, minData);
      }
      if !node.Leaf? {
        break;
      }
      if node.records.None? {
        err := Corrupt;
        return;
      }
      var past, here;
      ghost var mid := listener.got;
      err, past, here := ScanLeaf(listener, node.records.value, parent, minData);
      if sound {
        NoneLeft(WholesAt(nodes, cur), Records(nodes, rest[1..]), parent, minData);
        HeardPart(before, mid, listener.got, Of(WholesAt(nodes, cur), parent, minData), Of(Records(nodes, rest[1..]), parent, minData),
                  wanted, err, listener.answers, reader.Reliable());
      }
      if err != Ok || past {
        return;
      }
      found := found || here;
      rest := if sound then rest[1..] else rest;
      cur := node.next;
      if found && cur != 0 {
        err, node := reader.ReadNode(cur);
        if err != Ok {
          return;
        }
        if !node.Leaf? || (node.peek.Some? && node.peek.value != parent) {
          if sound {
            StandsPast(Records(nodes, rest), parent, minData);
          }
          break;
        }
      }
    }
    if sound && cur == 0 {
      NoLeavesLeft(nodes, rest, parent, minData);
    }
  }

  /** Give the callback the records of one directory that hold at least minData bytes. */
  method WalkCatalog(reader: Reader, listener: Listener<Record>, root: Num, parent: Num, minData: nat, ghost rank: Num -> nat, ghost t: Tree)
    returns (err: Error)
    requires (t.num == root && WellFormed(reader.nodes, t)) || Forward(reader.nodes, rank)
    modifies reader, listener
    ensures t.num == root && WellFormed(reader.nodes, t) ==>
              Heard(old(listener.got), listener.got, Of(Records(reader.nodes, Leaves(t)), parent, minData), err, listener.answers, reader.Reliable())
  {
    hide Of, Wholes, Sorted, Records, SoundLeaf, Chained, Leaves, NoHigher, Matches;
    var cur;
    ghost var k;
    err, cur, k := Descend(reader, root, parent, t);
    if err != Ok {
      return;
    }
    ghost var leaves := Leaves(t);
    if t.num == root && WellFormed(reader.nodes, t) {
      StartAt(reader.nodes, leaves, k, parent, minData);
      leaves := leaves[k..];
    }
    err := Scan(reader, listener, cur, parent, minData, rank, leaves);
  }

  lemma {:induction false} StartAt(nodes: Num -> Node, leaves: seq<Num>, k: nat, parent: Num, minData: nat)
    requires k < |leaves| && Chained(nodes, leaves) && Sorted(Records(nodes, leaves))
    requires forall i :: 0 <= i < |Records(nodes, leaves[..k])| ==> Records(nodes, leaves[..k])[i].parent < parent
    ensures Tail(nodes, leaves[k], leaves[k..])
    ensures Of(Records(nodes, leaves), parent, minData) == Of(Records(nodes, leaves[k..]), parent, minData)
  {
    hide Records, SoundLeaf;
    var a, b, all := Records(nodes, leaves[..k]), Records(nodes, leaves[k..]), Records(nodes, leaves);
    assert leaves == leaves[..k] + leaves[k..];
    RecordsConcat(nodes, leaves[..k], leaves[k..]);
    OfConcat(a, b, parent, minData);
    OfNone(a, parent, minData);
    forall j {:trigger b[j]} | 0 <= j < |b|
      ensures b[j] == all[|a| + j]
    {
    }
  }

  // ----- which records the directory has -----

  /** A place for a record: a leaf, counted from the left, and a place in it. */
  datatype Spot = Spot(leaf: nat, index: nat)

  predicate Earlier(a: Spot, b: Spot) {
    a.leaf < b.leaf || (a.leaf == b.leaf && a.index < b.index)
  }

  predicate Belongs(x: Record, parent: Num, minData: nat) {
    x.parent == parent && |x.data| >= minData
  }

  ghost predicate StandsIn(records: seq<LeafRecord>, index: nat, x: Record) {
    index < |records| && records[index] == Whole(x)
  }

  ghost predicate StandsAt(nodes: Num -> Node, leaves: seq<Num>, s: Spot, x: Record) {
    && s.leaf < |leaves|
    && match nodes(leaves[s.leaf])
       case Leaf(Some(records), _, _) => StandsIn(records, s.index, x)
       case _ => false
  }

  /** The records told are those that stand at some spots, from left to right:
      the spots of all whole records of the directory with enough data. */
  ghost predicate Lists(nodes: Num -> Node, leaves: seq<Num>, parent: Num, minData: nat, told: seq<Record>, spots: seq<Spot>) {
    && |spots| == |told|
    && (forall i :: 0 <= i < |told| ==> StandsAt(nodes, leaves, spots[i], told[i]) && Belongs(told[i], parent, minData))
    && (forall i, j :: 0 <= i < j < |spots| ==> Earlier(spots[i], spots[j]))
    && (forall s: Spot, x: Record :: StandsAt(nodes, leaves, s, x) && Belongs(x, parent, minData) ==> s in spots)
  }

  /** The same within leaf number leaf. */
  ghost predicate ListsLeaf(records: seq<LeafRecord>, leaf: nat, parent: Num, minData: nat, told: seq<Record>, spots: seq<Spot>) {
    && |spots| == |told|
    && (forall i :: 0 <= i < |told| ==> spots[i].leaf == leaf && StandsIn(records, spots[i].index, told[i]) && Belongs(told[i], parent, minData))
    && (forall i, j :: 0 <= i < j < |spots| ==> Earlier(spots[i], spots[j]))
    && (forall index: nat, x: Record :: StandsIn(records, index, x) && Belongs(x, parent, minData) ==> Spot(leaf, index) in spots)
  }

  lemma {:induction false} LeafTold(records: seq<LeafRecord>, leaf: nat, parent: Num, minData: nat) returns (spots: seq<Spot>)
    ensures ListsLeaf(records, leaf, parent, minData, Of(Wholes(records), parent, minData), spots)
    decreases |records|
  {
    hide Of, Wholes;
    if records == [] {
      NoWholes(parent, minData);
      spots := [];
    } else {
      var last := |records| - 1;
      spots := LeafTold(records[..last], leaf, parent, minData);
      OfAppend(records, last, parent, minData);
      assert records[..|records|] == records;
      if records[last].Whole? && Belongs(records[last].record, parent, minData) {
        spots := spots + [Spot(leaf, last)];
      }
      forall index: nat, x: Record | StandsIn(records, index, x) && Belongs(x, parent, minData)
        ensures Spot(leaf, index) in spots
      {
        if index < last {
          assert StandsIn(records[..last], index, x);
        }
      }
    }
  }

  /** The records told of a directory, whatever the leaves hold. */
  lemma {:induction false} ToldExactly(nodes: Num -> Node, leaves: seq<Num>, parent: Num, minData: nat) returns (spots: seq<Spot>)
    ensures Lists(nodes, leaves, parent, minData, Of(Records(nodes, leaves), parent, minData), spots)
    decreases |leaves|
  {
    hide Of, Records, Wholes, ListsLeaf;
    if leaves == [] {
      NoRecords(nodes, parent, minData);
      spots := [];
    } else {
      var last := |leaves| - 1;
      spots := ToldExactly(nodes, leaves[..last], parent, minData);
      assert leaves == leaves[..last] + [leaves[last]];
      RecordsConcat(nodes, leaves[..last], [leaves[last]]);
      RecordsOfOne(nodes, leaves[last]);
      OfConcat(Records(nodes, leaves[..last]), WholesAt(nodes, leaves[last]), parent, minData);
      var told := Of(Records(nodes, leaves[..last]), parent, minData);
      match nodes(leaves[last]) {
        case Leaf(Some(records), _, _) =>
          var more := LeafTold(records, last, parent, minData);
          OneMoreLeaf(nodes, leaves, records, parent, minData, told, spots, Of(Wholes(records), parent, minData), more);
          spots := spots + more;
        case _ =>
          NoWholes(parent, minData);
          NothingOf(parent, minData);
          assert told + [] == told;
          SameSpots(nodes, leaves, parent, minData, told, spots);
      }
    }
  }

  lemma {:induction false} NoRecords(nodes: Num -> Node, parent: Num, minData: nat)
    ensures Of(Records(nodes, []), parent, minData) == []
  {
  }

  lemma {:induction false} NothingOf(parent: Num, minData: nat)
    ensures Of([], parent, minData) == []
  {
  }

  lemma {:induction false} RecordsOfOne(nodes: Num -> Node, num: Num)
    ensures Records(nodes, [num]) == WholesAt(nodes, num)
  {
    hide WholesAt;
    assert [num][1..] == [];
    assert WholesAt(nodes, num) + [] == WholesAt(nodes, num);
  }

  lemma {:induction false} OneMoreLeaf(nodes: Num -> Node, leaves: seq<Num>, records: seq<LeafRecord>, parent: Num, minData: nat,
                                       a: seq<Record>, p: seq<Spot>, b: seq<Record>, q: seq<Spot>)
    requires leaves != [] && nodes(leaves[|leaves| - 1]).Leaf? && nodes(leaves[|leaves| - 1]).records == Some(records)
    requires Lists(nodes, leaves[..|leaves| - 1], parent, minData, a, p) && ListsLeaf(records, |leaves| - 1, parent, minData, b, q)
    ensures Lists(nodes, leaves, parent, minData, a + b, p + q)
  {
    hide Belongs, StandsIn;
    var last := |leaves| - 1;
    forall s: Spot, x: Record | StandsAt(nodes, leaves, s, x) && Belongs(x, parent, minData)
      ensures s in p + q
    {
      if s.leaf < last {
        assert StandsAt(nodes, leaves[..last], s, x);
      } else {
        assert Spot(last, s.index) in q;
      }
    }
    forall i | 0 <= i < |a|
      ensures StandsAt(nodes, leaves, p[i], a[i])
    {
      assert StandsAt(nodes, leaves[..last], p[i], a[i]);
    }
  }

  lemma {:induction false} SameSpots(nodes: Num -> Node, leaves: seq<Num>, parent: Num, minData: nat, told: seq<Record>, spots: seq<Spot>)
    requires leaves != [] && Lists(nodes, leaves[..|leaves| - 1], parent, minData, told, spots)
    requires forall s: Spot, x: Record :: s.leaf == |leaves| - 1 ==> !StandsAt(nodes, leaves, s, x)
    ensures Lists(nodes, leaves, parent, minData, told, spots)
  {
    hide Belongs, StandsIn;
    var last := |leaves| - 1;
    forall s: Spot, x: Record | StandsAt(nodes, leaves, s, x) && Belongs(x, parent, minData)
      ensures s in spots
    {
      assert StandsAt(nodes, leaves[..last], s, x);
    }
    forall i | 0 <= i < |told|
      ensures StandsAt(nodes, leaves, spots[i], told[i])
    {
      assert StandsAt(nodes, leaves[..last], spots[i], told[i]);
    }
  }
}
