/**
 ISO 9660 directories: files recorded in several parts, and listings that stop
 and resume.
 */
module IsoDirectory {
  import opened Basics
  import opened BlockDevice
  import opened Callback
  import opened Names
  import NameFix

  const SECTOR: nat := 2048
  const MIN_RECORD: nat := 33
  const LENGTH_MAX: nat := 0xffff_ffff

  datatype Node = Node(name: Name, file: bool, lba: Lba, length: nat, size: nat)

  /** What stands at an offset of a directory. A record that is cut short has
      a name that does not fit it; a hidden one is not listed. */
  datatype Slot =
    | Padding
    | Malformed
    | Record(len: nat, ident: Bytes, more: bool, cut: bool, hidden: bool, node: Node)

  function NextSector(offset: nat): (r: nat)
    ensures offset < r <= offset + SECTOR && r % SECTOR == 0
  {
    (offset / SECTOR + 1) * SECTOR
  }

  /** A directory, with nameSize bytes for every name. */
  datatype Directory = Directory(size: nat, nameSize: nat, slot: nat -> Slot)
  {
    /** Records do not span sectors, and the size leaves room to round up in 32 bits. */
    ghost predicate Valid() {
      && size <= 0x1_0000_0000 - SECTOR && nameSize > NameFix.SUFFIX_MAX
      && forall offset: nat :: offset < size && slot(offset).Record? ==> ValidRecord(offset, slot(offset))
    }

    predicate ValidRecord(offset: nat, r: Slot)
      requires r.Record?
    {
      && MIN_RECORD <= r.len <= SECTOR - offset % SECTOR
      && r.node.length == r.node.size <= LENGTH_MAX && |r.node.name| < nameSize
    }

    /** The parts that continue a file from offset on, and the offset after them. */
    ghost function Continuations(offset: nat, ident: Bytes, more: bool): (seq<Node>, nat)
      requires Valid()
      decreases size - offset
    {
      if !more || offset >= size then ([], offset) else
      match slot(offset)
      case Padding => Continuations(NextSector(offset), ident, more)
      case Malformed => ([], offset)
      case Record(len, ident', more', _, _, node) =>
        if ident' != ident then ([], offset) else
        var (parts, end) := Continuations(offset + len, ident, more');
        ([node] + parts, end)
    }

    /** The node that the record at offset begins, if it is to be listed, and the offset after it. */
    ghost function EntryAt(offset: nat): (r: (Option<Node>, nat))
      requires Valid() && offset < size
    {
      match slot(offset)
      case Padding => (None, NextSector(offset))
      case Malformed => (None, NextSector(offset))
      case Record(len, ident, more, cut, hidden, node) =>
        if cut then (None, NextSector(offset)) else
        var (parts, end) := if node.file && more then Continuations(offset + len, ident, true) else ([], offset + len);
        (if hidden then None else Some(if node.file && more then Merged(node, parts) else node), end)
    }
  }

  // ----- files in several parts -----

  function Total(parts: seq<Node>): nat {
    if parts == [] then 0 else Total(parts[..|parts| - 1]) + parts[|parts| - 1].length
  }

  /** A part goes on where merged bytes from sector lba on end. */
  predicate Follows(lba: Lba, merged: nat, part: Node) {
    merged % SECTOR == 0 && part.lba == (lba + merged / SECTOR) % LBA_LIMIT
  }

  /** Every part goes on where the parts before it end. */
  predicate Contiguous(lba: Lba, first: nat, parts: seq<Node>) {
    forall k :: 0 <= k < |parts| ==> Follows(lba, first + Total(parts[..k]), parts[k])
  }

  /** How many parts can be merged. */
  function Mergeable(lba: Lba, first: nat, parts: seq<Node>): (k: nat)
    ensures k <= |parts|
  {
    if parts == [] then 0 else
    var last := |parts| - 1;
    var k := Mergeable(lba, first, parts[..last]);
    if k == last && Follows(lba, first + Total(parts[..last]), parts[last]) then |parts| else k
  }

  /** The node for a file with these further parts. */
  function Merged(node: Node, parts: seq<Node>): Node {
    var size := node.length + Total(parts[..Mergeable(node.lba, node.length, parts)]);
    node.(size := size, length := if size > LENGTH_MAX then LENGTH_MAX else size)
  }

  /** What is merged is the longest run of parts that go on from one another. */
  lemma {:induction false} MergeableIsLongest(lba: Lba, first: nat, parts: seq<Node>)
    ensures var k := Mergeable(lba, first, parts);
            && Contiguous(lba, first, parts[..k])
            && forall j :: k < j <= |parts| ==> !Contiguous(lba, first, parts[..j])
  {
    hide Follows, Total, Mergeable;
    MergeableStops(lba, first, parts);
    var k := Mergeable(lba, first, parts);
    forall i {:trigger parts[i]} | 0 <= i < k
      ensures parts[..k][..i] == parts[..i] && parts[..k][i] == parts[i]
    {
    }
    forall j | k < j <= |parts|
      ensures !Contiguous(lba, first, parts[..j])
    {
      assert parts[..j][..k] == parts[..k] && parts[..j][k] == parts[k];
    }
  }

  lemma {:induction false} MergeableStops(lba: Lba, first: nat, parts: seq<Node>)
    ensures var k := Mergeable(lba, first, parts);
            && (forall i {:trigger parts[i]} :: 0 <= i < k ==> Follows(lba, first + Total(parts[..i]), parts[i]))
            && (k < |parts| ==> !Follows(lba, first + Total(parts[..k]), parts[k]))
    decreases |parts|
  {
    hide Follows, Total;
    if parts != [] {
      var last := |parts| - 1;
      MergeableStops(lba, first, parts[..last]);
      forall i {:trigger parts[i]} | 0 <= i < last
        ensures parts[..last][..i] == parts[..i] && parts[..last][i] == parts[i]
      {
      }
    }
  }

  /** The bytes of parts, one after another. */
  ghost function PartBytes(d: Drive, parts: seq<Node>): Bytes
    requires d.Valid() && d.sectorSize > 0
  {
    if parts == [] then [] else
    var last := |parts| - 1;
    var start := d.Offset(parts[last].lba);
    PartBytes(d, parts[..last]) + (if start + parts[last].length <= d.Size() then d.Slice(start, parts[last].length) else [])
  }

  lemma {:induction false} LastPart(d: Drive, lba: Lba, first: nat, parts: seq<Node>)
    requires d.Valid() && d.sectorSize == SECTOR && parts != [] && Contiguous(lba, first, parts)
    requires d.Offset(lba) + first + Total(parts) <= d.Size()
    ensures var last := |parts| - 1;
            var merged := first + Total(parts[..last]);
            && Contiguous(lba, first, parts[..last])
            && first + Total(parts) == merged + parts[last].length
            && PartBytes(d, parts) == PartBytes(d, parts[..last]) + d.Slice(d.Offset(lba) + merged, parts[last].length)
  {
    hide d.Offset, d.ByteAt, d.Slice, Follows, Contiguous;
    var last := |parts| - 1;
    ContiguousLast(lba, first, parts);
    PartStart(d, lba, first + Total(parts[..last]), parts[last]);
  }

  lemma {:induction false} ContiguousLast(lba: Lba, first: nat, parts: seq<Node>)
    requires parts != [] && Contiguous(lba, first, parts)
    ensures var last := |parts| - 1;
            Contiguous(lba, first, parts[..last]) && Follows(lba, first + Total(parts[..last]), parts[last])
  {
    hide Follows, Total;
    var last := |parts| - 1;
    forall j {:trigger parts[j]} | 0 <= j < last
      ensures parts[..last][..j] == parts[..j]
    {
    }
  }

  /** Byte n of a merged file is byte n of the run that starts at its first sector. */
  lemma {:induction false} MergedIsContiguous(d: Drive, node: Node, parts: seq<Node>)
    requires d.Valid() && d.sectorSize == SECTOR && Contiguous(node.lba, node.length, parts)
    requires d.Offset(node.lba) + node.length + Total(parts) <= d.Size()
    ensures d.Slice(d.Offset(node.lba), node.length + Total(parts)) ==
            d.Slice(d.Offset(node.lba), node.length) + PartBytes(d, parts)
    decreases |parts|
  {
    hide d.Offset, d.ByteAt, Total, PartBytes, Contiguous;
    var start, first := d.Offset(node.lba), node.length;
    if parts == [] {
      NoParts(d);
    } else {
      var last := |parts| - 1;
      var before := parts[..last];
      LastPart(d, node.lba, first, parts);
      MergedIsContiguous(d, node, before);
      var merged := first + Total(before);
      SliceConcat(d, start, merged, parts[last].length);
      Associate(d.Slice(start, first), PartBytes(d, before), d.Slice(start + merged, parts[last].length));
    }
  }

  lemma {:induction false} NoParts(d: Drive)
    requires d.Valid() && d.sectorSize > 0
    ensures Total([]) == 0 && PartBytes(d, []) == []
  {
  }

  lemma {:induction false} PartStart(d: Drive, lba: Lba, merged: nat, part: Node)
    requires d.Valid() && d.sectorSize == SECTOR && Follows(lba, merged, part)
    requires d.Offset(lba) + merged + part.length <= d.Size()
    ensures d.Offset(part.lba) + part.length <= d.Size()
    ensures d.Slice(d.Offset(part.lba), part.length) == d.Slice(d.Offset(lba) + merged, part.length)
  {
    if part.length > 0 {
      assert part.lba == lba + merged / SECTOR;
    }
  }

  /** A part is on the medium. */
  ghost predicate OnMedium(d: Drive, lba: Lba, length: nat) {
    d.Offset(lba) + length <= d.Size()
  }

  /** No part with bytes is compared with an address that does not fit in 32 bits. */
  predicate NeverWraps(lba: Lba, first: nat, parts: seq<Node>) {
    forall k :: 0 <= k < |parts| && parts[k].length > 0 ==> lba + (first + Total(parts[..k])) / SECTOR < LBA_LIMIT
  }

  ghost predicate PartsOnMedium(d: Drive, parts: seq<Node>) {
    forall k :: 0 <= k < |parts| ==> OnMedium(d, parts[k].lba, parts[k].length)
  }

  /** A run of parts is on the medium exactly when every part is and no comparison wraps. */
  lemma {:induction false} RunOnMedium(d: Drive, lba: Lba, first: nat, parts: seq<Node>)
    requires d.sectorSize == SECTOR && Contiguous(lba, first, parts)
    ensures OnMedium(d, lba, first + Total(parts)) <==>
              OnMedium(d, lba, first) && PartsOnMedium(d, parts) && NeverWraps(lba, first, parts)
    decreases |parts|
  {
    hide Contiguous, Follows, Total, OnMedium, PartsOnMedium, NeverWraps;
    if parts == [] {
      NoRun(d, lba, first);
    } else {
      var last := |parts| - 1;
      ContiguousLast(lba, first, parts);
      RunOnMedium(d, lba, first, parts[..last]);
      SplitRun(d, lba, first, parts);
      LastOnMedium(d, lba, first + Total(parts[..last]), parts[last]);
    }
  }

  lemma {:induction false} NoRun(d: Drive, lba: Lba, first: nat)
    ensures Total([]) == 0 && PartsOnMedium(d, []) && NeverWraps(lba, first, [])
  {
  }

  lemma {:induction false} SplitRun(d: Drive, lba: Lba, first: nat, parts: seq<Node>)
    requires parts != []
    ensures var last := |parts| - 1;
            var merged := first + Total(parts[..last]);
            && first + Total(parts) == merged + parts[last].length
            && (PartsOnMedium(d, parts) <==> PartsOnMedium(d, parts[..last]) && OnMedium(d, parts[last].lba, parts[last].length))
            && (NeverWraps(lba, first, parts) <==>
                NeverWraps(lba, first, parts[..last]) && (parts[last].length > 0 ==> lba + merged / SECTOR < LBA_LIMIT))
  {
    hide OnMedium, Total, NeverWraps;
    var last := |parts| - 1;
    var before := parts[..last];
    assert forall k {:trigger parts[k]} {:trigger before[k]} :: 0 <= k < last ==> before[k] == parts[k];
    TotalLast(parts);
    SplitWraps(lba, first, parts);
  }

  lemma {:induction false} SplitWraps(lba: Lba, first: nat, parts: seq<Node>)
    requires parts != []
    ensures var last := |parts| - 1;
            NeverWraps(lba, first, parts) <==>
              NeverWraps(lba, first, parts[..last])
              && (parts[last].length > 0 ==> lba + (first + Total(parts[..last])) / SECTOR < LBA_LIMIT)
  {
    hide Total;
    var last := |parts| - 1;
    var before := parts[..last];
    forall k | 0 <= k < last
      ensures before[k] == parts[k] && before[..k] == parts[..k]
    {
    }
  }

  lemma {:induction false} TotalLast(parts: seq<Node>)
    requires parts != []
    ensures Total(parts) == Total(parts[..|parts| - 1]) + parts[|parts| - 1].length
  {
  }

  lemma {:induction false} LastOnMedium(d: Drive, lba: Lba, merged: nat, part: Node)
    requires d.sectorSize == SECTOR && Follows(lba, merged, part)
    ensures OnMedium(d, lba, merged + part.length) <==>
              OnMedium(d, lba, merged) && OnMedium(d, part.lba, part.length) && (part.length > 0 ==> lba + merged / SECTOR < LBA_LIMIT)
  {
    if part.length > 0 && lba + merged / SECTOR < LBA_LIMIT {
      assert part.lba == lba + merged / SECTOR;
    }
  }

  /** A merged file is its first part and the parts merged, one after another
      from its first sector on, exactly when all of these are on the medium and
      no comparison wraps; no longer run of parts would be. */
  lemma {:induction false} MergedFile(d: Drive, node: Node, parts: seq<Node>)
    requires d.Valid() && d.sectorSize == SECTOR
    ensures var file, run := Merged(node, parts), parts[..Mergeable(node.lba, node.length, parts)];
            && file.lba == node.lba && file.size == node.length + Total(run)
            && (OnMedium(d, file.lba, file.size) <==>
                OnMedium(d, node.lba, node.length) && PartsOnMedium(d, run) && NeverWraps(node.lba, node.length, run))
            && (OnMedium(d, file.lba, file.size) ==>
                d.Slice(d.Offset(file.lba), file.size) == d.Slice(d.Offset(node.lba), node.length) + PartBytes(d, run))
            && forall j :: |run| < j <= |parts| ==> !Contiguous(node.lba, node.length, parts[..j])
  {
    hide d.Slice, d.ByteAt, d.Offset, d.Valid, Total, Mergeable, PartBytes, Contiguous, PartsOnMedium, NeverWraps;
    var run := parts[..Mergeable(node.lba, node.length, parts)];
    MergeableIsLongest(node.lba, node.length, parts);
    RunOnMedium(d, node.lba, node.length, run);
    if OnMedium(d, node.lba, node.length + Total(run)) {
      MergedIsContiguous(d, node, run);
    }
  }

  /** Sector addresses wrap at 32 bits when parts are compared: a file can be
      merged that runs past the end of the medium. */
  lemma {:induction false} WrappedMerge(d: Drive, node: Node, part: Node)
    requires d.sectorSize == SECTOR
    requires node.lba == LBA_LIMIT - 1 && node.length == SECTOR && part.lba == 0 && part.length > 0
    ensures Mergeable(node.lba, node.length, [part]) == 1 && Merged(node, [part]).size == SECTOR + part.length
    ensures d.Offset(node.lba) + Merged(node, [part]).size > d.Size()
  {
    assert [part][..0] == [] && [part][..1] == [part];
  }

  /** The sizes of all the parts in a directory add up within 64 bits. */
  lemma {:induction false} MergedSizeFits(dir: Directory, offset: nat, ident: Bytes, more: bool, node: Node)
    requires dir.Valid() && offset <= dir.size + SECTOR && node.length <= LENGTH_MAX
    ensures var parts := dir.Continuations(offset, ident, more).0;
            Merged(node, parts).size <= node.length + Total(parts) && node.length + Total(parts) < UINT64_LIMIT
  {
    var parts := dir.Continuations(offset, ident, more).0;
    PartsFit(dir, offset, ident, more);
    TotalBound(parts, |parts|);
    TotalBound(parts, Mergeable(node.lba, node.length, parts));
  }

  lemma {:induction false} PartsFit(dir: Directory, offset: nat, ident: Bytes, more: bool)
    requires dir.Valid() && offset <= dir.size + SECTOR
    ensures var parts := dir.Continuations(offset, ident, more).0;
            && |parts| * MIN_RECORD <= dir.size + SECTOR - offset
            && forall i :: 0 <= i < |parts| ==> parts[i].length <= LENGTH_MAX
    decreases dir.size - offset
  {
    hide dir.Continuations, dir.Valid, NextSector;
    if !more || offset >= dir.size {
      NoContinuation(dir, offset, ident, more);
    } else {
      ContinuationsStep(dir, offset, ident);
      match dir.slot(offset)
      case Padding =>
        assert offset < NextSector(offset) <= offset + SECTOR;
        PartsFit(dir, NextSector(offset), ident, more);
      case Malformed =>
      case Record(len, ident', more', _, _, _) =>
        RecordFits(dir, offset);
        if ident' == ident {
          PartsFit(dir, offset + len, ident, more');
        }
    }
  }

  lemma {:induction false} TotalBound(parts: seq<Node>, k: nat)
    requires k <= |parts| && forall i :: 0 <= i < |parts| ==> parts[i].length <= LENGTH_MAX
    ensures Total(parts[..k]) <= Total(parts) <= LENGTH_MAX * |parts|
    decreases |parts|
  {
    if parts == [] {
    } else if k == |parts| {
      assert parts[..k] == parts;
      TotalBound(parts[..|parts| - 1], 0);
    } else {
      TotalBound(parts[..|parts| - 1], k);
      assert parts[..|parts| - 1][..k] == parts[..k];
    }
  }

  // ----- reading directories -----

  /** A directory on the medium; fails(n) says whether sector read number n fails. */
  class Reader {
    const dir: Directory
    const fails: nat -> bool
    var asked: nat

    ghost predicate Reliable() {
      forall n: nat :: !fails(n)
    }

    method Fetch(offset: nat) returns (err: Error, slot: Slot)
      requires dir.Valid() && offset < dir.size
      modifies this
      ensures err == Ok ==> slot == dir.slot(offset)
      ensures err != Ok ==> err == Io && !Reliable()
    {
      err, slot := if fails(asked) then Io else Ok, dir.slot(offset);
      asked := asked + 1;
    }
  }

  lemma {:induction false} MergeStep(lba: Lba, first: nat, parts: seq<Node>, part: Node)
    ensures var k, k' := Mergeable(lba, first, parts), Mergeable(lba, first, parts + [part]);
            && k' == (if k == |parts| && Follows(lba, first + Total(parts), part) then k + 1 else k)
            && Total((parts + [part])[..k']) == Total(parts[..k]) + if k' == k then 0 else part.length
  {
    hide Follows;
    var more := parts + [part];
    assert more[..|parts|] == parts && parts[..|parts|] == parts;
    assert more[..|more|] == more;
    if Mergeable(lba, first, parts) < |parts| {
      assert more[..Mergeable(lba, first, parts)] == parts[..Mergeable(lba, first, parts)];
    }
  }

  lemma {:induction false} NoContinuation(dir: Directory, offset: nat, ident: Bytes, more: bool)
    requires dir.Valid() && (!more || offset >= dir.size)
    ensures dir.Continuations(offset, ident, more) == ([], offset)
  {
  }

  lemma {:induction false} ContinuationsStep(dir: Directory, offset: nat, ident: Bytes)
    requires dir.Valid() && offset < dir.size
    ensures match dir.slot(offset)
            case Padding => dir.Continuations(offset, ident, true) == dir.Continuations(NextSector(offset), ident, true)
            case Malformed => dir.Continuations(offset, ident, true) == ([], offset)
            case Record(len, ident', more, _, _, part) =>
              if ident' != ident then dir.Continuations(offset, ident, true) == ([], offset)
              else var (parts, end) := dir.Continuations(offset, ident, true);
                   parts != [] && parts[0] == part && (parts[1..], end) == dir.Continuations(offset + len, ident, more)
  {
    hide NextSector, dir.ValidRecord;
  }

  /** How far folding has come: parts are folded into merged bytes, and those from offset on are left. */
  ghost predicate Merging(dir: Directory, offset0: nat, ident: Bytes, more0: bool, node: Node,
                          parts: seq<Node>, offset: nat, more: bool, contiguous: bool, merged: nat)
    requires dir.Valid()
  {
    var (all, end) := dir.Continuations(offset0, ident, more0);
    var (rest, end') := dir.Continuations(offset, ident, more);
    var k := Mergeable(node.lba, node.length, parts);
    && offset0 <= offset <= dir.size + SECTOR && all == parts + rest && end == end'
    && contiguous == (k == |parts|) && merged == node.length + Total(parts[..k])
  }

  lemma {:induction false} StartMerging(dir: Directory, offset: nat, ident: Bytes, more: bool, node: Node)
    requires dir.Valid() && offset <= dir.size + SECTOR
    ensures Merging(dir, offset, ident, more, node, [], offset, more, true, node.length)
  {
    NothingMerged(node);
  }

  lemma {:induction false} KeepMerging(dir: Directory, offset0: nat, ident: Bytes, more0: bool, node: Node,
                                       parts: seq<Node>, offset: nat, contiguous: bool, merged: nat)
    requires dir.Valid() && Merging(dir, offset0, ident, more0, node, parts, offset, true, contiguous, merged)
    requires offset < dir.size
    ensures match dir.slot(offset)
            case Padding => Merging(dir, offset0, ident, more0, node, parts, NextSector(offset), true, contiguous, merged)
            case Malformed => EndsAt(dir, offset0, ident, more0, node, offset, merged)
            case Record(len, ident', more, _, _, part) =>
              if ident' != ident then EndsAt(dir, offset0, ident, more0, node, offset, merged)
              else var goesOn := contiguous && Follows(node.lba, merged, part);
                   Merging(dir, offset0, ident, more0, node, parts + [part], offset + len, more, goesOn,
                           if goesOn then merged + part.length else merged)
  {
    hide dir.Valid, dir.Continuations, NextSector, Follows, Total, Mergeable;
    ContinuationsStep(dir, offset, ident);
    assert parts[..|parts|] == parts;
    match dir.slot(offset)
    case Padding => assert NextSector(offset) <= offset + SECTOR;
    case Malformed => assert parts + [] == parts;
    case Record(_, ident', _, _, _, part) =>
      RecordFits(dir, offset);
      if ident' != ident {
        assert parts + [] == parts;
      } else {
        MergeStep(node.lba, node.length, parts, part);
        var rest := dir.Continuations(offset, ident, true).0;
        assert parts + rest == (parts + [part]) + rest[1..];
      }
  }

  /** All that could be folded is folded, and the next record stands at offset. */
  ghost predicate EndsAt(dir: Directory, offset0: nat, ident: Bytes, more0: bool, node: Node, offset: nat, merged: nat)
    requires dir.Valid()
  {
    var (parts, end) := dir.Continuations(offset0, ident, more0);
    offset == end && merged == Merged(node, parts).size
  }

  lemma {:induction false} EndMerging(dir: Directory, offset0: nat, ident: Bytes, more0: bool, node: Node,
                                      parts: seq<Node>, offset: nat, more: bool, contiguous: bool, merged: nat)
    requires dir.Valid() && Merging(dir, offset0, ident, more0, node, parts, offset, more, contiguous, merged)
    requires !more || offset >= dir.size
    ensures EndsAt(dir, offset0, ident, more0, node, offset, merged)
  {
    hide dir.Valid, dir.Continuations, Total, Mergeable;
    NoContinuation(dir, offset, ident, more);
    assert parts + [] == parts;
  }

  /** Fold the records that continue a file into its node. */
  method MergeMultiExtent(reader: Reader, offset0: nat, ident: Bytes, more0: bool, node0: Node)
    returns (err: Error, offset: nat, node: Node)
    requires reader.dir.Valid() && offset0 <= reader.dir.size + SECTOR && node0.length == node0.size <= LENGTH_MAX
    modifies reader
    ensures err == Ok ==> var (parts, end) := reader.dir.Continuations(offset0, ident, more0);
                          offset == end && node == Merged(node0, parts)
    ensures err != Ok ==> err == Io && !reader.Reliable()
  {
    hide reader.dir.Valid, reader.dir.Continuations, reader.dir.ValidRecord, NextSector, Follows, Merged, Merging, EndsAt;
    var dir := reader.dir;
    ghost var parts: seq<Node> := [];
    var more, contiguous, merged: nat := more0, true, node0.length;
    err, offset, node := Ok, offset0, node0;
    StartMerging(dir, offset, ident, more, node0);
    while more && offset < dir.size
      invariant err == Ok && Merging(dir, offset0, ident, more0, node0, parts, offset, more, contiguous, merged)
      decreases dir.size - offset
    {
      var slot;
      KeepMerging(dir, offset0, ident, more0, node0, parts, offset, contiguous, merged);
      err, slot := reader.Fetch(offset);
      if err != Ok {
        return;
      }
      if slot.Padding? {
        offset := NextSector(offset);
        continue;
      }
      if slot.Malformed? || slot.ident != ident {
        break;
      }
      RecordFits(dir, offset);
      if contiguous && Follows(node0.lba, merged, slot.node) {
        merged := merged + slot.node.length;
      } else {
        contiguous := false;
      }
      more := slot.more;
      offset := offset + slot.len;
      parts := parts + [slot.node];
    }
    if !more || offset >= dir.size {
      EndMerging(dir, offset0, ident, more0, node0, parts, offset, more, contiguous, merged);
    }
    node := node0.(size := merged, length := if merged > LENGTH_MAX then LENGTH_MAX else merged);
    Folded(dir, offset0, ident, more0, node0, offset, merged);
  }

  lemma {:induction false} Folded(dir: Directory, offset0: nat, ident: Bytes, more0: bool, node: Node, offset: nat, merged: nat)
    requires dir.Valid() && EndsAt(dir, offset0, ident, more0, node, offset, merged)
    ensures var (parts, end) := dir.Continuations(offset0, ident, more0);
            offset == end
            && node.(size := merged, length := if merged > LENGTH_MAX then LENGTH_MAX else merged) == Merged(node, parts)
  {
    hide dir.Valid, dir.Continuations;
  }

  lemma {:induction false} NothingMerged(node: Node)
    ensures Mergeable(node.lba, node.length, []) == 0 && Total([]) == 0
  {
  }

  lemma {:induction false} RecordFits(dir: Directory, offset: nat)
    requires dir.Valid() && offset < dir.size && dir.slot(offset).Record?
    ensures var r := dir.slot(offset);
            && MIN_RECORD <= r.len && offset + r.len <= NextSector(offset) <= dir.size + SECTOR
            && r.node.length == r.node.size <= LENGTH_MAX && |r.node.name| < dir.nameSize
  {
    assert dir.ValidRecord(offset, dir.slot(offset));
  }

  /** The node that the record at offset begins, and the offset after it. */
  method ReadEntry(reader: Reader, offset: nat) returns (err: Error, entry: Option<Node>, next: nat)
    requires reader.dir.Valid() && offset < reader.dir.size
    modifies reader
    ensures err == Ok ==> (entry, next) == reader.dir.EntryAt(offset)
    ensures err != Ok ==> err == Io && !reader.Reliable()
  {
    hide Merged;
    var dir := reader.dir;
    var slot;
    entry, next := None, NextSector(offset);
    err, slot := reader.Fetch(offset);
    if err != Ok || slot.Padding? || slot.Malformed? || slot.cut {
      return;
    }
    RecordFits(dir, offset);
    next := offset + slot.len;
    var node := slot.node;
    if node.file && slot.more {
      err, next, node := MergeMultiExtent(reader, next, slot.ident, true, node);
      if err != Ok {
        return;
      }
    }
    entry := if slot.hidden then None else Some(node);
  }

  // ----- listings -----

  /** A listed node, where its record starts and where the next one may. */
  datatype Item = Item(start: nat, next: nat, node: Node)

  function ErrorOf(e: NameFix.Error): (r: Error)
    ensures r != Ok
  {
    match e
    case Inval => Inval
    case NoMem => NoMemory
    case NameTooLong => NameTooLong
    case Overflow => Overflow
  }

  lemma {:induction false} EntryAdvances(dir: Directory, offset: nat)
    requires dir.Valid() && offset < dir.size
    ensures offset < dir.EntryAt(offset).1
    ensures dir.EntryAt(offset).0.Some? ==> |dir.EntryAt(offset).0.value.name| < dir.nameSize
  {
    if dir.slot(offset).Record? {
      var r := dir.slot(offset);
      RecordFits(dir, offset);
      ContinuationsAdvance(dir, offset + r.len, r.ident, true);
    }
  }

  lemma {:induction false} ContinuationsAdvance(dir: Directory, offset: nat, ident: Bytes, more: bool)
    requires dir.Valid()
    ensures offset <= dir.Continuations(offset, ident, more).1
    decreases dir.size - offset
  {
    if more && offset < dir.size {
      match dir.slot(offset)
      case Padding => ContinuationsAdvance(dir, NextSector(offset), ident, more);
      case Malformed =>
      case Record(len, _, more', _, _, _) =>
        RecordFits(dir, offset);
        ContinuationsAdvance(dir, offset + len, ident, more');
    }
  }

  /** All that a listing gives from offset on, given the names issued before,
      and how it ends. */
  ghost function Listing(dir: Directory, held: seq<Name>, offset: nat): (seq<Item>, Error)
    requires dir.Valid()
    decreases dir.size - offset
  {
    if offset >= dir.size then ([], Ok) else
    EntryAdvances(dir, offset);
    match dir.EntryAt(offset)
    case (None, next) => Listing(dir, held, next)
    case (Some(node), next) =>
      match NameFix.Settle(held, node.name, dir.nameSize)
      case Failed(e) => ([], ErrorOf(e))
      case Issued(name) =>
        var (items, end) := Listing(dir, held + [name], next);
        ([Item(offset, next, node.(name := name))] + items, end)
  }

  /** The nodes of the items that start at cookie or after it. */
  function From(items: seq<Item>, cookie: nat): seq<Node> {
    if items == [] then [] else
    var last := |items| - 1;
    From(items[..last], cookie) + (if items[last].start < cookie then [] else [items[last].node])
  }

  lemma {:induction false} ListingStep(dir: Directory, held: seq<Name>, offset: nat)
    requires dir.Valid() && offset < dir.size
    ensures var (entry, next) := dir.EntryAt(offset);
            && offset < next
            && match entry
               case None => Listing(dir, held, offset) == Listing(dir, held, next)
               case Some(node) =>
                 |node.name| < dir.nameSize &&
                 match NameFix.Settle(held, node.name, dir.nameSize)
                 case Failed(e) => Listing(dir, held, offset) == ([], ErrorOf(e))
                 case Issued(name) =>
                   var (items, end) := Listing(dir, held, offset);
                   items != [] && items[0] == Item(offset, next, node.(name := name)) && Listing(dir, held + [name], next) == (items[1..], end)
  {
    hide NameFix.Settle, dir.EntryAt;
    EntryAdvances(dir, offset);
  }

  lemma {:induction false} FromAppend(items: seq<Item>, item: Item, cookie: nat)
    ensures From(items + [item], cookie) == From(items, cookie) + (if item.start < cookie then [] else [item.node])
  {
    assert (items + [item])[..|items|] == items;
  }

  /** Records stand one after another. */
  lemma {:induction false} ListingOrdered(dir: Directory, held: seq<Name>, offset: nat)
    requires dir.Valid()
    ensures var items := Listing(dir, held, offset).0;
            && (forall i {:trigger items[i]} :: 0 <= i < |items| ==> offset <= items[i].start < items[i].next)
            && (forall i, j :: 0 <= i < j < |items| ==> items[i].next <= items[j].start)
    decreases dir.size - offset
  {
    hide NameFix.Settle, dir.EntryAt, dir.Valid, Listing;
    if offset < dir.size {
      ListingStep(dir, held, offset);
      var (entry, next) := dir.EntryAt(offset);
      if entry.None? {
        ListingOrdered(dir, held, next);
      } else {
        var s := NameFix.Settle(held, entry.value.name, dir.nameSize);
        if s.Issued? {
          ListingOrdered(dir, held + [s.name], next);
        }
      }
    } else {
      EndOfListing(dir, held, offset);
    }
  }

  /** How far a listing has come: k items are past, giving told, and those from offset on are left. */
  ghost predicate Listed(dir: Directory, held: seq<Name>, offset: nat, cookie: nat, k: nat, told: seq<Node>)
    requires dir.Valid()
  {
    var (items, end) := Listing(dir, [], 0);
    var (rest, end') := Listing(dir, held, offset);
    k <= |items| && items[k..] == rest && end == end' && told == From(items[..k], cookie)
  }

  lemma {:induction false} StartListing(dir: Directory, cookie: nat)
    requires dir.Valid()
    ensures Listed(dir, [], 0, cookie, 0, [])
  {
    hide dir.Valid, Listing;
    FromNothing(cookie);
    var items := Listing(dir, [], 0).0;
    assert items[..0] == [] && items[0..] == items;
  }

  lemma {:induction false} KeepListing(dir: Directory, held: seq<Name>, offset: nat, cookie: nat, k: nat, told: seq<Node>)
    requires dir.Valid() && offset < dir.size && Listed(dir, held, offset, cookie, k, told)
    ensures var (entry, next) := dir.EntryAt(offset);
            && offset < next
            && match entry
               case None => Listed(dir, held, next, cookie, k, told)
               case Some(node) =>
                 |node.name| < dir.nameSize &&
                 match NameFix.Settle(held, node.name, dir.nameSize)
                 case Failed(e) => ListedTo(dir, cookie, k, told) && EndsWith(dir, k, ErrorOf(e))
                 case Issued(name) =>
                   var told' := told + (if offset < cookie then [] else [node.(name := name)]);
                   && Listed(dir, held + [name], next, cookie, k + 1, told')
                   && ListedTo(dir, cookie, k + 1, told')
                   && Listing(dir, [], 0).0[k].start == offset && Listing(dir, [], 0).0[k].next == next
  {
    hide dir.Valid, dir.EntryAt, NameFix.Settle, Listing, From;
    var (items, end) := Listing(dir, [], 0);
    ListingStep(dir, held, offset);
    if k < |items| {
      assert items[..k + 1] == items[..k] + [items[k]];
      FromAppend(items[..k], items[k], cookie);
      assert items[k..][1..] == items[k + 1..] && items[k..][0] == items[k];
    }
  }

  /** The first k items of the listing, from cookie on, are told. */
  ghost predicate ListedTo(dir: Directory, cookie: nat, k: nat, told: seq<Node>)
    requires dir.Valid()
  {
    var items := Listing(dir, [], 0).0;
    k <= |items| && told == From(items[..k], cookie)
  }

  ghost predicate EndsWith(dir: Directory, k: nat, err: Error)
    requires dir.Valid()
  {
    Listing(dir, [], 0).1 == err && k == |Listing(dir, [], 0).0|
  }

  lemma {:induction false} EndListing(dir: Directory, held: seq<Name>, offset: nat, cookie: nat, k: nat, told: seq<Node>)
    requires dir.Valid() && Listed(dir, held, offset, cookie, k, told)
    ensures ListedTo(dir, cookie, k, told) && (offset >= dir.size ==> EndsWith(dir, k, Ok))
  {
    hide dir.Valid, Listing, From;
    if offset >= dir.size {
      EndOfListing(dir, held, offset);
    }
  }

  /** The node listed for the record at offset, under the name it gets. */
  method NextListed(reader: Reader, namefix: NameFix.State, offset: nat, ghost cookie: nat, ghost k: nat, ghost told: seq<Node>)
    returns (err: Error, entry: Option<Node>, next: nat)
    requires reader.dir.Valid() && offset < reader.dir.size && namefix.Valid()
    requires Listed(reader.dir, namefix.held, offset, cookie, k, told)
    modifies reader, namefix, namefix.buckets
    ensures namefix.Valid()
    ensures err == Ok ==>
              && offset < next
              && match entry
                 case None => Listed(reader.dir, namefix.held, next, cookie, k, told)
                 case Some(node) =>
                   var told' := if offset < cookie then told else told + [node];
                   && Listed(reader.dir, namefix.held, next, cookie, k + 1, told')
                   && Listing(reader.dir, [], 0).0[k].start == offset && Listing(reader.dir, [], 0).0[k].next == next
    ensures err != Ok ==> !reader.Reliable() || EndsWith(reader.dir, k, err)
  {
    hide NameFix.Settle, NameFix.State.Valid, reader.dir.EntryAt, reader.dir.Valid, Listing, From, Listed, ListedTo, EndsWith;
    KeepListing(reader.dir, namefix.held, offset, cookie, k, told);
    assert told + [] == told;
    err, entry, next := ReadEntry(reader, offset);
    if err != Ok || entry.None? {
      return;
    }
    var named := namefix.Apply(entry.value.name, reader.dir.nameSize, true);
    match named
    case Failed(e) => err := ErrorOf(e);
    case Issued(name) => entry := Some(entry.value.(name := name));
  }

  /** List a directory from a cookie on; the cookie left behind is the offset
      after the node that stopped the listing, or that of the end. */
  method ReadDir(reader: Reader, listener: Listener<Node>, cookie0: nat)
    returns (err: Error, cookie: nat, ghost k: nat, ghost told: seq<Node>)
    requires reader.dir.Valid()
    modifies reader, listener
    ensures listener.got == old(listener.got) + told && ListedTo(reader.dir, cookie0, k, told)
    ensures err == Ok ==> EndsWith(reader.dir, k, Ok) && cookie == reader.dir.size
    ensures err != Ok ==>
              || (k > 0 && told != [] && Listing(reader.dir, [], 0).0[k - 1].start >= cookie0
                  && err == listener.answers(|listener.got| - 1) && cookie == Listing(reader.dir, [], 0).0[k - 1].next)
              || (cookie == cookie0 && (!reader.Reliable() || EndsWith(reader.dir, k, err)))
  {
    hide NameFix.State.Valid, reader.dir.Valid, Listing, From, Listed, ListedTo, EndsWith;
    var dir := reader.dir;
    ghost var before := listener.got;
    var namefix := new NameFix.State();
    var offset := 0;
    cookie, err, k, told := cookie0, Ok, 0, [];
    StartListing(dir, cookie0);
    while offset < dir.size
      invariant namefix.Valid() && fresh(namefix) && fresh(namefix.buckets)
      invariant err == Ok && Listed(dir, namefix.held, offset, cookie0, k, told)
      invariant listener.got == before + told
      decreases dir.size - offset
    {
      var entry, next;
      EndListing(dir, namefix.held, offset, cookie0, k, told);
      err, entry, next := NextListed(reader, namefix, offset, cookie0, k, told);
      if err != Ok {
        return;
      }
      if entry.Some? {
        k := k + 1;
        if offset >= cookie0 {
          told := told + [entry.value];
          err := listener.Accept(entry.value);
          if err != Ok {
            EndListing(dir, namefix.held, next, cookie0, k, told);
            cookie := next;
            return;
          }
        }
      }
      offset := next;
    }
    EndListing(dir, namefix.held, offset, cookie0, k, told);
    cookie := dir.size;
  }

  lemma {:induction false} FromNothing(cookie: nat)
    ensures From([], cookie) == []
  {
  }

  lemma {:induction false} EndOfListing(dir: Directory, held: seq<Name>, offset: nat)
    requires dir.Valid() && offset >= dir.size
    ensures Listing(dir, held, offset) == ([], Ok)
  {
  }

  // ----- which records are listed -----

  /** A record that is to be listed stands at an offset, of a file or of a directory. */
  predicate Listable(dir: Directory, o: nat) {
    dir.slot(o).Record? && !dir.slot(o).cut && !dir.slot(o).hidden
  }

  predicate InParts(r: Slot)
    requires r.Record?
  {
    r.node.file && r.more
  }

  /** Where a scan goes on behind an offset: behind the record and the parts
      that continue it, or at the next sector where there is no sound record. */
  ghost function Behind(dir: Directory, o: nat): nat
    requires dir.Valid() && o < dir.size
  {
    var r := dir.slot(o);
    if !r.Record? || r.cut then NextSector(o)
    else if InParts(r) then dir.Continuations(o + r.len, r.ident, true).1
    else o + r.len
  }

  lemma {:induction false} BehindAdvances(dir: Directory, o: nat)
    requires dir.Valid() && o < dir.size
    ensures Behind(dir, o) > o
  {
    var r := dir.slot(o);
    if r.Record? {
      RecordFits(dir, o);
      ContinuationsAdvance(dir, o + r.len, r.ident, true);
    }
  }

  /** A scan that is at offset a comes to offset o. */
  ghost predicate Reaches(dir: Directory, a: nat, o: nat)
    requires dir.Valid()
    decreases if a < o then o - a else 0
  {
    a == o || (a < o && a < dir.size && (BehindAdvances(dir, a); Reaches(dir, Behind(dir, a), o)))
  }

  /** Up to offset o nothing that a scan from a comes to is to be listed. */
  ghost predicate Skipped(dir: Directory, a: nat, o: nat)
    requires dir.Valid()
    decreases if a < o then o - a else 0
  {
    a == o || (a < o && a < dir.size && !Listable(dir, a)
               && (BehindAdvances(dir, a); Skipped(dir, Behind(dir, a), o)))
  }

  /** The node listed for the record at o under a name: all other fields are
      those recorded, but for the size of a file in parts. */
  ghost function NodeAt(dir: Directory, o: nat, name: Name): Node
    requires dir.Valid() && o < dir.size && Listable(dir, o)
  {
    var r := dir.slot(o);
    if !InParts(r) then Node(name, r.node.file, r.node.lba, r.node.length, r.node.size) else
    var parts := dir.Continuations(o + r.len, r.ident, true).0;
    var total := r.node.length + Total(parts[..Mergeable(r.node.lba, r.node.length, parts)]);
    Node(name, true, r.node.lba, if total > LENGTH_MAX then LENGTH_MAX else total, total)
  }

  /** These are the items of a listing from offset a on, given the names held,
      and this is how it ends: each is the next record to be listed, under the
      name that it gets; a name that cannot be had ends the listing. */
  ghost predicate Spells(dir: Directory, held: seq<Name>, a: nat, items: seq<Item>, end: Error)
    requires dir.Valid()
    decreases |items|
  {
    if items == [] then Ends(dir, held, a, end)
    else
      var i := items[0];
      && i.start < dir.size && Skipped(dir, a, i.start) && Listable(dir, i.start)
      && i.next == Behind(dir, i.start) && i.node == NodeAt(dir, i.start, i.node.name)
      && |dir.slot(i.start).node.name| < dir.nameSize
      && NameFix.Settle(held, dir.slot(i.start).node.name, dir.nameSize) == NameFix.Issued(i.node.name)
      && Spells(dir, held + [i.node.name], i.next, items[1..], end)
  }

  /** A scan from offset a comes to the end, or to a record whose name cannot be had, and to none to be listed before. */
  ghost predicate Ends(dir: Directory, held: seq<Name>, a: nat, end: Error)
    requires dir.Valid()
    decreases dir.size - a
  {
    if a >= dir.size then end == Ok
    else if Listable(dir, a) then
      && |dir.slot(a).node.name| < dir.nameSize
      && var s := NameFix.Settle(held, dir.slot(a).node.name, dir.nameSize);
         s.Failed? && end == ErrorOf(s.error)
    else
      BehindAdvances(dir, a);
      Ends(dir, held, Behind(dir, a), end)
  }

  /** What the scan makes of one offset. */
  lemma {:induction false} EntryIs(dir: Directory, o: nat)
    requires dir.Valid() && o < dir.size
    ensures dir.EntryAt(o).1 == Behind(dir, o)
    ensures dir.EntryAt(o).0.Some? <==> Listable(dir, o)
    ensures Listable(dir, o) ==> forall name: Name :: dir.EntryAt(o).0.value.(name := name) == NodeAt(dir, o, name)
    ensures Listable(dir, o) ==> dir.EntryAt(o).0.value.name == dir.slot(o).node.name
  {
    hide dir.Continuations, Mergeable, Total;
  }

  /** A listing has exactly the records to be listed, file or directory, in
      order, with the fields recorded. */
  lemma {:induction false} ListingIsExact(dir: Directory, held: seq<Name>, offset: nat)
    requires dir.Valid()
    ensures var (items, end) := Listing(dir, held, offset);
            Spells(dir, held, offset, items, end)
    decreases dir.size - offset
  {
    hide NameFix.Settle, dir.EntryAt, dir.Valid, Listing, NodeAt, Behind, Listable;
    if offset >= dir.size {
      EndOfListing(dir, held, offset);
    } else {
      ListingStep(dir, held, offset);
      EntryIs(dir, offset);
      var (items, end) := Listing(dir, held, offset);
      var (entry, next) := dir.EntryAt(offset);
      if entry.None? {
        ListingIsExact(dir, held, next);
        SkipOne(dir, held, offset, items, end);
      } else {
        var s := NameFix.Settle(held, entry.value.name, dir.nameSize);
        if s.Issued? {
          ListingIsExact(dir, held + [s.name], next);
        }
      }
    }
  }

  lemma {:induction false} SkipOne(dir: Directory, held: seq<Name>, a: nat, items: seq<Item>, end: Error)
    requires dir.Valid() && a < dir.size && !Listable(dir, a) && Spells(dir, held, Behind(dir, a), items, end)
    ensures Spells(dir, held, a, items, end)
  {
    hide NameFix.Settle, dir.Valid, NodeAt, Behind, Listable;
    BehindAdvances(dir, a);
  }

  /** Of the offsets that a scan comes to, those of records to be listed are the
      starts of items, and no other offset is. */
  lemma {:induction false} ListedExactly(dir: Directory, held: seq<Name>, a: nat, items: seq<Item>, o: nat)
    requires dir.Valid() && Spells(dir, held, a, items, Ok)
    ensures (exists i :: 0 <= i < |items| && items[i].start == o) <==> o < dir.size && Reaches(dir, a, o) && Listable(dir, o)
    decreases |items|
  {
    hide NameFix.Settle, dir.Valid, NodeAt, Behind, Listable;
    if items == [] {
      NothingToList(dir, held, a, o);
    } else {
      var i := items[0];
      var held' := held + [i.node.name];
      BehindAdvances(dir, i.start);
      ListedExactly(dir, held', i.next, items[1..], o);
      ReachPast(dir, a, i.start, o);
      if o > i.start {
        assert Reaches(dir, i.start, o) <==> Reaches(dir, i.next, o);
      } else {
        assert !Reaches(dir, i.next, o);
      }
      assert items[0].start == i.start;
      if exists j :: 0 <= j < |items[1..]| && items[1..][j].start == o {
        var j :| 0 <= j < |items[1..]| && items[1..][j].start == o;
        assert items[j + 1].start == o;
      }
      forall j | 0 < j < |items| && items[j].start == o
        ensures items[1..][j - 1].start == o
      {
      }
    }
  }

  lemma {:induction false} NothingToList(dir: Directory, held: seq<Name>, a: nat, o: nat)
    requires dir.Valid() && Ends(dir, held, a, Ok)
    ensures !(o < dir.size && Reaches(dir, a, o) && Listable(dir, o))
    decreases dir.size - a
  {
    hide NameFix.Settle, dir.Valid, Behind, Listable;
    if a < dir.size && !Listable(dir, a) {
      BehindAdvances(dir, a);
      NothingToList(dir, held, Behind(dir, a), o);
    }
  }

  /** Over what is skipped a scan comes to the next item, and to nothing to be listed before. */
  lemma {:induction false} ReachPast(dir: Directory, a: nat, b: nat, o: nat)
    requires dir.Valid() && Skipped(dir, a, b)
    ensures o >= b ==> (Reaches(dir, a, o) <==> Reaches(dir, b, o))
    ensures o < b && Reaches(dir, a, o) && o < dir.size ==> !Listable(dir, o)
    decreases if a < b then b - a else 0
  {
    hide dir.Valid, Behind, Listable;
    if a < b {
      BehindAdvances(dir, a);
      ReachPast(dir, Behind(dir, a), b, o);
    }
  }

  // ----- which records continue a file -----

  /** From offset a to b there is nothing but padding. */
  ghost predicate PaddedTo(dir: Directory, a: nat, b: nat)
    decreases if a < b then b - a else 0
  {
    a == b || (a < b && a < dir.size && dir.slot(a).Padding? && PaddedTo(dir, NextSector(a), b))
  }

  /** These are the offsets of the records that continue a file from offset on:
      of its name, one behind the other, until one says that none follows; end
      is behind the last of them, or where something else stands. */
  ghost predicate Continues(dir: Directory, offset: nat, ident: Bytes, more: bool, starts: seq<nat>, end: nat)
    decreases |starts|
  {
    if !more then starts == [] && end == offset
    else if starts == [] then
      PaddedTo(dir, offset, end)
      && (end >= dir.size || dir.slot(end).Malformed? || (dir.slot(end).Record? && dir.slot(end).ident != ident))
    else
      var r := dir.slot(starts[0]);
      && PaddedTo(dir, offset, starts[0]) && starts[0] < dir.size && r.Record? && r.ident == ident
      && Continues(dir, starts[0] + r.len, ident, r.more, starts[1..], end)
  }

  lemma {:induction false} ContinuationsAreExact(dir: Directory, offset: nat, ident: Bytes, more: bool) returns (starts: seq<nat>)
    requires dir.Valid()
    ensures var (parts, end) := dir.Continuations(offset, ident, more);
            && Continues(dir, offset, ident, more, starts, end)
            && |starts| == |parts| && forall i :: 0 <= i < |parts| ==> dir.slot(starts[i]).Record? && parts[i] == dir.slot(starts[i]).node
    decreases dir.size - offset
  {
    hide dir.Valid, dir.Continuations, NextSector;
    starts := [];
    if !more || offset >= dir.size {
      NoContinuation(dir, offset, ident, more);
    } else {
      ContinuationsStep(dir, offset, ident);
      match dir.slot(offset)
      case Padding =>
        SectorAfter(offset);
        starts := ContinuationsAreExact(dir, NextSector(offset), ident, more);
        PaddingBefore(dir, offset, ident, starts, dir.Continuations(offset, ident, more).1);
      case Malformed =>
      case Record(len, ident', more', _, _, _) =>
        RecordFits(dir, offset);
        if ident' == ident {
          var rest := ContinuationsAreExact(dir, offset + len, ident, more');
          starts := [offset] + rest;
          assert starts[1..] == rest;
        }
    }
  }

  lemma {:induction false} SectorAfter(offset: nat)
    ensures NextSector(offset) > offset
  {
  }

  lemma {:induction false} PaddingBefore(dir: Directory, offset: nat, ident: Bytes, starts: seq<nat>, end: nat)
    requires offset < dir.size && dir.slot(offset).Padding? && Continues(dir, NextSector(offset), ident, true, starts, end)
    ensures Continues(dir, offset, ident, true, starts, end)
  {
    hide NextSector;
    SectorAfter(offset);
    PaddedOn(dir, NextSector(offset), if starts == [] then end else starts[0]);
  }

  lemma {:induction false} PaddedOn(dir: Directory, a: nat, b: nat)
    requires PaddedTo(dir, a, b)
    ensures a <= b
  {
  }

  // ----- listings in several calls -----

  function Nodes(items: seq<Item>): (r: seq<Node>)
    ensures |r| == |items| && forall i :: 0 <= i < |r| ==> r[i] == items[i].node
  {
    seq(|items|, i requires 0 <= i < |items| => items[i].node)
  }

  /** The cookie that stands for the first j items being past. */
  function CookieAt(items: seq<Item>, j: nat): nat
    requires j <= |items|
  {
    if j == 0 then 0 else items[j - 1].next
  }

  ghost predicate Ordered(items: seq<Item>) {
    && (forall i {:trigger items[i]} :: 0 <= i < |items| ==> items[i].start < items[i].next)
    && (forall i, j :: 0 <= i < j < |items| ==> items[i].next <= items[j].start)
  }

  /** From a cookie a listing goes on with the very next item. */
  lemma {:induction false} ResumePoint(items: seq<Item>, j: nat, k: nat)
    requires Ordered(items) && j <= k <= |items|
    ensures From(items[..k], CookieAt(items, j)) == Nodes(items[j..k])
    decreases k
  {
    hide Nodes;
    var cookie := CookieAt(items, j);
    if k == 0 {
    } else if k == j {
      BeforePoint(items, j, k);
    } else {
      ResumePoint(items, j, k - 1);
      assert items[..k] == items[..k - 1] + [items[k - 1]];
      FromAppend(items[..k - 1], items[k - 1], cookie);
      assert items[j..k] == items[j..k - 1] + [items[k - 1]];
    }
  }

  lemma {:induction false} BeforePoint(items: seq<Item>, j: nat, k: nat)
    requires Ordered(items) && k <= j <= |items|
    ensures From(items[..k], CookieAt(items, j)) == []
    decreases k
  {
    if k > 0 {
      BeforePoint(items, j, k - 1);
      assert items[..k] == items[..k - 1] + [items[k - 1]];
      FromAppend(items[..k - 1], items[k - 1], CookieAt(items, j));
    }
  }

  predicate Rising(past: nat, ends: seq<nat>, n: nat)
    decreases |ends|
  {
    ends == [] || (past <= ends[0] <= n && Rising(ends[0], ends[1..], n))
  }

  /** What calls tell that get past ends[0], ends[1], ... items, each started
      with the cookie of the one before. */
  function Told(items: seq<Item>, past: nat, ends: seq<nat>): seq<Node>
    requires past <= |items| && Rising(past, ends, |items|)
    decreases |ends|
  {
    if ends == [] then [] else From(items[..ends[0]], CookieAt(items, past)) + Told(items, ends[0], ends[1..])
  }

  function LastEnd(past: nat, ends: seq<nat>): nat
    decreases |ends|
  {
    if ends == [] then past else LastEnd(ends[0], ends[1..])
  }

  lemma {:induction false} ToldOnce(items: seq<Item>, past: nat, ends: seq<nat>)
    requires Ordered(items) && past <= |items| && Rising(past, ends, |items|)
    ensures past <= LastEnd(past, ends) <= |items| && Told(items, past, ends) == Nodes(items[past..LastEnd(past, ends)])
    decreases |ends|
  {
    hide From, Nodes, Ordered, CookieAt;
    if ends == [] {
      assert items[past..past] == [] && Nodes([]) == [];
    } else {
      var next, last := ends[0], LastEnd(past, ends);
      ResumePoint(items, past, next);
      ToldOnce(items, next, ends[1..]);
      assert items[past..last] == items[past..next] + items[next..last];
      NodesConcat(items[past..next], items[next..last]);
    }
  }

  lemma {:induction false} NodesConcat(a: seq<Item>, b: seq<Item>)
    ensures Nodes(a + b) == Nodes(a) + Nodes(b)
  {
  }

  /** However often a listing stops and resumes, every node is told once, in order. */
  lemma {:induction false} ResumedListingIsWhole(dir: Directory, ends: seq<nat>)
    requires dir.Valid() && Rising(0, ends, |Listing(dir, [], 0).0|)
    ensures var items := Listing(dir, [], 0).0;
            LastEnd(0, ends) <= |items| && Told(items, 0, ends) == Nodes(items[..LastEnd(0, ends)])
  {
    hide dir.Valid, Listing, From, Nodes, Told, Rising;
    var items := Listing(dir, [], 0).0;
    ListingOrdered(dir, [], 0);
    ToldOnce(items, 0, ends);
    assert items[0..LastEnd(0, ends)] == items[..LastEnd(0, ends)];
  }

  /** Listed names differ, ignoring case. */
  lemma {:induction false} ListedNamesDiffer(dir: Directory, held: seq<Name>, offset: nat)
    requires dir.Valid()
    ensures var items := Listing(dir, held, offset).0;
            && (forall i :: 0 <= i < |items| ==> !NameFix.Taken(held, items[i].node.name))
            && forall i, j :: 0 <= i < j < |items| ==> !SameName(items[i].node.name, items[j].node.name)
    decreases dir.size - offset
  {
    hide NameFix.Settle, NameFix.Taken, dir.EntryAt, dir.Valid, Listing, SameName;
    if offset >= dir.size {
      EndOfListing(dir, held, offset);
    } else {
      ListingStep(dir, held, offset);
      var (entry, next) := dir.EntryAt(offset);
      if entry.None? {
        ListedNamesDiffer(dir, held, next);
      } else {
        assert dir.nameSize > 0 by { SizeIsPositive(dir); }
        NameFix.SettledIsNew(held, entry.value.name, dir.nameSize);
        var s := NameFix.Settle(held, entry.value.name, dir.nameSize);
        if s.Issued? {
          ListedNamesDiffer(dir, held + [s.name], next);
          forall n: Name {
            NameFix.TakenGrows(held, s.name, n);
          }
        }
      }
    }
  }

  lemma {:induction false} SizeIsPositive(dir: Directory)
    requires dir.Valid()
    ensures dir.nameSize > 0
  {
  }
}
