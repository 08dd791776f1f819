/**
 What the block cache is, seen from outside its index structures: cached lines
 in order of use, free slots, and the effect of each operation on them.
 */
module CacheModel {
  import opened Basics
  import opened BlockDevice

  /** Longest clustered miss read, in sectors. */
  const READAHEAD: nat := 8
  /** Smallest capacity, in entries, for which misses are clustered. */
  const CLUSTER_CAPACITY: nat := 32

  /** One cached sector: its entry, its address, the time of its last use, its bytes. */
  datatype Line = Line(slot: nat, lba: Lba, stamp: nat, data: Bytes)

  /** lines has the most recently used first; replaced counts the sectors ever
      dropped; asked counts the device requests. */
  datatype State = State(lines: seq<Line>, free: seq<nat>, clock: nat, replaced: nat,
                         lastMiss: Lba, asked: nat)

  datatype Result = Found(slot: nat) | DeviceError

  /** Position of the line for lba, or -1. */
  function Find(lines: seq<Line>, lba: Lba): (k: int)
    ensures -1 <= k < |lines|
    ensures k >= 0 ==> lines[k].lba == lba
    ensures forall j :: 0 <= j < (if k < 0 then |lines| else k) ==> lines[j].lba != lba
  {
    if lines == [] then -1
    else if lines[0].lba == lba then 0
    else
      var k := Find(lines[1..], lba);
      if k < 0 then -1 else k + 1
  }

  /** Line k becomes the most recently used one. */
  function Touch(a: State, k: nat): State
    requires k < |a.lines|
  {
    a.(lines := [a.lines[k].(stamp := a.clock)] + a.lines[..k] + a.lines[k + 1..])
  }

  predicate Full(a: State) {
    a.free == []
  }

  /** A sector goes into a free entry, or replaces the last line. */
  function Install(a: State, lba: Lba, data: Bytes): State
    requires a.lines != [] || a.free != []
  {
    if Full(a) then
      var last := |a.lines| - 1;
      a.(lines := [Line(a.lines[last].slot, lba, a.clock, data)] + a.lines[..last],
         replaced := a.replaced + 1)
    else
      a.(lines := [Line(a.free[0], lba, a.clock, data)] + a.lines, free := a.free[1..])
  }

  /** Bytes written into the buffer of the entry to be replaced. */
  function Overwrite(a: State, data: Bytes): State
    requires a.lines != [] || a.free != []
  {
    if Full(a) then
      var last := |a.lines| - 1;
      a.(lines := a.lines[last := a.lines[last].(data := data)])
    else a
  }

  /** Sectors from lba on that one clustered read would fetch, given the first n. */
  function RunLength(lines: seq<Line>, lba: Lba, n: nat): (r: nat)
    requires 1 <= n <= READAHEAD && lba + n <= LBA_LIMIT
    ensures n <= r <= READAHEAD && lba + r <= LBA_LIMIT
    ensures forall x: Lba :: lba + n <= x < lba + r ==> Find(lines, x) < 0
    decreases READAHEAD - n
  {
    if n < READAHEAD && lba + n < LBA_LIMIT && Find(lines, lba + n) < 0
    then RunLength(lines, lba, n + 1) else n
  }

  /** Install n sectors read from lba on, the last one first. */
  function InstallRun(d: Drive, a: State, lba: Lba, n: nat): State
    requires lba + n <= LBA_LIMIT && (a.lines != [] || a.free != [])
    decreases n
  {
    if n == 0 then a
    else InstallRun(d, Install(a, lba + n - 1, d.sector(lba + n - 1)), lba, n - 1)
  }

  /** A miss served by one request for one sector, read into the entry to be replaced. */
  function ReadSingle(d: Drive, a: State, lba: Lba): (State, Result)
    requires a.lines != [] || a.free != []
  {
    var asking := a.(lastMiss := lba, asked := a.asked + 1);
    match d.reply(a.asked, lba, 1)
    case Delivered =>
      var b := Install(asking, lba, d.sector(lba));
      (b, Found(b.lines[0].slot))
    case Refused => (asking, DeviceError)
    case Scribbled(left) => (Overwrite(asking, left), DeviceError)
  }

  function ReadMiss(d: Drive, clustering: bool, a: State, lba: Lba): (State, Result)
    requires a.lines != [] || a.free != []
  {
    if clustering && lba == (a.lastMiss + 1) % LBA_LIMIT then
      var run := RunLength(a.lines, lba, 1);
      if run > 1 then
        var asking := a.(asked := a.asked + 1);
        if d.reply(a.asked, lba, run).Delivered? then
          var b := InstallRun(d, asking, lba, run).(lastMiss := lba + run - 1);
          (b, if b.lines == [] then DeviceError else Found(b.lines[0].slot))
        else ReadSingle(d, asking, lba)
      else ReadSingle(d, a, lba)
    else ReadSingle(d, a, lba)
  }

  /** One sector read through the cache. */
  function Read(d: Drive, clustering: bool, a: State, lba: Lba): (State, Result)
    requires a.lines != [] || a.free != []
  {
    var b := a.(clock := a.clock + 1);
    var k := Find(b.lines, lba);
    if k >= 0 then (Touch(b, k), Found(b.lines[k].slot))
    else ReadMiss(d, clustering, b, lba)
  }

  /** A read that is served only when the sector is cached. */
  function ReadCached(a: State, lba: Lba): (State, Result)
  {
    var k := Find(a.lines, lba);
    if k >= 0 then (Touch(a.(clock := a.clock + 1), k), Found(a.lines[k].slot))
    else (a, DeviceError)
  }

  /** Keep a sector somebody else has read. */
  function Retain(a: State, lba: Lba, data: Bytes): State
    requires a.lines != [] || a.free != []
  {
    if Find(a.lines, lba) >= 0 then a else Install(a, lba, data)
  }

  /** Drop everything. */
  function Flush(a: State): (b: State)
    ensures b.lines == [] && |b.free| == |a.lines| + |a.free|
  {
    a.(lines := [], free := seq(|a.lines| + |a.free|, i => i), replaced := a.replaced + 1)
  }

  // ----- invariants -----

  predicate Apart(x: Line, y: Line) {
    x.slot != y.slot && x.lba != y.lba
  }

  /** No slot and no sector twice, the latest used line first. */
  ghost predicate LinesOk(lines: seq<Line>, capacity: nat, clock: nat) {
    && (forall i :: 0 <= i < |lines| ==> lines[i].slot < capacity && lines[i].stamp <= clock)
    && (forall i, j :: 0 <= i < j < |lines| ==> Apart(lines[i], lines[j]) && lines[i].stamp >= lines[j].stamp)
  }

  /** The free slots are the other ones. */
  ghost predicate FreeOk(lines: seq<Line>, free: seq<nat>, capacity: nat) {
    && (forall i :: 0 <= i < |free| ==> free[i] < capacity)
    && NoDup(free)
    && (forall i, j :: 0 <= i < |lines| && 0 <= j < |free| ==> lines[i].slot != free[j])
  }

  ghost predicate Inv(a: State) {
    var capacity := |a.lines| + |a.free|;
    capacity > 0 && LinesOk(a.lines, capacity, a.clock) && FreeOk(a.lines, a.free, capacity)
  }

  /** Every cached sector is the medium's. */
  ghost predicate Coherent(d: Drive, lines: seq<Line>) {
    forall i :: 0 <= i < |lines| ==> lines[i].data == d.sector(lines[i].lba)
  }

  lemma {:induction false} TouchLines(a: State, k: nat)
    requires k < |a.lines|
    ensures var b := Touch(a, k);
            && |b.lines| == |a.lines| && b == a.(lines := b.lines)
            && b.lines[0] == a.lines[k].(stamp := a.clock)
            && (forall i :: 0 < i <= k ==> b.lines[i] == a.lines[i - 1])
            && (forall i :: k < i < |a.lines| ==> b.lines[i] == a.lines[i])
  {
  }

  lemma {:induction false} TouchKeepsInv(d: Drive, a: State, k: nat)
    requires Inv(a) && k < |a.lines|
    ensures Inv(Touch(a, k))
    ensures Coherent(d, a.lines) ==> Coherent(d, Touch(a, k).lines)
  {
    hide Touch;
    TouchLines(a, k);
  }

  /** The entry the next sector goes into. */
  function Victim(a: State): nat
    requires a.lines != [] || a.free != []
  {
    if Full(a) then a.lines[|a.lines| - 1].slot else a.free[0]
  }

  lemma {:induction false} InstallShape(a: State, lba: Lba, data: Bytes)
    requires a.lines != [] || a.free != []
    ensures var b := Install(a, lba, data);
            && |b.lines| == |a.lines| + (if Full(a) then 0 else 1) && |b.lines| + |b.free| == |a.lines| + |a.free|
            && b.lines[0] == Line(Victim(a), lba, a.clock, data)
            && b.clock == a.clock && b.asked == a.asked && b.lastMiss == a.lastMiss
            && b.replaced == a.replaced + (if Full(a) then 1 else 0)
            && b.free == (if Full(a) then [] else a.free[1..])
  {
  }

  lemma {:induction false} InstallLines(a: State, lba: Lba, data: Bytes)
    requires a.lines != [] || a.free != []
    ensures var b := Install(a, lba, data);
            forall i :: 0 < i < |b.lines| ==> i - 1 < |a.lines| && b.lines[i] == a.lines[i - 1]
  {
  }

  lemma {:induction false} InstallKeepsInv(d: Drive, a: State, lba: Lba, data: Bytes)
    requires Inv(a) && Find(a.lines, lba) < 0
    ensures Inv(Install(a, lba, data))
    ensures Coherent(d, a.lines) && data == d.sector(lba) ==> Coherent(d, Install(a, lba, data).lines)
  {
    hide Install;
    InstallShape(a, lba, data);
    InstallLines(a, lba, data);
  }

  /** A sector absent before installing another one is absent after. */
  lemma {:induction false} InstallFinds(a: State, lba: Lba, data: Bytes, other: Lba)
    requires a.lines != [] || a.free != []
    requires Find(a.lines, other) < 0 && other != lba
    ensures Find(Install(a, lba, data).lines, other) < 0
  {
    hide Install;
    InstallShape(a, lba, data);
    InstallLines(a, lba, data);
  }

  /** None of n sectors from lba on is cached. */
  ghost predicate Absent(lines: seq<Line>, lba: Lba, n: nat) {
    lba + n <= LBA_LIMIT && forall x: Lba :: lba <= x < lba + n ==> Find(lines, x) < 0
  }

  /** Installing the last of absent sectors leaves the others absent. */
  lemma {:induction false} InstallLeavesAbsent(a: State, lba: Lba, n: nat, data: Bytes)
    requires (a.lines != [] || a.free != []) && n > 0 && Absent(a.lines, lba, n)
    ensures Find(a.lines, lba + n - 1) < 0 && Absent(Install(a, lba + n - 1, data).lines, lba, n - 1)
  {
    hide Install, Find;
    var top: Lba := lba + n - 1;
    var b := Install(a, top, data);
    forall x: Lba | lba <= x < top
      ensures Find(b.lines, x) < 0
    {
      InstallFinds(a, top, data, x);
    }
  }

  lemma {:induction false} InstallRunKeepsInv(d: Drive, a: State, lba: Lba, n: nat)
    requires Inv(a) && Absent(a.lines, lba, n)
    ensures lba + n <= LBA_LIMIT && (a.lines != [] || a.free != [])
    ensures var b := InstallRun(d, a, lba, n);
            Inv(b) && (Coherent(d, a.lines) ==> Coherent(d, b.lines))
    decreases n
  {
    hide Install, Inv, Coherent, Find, Absent;
    AskingKeepsInv(a);
    IsRun(a.lines, lba, n);
    if n > 0 {
      var top := lba + n - 1;
      var b := Install(a, top, d.sector(top));
      InstallLeavesAbsent(a, lba, n, d.sector(top));
      InstallKeepsInv(d, a, top, d.sector(top));
      InstallShape(a, top, d.sector(top));
      InstallRunKeepsInv(d, b, lba, n - 1);
    }
  }

  lemma {:induction false} IsRun(lines: seq<Line>, lba: Lba, n: nat)
    requires Absent(lines, lba, n)
    ensures lba + n <= LBA_LIMIT
  {
  }

  lemma {:induction false} InstallRunShape(d: Drive, a: State, lba: Lba, n: nat)
    requires lba + n <= LBA_LIMIT && (a.lines != [] || a.free != [])
    ensures var b := InstallRun(d, a, lba, n);
            && |b.lines| + |b.free| == |a.lines| + |a.free|
            && b.clock == a.clock && b.asked == a.asked && b.lastMiss == a.lastMiss && b.replaced >= a.replaced
            && (n > 0 ==> b.lines != [] && b.lines[0] == Line(b.lines[0].slot, lba, a.clock, d.sector(lba)))
    decreases n
  {
    if n > 0 {
      hide Install;
      var top := lba + n - 1;
      InstallShape(a, top, d.sector(top));
      InstallRunShape(d, Install(a, top, d.sector(top)), lba, n - 1);
    }
  }

  /** The buffer of the entry to be replaced matters to nothing but its own line. */
  lemma {:induction false} OverwriteKeepsInv(a: State, data: Bytes)
    requires Inv(a)
    ensures var b := Overwrite(a, data);
            && Inv(b) && |b.lines| == |a.lines| && b == a.(lines := b.lines) && Victim(b) == Victim(a)
            && (!Full(a) || a.lines[|a.lines| - 1].data == data ==> b == a)
  {
  }

  lemma {:induction false} OverwriteFinds(a: State, data: Bytes, lba: Lba)
    requires a.lines != [] || a.free != []
    ensures Find(Overwrite(a, data).lines, lba) == Find(a.lines, lba)
  {
    var b := Overwrite(a, data);
    assert forall i :: 0 <= i < |a.lines| ==> b.lines[i].lba == a.lines[i].lba;
  }

  lemma {:induction false} InstallOverwritten(a: State, lba: Lba, data: Bytes, left: Bytes)
    requires a.lines != [] || a.free != []
    ensures Install(Overwrite(a, left), lba, data) == Install(a, lba, data)
  {
  }

  lemma {:induction false} FindIs(a: State, k: nat, lba: Lba)
    requires Inv(a) && k < |a.lines| && a.lines[k].lba == lba
    ensures Find(a.lines, lba) == k
  {
  }

  // ----- reads agree with the medium -----

  /** What a failed one-sector request leaves: at most the bytes of the victim changed. */
  ghost predicate FailedRead(d: Drive, a: State, b: State, lba: Lba)
    requires a.lines != [] || a.free != []
  {
    && b == a.(lines := b.lines, lastMiss := lba, asked := b.asked)
    && b.asked > a.asked
    && match d.reply(b.asked - 1, lba, 1)
       case Delivered => false
       case Refused => b.lines == a.lines
       case Scribbled(left) => b.lines == Overwrite(a, left).lines
  }

  /** What a successful read leaves: the sector in front, all invariants kept. */
  ghost predicate GoodRead(d: Drive, a: State, b: State, lba: Lba, slot: nat) {
    && Inv(b) && |b.lines| + |b.free| == |a.lines| + |a.free|
    && b.lines != [] && b.lines[0].slot == slot && b.lines[0].lba == lba && b.lines[0].stamp == b.clock
    && (Coherent(d, a.lines) ==> Coherent(d, b.lines) && b.lines[0].data == d.sector(lba))
  }

  lemma {:induction false} ReadSingleSpec(d: Drive, a: State, lba: Lba)
    requires Inv(a) && Find(a.lines, lba) < 0
    ensures var (b, r) := ReadSingle(d, a, lba);
            match r
            case Found(slot) => GoodRead(d, a, b, lba, slot)
            case DeviceError => FailedRead(d, a, b, lba)
  {
    hide Install;
    var asking := a.(lastMiss := lba, asked := a.asked + 1);
    InstallKeepsInv(d, asking, lba, d.sector(lba));
    InstallShape(asking, lba, d.sector(lba));
  }

  lemma {:induction false} ReadMissSpec(d: Drive, clustering: bool, a: State, lba: Lba)
    requires Inv(a) && Find(a.lines, lba) < 0
    ensures var (b, r) := ReadMiss(d, clustering, a, lba);
            match r
            case Found(slot) => GoodRead(d, a, b, lba, slot)
            case DeviceError => FailedRead(d, a, b, lba)
  {
    hide ReadSingle, InstallRun, RunLength, Inv, Coherent, Find;
    var asking := a.(asked := a.asked + 1);
    var run := RunLength(a.lines, lba, 1);
    AskingKeepsInv(a);
    if !clustering || lba != (a.lastMiss + 1) % LBA_LIMIT || run <= 1 {
      ReadSingleSpec(d, a, lba);
    } else if d.reply(a.asked, lba, run).Delivered? {
      InstallRunKeepsInv(d, asking, lba, run);
      InstallRunShape(d, asking, lba, run);
      AskingKeepsInv(InstallRun(d, asking, lba, run));
    } else {
      ReadSingleSpec(d, asking, lba);
    }
  }

  /** The invariants speak of lines, free entries and the clock alone. */
  lemma {:induction false} AskingKeepsInv(a: State)
    requires Inv(a)
    ensures a.lines != [] || a.free != []
    ensures forall lastMiss: Lba, asked: nat :: Inv(a.(lastMiss := lastMiss, asked := asked))
    ensures forall asked: nat :: Inv(a.(asked := asked))
    ensures forall lastMiss: Lba :: Inv(a.(lastMiss := lastMiss))
  {
  }

  lemma {:induction false} FailedReadKeepsInv(d: Drive, a: State, b: State, lba: Lba)
    requires Inv(a) && FailedRead(d, a, b, lba)
    ensures Inv(b) && |b.lines| == |a.lines|
    ensures forall i :: 0 <= i < |a.lines| ==> b.lines[i] == a.lines[i].(data := b.lines[i].data)
    ensures forall i :: 0 <= i < |a.lines| && b.lines[i] != a.lines[i] ==> i == |a.lines| - 1 && Full(a)
  {
  }

  /** Reading keeps every invariant, and a sector found is the medium's,
      whether it was cached, read ahead or read alone. */
  lemma {:induction false} ReadReturnsMedium(d: Drive, clustering: bool, a: State, lba: Lba)
    requires Inv(a)
    ensures var (b, r) := Read(d, clustering, a, lba);
            && Inv(b) && |b.lines| + |b.free| == |a.lines| + |a.free|
            && (r.Found? ==> GoodRead(d, a, b, lba, r.slot))
            && (r.DeviceError? ==> FailedRead(d, a.(clock := a.clock + 1), b, lba))
  {
    hide ReadMiss, Touch;
    var b := a.(clock := a.clock + 1);
    var k := Find(b.lines, lba);
    if k >= 0 {
      TouchKeepsInv(d, b, k);
      TouchLines(b, k);
    } else {
      ReadMissSpec(d, clustering, b, lba);
      var (c, r) := ReadMiss(d, clustering, b, lba);
      if r.DeviceError? {
        FailedReadKeepsInv(d, b, c, lba);
      }
    }
  }

  // ----- requests -----

  /** A sector that is cached is read without any request. */
  ghost predicate Free(d: Drive, clustering: bool, a: State, lba: Lba)
    requires a.lines != [] || a.free != []
  {
    var (b, r) := Read(d, clustering, a, lba);
    r.Found? && b.asked == a.asked && b.lastMiss == a.lastMiss && b.replaced == a.replaced && b.free == a.free
  }

  lemma {:induction false} HitIsFree(d: Drive, clustering: bool, a: State, lba: Lba)
    requires (a.lines != [] || a.free != []) && Find(a.lines, lba) >= 0
    ensures Free(d, clustering, a, lba)
  {
  }

  /** A read of a cached sector that must not ask the device is the same read,
      and changes nothing when the sector is not there. */
  lemma {:induction false} ReadCachedIsRead(d: Drive, clustering: bool, a: State, lba: Lba)
    requires Inv(a)
    ensures if Find(a.lines, lba) >= 0 then ReadCached(a, lba) == Read(d, clustering, a, lba) && Free(d, clustering, a, lba)
            else ReadCached(a, lba) == (a, DeviceError)
  {
    hide Find, Touch, Inv, ReadMiss, Free;
    AskingKeepsInv(a);
    if Find(a.lines, lba) >= 0 {
      HitIsFree(d, clustering, a, lba);
    }
  }

  /** A sector retained is cached, with the bytes given unless it was there
      before; everything else is a line from before. */
  lemma {:induction false} RetainedIsCached(a: State, lba: Lba, data: Bytes)
    requires Inv(a)
    ensures var b := Retain(a, lba, data);
            && Find(b.lines, lba) >= 0 && (Find(a.lines, lba) >= 0 ==> b == a)
            && (Find(a.lines, lba) < 0 ==>
                  b.lines[0].lba == lba && b.lines[0].data == data && b.asked == a.asked
                  && |b.lines| == |a.lines| + (if Full(a) then 0 else 1) && forall i :: 0 < i < |b.lines| ==> b.lines[i] == a.lines[i - 1])
  {
    hide Install;
    InstallShape(a, lba, data);
    InstallLines(a, lba, data);
  }

  /** A run of sectors that cannot be made longer: none of the others is cached,
      and the next one is, or there is none, or the run is as long as it may be. */
  ghost predicate LongestRun(lines: seq<Line>, lba: Lba, run: nat) {
    && 1 <= run <= READAHEAD && lba + run <= LBA_LIMIT
    && (forall x: Lba :: lba < x < lba + run ==> Find(lines, x) < 0)
    && (run == READAHEAD || lba + run == LBA_LIMIT || Find(lines, lba + run) >= 0)
  }

  lemma {:induction false} RunIsLongest(lines: seq<Line>, lba: Lba, n: nat)
    requires 1 <= n <= READAHEAD && lba + n <= LBA_LIMIT && forall x: Lba :: lba < x < lba + n ==> Find(lines, x) < 0
    ensures LongestRun(lines, lba, RunLength(lines, lba, n))
    decreases READAHEAD - n
  {
    hide Find;
    if n < READAHEAD && lba + n < LBA_LIMIT && Find(lines, lba + n) < 0 {
      RunIsLongest(lines, lba, n + 1);
    }
  }

  /** A miss that follows the one before asks for a longest run of sectors at
      once; when the device gives it, all of the run is cached, so that reading
      its other sectors asks for nothing more. */
  lemma {:induction false} ReadAheadServes(d: Drive, a: State, lba: Lba) returns (run: nat)
    requires Inv(a) && Clusters(a, true) && Find(a.lines, lba) < 0 && lba == (a.lastMiss + 1) % LBA_LIMIT
    ensures LongestRun(a.lines, lba, run)
    ensures run > 1 && d.reply(a.asked, lba, run).Delivered? ==>
              var (b, r) := Read(d, true, a, lba);
              && r.Found? && b.asked == a.asked + 1 && b.lastMiss == lba + run - 1
              && (b.lines != [] || b.free != []) && forall x: Lba :: lba <= x < lba + run ==> Free(d, true, b, x)
    ensures run > 1 && !d.reply(a.asked, lba, run).Delivered? ==> AskedAlone(d, true, a, lba, a.asked + 1)
    ensures run == 1 ==> AskedAlone(d, true, a, lba, a.asked)
  {
    hide Find, Install, InstallRun, Inv, RunLength, Free;
    run := RunLength(a.lines, lba, 1);
    RunIsLongest(a.lines, lba, 1);
    AskingKeepsInv(a);
    var asking := a.(clock := a.clock + 1, asked := a.asked + 1);
    if run > 1 && d.reply(a.asked, lba, run).Delivered? {
      InstallRunLines(d, asking, lba, run);
      InstallRunShape(d, asking, lba, run);
      var b := Read(d, true, a, lba).0;
      forall x: Lba | lba <= x < lba + run
        ensures Free(d, true, b, x)
      {
        assert b.lines[x - lba].lba == x;
        FindSome(b.lines, x, x - lba);
        HitIsFree(d, true, b, x);
      }
    } else {
      SingleIsAlone(d, a, lba);
      SingleIsAlone(d, a.(asked := a.asked + 1), lba);
    }
  }

  lemma {:induction false} FindSome(lines: seq<Line>, lba: Lba, k: nat)
    requires k < |lines| && lines[k].lba == lba
    ensures Find(lines, lba) >= 0
  {
  }

  /** A read that in the end asks for its one sector, by request number n, and succeeds exactly when that does. */
  ghost predicate AskedAlone(d: Drive, clustering: bool, a: State, lba: Lba, n: nat)
    requires a.lines != [] || a.free != []
  {
    var (b, r) := Read(d, clustering, a, lba);
    b.asked == n + 1 && b.lastMiss == lba && (r.Found? <==> d.reply(n, lba, 1).Delivered?)
  }

  lemma {:induction false} SingleIsAlone(d: Drive, a: State, lba: Lba)
    requires a.lines != [] || a.free != []
    ensures var (b, r) := ReadSingle(d, a.(clock := a.clock + 1), lba);
            b.asked == a.asked + 1 && b.lastMiss == lba && (r.Found? <==> d.reply(a.asked, lba, 1).Delivered?)
  {
  }

  /** Any other miss asks for its sector alone. */
  lemma {:induction false} OtherMissIsAlone(d: Drive, clustering: bool, a: State, lba: Lba)
    requires Inv(a) && Find(a.lines, lba) < 0 && (!clustering || lba != (a.lastMiss + 1) % LBA_LIMIT)
    ensures AskedAlone(d, clustering, a, lba, a.asked)
  {
    hide Find, Install, Inv;
    AskingKeepsInv(a);
    SingleIsAlone(d, a, lba);
  }

  /** Sectors that the first request of a miss asks for. */
  function FirstRequest(clustering: bool, a: State, lba: Lba): (n: nat)
    ensures 1 <= n <= READAHEAD
  {
    if clustering && lba == (a.lastMiss + 1) % LBA_LIMIT then RunLength(a.lines, lba, 1) else 1
  }

  /** The reply to the one-sector request of a miss, the second one after a cluster that failed. */
  function SingleReply(d: Drive, clustering: bool, a: State, lba: Lba): Reply {
    d.reply(if FirstRequest(clustering, a, lba) > 1 then a.asked + 1 else a.asked, lba, 1)
  }

  /** Whether a read for a sector that is not cached, with no entry free, is
      going to overwrite the line used longest ago with bytes that are not its sector. */
  predicate SpoilsLine(d: Drive, clustering: bool, a: State, lba: Lba)
    requires a.lines != [] || a.free != []
  {
    && Find(a.lines, lba) < 0 && Full(a)
    && (FirstRequest(clustering, a, lba) > 1 ==> !d.reply(a.asked, lba, FirstRequest(clustering, a, lba)).Delivered?)
    && var reply := SingleReply(d, clustering, a, lba);
       reply.Scribbled? && reply.left != d.sector(a.lines[|a.lines| - 1].lba)
  }

  lemma {:induction false} MissEnds(d: Drive, clustering: bool, a: State, lba: Lba)
    requires Inv(a)
    ensures a.lines != [] || a.free != []
    ensures var n := FirstRequest(clustering, a, lba);
            if n > 1 && d.reply(a.asked, lba, n).Delivered?
            then ReadMiss(d, clustering, a, lba).1.Found?
            else ReadMiss(d, clustering, a, lba) == ReadSingle(d, if n > 1 then a.(asked := a.asked + 1) else a, lba)
  {
    hide RunLength, InstallRun, ReadSingle;
    var n := FirstRequest(clustering, a, lba);
    if n > 1 {
      InstallRunShape(d, a.(asked := a.asked + 1), lba, n);
    }
  }

  lemma {:induction false} SingleEnds(d: Drive, a: State, lba: Lba)
    requires a.lines != [] || a.free != []
    ensures var (b, r) := ReadSingle(d, a, lba);
            match d.reply(a.asked, lba, 1)
            case Delivered => r.Found?
            case Refused => r.DeviceError? && b.lines == a.lines
            case Scribbled(left) => r.DeviceError? && b.lines == Overwrite(a, left).lines
  {
    hide Install;
  }

  lemma {:induction false} OverwriteSpoils(d: Drive, a: State, left: Bytes)
    requires (a.lines != [] || a.free != []) && Coherent(d, a.lines)
    ensures Coherent(d, Overwrite(a, left).lines) <==> Full(a) ==> left == d.sector(a.lines[|a.lines| - 1].lba)
  {
    var b, last := Overwrite(a, left), |a.lines| - 1;
    if Full(a) && left != d.sector(a.lines[last].lba) {
      assert b.lines[last].data == left;
    }
  }

  /** Coherence survives a read exactly when it does not spoil a line in use. */
  lemma {:induction false} CoherentUnlessSpoiled(d: Drive, clustering: bool, a: State, lba: Lba)
    requires Inv(a) && Coherent(d, a.lines)
    ensures Coherent(d, Read(d, clustering, a, lba).0.lines) <==> !SpoilsLine(d, clustering, a, lba)
  {
    hide Inv, Find, FirstRequest, ReadMiss, ReadSingle, Overwrite, Touch, Coherent;
    ReadReturnsMedium(d, clustering, a, lba);
    if Find(a.lines, lba) < 0 {
      var n := FirstRequest(clustering, a, lba);
      var now := a.(clock := a.clock + 1);
      var asking := if n > 1 then now.(asked := a.asked + 1) else now;
      ClockTicks(clustering, a, lba);
      MissEnds(d, clustering, now, lba);
      SingleEnds(d, asking, lba);
      if SingleReply(d, clustering, a, lba).Scribbled? {
        OverwriteSpoils(d, asking, SingleReply(d, clustering, a, lba).left);
      }
    }
  }

  lemma {:induction false} ClockTicks(clustering: bool, a: State, lba: Lba)
    requires Inv(a)
    ensures Inv(a.(clock := a.clock + 1)) && FirstRequest(clustering, a.(clock := a.clock + 1), lba) == FirstRequest(clustering, a, lba)
  {
    hide RunLength;
  }

  /** A cache of one entry after such a read: the line still names its sector, and holds other bytes. */
  lemma {:induction false} SpoiledLine(d: Drive, a: State, left: Bytes)
    requires a == State([Line(0, 5, 0, d.sector(5))], [], 0, 0, 0, 0)
    requires d.reply(0, 6, 1) == Scribbled(left) && left != d.sector(5)
    ensures Inv(a) && Coherent(d, a.lines) && SpoilsLine(d, false, a, 6)
    ensures Read(d, false, a, 6) == (State([Line(0, 5, 0, left)], [], 1, 0, 6, 1), DeviceError)
    ensures !Coherent(d, Read(d, false, a, 6).0.lines)
  {
    assert Find(a.lines, 6) < 0;
    assert Overwrite(a, left).lines == [Line(0, 5, 0, left)];
    CoherentUnlessSpoiled(d, false, a, 6);
  }

  // ----- what is replaced, and when -----

  /** The sector a line held is still held, in the same entry, with the same bytes. */
  ghost predicate Survives(x: Line, lines: seq<Line>) {
    exists i :: 0 <= i < |lines| && lines[i].slot == x.slot && lines[i].lba == x.lba && lines[i].data == x.data
  }

  /** Every line that is dropped was last used no later than every line that stays. */
  ghost predicate DropsOldest(before: seq<Line>, after: seq<Line>) {
    forall i, j | 0 <= i < |before| && 0 <= j < |before| ::
      !Survives(before[i], after) && Survives(before[j], after) ==> before[i].stamp <= before[j].stamp
  }

  lemma {:induction false} TouchDropsNothing(a: State, k: nat)
    requires k < |a.lines|
    ensures forall i :: 0 <= i < |a.lines| ==> Survives(a.lines[i], Touch(a, k).lines)
  {
    hide Touch;
    TouchLines(a, k);
    var b := Touch(a, k);
    forall i | 0 <= i < |a.lines|
      ensures Survives(a.lines[i], b.lines)
    {
      assert Same(a.lines[i], b.lines[if i == k then 0 else if i < k then i + 1 else i]);
    }
  }

  predicate Same(x: Line, y: Line) {
    y.slot == x.slot && y.lba == x.lba && y.data == x.data
  }

  /** Behind the sectors just installed stand the old lines, less the last few. */
  lemma {:induction false} InstallRunLines(d: Drive, a: State, lba: Lba, n: nat)
    requires lba + n <= LBA_LIMIT && n <= |a.lines| + |a.free| && (a.lines != [] || a.free != [])
    ensures var b := InstallRun(d, a, lba, n);
            && n <= |b.lines| <= |a.lines| + n
            && |b.lines| == (if n <= |a.free| then |a.lines| + n else |a.lines| + |a.free|)
            && (b.replaced == a.replaced <==> |b.lines| == |a.lines| + n)
            && (forall i :: 0 <= i < n ==> b.lines[i].lba == lba + i && b.lines[i].stamp == a.clock)
            && (forall i :: n <= i < |b.lines| ==> b.lines[i] == a.lines[i - n])
    decreases n
  {
    if n > 0 {
      hide Install;
      var top := lba + n - 1;
      var b := Install(a, top, d.sector(top));
      InstallShape(a, top, d.sector(top));
      InstallLines(a, top, d.sector(top));
      InstallRunLines(d, b, lba, n - 1);
      InstallRunShape(d, b, lba, n - 1);
    }
  }

  /** When the lines that stay are the first ones of an ordered list, the oldest went. */
  lemma {:induction false} PrefixDropsOldest(a: State, after: seq<Line>, n: nat)
    requires Inv(a) && n <= |after| <= |a.lines| + n
    requires forall i :: 0 <= i < n ==> Find(a.lines, after[i].lba) < 0
    requires forall i :: n <= i < |after| ==> after[i] == a.lines[i - n]
    ensures DropsOldest(a.lines, after)
    ensures |after| == |a.lines| + n ==> forall i :: 0 <= i < |a.lines| ==> Survives(a.lines[i], after)
  {
    forall i | 0 <= i < |after| - n
      ensures Survives(a.lines[i], after)
    {
      assert Same(a.lines[i], after[i + n]);
    }
  }

  lemma {:induction false} NothingDropped(before: seq<Line>)
    ensures forall i :: 0 <= i < |before| ==> Survives(before[i], before)
  {
    assert forall i :: 0 <= i < |before| ==> Same(before[i], before[i]);
  }

  /** Only a cluster that fits a quarter of the cache is ever read ahead. */
  ghost predicate Clusters(a: State, clustering: bool) {
    clustering ==> |a.lines| + |a.free| >= CLUSTER_CAPACITY
  }

  lemma {:induction false} ReadMissDrops(d: Drive, clustering: bool, a: State, lba: Lba)
    requires Inv(a) && Find(a.lines, lba) < 0 && Clusters(a, clustering)
    ensures var b := ReadMiss(d, clustering, a, lba).0;
            && DropsOldest(a.lines, b.lines) && b.replaced >= a.replaced
            && (d.Careful() && b.replaced == a.replaced ==> forall i :: 0 <= i < |a.lines| ==> Survives(a.lines[i], b.lines))
  {
    hide Install, InstallRun, RunLength, Find, Survives;
    NothingDropped(a.lines);
    var asking := a.(asked := a.asked + 1);
    AskingKeepsInv(a);
    var run := RunLength(a.lines, lba, 1);
    if clustering && lba == (a.lastMiss + 1) % LBA_LIMIT && run > 1
       && d.reply(a.asked, lba, run).Delivered? {
      InstallRunLines(d, asking, lba, run);
      var after := InstallRun(d, asking, lba, run).lines;
      assert forall i :: 0 <= i < run ==> Find(a.lines, after[i].lba) < 0;
      PrefixDropsOldest(asking, after, run);
      InstallRunShape(d, asking, lba, run);
    } else {
      ReadSingleDrops(d, a, lba);
      ReadSingleDrops(d, asking, lba);
    }
  }

  lemma {:induction false} ReadSingleDrops(d: Drive, a: State, lba: Lba)
    requires Inv(a) && Find(a.lines, lba) < 0
    ensures var b := ReadSingle(d, a, lba).0;
            && DropsOldest(a.lines, b.lines) && b.replaced >= a.replaced
            && (d.Careful() && b.replaced == a.replaced ==> forall i :: 0 <= i < |a.lines| ==> Survives(a.lines[i], b.lines))
  {
    hide Install, Survives;
    NothingDropped(a.lines);
    var asking := a.(lastMiss := lba, asked := a.asked + 1);
    AskingKeepsInv(a);
    InstallShape(asking, lba, d.sector(lba));
    InstallLines(asking, lba, d.sector(lba));
    PrefixDropsOldest(asking, Install(asking, lba, d.sector(lba)).lines, 1);
    var reply := d.reply(a.asked, lba, 1);
    if reply.Scribbled? {
      OverwriteDropsOldest(asking, reply.left);
    }
  }

  /** A buffer overwritten by a failed request was that of the line used longest ago. */
  lemma {:induction false} OverwriteDropsOldest(a: State, left: Bytes)
    requires Inv(a)
    ensures DropsOldest(a.lines, Overwrite(a, left).lines)
  {
    var after := Overwrite(a, left).lines;
    forall i | 0 <= i < |a.lines| - 1
      ensures Survives(a.lines[i], after)
    {
      assert Same(a.lines[i], after[i]);
    }
    if a.free != [] {
      NothingDropped(a.lines);
    }
  }

  /** A read drops only sectors last used before all that stay, although it
      never looks at a time of use; and if failed requests leave their buffers
      alone it drops none unless it counts it. */
  lemma {:induction false} ReadDropsOldest(d: Drive, clustering: bool, a: State, lba: Lba)
    requires Inv(a) && Clusters(a, clustering)
    ensures var b := Read(d, clustering, a, lba).0;
            && DropsOldest(a.lines, b.lines) && b.replaced >= a.replaced
            && (d.Careful() && b.replaced == a.replaced ==> forall i :: 0 <= i < |a.lines| ==> Survives(a.lines[i], b.lines))
  {
    hide ReadMiss, Touch, Survives;
    var b := a.(clock := a.clock + 1);
    var k := Find(b.lines, lba);
    if k >= 0 {
      TouchDropsNothing(b, k);
      TouchLines(b, k);
    } else {
      ReadMissDrops(d, clustering, b, lba);
    }
  }

  // ----- whole runs -----

  datatype Op = ReadOp(lba: Lba) | CachedOp(lba: Lba) | RetainOp(lba: Lba) | FlushOp

  function Apply(d: Drive, clustering: bool, a: State, op: Op): State
    requires a.lines != [] || a.free != []
  {
    match op
    case ReadOp(lba) => Read(d, clustering, a, lba).0
    case CachedOp(lba) => ReadCached(a, lba).0
    case RetainOp(lba) => Retain(a, lba, d.sector(lba))
    case FlushOp => Flush(a)
  }

  /** What every operation keeps and what it drops. */
  ghost predicate GoodStep(d: Drive, clustering: bool, a: State, b: State) {
    && Inv(b) && Clusters(b, clustering) && (Coherent(d, a.lines) ==> Coherent(d, b.lines))
    && DropsOldest(a.lines, b.lines) && b.replaced >= a.replaced
    && (b.replaced == a.replaced ==> forall i :: 0 <= i < |a.lines| ==> Survives(a.lines[i], b.lines))
  }

  lemma {:induction false} ReadIsGood(d: Drive, clustering: bool, a: State, lba: Lba)
    requires Inv(a) && Clusters(a, clustering) && d.Careful()
    ensures GoodStep(d, clustering, a, Read(d, clustering, a, lba).0)
  {
    hide Read, Survives, DropsOldest, Inv, Coherent;
    ReadReturnsMedium(d, clustering, a, lba);
    ReadDropsOldest(d, clustering, a, lba);
    if Coherent(d, a.lines) {
      CoherentUnlessSpoiled(d, clustering, a, lba);
    }
  }

  lemma {:induction false} ReadCachedIsGood(d: Drive, clustering: bool, a: State, lba: Lba)
    requires Inv(a) && Clusters(a, clustering)
    ensures GoodStep(d, clustering, a, ReadCached(a, lba).0)
  {
    hide Touch, Survives;
    NothingDropped(a.lines);
    var k := Find(a.lines, lba);
    if k >= 0 {
      var b := a.(clock := a.clock + 1);
      TouchKeepsInv(d, b, k);
      TouchLines(b, k);
      TouchDropsNothing(b, k);
    }
  }

  lemma {:induction false} RetainIsGood(d: Drive, clustering: bool, a: State, lba: Lba)
    requires Inv(a) && Clusters(a, clustering)
    ensures GoodStep(d, clustering, a, Retain(a, lba, d.sector(lba)))
  {
    hide Install, Survives, Inv;
    NothingDropped(a.lines);
    AskingKeepsInv(a);
    if Find(a.lines, lba) < 0 {
      InstallKeepsInv(d, a, lba, d.sector(lba));
      InstallShape(a, lba, d.sector(lba));
      InstallLines(a, lba, d.sector(lba));
      PrefixDropsOldest(a, Install(a, lba, d.sector(lba)).lines, 1);
    }
  }

  lemma {:induction false} ApplyKeepsInv(d: Drive, clustering: bool, a: State, op: Op)
    requires Inv(a) && Clusters(a, clustering) && d.Careful()
    ensures GoodStep(d, clustering, a, Apply(d, clustering, a, op))
  {
    match op
    case ReadOp(lba) => hide Read, GoodStep; ReadIsGood(d, clustering, a, lba);
    case CachedOp(lba) => hide ReadCached, GoodStep; ReadCachedIsGood(d, clustering, a, lba);
    case RetainOp(lba) => hide Retain, GoodStep; RetainIsGood(d, clustering, a, lba);
    case FlushOp => EmptyDropsAll(a.lines);
  }

  lemma {:induction false} EmptyDropsAll(before: seq<Line>)
    ensures DropsOldest(before, [])
  {
  }

  ghost function Run(d: Drive, clustering: bool, a: State, ops: seq<Op>): State
    requires Inv(a) && Clusters(a, clustering) && d.Careful()
    decreases |ops|
  {
    if ops == [] then a
    else
      ApplyKeepsInv(d, clustering, a, ops[0]);
      Run(d, clustering, Apply(d, clustering, a, ops[0]), ops[1..])
  }

  /** Over any run the cache stays well formed, and indistinguishable from the medium if it was. */
  lemma {:induction false} RunStaysCoherent(d: Drive, clustering: bool, a: State, ops: seq<Op>)
    requires Inv(a) && Clusters(a, clustering) && d.Careful()
    ensures var b := Run(d, clustering, a, ops);
            Inv(b) && Clusters(b, clustering) && b.replaced >= a.replaced && (Coherent(d, a.lines) ==> Coherent(d, b.lines))
    decreases |ops|
  {
    if ops != [] {
      hide Apply, Inv, Clusters, Coherent;
      ApplyKeepsInv(d, clustering, a, ops[0]);
      RunStaysCoherent(d, clustering, Apply(d, clustering, a, ops[0]), ops[1..]);
    }
  }

  const GENERATION_LIMIT: int := 0x1_0000_0000

  /** While the 32-bit generation reads the same and fewer than 2^32 sectors
      were dropped, every entry still holds what it held, be that the medium's or not. */
  lemma {:induction false} GenerationPins(d: Drive, clustering: bool, a: State, ops: seq<Op>)
    requires Inv(a) && Clusters(a, clustering) && d.Careful()
    requires var b := Run(d, clustering, a, ops);
             && b.replaced % GENERATION_LIMIT == a.replaced % GENERATION_LIMIT
             && b.replaced - a.replaced < GENERATION_LIMIT
    ensures forall i :: 0 <= i < |a.lines| ==> Survives(a.lines[i], Run(d, clustering, a, ops).lines)
  {
    RunStaysCoherent(d, clustering, a, ops);
    CountPins(d, clustering, a, ops);
  }

  /** Reads of two sectors in turn. */
  function Alternating(n: nat, first: Lba, second: Lba): (ops: seq<Op>)
    ensures |ops| == n
  {
    if n == 0 then [] else [ReadOp(first)] + Alternating(n - 1, second, first)
  }

  lemma {:induction false} StepKeeps(d: Drive, clustering: bool, a: State, b: State)
    requires GoodStep(d, clustering, a, b)
    ensures Inv(b) && Clusters(b, clustering)
  {
  }

  lemma {:induction false} OnlyEntryMissed(d: Drive, a: State, lba: Lba)
    requires |a.lines| == 1 && a.free == [] && a.lines[0].lba != lba && d.AlwaysDelivers()
    ensures var b := Read(d, false, a, lba).0;
            |b.lines| == 1 && b.free == [] && b.lines[0].lba == lba && b.replaced == a.replaced + 1
  {
    hide RunLength, InstallRun;
    assert Find(a.lines, lba) < 0;
  }

  /** In a cache of one entry every such read drops the sector before. */
  lemma {:induction false} AlternatingMisses(d: Drive, a: State, n: nat, first: Lba, second: Lba)
    requires Inv(a) && Clusters(a, false) && d.Careful() && d.AlwaysDelivers()
    requires |a.lines| == 1 && a.free == [] && a.lines[0].lba != first && first != second
    ensures var b := Run(d, false, a, Alternating(n, first, second));
            && b.replaced == a.replaced + n && |b.lines| == 1
            && b.lines[0].lba == if n == 0 then a.lines[0].lba else if n % 2 == 1 then first else second
    decreases n
  {
    hide Read, Inv, Find, GoodStep;
    if n > 0 {
      var b := Read(d, false, a, first).0;
      ApplyKeepsInv(d, false, a, ReadOp(first));
      StepKeeps(d, false, a, b);
      OnlyEntryMissed(d, a, first);
      AlternatingMisses(d, b, n - 1, second, first);
      assert Alternating(n, first, second)[1..] == Alternating(n - 1, second, first);
    }
  }

  /** After 2^32 sectors dropped the generation reads the same, and the sector
      that was held is gone. */
  lemma {:induction false} GenerationWraps(d: Drive, a: State, first: Lba, second: Lba)
    requires Inv(a) && Clusters(a, false) && d.Careful() && d.AlwaysDelivers() && |a.lines| == 1 && a.free == []
    requires a.lines[0].lba != first && a.lines[0].lba != second && first != second
    ensures var b := Run(d, false, a, Alternating(GENERATION_LIMIT, first, second));
            && b.replaced % GENERATION_LIMIT == a.replaced % GENERATION_LIMIT
            && b.replaced - a.replaced == GENERATION_LIMIT
            && !Survives(a.lines[0], b.lines)
  {
    hide Run, Alternating;
    AlternatingMisses(d, a, GENERATION_LIMIT, first, second);
  }

  lemma {:induction false} CountPins(d: Drive, clustering: bool, a: State, ops: seq<Op>)
    requires Inv(a) && Clusters(a, clustering) && d.Careful()
    requires Run(d, clustering, a, ops).replaced == a.replaced
    ensures forall i :: 0 <= i < |a.lines| ==> Survives(a.lines[i], Run(d, clustering, a, ops).lines)
    decreases |ops|
  {
    if ops == [] {
      NothingDropped(a.lines);
    } else {
      hide Apply, Inv, Clusters, Coherent;
      ApplyKeepsInv(d, clustering, a, ops[0]);
      var b := Apply(d, clustering, a, ops[0]);
      RunStaysCoherent(d, clustering, b, ops[1..]);
      CountPins(d, clustering, b, ops[1..]);
      var c := Run(d, clustering, b, ops[1..]);
      forall i | 0 <= i < |a.lines|
        ensures Survives(a.lines[i], c.lines)
      {
        var j :| 0 <= j < |b.lines| && Same(a.lines[i], b.lines[j]);
        assert Survives(b.lines[j], c.lines);
      }
    }
  }

  // ----- ages -----

  /** The age an entry carries: the time of its last use in 32 bits. */
  function Age(x: Line): int {
    x.stamp % GENERATION_LIMIT
  }

  ghost predicate AgesOrdered(a: State) {
    forall i, j :: 0 <= i < j < |a.lines| ==> Age(a.lines[i]) >= Age(a.lines[j])
  }

  /** All lines were used in the same turn of the 32-bit clock as now. */
  ghost predicate InTurn(a: State) {
    forall i :: 0 <= i < |a.lines| ==> a.lines[i].stamp / GENERATION_LIMIT == a.clock / GENERATION_LIMIT
  }

  /** Ages do not increase from the first line to the last while all uses fall
      into the same turn of the 32-bit clock; and for uses less than 2^32 apart
      only then. */
  lemma {:induction false} AgesOrderedWithinATurn(a: State)
    requires Inv(a) && a.lines != []
    ensures var first, last := a.lines[0].stamp, a.lines[|a.lines| - 1].stamp;
            && (first / GENERATION_LIMIT == last / GENERATION_LIMIT ==> AgesOrdered(a))
            && (first - last < GENERATION_LIMIT && AgesOrdered(a) ==> first / GENERATION_LIMIT == last / GENERATION_LIMIT)
  {
    hide Age;
    var n := |a.lines|;
    AgesOfTwo(a.lines[0], a.lines[n - 1]);
    forall i, j | 0 <= i < j < n
      ensures a.lines[0].stamp / GENERATION_LIMIT == a.lines[n - 1].stamp / GENERATION_LIMIT ==> Age(a.lines[i]) >= Age(a.lines[j])
    {
      AgesOfTwo(a.lines[i], a.lines[j]);
      assert a.lines[0].stamp >= a.lines[i].stamp >= a.lines[j].stamp >= a.lines[n - 1].stamp;
    }
  }

  lemma {:induction false} AgesOfTwo(x: Line, y: Line)
    requires x.stamp >= y.stamp
    ensures x.stamp / GENERATION_LIMIT == y.stamp / GENERATION_LIMIT ==> Age(x) >= Age(y)
    ensures x.stamp - y.stamp < GENERATION_LIMIT && Age(x) >= Age(y) ==> x.stamp / GENERATION_LIMIT == y.stamp / GENERATION_LIMIT
  {
  }

  /** One operation took place: what is in front was used now, the rest are lines from before. */
  ghost predicate UsedNow(a: State, b: State) {
    && b.clock == a.clock + 1 && b.lines != [] && b.lines[0].stamp == b.clock
    && forall i :: 0 <= i < |b.lines| ==> b.lines[i].stamp == b.clock || exists j :: 0 <= j < |a.lines| && a.lines[j] == b.lines[i]
  }

  /** Ages stay ordered over a use exactly when no line kept has a greater age
      than the 32-bit clock now shows; within a turn that is until the clock comes
      round to 0, and then exactly when no line kept has a positive age. */
  lemma {:induction false} UseKeepsAges(a: State, b: State)
    requires Inv(a) && Inv(b) && UsedNow(a, b) && AgesOrdered(a)
    ensures AgesOrdered(b) <==> forall i :: 0 <= i < |b.lines| ==> Age(b.lines[i]) <= b.clock % GENERATION_LIMIT
    ensures InTurn(a) && b.clock % GENERATION_LIMIT != 0 ==> AgesOrdered(b) && InTurn(b)
    ensures InTurn(a) && b.clock % GENERATION_LIMIT == 0 ==>
              (AgesOrdered(b) <==> forall i :: 0 <= i < |b.lines| ==> Age(b.lines[i]) == 0)
  {
    hide Age;
    FreshAge(a, b);
    var now := b.clock % GENERATION_LIMIT;
    forall i, j | 0 <= i < j < |b.lines|
      ensures Age(b.lines[j]) <= now ==> Age(b.lines[i]) >= Age(b.lines[j])
    {
      assert b.lines[i].stamp >= b.lines[j].stamp;
      if b.lines[i].stamp != b.clock {
        var p :| 0 <= p < |a.lines| && a.lines[p] == b.lines[i];
        var q :| 0 <= q < |a.lines| && a.lines[q] == b.lines[j];
        SameStampSameAge(a.lines[p], a.lines[q]);
      }
    }
  }

  lemma {:induction false} SameStampSameAge(x: Line, y: Line)
    ensures x.stamp == y.stamp ==> Age(x) == Age(y)
  {
  }

  lemma {:induction false} FreshAge(a: State, b: State)
    requires Inv(a) && UsedNow(a, b)
    ensures forall i :: 0 <= i < |b.lines| && b.lines[i].stamp == b.clock ==> Age(b.lines[i]) == b.clock % GENERATION_LIMIT
    ensures forall i :: 0 <= i < |b.lines| ==> Age(b.lines[i]) >= 0
    ensures InTurn(a) && b.clock % GENERATION_LIMIT != 0 ==>
              InTurn(b) && forall i :: 0 <= i < |b.lines| ==> Age(b.lines[i]) <= b.clock % GENERATION_LIMIT
  {
    if b.clock % GENERATION_LIMIT != 0 {
      assert b.clock / GENERATION_LIMIT == a.clock / GENERATION_LIMIT;
    }
  }

  /** Every read that succeeds is such a use. */
  lemma {:induction false} ReadUsesNow(d: Drive, clustering: bool, a: State, lba: Lba)
    requires Inv(a) && Clusters(a, clustering) && Read(d, clustering, a, lba).1.Found?
    ensures Inv(Read(d, clustering, a, lba).0) && UsedNow(a, Read(d, clustering, a, lba).0)
  {
    hide Inv, Touch, Install, InstallRun, RunLength, Find;
    ReadReturnsMedium(d, clustering, a, lba);
    var now := a.(clock := a.clock + 1);
    var k := Find(a.lines, lba);
    if k >= 0 {
      TouchLines(now, k);
    } else {
      AskingKeepsInv(a);
      var asking := now.(asked := a.asked + 1);
      var n := FirstRequest(clustering, a, lba);
      if n > 1 && d.reply(a.asked, lba, n).Delivered? {
        InstallRunLines(d, asking, lba, n);
      } else {
        var single := (if n > 1 then asking else now).(lastMiss := lba, asked := if n > 1 then a.asked + 2 else a.asked + 1);
        InstallShape(single, lba, d.sector(lba));
        InstallLines(single, lba, d.sector(lba));
      }
    }
  }

  /** A hit keeps ages ordered exactly when no other line has a greater age than
      the clock is going to show; within a turn that is when the clock does not
      come round now, or no other line has a positive age. */
  lemma {:induction false} HitKeepsAges(d: Drive, clustering: bool, a: State, lba: Lba)
    requires Inv(a) && AgesOrdered(a) && Find(a.lines, lba) >= 0
    ensures var k, b := Find(a.lines, lba), Read(d, clustering, a, lba).0;
            && (AgesOrdered(b) <==> forall i :: 0 <= i < |a.lines| && i != k ==> Age(a.lines[i]) <= (a.clock + 1) % GENERATION_LIMIT)
            && (InTurn(a) ==>
                  (AgesOrdered(b) <==> (a.clock + 1) % GENERATION_LIMIT != 0
                                       || forall i :: 0 <= i < |a.lines| && i != k ==> Age(a.lines[i]) == 0))
  {
    hide Inv, Touch, Age, AgesOrdered, InTurn;
    var k, b := Find(a.lines, lba), Read(d, clustering, a, lba).0;
    ReadReturnsMedium(d, clustering, a, lba);
    TouchLines(a.(clock := a.clock + 1), k);
    forall i | 0 <= i < |b.lines|
      ensures b.lines[i].stamp == b.clock || exists j :: 0 <= j < |a.lines| && a.lines[j] == b.lines[i]
    {
      assert i == 0 || b.lines[i] == a.lines[if i <= k then i - 1 else i];
    }
    UseKeepsAges(a, b);
    FreshAge(a, b);
    forall i | 0 <= i < |a.lines| && i != k
      ensures a.lines[i] == b.lines[if i < k then i + 1 else i]
    {
    }
  }

  /** Sectors that a read for one that is not cached brings in, if it succeeds. */
  function Brought(d: Drive, clustering: bool, a: State, lba: Lba): (m: nat)
    ensures 1 <= m <= READAHEAD
  {
    var n := FirstRequest(clustering, a, lba);
    if n > 1 && d.reply(a.asked, lba, n).Delivered? then n else 1
  }

  /** Lines that stay when m sectors are brought in. */
  function Kept(a: State, m: nat): (n: nat)
    requires m <= |a.lines| + |a.free|
    ensures n <= |a.lines|
  {
    if m <= |a.free| then |a.lines| else |a.lines| + |a.free| - m
  }

  /** After a miss that succeeds the sectors brought in are in front, used now, and behind them the lines kept. */
  lemma {:induction false} MissLines(d: Drive, clustering: bool, a: State, lba: Lba)
    requires Inv(a) && Clusters(a, clustering) && Find(a.lines, lba) < 0 && Read(d, clustering, a, lba).1.Found?
    ensures var m, b := Brought(d, clustering, a, lba), Read(d, clustering, a, lba).0;
            && m <= |a.lines| + |a.free| && b.clock == a.clock + 1 && |b.lines| == m + Kept(a, m)
            && (forall i :: 0 <= i < m ==> b.lines[i].stamp == b.clock)
            && (forall i :: m <= i < |b.lines| ==> b.lines[i] == a.lines[i - m])
  {
    hide Inv, Install, InstallRun, RunLength, Find;
    AskingKeepsInv(a);
    var now := a.(clock := a.clock + 1);
    var asking := now.(asked := a.asked + 1);
    var n := FirstRequest(clustering, a, lba);
    if n > 1 && d.reply(a.asked, lba, n).Delivered? {
      InstallRunLines(d, asking, lba, n);
      InstallRunShape(d, asking, lba, n);
    } else {
      var single := now.(lastMiss := lba, asked := if n > 1 then a.asked + 2 else a.asked + 1);
      InstallShape(single, lba, d.sector(lba));
      InstallLines(single, lba, d.sector(lba));
    }
  }

  /** A miss keeps ages ordered exactly when no line that it keeps has a greater
      age than the clock is going to show; within a turn that is when the clock
      does not come round now, or no line that it keeps has a positive age. */
  lemma {:induction false} MissKeepsAges(d: Drive, clustering: bool, a: State, lba: Lba)
    requires Inv(a) && Clusters(a, clustering) && AgesOrdered(a)
    requires Find(a.lines, lba) < 0 && Read(d, clustering, a, lba).1.Found?
    ensures var m, b := Brought(d, clustering, a, lba), Read(d, clustering, a, lba).0;
            && m <= |a.lines| + |a.free|
            && (AgesOrdered(b) <==> forall i :: 0 <= i < Kept(a, m) ==> Age(a.lines[i]) <= (a.clock + 1) % GENERATION_LIMIT)
            && (InTurn(a) ==>
                  (AgesOrdered(b) <==> (a.clock + 1) % GENERATION_LIMIT != 0
                                       || forall i :: 0 <= i < Kept(a, m) ==> Age(a.lines[i]) == 0))
  {
    hide Inv, Read, Brought, Kept, Age, AgesOrdered, InTurn, UsedNow;
    AskingKeepsInv(a);
    var m, b := Brought(d, clustering, a, lba), Read(d, clustering, a, lba).0;
    MissLines(d, clustering, a, lba);
    ReadUsesNow(d, clustering, a, lba);
    UseKeepsAges(a, b);
    FreshAge(a, b);
    forall i | 0 <= i < Kept(a, m)
      ensures a.lines[i] == b.lines[i + m]
    {
    }
  }

  /** A clock about to come round: the sector read next is in front with age 0,
      behind it stands one with the greatest age there is. */
  lemma {:induction false} AgesTurnOver(d: Drive, a: State)
    requires a == State([Line(0, 5, GENERATION_LIMIT - 1, d.sector(5)), Line(1, 6, GENERATION_LIMIT - 2, d.sector(6))], [],
                        GENERATION_LIMIT - 1, 0, 0, 0)
    ensures Inv(a) && AgesOrdered(a) && InTurn(a)
    ensures var b := Read(d, false, a, 6).0;
            |b.lines| == 2 && Age(b.lines[0]) == 0 && Age(b.lines[1]) == GENERATION_LIMIT - 1 && !AgesOrdered(b)
  {
    hide ReadMiss, RunLength;
    assert Find(a.lines, 6) == 1;
    assert Touch(a.(clock := GENERATION_LIMIT), 1).lines ==
           [Line(1, 6, GENERATION_LIMIT, d.sector(6)), Line(0, 5, GENERATION_LIMIT - 1, d.sector(5))];
  }
}
