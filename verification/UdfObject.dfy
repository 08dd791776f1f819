/**
 Reading a UDF object: the allocation descriptors of its file entry, followed
 through continuation extents, as one stretch of bytes.
 */
module UdfObject {
  import opened Basics
  import opened BlockDevice
  import BlockCache
  import CacheModel
  import ByteReader

  const TAG_AED: nat := 258
  const TAG_FE: nat := 261
  const TAG_EFE: nat := 266
  const ALLOC_SHORT: nat := 0
  const ALLOC_LONG: nat := 1
  const ALLOC_EMBEDDED: nat := 3
  const MAX_CONTINUATIONS: nat := 4096
  const AD_BUFFER: nat := 2048

  /** What an allocation descriptor says of its extent. */
  datatype Kind = Recorded | Allocated | Unallocated | Continuation

  datatype Descriptor = Descriptor(kind: Kind, len: nat, block: Lba)

  /** The fields of a file entry that reading uses. */
  datatype FileEntry =
    | FileEntry(alloc: nat, size: nat, adOffset: nat, adLength: nat)
    | NoEntry(error: Error)

  // ----- decoding -----

  function Le16(b: Bytes, i: nat): (r: nat)
    requires i + 2 <= |b|
    ensures r < 0x1_0000
  {
    b[i] as nat + 0x100 * b[i + 1] as nat
  }

  function Le32(b: Bytes, i: nat): (r: nat)
    requires i + 4 <= |b|
    ensures r < 0x1_0000_0000
  {
    Le16(b, i) + 0x1_0000 * Le16(b, i + 2)
  }

  function Le64(b: Bytes, i: nat): (r: nat)
    requires i + 8 <= |b|
    ensures r < UINT64_LIMIT
  {
    Le32(b, i) + 0x1_0000_0000 * Le32(b, i + 4)
  }

  /** Sum of the first n bytes of a tag, but for its checksum byte. */
  function TagSum(b: Bytes, n: nat): bv8
    requires n <= |b|
  {
    if n == 0 then 0 else TagSum(b, n - 1) + (if n - 1 == 4 then 0 else b[n - 1])
  }

  /** Identifier of the descriptor tag, when its checksum is right. */
  function Tag(b: Bytes): Option<nat>
    requires |b| >= 16
  {
    if TagSum(b, 16) == b[4] then Some(Le16(b, 0)) else None
  }

  predicate IsEntry(sector: Bytes)
    requires |sector| >= 16
  {
    Tag(sector) == Some(TAG_FE) || Tag(sector) == Some(TAG_EFE)
  }

  /** Bytes of a file entry before its extended attributes. */
  function FixedBytes(sector: Bytes): nat
    requires |sector| >= 16
  {
    if Tag(sector) == Some(TAG_FE) then 176 else 216
  }

  /** The fixed part, the extended attributes and the descriptors fit into a block. */
  predicate AreasFit(sector: Bytes, blockSize: nat)
    requires 16 <= |sector| && blockSize <= |sector|
  {
    var base := FixedBytes(sector);
    base <= blockSize && base + Le32(sector, base - 8) + Le32(sector, base - 4) <= blockSize
  }

  function ParseEntry(sector: Bytes, blockSize: nat): (r: FileEntry)
    requires 16 <= |sector| && blockSize <= |sector|
    ensures r.FileEntry? ==> r.adOffset + r.adLength <= blockSize <= AD_BUFFER && r.size < UINT64_LIMIT && blockSize >= 176
    ensures r.NoEntry? ==> r.error in {Corrupt, BadFormat, Unsupported}
  {
    match Tag(sector)
    case None => NoEntry(Corrupt)
    case Some(id) =>
      if id != TAG_FE && id != TAG_EFE then NoEntry(BadFormat) else
      var base := if id == TAG_FE then 176 else 216;
      if blockSize < base then NoEntry(Corrupt) else
      var eaLength := Le32(sector, base - 8);
      var adLength := Le32(sector, base - 4);
      if blockSize > AD_BUFFER then NoEntry(Unsupported)
      else if eaLength > blockSize - base then NoEntry(Corrupt)
      else if adLength > blockSize - (base + eaLength) then NoEntry(Corrupt)
      else FileEntry(Le16(sector, 34) % 8, Le64(sector, 56), base + eaLength, adLength)
  }

  /** Which entries are refused, and with what; in a sound one the descriptors
      stand behind the fixed part and the extended attributes, inside the block. */
  lemma {:induction false} EntryOutcomes(sector: Bytes, blockSize: nat)
    requires 16 <= |sector| && blockSize <= |sector|
    ensures var r := ParseEntry(sector, blockSize);
            && (r == NoEntry(BadFormat) <==> Tag(sector).Some? && !IsEntry(sector))
            && (r == NoEntry(Unsupported) <==> IsEntry(sector) && blockSize > AD_BUFFER)
            && (r.FileEntry? <==> IsEntry(sector) && blockSize <= AD_BUFFER && AreasFit(sector, blockSize))
            && (r == NoEntry(Corrupt) <==> Tag(sector).None? || (IsEntry(sector) && blockSize <= AD_BUFFER && !AreasFit(sector, blockSize)))
            && (r.FileEntry? ==>
                  var base := FixedBytes(sector);
                  && r.adOffset == base + Le32(sector, base - 8) && r.adLength == Le32(sector, base - 4)
                  && r.size == Le64(sector, 56) && r.alloc == Le16(sector, 34) % 8)
  {
    hide TagSum, Le16, Le32, Le64;
  }

  function DescriptorAt(run: Bytes, p: nat): (x: Descriptor)
    requires p + 8 <= |run|
    ensures x.len < 0x4000_0000
  {
    var field := Le32(run, p);
    var kind := match field / 0x4000_0000 case 0 => Recorded case 1 => Allocated case 2 => Unallocated case _ => Continuation;
    Descriptor(kind, field % 0x4000_0000, Le32(run, p + 4))
  }

  /** The descriptors of a run from byte p on; one cut short ends it. */
  function Parse(run: Bytes, adSize: nat, p: nat): seq<Descriptor>
    requires adSize >= 8
    decreases |run| - p
  {
    if p + adSize > |run| then [] else [DescriptorAt(run, p)] + Parse(run, adSize, p + adSize)
  }

  /** The run of descriptors in a continuation block. */
  function ContinuationRun(aed: Bytes, blockSize: nat): Option<Bytes>
    requires 24 <= blockSize <= |aed|
  {
    if Tag(aed) != Some(TAG_AED) then None else
    var alen := Le32(aed, 20);
    if alen > AD_BUFFER || 24 + alen > blockSize then None else Some(aed[24..24 + alen])
  }

  // ----- what an object holds -----

  datatype Volume = Volume(drive: Drive, partStart: Lba, blockSize: nat)
  {
    ghost predicate Valid() {
      drive.Valid() && 16 <= drive.sectorSize && blockSize <= drive.sectorSize
    }

    /** Sector of a block of the partition, in 32 bits. */
    function Phys(block: Lba): Lba {
      (partStart + block) % LBA_LIMIT
    }

    /** Bytes of an extent; unrecorded extents, and bytes past the end of the medium, are zero. */
    ghost function ExtentBytes(x: Descriptor): (r: Bytes)
      requires Valid()
      ensures |r| == x.len
    {
      var start := drive.Offset(Phys(x.block));
      seq(x.len, i requires 0 <= i < x.len => if x.kind == Recorded && start + i < drive.Size() then drive.ByteAt(start + i) else 0)
    }

    ghost function Content(xs: seq<Descriptor>): Bytes
      requires Valid()
    {
      if xs == [] then [] else Content(xs[..|xs| - 1]) + ExtentBytes(xs[|xs| - 1])
    }

    /** Bytes from..to of a recorded extent are on the medium. */
    ghost predicate OnMedium(x: Descriptor, from: int, to: int) {
      var stop := if to < x.len then to else x.len;
      x.kind == Recorded && from < stop && 0 < stop ==> drive.Offset(Phys(x.block)) + stop <= drive.Size()
    }

    /** Bytes from..to of the extents are on the medium. */
    ghost predicate Readable(xs: seq<Descriptor>, from: int, to: int)
      requires Valid()
    {
      xs != [] ==>
        var last := |xs| - 1;
        var start := |Content(xs[..last])|;
        OnMedium(xs[last], from - start, to - start) && Readable(xs[..last], from, to)
    }

    /** All extents that a run of descriptors leads to, in order, and how the
        list ends: Ok at a terminator or the end of a run, Corrupt at a
        continuation that is damaged or one too many. */
    ghost function Flatten(adSize: nat, ads: seq<Descriptor>, budget: nat): (seq<Descriptor>, Error)
      requires Valid() && adSize >= 8 && blockSize >= 24
      decreases budget, |ads|
    {
      if ads == [] then ([], Ok)
      else if ads[0].kind == Continuation then
        if budget == 0 then ([], Corrupt) else
        match ContinuationRun(drive.sector(Phys(ads[0].block)), blockSize)
        case None => ([], Corrupt)
        case Some(run) => Flatten(adSize, Parse(run, adSize, 0), budget - 1)
      else if ads[0].len == 0 then ([], Ok)
      else
        var (xs, end) := Flatten(adSize, ads[1..], budget);
        ([ads[0]] + xs, end)
    }
  }

  /** What a read of want bytes at offset makes of the extents xs: the bytes
      the file has there, unless a byte wanted is off the medium, the list
      ends badly before the last of them, or the device fails. */
  ghost predicate ReadsAs(v: Volume, xs: seq<Descriptor>, end: Error, offset: nat, want: nat, err: Error, len: nat, out: Bytes)
    requires v.Valid()
  {
    var content := v.Content(xs);
    && |out| == len <= want
    && (len > 0 ==> offset + len <= |content| && out == content[offset..offset + len])
    && match err
       case Ok => v.Readable(xs, offset, offset + want)
                  && if offset + want <= |content| then len == want
                     else end == Ok && len == if offset < |content| then |content| - offset else 0
       case Range => len < want && !v.Readable(xs, offset, offset + want)
       case Corrupt => len == 0 && end == Corrupt && offset + want > |content|
       case Io => len < want
       case _ => false
  }

  /** A continuation that leads back to itself ends the list badly. */
  lemma {:induction false} SelfContinuation(v: Volume, adSize: nat, block: Lba, run: Bytes, budget: nat)
    requires v.Valid() && adSize >= 8 && v.blockSize >= 24
    requires ContinuationRun(v.drive.sector(v.Phys(block)), v.blockSize) == Some(run)
    requires adSize <= |run| && DescriptorAt(run, 0).kind == Continuation && DescriptorAt(run, 0).block == block
    ensures v.Flatten(adSize, Parse(run, adSize, 0), budget) == ([], Corrupt)
  {
    if budget > 0 {
      SelfContinuation(v, adSize, block, run, budget - 1);
    }
  }

  /** Reads that follow one another give what one read gives. */
  lemma {:induction false} ReadsCompose(v: Volume, xs: seq<Descriptor>, end: Error, offset: nat, m: nat, n: nat,
                                        first: Bytes, second: Bytes, both: Bytes)
    requires v.Valid() && ReadsAs(v, xs, end, offset, m, Ok, |first|, first)
    requires ReadsAs(v, xs, end, offset + m, n, Ok, |second|, second)
    requires ReadsAs(v, xs, end, offset, m + n, Ok, |both|, both)
    ensures both == first + second
  {
    hide v.Content, v.Readable;
    var content := v.Content(xs);
  }

  lemma {:induction false} ReadableWithin(v: Volume, xs: seq<Descriptor>, from: int, to: int, from': int, to': int)
    requires v.Valid() && from <= from' && to' <= to && v.Readable(xs, from, to)
    ensures v.Readable(xs, from', to')
    decreases |xs|
  {
    hide v.Content;
    if xs != [] {
      ReadableWithin(v, xs[..|xs| - 1], from, to, from', to');
    }
  }

  /** Every stretch of an object whose descriptors are sound and cover it is
      read exactly, unless the device fails. */
  lemma {:induction false} SoundObjectRead(v: Volume, xs: seq<Descriptor>, end: Error, size: nat, offset: nat, want: nat,
                                           err: Error, len: nat, out: Bytes)
    requires v.Valid() && ReadsAs(v, xs, end, offset, want, err, len, out) && err != Io
    requires offset + want <= size <= |v.Content(xs)| && v.Readable(xs, 0, size)
    ensures err == Ok && len == want && out == v.Content(xs)[..size][offset..offset + want]
  {
    hide v.Content, v.Readable;
    ReadableWithin(v, xs, 0, size, offset, offset + want);
  }

  // ----- reading extent by extent -----

  /** The extents read so far gave the first done bytes, and all of theirs. */
  ghost predicate Gathered(v: Volume, past: seq<Descriptor>, offset: nat, want: nat, done: nat, out: Bytes)
    requires v.Valid()
  {
    var content := v.Content(past);
    && |out| == done <= want && v.Readable(past, offset, offset + want)
    && (done == want ==> offset + done <= |content|)
    && (done < want ==> (|content| <= offset && done == 0) || |content| == offset + done)
    && (done > 0 ==> offset + done <= |content| && out == content[offset..offset + done])
  }

  lemma {:induction false} ContentPrefix(v: Volume, a: seq<Descriptor>, b: seq<Descriptor>)
    requires v.Valid()
    ensures v.Content(a) <= v.Content(a + b)
    decreases |b|
  {
    if b == [] {
      assert a + b == a;
    } else {
      ContentPrefix(v, a, b[..|b| - 1]);
      assert (a + b)[..|a + b| - 1] == a + b[..|b| - 1];
    }
  }

  lemma {:induction false} ReadablePrefix(v: Volume, a: seq<Descriptor>, b: seq<Descriptor>, from: int, to: int)
    requires v.Valid()
    ensures v.Readable(a + b, from, to) ==> v.Readable(a, from, to)
    ensures to <= |v.Content(a)| && v.Readable(a, from, to) ==> v.Readable(a + b, from, to)
    decreases |b|
  {
    if b == [] {
      assert a + b == a;
    } else {
      ReadablePrefix(v, a, b[..|b| - 1], from, to);
      assert (a + b)[..|a + b| - 1] == a + b[..|b| - 1];
      ContentPrefix(v, a, b[..|b| - 1]);
    }
  }

  lemma {:induction false} Appended(v: Volume, past: seq<Descriptor>, x: Descriptor, from: int, to: int)
    requires v.Valid()
    ensures v.Content(past + [x]) == v.Content(past) + v.ExtentBytes(x)
    ensures v.Readable(past + [x], from, to) <==>
              v.Readable(past, from, to) && v.OnMedium(x, from - |v.Content(past)|, to - |v.Content(past)|)
  {
    assert (past + [x])[..|past|] == past;
  }

  lemma {:induction false} GatheredNothing(v: Volume, offset: nat, want: nat)
    requires v.Valid() && want > 0
    ensures Gathered(v, [], offset, want, 0, []) && v.Content([]) == []
  {
  }

  lemma {:induction false} SliceGrows(a: Bytes, b: Bytes, offset: nat, out: Bytes, skip: nat, part: Bytes)
    requires skip == offset + |out| - |a| && skip + |part| <= |b| && part == b[skip..skip + |part|]
    requires |out| > 0 ==> offset + |out| == |a| && out == a[offset..offset + |out|]
    ensures out + part == (a + b)[offset..offset + |out| + |part|]
  {
    if out == [] {
      assert (a + b)[offset..offset + |part|] == b[skip..skip + |part|];
    } else {
      assert (a + b)[offset..offset + |out| + |part|] == a[offset..] + b[..|part|];
    }
  }

  lemma {:induction false} Gather(v: Volume, past: seq<Descriptor>, x: Descriptor, offset: nat, want: nat,
                                  done: nat, out: Bytes, skip: nat, part: Bytes)
    requires v.Valid() && Gathered(v, past, offset, want, done, out) && done < want
    requires skip == offset + done - |v.Content(past)| && skip < x.len
    requires |part| == (if x.len - skip > want - done then want - done else x.len - skip)
    requires part == v.ExtentBytes(x)[skip..skip + |part|] && v.OnMedium(x, 0, skip + |part|)
    ensures Gathered(v, past + [x], offset, want, done + |part|, out + part)
  {
    hide v.ExtentBytes, v.Content, v.Readable;
    Appended(v, past, x, offset, offset + want);
    SliceGrows(v.Content(past), v.ExtentBytes(x), offset, out, skip, part);
  }

  lemma {:induction false} PassOver(v: Volume, past: seq<Descriptor>, x: Descriptor, offset: nat, want: nat, done: nat, out: Bytes)
    requires v.Valid() && Gathered(v, past, offset, want, done, out) && done < want
    requires 0 < x.len && |v.Content(past)| + x.len <= offset + done
    ensures Gathered(v, past + [x], offset, want, done, out)
  {
    hide v.ExtentBytes, v.Content, v.Readable;
    Appended(v, past, x, offset, offset + want);
  }

  /** A byte of x that is wanted and off the medium makes the object unreadable there. */
  lemma {:induction false} Unreadable(v: Volume, past: seq<Descriptor>, x: Descriptor, rest: seq<Descriptor>,
                                      offset: nat, want: nat, done: nat, out: Bytes)
    requires v.Valid() && Gathered(v, past, offset, want, done, out) && done < want
    requires |v.Content(past)| <= offset + done < |v.Content(past)| + x.len
    requires !v.OnMedium(x, offset + done - |v.Content(past)|, offset + want - |v.Content(past)|)
    ensures !v.Readable(past + [x] + rest, offset, offset + want)
  {
    hide v.ExtentBytes, v.Content, v.Readable;
    Appended(v, past, x, offset, offset + want);
    ReadablePrefix(v, past + [x], rest, offset, offset + want);
  }

  /** The loop has stopped: with all that was wanted, or at the end of the list. */
  lemma {:induction false} GatheredAll(v: Volume, past: seq<Descriptor>, rest: seq<Descriptor>, end: Error,
                                       offset: nat, want: nat, done: nat, out: Bytes)
    requires v.Valid() && Gathered(v, past, offset, want, done, out)
    requires done == want || (rest == [] && end == Ok)
    ensures ReadsAs(v, past + rest, end, offset, want, Ok, done, out)
  {
    hide v.Content, v.Readable;
    ContentPrefix(v, past, rest);
    ReadablePrefix(v, past, rest, offset, offset + want);
    if done < want {
      assert past + rest == past;
    }
  }

  /** The loop was cut short by err. */
  lemma {:induction false} GatheredSome(v: Volume, past: seq<Descriptor>, rest: seq<Descriptor>, end: Error,
                                        offset: nat, want: nat, done: nat, out: Bytes, err: Error)
    requires v.Valid() && Gathered(v, past, offset, want, done, out) && done < want
    requires err == Io || (err == Range && !v.Readable(past + rest, offset, offset + want))
    ensures ReadsAs(v, past + rest, end, offset, want, err, done, out)
    ensures ReadsAs(v, past + rest, end, offset, want, Io, 0, [])
    ensures rest == [] && end == Corrupt ==> ReadsAs(v, past + rest, end, offset, want, Corrupt, 0, [])
  {
    hide v.Content, v.Readable;
    ContentPrefix(v, past, rest);
    if rest == [] {
      assert past + rest == past;
    }
  }

  /** Reading chunk bytes of extent x failed. */
  lemma {:induction false} CutShort(v: Volume, past: seq<Descriptor>, x: Descriptor, rest: seq<Descriptor>, end: Error,
                                    offset: nat, want: nat, done: nat, out: Bytes, skip: nat, chunk: nat, err: Error)
    requires v.Valid() && Gathered(v, past, offset, want, done, out) && done < want
    requires skip == offset + done - |v.Content(past)| && skip < x.len
    requires chunk == if x.len - skip > want - done then want - done else x.len - skip
    requires err == Io || (err == Range && !v.OnMedium(x, skip, skip + chunk))
    ensures ReadsAs(v, past + ([x] + rest), end, offset, want, err, done, out)
  {
    hide v.Content, v.Readable;
    if err == Range {
      Unreadable(v, past, x, rest, offset, want, done, out);
      assert past + [x] + rest == past + ([x] + rest);
    }
    GatheredSome(v, past, [x] + rest, end, offset, want, done, out, err);
  }

  /** Bytes read from a recorded extent. */
  lemma {:induction false} RecordedBytes(v: Volume, x: Descriptor, skip: nat, n: nat)
    requires v.Valid() && x.kind == Recorded && skip + n <= x.len
    requires v.drive.Offset(v.Phys(x.block)) + skip + n <= v.drive.Size()
    ensures v.drive.Slice(v.drive.Offset(v.Phys(x.block)) + skip, n) == v.ExtentBytes(x)[skip..skip + n]
    ensures v.OnMedium(x, 0, skip + n)
  {
    hide v.drive.Offset, v.drive.Size, v.drive.ByteAt, v.Phys;
  }

  // ----- the read -----

  /** Bytes skip.. of one extent. */
  method ReadExtent(cache: BlockCache.Cache, v: Volume, x: Descriptor, skip: nat, n: nat) returns (err: Error, part: Bytes)
    requires ByteReader.Sound(cache) && v.drive == cache.device.drive && v.Valid()
    requires x.kind != Continuation && skip + n <= x.len < UINT64_LIMIT && 0 < n
    modifies cache, cache.entries, cache.buckets, cache.next, cache.device
    ensures ByteReader.Sound(cache)
    ensures match err
            case Ok => part == v.ExtentBytes(x)[skip..skip + n] && v.OnMedium(x, 0, skip + n)
            case Io => !v.drive.AlwaysDelivers()
            case Range => !v.OnMedium(x, skip, skip + n)
            case _ => false
  {
    hide CacheModel.Coherent, cache.Valid;
    var d := v.drive;
    hide d.Offset, d.Slice, d.ByteAt;
    if x.kind == Recorded {
      var len;
      assert v.Phys(x.block) + skip / d.sectorSize < UINT64_LIMIT;
      err, len, part := ByteReader.ReadBytes(cache, v.Phys(x.block), skip, n);
      if err == Ok {
        RecordedBytes(v, x, skip, n);
      }
    } else {
      err, part := Ok, seq(n, _ => 0);
    }
  }

  /** What the descriptor at byte p makes of the list. */
  lemma {:induction false} FlattenStep(v: Volume, adSize: nat, run: Bytes, p: nat, budget: nat)
    requires v.Valid() && adSize >= 8 && v.blockSize >= 24
    ensures var (xs, end) := v.Flatten(adSize, Parse(run, adSize, p), budget);
            if p + adSize > |run| then xs == [] && end == Ok else
            var x := DescriptorAt(run, p);
            if x.kind == Continuation then
              var next := ContinuationRun(v.drive.sector(v.Phys(x.block)), v.blockSize);
              if budget == 0 || next.None? then xs == [] && end == Corrupt
              else (xs, end) == v.Flatten(adSize, Parse(next.value, adSize, 0), budget - 1)
            else if x.len == 0 then xs == [] && end == Ok
            else xs != [] && xs[0] == x && (xs[1..], end) == v.Flatten(adSize, Parse(run, adSize, p + adSize), budget)
  {
    hide ContinuationRun, DescriptorAt;
    if p + adSize <= |run| {
      var x := DescriptorAt(run, p);
      assert Parse(run, adSize, p)[1..] == Parse(run, adSize, p + adSize);
    }
  }

  /** The descriptors of the continuation block at block. */
  method ReadContinuation(cache: BlockCache.Cache, v: Volume, block: Lba) returns (err: Error, run: Bytes)
    requires ByteReader.Sound(cache) && v.drive == cache.device.drive && v.Valid() && v.blockSize >= 24
    modifies cache, cache.entries, cache.buckets, cache.next, cache.device
    ensures ByteReader.Sound(cache)
    ensures err == Io ==> !v.drive.AlwaysDelivers()
    ensures err != Io ==> match ContinuationRun(v.drive.sector(v.Phys(block)), v.blockSize)
                          case None => err == Corrupt
                          case Some(r) => err == Ok && run == r
  {
    hide CacheModel.Coherent, cache.Valid, Tag, TagSum, Le32;
    var aed;
    run := [];
    err, aed := ByteReader.CopySector(cache, v.Phys(block), 0, v.drive.sectorSize);
    if err == Ok {
      assert aed == v.drive.sector(v.Phys(block));
      match ContinuationRun(aed, v.blockSize)
      case None => err := Corrupt;
      case Some(r) => run := r;
    }
  }

  /** Follow the descriptors of run, and gather want bytes from offset on. */
  method ReadDescribed(cache: BlockCache.Cache, v: Volume, adSize: nat, run0: Bytes, offset: nat, want: nat)
    returns (err: Error, len: nat, out: Bytes)
    requires ByteReader.Sound(cache) && v.drive == cache.device.drive && v.Valid() && v.blockSize >= 24
    requires adSize >= 8 && want > 0
    modifies cache, cache.entries, cache.buckets, cache.next, cache.device
    ensures ByteReader.Sound(cache)
    ensures var (xs, end) := v.Flatten(adSize, Parse(run0, adSize, 0), MAX_CONTINUATIONS);
            ReadsAs(v, xs, end, offset, want, err, len, out)
    ensures v.drive.AlwaysDelivers() ==> err != Io
  {
    hide CacheModel.Coherent, cache.Valid, v.Content, v.Readable, v.ExtentBytes, v.OnMedium, v.Flatten, Parse, ReadsAs, ContinuationRun, DescriptorAt;
    ghost var (all, end) := v.Flatten(adSize, Parse(run0, adSize, 0), MAX_CONTINUATIONS);
    ghost var past: seq<Descriptor> := [];
    ghost var rest := all;
    var run, p: nat, guard: nat, curPos: nat, done: nat := run0, 0, 0, 0, 0;
    out := [];
    GatheredNothing(v, offset, want);
    while done < want
      invariant ByteReader.Sound(cache) && guard <= MAX_CONTINUATIONS
      invariant Gathered(v, past, offset, want, done, out) && curPos == |v.Content(past)|
      invariant all == past + rest && v.Flatten(adSize, Parse(run, adSize, p), MAX_CONTINUATIONS - guard) == (rest, end)
      decreases MAX_CONTINUATIONS - guard, |run| - p
    {
      FlattenStep(v, adSize, run, p, MAX_CONTINUATIONS - guard);
      if p + adSize > |run| {
        break;
      }
      var x := DescriptorAt(run, p);
      if x.kind == Continuation {
        GatheredSome(v, past, rest, end, offset, want, done, out, Io);
        guard := guard + 1;
        if guard > MAX_CONTINUATIONS {
          return Corrupt, 0, [];
        }
        err, run := ReadContinuation(cache, v, x.block);
        if err != Ok {
          return err, 0, [];
        }
        p := 0;
        continue;
      }
      if x.len == 0 {
        break;
      }
      var extEnd := curPos + x.len;
      var start := offset + done;
      if start < extEnd {
        var skip := start - curPos;
        var chunk := extEnd - start;
        if chunk > want - done {
          chunk := want - done;
        }
        var part;
        err, part := ReadExtent(cache, v, x, skip, chunk);
        if err != Ok {
          assert rest == [x] + rest[1..];
          CutShort(v, past, x, rest[1..], end, offset, want, done, out, skip, chunk, err);
          return err, done, out;
        }
        Gather(v, past, x, offset, want, done, out, skip, part);
        done := done + chunk;
        out := out + part;
      } else {
        PassOver(v, past, x, offset, want, done, out);
      }
      Appended(v, past, x, 0, 0);
      past, rest := past + [x], rest[1..];
      curPos := extEnd;
      p := p + adSize;
    }
    err, len := Ok, done;
    GatheredAll(v, past, rest, end, offset, want, done, out);
  }

  /** What a read of up to len0 bytes at offset of the object at icb gives. */
  ghost predicate ObjectReads(v: Volume, icb: Lba, offset: nat, len0: nat, err: Error, len: nat, out: Bytes)
    requires v.Valid()
  {
    var sector := v.drive.sector(icb);
    match ParseEntry(sector, v.blockSize)
    case NoEntry(e) => err == e && len == 0
    case FileEntry(alloc, size, adOffset, adLength) =>
      var want := if offset >= size then 0 else if len0 > size - offset then size - offset else len0;
      if want == 0 then err == Ok && len == 0 && out == []
      else if alloc == ALLOC_EMBEDDED then
        if adOffset + size > v.blockSize then err == Corrupt && len == 0
        else err == Ok && len == want && out == sector[adOffset + offset..adOffset + offset + want]
      else if alloc == ALLOC_SHORT || alloc == ALLOC_LONG then
        var adSize := if alloc == ALLOC_SHORT then 8 else 16;
        var run := sector[adOffset..adOffset + adLength];
        var (xs, end) := v.Flatten(adSize, Parse(run, adSize, 0), MAX_CONTINUATIONS);
        ReadsAs(v, xs, end, offset, want, err, len, out)
      else err == Unsupported && len == 0
  }

  /** Read up to len0 bytes at offset of the object whose file entry is at icb. */
  method ReadObject(cache: BlockCache.Cache, v: Volume, icb: Lba, offset: nat, len0: nat) returns (err: Error, len: nat, out: Bytes)
    requires ByteReader.Sound(cache) && v.drive == cache.device.drive && v.Valid()
    modifies cache, cache.entries, cache.buckets, cache.next, cache.device
    ensures ByteReader.Sound(cache)
    ensures ObjectReads(v, icb, offset, len0, err, len, out) || (err == Io && len == 0)
    ensures v.drive.AlwaysDelivers() ==> err != Io
  {
    hide CacheModel.Coherent, cache.Valid, v.Content, v.Readable, v.ExtentBytes, v.OnMedium, v.Flatten, Parse, ReadsAs, ParseEntry;
    var sector;
    len, out := 0, [];
    err, sector := ByteReader.CopySector(cache, icb, 0, v.drive.sectorSize);
    if err != Ok {
      return;
    }
    assert sector == v.drive.sector(icb);
    match ParseEntry(sector, v.blockSize)
    case NoEntry(e) => err := e;
    case FileEntry(alloc, size, adOffset, adLength) =>
      var want := len0;
      if offset >= size {
        return;
      }
      if want > size - offset {
        want := size - offset;
      }
      if want == 0 {
        return;
      }
      if alloc == ALLOC_EMBEDDED {
        if adOffset + size > v.blockSize {
          err := Corrupt;
          return;
        }
        out := sector[adOffset + offset..adOffset + offset + want];
        len := want;
        return;
      }
      var adSize;
      if alloc == ALLOC_SHORT {
        adSize := 8;
      } else if alloc == ALLOC_LONG {
        adSize := 16;
      } else {
        err := Unsupported;
        return;
      }
      err, len, out := ReadDescribed(cache, v, adSize, sector[adOffset..adOffset + adLength], offset, want);
  }
}
