/**
 How UDF writes what the object reader decodes: fields of integers, descriptor
 tags, file entries, allocation descriptors and the blocks that continue them;
 and what reading an object written in this way gives.
 */
module UdfEncoding {
  import opened Basics
  import opened BlockDevice
  import opened UdfObject

  const LENGTH_LIMIT: nat := 0x4000_0000

  // ----- integers, low byte first -----

  function Put16(n: nat): (b: Bytes)
    requires n < 0x1_0000
    ensures |b| == 2
  {
    [Byte(n % 0x100), Byte(n / 0x100)]
  }

  function Put32(n: nat): (b: Bytes)
    requires n < 0x1_0000_0000
    ensures |b| == 4
  {
    Put16(n % 0x1_0000) + Put16(n / 0x1_0000)
  }

  function Put64(n: nat): (b: Bytes)
    requires n < UINT64_LIMIT
    ensures |b| == 8
  {
    Put32(n % 0x1_0000_0000) + Put32(n / 0x1_0000_0000)
  }

  /** Bytes field stand in b from byte i on. */
  ghost predicate HoldsAt(b: Bytes, i: nat, field: Bytes) {
    i + |field| <= |b| && b[i..i + |field|] == field
  }

  lemma {:induction false} HoldsBoth(b: Bytes, i: nat, x: Bytes, y: Bytes)
    ensures HoldsAt(b, i, x + y) <==> HoldsAt(b, i, x) && HoldsAt(b, i + |x|, y)
  {
    if i + |x| + |y| <= |b| {
      var both := b[i..i + |x + y|];
      assert both[..|x|] == b[i..i + |x|] && both[|x|..] == b[i + |x|..i + |x| + |y|];
      assert both == both[..|x|] + both[|x|..];
      assert (x + y)[..|x|] == x && (x + y)[|x|..] == y;
    }
  }

  lemma {:induction false} PutPair(n: nat)
    requires n < 0x1_0000
    ensures Put16(n)[0] as nat + 0x100 * Put16(n)[1] as nat == n
  {
    hide Byte;
  }

  lemma {:induction false} Le16Put(b: Bytes, i: nat, n: nat)
    requires n < 0x1_0000 && HoldsAt(b, i, Put16(n))
    ensures Le16(b, i) == n
  {
    hide Put16;
    PutPair(n);
    assert b[i] == b[i..i + 2][0] && b[i + 1] == b[i..i + 2][1];
  }

  lemma {:induction false} Le32Put(b: Bytes, i: nat, n: nat)
    requires n < 0x1_0000_0000 && HoldsAt(b, i, Put32(n))
    ensures Le32(b, i) == n
  {
    hide HoldsAt, Le16, Put16;
    HoldsBoth(b, i, Put16(n % 0x1_0000), Put16(n / 0x1_0000));
    Le16Put(b, i, n % 0x1_0000);
    Le16Put(b, i + 2, n / 0x1_0000);
  }

  lemma {:induction false} Le64Put(b: Bytes, i: nat, n: nat)
    requires n < UINT64_LIMIT && HoldsAt(b, i, Put64(n))
    ensures Le64(b, i) == n
  {
    hide HoldsAt, Le32, Put32;
    HoldsBoth(b, i, Put32(n % 0x1_0000_0000), Put32(n / 0x1_0000_0000));
    Le32Put(b, i, n % 0x1_0000_0000);
    Le32Put(b, i + 4, n / 0x1_0000_0000);
  }

  // ----- descriptor tags -----

  /** Sum of bytes, in eight bits. */
  function Sum(b: Bytes): bv8 {
    if b == [] then 0 else Sum(b[..|b| - 1]) + b[|b| - 1]
  }

  /** A block starts with a tag: its identifier, and in byte 4 the sum of the other 15 bytes. */
  ghost predicate Tagged(b: Bytes, id: nat) {
    |b| >= 16 && id < 0x1_0000 && HoldsAt(b, 0, Put16(id)) && b[4] == Sum(b[..4] + b[5..16])
  }

  lemma {:induction false} SumOne(b: Bytes, x: bv8)
    ensures Sum(b + [x]) == Sum(b) + x
  {
    assert (b + [x])[..|b|] == b;
  }

  lemma {:induction false} TagSumIs(b: Bytes, n: nat)
    requires n <= |b|
    ensures TagSum(b, n) == if n <= 4 then Sum(b[..n]) else Sum(b[..4] + b[5..n])
    decreases n
  {
    hide Sum;
    if n == 0 {
      SumNothing();
    } else {
      TagSumIs(b, n - 1);
      if n <= 4 {
        assert b[..n] == b[..n - 1] + [b[n - 1]];
        SumOne(b[..n - 1], b[n - 1]);
      } else if n == 5 {
        assert b[..4] + b[5..5] == b[..4];
      } else {
        assert b[..4] + b[5..n] == (b[..4] + b[5..n - 1]) + [b[n - 1]];
        SumOne(b[..4] + b[5..n - 1], b[n - 1]);
      }
    }
  }

  lemma {:induction false} SumNothing()
    ensures Sum([]) == 0
  {
  }

  lemma {:induction false} TagIs(b: Bytes, id: nat)
    requires Tagged(b, id)
    ensures Tag(b) == Some(id)
  {
    hide Sum, TagSum, Le16, Put16, HoldsAt;
    TagSumIs(b, 16);
    Le16Put(b, 0, id);
  }

  // ----- allocation descriptors -----

  /** The type of an extent, as it is written in the top two bits of its length. */
  function TypeBits(kind: Kind): (t: nat)
    ensures t < 4
  {
    match kind
    case Recorded => 0
    case Allocated => 1
    case Unallocated => 2
    case Continuation => 3
  }

  /** A short descriptor, or the start of a long one. */
  function PutDescriptor(x: Descriptor): (b: Bytes)
    requires x.len < LENGTH_LIMIT
    ensures |b| == 8
  {
    Put32(TypeBits(x.kind) * LENGTH_LIMIT + x.len) + Put32(x.block)
  }

  /** A run of bytes is written as these descriptors, one for every adSize
      bytes; what follows block numbers and what is left at the end is not looked at. */
  ghost predicate Written(run: Bytes, adSize: nat, xs: seq<Descriptor>) {
    && |xs| * adSize <= |run| < |xs| * adSize + adSize
    && forall k :: 0 <= k < |xs| ==> xs[k].len < LENGTH_LIMIT && HoldsAt(run, k * adSize, PutDescriptor(xs[k]))
  }

  lemma {:induction false} DescriptorRead(run: Bytes, p: nat, x: Descriptor)
    requires x.len < LENGTH_LIMIT && HoldsAt(run, p, PutDescriptor(x))
    ensures p + 8 <= |run| && DescriptorAt(run, p) == x
  {
    hide HoldsAt, Put32, Le32;
    Fits(run, p, PutDescriptor(x));
    var field := TypeBits(x.kind) * LENGTH_LIMIT + x.len;
    HoldsBoth(run, p, Put32(field), Put32(x.block));
    Le32Put(run, p, field);
    Le32Put(run, p + 4, x.block);
    assert field / LENGTH_LIMIT == TypeBits(x.kind) && field % LENGTH_LIMIT == x.len;
  }

  lemma {:induction false} Fits(b: Bytes, i: nat, field: Bytes)
    requires HoldsAt(b, i, field)
    ensures i + |field| <= |b|
  {
  }

  /** Reading a run gives back the descriptors written. */
  lemma {:induction false} ParseWritten(run: Bytes, adSize: nat, xs: seq<Descriptor>, k: nat)
    requires adSize >= 8 && Written(run, adSize, xs) && k <= |xs|
    ensures Parse(run, adSize, k * adSize) == xs[k..]
    decreases |xs| - k
  {
    hide DescriptorAt, HoldsAt;
    if k < |xs| {
      DescriptorRead(run, k * adSize, xs[k]);
      Rows(k, |xs|, adSize);
      ParseWritten(run, adSize, xs, k + 1);
      assert xs[k..] == [xs[k]] + xs[k + 1..];
    } else {
      assert xs[k..] == [];
    }
  }

  lemma {:induction false} Rows(k: nat, n: nat, size: nat)
    requires k < n
    ensures (k + 1) * size == k * size + size && (k + 1) * size <= n * size
  {
    Scaled(k + 1, n, size);
  }

  /** Descriptors written one after another, long ones with nothing behind the block number. */
  function Encoded(xs: seq<Descriptor>, adSize: nat): (run: Bytes)
    requires adSize >= 8 && forall k :: 0 <= k < |xs| ==> xs[k].len < LENGTH_LIMIT
    ensures |run| == |xs| * adSize
  {
    if xs == [] then [] else
    Rows(|xs| - 1, |xs|, adSize);
    Encoded(xs[..|xs| - 1], adSize) + PutDescriptor(xs[|xs| - 1]) + seq(adSize - 8, _ => 0)
  }

  lemma {:induction false} EncodedIsWritten(xs: seq<Descriptor>, adSize: nat)
    requires adSize >= 8 && forall k :: 0 <= k < |xs| ==> xs[k].len < LENGTH_LIMIT
    ensures Written(Encoded(xs, adSize), adSize, xs)
    decreases |xs|
  {
    hide PutDescriptor, HoldsAt;
    if xs != [] {
      var last := |xs| - 1;
      var before := Encoded(xs[..last], adSize);
      EncodedIsWritten(xs[..last], adSize);
      Rows(last, |xs|, adSize);
      forall k | 0 <= k < |xs|
        ensures HoldsAt(Encoded(xs, adSize), k * adSize, PutDescriptor(xs[k]))
      {
        if k < last {
          assert xs[..last][k] == xs[k];
          HoldsStill(before, PutDescriptor(xs[last]) + seq(adSize - 8, _ => 0), k * adSize, PutDescriptor(xs[k]));
          assert before + (PutDescriptor(xs[last]) + seq(adSize - 8, _ => 0)) == Encoded(xs, adSize);
        } else {
          HoldsThere(before, PutDescriptor(xs[last]), seq(adSize - 8, _ => 0));
        }
      }
    }
  }

  lemma {:induction false} HoldsStill(b: Bytes, more: Bytes, i: nat, field: Bytes)
    requires HoldsAt(b, i, field)
    ensures HoldsAt(b + more, i, field)
  {
    assert (b + more)[i..i + |field|] == b[i..i + |field|];
  }

  lemma {:induction false} HoldsThere(a: Bytes, field: Bytes, more: Bytes)
    ensures HoldsAt(a + field + more, |a|, field)
  {
  }

  /** Encoding and reading descriptors are inverse. */
  lemma {:induction false} RoundTrip(xs: seq<Descriptor>, adSize: nat)
    requires adSize >= 8 && forall k :: 0 <= k < |xs| ==> xs[k].len < LENGTH_LIMIT
    ensures Parse(Encoded(xs, adSize), adSize, 0) == xs
  {
    EncodedIsWritten(xs, adSize);
    ParseWritten(Encoded(xs, adSize), adSize, xs, 0);
  }

  // ----- blocks -----

  /** A block is the file entry, plain or extended, of an object of this size,
      with extended attributes and then a run of descriptors, or the object itself. */
  ghost predicate WrittenEntry(b: Bytes, blockSize: nat, id: nat, flags: nat, size: nat, ea: Bytes, run: Bytes) {
    var base := if id == TAG_FE then 176 else 216;
    && (id == TAG_FE || id == TAG_EFE) && Tagged(b, id)
    && base + |ea| + |run| <= blockSize <= |b| && blockSize <= AD_BUFFER
    && flags < 0x1_0000 && HoldsAt(b, 34, Put16(flags))
    && size < UINT64_LIMIT && HoldsAt(b, 56, Put64(size))
    && HoldsAt(b, base - 8, Put32(|ea|)) && HoldsAt(b, base - 4, Put32(|run|)) && HoldsAt(b, base, ea + run)
  }

  /** A written entry is accepted with the fields written. */
  lemma {:induction false} EntryRead(b: Bytes, blockSize: nat, id: nat, flags: nat, size: nat, ea: Bytes, run: Bytes)
    requires WrittenEntry(b, blockSize, id, flags, size, ea, run)
    ensures |b| >= 16
    ensures var e := ParseEntry(b, blockSize);
            && e == FileEntry(flags % 8, size, (if id == TAG_FE then 176 else 216) + |ea|, |run|)
            && b[e.adOffset..e.adOffset + e.adLength] == run
  {
    hide HoldsAt, TagSum, Le16, Le32, Le64, Put16, Put32, Put64, Tag, Tagged;
    var base := if id == TAG_FE then 176 else 216;
    TagIs(b, id);
    Le16Put(b, 34, flags);
    Le64Put(b, 56, size);
    Le32Put(b, base - 8, |ea|);
    Le32Put(b, base - 4, |run|);
    HoldsBoth(b, base, ea, run);
    SliceHeld(b, base + |ea|, run);
  }

  lemma {:induction false} SliceHeld(b: Bytes, i: nat, field: Bytes)
    requires HoldsAt(b, i, field)
    ensures i + |field| <= |b| && b[i..i + |field|] == field
  {
  }

  /** A block that continues a list of descriptors: their length in byte 20, and they behind it. */
  ghost predicate WrittenContinuation(b: Bytes, blockSize: nat, run: Bytes) {
    && Tagged(b, TAG_AED) && 24 + |run| <= blockSize <= |b| && |run| <= AD_BUFFER
    && HoldsAt(b, 20, Put32(|run|)) && HoldsAt(b, 24, run)
  }

  lemma {:induction false} ContinuationRead(b: Bytes, blockSize: nat, run: Bytes)
    requires WrittenContinuation(b, blockSize, run)
    ensures 24 <= blockSize <= |b| && ContinuationRun(b, blockSize) == Some(run)
  {
    hide HoldsAt, TagSum, Le16, Le32, Put16, Put32, Tag, Tagged;
    TagIs(b, TAG_AED);
    Le32Put(b, 20, |run|);
    SliceHeld(b, 24, run);
  }

  // ----- objects -----

  /** A list of extents is written in parts: every run but the last ends with a
      link to the block that holds the next one. */
  ghost predicate Chain(v: Volume, adSize: nat, runs: seq<Bytes>, parts: seq<seq<Descriptor>>, links: seq<Descriptor>)
    requires v.Valid()
  {
    && |runs| == |parts| == |links| + 1
    && forall k :: 0 <= k < |parts| ==> PartAt(v, adSize, runs, parts, links, k)
  }

  ghost predicate PartAt(v: Volume, adSize: nat, runs: seq<Bytes>, parts: seq<seq<Descriptor>>, links: seq<Descriptor>, k: nat)
    requires v.Valid() && |runs| == |parts| == |links| + 1 && k < |parts|
  {
    && Extents(parts[k]) && Written(runs[k], adSize, parts[k] + if k < |links| then [links[k]] else [])
    && (k < |links| ==> links[k].kind == Continuation
                        && WrittenContinuation(v.drive.sector((v.partStart + links[k].block) % LBA_LIMIT), v.blockSize, runs[k + 1]))
  }

  ghost predicate Extents(xs: seq<Descriptor>) {
    forall k :: 0 <= k < |xs| ==> xs[k].kind != Continuation && xs[k].len > 0
  }

  function Joined(parts: seq<seq<Descriptor>>): seq<Descriptor> {
    if parts == [] then [] else parts[0] + Joined(parts[1..])
  }

  /** Extents in front of a list come first in what it leads to. */
  lemma {:induction false} FlattenAfter(v: Volume, adSize: nat, xs: seq<Descriptor>, rest: seq<Descriptor>, budget: nat)
    requires v.Valid() && adSize >= 8 && v.blockSize >= 24 && Extents(xs)
    ensures var (ys, end) := v.Flatten(adSize, rest, budget);
            v.Flatten(adSize, xs + rest, budget) == (xs + ys, end)
    decreases |xs|
  {
    hide ContinuationRun, Parse;
    var ys := v.Flatten(adSize, rest, budget).0;
    if xs == [] {
      assert xs + rest == rest && xs + ys == ys;
    } else {
      FlattenAfter(v, adSize, xs[1..], rest, budget);
      assert (xs + rest)[1..] == xs[1..] + rest && (xs + rest)[0] == xs[0];
      assert [xs[0]] + (xs[1..] + ys) == xs + ys;
    }
  }

  /** Following the links finds all the extents written. */
  lemma {:induction false} ChainFlattens(v: Volume, adSize: nat, runs: seq<Bytes>, parts: seq<seq<Descriptor>>, links: seq<Descriptor>, budget: nat)
    requires v.Valid() && adSize >= 8 && v.blockSize >= 24 && Chain(v, adSize, runs, parts, links) && |links| <= budget
    ensures v.Flatten(adSize, Parse(runs[0], adSize, 0), budget) == (Joined(parts), Ok)
    decreases |links|
  {
    hide ContinuationRun, Parse, v.Flatten, Written, WrittenContinuation, Extents, Chain, Joined;
    var tail := if links == [] then [] else [links[0]];
    ChainFirst(v, adSize, runs, parts, links);
    ParseFirst(runs[0], adSize, parts[0] + tail);
    FlattenAfter(v, adSize, parts[0], tail, budget);
    if links == [] {
      FlattenEnd(v, adSize, budget);
      assert parts[0] + Joined([]) == parts[0] + [];
    } else {
      ContinuationRead(v.drive.sector(v.Phys(links[0].block)), v.blockSize, runs[1]);
      FlattenLink(v, adSize, links[0], runs[1], budget);
      ChainFlattens(v, adSize, runs[1..], parts[1..], links[1..], budget - 1);
    }
  }

  lemma {:induction false} ParseFirst(run: Bytes, adSize: nat, xs: seq<Descriptor>)
    requires adSize >= 8 && Written(run, adSize, xs)
    ensures Parse(run, adSize, 0) == xs
  {
    hide Parse, Written;
    assert 0 * adSize == 0 && xs[0..] == xs;
    ParseWritten(run, adSize, xs, 0);
  }

  /** The first run of a chain, and the chain behind it. */
  lemma {:induction false} ChainFirst(v: Volume, adSize: nat, runs: seq<Bytes>, parts: seq<seq<Descriptor>>, links: seq<Descriptor>)
    requires v.Valid() && Chain(v, adSize, runs, parts, links)
    ensures |runs| == |parts| == |links| + 1 && Extents(parts[0])
    ensures Written(runs[0], adSize, parts[0] + if links == [] then [] else [links[0]])
    ensures Joined(parts) == parts[0] + Joined(parts[1..])
    ensures if links == [] then parts[1..] == []
            else links[0].kind == Continuation && WrittenContinuation(v.drive.sector(v.Phys(links[0].block)), v.blockSize, runs[1])
                 && Chain(v, adSize, runs[1..], parts[1..], links[1..])
  {
    hide Written, WrittenContinuation, Extents;
    assert PartAt(v, adSize, runs, parts, links, 0);
    if links != [] {
      forall k | 0 <= k < |parts[1..]|
        ensures PartAt(v, adSize, runs[1..], parts[1..], links[1..], k)
      {
        assert PartAt(v, adSize, runs, parts, links, k + 1);
      }
    }
  }

  lemma {:induction false} FlattenEnd(v: Volume, adSize: nat, budget: nat)
    requires v.Valid() && adSize >= 8 && v.blockSize >= 24
    ensures v.Flatten(adSize, [], budget) == ([], Ok) && Joined([]) == []
  {
  }

  lemma {:induction false} FlattenLink(v: Volume, adSize: nat, link: Descriptor, run: Bytes, budget: nat)
    requires v.Valid() && adSize >= 8 && v.blockSize >= 24 && link.kind == Continuation && budget > 0
    requires ContinuationRun(v.drive.sector(v.Phys(link.block)), v.blockSize) == Some(run)
    ensures v.Flatten(adSize, [link], budget) == v.Flatten(adSize, Parse(run, adSize, 0), budget - 1)
  {
    hide ContinuationRun, Parse;
  }

  /** Byte address of a block of the partition. */
  function Address(v: Volume, block: Lba): nat {
    (v.partStart + block) % LBA_LIMIT * v.drive.sectorSize
  }

  ghost predicate AllOnMedium(v: Volume, xs: seq<Descriptor>) {
    forall k :: 0 <= k < |xs| && xs[k].kind == Recorded ==> Address(v, xs[k].block) + xs[k].len <= v.drive.Size()
  }

  /** Extents as they stand on the medium, one after another, with zeros for those not recorded. */
  ghost function Laid(v: Volume, xs: seq<Descriptor>): Bytes
    requires v.Valid() && AllOnMedium(v, xs)
  {
    if xs == [] then [] else
    var last := xs[|xs| - 1];
    Laid(v, xs[..|xs| - 1])
    + if last.kind == Recorded then v.drive.Slice(Address(v, last.block), last.len) else seq(last.len, _ => 0)
  }

  lemma {:induction false} ContentIsLaid(v: Volume, xs: seq<Descriptor>, size: int)
    requires v.Valid() && AllOnMedium(v, xs)
    ensures v.Content(xs) == Laid(v, xs) && v.Readable(xs, 0, size)
    decreases |xs|
  {
    hide v.ExtentBytes;
    if xs != [] {
      var last := |xs| - 1;
      assert forall k :: 0 <= k < last ==> xs[..last][k] == xs[k];
      ContentIsLaid(v, xs[..last], size);
      ExtentIsLaid(v, xs[last]);
    }
  }

  lemma {:induction false} ExtentIsLaid(v: Volume, x: Descriptor)
    requires v.Valid() && (x.kind == Recorded ==> Address(v, x.block) + x.len <= v.drive.Size())
    ensures v.ExtentBytes(x) == if x.kind == Recorded then v.drive.Slice(Address(v, x.block), x.len) else seq(x.len, _ => 0)
    ensures forall from: int, to: int :: v.OnMedium(x, from, to)
  {
    hide v.drive.ByteAt;
  }

  /** Bytes of a read that lie inside an object. */
  function Inside(size: nat, offset: nat, len: nat): nat {
    if offset >= size then 0 else if len > size - offset then size - offset else len
  }

  /** Reading an object written in extents, however its descriptors are spread,
      gives the bytes that the extents hold on the medium. */
  lemma {:induction false} ObjectOfExtents(v: Volume, icb: Lba, id: nat, flags: nat, size: nat, ea: Bytes,
                                           runs: seq<Bytes>, parts: seq<seq<Descriptor>>, links: seq<Descriptor>, content: Bytes,
                                           offset: nat, len0: nat, err: Error, len: nat, out: Bytes)
    requires v.Valid() && v.blockSize >= 24 && (flags % 8 == ALLOC_SHORT || flags % 8 == ALLOC_LONG)
    requires Chain(v, if flags % 8 == ALLOC_SHORT then 8 else 16, runs, parts, links) && |links| <= MAX_CONTINUATIONS
    requires WrittenEntry(v.drive.sector(icb), v.blockSize, id, flags, size, ea, runs[0])
    requires AllOnMedium(v, Joined(parts)) && content == Laid(v, Joined(parts)) && size <= |content|
    requires ObjectReads(v, icb, offset, len0, err, len, out) && err != Io
    ensures err == Ok && len == Inside(size, offset, len0)
    ensures out == if offset < size then content[offset..offset + len] else []
  {
    hide v.Content, v.Readable, v.Flatten, Parse, ObjectReads, Written, WrittenContinuation, WrittenEntry, Extents, Laid, AllOnMedium, ReadsAs, Joined;
    var adSize := if flags % 8 == ALLOC_SHORT then 8 else 16;
    DescribedRead(v, icb, id, flags, size, ea, runs[0], offset, len0, err, len, out);
    ChainFlattens(v, adSize, runs, parts, links, MAX_CONTINUATIONS);
    var xs := Joined(parts);
    ContentIsLaid(v, xs, size);
    var want := Inside(size, offset, len0);
    if want > 0 {
      SoundObjectRead(v, xs, Ok, size, offset, want, err, len, out);
      PrefixPart(content, size, offset, want);
    } else if offset < size {
      assert content[offset..offset] == [];
    }
  }

  lemma {:induction false} PrefixPart(content: Bytes, size: nat, offset: nat, n: nat)
    requires offset + n <= size <= |content|
    ensures content[..size][offset..offset + n] == content[offset..offset + n]
  {
  }

  lemma {:induction false} DescribedRead(v: Volume, icb: Lba, id: nat, flags: nat, size: nat, ea: Bytes, run: Bytes,
                                         offset: nat, len0: nat, err: Error, len: nat, out: Bytes)
    requires v.Valid() && v.blockSize >= 24 && (flags % 8 == ALLOC_SHORT || flags % 8 == ALLOC_LONG)
    requires WrittenEntry(v.drive.sector(icb), v.blockSize, id, flags, size, ea, run)
    requires ObjectReads(v, icb, offset, len0, err, len, out)
    ensures var want := Inside(size, offset, len0);
            if want == 0 then err == Ok && len == 0 && out == []
            else var (xs, end) := v.Flatten(if flags % 8 == ALLOC_SHORT then 8 else 16,
                                            Parse(run, if flags % 8 == ALLOC_SHORT then 8 else 16, 0), MAX_CONTINUATIONS);
                 ReadsAs(v, xs, end, offset, want, err, len, out)
  {
    hide v.Flatten, Parse, ParseEntry, WrittenEntry, ReadsAs;
    EntryRead(v.drive.sector(icb), v.blockSize, id, flags, size, ea, run);
  }

  /** The plainest file: one short descriptor of type 0, whose length field is
      the length itself; at is where its extent starts on the medium. */
  lemma {:induction false} OneExtent(v: Volume, icb: Lba, id: nat, flags: nat, size: nat, ea: Bytes, n: nat, block: Lba, at: nat,
                                     offset: nat, len0: nat, err: Error, len: nat, out: Bytes)
    requires v.Valid() && v.blockSize >= 24 && flags % 8 == ALLOC_SHORT && 0 < n < LENGTH_LIMIT && size <= n
    requires WrittenEntry(v.drive.sector(icb), v.blockSize, id, flags, size, ea, Put32(n) + Put32(block))
    requires v.partStart + block < LBA_LIMIT && at == (v.partStart + block) * v.drive.sectorSize && at + n <= v.drive.Size()
    requires offset < size && ObjectReads(v, icb, offset, len0, err, len, out) && err != Io
    ensures err == Ok && len == Inside(size, offset, len0)
    ensures out == v.drive.Slice(at + offset, len)
  {
    hide WrittenEntry, ObjectReads, v.drive.ByteAt, v.drive.Slice, v.drive.Size, Put32, Chain, Laid, AllOnMedium, Joined, Address, Inside;
    var x := Descriptor(Recorded, n, block);
    AddressIs(v, block);
    OneChain(v, Put32(n) + Put32(block), x);
    OneLaid(v, x);
    InsideIs(size, offset, len0);
    ObjectOfExtents(v, icb, id, flags, size, ea, [Put32(n) + Put32(block)], [[x]], [], v.drive.Slice(at, n),
                    offset, len0, err, len, out);
    SubSlice(v.drive, at, n, offset, len);
  }

  lemma {:induction false} OneLaid(v: Volume, x: Descriptor)
    requires v.Valid() && x.kind == Recorded && Address(v, x.block) + x.len <= v.drive.Size()
    ensures Joined([[x]]) == [x] && AllOnMedium(v, [x]) && Laid(v, [x]) == v.drive.Slice(Address(v, x.block), x.len)
  {
    hide v.drive.Slice;
    assert [[x]][1..] == [] && [x] + [] == [x] && [x][..0] == [];
    assert Laid(v, [x][..0]) == [];
  }

  lemma {:induction false} AddressIs(v: Volume, block: Lba)
    requires v.partStart + block < LBA_LIMIT
    ensures Address(v, block) == (v.partStart + block) * v.drive.sectorSize
  {
  }

  lemma {:induction false} InsideIs(size: nat, offset: nat, len: nat)
    ensures offset < size ==> offset + Inside(size, offset, len) <= size
  {
  }

  lemma {:induction false} OneWritten(x: Descriptor, run: Bytes)
    requires 0 < x.len < LENGTH_LIMIT && x.kind == Recorded && run == Put32(x.len) + Put32(x.block)
    ensures Written(run, 8, [x]) && Extents([x])
  {
    hide Put32;
    assert run[0..8] == run;
  }

  lemma {:induction false} OneChain(v: Volume, run: Bytes, x: Descriptor)
    requires v.Valid() && 0 < x.len < LENGTH_LIMIT && x.kind == Recorded && run == Put32(x.len) + Put32(x.block)
    ensures Chain(v, 8, [run], [[x]], [])
  {
    hide Put32, Written, Extents, WrittenContinuation;
    OneWritten(x, run);
    assert [x] + [] == [x];
  }

  /** An object embedded in its file entry is read from there. */
  lemma {:induction false} EmbeddedObject(v: Volume, icb: Lba, id: nat, flags: nat, ea: Bytes, content: Bytes,
                                          offset: nat, len0: nat, err: Error, len: nat, out: Bytes)
    requires v.Valid() && flags % 8 == ALLOC_EMBEDDED
    requires WrittenEntry(v.drive.sector(icb), v.blockSize, id, flags, |content|, ea, content)
    requires ObjectReads(v, icb, offset, len0, err, len, out)
    ensures err == Ok && len == Inside(|content|, offset, len0)
    ensures out == if offset < |content| then content[offset..offset + len] else []
  {
    hide ParseEntry, WrittenEntry;
    EntryRead(v.drive.sector(icb), v.blockSize, id, flags, |content|, ea, content);
    var e := ParseEntry(v.drive.sector(icb), v.blockSize);
    Room(v.drive.sector(icb), v.blockSize, id, flags, |content|, ea, content);
    var want := Inside(|content|, offset, len0);
    if want > 0 {
      PartOf(v.drive.sector(icb), e.adOffset, content, offset, want);
    }
  }

  lemma {:induction false} PartOf(b: Bytes, i: nat, field: Bytes, offset: nat, n: nat)
    requires i + |field| <= |b| && b[i..i + |field|] == field && offset + n <= |field|
    ensures b[i + offset..i + offset + n] == field[offset..offset + n]
  {
    var part := b[i + offset..i + offset + n];
    assert forall k :: 0 <= k < n ==> part[k] == b[i..i + |field|][offset + k];
  }

  lemma {:induction false} Room(b: Bytes, blockSize: nat, id: nat, flags: nat, size: nat, ea: Bytes, run: Bytes)
    requires WrittenEntry(b, blockSize, id, flags, size, ea, run)
    ensures (if id == TAG_FE then 176 else 216) + |ea| + |run| <= blockSize <= |b|
  {
  }
}
