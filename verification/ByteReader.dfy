/**
 Byte ranges read through the block cache: partial sectors and short reads come
 from the cache, runs of whole sectors straight from the device.
 */
module ByteReader {
  import opened Basics
  import opened BlockDevice
  import opened BlockCache
  import CacheModel

  const STREAM_MIN_SECTORS: nat := 2
  const UINT32_MAX: nat := 0xffff_ffff

  /** The cache and its device agree with the medium and will go on doing so. */
  ghost predicate Sound(cache: Cache)
    reads cache, cache.entries, cache.buckets, cache.next, cache.device
  {
    cache.Valid() && cache.device.drive.Careful() && CacheModel.Coherent(cache.device.drive, cache.Abs().lines)
  }

  /** Address of the first sector read, in the 64 bits it is computed in. */
  function FirstSector(startLba: Lba, offset: nat, sectorSize: nat): nat
    requires sectorSize > 0
  {
    (startLba + offset / sectorSize) % UINT64_LIMIT
  }

  /** The 64-bit sector address wraps only for one-byte sectors. */
  lemma {:induction false} SectorAddressFits(startLba: Lba, offset: nat, sectorSize: nat)
    requires 0 < sectorSize && offset < UINT64_LIMIT
    ensures sectorSize > 1 ==> startLba + offset / sectorSize < UINT64_LIMIT
    ensures FirstSector(startLba, offset, sectorSize) == startLba + offset / sectorSize
            <==> startLba + offset / sectorSize < UINT64_LIMIT
  {
    if sectorSize > 1 {
      HalfAtMost(offset, sectorSize);
    }
  }

  lemma {:induction false} HalfAtMost(offset: nat, sectorSize: nat)
    requires sectorSize > 1
    ensures 2 * (offset / sectorSize) <= offset
  {
    var q, r := offset / sectorSize, offset % sectorSize;
    assert offset == sectorSize * q + r;
    Scaled(2, sectorSize, q);
  }

  /** What a byte-range read returns, given the drive and the byte address pos. */
  ghost predicate ReadResult(d: Drive, pos: nat, want: nat, err: Error, len: nat, out: Bytes)
    requires d.Valid() && d.sectorSize > 0
  {
    match err
    case Ok => pos + want <= d.Size() && len == want && out == d.Slice(pos, want)
    case Io => pos < d.Size() && pos + len <= d.Size() && len < want && out == d.Slice(pos, len)
    case Range => pos + want > d.Size() && (pos < d.Size() ==> len == d.Size() - pos && out == d.Slice(pos, len))
                  && (pos >= d.Size() ==> len == want && out == [])
    case _ => false
  }

  /** A stretch of one sector, through the cache. */
  method CopySector(cache: Cache, lba: Lba, off: nat, len: nat) returns (err: Error, out: Bytes)
    requires Sound(cache) && off + len <= cache.device.drive.sectorSize
    modifies cache, cache.entries, cache.buckets, cache.next, cache.device
    ensures Sound(cache)
    ensures err == Ok || (err == Io && !cache.device.drive.AlwaysDelivers())
    ensures err == Ok ==> out == cache.device.drive.sector(lba)[off..off + len]
  {
    hide CacheModel.Coherent, CacheModel.Read, cache.Valid;
    var slot;
    err, slot := cache.Read(lba);
    out := [];
    if err == Ok {
      out := cache.entries[slot].data[off..off + len];
    }
  }

  // ----- positions -----

  /** How far a read has come: out holds the first done bytes, and more bytes
      to read start at sector lba. */
  ghost predicate Progress(d: Drive, pos: nat, want: nat, lba: Lba, done: nat, out: Bytes)
    requires d.Valid() && d.sectorSize > 0
  {
    && done <= want && pos + done <= d.Size() && out == d.Slice(pos, done)
    && (done < want ==> pos + done == d.Offset(lba))
  }

  /** Where part of a read stops: to go on at lba, at a failed request, or at the end of the medium. */
  ghost predicate Outcome(d: Drive, pos: nat, want: nat, err: Error, lba: Lba, done: nat, out: Bytes)
    requires d.Valid() && d.sectorSize > 0
  {
    && done <= want && pos + done <= d.Size() && out == d.Slice(pos, done)
    && match err
       case Ok => done < want ==> pos + done == d.Offset(lba)
       case Io => done < want
       case Range => done < want && pos + done == d.Size()
       case _ => false
  }

  lemma {:induction false} SplitOffset(d: Drive, offset: nat)
    requires d.sectorSize > 0
    ensures d.Offset(offset / d.sectorSize) + offset % d.sectorSize == offset
  {
  }

  /** Where a read starts: sector and offset, or past the end of the medium. */
  lemma {:induction false} StartPosition(d: Drive, startLba: Lba, offset: nat, lba: nat, off: nat)
    requires d.sectorSize > 0 && lba == FirstSector(startLba, offset, d.sectorSize) && off == offset % d.sectorSize
    ensures off < d.sectorSize
    ensures lba < LBA_LIMIT ==> d.Offset(lba) + off < d.Size()
    ensures lba >= LBA_LIMIT ==> d.Offset(lba) + off >= d.Size()
    ensures startLba + offset / d.sectorSize < UINT64_LIMIT ==> d.Offset(lba) + off == d.Offset(startLba) + offset
  {
    hide d.Offset;
    SplitOffset(d, offset);
    Offsets(d, startLba, offset / d.sectorSize);
    Offsets(d, lba, LBA_LIMIT);
    Offsets(d, LBA_LIMIT, lba);
  }

  /** Part of the sector at pos moves the read on, to the next sector unless it is done. */
  lemma {:induction false} AdvanceInSector(d: Drive, pos: nat, want: nat, lba: Lba, off: nat, done: nat, out: Bytes, n: nat)
    requires d.Valid() && off + n <= d.sectorSize && 0 < n
    requires done + n <= want && pos + done == d.Offset(lba) + off && pos + done <= d.Size() && out == d.Slice(pos, done)
    requires off + n == d.sectorSize || done + n == want
    ensures pos + done + n <= d.Size() && out + d.sector(lba)[off..off + n] == d.Slice(pos, done + n)
    ensures if done + n < want && lba == UINT32_MAX then pos + done + n == d.Size()
            else Progress(d, pos, want, (lba + 1) % LBA_LIMIT, done + n, out + d.sector(lba)[off..off + n])
  {
    hide d.Offset, d.Slice, d.ByteAt;
    SectorSlice(d, lba, off, n);
    SliceConcat(d, pos, done, n);
    Offsets(d, lba, 1);
  }

  /** Whole sectors move the read on. */
  lemma {:induction false} AdvanceSectors(d: Drive, pos: nat, want: nat, lba: Lba, done: nat, out: Bytes, count: nat)
    requires d.Valid() && d.sectorSize > 0 && 0 < count && lba + count <= LBA_LIMIT
    requires done + d.Offset(count) <= want && done < want && Progress(d, pos, want, lba, done, out)
    ensures d.Offset(count) > 0
    ensures var done' := done + d.Offset(count);
            && pos + done' <= d.Size() && out + d.Span(lba, count) == d.Slice(pos, done')
            && (if done' < want && lba + count == LBA_LIMIT then pos + done' == d.Size()
                else Progress(d, pos, want, (lba + count) % LBA_LIMIT, done', out + d.Span(lba, count)))
  {
    hide d.Offset, d.Slice, d.ByteAt, d.Span;
    SpanSlice(d, lba, count);
    SliceConcat(d, pos, done, d.Offset(count));
    Offsets(d, lba, count);
    Offsets(d, 0, count);
  }

  lemma {:induction false} WholeSectors(d: Drive, left: nat)
    requires d.sectorSize > 0
    ensures d.Offset(left / d.sectorSize) <= left < d.Offset(left / d.sectorSize) + d.sectorSize
    ensures left >= d.sectorSize ==> left / d.sectorSize > 0
    ensures forall n: nat :: n <= left / d.sectorSize ==> d.Offset(n) <= left
  {
    forall n: nat | n <= left / d.sectorSize
      ensures d.Offset(n) <= left
    {
      Offsets(d, n, left / d.sectorSize);
    }
  }

  // ----- the read -----

  /** A request straight to the device leaves the cache as it was. */
  method ReadDevice(cache: Cache, lba: Lba, count: nat) returns (err: Error, data: Bytes)
    requires Sound(cache) && lba + count <= LBA_LIMIT
    modifies cache.device
    ensures Sound(cache) && cache.Abs().lines == old(cache.Abs().lines)
    ensures err == Ok || (err == Io && !cache.device.drive.AlwaysDelivers())
    ensures err == Ok ==> data == cache.device.drive.Span(lba, count)
  {
    hide CacheModel.Coherent, BlockCache.Threaded, BlockCache.Stamped, BlockCache.Lines;
    var ok;
    ok, data := cache.device.Read(lba, count, []);
    err := if ok then Ok else Io;
  }

  /** Runs of at least two whole sectors, streamed past the cache. */
  method ReadRuns(cache: Cache, ghost pos: nat, want: nat, lba0: Lba, done0: nat, out0: Bytes)
    returns (err: Error, lba: Lba, done: nat, out: Bytes)
    requires Sound(cache) && Progress(cache.device.drive, pos, want, lba0, done0, out0)
    modifies cache.device
    ensures Sound(cache)
    ensures Outcome(cache.device.drive, pos, want, err, lba, done, out)
    ensures cache.device.drive.AlwaysDelivers() ==> err != Io
  {
    hide CacheModel.Coherent, cache.Valid;
    var d := cache.device.drive;
    hide d.Offset, d.Slice, d.ByteAt, d.Span;
    var size := d.sectorSize;
    err, lba, done, out := Ok, lba0, done0, out0;
    while want - done >= size
      invariant Sound(cache) && err == Ok && Progress(d, pos, want, lba, done, out)
      decreases want - done
    {
      var full := (want - done) / size;
      WholeSectors(d, want - done);
      if full < STREAM_MIN_SECTORS {
        break;
      }
      var count := UINT32_MAX;
      if full < count {
        count := full;
      }
      if count > UINT32_MAX - lba + 1 {
        count := UINT32_MAX - lba + 1;
      }
      var run;
      err, run := ReadDevice(cache, lba, count);
      if err != Ok {
        return;
      }
      AdvanceSectors(d, pos, want, lba, done, out, count);
      done := done + count * size;
      out := out + run;
      var nextLba := lba + count;
      if done < want && nextLba > UINT32_MAX {
        err := Range;
        return;
      }
      lba := nextLba % LBA_LIMIT;
    }
  }

  /** The whole sectors left, one by one through the cache, and the tail. */
  method ReadCachedSectors(cache: Cache, ghost pos: nat, want: nat, lba0: Lba, done0: nat, out0: Bytes)
    returns (err: Error, done: nat, out: Bytes)
    requires Sound(cache) && Progress(cache.device.drive, pos, want, lba0, done0, out0)
    modifies cache, cache.entries, cache.buckets, cache.next, cache.device
    ensures Sound(cache)
    ensures Outcome(cache.device.drive, pos, want, err, 0, done, out) && (err == Ok ==> done == want)
    ensures cache.device.drive.AlwaysDelivers() ==> err != Io
  {
    hide CacheModel.Coherent, cache.Valid;
    var d := cache.device.drive;
    hide d.Offset, d.Slice, d.ByteAt, d.Span;
    var size := d.sectorSize;
    var lba: Lba := lba0;
    var part: Bytes;
    err, done, out := Ok, done0, out0;
    while want - done >= size
      invariant Sound(cache) && err == Ok && Progress(d, pos, want, lba, done, out)
      decreases want - done
    {
      err, part := CopySector(cache, lba, 0, size);
      if err != Ok {
        return;
      }
      AdvanceInSector(d, pos, want, lba, 0, done, out, size);
      done := done + size;
      out := out + part;
      if done < want && lba == UINT32_MAX {
        err := Range;
        return;
      }
      lba := (lba + 1) % LBA_LIMIT;
    }
    if done < want {
      var tail := want - done;
      err, part := CopySector(cache, lba, 0, tail);
      if err != Ok {
        return;
      }
      AdvanceInSector(d, pos, want, lba, 0, done, out, tail);
      done := done + tail;
      out := out + part;
    }
  }


  /** The rest of the first sector, when the read starts inside one. */
  method ReadHead(cache: Cache, ghost pos: nat, want: nat, lba0: Lba, off: nat)
    returns (err: Error, lba: Lba, done: nat, out: Bytes)
    requires Sound(cache) && off < cache.device.drive.sectorSize && 0 < want
    requires pos == cache.device.drive.Offset(lba0) + off && pos < cache.device.drive.Size()
    modifies cache, cache.entries, cache.buckets, cache.next, cache.device
    ensures Sound(cache)
    ensures Outcome(cache.device.drive, pos, want, err, lba, done, out)
    ensures cache.device.drive.AlwaysDelivers() ==> err != Io
  {
    hide CacheModel.Coherent, cache.Valid;
    var d := cache.device.drive;
    hide d.Offset, d.Slice, d.ByteAt, d.Span;
    err, lba, done, out := Ok, lba0, 0, [];
    if off != 0 {
      var chunk := d.sectorSize - off;
      if chunk > want {
        chunk := want;
      }
      err, out := CopySector(cache, lba, off, chunk);
      if err != Ok {
        return err, lba, done, [];
      }
      AdvanceInSector(d, pos, want, lba, off, done, [], chunk);
      done := done + chunk;
      if done < want && lba == UINT32_MAX {
        err := Range;
        return;
      }
      lba := (lba + 1) % LBA_LIMIT;
    }
  }

  /** Read want bytes, offset bytes past the start of sector startLba. */
  method ReadBytes(cache: Cache, startLba: Lba, offset: nat, want: nat) returns (err: Error, len: nat, out: Bytes)
    requires Sound(cache) && offset < UINT64_LIMIT && want < UINT64_LIMIT
    modifies cache, cache.entries, cache.buckets, cache.next, cache.device
    ensures Sound(cache)
    ensures want == 0 ==> err == Ok && len == 0 && out == []
    ensures var d := cache.device.drive;
            want > 0 && startLba + offset / d.sectorSize < UINT64_LIMIT ==>
              ReadResult(d, d.Offset(startLba) + offset, want, err, len, out)
    ensures cache.device.drive.AlwaysDelivers() ==> err != Io
  {
    hide CacheModel.Coherent, cache.Valid;
    var d := cache.device.drive;
    hide d.Offset, d.Slice, d.ByteAt, d.Span, d.Size, FirstSector;
    out := [];
    if want == 0 {
      return Ok, 0, out;
    }
    var lba64 := FirstSector(startLba, offset, d.sectorSize);
    var sectorOff := offset % d.sectorSize;
    ghost var pos := d.Offset(lba64) + sectorOff;
    StartPosition(d, startLba, offset, lba64, sectorOff);
    if lba64 > UINT32_MAX {
      return Range, want, out;
    }
    var lba: Lba;
    err, lba, len, out := ReadHead(cache, pos, want, lba64, sectorOff);
    if err == Ok {
      err, lba, len, out := ReadRuns(cache, pos, want, lba, len, out);
    }
    if err == Ok && len < want {
      err, len, out := ReadCachedSectors(cache, pos, want, lba, len, out);
    }
  }
}
