/**
 Reading an open file: sectors read ahead, sectors in the cache, one request
 straight into the caller's buffer, or the general read.
 */
module ReadPaths {
  import opened Basics
  import opened BlockDevice
  import BlockCache
  import CacheModel
  import ByteReader

  const SECTOR: nat := 2048
  const INT64_MAX: int := 0x7fff_ffff_ffff_ffff
  /** Sectors below 4 GiB. */
  const DIRECT_SECTORS: nat := 0x20_0000
  /** Sectors read ahead on a seek. */
  const AHEAD_SECTORS: nat := 2

  /** A file whose bytes stand in one run on the medium. */
  datatype File = File(lba: Lba, size: nat)

  datatype SeekMode = Beginning | Current | End | Other
  datatype Ahead = Idle | Busy | Ready
  datatype Outcome = Done | BadNumber | SeekError | Failed

  /** The n bytes of a file at position pos. */
  ghost function FileBytes(d: Drive, f: File, pos: nat, n: nat): Bytes
    requires d.Valid() && d.sectorSize > 0 && d.Offset(f.lba) + pos + n <= d.Size()
  {
    d.Slice(d.Offset(f.lba) + pos, n)
  }

  /** All of a file is on the medium. */
  ghost predicate OnMedium(d: Drive, f: File) {
    d.Offset(f.lba) + f.size <= d.Size()
  }

  /** Reads that follow one another give the bytes of one read. */
  lemma {:induction false} ReadsJoin(d: Drive, f: File, pos: nat, m: nat, n: nat)
    requires d.Valid() && d.sectorSize > 0 && d.Offset(f.lba) + pos + m + n <= d.Size()
    ensures FileBytes(d, f, pos, m) + FileBytes(d, f, pos + m, n) == FileBytes(d, f, pos, m + n)
  {
    hide d.Offset;
    SliceConcat(d, d.Offset(f.lba) + pos, m, n);
  }

  /** Size for direct reads of a file that ends below 4 GiB, 0 for others. */
  function DirectSize(f: File, sectorSize: nat): nat {
    if sectorSize == SECTOR && f.size != 0 && f.size < UINT32_LIMIT && f.lba < DIRECT_SECTORS
       && (f.size + SECTOR - 1) / SECTOR <= DIRECT_SECTORS - f.lba
    then f.size else 0
  }

  /** Files for direct reads: those of full 2 KiB sectors, not empty, that end below 4 GiB with their last sector. */
  lemma {:induction false} DirectExactly(f: File)
    ensures DirectSize(f, SECTOR) == f.size || DirectSize(f, SECTOR) == 0
    ensures DirectSize(f, SECTOR) != 0 <==>
              0 < f.size < UINT32_LIMIT && exists sectors: nat :: sectors > 0 && f.size <= sectors * SECTOR && f.lba * SECTOR + sectors * SECTOR <= UINT32_LIMIT
  {
    var sectors := (f.size + SECTOR - 1) / SECTOR;
    assert f.size <= sectors * SECTOR;
  }

  /** On the direct path no byte address reaches 4 GiB, and all of the file is on the medium. */
  lemma {:induction false} DirectFits(d: Drive, f: File, pos: nat)
    requires DirectSize(f, d.sectorSize) != 0 && pos < f.size
    ensures f.lba + pos / SECTOR < DIRECT_SECTORS && (f.lba + pos / SECTOR) * SECTOR + SECTOR <= UINT32_LIMIT
    ensures d.Offset(f.lba + pos / SECTOR) + pos % SECTOR == d.Offset(f.lba) + pos
    ensures d.Offset(f.lba) + f.size <= UINT32_LIMIT && OnMedium(d, f)
  {
  }

  /** A guess is made after a seek into a file for direct reads that was last read in small steps. */
  ghost predicate Guesses(f: File, pos: nat, lastRead: nat, canOpen: bool) {
    DirectSize(f, SECTOR) != 0 && pos < f.size && 0 < lastRead <= 2 * SECTOR && canOpen
  }

  /** The sector of a position is in the cache. */
  ghost predicate CachedAt(cache: BlockCache.Cache, f: File, pos: nat)
    requires cache.Valid()
    reads cache, cache.entries, cache.buckets, cache.next, cache.device
  {
    f.lba + pos / SECTOR < LBA_LIMIT && CacheModel.Find(cache.Abs().lines, f.lba + pos / SECTOR) >= 0
  }

  /** Two or more whole sectors are wanted, of a file for direct reads, and the buffer allows it. */
  ghost predicate Direct(f: File, pos: nat, len: nat, allowed: bool) {
    var want := Wanted(f, pos, len);
    DirectSize(f, SECTOR) != 0 && allowed && pos % SECTOR == 0 && want % SECTOR == 0 && want >= 2 * SECTOR
  }

  /** What is wanted stands in one sector, of a file for direct reads. */
  ghost predicate InOneSector(f: File, pos: nat, len: nat) {
    DirectSize(f, SECTOR) != 0 && 0 < Wanted(f, pos, len) <= SECTOR - pos % SECTOR
  }

  function Least(a: int, b: int): int {
    if a < b then a else b
  }

  class Handle {
    const file: File
    var pos: nat
    const directSize: nat
    var lastRead: nat

    ghost predicate Valid(d: Drive)
      reads this`pos
    {
      directSize == DirectSize(file, d.sectorSize) && pos <= file.size
    }

    constructor (file: File, d: Drive)
      ensures Valid(d) && this.file == file && pos == 0
    {
      this.file := file;
      directSize := DirectSize(file, d.sectorSize);
      pos, lastRead := 0, 0;
    }

    /** Move to another position. */
    method Seek(offset: int, mode: SeekMode) returns (err: Outcome, oldPos: int)
      requires -INT64_MAX - 1 <= offset <= INT64_MAX
      modifies this`pos
      ensures err == Done || err == SeekError
      ensures err == Done <==> mode != Other && file.size <= INT64_MAX && old(pos) <= file.size
                               && 0 <= offset + (match mode case Beginning => 0 case Current => old(pos) case _ => file.size) <= file.size
      ensures err == Done ==> oldPos == old(pos) && pos == offset + (match mode case Beginning => 0 case Current => old(pos) case _ => file.size)
      ensures err != Done ==> oldPos == -1 && pos == old(pos)
    {
      oldPos := -1;
      if file.size > INT64_MAX || pos > file.size {
        return SeekError, oldPos;
      }
      var base: int;
      match mode {
        case Beginning => base := 0;
        case Current => base := pos;
        case End => base := file.size;
        case Other => return SeekError, oldPos;
      }
      if offset > 0 && base > INT64_MAX - offset {
        return SeekError, oldPos;
      }
      var newPos := base + offset;
      if newPos < 0 || newPos > file.size {
        return SeekError, oldPos;
      }
      oldPos := pos;
      pos := newPos;
      err := Done;
    }
  }

  class Reader {
    const cache: BlockCache.Cache
    var ahead: Ahead
    var aheadLba: Lba
    var aheadCount: nat
    var aheadData: Bytes

    /** Sectors read ahead are those of the medium. */
    ghost predicate AheadValid()
      reads this
    {
      ahead != Idle ==> aheadLba + aheadCount <= LBA_LIMIT
                        && (ahead == Ready ==> aheadData == cache.device.drive.Span(aheadLba, aheadCount))
    }

    ghost predicate Valid()
      reads this, cache, cache.entries, cache.buckets, cache.next, cache.device
    {
      ByteReader.Sound(cache) && cache.device.drive.Valid() && cache.device.drive.sectorSize == SECTOR && AheadValid()
    }

    /** The sector of a position is among those read ahead, or asked for. */
    predicate AheadOf(f: File, pos: nat)
      reads this
    {
      ahead != Idle && aheadLba <= f.lba + pos / SECTOR < aheadLba + aheadCount
    }

    /** Bytes read ahead from a position on. */
    function AheadBytesLeft(f: File, pos: nat): int
      reads this
    {
      (aheadLba + aheadCount - f.lba - pos / SECTOR) * SECTOR - pos % SECTOR
    }

    constructor (cache: BlockCache.Cache)
      requires ByteReader.Sound(cache) && cache.device.drive.sectorSize == SECTOR
      ensures Valid() && this.cache == cache
    {
      this.cache := cache;
      ahead, aheadLba, aheadCount, aheadData := Idle, 0, 0, [];
    }

    /** Give up the read-ahead under way. */
    method CancelAhead()
      requires Valid()
      modifies this`ahead
      ensures Valid() && ahead == Idle
    {
      hide ByteReader.Sound;
      ahead := Idle;
    }

    /** Wait for the read-ahead under way. */
    method WaitAhead()
      requires Valid()
      modifies this`ahead, this`aheadData, cache.device
      ensures Valid() && (old(ahead) != Busy ==> ahead == old(ahead)) && ahead != Busy
      ensures old(ahead) == Busy && cache.device.drive.AlwaysDelivers() ==> ahead == Ready
    {
      hide ByteReader.Sound;
      if ahead != Busy {
        return;
      }
      var err, data := ByteReader.ReadDevice(cache, aheadLba, aheadCount);
      ahead := if err == Ok then Ready else Idle;
      aheadData := data;
    }

    /** After a seek, guess which sectors a small read is going to want, and ask
        for them unless the cache or an earlier guess has them. */
    method StartAhead(fh: Handle, canOpen: bool)
      requires Valid() && fh.Valid(cache.device.drive)
      modifies this
      ensures Valid()
      ensures if Guesses(fh.file, fh.pos, fh.lastRead, canOpen) && !CachedAt(cache, fh.file, fh.pos) && !old(AheadOf(fh.file, fh.pos))
              then ahead == Busy && aheadLba == fh.file.lba + fh.pos / SECTOR
                   && aheadCount == Least(AHEAD_SECTORS, (fh.file.size + SECTOR - 1) / SECTOR - fh.pos / SECTOR)
              else ahead == old(ahead) && aheadLba == old(aheadLba) && aheadCount == old(aheadCount) && aheadData == old(aheadData)
    {
      hide DirectSize, ByteReader.Sound, CachedAt, BlockCache.Cache.Valid, CacheModel.Find;
      DirectSizeIs(fh.file, SECTOR);
      if fh.directSize == 0 || fh.lastRead == 0 || fh.lastRead > 2 * SECTOR || fh.pos >= UINT32_LIMIT || fh.pos >= fh.directSize {
        return;
      }
      DirectFits(cache.device.drive, fh.file, fh.pos);
      var sector := fh.pos / SECTOR;
      var lba := fh.file.lba + sector;
      var cached := Cached(lba);
      CachedIs(cache, fh.file, fh.pos);
      AheadDiffers(lba, aheadLba, aheadCount);
      if (ahead != Idle && (lba - aheadLba) % UINT32_LIMIT < aheadCount) || cached || !canOpen {
        return;
      }
      // stay inside the file
      var count := (fh.directSize - 1) / SECTOR - sector + 1;
      LastSector(fh.directSize);
      if count > AHEAD_SECTORS {
        count := AHEAD_SECTORS;
      }
      CancelAhead();
      aheadLba, aheadCount, ahead := lba, count, Busy;
    }

    method Cached(lba: Lba) returns (found: bool)
      requires Valid()
      ensures found <==> CacheModel.Find(cache.Abs().lines, lba) >= 0
    {
      found := cache.Contains(lba);
    }

    /** Copy what a read wants of the sectors read ahead. */
    method ReadAhead(fh: Handle, len: nat) returns (data: Bytes)
      requires Valid() && fh.Valid(cache.device.drive) && fh.directSize != 0
      modifies this`ahead, this`aheadData, cache.device, fh`pos
      ensures Valid() && fh.Valid(cache.device.drive)
      ensures Advanced(cache.device.drive, fh.file, old(fh.pos), len, fh.pos, data)
      ensures old(fh.pos) < fh.file.size && old(AheadOf(fh.file, fh.pos)) && (old(ahead) == Ready || cache.device.drive.AlwaysDelivers()) ==>
                |data| == Least(Wanted(fh.file, old(fh.pos), len), AheadBytesLeft(fh.file, old(fh.pos)))
      ensures !old(AheadOf(fh.file, fh.pos)) ==> data == []
    {
      hide Advanced, ByteReader.Sound, DirectSize, FileBytes, Drive.Span, Drive.Slice, Drive.ByteAt;
      var d := cache.device.drive;
      data := [];
      DirectSizeIs(fh.file, SECTOR);
      NothingRead(d, fh.file, fh.pos, len);
      if fh.pos >= UINT32_LIMIT {
        return;
      }
      var pos := fh.pos;
      var off := (fh.file.lba + pos / SECTOR - aheadLba) % UINT32_LIMIT;
      if pos >= fh.directSize || off >= aheadCount {
        return;
      }
      WaitAhead();
      if ahead != Ready {
        return;
      }
      DirectFits(d, fh.file, pos);
      AheadBytes(d, fh.file, pos, aheadLba, aheadCount, off);
      off := off * SECTOR + pos % SECTOR;
      var n := aheadCount * SECTOR - off;
      if n > fh.directSize - pos {
        n := fh.directSize - pos;
      }
      if n > len {
        n := len;
      }
      AheadSlice(d, fh.file, pos, aheadLba, aheadCount, off, n);
      data := aheadData[off..off + n];
      Gives(d, fh.file, pos, len, data);
      fh.pos := pos + n;
    }

    /** Part of a sector, when the sector is in the cache. */
    method CachedPart(lba: Lba, off: nat, len: nat) returns (data: Bytes)
      requires Valid() && 0 < len && off + len <= SECTOR
      modifies cache, cache.entries
      ensures Valid()
      ensures data == [] || data == cache.device.drive.sector(lba)[off..off + len]
      ensures data != [] <==> old(CacheModel.Find(cache.Abs().lines, lba)) >= 0
    {
      hide CacheModel.Coherent, BlockCache.Cache.Valid, Drive.Span;
      data := [];
      var slot := cache.ReadCached(lba);
      if slot >= 0 {
        data := cache.entries[slot].data[off..off + len];
      }
    }

    /** A read inside one sector, from the cache when the sector is there. */
    method ReadCachedSector(fh: Handle, len0: nat) returns (data: Bytes)
      requires Valid() && fh.Valid(cache.device.drive)
      modifies cache, cache.entries, fh`pos
      ensures Valid() && fh.Valid(cache.device.drive)
      ensures Advanced(cache.device.drive, fh.file, old(fh.pos), len0, fh.pos, data)
      ensures data != [] ==> |data| == Wanted(fh.file, old(fh.pos), len0)
      ensures data != [] <==> InOneSector(fh.file, old(fh.pos), len0) && old(CachedAt(cache, fh.file, fh.pos))
    {
      hide ByteReader.Sound, Advanced, DirectSize, FileBytes, Drive.Span, Drive.Offset;
      var d := cache.device.drive;
      data := [];
      DirectSizeIs(fh.file, SECTOR);
      NothingRead(d, fh.file, fh.pos, len0);
      if fh.directSize == 0 || fh.pos >= UINT32_LIMIT || fh.pos >= fh.directSize {
        return;
      }
      var pos, len := fh.pos, len0;
      if len > fh.directSize - pos {
        len := fh.directSize - pos;
      }
      var off := pos % SECTOR;
      if len == 0 || len > SECTOR - off {
        return;
      }
      CachedBytes(d, fh.file, pos, len, len0);
      var lba := fh.file.lba + pos / SECTOR;
      data := CachedPart(lba, off, len);
      if data == [] {
        return;
      }
      fh.pos := pos + len;
    }

    /** A read of whole sectors by one request into the caller's buffer, when
        the buffer and the device may take it. */
    method ReadDirect(fh: Handle, len: nat, allowed: bool) returns (done: bool, data: Bytes)
      requires Valid() && fh.Valid(cache.device.drive)
      modifies cache.device, fh`pos
      ensures Valid() && fh.Valid(cache.device.drive)
      ensures Advanced(cache.device.drive, fh.file, old(fh.pos), len, fh.pos, data)
      ensures if done then |data| == Wanted(fh.file, old(fh.pos), len) else data == []
      ensures done ==> Direct(fh.file, old(fh.pos), len, allowed)
      ensures Direct(fh.file, old(fh.pos), len, allowed) && cache.device.drive.AlwaysDelivers() ==> done
    {
      hide Advanced, ByteReader.Sound, DirectSize, FileBytes;
      var d := cache.device.drive;
      done, data := false, [];
      DirectSizeIs(fh.file, SECTOR);
      NothingRead(d, fh.file, fh.pos, len);
      if fh.directSize == 0 || fh.pos >= UINT32_LIMIT || fh.pos >= fh.directSize {
        return;
      }
      var pos := fh.pos;
      var want := fh.directSize - pos;
      if want > len {
        want := len;
      }
      if pos % SECTOR != 0 || want % SECTOR != 0 || want < 2 * SECTOR || !allowed {
        return;
      }
      DirectFits(d, fh.file, pos);
      DirectBytes(d, fh.file, pos, want);
      var lba := fh.file.lba + pos / SECTOR;
      // the byte address that the device is given fits 32 bits
      assert lba * SECTOR + want <= UINT32_LIMIT;
      var err;
      err, data := ByteReader.ReadDevice(cache, lba, want / SECTOR);
      if err != Ok {
        return false, [];
      }
      Gives(d, fh.file, pos, len, data);
      fh.pos := pos + want;
      done := true;
    }

    /** The general read of up to len bytes, through the cache; actual is the
        length it leaves, data what it wrote. */
    method ReadGeneral(fh: Handle, len: nat) returns (err: Error, actual: nat, data: Bytes)
      requires Valid() && fh.Valid(cache.device.drive) && len < UINT32_LIMIT && fh.file.size < UINT64_LIMIT
      modifies cache, cache.entries, cache.buckets, cache.next, cache.device
      ensures Valid()
      ensures GeneralRead(cache.device.drive, fh.file, fh.pos, len, err, actual, data)
    {
      hide ByteReader.Sound, DirectSize, FileBytes, GeneralRead, Begins;
      var d := cache.device.drive;
      if fh.pos >= fh.file.size {
        NothingWanted(d, fh.file, fh.pos, len);
        return Ok, 0, [];
      }
      var want := len;
      if want > fh.file.size - fh.pos {
        want := fh.file.size - fh.pos;
      }
      AddressFits(d, fh.file, fh.pos);
      err, actual, data := ByteReader.ReadBytes(cache, fh.file.lba, fh.pos, want);
      if want == 0 {
        NothingWanted(d, fh.file, fh.pos, len);
      } else {
        GeneralBytes(d, fh.file, fh.pos, len, err, actual, data);
      }
    }

    /** Read up to len bytes at the position of a handle; count is what the
        caller is told, data what was written. */
    method ReadObject(fh: Handle, len: int, allowed: bool) returns (err: Outcome, count: nat, data: Bytes)
      requires Valid() && fh.Valid(cache.device.drive) && len < 0x8000_0000 && fh.file.size < UINT64_LIMIT
      modifies this, cache, cache.entries, cache.buckets, cache.next, cache.device, fh
      ensures Valid() && fh.Valid(cache.device.drive)
      ensures len < 0 ==> err == BadNumber && count == 0 && data == [] && fh.pos == old(fh.pos)
      ensures len >= 0 ==> ReadAs(cache.device.drive, fh.file, old(fh.pos), len, err, count, fh.pos, data)
    {
      hide ByteReader.Sound, DirectSize, FileBytes, Advanced, ReadAs, GeneralRead, Begins, Direct, InOneSector, CachedAt, AheadBytesLeft, AheadOf,
        Least, Available, BlockCache.Cache.Valid, CacheModel.Find;
      count, data := 0, [];
      if len < 0 {
        return BadNumber, count, data;
      }
      fh.lastRead := len;
      var d := cache.device.drive;
      ghost var start := fh.pos;
      NothingRead(d, fh.file, start, len);
      if fh.directSize != 0 {
        DirectOnMedium(d, fh.file);
        if len >= 2 * SECTOR {
          var done;
          done, data := ReadDirect(fh, len, allowed);
          AdvancedBy(d, fh.file, start, len, fh.pos, data);
          if done {
            AllRead(d, fh.file, start, len, fh.pos, data);
            return Done, |data|, data;
          }
        } else if len > 0 {
          if ahead != Idle {
            data := ReadAhead(fh, len);
            AdvancedBy(d, fh.file, start, len, fh.pos, data);
            DirectSizeIs(fh.file, SECTOR);
            if data != [] && (|data| == len || fh.pos >= fh.directSize) {
              AllRead(d, fh.file, start, len, fh.pos, data);
              return Done, |data|, data;
            }
          }
          var more := ReadCachedSector(fh, len - |data|);
          AdvancedJoin(d, fh.file, start, len, data, fh.pos, more);
          if more != [] {
            AllRead(d, fh.file, start, len, fh.pos, data + more);
            return Done, |data| + |more|, data + more;
          }
          assert data + [] == data;
        }
      }
      var e, actual, rest := ReadGeneral(fh, len - |data|);
      GeneralJoin(d, fh.file, start, len, data, e, actual, rest);
      if e != Ok && actual == 0 && data == [] {
        return Failed, 0, data;
      }
      fh.pos := fh.pos + actual;
      return Done, |data| + actual, data + rest;
    }
  }

  /** A position stands in a sector that has an address. */
  ghost predicate Begins(d: Drive, f: File, pos: nat) {
    f.lba + pos / SECTOR < LBA_LIMIT
  }

  /** What there is on the medium of want bytes at pos. */
  ghost function Available(d: Drive, f: File, pos: nat, want: nat): nat {
    if want == 0 || d.Offset(f.lba) + pos + want <= d.Size() then want
    else if d.Offset(f.lba) + pos <= d.Size() then d.Size() - (d.Offset(f.lba) + pos) else 0
  }

  /** A general read: from a sector that has an address it gives bytes of the
      file, all of them unless the medium ends or the device fails; from another
      one nothing, and the length is left as it was. */
  ghost predicate GeneralRead(d: Drive, f: File, pos: nat, len: nat, err: Error, actual: nat, data: Bytes)
    requires d.Valid() && d.sectorSize > 0
  {
    var want := Wanted(f, pos, len);
    if want > 0 && !Begins(d, f, pos) then err == Range && actual == want && data == []
    else
      && actual == |data| && Advanced(d, f, pos, len, pos + actual, data)
      && (err == Ok || err == Io || err == Range) && (err == Ok ==> actual == want)
      && (err == Range ==> actual == Available(d, f, pos, want) > 0)
      && (d.AlwaysDelivers() ==> err != Io && actual == Available(d, f, pos, want))
  }

  /** What a read comes to for its caller: the same, but success is reported
      unless nothing was read, and the position follows the length. */
  ghost predicate ReadAs(d: Drive, f: File, start: nat, len: nat, err: Outcome, count: nat, pos': nat, data: Bytes)
    requires d.Valid() && d.sectorSize > 0
  {
    var want := Wanted(f, start, len);
    && pos' == start + count
    && if want > 0 && !Begins(d, f, start) then err == Done && count == want && data == []
       else
         && count == |data| && Advanced(d, f, start, len, pos', data)
         && (err == Done || (err == Failed && data == []))
         && (d.AlwaysDelivers() ==> err == Done && count == Available(d, f, start, want))
  }

  /** The length reported is that of the bytes written exactly for reads that
      want nothing or start in a sector that has an address; the others are told
      of bytes that nobody wrote. */
  lemma {:induction false} CountIsTrue(d: Drive, f: File, start: nat, len: nat, err: Outcome, count: nat, pos': nat, data: Bytes)
    requires d.Valid() && d.sectorSize > 0 && ReadAs(d, f, start, len, err, count, pos', data)
    ensures count == |data| <==> Wanted(f, start, len) == 0 || Begins(d, f, start)
    ensures OnMedium(d, f) && d.sectorSize == SECTOR ==>
              && count == |data| && Advanced(d, f, start, len, pos', data)
              && (d.AlwaysDelivers() ==> err == Done && count == Wanted(f, start, len))
  {
    if OnMedium(d, f) && d.sectorSize == SECTOR && start < f.size {
      TrueEverywhere(d, f);
    }
  }

  /** Every read of a file is told the truth exactly when the file is on the medium. */
  lemma {:induction false} TrueEverywhere(d: Drive, f: File)
    requires d.sectorSize == SECTOR
    ensures (forall pos: nat :: pos < f.size ==> Begins(d, f, pos)) <==> OnMedium(d, f)
  {
    if !OnMedium(d, f) {
      assert f.size > 0 && !Begins(d, f, f.size - 1);
    }
  }

  /** A file of two sectors at the last address, as a merge can make it: a read
      in its second sector is told of 100 bytes, and none is written. */
  lemma {:induction false} ReadPastTheMedium(d: Drive, err: Outcome, count: nat, pos': nat, data: Bytes)
    requires d.Valid() && d.sectorSize == SECTOR
    requires ReadAs(d, File(LBA_LIMIT - 1, 2 * SECTOR), SECTOR, 100, err, count, pos', data)
    ensures err == Done && count == 100 && pos' == SECTOR + 100 && data == []
  {
  }

  /** A read went on from pos to pos', and gave the bytes between. */
  ghost predicate Advanced(d: Drive, f: File, pos: nat, len: nat, pos': nat, data: Bytes)
    requires d.Valid() && d.sectorSize > 0
  {
    && pos' == pos + |data| && |data| <= len && pos' <= f.size
    && (data != [] ==> d.Offset(f.lba) + pos' <= d.Size() && data == FileBytes(d, f, pos, |data|))
  }

  lemma {:induction false} NothingRead(d: Drive, f: File, pos: nat, len: nat)
    requires d.Valid() && d.sectorSize > 0 && pos <= f.size
    ensures Advanced(d, f, pos, len, pos, [])
  {
  }

  lemma {:induction false} Gives(d: Drive, f: File, pos: nat, len: nat, data: Bytes)
    requires d.Valid() && d.sectorSize > 0 && OnMedium(d, f) && pos + |data| <= f.size && |data| <= len
    requires data == FileBytes(d, f, pos, |data|)
    ensures Advanced(d, f, pos, len, pos + |data|, data)
  {
  }

  lemma {:induction false} NothingWanted(d: Drive, f: File, pos: nat, len: nat)
    requires d.Valid() && d.sectorSize > 0 && pos <= f.size && Wanted(f, pos, len) == 0
    ensures GeneralRead(d, f, pos, len, Ok, 0, [])
  {
  }

  /** A file with a size for direct reads is on the medium. */
  lemma {:induction false} DirectOnMedium(d: Drive, f: File)
    requires DirectSize(f, d.sectorSize) != 0
    ensures OnMedium(d, f)
  {
    DirectFits(d, f, 0);
  }

  /** A read that gave all that was wanted of a file on the medium. */
  lemma {:induction false} AllRead(d: Drive, f: File, start: nat, len: nat, pos': nat, data: Bytes)
    requires d.Valid() && d.sectorSize == SECTOR && OnMedium(d, f) && Advanced(d, f, start, len, pos', data)
    requires |data| == Wanted(f, start, len)
    ensures ReadAs(d, f, start, len, Done, |data|, pos', data)
  {
    if start < f.size {
      TrueEverywhere(d, f);
    }
  }

  /** A general read that goes on after bytes read ahead makes one read with them. */
  lemma {:induction false} GeneralJoin(d: Drive, f: File, start: nat, len: nat, data: Bytes, err: Error, actual: nat, rest: Bytes)
    requires d.Valid() && d.sectorSize == SECTOR && |data| <= len && (data == [] || OnMedium(d, f))
    requires Advanced(d, f, start, len, start + |data|, data)
    requires GeneralRead(d, f, start + |data|, len - |data|, err, actual, rest)
    ensures start + |data| + actual <= f.size
    ensures if err != Ok && actual == 0 && data == [] then ReadAs(d, f, start, len, Failed, 0, start, [])
            else ReadAs(d, f, start, len, Done, |data| + actual, start + |data| + actual, data + rest)
  {
    hide FileBytes, d.Offset;
    var pos := start + |data|;
    if data == [] {
      assert [] + rest == rest;
    } else {
      TrueEverywhere(d, f);
      AdvancedJoin(d, f, start, len, data, pos + actual, rest);
      OnMediumGivesAll(d, f, start, Wanted(f, start, len));
      OnMediumGivesAll(d, f, pos, Wanted(f, pos, len - |data|));
    }
  }

  lemma {:induction false} OnMediumGivesAll(d: Drive, f: File, pos: nat, want: nat)
    requires OnMedium(d, f) && (want > 0 ==> pos + want <= f.size)
    ensures Available(d, f, pos, want) == want
  {
  }

  lemma {:induction false} DirectSizeIs(f: File, sectorSize: nat)
    ensures DirectSize(f, sectorSize) == 0 || (DirectSize(f, sectorSize) == f.size && f.size < UINT32_LIMIT)
  {
  }

  /** The 32-bit difference of addresses tells whether a sector is among those read ahead. */
  lemma {:induction false} AheadDiffers(lba: Lba, aheadLba: Lba, aheadCount: nat)
    ensures aheadLba + aheadCount <= LBA_LIMIT ==> ((lba - aheadLba) % UINT32_LIMIT < aheadCount <==> aheadLba <= lba < aheadLba + aheadCount)
  {
  }

  lemma {:induction false} LastSector(size: nat)
    requires size > 0
    ensures (size - 1) / SECTOR + 1 == (size + SECTOR - 1) / SECTOR
  {
  }

  lemma {:induction false} CachedIs(cache: BlockCache.Cache, f: File, pos: nat)
    requires ByteReader.Sound(cache) && f.lba + pos / SECTOR < LBA_LIMIT
    ensures CachedAt(cache, f, pos) <==> CacheModel.Find(cache.Abs().lines, f.lba + pos / SECTOR) >= 0
  {
    hide BlockCache.Cache.Valid;
  }

  /** Where in the sectors read ahead a position stands. */
  lemma {:induction false} AheadBytes(d: Drive, f: File, pos: nat, aheadLba: Lba, aheadCount: nat, off: nat)
    requires d.sectorSize == SECTOR && f.lba + pos / SECTOR < LBA_LIMIT && aheadLba + aheadCount <= LBA_LIMIT
    requires off == (f.lba + pos / SECTOR - aheadLba) % UINT32_LIMIT && off < aheadCount
    ensures f.lba + pos / SECTOR == aheadLba + off
    ensures off * SECTOR + pos % SECTOR < aheadCount * SECTOR
    ensures d.Offset(aheadLba) + off * SECTOR + pos % SECTOR == d.Offset(f.lba) + pos
  {
  }

  lemma {:induction false} AheadSlice(d: Drive, f: File, pos: nat, aheadLba: Lba, aheadCount: nat, off: nat, n: nat)
    requires d.Valid() && d.sectorSize == SECTOR && OnMedium(d, f) && aheadLba + aheadCount <= LBA_LIMIT && pos + n <= f.size
    requires off + n <= aheadCount * SECTOR && d.Offset(aheadLba) + off == d.Offset(f.lba) + pos
    ensures |d.Span(aheadLba, aheadCount)| == aheadCount * SECTOR
    ensures d.Span(aheadLba, aheadCount)[off..off + n] == FileBytes(d, f, pos, n)
  {
    hide d.ByteAt, d.Span, d.Slice;
    SpanLength(d, aheadLba, aheadCount);
    SpanSlice(d, aheadLba, aheadCount);
    SubSlice(d, d.Offset(aheadLba), d.Offset(aheadCount), off, n);
  }

  /** What a read of len bytes at pos gives when nothing fails. */
  function Wanted(f: File, pos: nat, len: nat): nat {
    if pos >= f.size then 0 else if len < f.size - pos then len else f.size - pos
  }

  lemma {:induction false} SectorBytes(d: Drive, f: File, pos: nat, n: nat)
    requires d.Valid() && d.sectorSize == SECTOR && OnMedium(d, f) && f.lba + pos / SECTOR < LBA_LIMIT
    requires pos + n <= f.size && pos % SECTOR + n <= SECTOR
    ensures d.sector(f.lba + pos / SECTOR)[pos % SECTOR..pos % SECTOR + n] == FileBytes(d, f, pos, n)
  {
    hide d.ByteAt, d.Slice;
    assert d.Offset(f.lba + pos / SECTOR) + pos % SECTOR == d.Offset(f.lba) + pos;
    SectorSlice(d, f.lba + pos / SECTOR, pos % SECTOR, n);
  }

  lemma {:induction false} CachedBytes(d: Drive, f: File, pos: nat, len: nat, len0: nat)
    requires d.Valid() && d.sectorSize == SECTOR && DirectSize(f, d.sectorSize) != 0
    requires pos + len <= f.size && 0 < len <= SECTOR - pos % SECTOR && len <= len0
    ensures f.lba + pos / SECTOR < LBA_LIMIT
    ensures var bytes := d.sector(f.lba + pos / SECTOR);
            |bytes| == SECTOR && Advanced(d, f, pos, len0, pos + len, bytes[pos % SECTOR..pos % SECTOR + len])
  {
    hide d.ByteAt, d.Slice, d.Offset, DirectSize, Advanced;
    DirectFits(d, f, pos);
    SectorBytes(d, f, pos, len);
    Gives(d, f, pos, len0, FileBytes(d, f, pos, len));
  }

  lemma {:induction false} DirectBytes(d: Drive, f: File, pos: nat, want: nat)
    requires d.Valid() && DirectSize(f, d.sectorSize) != 0 && pos % SECTOR == 0 && want % SECTOR == 0 && want > 0 && pos + want <= f.size
    ensures OnMedium(d, f) && f.lba + pos / SECTOR + want / SECTOR <= LBA_LIMIT
    ensures (f.lba + pos / SECTOR) * SECTOR + want <= UINT32_LIMIT
    ensures d.Span(f.lba + pos / SECTOR, want / SECTOR) == FileBytes(d, f, pos, want)
    ensures |d.Span(f.lba + pos / SECTOR, want / SECTOR)| == want
  {
    hide d.ByteAt, d.Slice, d.Span;
    DirectFits(d, f, pos);
    DirectFits(d, f, pos + want - 1);
    SpanSlice(d, f.lba + pos / SECTOR, want / SECTOR);
    assert d.Offset(want / SECTOR) == want;
  }

  lemma {:induction false} AddressFits(d: Drive, f: File, pos: nat)
    requires d.sectorSize == SECTOR && pos < f.size < UINT64_LIMIT
    ensures f.lba + pos / d.sectorSize < UINT64_LIMIT
  {
  }

  /** What the byte reader answers, for the position in a file: the length is
      that of the bytes written exactly when the position stands in a sector that
      has an address. */
  lemma {:induction false} GeneralBytes(d: Drive, f: File, pos: nat, len: nat, err: Error, actual: nat, out: Bytes)
    requires d.Valid() && d.sectorSize == SECTOR && Wanted(f, pos, len) > 0
    requires ByteReader.ReadResult(d, d.Offset(f.lba) + pos, Wanted(f, pos, len), err, actual, out)
    requires d.AlwaysDelivers() ==> err != Io
    ensures |out| == actual <==> Begins(d, f, pos)
    ensures GeneralRead(d, f, pos, len, err, actual, out)
  {
    hide d.ByteAt, d.Slice;
    assert Begins(d, f, pos) <==> d.Offset(f.lba) + pos < d.Size();
  }

  lemma {:induction false} AdvancedBy(d: Drive, f: File, pos: nat, len: nat, pos': nat, data: Bytes)
    requires d.Valid() && d.sectorSize > 0 && Advanced(d, f, pos, len, pos', data)
    ensures pos' == pos + |data| && |data| <= len && pos' <= f.size
  {
  }

  /** A read that goes on where another stopped makes one read with it. */
  lemma {:induction false} AdvancedJoin(d: Drive, f: File, pos: nat, len: nat, data: Bytes, pos': nat, more: Bytes)
    requires d.Valid() && d.sectorSize > 0 && |data| <= len
    requires Advanced(d, f, pos, len, pos + |data|, data) && Advanced(d, f, pos + |data|, len - |data|, pos', more)
    ensures Advanced(d, f, pos, len, pos', data + more)
    ensures |data| + |more| == pos' - pos <= len && pos' <= f.size
    ensures |more| == Wanted(f, pos + |data|, len - |data|) ==> |data + more| == Wanted(f, pos, len)
  {
    hide FileBytes;
    if data == [] {
      assert [] + more == more;
    } else if more == [] {
      assert data + [] == data;
    } else {
      ReadsJoin(d, f, pos, |data|, |more|);
    }
  }

  /** Reads one after another from a position, each with what was asked and what it gave. */
  ghost predicate Stream(d: Drive, f: File, pos: nat, asked: seq<nat>, got: seq<Bytes>)
    requires d.Valid() && d.sectorSize > 0 && |asked| == |got|
    decreases |got|
  {
    got == [] || (Advanced(d, f, pos, asked[0], pos + |got[0]|, got[0]) && Stream(d, f, pos + |got[0]|, asked[1..], got[1..]))
  }

  function Joined(got: seq<Bytes>): Bytes {
    if got == [] then [] else got[0] + Joined(got[1..])
  }

  /** However a file is cut into reads and whatever path serves each, together they give one run of its bytes. */
  lemma {:induction false} StreamGivesFile(d: Drive, f: File, pos: nat, asked: seq<nat>, got: seq<Bytes>)
    requires d.Valid() && d.sectorSize > 0 && pos <= f.size
    requires |asked| == |got| && Stream(d, f, pos, asked, got)
    ensures pos + |Joined(got)| <= f.size
    ensures Joined(got) != [] ==> d.Offset(f.lba) + pos + |Joined(got)| <= d.Size() && Joined(got) == FileBytes(d, f, pos, |Joined(got)|)
    decreases |got|
  {
    hide d.ByteAt, d.Offset, d.Size;
    if got != [] {
      var rest := Joined(got[1..]);
      StreamGivesFile(d, f, pos + |got[0]|, asked[1..], got[1..]);
      if got[0] == [] {
        assert [] + rest == rest;
      } else if rest == [] {
        assert got[0] + [] == got[0];
      } else {
        ReadsJoin(d, f, pos, |got[0]|, |rest|);
      }
    }
  }

  /** When no read fails, reading until a read gives nothing copies the rest of
      the file; that can only be so when the file is on the medium. */
  lemma {:induction false} CopyIsWhole(d: Drive, f: File, pos: nat, asked: seq<nat>, got: seq<Bytes>)
    requires d.Valid() && d.sectorSize > 0 && pos <= f.size
    requires |asked| == |got| > 0 && Stream(d, f, pos, asked, got)
    requires asked[|asked| - 1] > 0 && got[|got| - 1] == []
    requires forall i :: 0 <= i < |got| ==> |got[i]| == Wanted(f, pos + |Joined(got[..i])|, asked[i])
    ensures pos + |Joined(got)| == f.size
    ensures pos < f.size ==> OnMedium(d, f) && Joined(got) == FileBytes(d, f, pos, f.size - pos)
  {
    hide d.ByteAt, d.Offset, d.Size;
    StreamGivesFile(d, f, pos, asked, got);
    var before := got[..|got| - 1];
    assert got == before + [[]];
    JoinedWithout(before);
  }

  lemma {:induction false} JoinedWithout(got: seq<Bytes>)
    ensures Joined(got + [[]]) == Joined(got)
  {
    if got != [] {
      assert (got + [[]])[1..] == got[1..] + [[]];
      JoinedWithout(got[1..]);
    }
  }
}
