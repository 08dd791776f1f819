/**
 The medium as an immutable map from block addresses to sectors, and a device
 whose answers to read requests are fixed in advance but otherwise arbitrary.
 */
module BlockDevice {

  const LBA_LIMIT: int := 0x1_0000_0000

  /** A 32-bit logical block address. */
  type Lba = x: int | 0 <= x < LBA_LIMIT
  type Bytes = seq<bv8>

  /** Results of the operations modelled. */
  datatype Error = Ok | Inval | Range | Overflow | Corrupt | Io | BadFormat | Unsupported | NotFound | NoMemory | NameTooLong | NotDir | Eof

  /** How one read request ends: with the sectors in the buffer, with the
      buffer as it was, or with other bytes left in it. */
  datatype Reply = Delivered | Refused | Scribbled(left: Bytes)

  /** A drive: its sectors, and its reply to request number n for count
      sectors from lba on. */
  datatype Drive = Drive(sectorSize: nat, sector: Lba -> Bytes, reply: (nat, Lba, nat) -> Reply)
  {
    ghost predicate Valid() {
      && (forall lba: Lba :: |sector(lba)| == sectorSize)
      && (forall n: nat, lba: Lba, count: nat :: reply(n, lba, count).Scribbled? ==>
            |reply(n, lba, count).left| == Offset(count))
    }

    /** A failed read leaves its buffer alone. */
    ghost predicate Careful() {
      forall n: nat, lba: Lba, count: nat :: !reply(n, lba, count).Scribbled?
    }

    ghost predicate AlwaysDelivers() {
      forall n: nat, lba: Lba, count: nat :: reply(n, lba, count) == Delivered
    }

    /** The bytes of count sectors from lba on. */
    function Span(lba: Lba, count: nat): (r: Bytes)
      requires lba + count <= LBA_LIMIT
      decreases count
    {
      if count == 0 then [] else Span(lba, count - 1) + sector(lba + count - 1)
    }

    /** Byte address of a sector, and the size of as many sectors. */
    function Offset(sectors: nat): nat {
      sectors * sectorSize
    }

    /** Bytes of the whole medium. */
    function Size(): nat {
      Offset(LBA_LIMIT)
    }

    ghost function ByteAt(pos: nat): bv8
      requires Valid() && sectorSize > 0 && pos < Size()
    {
      Scaled(LBA_LIMIT, pos / sectorSize, sectorSize);
      sector(pos / sectorSize)[pos % sectorSize]
    }

    /** The len bytes of the medium from byte address pos on. */
    ghost function Slice(pos: nat, len: nat): (r: Bytes)
      requires Valid() && sectorSize > 0 && pos + len <= Size()
      ensures |r| == len
      ensures forall i :: 0 <= i < len ==> r[i] == ByteAt(pos + i)
    {
      if len == 0 then [] else Slice(pos, len - 1) + [ByteAt(pos + len - 1)]
    }
  }

  // ----- byte addresses -----

  lemma {:induction false} Scaled(a: nat, b: nat, size: nat)
    ensures a <= b ==> a * size <= b * size
    ensures a < b ==> a * size + size <= b * size
    ensures (a + b) * size == a * size + b * size
  {
    if a < b {
      assert b * size == a * size + size + (b - a - 1) * size;
      assert (b - a - 1) * size >= 0;
    }
  }

  lemma {:induction false} Offsets(d: Drive, a: nat, b: nat)
    ensures d.Offset(a + b) == d.Offset(a) + d.Offset(b)
    ensures a <= b ==> d.Offset(a) <= d.Offset(b)
    ensures a < b ==> d.Offset(a) + d.sectorSize <= d.Offset(b)
    ensures d.Offset(1) == d.sectorSize && d.Offset(0) == 0
  {
    Scaled(a, b, d.sectorSize);
  }

  /** A byte address splits into a sector and an offset within it in one way. */
  lemma {:induction false} SectorAddress(size: nat, lba: nat, off: nat)
    requires off < size
    ensures (lba * size + off) / size == lba && (lba * size + off) % size == off
  {
    var q := (lba * size + off) / size;
    var r := (lba * size + off) % size;
    assert q * size + r == lba * size + off;
    Scaled(lba, q, size);
    Scaled(q, lba, size);
  }

  lemma {:induction false} SectorByte(d: Drive, lba: Lba, off: nat)
    requires d.Valid() && off < d.sectorSize
    ensures d.Offset(lba) + off < d.Size() && d.ByteAt(d.Offset(lba) + off) == d.sector(lba)[off]
  {
    Scaled(lba, LBA_LIMIT, d.sectorSize);
    SectorAddress(d.sectorSize, lba, off);
  }

  /** Slices that follow one another make one slice. */
  lemma {:induction false} SliceConcat(d: Drive, pos: nat, m: nat, n: nat)
    requires d.Valid() && d.sectorSize > 0 && pos + m + n <= d.Size()
    ensures d.Slice(pos, m) + d.Slice(pos + m, n) == d.Slice(pos, m + n)
  {
    hide d.ByteAt, d.Size;
  }

  /** Part of a slice is a slice. */
  lemma {:induction false} SubSlice(d: Drive, pos: nat, len: nat, off: nat, n: nat)
    requires d.Valid() && d.sectorSize > 0 && pos + len <= d.Size() && off + n <= len
    ensures d.Slice(pos, len)[off..off + n] == d.Slice(pos + off, n)
  {
    hide d.ByteAt, d.Size;
  }

  /** A stretch of one sector is a slice of the medium. */
  lemma {:induction false} SectorSlice(d: Drive, lba: Lba, off: nat, len: nat)
    requires d.Valid() && d.sectorSize > 0 && off + len <= d.sectorSize
    ensures d.Offset(lba) + off + len <= d.Size()
    ensures d.sector(lba)[off..off + len] == d.Slice(d.Offset(lba) + off, len)
  {
    hide d.ByteAt, d.Offset;
    Offsets(d, lba, LBA_LIMIT);
    var s := d.Slice(d.Offset(lba) + off, len);
    forall i {:trigger s[i]} | 0 <= i < len
      ensures s[i] == d.sector(lba)[off + i]
    {
      SectorByte(d, lba, off + i);
    }
  }

  /** Whole sectors are a slice of the medium. */
  lemma {:induction false} SpanSlice(d: Drive, lba: Lba, count: nat)
    requires d.Valid() && d.sectorSize > 0 && lba + count <= LBA_LIMIT
    ensures d.Offset(lba) + d.Offset(count) <= d.Size()
    ensures d.Span(lba, count) == d.Slice(d.Offset(lba), d.Offset(count))
    decreases count
  {
    hide d.ByteAt, d.Offset, d.Slice;
    Offsets(d, lba, count);
    Offsets(d, lba + count, LBA_LIMIT);
    if count > 0 {
      SpanSlice(d, lba, count - 1);
      SectorSlice(d, lba + count - 1, 0, d.sectorSize);
      assert d.sector(lba + count - 1)[0..d.sectorSize] == d.sector(lba + count - 1);
      Offsets(d, count - 1, 1);
      Offsets(d, lba, count - 1);
      SliceConcat(d, d.Offset(lba), d.Offset(count - 1), d.sectorSize);
    }
  }

  lemma {:induction false} SpanSector(d: Drive, lba: Lba, count: nat, i: nat)
    requires d.Valid() && lba + count <= LBA_LIMIT && i < count
    ensures d.Offset(i) + d.sectorSize == d.Offset(i + 1) <= |d.Span(lba, count)| == d.Offset(count)
    ensures d.Span(lba, count)[d.Offset(i)..d.Offset(i + 1)] == d.sector(lba + i)
  {
    hide d.Offset;
    Offsets(d, i, 1);
    Offsets(d, count - 1, 1);
    Offsets(d, i + 1, count);
    if i < count - 1 {
      SpanSector(d, lba, count - 1, i);
    } else {
      SpanLength(d, lba, i);
    }
  }

  lemma {:induction false} SpanLength(d: Drive, lba: Lba, count: nat)
    requires d.Valid() && lba + count <= LBA_LIMIT
    ensures |d.Span(lba, count)| == d.Offset(count)
  {
    hide d.Offset;
    Offsets(d, 0, 0);
    if count > 0 {
      Offsets(d, count - 1, 1);
      SpanLength(d, lba, count - 1);
    }
  }

  class Device {
    const drive: Drive
    /** Requests made so far. */
    var asked: nat

    constructor (drive: Drive)
      ensures this.drive == drive && asked == 0
    {
      this.drive := drive;
      asked := 0;
    }

    /** One request; buf is what the caller's buffer held before it. */
    method Read(lba: Lba, count: nat, buf: Bytes) returns (ok: bool, data: Bytes)
      requires drive.Valid() && lba + count <= LBA_LIMIT
      modifies this
      ensures asked == old(asked) + 1
      ensures var reply := drive.reply(old(asked), lba, count);
              && ok == reply.Delivered?
              && data == match reply
                         case Delivered => drive.Span(lba, count)
                         case Refused => buf
                         case Scribbled(left) => left
    {
      var reply := drive.reply(asked, lba, count);
      asked := asked + 1;
      match reply
      case Delivered => ok, data := true, drive.Span(lba, count);
      case Refused => ok, data := false, buf;
      case Scribbled(left) => ok, data := false, left;
    }
  }
}
