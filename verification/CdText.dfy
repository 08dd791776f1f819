/**
 CD-Text: titles written as a stream of characters cut into packs, and read
 back from them.
 */
module CdText {
  import opened BlockDevice
  import opened Names

  const PACK_DATA: nat := 12
  const TITLE: nat := 0x80
  const PERFORMER: nat := 0x81
  const POSITION_MAX: nat := 15
  /** Size of the buffers for strings of a cue sheet, with their terminators. */
  const TEXT_MAX: nat := 128
  const CURRENT_SIZE: nat := 160
  const TITLE_SIZE: nat := 80
  /** Most tracks of a cue sheet. */
  const TRACKS_MAX: nat := 99
  const ALBUM_SIZE: nat := 32
  const TAB: bv8 := 0x09

  /** Tracks are numbered in one byte. */
  type TrackNumber = x: nat | x < 256

  /** One pack, but for its checksum. */
  datatype Pack = Pack(kind: nat, track: TrackNumber, number: nat, position: nat, data: Bytes)

  /** A string and the track it belongs to; track 0 stands for the disc. */
  datatype Text = Text(track: TrackNumber, text: Name)

  // ----- the stream of characters -----

  /** One character of the stream, with its place. */
  datatype Char = Char(byte: bv8, track: TrackNumber, pos: nat)

  function CharsOf(t: Text): (r: seq<Char>)
    ensures |r| == |t.text| + 1
  {
    seq(|t.text| + 1, i requires 0 <= i <= |t.text| => Char(ByteAt(t.text, i), t.track, i))
  }

  /** Strings one after another, each with its terminator. */
  function Stream(texts: seq<Text>): seq<Char> {
    if texts == [] then [] else Stream(texts[..|texts| - 1]) + CharsOf(texts[|texts| - 1])
  }

  function BytesOf(chars: seq<Char>): (r: Bytes)
    ensures |r| == |chars| && forall i :: 0 <= i < |r| ==> r[i] == chars[i].byte
  {
    seq(|chars|, i requires 0 <= i < |chars| => chars[i].byte)
  }

  /** Packs that n characters fill, the last one perhaps in part. */
  function PacksFor(n: nat): nat {
    (n + PACK_DATA - 1) / PACK_DATA
  }

  function Padded(data: Bytes): (r: Bytes)
    ensures |r| == if |data| < PACK_DATA then PACK_DATA else |data|
    ensures data <= r && forall i :: |data| <= i < |r| ==> r[i] == 0
  {
    if |data| < PACK_DATA then data + seq(PACK_DATA - |data|, _ => 0) else data
  }

  /** A CD-Text pack that starts with the first of some characters. */
  function PackOf(kind: nat, chars: seq<Char>, number: nat): Pack
    requires chars != []
  {
    Pack(kind, chars[0].track, number % 256, if chars[0].pos < POSITION_MAX then chars[0].pos else POSITION_MAX, Padded(BytesOf(chars)))
  }

  /** Characters cut into packs, numbered from first on. */
  function Packs(kind: nat, chars: seq<Char>, first: nat): seq<Pack>
    decreases |chars|
  {
    if chars == [] then [] else
    var m := (|chars| - 1) / PACK_DATA;
    Packs(kind, chars[..m * PACK_DATA], first) + [PackOf(kind, chars[m * PACK_DATA..], first + m)]
  }

  lemma {:induction false} PacksCount(kind: nat, chars: seq<Char>, first: nat)
    ensures |Packs(kind, chars, first)| == PacksFor(|chars|)
    decreases |chars|
  {
    if chars != [] {
      PacksCount(kind, chars[..(|chars| - 1) / PACK_DATA * PACK_DATA], first);
    }
  }

  lemma {:induction false} PackIndex(n: nat, m: nat)
    requires m * PACK_DATA < n <= (m + 1) * PACK_DATA
    ensures (n - 1) / PACK_DATA == m && PacksFor(n) == m + 1
  {
  }

  /** The last pack, full or not, goes behind the others. */
  lemma {:induction false} LastPack(kind: nat, chars: seq<Char>, first: nat, m: nat)
    requires m * PACK_DATA < |chars| <= (m + 1) * PACK_DATA
    ensures Packs(kind, chars, first) == Packs(kind, chars[..m * PACK_DATA], first) + [PackOf(kind, chars[m * PACK_DATA..], first + m)]
  {
    hide PackOf;
    PackIndex(|chars|, m);
  }

  function Position(pos: nat): nat {
    if pos < POSITION_MAX then pos else POSITION_MAX
  }

  // ----- the writer -----

  /** Behind base, out holds the full CD-Text packs of chars, and data the characters left over. */
  ghost predicate Written(kind: nat, base: seq<Pack>, chars: seq<Char>, out: seq<Pack>, data: Bytes, track: TrackNumber, pos: nat) {
    var full := |chars| - |data|;
    && |data| < PACK_DATA && full >= 0 && |out| >= |base| && full == (|out| - |base|) * PACK_DATA
    && out == base + Packs(kind, chars[..full], |base|)
    && data == BytesOf(chars[full..])
    && (data != [] ==> track == chars[full].track && pos == Position(chars[full].pos))
  }

  lemma {:induction false} NothingWritten(kind: nat, base: seq<Pack>, track: TrackNumber, pos: nat)
    ensures Written(kind, base, [], base, [], track, pos)
  {
  }

  /** Writing out what is left over completes them. */
  lemma {:induction false} Complete(kind: nat, base: seq<Pack>, chars: seq<Char>, out: seq<Pack>, data: Bytes, track: TrackNumber, pos: nat)
    requires Written(kind, base, chars, out, data, track, pos)
    ensures data == [] ==> out == base + Packs(kind, chars, |base|) && |out| == |base| + PacksFor(|chars|)
    ensures data != [] ==>
              && out + [Pack(kind, track, |out| % 256, pos, Padded(data))] == base + Packs(kind, chars, |base|)
              && |out| + 1 == |base| + PacksFor(|chars|)
  {
    hide Packs, Padded, PacksFor;
    var m, full := |out| - |base|, |chars| - |data|;
    if data == [] {
      assert chars[..full] == chars;
      PacksCount(kind, chars, |base|);
    } else {
      PackIndex(|chars|, m);
      LastPack(kind, chars, |base|, m);
      assert PackOf(kind, chars[full..], |base| + m) == Pack(kind, track, |out| % 256, pos, Padded(data));
    }
  }

  /** One more character. */
  lemma {:induction false} OneMore(kind: nat, base: seq<Pack>, chars: seq<Char>, out: seq<Pack>, data: Bytes, track: TrackNumber, pos: nat,
                                   k: nat, c: Char)
    requires Written(kind, base, chars, out, data, track, pos) && (chars != [] ==> k == kind)
    ensures var data' := data + [c.byte];
            var track', pos' := if data == [] then c.track else track, if data == [] then Position(c.pos) else pos;
            if |data'| < PACK_DATA then Written(k, base, chars + [c], out, data', track', pos')
            else Written(k, base, chars + [c], out + [Pack(k, track', |out| % 256, pos', data')], [], track', pos')
  {
    hide Packs, PacksFor;
    var full, data', chars' := |chars| - |data|, data + [c.byte], chars + [c];
    var track', pos' := if data == [] then c.track else track, if data == [] then Position(c.pos) else pos;
    assert chars'[..full] == chars[..full] && chars'[full..] == chars[full..] + [c];
    if chars == [] {
      NothingWritten(k, base, track, pos);
      NothingWritten(kind, base, track, pos);
    }
    assert BytesOf(chars'[full..]) == data';
    if |data'| == PACK_DATA {
      LastPack(k, chars', |base|, |out| - |base|);
      assert PackOf(k, chars'[full..], |out|) == Pack(k, track', |out| % 256, pos', data');
      assert chars'[..|chars'|] == chars' && chars'[|chars'|..] == [];
    }
  }

  class Writer {
    const packs: array<Pack>
    var count: nat
    var kind: nat
    var firstTrack: TrackNumber
    var firstPos: nat
    var data: Bytes
    /** Packs of the sections before, and the characters put in this one. */
    ghost var base: seq<Pack>
    ghost var chars: seq<Char>

    ghost predicate Valid()
      reads this, packs
      ensures Valid() ==> count <= packs.Length
    {
      && count <= packs.Length
      && Written(kind, base, chars, packs[..count], data, firstTrack, firstPos)
    }

    constructor (capacity: nat)
      ensures Valid() && count == 0 && base == [] && chars == [] && packs.Length == capacity && fresh(packs)
    {
      packs := new Pack[capacity](_ => Pack(0, 0, 0, 0, []));
      count, kind, firstTrack, firstPos, data := 0, 0, 0, 0, [];
      base, chars := [], [];
      new;
      NothingWritten(0, [], 0, 0);
      assert packs[..0] == [];
    }

    /** Write out what is being filled, padded, if it holds anything; a new section can begin. */
    method Flush()
      requires Valid() && |base| + PacksFor(|chars|) <= packs.Length
      modifies this`count, this`data, this`base, this`chars, packs
      ensures Valid() && chars == [] && base == packs[..count]
      ensures base == old(base) + Packs(kind, old(chars), |old(base)|)
      ensures count == |old(base)| + PacksFor(|old(chars)|)
    {
      hide Packs, PacksFor, Written, Padded;
      Complete(kind, base, chars, packs[..count], data, firstTrack, firstPos);
      if data != [] {
        ghost var before := packs[..count];
        packs[count] := Pack(kind, firstTrack, count % 256, firstPos, Padded(data));
        count := count + 1;
        data := [];
        assert packs[..count] == before + [packs[count - 1]];
      }
      base, chars := packs[..count], [];
      NothingWritten(kind, base, firstTrack, firstPos);
    }

    /** Add a character; a full pack is written out. */
    method PutChar(k: nat, c: Char)
      requires Valid() && |base| + PacksFor(|chars| + 1) <= packs.Length && (chars != [] ==> k == kind)
      modifies this`count, this`data, this`kind, this`firstTrack, this`firstPos, this`chars, packs
      ensures Valid() && chars == old(chars) + [c] && kind == k
    {
      hide Packs, Written;
      OneMore(kind, base, chars, packs[..count], data, firstTrack, firstPos, k, c);
      RoomFor(kind, base, chars, packs[..count], data, firstTrack, firstPos);
      kind := k;
      if data == [] {
        firstTrack := c.track;
        firstPos := Position(c.pos);
      }
      data := data + [c.byte];
      chars := chars + [c];
      if |data| == PACK_DATA {
        ghost var before := packs[..count];
        packs[count] := Pack(kind, firstTrack, count % 256, firstPos, data);
        count := count + 1;
        data := [];
        assert packs[..count] == before + [packs[count - 1]];
      }
    }

    /** Put a string, with its terminator. */
    method Put(k: nat, t: Text)
      requires Valid() && |base| + PacksFor(|chars| + |t.text| + 1) <= packs.Length && (chars != [] ==> k == kind)
      modifies this`count, this`data, this`kind, this`firstTrack, this`firstPos, this`chars, packs
      ensures Valid() && chars == old(chars) + CharsOf(t) && kind == k
    {
      hide Packs, Written;
      ghost var before := chars;
      var pos := 0;
      while pos <= |t.text|
        invariant pos <= |t.text| + 1 && Valid() && chars == before + CharsOf(t)[..pos] && (chars != [] ==> k == kind)
        invariant pos > 0 ==> kind == k
      {
        PutChar(k, Char(ByteAt(t.text, pos), t.track, pos));
        pos := pos + 1;
      }
      assert CharsOf(t)[..pos] == CharsOf(t);
    }
  }

  lemma {:induction false} RoomFor(kind: nat, base: seq<Pack>, chars: seq<Char>, out: seq<Pack>, data: Bytes, track: TrackNumber, pos: nat)
    requires Written(kind, base, chars, out, data, track, pos)
    ensures |data| < PACK_DATA && |out| < |base| + PacksFor(|chars| + 1)
  {
  }

  // ----- a response for a cue sheet -----

  datatype CueTrack = CueTrack(number: TrackNumber, title: Name, performer: Name)

  /** The strings of one kind, the disc's own first. */
  function Titles(disc: Name, tracks: seq<CueTrack>): (r: seq<Text>)
    ensures |r| == |tracks| + 1
  {
    [Text(0, disc)] + seq(|tracks|, i requires 0 <= i < |tracks| => Text(tracks[i].number, tracks[i].title))
  }

  function Performers(disc: Name, tracks: seq<CueTrack>): (r: seq<Text>)
    ensures |r| == |tracks| + 1
  {
    [Text(0, disc)] + seq(|tracks|, i requires 0 <= i < |tracks| => Text(tracks[i].number, tracks[i].performer))
  }

  predicate AnyText(texts: seq<Text>) {
    exists i :: 0 <= i < |texts| && texts[i].text != []
  }

  /** CD-Text packs of one kind of string, if there is any. */
  function Section(kind: nat, texts: seq<Text>, first: nat): seq<Pack> {
    if AnyText(texts) then Packs(kind, Stream(texts), first) else []
  }

  lemma {:induction false} StreamAppend(texts: seq<Text>, k: nat)
    requires k < |texts|
    ensures Stream(texts[..k + 1]) == Stream(texts[..k]) + CharsOf(texts[k])
    ensures |Stream(texts[..k + 1])| == |Stream(texts[..k])| + |texts[k].text| + 1
  {
    assert texts[..k + 1][..k] == texts[..k];
  }

  lemma {:induction false} StreamGrows(texts: seq<Text>, k: nat)
    requires k <= |texts|
    ensures |Stream(texts[..k])| <= |Stream(texts)|
    decreases |texts| - k
  {
    if k == |texts| {
      assert texts[..k] == texts;
    } else {
      StreamAppend(texts, k);
      StreamGrows(texts, k + 1);
    }
  }

  /** Length of the strings of one kind, and whether any holds a character. */
  method Measure(texts: seq<Text>) returns (bytes: nat, any: bool)
    ensures bytes == |Stream(texts)| && any == AnyText(texts)
  {
    bytes, any := 0, false;
    var i := 0;
    while i < |texts|
      invariant i <= |texts| && bytes == |Stream(texts[..i])|
      invariant any <==> exists j :: 0 <= j < i && texts[j].text != []
    {
      StreamAppend(texts, i);
      bytes := bytes + |texts[i].text| + 1;
      any := any || texts[i].text != [];
      i := i + 1;
    }
    assert texts[..i] == texts;
  }

  method PutSection(w: Writer, kind: nat, texts: seq<Text>)
    requires w.Valid() && w.chars == [] && |w.base| + PacksFor(|Stream(texts)|) <= w.packs.Length
    modifies w, w.packs
    ensures w.Valid() && w.chars == [] && w.base == w.packs[..w.count]
    ensures w.base == old(w.base) + Packs(kind, Stream(texts), |old(w.base)|)
    ensures |w.base| == |old(w.base)| + PacksFor(|Stream(texts)|)
  {
    hide w.Valid, Packs, Stream, CharsOf;
    ghost var base := w.base;
    NoText();
    var i := 0;
    while i < |texts|
      invariant i <= |texts| && w.Valid() && w.base == base && w.chars == Stream(texts[..i]) && (w.chars != [] ==> w.kind == kind)
      invariant i > 0 ==> w.kind == kind
    {
      StreamAppend(texts, i);
      StreamGrows(texts, i + 1);
      w.Put(kind, texts[i]);
      i := i + 1;
    }
    assert texts[..i] == texts;
    NoPacks(w.kind, kind, |base|);
    w.Flush();
  }

  lemma {:induction false} NoText()
    ensures Stream([]) == []
  {
  }

  lemma {:induction false} NoPacks(a: nat, b: nat, first: nat)
    ensures Packs(a, [], first) == Packs(b, [], first)
  {
  }

  // ----- the strings that packs hold -----

  /** The packs of one kind, in order. */
  function OfKind(kind: nat, packs: seq<Pack>): seq<Pack>
    decreases |packs|
  {
    if packs == [] then [] else
    var last := |packs| - 1;
    OfKind(kind, packs[..last]) + if packs[last].kind == kind then [packs[last]] else []
  }

  function DataOf(packs: seq<Pack>): Bytes
    decreases |packs|
  {
    if packs == [] then [] else DataOf(packs[..|packs| - 1]) + packs[|packs| - 1].data
  }

  /** The strings that end in some bytes, and what is left behind the last end. */
  function Cut(data: Bytes): (seq<Bytes>, Bytes)
    decreases |data|
  {
    if data == [] then ([], []) else
    var (strings, rest) := Cut(data[..|data| - 1]);
    var c := data[|data| - 1];
    if c == 0 then (strings + [rest], []) else (strings, rest + [c])
  }

  /** Where string k starts, when each takes one more byte for its end. */
  function StartOf(strings: seq<Bytes>, k: nat): nat
    requires k <= |strings|
  {
    if k == 0 then 0 else StartOf(strings, k - 1) + |strings[k - 1]| + 1
  }

  /** String k of some packs is the given one, and each pack that starts within
      it names its track and how much of it the packs before hold. */
  ghost predicate Held(packs: seq<Pack>, k: nat, track: TrackNumber, text: Name) {
    var (strings, rest) := Cut(DataOf(packs));
    && k < |strings| && strings[k] == text
    && forall m :: 0 <= m < |packs| && StartOf(strings, k) <= m * PACK_DATA <= StartOf(strings, k) + |text| ==>
         packs[m].track == track && packs[m].position == Position(m * PACK_DATA - StartOf(strings, k))
  }

  /** Behind n strings the packs hold zeros, fewer than one pack of them. */
  ghost predicate NoMoreThan(packs: seq<Pack>, n: nat) {
    var (strings, rest) := Cut(DataOf(packs));
    && n <= |strings| < n + PACK_DATA && rest == []
    && (forall i :: n <= i < |strings| ==> strings[i] == [])
    && |DataOf(packs)| == |packs| * PACK_DATA
  }

  ghost predicate HasTitle(disc: Name, tracks: seq<CueTrack>) {
    disc != [] || exists i :: 0 <= i < |tracks| && tracks[i].title != []
  }

  ghost predicate HasPerformer(disc: Name, tracks: seq<CueTrack>) {
    disc != [] || exists i :: 0 <= i < |tracks| && tracks[i].performer != []
  }

  /** The packs of titles hold that of the disc and then those of the tracks. */
  ghost predicate TitlesHeld(packs: seq<Pack>, disc: Name, tracks: seq<CueTrack>) {
    Held(packs, 0, 0, disc) && NoMoreThan(packs, |tracks| + 1)
    && forall i :: 0 <= i < |tracks| ==> Held(packs, i + 1, tracks[i].number, tracks[i].title)
  }

  /** The packs of performers hold that of the disc and then those of the tracks. */
  ghost predicate PerformersHeld(packs: seq<Pack>, disc: Name, tracks: seq<CueTrack>) {
    Held(packs, 0, 0, disc) && NoMoreThan(packs, |tracks| + 1)
    && forall i :: 0 <= i < |tracks| ==> Held(packs, i + 1, tracks[i].number, tracks[i].performer)
  }

  ghost predicate AreOfKind(packs: seq<Pack>, kind: nat) {
    forall m :: 0 <= m < |packs| ==> packs[m].kind == kind
  }

  ghost predicate NumberedFrom(packs: seq<Pack>, first: nat) {
    forall m :: 0 <= m < |packs| ==> packs[m].number == (first + m) % 256
  }

  /** Packs that hold the strings of a cue sheet: first its titles, then its
      performers, each kind only when there is any, numbered through. */
  ghost predicate SheetHeld(packs: seq<Pack>, disc: Name, performer: Name, tracks: seq<CueTrack>) {
    && packs == OfKind(TITLE, packs) + OfKind(PERFORMER, packs)
    && NumberedFrom(packs, 0)
    && (if HasTitle(disc, tracks) then TitlesHeld(OfKind(TITLE, packs), disc, tracks) else OfKind(TITLE, packs) == [])
    && (if HasPerformer(performer, tracks) then PerformersHeld(OfKind(PERFORMER, packs), performer, tracks) else OfKind(PERFORMER, packs) == [])
  }

  lemma {:induction false} CutConcat(a: Bytes, b: Bytes)
    requires Cut(a).1 == []
    ensures Cut(a + b) == (Cut(a).0 + Cut(b).0, Cut(b).1)
    decreases |b|
  {
    if b == [] {
      assert a + b == a && Cut(a).0 + [] == Cut(a).0;
    } else {
      var last := |b| - 1;
      CutConcat(a, b[..last]);
      assert (a + b)[..|a + b| - 1] == a + b[..last];
      assert (Cut(a).0 + Cut(b[..last]).0) + [Cut(b[..last]).1] == Cut(a).0 + (Cut(b[..last]).0 + [Cut(b[..last]).1]);
    }
  }

  lemma {:induction false} CutText(text: Name, n: nat)
    requires n <= |text|
    ensures Cut(text[..n]) == ([], text[..n])
    decreases n
  {
    if n > 0 {
      CutText(text, n - 1);
      assert text[..n][..n - 1] == text[..n - 1] && text[..n] == text[..n - 1] + [text[n - 1]];
    }
  }

  lemma {:induction false} CutChars(t: Text)
    ensures Cut(BytesOf(CharsOf(t))) == ([t.text], [])
  {
    hide Cut;
    var data := BytesOf(CharsOf(t));
    assert data == t.text + [0] && data[..|t.text|] == t.text == t.text[..|t.text|];
    CutText(t.text, |t.text|);
    CutEnd(data);
    var none: seq<Bytes> := [];
    assert none + [t.text] == [t.text];
  }

  lemma {:induction false} CutEnd(data: Bytes)
    requires data != [] && data[|data| - 1] == 0
    ensures Cut(data) == (Cut(data[..|data| - 1]).0 + [Cut(data[..|data| - 1]).1], [])
  {
  }

  lemma {:induction false} CutNothing()
    ensures Cut([]) == ([], [])
  {
  }

  lemma {:induction false} CutZeros(n: nat)
    ensures Cut(seq(n, _ => 0)).0 == seq(n, _ => []) && Cut(seq(n, _ => 0)).1 == []
  {
    hide Cut;
    var zeros: Bytes, blanks: seq<Bytes> := seq(n, _ => 0), seq(n, _ => []);
    if n == 0 {
      CutNothing();
      assert zeros == [] && blanks == [];
    } else {
      CutZeros(n - 1);
      assert zeros[..n - 1] == seq(n - 1, _ => 0);
      CutEnd(zeros);
      assert blanks == seq(n - 1, _ => []) + [[]];
    }
  }

  /** The strings of a stream, without their tracks. */
  function TextsOf(texts: seq<Text>): (r: seq<Bytes>)
    ensures |r| == |texts| && forall i :: 0 <= i < |r| ==> r[i] == texts[i].text
  {
    seq(|texts|, i requires 0 <= i < |texts| => texts[i].text)
  }

  lemma {:induction false} CutStream(texts: seq<Text>)
    ensures Cut(BytesOf(Stream(texts))) == (TextsOf(texts), [])
    decreases |texts|
  {
    hide Cut, CharsOf;
    if texts == [] {
      CutNothing();
      assert BytesOf(Stream(texts)) == [];
    } else {
      var last := |texts| - 1;
      CutStream(texts[..last]);
      CutChars(texts[last]);
      var a, b := BytesOf(Stream(texts[..last])), BytesOf(CharsOf(texts[last]));
      CutConcat(a, b);
      assert BytesOf(Stream(texts)) == a + b;
      assert TextsOf(texts) == TextsOf(texts[..last]) + [texts[last].text];
    }
  }

  /** The characters of string k stand behind those of the strings before. */
  lemma {:induction false} StreamAt(texts: seq<Text>, k: nat, strings: seq<Bytes>, n: nat)
    requires k < |texts| <= |strings| && forall i :: 0 <= i < |texts| ==> strings[i] == texts[i].text
    requires StartOf(strings, k) <= n <= StartOf(strings, k) + |texts[k].text|
    ensures n < |Stream(texts)| && Stream(texts)[n].track == texts[k].track && Stream(texts)[n].pos == n - StartOf(strings, k)
    decreases |texts|
  {
    hide CharsOf;
    var last := |texts| - 1;
    StreamLength(texts[..last], strings);
    CharAt(texts[last]);
    if k < last {
      StreamAt(texts[..last], k, strings, n);
    }
  }

  lemma {:induction false} CharAt(t: Text)
    ensures forall i :: 0 <= i <= |t.text| ==> CharsOf(t)[i].track == t.track && CharsOf(t)[i].pos == i
  {
  }

  lemma {:induction false} StreamLength(texts: seq<Text>, strings: seq<Bytes>)
    requires |texts| <= |strings| && forall i :: 0 <= i < |texts| ==> strings[i] == texts[i].text
    ensures |Stream(texts)| == StartOf(strings, |texts|)
    decreases |texts|
  {
    if texts != [] {
      StreamLength(texts[..|texts| - 1], strings);
    }
  }

  /** Pack m starts with character m * 12, and the packs hold the characters and zeros. */
  lemma {:induction false} PacksHold(kind: nat, chars: seq<Char>, first: nat)
    ensures var packs := Packs(kind, chars, first);
            && |chars| <= |packs| * PACK_DATA < |chars| + PACK_DATA
            && DataOf(packs) == BytesOf(chars) + seq(|packs| * PACK_DATA - |chars|, _ => 0)
            && forall m :: 0 <= m < |packs| ==> Starts(packs[m], kind, chars, first, m)
    decreases |chars|
  {
    hide Padded, Starts, Packs, PackOf, DataOf;
    var packs := Packs(kind, chars, first);
    if chars == [] {
      EmptyPacks(kind, first);
      NoData();
      assert BytesOf(chars) + seq(0, _ => 0) == [];
    } else {
      var m := (|chars| - 1) / PACK_DATA;
      var before, rest := chars[..m * PACK_DATA], chars[m * PACK_DATA..];
      PacksHold(kind, before, first);
      PacksCount(kind, before, first);
      LastPack(kind, chars, first, m);
      var packs' := Packs(kind, before, first);
      assert |packs'| == m;
      PackStarts(kind, chars, first, m);
      DataOneMore(packs', PackOf(kind, rest, first + m));
      assert seq(0, _ => 0) == [];
      assert DataOf(packs') == BytesOf(before);
      assert BytesOf(chars) == BytesOf(before) + BytesOf(rest);
      forall i | 0 <= i < m
        ensures Starts(packs[i], kind, chars, first, i)
      {
        assert packs[i] == packs'[i];
        StartsGrows(packs[i], kind, before, chars, first, i);
      }
    }
  }

  /** Pack m starts with character m * 12. */
  ghost predicate Starts(p: Pack, kind: nat, chars: seq<Char>, first: nat, m: nat) {
    && p.kind == kind && p.number == (first + m) % 256
    && m * PACK_DATA < |chars| && p.track == chars[m * PACK_DATA].track && p.position == Position(chars[m * PACK_DATA].pos)
  }

  lemma {:induction false} StartsGrows(p: Pack, kind: nat, before: seq<Char>, chars: seq<Char>, first: nat, m: nat)
    requires Starts(p, kind, before, first, m) && before <= chars
    ensures Starts(p, kind, chars, first, m)
  {
  }

  lemma {:induction false} PackStarts(kind: nat, chars: seq<Char>, first: nat, m: nat)
    requires m * PACK_DATA < |chars| <= (m + 1) * PACK_DATA
    ensures var p := PackOf(kind, chars[m * PACK_DATA..], first + m);
            && Starts(p, kind, chars, first, m)
            && p.data == BytesOf(chars[m * PACK_DATA..]) + seq((m + 1) * PACK_DATA - |chars|, _ => 0)
  {
  }

  lemma {:induction false} DataOneMore(packs: seq<Pack>, p: Pack)
    ensures DataOf(packs + [p]) == DataOf(packs) + p.data
  {
    assert (packs + [p])[..|packs|] == packs;
  }

  lemma {:induction false} NoData()
    ensures DataOf([]) == []
  {
  }

  /** A section holds its strings, each with its track. */
  lemma {:induction false} SectionHolds(kind: nat, texts: seq<Text>, first: nat)
    ensures var packs := Packs(kind, Stream(texts), first);
            && NoMoreThan(packs, |texts|) && (forall k :: 0 <= k < |texts| ==> Held(packs, k, texts[k].track, texts[k].text))
            && AreOfKind(packs, kind) && NumberedFrom(packs, first)
  {
    hide Packs, Stream, Cut, DataOf, StartOf;
    var chars := Stream(texts);
    var packs := Packs(kind, chars, first);
    PacksHold(kind, chars, first);
    var n := |packs| * PACK_DATA - |chars|;
    CutStream(texts);
    CutZeros(n);
    CutConcat(BytesOf(chars), seq(n, _ => 0));
    var strings := Cut(DataOf(packs)).0;
    forall k | 0 <= k < |texts|
      ensures Held(packs, k, texts[k].track, texts[k].text)
    {
      forall m | 0 <= m < |packs| && StartOf(strings, k) <= m * PACK_DATA <= StartOf(strings, k) + |texts[k].text|
        ensures packs[m].track == texts[k].track && packs[m].position == Position(m * PACK_DATA - StartOf(strings, k))
      {
        StreamAt(texts, k, strings, m * PACK_DATA);
      }
    }
  }

  lemma {:induction false} AllOfKind(kind: nat, packs: seq<Pack>)
    requires AreOfKind(packs, kind)
    ensures OfKind(kind, packs) == packs
    decreases |packs|
  {
    if packs != [] {
      AllOfKind(kind, packs[..|packs| - 1]);
    }
  }

  lemma {:induction false} NoneOfKind(kind: nat, packs: seq<Pack>)
    requires forall i :: 0 <= i < |packs| ==> packs[i].kind != kind
    ensures OfKind(kind, packs) == []
    decreases |packs|
  {
    if packs != [] {
      NoneOfKind(kind, packs[..|packs| - 1]);
    }
  }

  lemma {:induction false} OfKindConcat(kind: nat, a: seq<Pack>, b: seq<Pack>)
    ensures OfKind(kind, a + b) == OfKind(kind, a) + OfKind(kind, b)
    decreases |b|
  {
    if b == [] {
      assert a + b == a;
    } else {
      OfKindConcat(kind, a, b[..|b| - 1]);
      assert (a + b)[..|a + b| - 1] == a + b[..|b| - 1];
    }
  }

  /** What a section holds, kind and numbers included, also when it is empty. */
  lemma {:induction false} SectionPacks(kind: nat, texts: seq<Text>, first: nat)
    ensures var packs := Section(kind, texts, first);
            && (if AnyText(texts) then NoMoreThan(packs, |texts|) && forall k :: 0 <= k < |texts| ==> Held(packs, k, texts[k].track, texts[k].text)
                else packs == [])
            && AreOfKind(packs, kind) && NumberedFrom(packs, first)
  {
    hide Held, NoMoreThan, Packs, Stream, AnyText;
    SectionHolds(kind, texts, first);
  }

  /** Packs of titles and then of performers. */
  lemma {:induction false} TwoKinds(a: seq<Pack>, b: seq<Pack>)
    requires AreOfKind(a, TITLE) && NumberedFrom(a, 0) && AreOfKind(b, PERFORMER) && NumberedFrom(b, |a|)
    ensures OfKind(TITLE, a + b) == a && OfKind(PERFORMER, a + b) == b && NumberedFrom(a + b, 0)
  {
    hide OfKind;
    OfKindConcat(TITLE, a, b);
    OfKindConcat(PERFORMER, a, b);
    AllOfKind(TITLE, a);
    NoneOfKind(PERFORMER, a);
    NoneOfKind(TITLE, b);
    AllOfKind(PERFORMER, b);
  }

  /** The two sections of a cue sheet hold its titles and its performers. */
  lemma {:induction false} SectionsHold(disc: Name, performer: Name, tracks: seq<CueTrack>)
    ensures var titles, performers := Titles(disc, tracks), Performers(performer, tracks);
            var first := Section(TITLE, titles, 0);
            SheetHeld(first + Section(PERFORMER, performers, |first|), disc, performer, tracks)
    ensures AnyText(Titles(disc, tracks)) <==> HasTitle(disc, tracks)
    ensures AnyText(Performers(performer, tracks)) <==> HasPerformer(performer, tracks)
  {
    hide Held, NoMoreThan, Section, OfKind, Titles, Performers, HasTitle, HasPerformer, AnyText, TitlesHeld, PerformersHeld,
      AreOfKind, NumberedFrom;
    var titles, performers := Titles(disc, tracks), Performers(performer, tracks);
    SomeTitle(disc, tracks);
    SomePerformer(performer, tracks);
    var first := Section(TITLE, titles, 0);
    var second := Section(PERFORMER, performers, |first|);
    SectionPacks(TITLE, titles, 0);
    SectionPacks(PERFORMER, performers, |first|);
    TwoKinds(first, second);
    if HasTitle(disc, tracks) {
      TitleTexts(first, disc, tracks);
    }
    if HasPerformer(performer, tracks) {
      PerformerTexts(second, performer, tracks);
    }
  }

  lemma {:induction false} SomeTitle(disc: Name, tracks: seq<CueTrack>)
    ensures AnyText(Titles(disc, tracks)) <==> HasTitle(disc, tracks)
  {
    var texts := Titles(disc, tracks);
    assert texts[0].text == disc;
    assert forall i :: 0 <= i < |tracks| ==> texts[i + 1].text == tracks[i].title;
    if k :| 0 <= k < |texts| && texts[k].text != [] && k > 0 {
      assert tracks[k - 1].title != [];
    }
  }

  lemma {:induction false} SomePerformer(disc: Name, tracks: seq<CueTrack>)
    ensures AnyText(Performers(disc, tracks)) <==> HasPerformer(disc, tracks)
  {
    var texts := Performers(disc, tracks);
    assert texts[0].text == disc;
    assert forall i :: 0 <= i < |tracks| ==> texts[i + 1].text == tracks[i].performer;
    if k :| 0 <= k < |texts| && texts[k].text != [] && k > 0 {
      assert tracks[k - 1].performer != [];
    }
  }

  lemma {:induction false} TitleTexts(packs: seq<Pack>, disc: Name, tracks: seq<CueTrack>)
    requires var texts := Titles(disc, tracks);
             NoMoreThan(packs, |texts|) && forall k :: 0 <= k < |texts| ==> Held(packs, k, texts[k].track, texts[k].text)
    ensures TitlesHeld(packs, disc, tracks)
  {
    hide Held, NoMoreThan;
    var texts := Titles(disc, tracks);
    assert texts[0] == Text(0, disc);
    forall i | 0 <= i < |tracks|
      ensures Held(packs, i + 1, tracks[i].number, tracks[i].title)
    {
      assert texts[i + 1] == Text(tracks[i].number, tracks[i].title);
    }
  }

  lemma {:induction false} PerformerTexts(packs: seq<Pack>, disc: Name, tracks: seq<CueTrack>)
    requires var texts := Performers(disc, tracks);
             NoMoreThan(packs, |texts|) && forall k :: 0 <= k < |texts| ==> Held(packs, k, texts[k].track, texts[k].text)
    ensures PerformersHeld(packs, disc, tracks)
  {
    hide Held, NoMoreThan;
    var texts := Performers(disc, tracks);
    assert texts[0] == Text(0, disc);
    forall i | 0 <= i < |tracks|
      ensures Held(packs, i + 1, tracks[i].number, tracks[i].performer)
    {
      assert texts[i + 1] == Text(tracks[i].number, tracks[i].performer);
    }
  }

  /** CD-Text packs for a cue sheet, and the error when it has none. */
  method ReadCdText(isCue: bool, discTitle: Name, discPerformer: Name, tracks: seq<CueTrack>) returns (err: Error, packs: seq<Pack>)
    ensures var titles, performers := Titles(discTitle, tracks), Performers(discPerformer, tracks);
            if !isCue || (!AnyText(titles) && !AnyText(performers)) then err == Unsupported
            else var first := Section(TITLE, titles, 0);
                 err == Ok && packs == first + Section(PERFORMER, performers, |first|)
    ensures err == if isCue && (HasTitle(discTitle, tracks) || HasPerformer(discPerformer, tracks)) then Ok else Unsupported
    ensures err == Ok ==> SheetHeld(packs, discTitle, discPerformer, tracks)
  {
    hide Writer.Valid, PacksFor, Stream, Packs, Titles, Performers, AnyText, HasTitle, HasPerformer, SheetHeld;
    packs := [];
    SectionsHold(discTitle, discPerformer, tracks);
    if !isCue {
      return Unsupported, packs;
    }
    var titles, performers := Titles(discTitle, tracks), Performers(discPerformer, tracks);
    var titleBytes, haveTitle := Measure(titles);
    var performerBytes, havePerformer := Measure(performers);
    if !haveTitle && !havePerformer {
      return Unsupported, packs;
    }
    var capacity := (if haveTitle then PacksFor(titleBytes) else 0) + (if havePerformer then PacksFor(performerBytes) else 0);
    var w := new Writer(capacity);
    if haveTitle {
      PutSection(w, TITLE, titles);
    }
    if havePerformer {
      PutSection(w, PERFORMER, performers);
    }
    err, packs := Ok, w.packs[..w.count];
  }

  // ----- the reader -----

  datatype TrackInfo = TrackInfo(number: nat, title: Bytes)
  datatype Table = Table(album: Bytes, tracks: seq<TrackInfo>)

  /** A string that was read whole, and the track it is for. */
  datatype Event = Event(track: int, text: Bytes)

  /** Where reading stands: the track and what was read of its string, and
      whether the start of that string was missed. */
  datatype Scan = Scan(track: int, current: Bytes, skip: bool)

  function Plain(c: bv8): bv8 {
    if c == 0x0D || c == 0x0A || c == TAB then 0x20
    else if c < 0x20 || c > 0x7E then 0x3F
    else c
  }

  /** The first characters of s that fit a buffer, made printable. */
  function Sanitized(s: Bytes, size: nat): (r: Bytes)
    requires size > 0
    ensures |r| == (if |s| < size then |s| else size - 1)
    ensures forall i :: 0 <= i < |r| ==> r[i] == Plain(s[i])
  {
    var n := if |s| < size then |s| else size - 1;
    seq(n, i requires 0 <= i < n => Plain(s[i]))
  }

  function TrackIndex(tracks: seq<TrackInfo>, number: int): (i: int)
    ensures -1 <= i < |tracks|
    ensures i >= 0 ==> tracks[i].number == number
    ensures forall j :: 0 <= j < |tracks| && (i < 0 || j < i) ==> tracks[j].number != number
    decreases |tracks|
  {
    if tracks == [] then -1 else
    var last := |tracks| - 1;
    var i := TrackIndex(tracks[..last], number);
    assert forall j :: 0 <= j < last ==> tracks[..last][j] == tracks[j];
    if i >= 0 then i else if tracks[last].number == number then last else -1
  }

  /** What storing a title does to the table. */
  function Stored(t: Table, e: Event): Table {
    if e.track < 0 || e.text == [] then t
    else if e.track == 0 then (if e.text == [TAB] then t else t.(album := Sanitized(e.text, ALBUM_SIZE)))
    else
      var i := TrackIndex(t.tracks, e.track);
      if i < 0 then t
      else if e.text == [TAB] then
        var p := TrackIndex(t.tracks, e.track - 1);
        if p < 0 then t else t.(tracks := t.tracks[i := t.tracks[i].(title := t.tracks[p].title)])
      else t.(tracks := t.tracks[i := t.tracks[i].(title := Sanitized(e.text, TITLE_SIZE))])
  }

  function StoredAll(t: Table, events: seq<Event>): Table
    decreases |events|
  {
    if events == [] then t else Stored(StoredAll(t, events[..|events| - 1]), events[|events| - 1])
  }

  /** One character read: an event at the end of a string whose start was seen. */
  function Read(s: Scan, c: bv8): (Scan, seq<Event>) {
    if c == 0 then (Scan(s.track + 1, [], false), if s.skip then [] else [Event(s.track, s.current)])
    else (if |s.current| + 1 < CURRENT_SIZE then s.(current := s.current + [c]) else s, [])
  }

  function ReadAll(s: Scan, data: Bytes): (Scan, seq<Event>)
    decreases |data|
  {
    if data == [] then (s, []) else
    var (s', events) := ReadAll(s, data[..|data| - 1]);
    var (s'', more) := Read(s', data[|data| - 1]);
    (s'', events + more)
  }

  /** Whether a pack holds titles of the first block in single bytes. */
  predicate Readable(p: Pack) {
    p.kind == TITLE && p.position / 16 % 8 == 0 && p.position < 128
  }

  /** A pack that starts a string sets the track; joining mid-string loses its head. */
  function Entered(s: Scan, p: Pack): Scan {
    if p.position % 16 == 0 then Scan(p.track, [], false)
    else if s.track < 0 then Scan(p.track, [], true)
    else s
  }

  function ReadPacks(s: Scan, packs: seq<Pack>): (Scan, seq<Event>)
    decreases |packs|
  {
    if packs == [] then (s, []) else
    var (s', events) := ReadPacks(s, packs[..|packs| - 1]);
    var p := packs[|packs| - 1];
    if !Readable(p) then (s', events) else
    var (s'', more) := ReadAll(Entered(s', p), p.data);
    (s'', events + more)
  }

  /** The titles of a disc, as they are collected. */
  class Context {
    var album: Bytes
    var tracks: seq<TrackInfo>

    function Titled(): Table
      reads this
    {
      Table(album, tracks)
    }

    method Sanitize(src: Bytes, size: nat) returns (dst: Bytes)
      requires size > 0
      ensures dst == Sanitized(src, size)
    {
      dst := [];
      while |dst| < |src| && |dst| + 1 < size
        invariant |dst| <= |src| && |dst| < size && forall i :: 0 <= i < |dst| ==> dst[i] == Plain(src[i])
      {
        dst := dst + [Plain(src[|dst|])];
      }
    }

    method FindTrack(number: int) returns (r: int)
      ensures r == TrackIndex(tracks, number)
    {
      r := 0;
      while r < |tracks|
        invariant 0 <= r <= |tracks| && forall j :: 0 <= j < r ==> tracks[j].number != number
      {
        if tracks[r].number == number {
          return;
        }
        r := r + 1;
      }
      r := -1;
    }

    method StoreTrackTitle(track: int, title: Bytes)
      modifies this
      ensures Titled() == Stored(old(Titled()), Event(track, title))
    {
      hide TrackIndex;
      if track < 0 || title == [] {
        return;
      }
      if track == 0 {
        if title != [TAB] {
          album := Sanitize(title, ALBUM_SIZE);
        }
        return;
      }
      var i := FindTrack(track);
      if i < 0 {
        return;
      }
      if title == [TAB] {
        var p := FindTrack(track - 1);
        if p >= 0 {
          tracks := tracks[i := tracks[i].(title := tracks[p].title)];
        }
        return;
      }
      var plain := Sanitize(title, TITLE_SIZE);
      tracks := tracks[i := tracks[i].(title := plain)];
    }

    /** Read the strings in the data of one pack. */
    method ReadPack(s0: Scan, data: Bytes) returns (s: Scan)
      modifies this
      ensures s == ReadAll(s0, data).0 && Titled() == StoredAll(old(Titled()), ReadAll(s0, data).1)
    {
      hide Stored, StoredAll, ReadAll;
      s := s0;
      ghost var before := Titled();
      ReadNothing(s0);
      NothingStored(before);
      var b := 0;
      while b < |data|
        invariant b <= |data| && s == ReadAll(s0, data[..b]).0 && Titled() == StoredAll(before, ReadAll(s0, data[..b]).1)
      {
        ReadOneMore(s0, data, b + 1);
        ghost var events := ReadAll(s0, data[..b]).1;
        var ch := data[b];
        if ch == 0 {
          if !s.skip {
            StoredOneMore(before, events, Event(s.track, s.current));
            StoreTrackTitle(s.track, s.current);
          } else {
            assert events + [] == events;
          }
          s := Scan(s.track + 1, [], false);
        } else {
          assert events + [] == events;
          if |s.current| + 1 < CURRENT_SIZE {
            s := s.(current := s.current + [ch]);
          }
        }
        b := b + 1;
      }
      assert data[..b] == data;
    }

    /** Collect the titles in some packs. */
    method ExtractTrackTitles(packs: seq<Pack>)
      modifies this
      ensures Titled() == StoredAll(old(Titled()), ReadPacks(START, packs).1)
    {
      hide StoredAll;
      var s := START;
      ghost var before := Titled();
      NothingStored(before);
      var i := 0;
      while i < |packs|
        invariant i <= |packs| && s == ReadPacks(START, packs[..i]).0 && Titled() == StoredAll(before, ReadPacks(START, packs[..i]).1)
      {
        assert packs[..i + 1][..i] == packs[..i];
        ghost var events := ReadPacks(START, packs[..i]).1;
        if Readable(packs[i]) {
          s := Entered(s, packs[i]);
          StoredConcat(before, events, ReadAll(s, packs[i].data).1);
          s := ReadPack(s, packs[i].data);
        }
        i := i + 1;
      }
      assert packs[..i] == packs;
    }
  }

  lemma {:induction false} NothingStored(t: Table)
    ensures StoredAll(t, []) == t
  {
  }

  lemma {:induction false} StoredOneMore(t: Table, events: seq<Event>, e: Event)
    ensures StoredAll(t, events + [e]) == Stored(StoredAll(t, events), e)
  {
    assert (events + [e])[..|events|] == events;
  }

  lemma {:induction false} StoredConcat(t: Table, a: seq<Event>, b: seq<Event>)
    ensures StoredAll(t, a + b) == StoredAll(StoredAll(t, a), b)
    decreases |b|
  {
    hide Stored;
    if b == [] {
      assert a + b == a;
    } else {
      StoredConcat(t, a, b[..|b| - 1]);
      assert (a + b)[..|a + b| - 1] == a + b[..|b| - 1];
    }
  }

  const START: Scan := Scan(-1, [], false)

  // ----- reading back what was written -----

  function Events(texts: seq<Text>): (r: seq<Event>)
    ensures |r| == |texts| && forall i :: 0 <= i < |r| ==> r[i] == Event(i, texts[i].text)
  {
    seq(|texts|, i requires 0 <= i < |texts| => Event(i, texts[i].text))
  }

  /** Strings for tracks 0, 1, 2, ... that the reader has room for. */
  ghost predicate Consecutive(texts: seq<Text>) {
    forall i :: 0 <= i < |texts| ==> texts[i].track == i && |texts[i].text| < CURRENT_SIZE
  }

  lemma {:induction false} ReadAllConcat(s: Scan, a: Bytes, b: Bytes)
    ensures var (s', x) := ReadAll(s, a);
            var (s'', y) := ReadAll(s', b);
            ReadAll(s, a + b) == (s'', x + y)
    decreases |b|
  {
    hide Read;
    if b == [] {
      assert a + b == a && ReadAll(s, a).1 + [] == ReadAll(s, a).1;
    } else {
      ReadAllConcat(s, a, b[..|b| - 1]);
      assert (a + b)[..|a + b| - 1] == a + b[..|b| - 1];
      var (s', x) := ReadAll(s, a);
      var (s'', y) := ReadAll(s', b[..|b| - 1]);
      assert (x + y) + Read(s'', b[|b| - 1]).1 == x + (y + Read(s'', b[|b| - 1]).1);
    }
  }

  /** Part of a string, read from its start. */
  lemma {:induction false} ReadText(track: TrackNumber, text: Name, n: nat)
    requires n <= |text| < CURRENT_SIZE
    ensures ReadAll(Scan(track, [], false), text[..n]) == (Scan(track, text[..n], false), [])
    decreases n
  {
    if n > 0 {
      ReadText(track, text, n - 1);
      assert ReadAll(Scan(track, [], false), text[..n - 1]).1 + [] == [];
      assert text[..n][..n - 1] == text[..n - 1] && text[..n] == text[..n - 1] + [text[n - 1]];
    }
  }

  lemma {:induction false} ReadWholeText(t: Text)
    requires |t.text| < CURRENT_SIZE
    ensures ReadAll(Scan(t.track, [], false), BytesOf(CharsOf(t))) == (Scan(t.track + 1, [], false), [Event(t.track, t.text)])
  {
    hide ReadAll;
    ReadText(t.track, t.text, |t.text|);
    ReadEnd(Scan(t.track, t.text, false));
    ReadAllConcat(Scan(t.track, [], false), t.text, [0]);
    assert t.text[..|t.text|] == t.text && BytesOf(CharsOf(t)) == t.text + [0];
    assert [] + [Event(t.track, t.text)] == [Event(t.track, t.text)];
  }

  lemma {:induction false} ReadEnd(s: Scan)
    requires !s.skip
    ensures ReadAll(s, [0]) == (Scan(s.track + 1, [], false), [Event(s.track, s.current)])
  {
    var one: Bytes := [0];
    assert one[..0] == [];
    ReadNothing(s);
    assert [] + [Event(s.track, s.current)] == [Event(s.track, s.current)];
  }

  /** Reading a whole stream gives back its strings. */
  lemma {:induction false} ReadStream(texts: seq<Text>)
    requires Consecutive(texts)
    ensures ReadAll(Scan(0, [], false), BytesOf(Stream(texts))) == (Scan(|texts|, [], false), Events(texts))
    decreases |texts|
  {
    hide CharsOf, ReadAll;
    if texts == [] {
      ReadNothing(Scan(0, [], false));
      assert BytesOf(Stream(texts)) == [];
    } else {
      var last := |texts| - 1;
      ReadStream(texts[..last]);
      ReadWholeText(texts[last]);
      var a, b := BytesOf(Stream(texts[..last])), BytesOf(CharsOf(texts[last]));
      ReadAllConcat(Scan(0, [], false), a, b);
      assert BytesOf(Stream(texts)) == a + b;
      assert Events(texts) == Events(texts[..last]) + [Event(last, texts[last].text)];
    }
  }

  lemma {:induction false} ReadNothing(s: Scan)
    ensures ReadAll(s, []) == (s, [])
  {
  }

  /** What has been read before character n of a stream. */
  function StateAt(chars: seq<Char>, n: nat): Scan
    requires n <= |chars|
  {
    ReadAll(Scan(0, [], false), BytesOf(chars[..n])).0
  }

  /** Before the first character of a string the reader stands at its start, and
      always in the right track. */
  lemma {:induction false} StateFollows(texts: seq<Text>, n: nat)
    requires Consecutive(texts) && n < |Stream(texts)|
    ensures var c, s := Stream(texts)[n], StateAt(Stream(texts), n);
            && s.track == c.track && !s.skip && (c.pos == 0 ==> s.current == [])
    decreases |texts|
  {
    hide ReadAll;
    var last := |texts| - 1;
    var before := Stream(texts[..last]);
    if n < |before| {
      StateFollows(texts[..last], n);
      assert Stream(texts)[..n] == before[..n];
    } else {
      var t, m := texts[last], n - |before|;
      ReadStream(texts[..last]);
      ReadText(last, t.text, m);
      ReadAllConcat(Scan(0, [], false), BytesOf(before), t.text[..m]);
      assert BytesOf(Stream(texts)[..n]) == BytesOf(before) + t.text[..m];
    }
  }

  /** Entering a pack of titles changes nothing. */
  lemma {:induction false} EnterPack(texts: seq<Text>, n: nat, s: Scan, p: Pack)
    requires Consecutive(texts) && n < |Stream(texts)| && s == (if n == 0 then START else StateAt(Stream(texts), n))
    requires var c := Stream(texts)[n]; p.kind == TITLE && p.track == c.track && p.position == Position(c.pos)
    ensures Readable(p) && Entered(s, p) == StateAt(Stream(texts), n)
  {
    StateFollows(texts, n);
    if n == 0 {
      FirstChar(texts);
      assert BytesOf(Stream(texts)[..0]) == [];
    }
  }

  lemma {:induction false} FirstChar(texts: seq<Text>)
    requires Stream(texts) != []
    ensures texts != [] && Stream(texts)[0].pos == 0
    decreases |texts|
  {
    if |texts| > 1 {
      FirstChar(texts[..|texts| - 1]);
    }
  }

  /** Full packs of titles read like the stream they were cut from. */
  lemma {:induction false} ReadFullPacks(texts: seq<Text>, m: nat)
    requires Consecutive(texts) && m * PACK_DATA <= |Stream(texts)|
    ensures var chars := Stream(texts)[..m * PACK_DATA];
            ReadPacks(START, Packs(TITLE, chars, 0)) ==
            (if m == 0 then (START, []) else ReadAll(Scan(0, [], false), BytesOf(chars)))
    decreases m
  {
    hide Stream, ReadAll, ReadPacks, Packs, PackOf, Entered, Readable;
    var whole := Stream(texts);
    if m > 0 {
      var n := (m - 1) * PACK_DATA;
      ReadFullPacks(texts, m - 1);
      var chars := whole[..m * PACK_DATA];
      assert chars[..n] == whole[..n];
      LastPack(TITLE, chars, 0, m - 1);
      ReadOnePack(texts, n, chars, m - 1);
      assert BytesOf(chars) + seq(n + PACK_DATA - |chars|, _ => 0) == BytesOf(chars);
    } else {
      assert whole[..0] == [];
      EmptyPacks(TITLE, 0);
      NoPacksRead();
    }
  }

  lemma {:induction false} EmptyPacks(kind: nat, first: nat)
    ensures Packs(kind, [], first) == []
  {
  }

  /** One more pack of titles. */
  lemma {:induction false} ReadOnePack(texts: seq<Text>, n: nat, chars: seq<Char>, m: nat)
    requires Consecutive(texts) && n < |chars| <= |Stream(texts)| && chars == Stream(texts)[..|chars|] && n == m * PACK_DATA
    requires |chars| <= n + PACK_DATA
    requires ReadPacks(START, Packs(TITLE, chars[..n], 0)) ==
             (if m == 0 then (START, []) else ReadAll(Scan(0, [], false), BytesOf(chars[..n])))
    ensures var p := PackOf(TITLE, chars[n..], m);
            ReadPacks(START, Packs(TITLE, chars[..n], 0) + [p]) ==
            ReadAll(Scan(0, [], false), BytesOf(chars) + seq(n + PACK_DATA - |chars|, _ => 0))
  {
    hide Stream, ReadAll, Packs, Entered, Readable, StateAt;
    var p := PackOf(TITLE, chars[n..], m);
    var before := Packs(TITLE, chars[..n], 0);
    var (s, events) := ReadPacks(START, before);
    assert (before + [p])[..|before|] == before;
    assert chars[n..][0] == Stream(texts)[n];
    assert chars[..n] == Stream(texts)[..n];
    StateIs(Stream(texts), n);
    EnterPack(texts, n, s, p);
    var zeros := seq(n + PACK_DATA - |chars|, _ => 0);
    ReadAllConcat(Scan(0, [], false), BytesOf(chars[..n]), p.data);
    assert BytesOf(chars) + zeros == BytesOf(chars[..n]) + p.data;
    ReadNothing(Scan(0, [], false));
    if n == 0 {
      assert BytesOf(chars[..n]) == [];
    }
  }

  lemma {:induction false} StateIs(chars: seq<Char>, n: nat)
    requires n <= |chars|
    ensures StateAt(chars, n) == ReadAll(Scan(0, [], false), BytesOf(chars[..n])).0
  {
  }

  /** The titles read from packs are those of the stream they were cut from, and
      strings without characters for the padding. */
  lemma {:induction false} ReadSection(texts: seq<Text>)
    requires Consecutive(texts) && texts != []
    ensures var zeros := PacksFor(|Stream(texts)|) * PACK_DATA - |Stream(texts)|;
            zeros >= 0 && ReadPacks(START, Packs(TITLE, Stream(texts), 0)) ==
            ReadAll(Scan(0, [], false), BytesOf(Stream(texts)) + seq(zeros, _ => 0))
  {
    hide Stream, ReadAll, PackOf, ReadPacks, Packs;
    var chars := Stream(texts);
    SomeStream(texts);
    var m := (|chars| - 1) / PACK_DATA;
    assert chars[..|chars|] == chars;
    ReadFullPacks(texts, m);
    LastPack(TITLE, chars, 0, m);
    ReadOnePack(texts, m * PACK_DATA, chars, m);
  }

  lemma {:induction false} SomeStream(texts: seq<Text>)
    requires texts != []
    ensures Stream(texts) != []
  {
  }

  /** Padding stores nothing. */
  lemma {:induction false} PaddingStoresNothing(t: Table, track: nat, n: nat)
    ensures StoredAll(t, ReadAll(Scan(track, [], false), seq(n, _ => 0)).1) == t
    ensures ReadAll(Scan(track, [], false), seq(n, _ => 0)).0 == Scan(track + n, [], false)
    decreases n
  {
    var zeros := seq(n, _ => 0);
    if n > 0 {
      PaddingStoresNothing(t, track, n - 1);
      assert zeros[..n - 1] == seq(n - 1, _ => 0);
      StoredOneMore(t, ReadAll(Scan(track, [], false), zeros[..n - 1]).1, Event(track + n - 1, []));
    }
  }

  /** Packs of another kind are passed over. */
  lemma {:induction false} OtherPacks(s: Scan, a: seq<Pack>, b: seq<Pack>)
    requires forall i :: 0 <= i < |b| ==> !Readable(b[i])
    ensures ReadPacks(s, a + b) == ReadPacks(s, a)
    decreases |b|
  {
    hide Readable, ReadAll;
    if b == [] {
      assert a + b == a;
    } else {
      OtherPacks(s, a, b[..|b| - 1]);
      assert (a + b)[..|a + b| - 1] == a + b[..|b| - 1];
    }
  }

  lemma {:induction false} KindOfPacks(kind: nat, chars: seq<Char>, first: nat)
    ensures forall i :: 0 <= i < |Packs(kind, chars, first)| ==> Packs(kind, chars, first)[i].kind == kind
    decreases |chars|
  {
    if chars != [] {
      KindOfPacks(kind, chars[..(|chars| - 1) / PACK_DATA * PACK_DATA], first);
    }
  }

  /** Strings without characters store nothing. */
  lemma {:induction false} EmptyTexts(t: Table, texts: seq<Text>)
    requires !AnyText(texts)
    ensures StoredAll(t, Events(texts)) == t
    decreases |texts|
  {
    if texts == [] {
      NothingStored(t);
    } else {
      var last := |texts| - 1;
      assert forall i :: 0 <= i < last ==> texts[..last][i] == texts[i];
      EmptyTexts(t, texts[..last]);
      assert texts[last].text == [];
      assert Events(texts) == Events(texts[..last]) + [Event(last, [])];
      StoredOneMore(t, Events(texts[..last]), Event(last, []));
    }
  }

  /** Reading what was written for a cue sheet stores the title of every track
      in turn, whatever the lengths of the strings. */
  lemma {:induction false} RoundTrip(t: Table, titles: seq<Text>, performers: seq<Text>)
    requires Consecutive(titles) && titles != []
    ensures var first := Section(TITLE, titles, 0);
            StoredAll(t, ReadPacks(START, first + Section(PERFORMER, performers, |first|)).1) == StoredAll(t, Events(titles))
  {
    hide Stream, ReadAll, ReadPacks, Packs, StoredAll, Events, AnyText, Consecutive;
    var first := Section(TITLE, titles, 0);
    KindOfPacks(PERFORMER, Stream(performers), |first|);
    OtherPacks(START, first, Section(PERFORMER, performers, |first|));
    if AnyText(titles) {
      ReadSection(titles);
      ReadStream(titles);
      var zeros := PacksFor(|Stream(titles)|) * PACK_DATA - |Stream(titles)|;
      ReadAllConcat(Scan(0, [], false), BytesOf(Stream(titles)), seq(zeros, _ => 0));
      StoredConcat(t, Events(titles), ReadAll(Scan(|titles|, [], false), seq(zeros, _ => 0)).1);
      PaddingStoresNothing(StoredAll(t, Events(titles)), |titles|, zeros);
    } else {
      EmptyTexts(t, titles);
      NoPacksRead();
      NothingStored(t);
    }
  }

  lemma {:induction false} NoPacksRead()
    ensures ReadPacks(START, []) == (START, [])
  {
  }

  predicate Printable(s: Bytes) {
    forall i :: 0 <= i < |s| ==> 0x20 <= s[i] <= 0x7E
  }

  lemma {:induction false} PrintableStays(s: Bytes)
    requires Printable(s) && |s| < TITLE_SIZE
    ensures Sanitized(s, TITLE_SIZE) == s && s != [TAB]
  {
    assert s != [] ==> s[0] != TAB;
  }

  /** A printable title is stored in the track it is for, and in no other. */
  lemma {:induction false} TitleStored(t: Table, e: Event, i: nat)
    requires UniqueNumbers(t.tracks) && i < |t.tracks| && e.track > 0 && Printable(e.text) && |e.text| < TITLE_SIZE
    ensures var t' := Stored(t, e);
            && |t'.tracks| == |t.tracks| && (forall j :: 0 <= j < |t.tracks| ==> t'.tracks[j].number == t.tracks[j].number)
            && t'.tracks[i].title == if t.tracks[i].number == e.track && e.text != [] then e.text else t.tracks[i].title
  {
    hide Printable, Sanitized;
    PrintableStays(e.text);
  }

  ghost predicate UniqueNumbers(tracks: seq<TrackInfo>) {
    forall i, j :: 0 <= i < j < |tracks| ==> tracks[i].number != tracks[j].number
  }

  /** Printable titles that fit come back unchanged, in every track of the disc
      that they are for; other tracks keep what they had. */
  lemma {:induction false} TitlesRecovered(t: Table, texts: seq<Text>, i: nat)
    requires UniqueNumbers(t.tracks) && i < |t.tracks| && t.tracks[i].title == [] && texts != []
    requires forall k :: 0 < k < |texts| ==> Printable(texts[k].text) && |texts[k].text| < TITLE_SIZE
    ensures var t' := StoredAll(t, Events(texts));
            var number := t.tracks[i].number;
            && |t'.tracks| == |t.tracks| && (forall j :: 0 <= j < |t.tracks| ==> t'.tracks[j].number == t.tracks[j].number)
            && t'.tracks[i].title == if 0 < number < |texts| then texts[number].text else []
    decreases |texts|
  {
    hide Printable, Sanitized, Stored, StoredAll, Events;
    var last := |texts| - 1;
    var e := Event(last, texts[last].text);
    EventsAppend(texts, last);
    assert texts[..|texts|] == texts;
    StoredOneMore(t, Events(texts[..last]), e);
    if last == 0 {
      EventsAppend(texts, 0);
      NothingStored(t);
      AlbumOnly(t, e);
    } else {
      assert forall k :: 0 <= k < last ==> texts[..last][k] == texts[k];
      TitlesRecovered(t, texts[..last], i);
      TitleStored(StoredAll(t, Events(texts[..last])), e, i);
    }
  }

  lemma {:induction false} AlbumOnly(t: Table, e: Event)
    requires e.track == 0
    ensures Stored(t, e).tracks == t.tracks
  {
  }

  lemma {:induction false} EventsAppend(texts: seq<Text>, k: nat)
    requires k < |texts|
    ensures Events(texts[..k + 1]) == Events(texts[..k]) + [Event(k, texts[k].text)]
    ensures k == 0 ==> Events(texts[..k]) == []
  {
  }

  /** The title of the disc is stored as that of the album, shortened; those of tracks do not change it. */
  lemma {:induction false} AlbumRecovered(t: Table, texts: seq<Text>)
    requires texts != []
    ensures StoredAll(t, Events(texts)).album ==
            if texts[0].text == [] || texts[0].text == [TAB] then t.album else Sanitized(texts[0].text, ALBUM_SIZE)
    decreases |texts|
  {
    hide Sanitized, StoredAll, Events;
    var last := |texts| - 1;
    EventsAppend(texts, last);
    assert texts[..|texts|] == texts;
    StoredOneMore(t, Events(texts[..last]), Event(last, texts[last].text));
    if last == 0 {
      NothingStored(t);
    } else {
      AlbumRecovered(t, texts[..last]);
    }
  }

  // ----- any titles, and packs from elsewhere -----

  /** A title as it is stored: its first characters, with spaces for line ends
      and tabs and question marks for what cannot be printed. */
  ghost predicate Shown(s: Bytes, size: nat, title: Bytes) {
    && |title| == (if |s| < size then |s| else size - 1)
    && forall k :: 0 <= k < |title| ==>
         if 0x20 <= s[k] <= 0x7E then title[k] == s[k] else title[k] == if s[k] in [0x09, 0x0A, 0x0D] then 0x20 else 0x3F
  }

  lemma {:induction false} SanitizedIsShown(s: Bytes, size: nat)
    requires size > 0
    ensures Shown(s, size, Sanitized(s, size))
  {
  }

  /** Track i has the title of the track before it, or the given one when that is not on the disc. */
  ghost predicate Repeats(tracks: seq<TrackInfo>, i: nat, title: Bytes)
    requires i < |tracks|
  {
    var number := tracks[i].number - 1;
    && (forall j :: 0 <= j < |tracks| && tracks[j].number == number ==> tracks[i].title == tracks[j].title)
    && ((forall j :: 0 <= j < |tracks| ==> tracks[j].number != number) ==> tracks[i].title == title)
  }

  ghost predicate SameNumbers(a: seq<TrackInfo>, b: seq<TrackInfo>) {
    |a| == |b| && forall j :: 0 <= j < |a| ==> b[j].number == a[j].number
  }

  /** What becomes of the title of track i when it had title before and text is read for it. */
  ghost predicate TitledBy(tracks: seq<TrackInfo>, i: nat, title: Bytes, text: Bytes)
    requires i < |tracks|
  {
    if text == [] then tracks[i].title == title
    else if text == [TAB] then Repeats(tracks, i, title)
    else Shown(text, TITLE_SIZE, tracks[i].title)
  }

  lemma {:induction false} StoredElsewhere(t: Table, e: Event)
    ensures var t' := Stored(t, e);
            SameNumbers(t.tracks, t'.tracks) && forall j :: 0 <= j < |t.tracks| && t.tracks[j].number != e.track ==> t'.tracks[j] == t.tracks[j]
  {
    hide Sanitized;
  }

  lemma {:induction false} StoredHere(t: Table, e: Event, i: nat)
    requires UniqueNumbers(t.tracks) && i < |t.tracks| && t.tracks[i].number == e.track && e.track > 0
    ensures var t' := Stored(t, e);
            |t'.tracks| == |t.tracks| && TitledBy(t'.tracks, i, t.tracks[i].title, e.text)
  {
    hide Sanitized, Shown, TrackIndex, UniqueNumbers, Repeats;
    SanitizedIsShown(e.text, TITLE_SIZE);
    IndexIs(t.tracks, i);
    var p := TrackIndex(t.tracks, e.track - 1);
    var title := t.tracks[if p >= 0 then p else i].title;
    var tracks := t.tracks[i := t.tracks[i].(title := title)];
    RepeatsHere(t.tracks, i, tracks);
    if e.text == [TAB] && p < 0 {
      assert tracks == t.tracks;
    }
  }

  lemma {:induction false} RepeatsHere(before: seq<TrackInfo>, i: nat, tracks: seq<TrackInfo>)
    requires UniqueNumbers(before) && i < |before|
    requires var p := TrackIndex(before, before[i].number - 1);
             tracks == before[i := before[i].(title := before[if p >= 0 then p else i].title)]
    ensures Repeats(tracks, i, before[i].title)
  {
    hide TrackIndex;
    var p := TrackIndex(before, before[i].number - 1);
    assert p >= 0 ==> p != i && tracks[p] == before[p] && tracks[p].number == tracks[i].number - 1;
    forall j | 0 <= j < |tracks| && tracks[j].number == tracks[i].number - 1
      ensures j == p
    {
      assert before[j].number == before[i].number - 1;
    }
  }

  lemma {:induction false} IndexIs(tracks: seq<TrackInfo>, i: nat)
    requires UniqueNumbers(tracks) && i < |tracks|
    ensures TrackIndex(tracks, tracks[i].number) == i
  {
  }

  /** A track is titled by the string for its number, whatever strings were
      read; an empty one leaves it alone, and a single tab stands for the title of the
      track before. */
  lemma {:induction false} TracksTitled(t: Table, texts: seq<Text>, i: nat)
    requires UniqueNumbers(t.tracks) && i < |t.tracks| && texts != []
    ensures var t', number := StoredAll(t, Events(texts)), t.tracks[i].number;
            && SameNumbers(t.tracks, t'.tracks)
            && TitledBy(t'.tracks, i, t.tracks[i].title, if 0 < number < |texts| then texts[number].text else [])
    decreases |texts|
  {
    hide Sanitized, Shown, Stored, StoredAll, Events, UniqueNumbers;
    var last, number := |texts| - 1, t.tracks[i].number;
    var e := Event(last, texts[last].text);
    var t1 := StoredAll(t, Events(texts[..last]));
    EventsAppend(texts, last);
    assert texts[..|texts|] == texts;
    StoredOneMore(t, Events(texts[..last]), e);
    if last == 0 {
      NothingStored(t);
      AlbumOnly(t, e);
    } else {
      TracksTitled(t, texts[..last], i);
      NumbersUnique(t.tracks, t1.tracks);
      StoredElsewhere(t1, e);
      if number == last {
        StoredHere(t1, e, i);
      }
    }
  }

  lemma {:induction false} NumbersUnique(a: seq<TrackInfo>, b: seq<TrackInfo>)
    requires UniqueNumbers(a) && SameNumbers(a, b)
    ensures UniqueNumbers(b)
  {
  }

  /** A pack of another kind or block, or of double-byte characters, is passed over. */
  lemma {:induction false} PassedOver(s: Scan, a: seq<Pack>, p: Pack, b: seq<Pack>)
    requires p.kind != TITLE || p.position >= 128 || p.position / 16 % 8 != 0
    ensures ReadPacks(s, a + [p] + b) == ReadPacks(s, a + b)
    decreases |b|
  {
    hide ReadAll, Entered;
    if b == [] {
      assert a + b == a && a + [p] + b == a + [p] && (a + [p])[..|a|] == a;
    } else {
      var front := b[..|b| - 1];
      PassedOver(s, a, p, front);
      assert (a + b)[..|a + b| - 1] == a + front && (a + [p] + b)[..|a + [p] + b| - 1] == a + [p] + front;
    }
  }

  /** A reader that joins in the middle of a string drops the rest of it, and
      goes on with the next track. */
  lemma {:induction false} JoinedLate(p: Pack, rest: Name, more: Bytes)
    requires Readable(p) && p.position % 16 != 0 && p.data == rest + [0] + more
    ensures ReadPacks(START, [p]) == ReadAll(Scan(p.track + 1, [], false), more)
  {
    hide ReadAll, Readable;
    var joined := Scan(p.track, [], true);
    ReadDropped(joined, rest, |rest|);
    assert rest[..|rest|] == rest;
    var s := ReadAll(joined, rest).0;
    ReadAllConcat(joined, rest, [0]);
    ReadAllConcat(joined, rest + [0], more);
    EndDropped(s);
    assert [p][..0] == [];
    NoPacksRead();
    var (after, events) := ReadAll(Scan(p.track + 1, [], false), more);
    var none: seq<Event> := [];
    assert none + none == none && none + events == events;
  }

  lemma {:induction false} ReadDropped(s: Scan, text: Name, n: nat)
    requires s.skip && n <= |text|
    ensures var (s', events) := ReadAll(s, text[..n]);
            s'.track == s.track && s'.skip && events == []
    decreases n
  {
    if n == 0 {
      ReadNothing(s);
    } else {
      ReadDropped(s, text, n - 1);
      assert text[..n][..n - 1] == text[..n - 1];
    }
  }

  lemma {:induction false} EndDropped(s: Scan)
    requires s.skip
    ensures ReadAll(s, [0]) == (Scan(s.track + 1, [], false), [])
  {
    var one: Bytes, none: seq<Event> := [0], [];
    assert one[..0] == [];
    ReadNothing(s);
    assert none + none == none;
  }

  /** Of a string of any length the reader gives as much as it has room for. */
  lemma {:induction false} LongText(track: int, text: Name, n: nat)
    requires n <= |text|
    ensures ReadAll(Scan(track, [], false), text[..n]) == (Scan(track, text[..Room(n)], false), [])
    decreases n
  {
    hide ReadAll;
    var s, none: seq<Event> := Scan(track, [], false), [];
    if n == 0 {
      ReadNothing(s);
    } else {
      LongText(track, text, n - 1);
      ReadOneMore(s, text, n);
      assert none + none == none;
      if n < CURRENT_SIZE {
        assert text[..n] == text[..n - 1] + [text[n - 1]];
      }
    }
  }

  /** Characters kept of n. */
  function Room(n: nat): (r: nat)
    ensures r <= n
  {
    if n < CURRENT_SIZE then n else CURRENT_SIZE - 1
  }

  lemma {:induction false} ReadOneMore(s: Scan, data: Bytes, n: nat)
    requires 0 < n <= |data|
    ensures var (s', events) := ReadAll(s, data[..n - 1]);
            var (s'', more) := Read(s', data[n - 1]);
            ReadAll(s, data[..n]) == (s'', events + more)
  {
    assert data[..n][..n - 1] == data[..n - 1];
  }

  // ----- a cue sheet, written and read back -----

  /** Tracks 1, 2, ... with titles that can be stored as they are. */
  ghost predicate SoundSheet(disc: Name, tracks: seq<CueTrack>) {
    && |disc| < TEXT_MAX && |tracks| <= TRACKS_MAX
    && forall i :: 0 <= i < |tracks| ==> tracks[i].number == i + 1 && Printable(tracks[i].title) && |tracks[i].title| < TITLE_SIZE
  }

  /** What the titles of a sheet become in a table that had none. */
  ghost predicate Recovered(t: Table, t': Table, disc: Name, tracks: seq<CueTrack>) {
    && t'.album == (if disc == [] || disc == [TAB] then t.album else Sanitized(disc, ALBUM_SIZE))
    && |t'.tracks| == |t.tracks|
    && forall i :: 0 <= i < |t.tracks| ==>
         var number := t.tracks[i].number;
         t'.tracks[i] == TrackInfo(number, if 0 < number <= |tracks| then tracks[number - 1].title else [])
  }

  /** The packs written for a sheet and read back give every track its own title. */
  lemma {:induction false} SheetRecovered(t: Table, disc: Name, performer: Name, tracks: seq<CueTrack>)
    requires SoundSheet(disc, tracks) && UniqueNumbers(t.tracks) && forall i :: 0 <= i < |t.tracks| ==> t.tracks[i].title == []
    ensures var titles, performers := Titles(disc, tracks), Performers(performer, tracks);
            var first := Section(TITLE, titles, 0);
            Recovered(t, StoredAll(t, ReadPacks(START, first + Section(PERFORMER, performers, |first|)).1), disc, tracks)
    ensures !AnyText(Titles(disc, tracks)) ==> Recovered(t, t, disc, tracks)
  {
    hide Section, ReadPacks, StoredAll, Events, Printable, Sanitized, UniqueNumbers;
    var titles := Titles(disc, tracks);
    RoundTrip(t, titles, Performers(performer, tracks));
    AlbumRecovered(t, titles);
    var t' := StoredAll(t, Events(titles));
    TracksStay(t, Events(titles));
    forall i | 0 <= i < |t.tracks|
      ensures var number := t.tracks[i].number;
              t'.tracks[i] == TrackInfo(number, if 0 < number <= |tracks| then tracks[number - 1].title else [])
    {
      TitlesRecovered(t, titles, i);
    }
    if !AnyText(titles) {
      EmptyTexts(t, titles);
    }
  }

  lemma {:induction false} TracksStay(t: Table, events: seq<Event>)
    ensures |StoredAll(t, events).tracks| == |t.tracks|
    decreases |events|
  {
    if events != [] {
      TracksStay(t, events[..|events| - 1]);
    }
  }

  /** Ask for the CD-Text of a cue sheet and collect its titles. */
  method LoadTitles(context: Context, isCue: bool, disc: Name, performer: Name, tracks: seq<CueTrack>) returns (err: Error)
    requires SoundSheet(disc, tracks) && UniqueNumbers(context.tracks)
    requires forall i :: 0 <= i < |context.tracks| ==> context.tracks[i].title == []
    modifies context
    ensures isCue ==> Recovered(old(context.Titled()), context.Titled(), disc, tracks)
    ensures !isCue ==> err == Unsupported && context.Titled() == old(context.Titled())
  {
    hide SoundSheet, UniqueNumbers, Recovered, Section, ReadPacks, StoredAll, AnyText;
    var packs;
    err, packs := ReadCdText(isCue, disc, performer, tracks);
    if isCue {
      SheetRecovered(context.Titled(), disc, performer, tracks);
    }
    if err == Ok {
      context.ExtractTrackTitles(packs);
    }
  }
}
