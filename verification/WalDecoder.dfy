/** Decoding a WAL segment: frames, the CRC chain, and where a damaged file stops being readable. */
module WalDecoders {
  import opened Bytes
  import opened Binary
  import opened Crc
  import opened WalRecords

  const MIN_SECTOR_SIZE: nat := 512

  // ---- torn entries

  /** From a on, up to the end of the sector or of the data, everything is zero. */
  ghost predicate ZeroFrom(data: bytes, fileOff: nat, a: nat) {
    && a < |data| && (a == 0 || (fileOff + a) % MIN_SECTOR_SIZE == 0)
    && forall i :: a <= i < |data| && i < a + MIN_SECTOR_SIZE - (fileOff + a) % MIN_SECTOR_SIZE ==> data[i] == 0
  }

  /** Some sector's part of the data is all zero. */
  ghost predicate LooksTorn(data: bytes, fileOff: nat) {
    exists a: nat :: ZeroFrom(data, fileOff, a)
  }

  method AllZero(data: bytes, from: nat, to: nat) returns (isZero: bool)
    requires from <= to <= |data|
    ensures isZero <==> forall i :: from <= i < to ==> data[i] == 0
  {
    isZero := true;
    var i := from;
    while i < to
      invariant from <= i <= to && isZero && forall k :: from <= k < i ==> data[k] == 0
    {
      if data[i] != 0 {
        isZero := false;
        break;
      }
      i := i + 1;
    }
  }

  /** Inside a sector's part no other one starts. */
  lemma {:induction false} SamePart(data: bytes, fileOff: nat, at: nat, next: nat)
    requires at < next <= |data| && next <= at + MIN_SECTOR_SIZE - (fileOff + at) % MIN_SECTOR_SIZE
    requires exists i :: at <= i < next && data[i] != 0
    requires next == |data| || next == at + MIN_SECTOR_SIZE - (fileOff + at) % MIN_SECTOR_SIZE
    ensures forall a: nat :: at <= a < next ==> !ZeroFrom(data, fileOff, a)
    ensures next == |data| || (fileOff + next) % MIN_SECTOR_SIZE == 0
  {
    forall a: nat | at <= a < next
      ensures !ZeroFrom(data, fileOff, a)
    {
      if a > at {
        ModInside(fileOff + at, a - at);
      }
    }
    if next < |data| {
      ModInside(fileOff + at, next - at);
    }
  }

  lemma {:induction false} ModInside(x: nat, y: nat)
    requires 0 < y <= MIN_SECTOR_SIZE - x % MIN_SECTOR_SIZE
    ensures (x + y) % MIN_SECTOR_SIZE == 0 <==> y == MIN_SECTOR_SIZE - x % MIN_SECTOR_SIZE
  {
    var q := x / MIN_SECTOR_SIZE;
    assert x + y == q * MIN_SECTOR_SIZE + (x % MIN_SECTOR_SIZE + y);
  }

  /** isTornEntry: goes through the data sector by sector. */
  method IsTornEntry(data: bytes, lastValidOff: nat) returns (torn: bool)
    ensures torn <==> LooksTorn(data, lastValidOff + FRAME_SIZE_BYTES)
  {
    var start := lastValidOff + FRAME_SIZE_BYTES;
    var fileOff := start;
    var curOff := 0;
    while curOff < |data|
      invariant 0 <= curOff <= |data| && fileOff == start + curOff
      invariant curOff == 0 || curOff == |data| || fileOff % MIN_SECTOR_SIZE == 0
      invariant forall a: nat :: ZeroFrom(data, start, a) ==> a >= curOff
    {
      var sector := MIN_SECTOR_SIZE - fileOff % MIN_SECTOR_SIZE;
      var chunkLen := if sector < |data| - curOff then sector else |data| - curOff;
      var isZero := AllZero(data, curOff, curOff + chunkLen);
      if isZero {
        assert ZeroFrom(data, start, curOff);
        return true;
      }
      SamePart(data, start, curOff, curOff + chunkLen);
      fileOff := fileOff + chunkLen;
      curOff := curOff + chunkLen;
    }
    return false;
  }

  // ---- one record

  /** Both short and torn frames are reported as an unexpected end of file. */
  datatype Outcome = EOF | ShortFrame | TornFrame | Corrupted | CRCMismatch | Decoded(rec: Record, next: nat, crc: u32)

  /** What stands at an offset of the file, for a decoder with this running CRC. */
  ghost function ReadRecord(file: bytes, off: nat, crc: u32): (o: Outcome)
    requires off <= |file|
    ensures o.Decoded? ==> off < o.next <= |file|
  {
    if off == |file| then EOF
    else if off + 8 > |file| then ShortFrame
    else
      var lenField := U64(file, off);
      if lenField == 0 then EOF
      else
        var (n, pad) := Unframe(lenField);
        if n > MAX_RECORD_SIZE then Corrupted
        else if off + 8 + n + pad > |file| then ShortFrame
        else Judge(file[off + 8..off + 8 + n + pad], n, off, off + 8 + n + pad, crc)
  }

  /** Parsing the payload and checking the CRC chain; a CRC record restarts it. */
  ghost function Judge(data: bytes, n: nat, off: nat, next: nat, crc: u32): (o: Outcome)
    requires n <= |data|
    ensures o.Decoded? ==> o.next == next
  {
    var p := ParseFrom(data[..n], 0, NO_RECORD);
    if p == Bad then
      if LooksTorn(data, off + FRAME_SIZE_BYTES) then TornFrame else Corrupted
    else if p.r.typ == CRC_TYPE then Decoded(p.r, next, p.r.crc)
    else if Update(crc, p.r.data) == p.r.crc then Decoded(p.r, next, p.r.crc)
    else if LooksTorn(data, off + FRAME_SIZE_BYTES) then TornFrame
    else CRCMismatch
  }

  /** The decoder's running CRC after looking there: a record whose checksum fails has been added to it
      all the same. */
  ghost function CrcAfter(file: bytes, off: nat, crc: u32): u32
    requires off <= |file|
  {
    var o := ReadRecord(file, off, crc);
    if o.Decoded? then o.crc
    else if o.EOF? || o.ShortFrame? || o.Corrupted? then crc
    else
      var (n, pad) := Unframe(U64(file, off));
      var p := ParseFrom(file[off + 8..off + 8 + n + pad][..n], 0, NO_RECORD);
      if p == Bad then crc else Update(crc, p.r.data)
  }

  class Decoder {
    const file: bytes
    /** Where the buffered reader stands. */
    var pos: nat
    var crc: u32
    var lastValidOff: nat

    ghost predicate Valid()
      reads this
    {
      lastValidOff == pos <= |file|
    }

    constructor (file: bytes)
      ensures Valid() && this.file == file && pos == 0 && crc == 0
    {
      this.file := file;
      pos, crc, lastValidOff := 0, 0, 0;
    }

    /** Decode the next record. After anything else than a record the decoder is not used further. */
    method Decode() returns (o: Outcome)
      requires Valid()
      modifies this
      ensures o == ReadRecord(file, old(pos), old(crc))
      ensures o.Decoded? ==> Valid() && pos == o.next && crc == o.crc
      ensures !o.Decoded? ==> lastValidOff == old(lastValidOff)
      ensures crc == CrcAfter(file, old(pos), old(crc))
    {
      hide LooksTorn, ParseFrom, Update, U64;
      if pos == |file| {
        return EOF;
      }
      if pos + 8 > |file| {
        return ShortFrame;
      }
      var lenField := U64(file, pos);
      if lenField == 0 {
        return EOF;
      }
      var f := Unframe(lenField);
      var n, pad := f.0, f.1;
      if n > MAX_RECORD_SIZE {
        return Corrupted;
      }
      if pos + 8 + n + pad > |file| {
        return ShortFrame;
      }
      var data := file[pos + 8..pos + 8 + n + pad];
      pos := pos + 8 + n + pad;
      var p := Unmarshal(data[..n]);
      if p == Bad {
        var torn := IsTornEntry(data, lastValidOff);
        return if torn then TornFrame else Corrupted;
      }
      var rec := p.r;
      if rec.typ == CRC_TYPE {
        crc := rec.crc;
      } else {
        crc := Update(crc, rec.data);
        if crc != rec.crc {
          var torn := IsTornEntry(data, lastValidOff);
          return if torn then TornFrame else CRCMismatch;
        }
      }
      lastValidOff := lastValidOff + FRAME_SIZE_BYTES + n + pad;
      return Decoded(rec, lastValidOff, crc);
    }
  }

  // ---- reading to the end

  datatype Scan = Scan(recs: seq<Record>, off: nat, crc: u32, end: Outcome)

  /** The records from an offset on, up to the first thing that is not a record. */
  ghost function ScanFrom(file: bytes, off: nat, crc: u32): (s: Scan)
    requires off <= |file|
    ensures off <= s.off <= |file| && !s.end.Decoded?
    decreases |file| - off
  {
    var o := ReadRecord(file, off, crc);
    if !o.Decoded? then Scan([], off, crc, o)
    else
      var rest := ScanFrom(file, o.next, o.crc);
      rest.(recs := [o.rec] + rest.recs)
  }

  /** The loops of readSegment and openSegment. */
  method ReadToEnd(file: bytes) returns (recs: seq<Record>, d: Decoder, end: Outcome)
    ensures fresh(d) && d.file == file
    ensures var s := ScanFrom(file, 0, 0);
      recs == s.recs && end == s.end && d.lastValidOff == s.off && d.crc == CrcAfter(file, s.off, s.crc)
  {
    hide ReadRecord, CrcAfter;
    d := new Decoder(file);
    recs := [];
    ghost var all := ScanFrom(file, 0, 0);
    while true
      invariant fresh(d) && d.Valid() && d.file == file
      invariant var s := ScanFrom(file, d.pos, d.crc);
        all == s.(recs := recs + s.recs)
      decreases |file| - d.pos
    {
      ghost var s := ScanFrom(file, d.pos, d.crc);
      end := d.Decode();
      if !end.Decoded? {
        assert recs + [] == recs;
        return;
      }
      assert recs + s.recs == recs + [end.rec] + ScanFrom(file, d.pos, d.crc).recs;
      recs := recs + [end.rec];
    }
  }

  // ---- what was written

  /** What a caller hands to the encoder. */
  datatype Item = Item(typ: int, data: bytes)

  /** The record that is stored: its CRC covers its own data and everything before. */
  function Stored(c: u32, it: Item): Record {
    Record(it.typ, Update(c, it.data), it.data)
  }

  function StoredAll(c: u32, items: seq<Item>): seq<Record>
    decreases |items|
  {
    if items == [] then [] else [Stored(c, items[0])] + StoredAll(Update(c, items[0].data), items[1..])
  }

  function SegBytes(c: u32, items: seq<Item>): bytes
    decreases |items|
  {
    if items == [] then [] else Frame(Stored(c, items[0])) + SegBytes(Update(c, items[0].data), items[1..])
  }

  function CrcOf(c: u32, items: seq<Item>): u32
    decreases |items|
  {
    if items == [] then c else CrcOf(Update(c, items[0].data), items[1..])
  }

  /** Records within the size limit; CRC records carry no data. */
  predicate ItemOk(c: u32, it: Item) {
    Small(Stored(c, it)) && (it.typ == CRC_TYPE ==> it.data == [])
  }

  predicate ItemsOk(c: u32, items: seq<Item>)
    decreases |items|
  {
    items == [] || (ItemOk(c, items[0]) && ItemsOk(Update(c, items[0].data), items[1..]))
  }

  /** A decoder whose CRC is d reads a chain that starts from c. */
  predicate InStep(d: u32, c: u32, items: seq<Item>) {
    d == c || (items != [] && items[0].typ == CRC_TYPE)
  }

  /** A whole record is read back. */
  lemma {:induction false} ReadStored(file: bytes, off: nat, d: u32, c: u32, it: Item)
    requires ItemOk(c, it) && (d == c || it.typ == CRC_TYPE) && At(file, off, Frame(Stored(c, it)))
    ensures off + |Frame(Stored(c, it))| <= |file|
    ensures ReadRecord(file, off, d) == Decoded(Stored(c, it), off + |Frame(Stored(c, it))|, Update(c, it.data))
  {
    hide Marshal, Frame, FrameSize, Unframe, LooksTorn, ParseFrom, Update, U64, Small, At;
    var r := Stored(c, it);
    FrameLayout(file, off, r);
    SmallFacts(r);
    ParseOfMarshal(r);
    var n := |Marshal(r)|;
    var data := file[off + 8..off + |Frame(r)|];
    assert data[..n] == file[off + 8..off + 8 + n];
    if it.typ == CRC_TYPE {
      UpdateNothing(c);
    }
  }

  lemma {:induction false} SmallFacts(r: Record)
    requires Small(r)
    ensures TypeFits(r) && |r.data| < TWO_64 && |Marshal(r)| <= MAX_RECORD_SIZE
  {
  }

  /** What a segment may end in: zeros, or the head of a record. */
  ghost predicate Ending(tail: bytes) {
    tail == Zeros(|tail|) || exists r :: Small(r) && |tail| < |Frame(r)| && tail == Frame(r)[..|tail|]
  }

  lemma {:induction false} FromLEOfZeros(n: nat)
    ensures FromLE(Zeros(n)) == 0
  {
    if n > 0 {
      FromLEOfZeros(n - 1);
      assert Zeros(n)[1..] == Zeros(n - 1);
    }
  }

  /** There the decoder stops without an error. */
  lemma {:induction false} StopsAt(file: bytes, off: nat, d: u32)
    requires off <= |file| && Ending(file[off..])
    ensures var o := ReadRecord(file, off, d); o.EOF? || o.ShortFrame?
  {
    hide Frame, FromLE, Marshal, Judge, Small, Unframe;
    var tail := file[off..];
    if |tail| >= 8 {
      assert file[off..off + 8] == tail[..8];
      if tail == Zeros(|tail|) {
        FromLEOfZeros(8);
        assert tail[..8] == Zeros(8);
      } else {
        var r :| Small(r) && |tail| < |Frame(r)| && tail == Frame(r)[..|tail|];
        ShortRead(file, off, r);
      }
    }
  }

  lemma {:induction false} ShortRead(file: bytes, off: nat, r: Record)
    requires Small(r) && off + 8 <= |file| && |file| - off < |Frame(r)| && file[off..] == Frame(r)[..|file| - off]
    ensures var (n, pad) := Unframe(U64(file, off)); U64(file, off) != 0 && n <= MAX_RECORD_SIZE && off + 8 + n + pad > |file|
  {
    hide Marshal, FrameSize, Unframe, LE, U64;
    var f := Frame(r);
    assert At(f, 0, f) by {
      assert f[0..|f|] == f;
    }
    FrameLayout(f, 0, r);
    SmallFacts(r);
    SameNumber(file, off, f);
  }

  lemma {:induction false} SameNumber(file: bytes, off: nat, f: bytes)
    requires off + 8 <= |file| && |file| - off <= |f| && file[off..] == f[..|file| - off]
    ensures U64(file, off) == U64(f, 0)
  {
    assert file[off..off + 8] == file[off..][..8] == f[0..8];
  }

  /** A chain of records is read back, and decoding goes on behind it. */
  lemma {:induction false} ScanPast(file: bytes, off: nat, d: u32, c: u32, items: seq<Item>, tail: bytes)
    requires ItemsOk(c, items) && InStep(d, c, items)
    requires off <= |file| && file[off..] == SegBytes(c, items) + tail
    ensures var s, rest := ScanFrom(file, off, d),
                           ScanFrom(file, off + |SegBytes(c, items)|, if items == [] then d else CrcOf(c, items));
      s == rest.(recs := StoredAll(c, items) + rest.recs)
    decreases |items|
  {
    hide ReadRecord, ScanFrom, Frame, Stored, ItemOk, Update, SegBytes, StoredAll, CrcOf, ItemsOk;
    if items == [] {
      NoItems(c, c);
    } else {
      ChainStep(c, items);
      var it, f, c' := items[0], Frame(Stored(c, items[0])), Update(c, items[0].data);
      assert At(file, off, f) by {
        assert file[off..off + |f|] == file[off..][..|f|] == f;
      }
      ReadStored(file, off, d, c, it);
      ScanStep(file, off, d);
      assert file[off + |f|..] == file[off..][|f|..] == SegBytes(c', items[1..]) + tail;
      ScanPast(file, off + |f|, c', c', items[1..], tail);
      NoItems(c', c');
    }
  }

  lemma {:induction false} ChainStep(c: u32, items: seq<Item>)
    requires items != []
    ensures var c' := Update(c, items[0].data); var rest := items[1..];
      && SegBytes(c, items) == Frame(Stored(c, items[0])) + SegBytes(c', rest)
      && StoredAll(c, items) == [Stored(c, items[0])] + StoredAll(c', rest)
      && CrcOf(c, items) == CrcOf(c', rest)
      && (ItemsOk(c, items) <==> ItemOk(c, items[0]) && ItemsOk(c', rest))
  {
    hide Frame, Stored, Update, ItemOk;
  }

  lemma {:induction false} ScanStep(file: bytes, off: nat, d: u32)
    requires off <= |file|
    ensures var o := ReadRecord(file, off, d);
      if !o.Decoded? then ScanFrom(file, off, d) == Scan([], off, d, o)
      else
        var rest := ScanFrom(file, o.next, o.crc);
        ScanFrom(file, off, d) == rest.(recs := [o.rec] + rest.recs)
  {
    hide ReadRecord;
  }

  /** A chain of records is read back completely, up to an ending that stops the decoder. */
  lemma {:induction false} ScanReads(file: bytes, off: nat, d: u32, c: u32, items: seq<Item>, tail: bytes)
    requires ItemsOk(c, items) && InStep(d, c, items) && Ending(tail)
    requires off <= |file| && file[off..] == SegBytes(c, items) + tail
    ensures var s := ScanFrom(file, off, d);
      && s.recs == StoredAll(c, items) && s.off == off + |SegBytes(c, items)|
      && s.crc == (if items == [] then d else CrcOf(c, items)) && (s.end.EOF? || s.end.ShortFrame?)
  {
    hide ReadRecord, ItemsOk, SegBytes, StoredAll, CrcOf, Ending;
    var end, x := off + |SegBytes(c, items)|, if items == [] then d else CrcOf(c, items);
    ScanPast(file, off, d, c, items, tail);
    assert file[end..] == file[off..][|SegBytes(c, items)|..] == tail;
    StopsAt(file, end, x);
  }

  // ---- cut files

  /** The number of whole records in the first m bytes. */
  function Whole(c: u32, items: seq<Item>, m: nat): (k: nat)
    ensures k <= |items|
    decreases |items|
  {
    if items == [] || |Frame(Stored(c, items[0]))| > m then 0
    else 1 + Whole(Update(c, items[0].data), items[1..], m - |Frame(Stored(c, items[0]))|)
  }

  /** Cutting a segment leaves the whole records before the cut and the head of the next one. */
  lemma {:induction false} CutSplits(c: u32, items: seq<Item>, m: nat)
    requires ItemsOk(c, items) && m <= |SegBytes(c, items)|
    ensures var k := Whole(c, items, m); var c' := CrcOf(c, items[..k]); var h := m - |SegBytes(c, items[..k])|;
      && h >= 0 && ItemsOk(c, items[..k])
      && (if k == |items| then h == 0 && SegBytes(c, items)[..m] == SegBytes(c, items[..k])
          else
            var f := Frame(Stored(c', items[k]));
            && ItemOk(c', items[k]) && h < |f| && SegBytes(c, items)[..m] == SegBytes(c, items[..k]) + f[..h])
    decreases |items|
  {
    hide Frame, Stored, Update, ItemOk, SegBytes, CrcOf, ItemsOk;
    NoItems(c, c);
    if items == [] {
      assert items[..0] == [];
    } else {
      var f := Frame(Stored(c, items[0]));
      var c' := Update(c, items[0].data);
      FirstItem(c, items, |items| - 1);
      assert items[..|items|] == items && items[1..][..|items| - 1] == items[1..];
      if |f| > m {
        assert items[..0] == [];
      } else {
        var k := Whole(c', items[1..], m - |f|);
        CutSplits(c', items[1..], m - |f|);
        FirstItem(c, items, k);
        assert SegBytes(c, items)[..m] == f + SegBytes(c', items[1..])[..m - |f|];
      }
    }
  }

  /** The first record of a chain, and the rest. */
  lemma {:induction false} FirstItem(c: u32, items: seq<Item>, k: nat)
    requires k < |items|
    ensures var c' := Update(c, items[0].data); var rest := items[1..][..k];
      && SegBytes(c, items[..k + 1]) == Frame(Stored(c, items[0])) + SegBytes(c', rest)
      && CrcOf(c, items[..k + 1]) == CrcOf(c', rest)
      && (ItemsOk(c, items[..k + 1]) <==> ItemOk(c, items[0]) && ItemsOk(c', rest))
  {
    hide Frame, Stored, Update, ItemOk, SegBytes, CrcOf, ItemsOk;
    ChainStep(c, items[..k + 1]);
    assert items[..k + 1][1..] == items[1..][..k];
  }

  /** What is left of the next record is an ending. */
  lemma {:induction false} CutEnding(c: u32, items: seq<Item>, m: nat) returns (tail: bytes)
    requires ItemsOk(c, items) && m <= |SegBytes(c, items)|
    ensures var k := Whole(c, items, m);
      SegBytes(c, items)[..m] == SegBytes(c, items[..k]) + tail && Ending(tail) && ItemsOk(c, items[..k])
  {
    hide Frame, Update, SegBytes, ItemsOk, CrcOf, Small;
    CutSplits(c, items, m);
    var k := Whole(c, items, m);
    var h := m - |SegBytes(c, items[..k])|;
    if k == |items| {
      tail := Zeros(0);
      assert SegBytes(c, items[..k]) + tail == SegBytes(c, items[..k]);
    } else {
      tail := Frame(Stored(CrcOf(c, items[..k]), items[k]))[..h];
    }
  }

  lemma {:induction false} InStepPrefix(d: u32, c: u32, items: seq<Item>, k: nat)
    requires InStep(d, c, items) && 0 < k <= |items|
    ensures InStep(d, c, items[..k])
  {
  }

  /** A segment cut at any byte: decoding yields exactly the records wholly inside the cut, stops
      behind the last one, and has the running CRC up to there. */
  lemma {:induction false} ScanCut(c: u32, items: seq<Item>, m: nat)
    requires ItemsOk(c, items) && InStep(0, c, items) && m <= |SegBytes(c, items)|
    ensures var k := Whole(c, items, m); var s := ScanFrom(SegBytes(c, items)[..m], 0, 0);
      && s.recs == StoredAll(c, items[..k]) && s.off == |SegBytes(c, items[..k])|
      && s.crc == (if k == 0 then 0 else CrcOf(c, items[..k])) && (s.end.EOF? || s.end.ShortFrame?)
  {
    hide ScanFrom, Whole, SegBytes, StoredAll, CrcOf, ItemsOk, Ending;
    var file := SegBytes(c, items)[..m];
    var k := Whole(c, items, m);
    var tail := CutEnding(c, items, m);
    assert file[0..] == file;
    if k == 0 {
      assert items[..0] == [];
      NoItems(0, c);
      assert file == SegBytes(0, []) + tail;
      ScanReads(file, 0, 0, 0, [], tail);
    } else {
      InStepPrefix(0, c, items, k);
      ScanReads(file, 0, 0, c, items[..k], tail);
    }
  }

  lemma {:induction false} NoItems(a: u32, c: u32)
    ensures SegBytes(a, []) == SegBytes(c, []) == [] && StoredAll(a, []) == StoredAll(c, []) == []
    ensures ItemsOk(a, []) && CrcOf(a, []) == a
  {
  }
}
