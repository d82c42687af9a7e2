/** The write-ahead log: an encoder over a page writer, segments, rotation, reading and recovery. */
module Wals {
  import opened Bytes
  import opened Binary
  import opened Crc
  import opened PageWriters
  import opened WalRecords
  import opened WalDecoders

  const WAL_PAGE_BYTES: nat := 4096

  class Encoder {
    const pw: PageWriter
    var crc: u32
    var offset: nat

    ghost predicate Valid()
      reads this, pw, pw.buf
    {
      pw.Valid() && offset == pw.start + |pw.Contents()|
    }

    ghost function Contents(): bytes
      reads pw, pw.buf
    {
      pw.Contents()
    }

    constructor (prevCrc: u32, pageOffset: nat, bufferSize: int)
      ensures Valid() && fresh(pw) && fresh(pw.buf) && Contents() == [] && pw.sink == []
      ensures crc == prevCrc && offset == pageOffset == pw.start
    {
      pw := new PageWriter(WAL_PAGE_BYTES, pageOffset, bufferSize);
      crc, offset := prevCrc, pageOffset;
    }

    /** Encode: chains the CRC, then writes length field, payload and padding. */
    method Encode(typ: int, data: bytes) returns (stored: u32, start: nat)
      requires Valid()
      modifies this, pw, pw.buf
      ensures Valid() && pw.buf == old(pw.buf)
      ensures Contents() == old(Contents()) + Frame(Stored(old(crc), Item(typ, data)))
      ensures stored == crc == Update(old(crc), data)
      ensures start == old(offset) && offset == start + |Frame(Stored(old(crc), Item(typ, data)))|
    {
      hide PageWriter.Valid, PageWriter.Contents, Marshal, FrameSize, Update;
      crc := Update(crc, data);
      stored := crc;
      var payload := Marshal(Record(typ, crc, data));
      var f := FrameSize(|payload|);
      var lenField, padBytes := f.0, f.1;
      start := offset;
      ghost var before := Contents();
      var _ := pw.Write(LE(lenField, FRAME_SIZE_BYTES));
      var _ := pw.Write(payload);
      if padBytes > 0 {
        var _ := pw.Write(Zeros(padBytes));
      }
      offset := offset + FRAME_SIZE_BYTES + |payload| + padBytes;
      FrameParts(before, LE(lenField, FRAME_SIZE_BYTES), payload, Zeros(padBytes), Contents());
    }

    method Flush()
      requires Valid()
      modifies pw
      ensures Valid() && pw.buf == old(pw.buf) && Contents() == old(Contents()) == pw.sink
    {
      hide PageWriter.Valid, PageWriter.Contents;
      pw.Flush();
    }
  }

  lemma {:induction false} FrameParts(before: bytes, a: bytes, b: bytes, c: bytes, after: bytes)
    requires after == before + a + b + c || (c == [] && after == before + a + b)
    ensures after == before + (a + (b + c))
  {
  }

  // ---- segments

  /** The CRC that a segment continues from, and the records handed to the encoder. */
  datatype Segment = Segment(c: u32, items: seq<Item>)

  /** A file that holds the records of the segment, then zeros. */
  ghost predicate FileOf(file: bytes, s: Segment) {
    && ItemsOk(s.c, s.items) && InStep(0, s.c, s.items)
    && |SegBytes(s.c, s.items)| <= |file|
    && file == SegBytes(s.c, s.items) + Zeros(|file| - |SegBytes(s.c, s.items)|)
  }

  ghost predicate FilesOf(files: seq<bytes>, segs: seq<Segment>) {
    |files| == |segs| && forall i :: 0 <= i < |files| ==> FileOf(files[i], segs[i])
  }

  function Payloads(items: seq<Item>): seq<bytes> {
    if items == [] then []
    else (if items[0].typ == DATA_TYPE then [items[0].data] else []) + Payloads(items[1..])
  }

  function AllPayloads(segs: seq<Segment>): seq<bytes> {
    if segs == [] then [] else AllPayloads(segs[..|segs| - 1]) + Payloads(segs[|segs| - 1].items)
  }

  /** What callers have logged: payloads and snapshot markers, in order, without the CRC records. */
  function Logged(items: seq<Item>): seq<Item> {
    if items == [] then [] else (if items[0].typ == CRC_TYPE then [] else [items[0]]) + Logged(items[1..])
  }

  function AllLogged(segs: seq<Segment>): seq<Item> {
    if segs == [] then [] else AllLogged(segs[..|segs| - 1]) + Logged(segs[|segs| - 1].items)
  }

  /** The same, of decoded records and of files. */
  function LoggedOf(recs: seq<Record>): seq<Item> {
    if recs == [] then []
    else (if recs[0].typ == CRC_TYPE then [] else [Item(recs[0].typ, recs[0].data)]) + LoggedOf(recs[1..])
  }

  ghost function ScannedOf(files: seq<bytes>): seq<Item> {
    if files == [] then []
    else ScannedOf(files[..|files| - 1]) + LoggedOf(ScanFrom(files[|files| - 1], 0, 0).recs)
  }

  /** The data of the decoded data records. */
  function DataOf(recs: seq<Record>): seq<bytes> {
    if recs == [] then []
    else (if recs[0].typ == DATA_TYPE then [recs[0].data] else []) + DataOf(recs[1..])
  }

  lemma {:induction false} DataOfStored(c: u32, items: seq<Item>)
    ensures DataOf(StoredAll(c, items)) == Payloads(items)
    decreases |items|
  {
    hide Update;
    if items != [] {
      DataOfStored(Update(c, items[0].data), items[1..]);
      assert StoredAll(c, items)[1..] == StoredAll(Update(c, items[0].data), items[1..]);
    }
  }

  lemma {:induction false} LoggedOfStored(c: u32, items: seq<Item>)
    ensures LoggedOf(StoredAll(c, items)) == Logged(items)
    decreases |items|
  {
    hide Update;
    if items != [] {
      LoggedOfStored(Update(c, items[0].data), items[1..]);
      assert StoredAll(c, items)[1..] == StoredAll(Update(c, items[0].data), items[1..]);
    }
  }

  lemma {:induction false} LoggedAppend(items: seq<Item>, it: Item)
    ensures Logged(items + [it]) == Logged(items) + if it.typ == CRC_TYPE then [] else [it]
  {
    if items == [] {
      assert [it][1..] == [];
    } else {
      LoggedAppend(items[1..], it);
      assert (items + [it])[1..] == items[1..] + [it];
    }
  }

  lemma {:induction false} PayloadsAppend(items: seq<Item>, it: Item)
    ensures Payloads(items + [it]) == Payloads(items) + if it.typ == DATA_TYPE then [it.data] else []
  {
    if items == [] {
      assert [it][1..] == [];
    } else {
      PayloadsAppend(items[1..], it);
      assert (items + [it])[1..] == items[1..] + [it];
    }
  }

  /** One more record in a chain. */
  lemma {:induction false} SegAppend(c: u32, items: seq<Item>, it: Item)
    requires ItemsOk(c, items) && ItemOk(CrcOf(c, items), it)
    ensures ItemsOk(c, items + [it])
    ensures SegBytes(c, items + [it]) == SegBytes(c, items) + Frame(Stored(CrcOf(c, items), it))
    ensures CrcOf(c, items + [it]) == Update(CrcOf(c, items), it.data)
    decreases |items|
  {
    hide Frame, Stored, Update, ItemOk;
    if items == [] {
      assert items + [it] == [it] && [it][1..] == [];
      assert SegBytes(c, [it]) == Frame(Stored(c, it)) + SegBytes(Update(c, it.data), []);
    } else {
      var c' := Update(c, items[0].data);
      SegAppend(c', items[1..], it);
      assert (items + [it])[1..] == items[1..] + [it];
      assert SegBytes(c, items + [it]) == Frame(Stored(c, items[0])) + SegBytes(c', items[1..] + [it]);
    }
  }

  lemma {:induction false} InStepMore(c: u32, items: seq<Item>, it: Item)
    requires InStep(0, c, items)
    ensures InStep(0, c, items + [it])
  {
  }

  /** The first record of a segment carries the CRC it continues from. */
  lemma {:induction false} FirstRecord(c: u32)
    ensures ItemOk(c, Item(CRC_TYPE, [])) && Update(c, []) == c
    ensures var items := [Item(CRC_TYPE, [])];
      && ItemsOk(c, items) && InStep(0, c, items) && SegBytes(c, items) == Frame(Stored(c, items[0])) && CrcOf(c, items) == c
      && Payloads(items) == []
  {
    hide Update, Small;
    UpdateNothing(c);
    var it := Item(CRC_TYPE, []);
    SmallCrc(c);
    assert [it][1..] == [];
    assert SegBytes(c, [it]) == Frame(Stored(c, it)) + SegBytes(Update(c, []), []);
  }

  lemma {:induction false} SmallCrc(c: u32)
    ensures Small(Record(CRC_TYPE, c, []))
  {
    hide Put;
    PutShort(CRC_TYPE);
    PutShort(c);
  }

  lemma {:induction false} PutShort(x: nat)
    requires x < TWO_64
    ensures |Put(x)| <= 10
  {
    RoomIs64();
    PutLength(x, 0);
  }

  /** Bytes on disk: what was written over zeros. */
  function OnDisk(written: bytes, size: nat): bytes {
    if |written| >= size then written else written + Zeros(size - |written|)
  }

  /** zeroToEnd: overwrites the rest of the file with zeros, in chunks. */
  method ZeroToEnd(file: bytes, pos: nat) returns (r: bytes)
    requires pos <= |file|
    ensures r == file[..pos] + Zeros(|file| - pos)
  {
    r := file[..pos];
    var remaining := |file| - pos;
    while remaining > 0
      invariant 0 <= remaining <= |file| - pos && r == file[..pos] + Zeros(|file| - pos - remaining)
      decreases remaining
    {
      var n := if 4096 < remaining then 4096 else remaining;
      r := r + Zeros(n);
      remaining := remaining - n;
    }
  }

  /** Where the records stop, the file has what the scan reports. */
  lemma {:induction false} EndedAt(file: bytes, off: nat, crc: u32)
    requires off <= |file|
    ensures var s := ScanFrom(file, off, crc); ReadRecord(file, s.off, s.crc) == s.end
    decreases |file| - off
  {
    hide ReadRecord;
    var o := ReadRecord(file, off, crc);
    if o.Decoded? {
      EndedAt(file, o.next, o.crc);
    }
  }

  /** openSegment: reads to the end of the valid records, zeroes the rest and seeds an encoder. */
  method OpenSegment(file: bytes, bufferSize: int) returns (ok: bool, enc: Encoder, validOff: nat, zeroed: bytes)
    ensures var s := ScanFrom(file, 0, 0);
      && (ok <==> !s.end.Corrupted? && !s.end.CRCMismatch?)
      && validOff == s.off <= |file| && zeroed == file[..s.off] + Zeros(|file| - s.off)
      && enc.crc == CrcAfter(file, s.off, s.crc) && enc.pw.start == s.off % WAL_PAGE_BYTES
      && (s.end.EOF? || s.end.ShortFrame? ==> enc.crc == s.crc)
    ensures fresh(enc) && fresh(enc.pw) && fresh(enc.pw.buf) && enc.Valid() && enc.Contents() == [] && enc.pw.sink == []
  {
    hide ScanFrom;
    var recs, d, end := ReadToEnd(file);
    EndedAt(file, 0, 0);
    ok := !end.Corrupted? && !end.CRCMismatch?;
    validOff := d.lastValidOff;
    zeroed := ZeroToEnd(file, validOff);
    enc := new Encoder(d.crc, validOff % WAL_PAGE_BYTES, bufferSize);
  }

  datatype AppendResult = Offset(n: nat) | ErrClosed | ErrNoCrc

  datatype ReadResult = ReadErr | Read(data: seq<bytes>)

  /** readSegment: the payloads of the data records; an early end is not an error. */
  method ReadSegment(file: bytes) returns (r: ReadResult)
    ensures var s := ScanFrom(file, 0, 0);
      r == if s.end.Corrupted? || s.end.CRCMismatch? then ReadErr else Read(DataOf(s.recs))
  {
    hide ScanFrom;
    var recs, d, end := ReadToEnd(file);
    if end.Corrupted? || end.CRCMismatch? {
      return ReadErr;
    }
    var data: seq<bytes> := [];
    for i := 0 to |recs|
      invariant data + DataOf(recs[i..]) == DataOf(recs)
    {
      if recs[i].typ == DATA_TYPE {
        data := data + [recs[i].data];
      }
      assert recs[i..][1..] == recs[i + 1..];
    }
    return Read(data);
  }

  /** A segment file gives back the payloads of its segment. */
  lemma {:induction false} FileReads(file: bytes, s: Segment)
    requires FileOf(file, s)
    ensures var t := ScanFrom(file, 0, 0);
      && (t.end.EOF? || t.end.ShortFrame?) && DataOf(t.recs) == Payloads(s.items) && LoggedOf(t.recs) == Logged(s.items)
  {
    hide ScanFrom, SegBytes, StoredAll, ItemsOk;
    LoggedOfStored(s.c, s.items);
    var tail := Zeros(|file| - |SegBytes(s.c, s.items)|);
    assert Ending(tail);
    assert file[0..] == file;
    ScanReads(file, 0, 0, s.c, s.items, tail);
    DataOfStored(s.c, s.items);
  }

  /** Scanning segment files gives back exactly what was logged in them, markers included. */
  lemma {:induction false} FilesScanned(files: seq<bytes>, segs: seq<Segment>)
    requires FilesOf(files, segs)
    ensures ScannedOf(files) == AllLogged(segs)
    decreases |files|
  {
    hide FileOf, ScanFrom, LoggedOf, Logged;
    if files != [] {
      var n := |files| - 1;
      FileReads(files[n], segs[n]);
      FilesScanned(files[..n], segs[..n]);
    }
  }

  // ---- the CRC chain across segments

  function ChainEnd(segs: seq<Segment>): u32 {
    if segs == [] then 0 else CrcOf(segs[|segs| - 1].c, segs[|segs| - 1].items)
  }

  /** Every segment continues from the CRC at the end of the one before. */
  ghost predicate ChainOk(segs: seq<Segment>) {
    segs == [] || (ChainOk(segs[..|segs| - 1]) && segs[|segs| - 1].c == ChainEnd(segs[..|segs| - 1]))
  }

  /** All record data, in order. */
  function DataBytes(items: seq<Item>): bytes {
    if items == [] then [] else items[0].data + DataBytes(items[1..])
  }

  function AllDataBytes(segs: seq<Segment>): bytes {
    if segs == [] then [] else AllDataBytes(segs[..|segs| - 1]) + DataBytes(segs[|segs| - 1].items)
  }

  lemma {:induction false} CrcOfData(c: u32, items: seq<Item>)
    ensures CrcOf(c, items) == Update(c, DataBytes(items))
    decreases |items|
  {
    hide Update;
    if items == [] {
      UpdateNothing(c);
    } else {
      CrcOfData(Update(c, items[0].data), items[1..]);
      UpdateConcat(c, items[0].data, DataBytes(items[1..]));
    }
  }

  lemma {:induction false} ChainEndData(segs: seq<Segment>)
    requires ChainOk(segs)
    ensures ChainEnd(segs) == Update(0, AllDataBytes(segs))
  {
    hide Update, CrcOf;
    if segs == [] {
      UpdateNothing(0);
    } else {
      var n := |segs| - 1;
      ChainEndData(segs[..n]);
      CrcOfData(segs[n].c, segs[n].items);
      UpdateConcat(0, AllDataBytes(segs[..n]), DataBytes(segs[n].items));
    }
  }

  lemma {:induction false} StoredCrc(c: u32, items: seq<Item>, j: nat)
    requires j < |items|
    ensures |StoredAll(c, items)| == |items| && StoredAll(c, items)[j].crc == Update(c, DataBytes(items[..j + 1]))
    decreases |items|
  {
    hide Update;
    var c' := Update(c, items[0].data);
    assert items[..j + 1][1..] == items[1..][..j];
    UpdateConcat(c, items[0].data, DataBytes(items[1..][..j]));
    if j > 0 {
      StoredCrc(c', items[1..], j - 1);
    } else {
      UpdateNothing(c');
      StoredLength(c', items[1..]);
    }
  }

  lemma {:induction false} StoredLength(c: u32, items: seq<Item>)
    ensures |StoredAll(c, items)| == |items|
    decreases |items|
  {
    hide Update;
    if items != [] {
      StoredLength(Update(c, items[0].data), items[1..]);
    }
  }

  lemma {:induction false} ChainPrefix(segs: seq<Segment>, i: nat)
    requires ChainOk(segs) && i < |segs|
    ensures ChainOk(segs[..i]) && segs[i].c == ChainEnd(segs[..i])
    decreases |segs|
  {
    var n := |segs| - 1;
    if i < n {
      ChainPrefix(segs[..n], i);
      assert segs[..n][..i] == segs[..i];
    }
  }

  /** Each stored CRC is one running CRC over all record data of all segments up to there. */
  lemma {:induction false} RunningCrc(segs: seq<Segment>, i: nat, j: nat)
    requires ChainOk(segs) && i < |segs| && j < |segs[i].items|
    ensures |StoredAll(segs[i].c, segs[i].items)| == |segs[i].items|
    ensures StoredAll(segs[i].c, segs[i].items)[j].crc
         == Update(0, AllDataBytes(segs[..i]) + DataBytes(segs[i].items[..j + 1]))
  {
    hide Update, ChainOk, ChainEnd, StoredAll;
    ChainPrefix(segs, i);
    ChainEndData(segs[..i]);
    StoredCrc(segs[i].c, segs[i].items, j);
    UpdateConcat(0, AllDataBytes(segs[..i]), DataBytes(segs[i].items[..j + 1]));
  }
}
