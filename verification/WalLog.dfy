/** The WAL object: appending, rotation, reading everything back, and opening after a crash. */
module WalLogs {
  import opened Bytes
  import opened Binary
  import opened Crc
  import opened CrcZeros
  import opened PageWriters
  import opened WalRecords
  import opened WalDecoders
  import opened Wals
  import opened WalCrashes

  datatype Options = Options(segmentSize: int, bufferSize: int, preallocSize: nat)

  datatype Status = Done | Closed

  /** Where in its page an offset lies. */
  function InPage(n: nat): nat {
    n % WAL_PAGE_BYTES
  }

  class Wal {
    const opts: Options
    /** The segment files before the current one, oldest first. */
    var files: seq<bytes>
    var enc: Encoder
    /** The valid bytes that were in the current file when the encoder took over, and the file's size then. */
    var base: bytes
    var size: nat
    var offset: nat
    var closed: bool
    ghost var segs: seq<Segment>
    ghost var cur: Segment

    ghost predicate Valid()
      reads this, enc, enc.pw, enc.pw.buf
    {
      && enc.Valid() && FilesOf(files, segs) && CurrentOk(base + enc.Contents(), enc.crc, cur)
      && enc.pw.start == InPage(|base|)
    }

    ghost function Repr(): set<object>
      reads this, enc, enc.pw
    {
      {this, enc, enc.pw, enc.pw.buf}
    }

    /** The records of the current segment, flushed or still buffered. */
    static ghost predicate CurrentOk(written: bytes, crc: u32, cur: Segment) {
      && ItemsOk(cur.c, cur.items) && InStep(0, cur.c, cur.items)
      && written == SegBytes(cur.c, cur.items) && crc == CrcOf(cur.c, cur.items)
    }

    /** All appended payloads, in order. */
    ghost function Log(): seq<bytes>
      reads this
    {
      AllPayloads(segs) + Payloads(cur.items)
    }

    /** All payloads and snapshot markers, in order. */
    ghost function Entries(): seq<Item>
      reads this
    {
      AllLogged(segs) + Logged(cur.items)
    }

    /** Whether the next record goes to a new segment. */
    predicate Full()
      reads this
    {
      opts.segmentSize > 0 && offset >= opts.segmentSize
    }

    /** Every segment continues the CRC of the one before. */
    ghost predicate Chained()
      reads this
    {
      ChainOk(AllSegs())
    }

    /** Nothing is buffered. */
    ghost predicate Flushed()
      reads this, enc, enc.pw, enc.pw.buf
    {
      enc.Contents() == enc.pw.sink
    }

    /** Where the encoder stands: the bytes of the segment, but counted from the page in which it was
        opened. */
    ghost function Position(): int
      reads this
    {
      |SegBytes(cur.c, cur.items)| - |base| + InPage(|base|)
    }

    ghost function AllSegs(): seq<Segment>
      reads this
    {
      segs + [cur]
    }

    /** The current file as the file system has it. */
    function CurrentFile(): bytes
      reads this, enc, enc.pw
    {
      OnDisk(base + enc.pw.sink, size)
    }

    /** Open in an empty directory: the first segment, with CRC 0. */
    constructor (opts: Options)
      ensures Valid() && Log() == [] && Entries() == [] && !closed && segs == [] && ChainOk(AllSegs()) && enc.crc == 0
      ensures base == [] && offset == Position()
      ensures fresh(enc) && fresh(enc.pw) && fresh(enc.pw.buf)
    {
      hide FilesOf, PageWriter.Valid, PageWriter.Contents, CurrentOk, Payloads;
      this.opts, files, segs, base, size, offset, closed, cur := opts, [], [], [], 0, 0, false, Segment(0, []);
      enc := new Encoder(0, 0, opts.bufferSize);
      new;
      NoFiles();
      CreateSegment(0);
      FirstChain(cur);
      assert segs + [cur] == [cur];
    }

    /** createSegment: a fresh file that begins with a record of the CRC to continue from. */
    method CreateSegment(prevCrc: u32)
      requires FilesOf(files, segs)
      modifies this`enc, this`base, this`size, this`offset, this`cur
      ensures Valid() && cur == Segment(prevCrc, [Item(CRC_TYPE, [])])
      ensures fresh(enc) && fresh(enc.pw) && fresh(enc.pw.buf) && enc.crc == prevCrc
      ensures enc.Contents() == enc.pw.sink && base == [] && offset == Position()
    {
      hide FilesOf, Frame, Stored, Update, SegBytes, CrcOf, ItemsOk, Small, PageWriter.Valid, PageWriter.Contents, CurrentOk,
           InStep, ItemOk, Payloads, AllPayloads, Logged, AllLogged;
      var e := new Encoder(prevCrc, 0, opts.bufferSize);
      FirstRecord(prevCrc);
      var _, _ := e.Encode(CRC_TYPE, []);
      e.Flush();
      FirstCurrent(prevCrc);
      assert e.Contents() == [] + Frame(Stored(prevCrc, Item(CRC_TYPE, []))) == Frame(Stored(prevCrc, Item(CRC_TYPE, [])));
      enc, base, size, offset := e, [], opts.preallocSize, e.offset;
      cur := Segment(prevCrc, [Item(CRC_TYPE, [])]);
      assert base + enc.Contents() == enc.Contents();
      assert CurrentOk(base + enc.Contents(), enc.crc, cur);
    }

    /** rotate: flushes, closes the file and continues the CRC chain in a new segment. */
    method Rotate()
      requires Valid()
      modifies this, enc.pw
      ensures Valid() && Log() == old(Log()) && Entries() == old(Entries()) && closed == old(closed)
      ensures enc.crc == old(enc.crc) && base == [] && offset == Position()
      ensures segs == old(segs) + [old(cur)] && cur == Segment(old(enc.crc), [Item(CRC_TYPE, [])])
      ensures old(Chained()) ==> Chained()
      ensures fresh(enc) && fresh(enc.pw) && fresh(enc.pw.buf)
    {
      hide FilesOf, Frame, Stored, Update, SegBytes, ItemsOk, PageWriter.Valid, PageWriter.Contents, FileOf, Payloads, OnDisk,
           InStep, AllPayloads, Small, ItemOk, AllLogged, Logged;
      enc.Flush();
      var prevCrc := enc.crc;
      FileClosed(base + enc.pw.sink, prevCrc, cur, size);
      FilesMore(files, segs, CurrentFile(), cur);
      PayloadsOfSegs(segs, cur);
      ghost var before := segs + [cur];
      files, segs := files + [CurrentFile()], segs + [cur];
      CreateSegment(prevCrc);
      FirstRecord(prevCrc);
      assert AllSegs()[..|segs|] == before;
      NothingYet();
    }

    /** A record of the caller, in the current segment. */
    method Store(typ: int, data: bytes) returns (stored: u32, start: nat)
      requires Valid() && ItemOk(enc.crc, Item(typ, data))
      modifies this`cur, enc, enc.pw, enc.pw.buf
      ensures Valid() && enc.pw.buf == old(enc.pw.buf) && stored == enc.crc == Update(old(enc.crc), data)
      ensures cur == Segment(old(cur).c, old(cur).items + [Item(typ, data)])
      ensures start == old(Position()) && enc.offset == Position()
    {
      hide FilesOf, Frame, Stored, Update, SegBytes, ItemsOk, CrcOf, PageWriter.Valid, PageWriter.Contents, ItemOk, InStep;
      SegAppend(cur.c, cur.items, Item(typ, data));
      InStepMore(cur.c, cur.items, Item(typ, data));
      stored, start := enc.Encode(typ, data);
      cur := Segment(cur.c, cur.items + [Item(typ, data)]);
      assert base + enc.Contents() == old(base + enc.Contents()) + Frame(Stored(old(enc.crc), Item(typ, data)));
    }

    /** The segment is over its size: rotate first. */
    method RotateWhenFull()
      requires Valid()
      modifies this, enc.pw
      ensures Valid() && Log() == old(Log()) && Entries() == old(Entries()) && closed == old(closed)
      ensures enc.crc == old(enc.crc) && (!old(Full()) ==> offset == old(offset))
      ensures segs == if old(Full()) then old(segs) + [old(cur)] else old(segs)
      ensures cur == if old(Full()) then Segment(old(enc.crc), [Item(CRC_TYPE, [])]) else old(cur)
      ensures old(Chained()) ==> Chained()
      ensures fresh(Repr() - old(Repr()))
    {
      hide FilesOf, PageWriter.Valid, PageWriter.Contents, ChainOk, AllLogged, Logged, AllPayloads, Payloads, SegBytes;
      if Full() {
        Rotate();
      }
    }

    /** What Append and SaveSnapshot share: rotation, then the record. */
    method LogRecord(typ: int, data: bytes) returns (stored: u32, start: nat)
      requires Valid() && (typ == DATA_TYPE || typ == SNAPSHOT_TYPE) && Small(Record(typ, Update(enc.crc, data), data))
      modifies Repr()
      ensures Valid() && closed == old(closed) && stored == enc.crc == Update(old(enc.crc), data)
      ensures Log() == old(Log()) + if typ == DATA_TYPE then [data] else []
      ensures Entries() == old(Entries()) + [Item(typ, data)]
      ensures segs == if old(Full()) then old(segs) + [old(cur)] else old(segs)
      ensures cur == Extended(old(cur), old(enc.crc), old(Full()), Item(typ, data))
      ensures enc.offset == Position() && (!old(Full()) ==> offset == old(offset))
      ensures cur.items != [] && start == LastStart(cur) - |base| + InPage(|base|)
      ensures old(Chained()) ==> Chained()
      ensures fresh(Repr() - old(Repr()))
    {
      hide FilesOf, PageWriter.Valid, PageWriter.Contents, ChainOk, Update, Small, CurrentOk, Payloads, SegBytes,
           AllPayloads, AllLogged, Logged, Marshal, InPage, Extended, CrcOf, ItemsOk;
      ghost var first, full, crc := cur, Full(), enc.crc;
      RotateWhenFull();
      ghost var was := cur;
      stored, start := Store(typ, data);
      ExtendedIs(first, was, crc, full, Item(typ, data));
      MoreLogged(segs, was, cur, Item(typ, data));
      ChainSame(segs, was, cur);
    }

    /** Append: one data record. When the running CRC comes out as zero it reports an error, but the
        record is in the log all the same. The offset reported is where the record starts in its
        segment exactly when the segment held less than a page when it was opened. */
    method Append(data: bytes) returns (r: AppendResult)
      requires Valid() && Small(Record(DATA_TYPE, Update(enc.crc, data), data))
      modifies Repr()
      ensures Valid() && closed == old(closed)
      ensures Log() == if closed then old(Log()) else old(Log()) + [data]
      ensures Entries() == if closed then old(Entries()) else old(Entries()) + [Item(DATA_TYPE, data)]
      ensures !closed ==> segs == if old(Full()) then old(segs) + [old(cur)] else old(segs)
      ensures !closed ==> cur == Extended(old(cur), old(enc.crc), old(Full()), Item(DATA_TYPE, data))
      ensures r.Offset? ==> offset == Position()
      ensures r == ErrNoCrc && !old(Full()) ==> offset == old(offset)
      ensures r == ErrClosed <==> closed
      ensures r == ErrNoCrc <==> !closed && data != [] && Update(old(enc.crc), data) == 0
      ensures r.Offset? ==> cur.items != [] && r.n == LastStart(cur) - |base| + InPage(|base|)
      ensures r.Offset? ==> (r.n == LastStart(cur) <==> |base| < WAL_PAGE_BYTES)
      ensures old(Chained()) ==> Chained()
      ensures fresh(Repr() - old(Repr()))
    {
      hide FilesOf, PageWriter.Valid, PageWriter.Contents, ChainOk, Update, Small, CurrentOk, Payloads, SegBytes,
           AllPayloads, AllLogged, Logged, Marshal, Extended, InPage;
      if closed {
        return ErrClosed;
      }
      var stored, start := LogRecord(DATA_TYPE, data);
      InPageIs(|base|);
      if stored == 0 && |data| > 0 {
        return ErrNoCrc;
      }
      offset := enc.offset;
      return Offset(start);
    }

    /** SaveSnapshot: a marker record behind everything else, in a new segment if the old one is full, and
        flushed at once. */
    method SaveSnapshot(snapData: bytes) returns (r: Status)
      requires Valid() && Small(Record(SNAPSHOT_TYPE, Update(enc.crc, snapData), snapData))
      modifies Repr()
      ensures Valid() && closed == old(closed)
      ensures r == Closed <==> closed
      ensures Log() == old(Log())
      ensures Entries() == if closed then old(Entries()) else old(Entries()) + [Item(SNAPSHOT_TYPE, snapData)]
      ensures !closed ==> segs == if old(Full()) then old(segs) + [old(cur)] else old(segs)
      ensures !closed ==> cur == Extended(old(cur), old(enc.crc), old(Full()), Item(SNAPSHOT_TYPE, snapData))
      ensures !closed ==> offset == Position()
      ensures !closed ==> Flushed()
      ensures old(Chained()) ==> Chained()
      ensures fresh(Repr() - old(Repr()))
    {
      hide FilesOf, PageWriter.Valid, PageWriter.Contents, ChainOk, Update, Small, CurrentOk, Payloads, AllPayloads,
           AllLogged, Logged, SegBytes, Extended, InPage;
      if closed {
        return Closed;
      }
      var _, _ := LogRecord(SNAPSHOT_TYPE, snapData);
      assert old(Log()) + [] == old(Log());
      offset := enc.offset;
      enc.Flush();
      return Done;
    }

    /** Sync: hands everything buffered to the file. */
    method Sync() returns (r: Status)
      requires Valid()
      modifies enc.pw
      ensures Valid() && enc.pw.buf == old(enc.pw.buf) && (r == Closed <==> closed)
      ensures !closed ==> Flushed()
    {
      hide FilesOf, PageWriter.Valid, PageWriter.Contents, CurrentOk;
      if closed {
        return Closed;
      }
      enc.Flush();
      return Done;
    }

    /** ReadAll: exactly the appended payloads, in order. */
    method ReadAll() returns (r: ReadResult)
      requires Valid()
      modifies enc.pw
      ensures Valid() && enc.pw.buf == old(enc.pw.buf) && (!closed ==> Flushed())
      ensures r == if closed then ReadErr else Read(Log())
    {
      hide FilesOf, PageWriter.Valid, PageWriter.Contents, CurrentOk, Payloads, FileOf, ScanFrom, AllPayloads;
      if closed {
        return ReadErr;
      }
      enc.Flush();
      FileClosed(base + enc.pw.sink, enc.crc, cur, size);
      var all := files + [CurrentFile()];
      ghost var s := segs + [cur];
      FilesMore(files, segs, CurrentFile(), cur);
      var data: seq<bytes> := [];
      PayloadsOfSegs(segs, cur);
      NoPayloads();
      assert s[..0] == [];
      FilesCount(all, s);
      for i := 0 to |all|
        invariant Valid() && enc.pw.buf == old(enc.pw.buf) && enc.Contents() == enc.pw.sink
        invariant data == AllPayloads(s[..i])
      {
        FileAt(all, s, i);
        FileReads(all[i], s[i]);
        var segData := ReadSegment(all[i]);
        assert s[..i + 1] == s[..i] + [s[i]];
        PayloadsOfSegs(s[..i], s[i]);
        data := data + segData.data;
      }
      assert s[..|all|] == s;
      return Read(data);
    }

    /** Close: flushes and refuses further calls. */
    method Close()
      requires Valid()
      modifies this`closed, enc.pw
      ensures Valid() && enc.pw.buf == old(enc.pw.buf) && closed
      ensures !old(closed) ==> Flushed()
    {
      hide FilesOf, PageWriter.Valid, PageWriter.Contents, CurrentOk;
      if closed {
        return;
      }
      closed := true;
      enc.Flush();
    }

    /** The fields as openSegment leaves them. The log is known if the records kept are. */
    constructor Opened(files: seq<bytes>, last: bytes, opts: Options, enc: Encoder, validOff: nat,
                       ghost segs: seq<Segment>, ghost cur: Segment)
      requires enc.Valid() && enc.Contents() == [] && validOff <= |last| && enc.pw.start == InPage(validOff)
      ensures this.files == files && this.opts == opts && this.enc == enc && this.segs == segs && this.cur == cur && !closed
      ensures base == last[..validOff] && size == |last| && offset == validOff
      ensures FilesOf(files, segs) && CurrentOk(last[..validOff], enc.crc, cur) ==> Valid()
    {
      hide FilesOf, PageWriter.Valid, PageWriter.Contents, CurrentOk;
      this.opts, this.files, this.enc, this.segs, this.cur, closed := opts, files, enc, segs, cur, false;
      base, size, offset := last[..validOff], |last|, validOff;
      new;
      assert base + enc.Contents() == base;
    }
  }

  /** Open over existing segments, on any files; null for an error. With earlier files that hold the
      segments, and a last one whose scan gives back the records of cur and ends with their CRC, the log is
      exactly theirs. */
  method OpenLog(files: seq<bytes>, last: bytes, opts: Options, ghost segs: seq<Segment>, ghost cur: Segment)
    returns (v: Wal?)
    ensures var t := ScanFrom(last, 0, 0); v == null <==> t.end.Corrupted? || t.end.CRCMismatch?
    ensures v != null ==>
      && fresh(v) && fresh(v.enc) && fresh(v.enc.pw) && fresh(v.enc.pw.buf)
      && v.files == files && v.opts == opts && v.segs == segs && v.cur == cur && !v.closed
    ensures v != null ==> var t := ScanFrom(last, 0, 0);
      v.base == last[..t.off] && v.size == |last| && v.enc.crc == CrcAfter(last, t.off, t.crc)
    ensures v != null && FilesOf(files, segs) && CrashClean(last, cur) ==>
      v.Valid() && v.Log() == AllPayloads(segs) + Payloads(cur.items)
  {
    hide FilesOf, PageWriter.Valid, PageWriter.Contents, ScanFrom, Payloads, AllPayloads, SegBytes, CrcOf, ItemsOk, CrcAfter;
    var ok, enc, validOff, zeroed := OpenSegment(last, opts.bufferSize);
    if !ok {
      return null;
    }
    v := new Wal.Opened(files, last, opts, enc, validOff, segs, cur);
  }

  /** The last file gives back the records of the segment and leaves the encoder in step with them. */
  ghost predicate CrashClean(last: bytes, cur: Segment) {
    var t := ScanFrom(last, 0, 0);
    Wal.CurrentOk(last[..t.off], CrcAfter(last, t.off, t.crc), cur)
  }

  lemma {:induction false} NoFiles()
    ensures FilesOf([], [])
  {
  }

  lemma {:induction false} FirstChain(s: Segment)
    requires s == Segment(0, [Item(CRC_TYPE, [])])
    ensures ChainOk([s]) && AllPayloads([]) + Payloads(s.items) == [] && AllLogged([]) + Logged(s.items) == []
  {
    assert [s][..0] == [] && ChainEnd([]) == 0 && ChainOk([]);
    assert s.items[1..] == [];
  }

  /** More records in the last segment do not change what it continues from. */
  lemma {:induction false} ChainSame(segs: seq<Segment>, was: Segment, cur: Segment)
    requires was.c == cur.c
    ensures ChainOk(segs + [was]) <==> ChainOk(segs + [cur])
  {
  }

  lemma {:induction false} InPageIs(n: nat)
    ensures InPage(0) == 0 && (InPage(n) == n <==> n < WAL_PAGE_BYTES)
  {
  }

  /** Where the last record of a segment begins. */
  ghost function LastStart(s: Segment): nat {
    if s.items == [] then 0 else |SegBytes(s.c, s.items[..|s.items| - 1])|
  }

  /** The current segment after one more record: behind what was there, or behind the CRC record of a
      segment just opened. */
  function Extended(was: Segment, crc: u32, full: bool, it: Item): Segment {
    if full then Segment(crc, [Item(CRC_TYPE, []), it]) else Segment(was.c, was.items + [it])
  }

  lemma {:induction false} FirstCurrent(c: u32)
    ensures var it := Item(CRC_TYPE, []); Wal.CurrentOk(Frame(Stored(c, it)), c, Segment(c, [it]))
  {
    hide Frame, Update, Small, SegBytes, CrcOf, ItemsOk;
    FirstRecord(c);
  }

  lemma {:induction false} ExtendedIs(first: Segment, was: Segment, crc: u32, full: bool, it: Item)
    requires was == if full then Segment(crc, [Item(CRC_TYPE, [])]) else first
    ensures var items := was.items + [it];
      Extended(first, crc, full, it) == Segment(was.c, items) && items[..|items| - 1] == was.items
  {
  }

  lemma {:induction false} NothingYet()
    ensures Payloads([Item(CRC_TYPE, [])]) == [] && Logged([Item(CRC_TYPE, [])]) == []
  {
    assert [Item(CRC_TYPE, [])][1..] == [];
  }

  lemma {:induction false} NoPayloads()
    ensures AllPayloads([]) == []
  {
  }

  lemma {:induction false} PayloadsOfSegs(segs: seq<Segment>, s: Segment)
    ensures AllPayloads(segs + [s]) == AllPayloads(segs) + Payloads(s.items)
    ensures AllLogged(segs + [s]) == AllLogged(segs) + Logged(s.items)
  {
  }

  lemma {:induction false} FileAt(files: seq<bytes>, segs: seq<Segment>, i: nat)
    requires FilesOf(files, segs) && i < |files|
    ensures i < |segs| && FileOf(files[i], segs[i])
  {
  }

  lemma {:induction false} FilesCount(files: seq<bytes>, segs: seq<Segment>)
    requires FilesOf(files, segs)
    ensures |files| == |segs|
  {
  }

  lemma {:induction false} FilesMore(files: seq<bytes>, segs: seq<Segment>, file: bytes, s: Segment)
    requires FilesOf(files, segs) && FileOf(file, s)
    ensures FilesOf(files + [file], segs + [s])
  {
  }

  /** A flushed current segment is a segment file. */
  lemma {:induction false} FileClosed(written: bytes, crc: u32, s: Segment, size: nat)
    requires Wal.CurrentOk(written, crc, s)
    ensures FileOf(OnDisk(written, size), s)
  {
  }

  /** The log after one more record. */
  lemma {:induction false} MoreLogged(segs: seq<Segment>, was: Segment, cur: Segment, it: Item)
    requires cur.items == was.items + [it]
    ensures AllPayloads(segs) + Payloads(cur.items)
         == AllPayloads(segs) + Payloads(was.items) + if it.typ == DATA_TYPE then [it.data] else []
    ensures AllLogged(segs) + Logged(cur.items)
         == AllLogged(segs) + Logged(was.items) + if it.typ == CRC_TYPE then [] else [it]
  {
    PayloadsAppend(was.items, it);
    LoggedAppend(was.items, it);
  }

  // ---- closing, crashing, opening again

  /** A segment file that ends in zeros opens cleanly. */
  lemma {:induction false} ZerosClean(written: bytes, crc: u32, s: Segment, size: nat)
    requires Wal.CurrentOk(written, crc, s)
    ensures var t := ScanFrom(OnDisk(written, size), 0, 0); !t.end.Corrupted? && !t.end.CRCMismatch?
    ensures CrashClean(OnDisk(written, size), s)
  {
    hide ScanFrom, ItemsOk, SegBytes, CrcOf, StoredAll, ReadRecord, CrcAfter, Zeros, OnDisk;
    var file := OnDisk(written, size);
    DiskParts(written, size);
    var tail := Zeros(|file| - |written|);
    ScanReads(file, 0, 0, s.c, s.items, tail);
    NoItems(s.c, 0);
    EndKeeps(file, |written|, CrcBehind(s.c, s.items));
  }

  lemma {:induction false} DiskParts(written: bytes, size: nat)
    ensures var file := OnDisk(written, size); var tail := Zeros(|file| - |written|);
      && |file| >= |written| && file[0..] == file == written + tail && file[..|written|] == written
      && file[|written|..] == tail && Ending(tail)
  {
  }

  /** Closing and opening again changes nothing. */
  method CloseAndReopen(w: Wal) returns (v: Wal)
    requires w.Valid() && !w.closed
    modifies w, w.enc.pw
    ensures fresh(v) && fresh(v.Repr()) && v.Valid() && !v.closed && v.Log() == old(w.Log()) && v.opts == w.opts
    ensures v.segs == old(w.segs) && v.cur == old(w.cur)
  {
    hide FilesOf, PageWriter.Valid, PageWriter.Contents, Payloads, AllPayloads, ScanFrom, CrashClean, Wal.CurrentOk;
    w.Close();
    ZerosClean(w.base + w.enc.Contents(), w.enc.crc, w.cur, w.size);
    v := OpenLog(w.files, w.CurrentFile(), w.opts, w.segs, w.cur);
  }

  // ---- crashes

  /** The segment that an encoder continues after a crash; without a record it starts from CRC 0. */
  ghost function Kept(s: Segment, m: nat, z: nat): Segment {
    var items := Survivors(s, m, z);
    if items == [] then Segment(0, []) else Segment(s.c, items)
  }

  /** The record that the crash hit is all there, or decoding ends in front of it without having moved
      the running CRC. */
  ghost predicate GoesOn(s: Segment, m: nat, z: nat) {
    var fate := FateAt(s, m, z);
    fate.Survives? || fate == Ends(CrcBehind(s.c, Survivors(s, m, z)))
  }

  /** A crash leaves any part of what had reached the current file, in front of any number of zeros: none
      if the file was cut, the rest of the file if it was preallocated or zeroed before. Opening it again
      fails exactly if the record that the crash hit is refused. If that record goes on, the log is that of
      the records kept, after all earlier segments, and the CRC chain goes on unless no record of the
      current segment is left and the chain had left zero. */
  method CrashAndReopen(w: Wal, m: nat, z: nat) returns (v: Wal?)
    requires w.Valid() && m <= |w.base + w.enc.pw.sink|
    ensures v == null <==> FateAt(w.cur, m, z) == Refused
    ensures v != null ==> fresh(v) && fresh(v.Repr()) && !v.closed && v.segs == w.segs && v.cur == Kept(w.cur, m, z)
    ensures v != null && GoesOn(w.cur, m, z) ==>
      && v.Valid() && v.Log() == AllPayloads(w.segs) + Payloads(Survivors(w.cur, m, z))
      && (ChainOk(w.AllSegs()) ==>
            (ChainOk(v.AllSegs()) <==> Survivors(w.cur, m, z) != [] || ChainEnd(w.segs) == 0))
  {
    hide FilesOf, PageWriter.Valid, Payloads, AllPayloads, ItemsOk, SegBytes, CrcOf, ChainOk, ScanFrom, FateAt, Survivors,
      CrashRead, CrashClean;
    var last := w.CurrentFile()[..m] + Zeros(z);
    SinkPrefix(w);
    CrashOpens(w.cur, m, z);
    v := OpenLog(w.files, last, w.opts, w.segs, Kept(w.cur, m, z));
    ChainAfterCrash(w.segs, w.cur, Kept(w.cur, m, z), Survivors(w.cur, m, z));
  }

  lemma {:induction false} SinkPrefix(w: Wal)
    requires w.Valid()
    ensures w.base + w.enc.pw.sink <= SegBytes(w.cur.c, w.cur.items)
    ensures w.base + w.enc.pw.sink <= w.CurrentFile()
    ensures ItemsOk(w.cur.c, w.cur.items) && InStep(0, w.cur.c, w.cur.items)
    ensures forall m :: 0 <= m <= |w.base + w.enc.pw.sink| ==> w.CurrentFile()[..m] == SegBytes(w.cur.c, w.cur.items)[..m]
  {
  }

  /** What opening a crashed segment finds. */
  lemma {:induction false} CrashOpens(s: Segment, m: nat, z: nat)
    requires ItemsOk(s.c, s.items) && InStep(0, s.c, s.items) && m <= |SegBytes(s.c, s.items)|
    ensures var last := SegBytes(s.c, s.items)[..m] + Zeros(z); var t := ScanFrom(last, 0, 0);
      && (t.end.Corrupted? || t.end.CRCMismatch? <==> FateAt(s, m, z) == Refused)
      && (GoesOn(s, m, z) ==> CrashClean(last, Kept(s, m, z)))
  {
    hide ItemsOk, SegBytes, CrcOf, ScanFrom, FateAt, Survivors, StoredAll, ReadRecord;
    ScanCrashed(s, m, z);
    var last := SegBytes(s.c, s.items)[..m] + Zeros(z);
    var kept, t := Survivors(s, m, z), ScanFrom(last, 0, 0);
    EndedAt(last, 0, 0);
    NoItems(0, s.c);
    KeptStarts(s, m, z);
  }

  lemma {:induction false} KeptStarts(s: Segment, m: nat, z: nat)
    requires InStep(0, s.c, s.items)
    ensures Survivors(s, m, z) != [] ==> InStep(0, s.c, Survivors(s, m, z))
    ensures InStep(0, 0, [])
  {
    hide FateAt;
  }

  lemma {:induction false} ChainAfterCrash(segs: seq<Segment>, cur: Segment, kept: Segment, items: seq<Item>)
    requires kept.c == (if items == [] then 0 else cur.c)
    ensures ChainOk(segs + [cur]) ==> (ChainOk(segs + [kept]) <==> items != [] || ChainEnd(segs) == 0)
  {
  }

  /** One call of a run. */
  datatype Op = AppendOp(data: bytes) | SnapshotOp(data: bytes) | SyncOp | ReopenOp

  /** Records within the size limit, whatever the CRC. */
  ghost predicate OpOk(op: Op) {
    match op
    case AppendOp(data) => forall c: u32 :: Small(Record(DATA_TYPE, c, data))
    case SnapshotOp(data) => forall c: u32 :: Small(Record(SNAPSHOT_TYPE, c, data))
    case _ => true
  }

  function Appended(ops: seq<Op>): seq<bytes> {
    if ops == [] then []
    else
      var op := ops[|ops| - 1];
      Appended(ops[..|ops| - 1]) + if op.AppendOp? then [op.data] else []
  }

  /** The records that calls log. */
  function CallsOf(ops: seq<Op>): seq<Item> {
    if ops == [] then [] else CallsOf(ops[..|ops| - 1]) + RecordsOf(ops[|ops| - 1])
  }

  function RecordsOf(op: Op): seq<Item> {
    match op
    case AppendOp(data) => [Item(DATA_TYPE, data)]
    case SnapshotOp(data) => [Item(SNAPSHOT_TYPE, data)]
    case _ => []
  }

  /** One call on an open log. */
  method Perform(w: Wal, op: Op) returns (v: Wal)
    requires w.Valid() && !w.closed && OpOk(op)
    modifies w.Repr()
    ensures v.Valid() && !v.closed && fresh(v.Repr() - old(w.Repr()))
    ensures v.Log() == old(w.Log()) + if op.AppendOp? then [op.data] else []
    ensures v.Entries() == old(w.Entries()) + RecordsOf(op)
    ensures op.SyncOp? || op.SnapshotOp? ==> v.Flushed()
    ensures if op.ReopenOp? then fresh(v) else v == w
    ensures old(w.Chained()) ==> v.Chained()
  {
    hide FilesOf, PageWriter.Valid, PageWriter.Contents, Wal.CurrentOk, Payloads, AllPayloads, ChainOk, Small, Update,
      AllLogged, Logged, SegBytes;
    v := w;
    match op {
      case AppendOp(data) =>
        var _ := w.Append(data);
      case SnapshotOp(data) =>
        var _ := w.SaveSnapshot(data);
      case SyncOp =>
        var _ := w.Sync();
      case ReopenOp =>
        v := CloseAndReopen(w);
    }
    assert old(w.Log()) + [] == old(w.Log()) && old(w.Entries()) + [] == old(w.Entries());
  }

  lemma {:induction false} NoOps()
    ensures Appended([]) == [] && CallsOf([]) == []
  {
  }

  lemma {:induction false} MoreOps(ops: seq<Op>, i: nat)
    requires i < |ops|
    ensures Appended(ops[..i + 1]) == Appended(ops[..i]) + if ops[i].AppendOp? then [ops[i].data] else []
    ensures CallsOf(ops[..i + 1]) == CallsOf(ops[..i]) + RecordsOf(ops[i])
  {
    assert ops[..i + 1][..i] == ops[..i];
  }

  /** Any run of calls on an open log, with closing and opening in between: reading everything back
      gives what was in it and then exactly the appended payloads in order. */
  method RunFrom(w: Wal, ops: seq<Op>) returns (v: Wal, r: ReadResult)
    requires w.Valid() && !w.closed && forall i :: 0 <= i < |ops| ==> OpOk(ops[i])
    modifies w.Repr()
    ensures v.Valid() && v.Flushed() && r == Read(old(w.Log()) + Appended(ops))
    ensures v.Log() == old(w.Log()) + Appended(ops) && v.Entries() == old(w.Entries()) + CallsOf(ops)
    ensures old(w.Chained()) ==> v.Chained()
  {
    hide FilesOf, PageWriter.Valid, PageWriter.Contents, Wal.Valid, Encoder.Valid, Payloads, AllPayloads, ChainOk, OpOk,
         SegBytes, ScanFrom, Small, AllLogged, Logged, Appended, CallsOf, RecordsOf;
    v := w;
    NoOps();
    assert w.Log() + [] == w.Log() && w.Entries() + [] == w.Entries();
    for i := 0 to |ops|
      invariant v.Valid() && !v.closed && fresh(v.Repr() - old(w.Repr()))
      invariant v.Log() == old(w.Log()) + Appended(ops[..i]) && v.Entries() == old(w.Entries()) + CallsOf(ops[..i])
      invariant old(w.Chained()) ==> v.Chained()
    {
      MoreOps(ops, i);
      v := Perform(v, ops[i]);
      assert v.Log() == old(w.Log()) + Appended(ops[..i + 1]) && v.Entries() == old(w.Entries()) + CallsOf(ops[..i + 1]);
    }
    assert ops[..|ops|] == ops;
    r := v.ReadAll();
  }

  /** From an empty directory: exactly the appended payloads are read back, and the files hold them and
      the snapshot markers in the order of the calls, with one CRC chain through all segments. */
  method RunAll(opts: Options, ops: seq<Op>) returns (v: Wal, r: ReadResult)
    requires forall i :: 0 <= i < |ops| ==> OpOk(ops[i])
    ensures r == Read(Appended(ops))
    ensures v.Valid() && FilesOf(v.files, v.segs) && ChainOk(v.AllSegs()) && AllPayloads(v.AllSegs()) == Appended(ops)
    ensures AllLogged(v.AllSegs()) == CallsOf(ops) && ScannedOf(v.files + [v.CurrentFile()]) == CallsOf(ops)
  {
    hide FilesOf, PageWriter.Valid, PageWriter.Contents, Encoder.Valid, Payloads, AllPayloads, ChainOk, OpOk,
         SegBytes, ScanFrom, Small, Wal.CurrentOk;
    var w := new Wal(opts);
    v, r := RunFrom(w, ops);
    assert [] + Appended(ops) == Appended(ops) && [] + CallsOf(ops) == CallsOf(ops);
    PayloadsOfSegs(v.segs, v.cur);
    LogScanned(v);
  }

  /** Scanning the files of a flushed log gives back all payloads and markers, in order. */
  lemma {:induction false} LogScanned(w: Wal)
    requires w.Valid() && w.Flushed()
    ensures ScannedOf(w.files + [w.CurrentFile()]) == w.Entries()
  {
    hide FilesOf, PageWriter.Valid, PageWriter.Contents, ScanFrom, AllLogged, Logged, Wal.CurrentOk, OnDisk, ScannedOf;
    FileClosed(w.base + w.enc.pw.sink, w.enc.crc, w.cur, w.size);
    FilesMore(w.files, w.segs, w.CurrentFile(), w.cur);
    FilesScanned(w.files + [w.CurrentFile()], w.segs + [w.cur]);
    PayloadsOfSegs(w.segs, w.cur);
  }

  /** Append reports an error for this payload in a new log, and reading the log gives it back. */
  method RefusedYetStored(opts: Options) returns (r: AppendResult, log: ReadResult)
    ensures r == ErrNoCrc && log == Read([[171, 155, 224, 155]])
  {
    hide FilesOf, PageWriter.Valid, PageWriter.Contents, Encoder.Valid, Payloads, AllPayloads, ChainOk, SegBytes, ScanFrom,
         Wal.CurrentOk, Update, Wal.Valid, Small;
    var data: bytes := [171, 155, 224, 155];
    ZeroChecksum();
    ShortPayload(data);
    var w := new Wal(opts);
    r := w.Append(data);
    assert w.Log() == [data];
    log := w.ReadAll();
  }

  lemma {:induction false} ShortPayload(data: bytes)
    requires |data| == 4
    ensures Small(Record(DATA_TYPE, 0, data))
  {
  }

  /** After a crash of a record that goes on: the survivors, then whatever is logged from then on. */
  method RunAfterCrash(w: Wal, m: nat, z: nat, ops: seq<Op>) returns (v: Wal, r: ReadResult)
    requires w.Valid() && m <= |w.base + w.enc.pw.sink| && forall i :: 0 <= i < |ops| ==> OpOk(ops[i])
    requires GoesOn(w.cur, m, z)
    ensures r == Read(AllPayloads(w.segs) + Payloads(Survivors(w.cur, m, z)) + Appended(ops))
    ensures v.Valid() && v.Entries() == AllLogged(w.segs) + Logged(Survivors(w.cur, m, z)) + CallsOf(ops)
  {
    hide FilesOf, PageWriter.Valid, PageWriter.Contents, Wal.Valid, Encoder.Valid, Payloads, AllPayloads, ChainOk, OpOk,
         SegBytes, ScanFrom, Small, Survivors, FateAt;
    var u := CrashAndReopen(w, m, z);
    v, r := RunFrom(u, ops);
  }

  /** A file that is cut always goes on. */
  lemma {:induction false} CutGoesOn(s: Segment, m: nat)
    ensures GoesOn(s, m, 0)
  {
    hide Whole, SegBytes, CrcOf, Frame;
  }

  /** Whatever the crash left: opening the segment, one Append that does not rotate, and reading. The
      survivors and then the payload are read if and only if the record that was hit goes on, or has come
      to pass for another record that is no data. */
  method AppendAfterCrash(w: Wal, m: nat, z: nat, data: bytes) returns (ok: bool, r: ReadResult)
    requires w.Valid() && m <= |w.base + w.enc.pw.sink| && forall c: u32 :: Small(Record(DATA_TYPE, c, data))
    ensures ok <==> FateAt(w.cur, m, z) != Refused
    ensures ok ==> (r == Read(Payloads(Survivors(w.cur, m, z)) + [data])
      <==> GoesOn(w.cur, m, z) || (FateAt(w.cur, m, z).Forged? && FateAt(w.cur, m, z).rec.typ != DATA_TYPE))
  {
    hide FilesOf, PageWriter.Valid, PageWriter.Contents, Encoder.Valid, SegBytes, ItemsOk, CrcOf, Small, ScanFrom, FateAt,
      Survivors, GoesOn, CrcAfter, Payloads;
    SinkPrefix(w);
    CrashOpens(w.cur, m, z);
    if FateAt(w.cur, m, z) != Refused {
      CrashData(w.cur, m, z);
    }
    ok, r := AppendToOpened(w.CurrentFile()[..m] + Zeros(z), w.opts.bufferSize, data);
    ghost var kept := Payloads(Survivors(w.cur, m, z));
    assert kept + [] == kept && forall x :: |kept + [x] + [data]| == |kept + [data]| + 1;
  }

  lemma {:induction false} CrashData(s: Segment, m: nat, z: nat)
    requires ItemsOk(s.c, s.items) && InStep(0, s.c, s.items) && m <= |SegBytes(s.c, s.items)|
    requires FateAt(s, m, z) != Refused
    ensures var fate, kept := FateAt(s, m, z), Payloads(Survivors(s, m, z));
      var last := SegBytes(s.c, s.items)[..m] + Zeros(z);
      var t := ScanFrom(last, 0, 0);
      && DataOf(t.recs) == kept + (if fate.Forged? && fate.rec.typ == DATA_TYPE then [fate.rec.data] else [])
      && (CrcAfter(last, t.off, t.crc) == t.crc <==> fate.Forged? || GoesOn(s, m, z))
      && (fate.Forged? ==> !GoesOn(s, m, z))
  {
    hide ItemsOk, SegBytes, CrcOf, ScanFrom, FateAt, Survivors, StoredAll, ReadRecord, DataOf, Payloads;
    ScanCrashed(s, m, z);
    var last := SegBytes(s.c, s.items)[..m] + Zeros(z);
    var kept := Survivors(s, m, z);
    EndedAt(last, 0, 0);
    DataOfStored(s.c, kept);
    if FateAt(s, m, z).Forged? {
      DataOfMore(StoredAll(s.c, kept), FateAt(s, m, z).rec);
    }
  }
}
