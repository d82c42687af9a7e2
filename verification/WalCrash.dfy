/** What a crash leaves of a log segment: the first bytes of what was written, and zeros behind them,
    because the file was preallocated or zeroed before. */
module WalCrashes {
  import opened Bytes
  import opened Binary
  import opened Crc
  import opened WalRecords
  import opened WalDecoders
  import opened Wals

  // ---- the record that the crash hit

  /** What becomes of it: it is all there; decoding ends in front of it, with this running CRC; the
      segment is refused; or its remains pass for another record. */
  datatype Fate = Survives | Ends(crc: u32) | Refused | Forged(rec: Record, crc: u32)

  /** The frame of record r at offset off, of which h bytes arrived in front of z zeros; the running CRC
      before it is d. With its length field and enough zeros it is read as if it were whole. */
  ghost function FateOf(r: Record, h: nat, z: nat, off: nat, d: u32): Fate
    requires h < |Frame(r)|
  {
    var f := Frame(r);
    if h < FRAME_SIZE_BYTES || h + z < |f| then Ends(d)
    else if f[h..] == Zeros(|f| - h) then Survives
    else
      var data := Remains(r, h);
      var torn := LooksTorn(data, off + FRAME_SIZE_BYTES);
      var p := Understood(r, h);
      if p == Bad then if torn then Ends(d) else Refused
      else if p.r.typ == CRC_TYPE || Update(d, p.r.data) == p.r.crc then Forged(p.r, p.r.crc)
      else if torn then Ends(Update(d, p.r.data))
      else Refused
  }

  /** Payload and padding after the crash. */
  function Remains(r: Record, h: nat): (data: bytes)
    requires FRAME_SIZE_BYTES <= h < |Frame(r)|
    ensures |data| == |Frame(r)| - FRAME_SIZE_BYTES
  {
    Frame(r)[FRAME_SIZE_BYTES..h] + Zeros(|Frame(r)| - h)
  }

  /** How they parse. */
  function Understood(r: Record, h: nat): Parsed
    requires FRAME_SIZE_BYTES <= h < |Frame(r)|
  {
    ParseFrom(Remains(r, h)[..|Marshal(r)|], 0, NO_RECORD)
  }

  // ---- reading it

  lemma {:induction false} ZerosSplit(a: nat, b: nat)
    ensures Zeros(a) + Zeros(b) == Zeros(a + b)
  {
  }

  lemma {:induction false} SliceOfTail(file: bytes, off: nat, a: nat, b: nat)
    requires a <= b && off + b <= |file|
    ensures file[off + a..off + b] == file[off..][a..b]
  {
  }

  lemma {:induction false} SliceOfHead(file: bytes, n: nat, a: nat, b: nat)
    requires a <= b <= n <= |file|
    ensures file[a..b] == file[..n][a..b]
  {
  }

  /** Zeros are no record, and look torn. */
  lemma {:induction false} ZerosJudged(n: nat, total: nat, off: nat, next: nat, d: u32)
    requires 0 < n <= total
    ensures Judge(Zeros(total), n, off, next, d) == TornFrame
    ensures ParseFrom(Zeros(total)[..n], 0, NO_RECORD) == Bad
  {
    hide Update;
    assert Zeros(total)[..n] == Zeros(n);
    ZeroTag(n);
    assert ZeroFrom(Zeros(total), off + FRAME_SIZE_BYTES, 0);
  }

  lemma {:induction false} ZeroTag(n: nat)
    requires n > 0
    ensures ParseFrom(Zeros(n), 0, NO_RECORD) == Bad
  {
    assert Zeros(n)[0] == 0;
    assert ReadNum(Zeros(n), 0) == Num(0, 1);
  }

  /** A number of which only the low bytes arrived is no larger. */
  lemma {:induction false} HeadOfNumber(x: nat, h: nat, k: nat)
    requires h <= k
    ensures FromLE(LE(x, k)[..h] + Zeros(k - h)) <= x
  {
    if h == 0 {
      assert LE(x, k)[..0] + Zeros(k) == Zeros(k);
      FromLEOfZeros(k);
    } else {
      HeadOfNumber(x / 256, h - 1, k - 1);
      var b := LE(x, k)[..h] + Zeros(k - h);
      assert b[1..] == LE(x / 256, k - 1)[..h - 1] + Zeros(k - h);
    }
  }

  /** High bytes do not show in the low ones. */
  lemma {:induction false} LowBytes(x: nat, y: nat, j: nat, k: nat)
    requires j <= k
    ensures LE(x + y * Pow256(j), k)[..j] == LE(x, k)[..j]
  {
    if j > 0 {
      var z := y * Pow256(j - 1);
      assert y * Pow256(j) == 256 * z;
      assert (x + 256 * z) % 256 == x % 256 && (x + 256 * z) / 256 == x / 256 + z;
      LowBytes(x / 256, y, j - 1, k - 1);
    }
  }

  /** A length field of which not all eight bytes arrived: no longer than it was, and without padding. */
  lemma {:induction false} HeadOfLength(n: nat, h: nat)
    requires h < 8
    ensures FromLE(LE(FrameSize(n).0, 8)[..h] + Zeros(8 - h)) <= n
  {
    hide LE, FromLE, Pow256;
    assert Pow256(7) == TWO_56 by { Pow256Seven(); }
    var y := if FrameSize(n).1 != 0 then 0x80 + FrameSize(n).1 else 0;
    LowBytes(n, y, 7, 8);
    assert LE(FrameSize(n).0, 8)[..h] == LE(FrameSize(n).0, 8)[..7][..h] == LE(n, 8)[..7][..h] == LE(n, 8)[..h];
    HeadOfNumber(n, h, 8);
  }

  lemma {:induction false} Pow256Seven()
    ensures Pow256(7) == TWO_56
  {
  }

  /** Less than the length field arrived: nothing is read, and the running CRC stays. */
  lemma {:induction false} ReadHeadless(file: bytes, off: nat, d: u32, r: Record, h: nat, z: nat)
    requires Small(r) && h < 8 && off <= |file| && file[off..] == Frame(r)[..h] + Zeros(z)
    ensures var o := ReadRecord(file, off, d); o.EOF? || o.ShortFrame? || o.TornFrame?
    ensures CrcAfter(file, off, d) == d
  {
    hide Marshal, FrameSize, LE, FromLE, Update, LooksTorn, ParseFrom, Judge;
    if h + z >= 8 {
      var n := |Marshal(r)|;
      var head := LE(FrameSize(n).0, 8)[..h] + Zeros(8 - h);
      assert file[off..off + 8] == file[off..][..8] == head;
      HeadOfLength(n, h);
      var v := FromLE(head);
      if v > 0 && off + 8 + v <= |file| {
        var data := file[off + 8..off + 8 + v];
        SliceOfTail(file, off, 8, 8 + v);
        assert data == Zeros(v);
        ZerosJudged(v, v, off, off + 8 + v, d);
      }
    }
  }

  /** The length field arrived, but the file ends inside the frame. */
  lemma {:induction false} ReadCutOff(file: bytes, off: nat, d: u32, r: Record, h: nat, z: nat)
    requires Small(r) && 8 <= h < |Frame(r)| && h + z < |Frame(r)|
    requires off <= |file| && file[off..] == Frame(r)[..h] + Zeros(z)
    ensures ReadRecord(file, off, d).ShortFrame?
  {
    hide Marshal, FrameSize, Unframe, U64, Judge;
    LengthArrived(file, off, r, h, z);
  }

  lemma {:induction false} LengthArrived(file: bytes, off: nat, r: Record, h: nat, z: nat)
    requires Small(r) && 8 <= h < |Frame(r)| && off <= |file| && file[off..] == Frame(r)[..h] + Zeros(z)
    ensures off + 8 <= |file|
    ensures var n := |Marshal(r)|; var pad := FrameSize(n).1;
      U64(file, off) != 0 && Unframe(U64(file, off)) == (n, pad) && |Frame(r)| == 8 + n + pad && 0 < n <= MAX_RECORD_SIZE
  {
    hide Marshal, FrameSize, Unframe, U64, LE;
    var f := Frame(r);
    assert At(f, 0, f) by {
      assert f[0..|f|] == f;
    }
    FrameLayout(f, 0, r);
    SmallFacts(r);
    assert file[off..off + 8] == file[off..][..8] == f[0..8];
    assert U64(file, off) == U64(f, 0) by { SameEight(file, off, f); }
  }

  lemma {:induction false} SameEight(file: bytes, off: nat, f: bytes)
    requires off + 8 <= |file| && 8 <= |f| && file[off..off + 8] == f[0..8]
    ensures U64(file, off) == U64(f, 0)
  {
  }

  /** What the decoder makes of the record that the crash hit. */
  lemma {:induction false} ReadFate(file: bytes, off: nat, d: u32, c: u32, it: Item, h: nat, z: nat)
    requires ItemOk(c, it) && (d == c || it.typ == CRC_TYPE) && h < |Frame(Stored(c, it))|
    requires off <= |file| && file[off..] == Frame(Stored(c, it))[..h] + Zeros(z)
    ensures var r, o := Stored(c, it), ReadRecord(file, off, d);
      match FateOf(r, h, z, off, d)
      case Survives => |Frame(r)| <= h + z && o == Decoded(r, off + |Frame(r)|, Update(c, it.data))
      case Ends(x) => (o.EOF? || o.ShortFrame? || o.TornFrame?) && CrcAfter(file, off, d) == x
      case Refused => o.Corrupted? || o.CRCMismatch?
      case Forged(rec, x) => |Frame(r)| <= h + z && o == Decoded(rec, off + |Frame(r)|, x)
  {
    hide Marshal, Frame, FrameSize, Unframe, LooksTorn, ParseFrom, Update, U64, Small;
    var r := Stored(c, it);
    var f := Frame(r);
    if h < 8 {
      ReadHeadless(file, off, d, r, h, z);
    } else if h + z < |f| {
      ReadCutOff(file, off, d, r, h, z);
    } else if f[h..] == Zeros(|f| - h) {
      assert file[off..off + |f|] == file[off..][..|f|] == f[..h] + f[h..] == f;
      ReadStored(file, off, d, c, it);
    } else {
      LengthArrived(file, off, r, h, z);
      SliceOfTail(file, off, 8, |f|);
      assert file[off + 8..off + |f|] == Remains(r, h);
    }
  }

  // ---- the segment

  /** The running CRC of a decoder behind these records. */
  function CrcBehind(c: u32, items: seq<Item>): u32 {
    if items == [] then 0 else CrcOf(c, items)
  }

  /** What becomes of the record in which byte m of a segment lies; there is one, unless m is the end. */
  ghost function FateAt(s: Segment, m: nat, z: nat): Fate {
    var k := Whole(s.c, s.items, m);
    var before := s.items[..k];
    var off, d := |SegBytes(s.c, before)|, CrcBehind(s.c, before);
    if k == |s.items| || m < off || m - off >= |Frame(Stored(CrcOf(s.c, before), s.items[k]))| then Ends(d)
    else FateOf(Stored(CrcOf(s.c, before), s.items[k]), m - off, z, off, d)
  }

  /** The records that are read back as they were. */
  ghost function Survivors(s: Segment, m: nat, z: nat): seq<Item> {
    var k := Whole(s.c, s.items, m);
    if FateAt(s, m, z).Survives? && k < |s.items| then s.items[..k + 1] else s.items[..k]
  }

  /** What the rest of the scan finds, from the record that was hit. */
  ghost predicate HitRead(file: bytes, off: nat, d: u32, r: Record, fate: Fate, t: Scan) {
    match fate
    case Survives =>
      t.recs == [r] && t.off == off + |Frame(r)| && t.crc == r.crc && (t.end.EOF? || t.end.ShortFrame?)
    case Ends(x) =>
      && t.recs == [] && t.off == off <= |file| && t.crc == d && CrcAfter(file, off, d) == x
      && (t.end.EOF? || t.end.ShortFrame? || t.end.TornFrame?)
    case Refused => t.end.Corrupted? || t.end.CRCMismatch?
    case Forged(rec, x) =>
      t.recs == [rec] && t.off == off + |Frame(r)| && t.crc == x && (t.end.EOF? || t.end.ShortFrame?)
  }

  lemma {:induction false} ScanFromHit(file: bytes, off: nat, d: u32, c: u32, it: Item, h: nat, z: nat)
    requires ItemOk(c, it) && (d == c || it.typ == CRC_TYPE) && h < |Frame(Stored(c, it))|
    requires off <= |file| && file[off..] == Frame(Stored(c, it))[..h] + Zeros(z)
    ensures var r := Stored(c, it); HitRead(file, off, d, r, FateOf(r, h, z, off, d), ScanFrom(file, off, d))
  {
    hide Frame, FateOf, ScanFrom, ReadRecord, CrcAfter, Ending, Update, ItemOk;
    var r := Stored(c, it);
    ReadFate(file, off, d, c, it, h, z);
    ScanStep(file, off, d);
    var fate, next := FateOf(r, h, z, off, d), off + |Frame(r)|;
    if fate.Survives? || fate.Forged? {
      var x := if fate.Survives? then r.crc else fate.crc;
      SliceOfTail(file, off, |Frame(r)|, |file| - off);
      assert file[next..] == Zeros(|file| - next);
      ZerosEnd(file, next, x);
    }
  }

  lemma {:induction false} ZerosEnd(file: bytes, off: nat, d: u32)
    requires off <= |file| && file[off..] == Zeros(|file| - off)
    ensures var t := ScanFrom(file, off, d);
      t.recs == [] && t.off == off && t.crc == d && (t.end.EOF? || t.end.ShortFrame?)
  {
    hide ReadRecord;
    assert Ending(file[off..]);
    StopsAt(file, off, d);
  }

  lemma {:induction false} KeptMore(c: u32, items: seq<Item>, k: nat)
    requires k < |items| && ItemsOk(c, items[..k]) && ItemOk(CrcOf(c, items[..k]), items[k])
    ensures var it := items[k]; var c' := CrcOf(c, items[..k]);
      && ItemsOk(c, items[..k + 1]) && SegBytes(c, items[..k + 1]) == SegBytes(c, items[..k]) + Frame(Stored(c', it))
      && CrcOf(c, items[..k + 1]) == Update(c', it.data)
      && StoredAll(c, items[..k + 1]) == StoredAll(c, items[..k]) + [Stored(c', it)]
  {
    hide ItemsOk, SegBytes, CrcOf, StoredAll, ItemOk, Frame, Update;
    assert items[..k + 1] == items[..k] + [items[k]];
    SegAppend(c, items[..k], items[k]);
    StoredAppend(c, items[..k], items[k]);
  }

  lemma {:induction false} StoredAppend(c: u32, items: seq<Item>, it: Item)
    ensures StoredAll(c, items + [it]) == StoredAll(c, items) + [Stored(CrcOf(c, items), it)]
    decreases |items|
  {
    hide Update, StoredAll, CrcOf;
    ChainStep(c, items + [it]);
    if items == [] {
      assert [it][1..] == [] && items + [it] == [it];
      NoItems(c, c);
      NoItems(c, Update(c, it.data));
    } else {
      ChainStep(c, items);
      assert (items + [it])[1..] == items[1..] + [it];
      StoredAppend(Update(c, items[0].data), items[1..], it);
    }
  }

  /** The scan of the whole segment, given that of the part from the record that was hit. */
  lemma {:induction false} ScanToHit(c: u32, before: seq<Item>, tail: bytes)
    requires ItemsOk(c, before) && (before != [] ==> InStep(0, c, before))
    ensures var file := SegBytes(c, before) + tail; var n := |SegBytes(c, before)|;
      && file[n..] == tail
      && var rest := ScanFrom(file, n, CrcBehind(c, before));
         ScanFrom(file, 0, 0) == rest.(recs := StoredAll(c, before) + rest.recs)
  {
    hide ItemsOk, SegBytes, CrcOf, StoredAll, ScanFrom;
    var file := SegBytes(c, before) + tail;
    if before == [] {
      NoItems(c, c);
    } else {
      assert file[0..] == file;
      ScanPast(file, 0, 0, c, before, tail);
    }
  }

  /** What a crashed segment reads as: the records kept, and where the scan ends. */
  ghost predicate CrashRead(s: Segment, kept: seq<Item>, fate: Fate, file: bytes) {
    var t, n := ScanFrom(file, 0, 0), |SegBytes(s.c, kept)|;
    && n <= |file| && file[..n] == SegBytes(s.c, kept) && t.off <= |file|
    && match fate
       case Refused => t.end.Corrupted? || t.end.CRCMismatch?
       case Forged(rec, x) =>
         && t.recs == StoredAll(s.c, kept) + [rec] && t.off > n && t.crc == x && (t.end.EOF? || t.end.ShortFrame?)
       case Ends(x) =>
         && t.recs == StoredAll(s.c, kept) && t.off == n && t.crc == CrcBehind(s.c, kept)
         && CrcAfter(file, n, t.crc) == x && (t.end.EOF? || t.end.ShortFrame? || t.end.TornFrame?)
       case Survives =>
         && t.recs == StoredAll(s.c, kept) && t.off == n && t.crc == CrcBehind(s.c, kept)
         && (t.end.EOF? || t.end.ShortFrame?)
  }

  /** A crash of a segment, for every number of bytes that arrived and every number of zeros behind them. */
  lemma {:induction false} ScanCrashed(s: Segment, m: nat, z: nat)
    requires ItemsOk(s.c, s.items) && InStep(0, s.c, s.items) && m <= |SegBytes(s.c, s.items)|
    ensures ItemsOk(s.c, Survivors(s, m, z))
    ensures CrashRead(s, Survivors(s, m, z), FateAt(s, m, z), SegBytes(s.c, s.items)[..m] + Zeros(z))
  {
    hide ItemsOk, SegBytes, CrcOf, StoredAll, ScanFrom, Whole, Frame, CrcAfter, FateOf, ItemOk, Update;
    var c, items := s.c, s.items;
    var k := Whole(c, items, m);
    var before := items[..k];
    var n, d, c' := |SegBytes(c, before)|, CrcBehind(c, before), CrcOf(c, before);
    CutSplits(c, items, m);
    var h := m - n;
    var file := SegBytes(c, items)[..m] + Zeros(z);
    NoItems(c, c);
    if k == |items| {
      ScanToHit(c, before, Zeros(z));
      ZerosEnd(file, n, d);
      assert CrcAfter(file, n, d) == d by { EndKeeps(file, n, d); }
    } else {
      var it := items[k];
      var tail := Frame(Stored(c', it))[..h] + Zeros(z);
      assert file == SegBytes(c, before) + tail;
      ScanToHit(c, before, tail);
      ScanFromHit(file, n, d, c', it, h, z);
      KeptMore(c, items, k);
      assert file[..n] == SegBytes(c, before);
      if FateAt(s, m, z).Survives? {
        SurvivesWhole(Stored(c', it), h, z, n, d);
        assert file[..n + |Frame(Stored(c', it))|] == SegBytes(c, before) + tail[..|Frame(Stored(c', it))|];
      }
    }
  }

  lemma {:induction false} SurvivesWhole(r: Record, h: nat, z: nat, off: nat, d: u32)
    requires h < |Frame(r)| && FateOf(r, h, z, off, d).Survives?
    ensures |Frame(r)| <= h + z && (Frame(r)[..h] + Zeros(z))[..|Frame(r)|] == Frame(r)
  {
    hide Frame, LooksTorn, Understood, Remains, Update, Zeros;
    RestIsZero(Frame(r), h, z);
  }

  lemma {:induction false} RestIsZero(f: bytes, h: nat, z: nat)
    requires h < |f| <= h + z && f[h..] == Zeros(|f| - h)
    ensures (f[..h] + Zeros(z))[..|f|] == f
  {
    assert f == f[..h] + f[h..];
    assert Zeros(z)[..|f| - h] == Zeros(|f| - h);
  }

  lemma {:induction false} EndKeeps(file: bytes, off: nat, d: u32)
    requires off <= |file| && file[off..] == Zeros(|file| - off)
    ensures CrcAfter(file, off, d) == d
  {
    hide ReadRecord;
    assert Ending(file[off..]);
    StopsAt(file, off, d);
  }

  // ---- what is appended next

  /** A record that was read depends on nothing behind it. */
  lemma {:induction false} ReadLocal(file: bytes, file': bytes, off: nat, d: u32)
    requires off <= |file| && ReadRecord(file, off, d).Decoded?
    requires var next := ReadRecord(file, off, d).next; next <= |file'| && file'[..next] == file[..next]
    ensures off <= |file'| && ReadRecord(file', off, d) == ReadRecord(file, off, d)
  {
    hide LooksTorn, ParseFrom, Update;
    var next := ReadRecord(file, off, d).next;
    assert off + 8 <= next;
    SliceOfHead(file, next, off, off + 8);
    SliceOfHead(file', next, off, off + 8);
    assert U64(file, off) == U64(file', off);
    SliceOfHead(file, next, off + 8, next);
    SliceOfHead(file', next, off + 8, next);
  }

  /** Nor does a scan depend on what comes where it ends. */
  lemma {:induction false} ScanLocal(file: bytes, file': bytes, off: nat, d: u32)
    requires off <= |file|
    requires var t := ScanFrom(file, off, d); t.off <= |file'| && file'[..t.off] == file[..t.off]
    ensures off <= |file'|
    ensures var t := ScanFrom(file, off, d); var rest := ScanFrom(file', t.off, t.crc);
      ScanFrom(file', off, d) == rest.(recs := t.recs + rest.recs)
    decreases |file| - off
  {
    hide ReadRecord, ScanFrom;
    ScanStep(file, off, d);
    var o, t := ReadRecord(file, off, d), ScanFrom(file, off, d);
    if o.Decoded? {
      assert file'[..o.next] == file'[..t.off][..o.next] == file[..t.off][..o.next] == file[..o.next];
      ReadLocal(file, file', off, d);
      ScanLocal(file, file', o.next, o.crc);
      ScanStep(file', off, d);
    } else {
      var rest := ScanFrom(file', t.off, t.crc);
      assert t.recs + rest.recs == rest.recs;
    }
  }

  /** A record chained from another CRC than the decoder has is not read. */
  lemma {:induction false} ReadAstray(file: bytes, off: nat, d: u32, c: u32, it: Item)
    requires ItemOk(c, it) && d != c && it.typ != CRC_TYPE && At(file, off, Frame(Stored(c, it)))
    ensures off <= |file|
    ensures var o := ReadRecord(file, off, d); o.TornFrame? || o.CRCMismatch?
  {
    hide Marshal, Frame, FrameSize, Unframe, LooksTorn, ParseFrom, Update, U64, Small, At;
    var r := Stored(c, it);
    FrameLayout(file, off, r);
    SmallFacts(r);
    ParseOfMarshal(r);
    UpdateInjective(c, d, it.data);
    assert file[off + 8..off + |Frame(r)|][..|Marshal(r)|] == file[off + 8..off + 8 + |Marshal(r)|];
  }

  lemma {:induction false} DataOfMore(recs: seq<Record>, r: Record)
    ensures DataOf(recs + [r]) == DataOf(recs) + if r.typ == DATA_TYPE then [r.data] else []
  {
    if recs == [] {
      assert [r][1..] == [];
    } else {
      DataOfMore(recs[1..], r);
      assert (recs + [r])[1..] == recs[1..] + [r];
    }
  }

  /** A segment that was opened and got one more data record. */
  lemma {:induction false} ScanAppended(last: bytes, file: bytes, it: Item, z: nat)
    requires var t := ScanFrom(last, 0, 0); var x := CrcAfter(last, t.off, t.crc);
      && it.typ == DATA_TYPE && ItemOk(x, it)
      && file == last[..t.off] + Frame(Stored(x, it)) + Zeros(z)
    ensures var t, t' := ScanFrom(last, 0, 0), ScanFrom(file, 0, 0);
      if CrcAfter(last, t.off, t.crc) == t.crc
      then DataOf(t'.recs) == DataOf(t.recs) + [it.data] && (t'.end.EOF? || t'.end.ShortFrame?)
      else t'.recs == t.recs && (t'.end.TornFrame? || t'.end.CRCMismatch?)
  {
    hide ScanFrom, ReadRecord, CrcAfter, Frame, ItemOk, Update;
    var t := ScanFrom(last, 0, 0);
    var x := CrcAfter(last, t.off, t.crc);
    var f := Frame(Stored(x, it));
    assert file[..t.off] == last[..t.off];
    ScanLocal(last, file, 0, 0);
    assert At(file, t.off, f) by {
      assert file[t.off..t.off + |f|] == f;
    }
    ScanStep(file, t.off, t.crc);
    if x == t.crc {
      ReadStored(file, t.off, t.crc, x, it);
      assert file[t.off + |f|..] == Zeros(z);
      ZerosEnd(file, t.off + |f|, Update(x, it.data));
      var r := Stored(x, it);
      DataOfMore(t.recs, r);
      assert t.recs + ([r] + []) == t.recs + [r];
    } else {
      ReadAstray(file, t.off, t.crc, x, it);
      assert t.recs + [] == t.recs;
    }
  }

  /** openSegment on any file, then one record of Append, flushed, then readSegment: the payload is read
      behind what was there if and only if the encoder starts with the CRC that the scan ends with. */
  method AppendToOpened(last: bytes, bufferSize: int, data: bytes) returns (ok: bool, r: ReadResult)
    requires forall c: u32 :: Small(Record(DATA_TYPE, c, data))
    ensures var t := ScanFrom(last, 0, 0);
      && (ok <==> !t.end.Corrupted? && !t.end.CRCMismatch?)
      && (ok ==> (r == Read(DataOf(t.recs) + [data]) <==> CrcAfter(last, t.off, t.crc) == t.crc))
  {
    hide ScanFrom, CrcAfter, Frame, Small, Encoder.Valid;
    var enc, validOff, zeroed;
    ok, enc, validOff, zeroed := OpenSegment(last, bufferSize);
    r := ReadErr;
    if !ok {
      return;
    }
    var _, _ := enc.Encode(DATA_TYPE, data);
    enc.Flush();
    var written := zeroed[..validOff] + enc.pw.sink;
    var file := OnDisk(written, |last|);
    ScanAppended(last, file, Item(DATA_TYPE, data), |file| - |written|);
    r := ReadSegment(file);
  }

  // ---- two crashes that go wrong

  /** A record inside one sector of which the length field and one byte arrived in front of enough zeros:
      the log is refused. */
  lemma {:induction false} RefusedInSector(r: Record, z: nat, off: nat, d: u32)
    requires Small(r) && 3 <= |Marshal(r)| && |Frame(r)| <= 9 + z
    requires (off + 8) % MIN_SECTOR_SIZE + (|Frame(r)| - 8) <= MIN_SECTOR_SIZE
    ensures |Frame(r)| > 9 && FateOf(r, 9, z, off, d) == Refused
  {
    hide Frame, Marshal, Remains, ParseFrom, LooksTorn, Update, Zeros;
    LoneByte(r);
    LoneTag(|Marshal(r)|);
    NotTorn(Remains(r, 9), off + FRAME_SIZE_BYTES);
  }

  /** What is left then. */
  lemma {:induction false} LoneByte(r: Record)
    requires Small(r) && 3 <= |Marshal(r)|
    ensures |Frame(r)| > 9 && Frame(r)[9..] != Zeros(|Frame(r)| - 9)
    ensures Remains(r, 9) == [8] + Zeros(|Frame(r)| - 9)
    ensures Remains(r, 9)[..|Marshal(r)|] == [8] + Zeros(|Marshal(r)| - 1)
  {
    hide FrameSize, LE, Marshal;
    var f, p := Frame(r), Marshal(r);
    TypeFirst(r);
    assert f[8..] == p + Zeros(FrameSize(|p|).1);
    assert f[8] == f[8..][0] == 8 && f[9] == f[8..][1] != 0;
    assert f[9..][0] == f[9];
    assert f[8..9] == [8];
  }

  /** Data inside one sector that does not start with zero has no part that is all zero. */
  lemma {:induction false} NotTorn(data: bytes, fileOff: nat)
    requires data != [] && data[0] != 0 && fileOff % MIN_SECTOR_SIZE + |data| <= MIN_SECTOR_SIZE
    ensures !LooksTorn(data, fileOff)
  {
    if LooksTorn(data, fileOff) {
      var a: nat :| ZeroFrom(data, fileOff, a);
      ModInside(fileOff, a);
    }
  }

  /** So with the first payload of every new segment, if it is a single byte. */
  lemma {:induction false} FirstPayloadRefused(c: u32, b: byte, z: nat) returns (m: nat)
    requires z >= 100
    ensures var s := Segment(c, [Item(CRC_TYPE, []), Item(DATA_TYPE, [b])]);
      && ItemsOk(c, s.items) && InStep(0, c, s.items)
      && m <= |SegBytes(c, s.items)| && FateAt(s, m, z) == Refused && Survivors(s, m, z) == [s.items[0]]
  {
    hide Frame, Marshal, Update, FateOf, Small;
    var items := [Item(CRC_TYPE, []), Item(DATA_TYPE, [b])];
    var s := Segment(c, items);
    UpdateNothing(c);
    var q, r := Stored(c, items[0]), Stored(c, items[1]);
    ShortFrame(q);
    ShortFrame(r);
    m := |Frame(q)| + 9;
    assert items[1..] == [items[1]] && items[1..][1..] == [] && items[..1] == [items[0]] && [items[0]][1..] == [];
    RefusedInSector(r, z, |Frame(q)|, c);
    SegTwo(c, items[0], items[1]);
    assert Whole(c, items[1..], 9) == 0;
    assert Whole(c, items, m) == 1;
  }

  lemma {:induction false} ShortFrame(r: Record)
    requires (r.typ == CRC_TYPE && r.data == []) || (r.typ == DATA_TYPE && |r.data| == 1)
    ensures Small(r) && |Frame(r)| <= 60 && (r.typ == DATA_TYPE ==> 3 <= |Marshal(r)|)
  {
    hide Put, LE;
    PutShort(CRC_TYPE);
    PutShort(DATA_TYPE);
    PutShort(r.crc);
    PutShort(1);
  }

  lemma {:induction false} SegTwo(c: u32, a: Item, b: Item)
    requires a.data == []
    ensures CrcOf(c, [a]) == c && SegBytes(c, [a]) == Frame(Stored(c, a))
    ensures SegBytes(c, [a, b]) == Frame(Stored(c, a)) + Frame(Stored(c, b))
    ensures ItemsOk(c, [a, b]) <==> ItemOk(c, a) && ItemOk(c, b)
  {
    hide Frame, Update, ItemOk;
    UpdateNothing(c);
    assert [a, b][1..] == [b] && [b][1..] == [] && [a][1..] == [];
    assert ItemsOk(c, [b]) <==> ItemOk(c, b) && ItemsOk(Update(c, b.data), []);
    assert SegBytes(c, [b]) == Frame(Stored(c, b)) + SegBytes(Update(c, b.data), []);
    assert SegBytes(c, [a]) == Frame(Stored(c, a)) + SegBytes(c, []);
  }

  lemma {:induction false} TypeFirst(r: Record)
    requires Small(r)
    ensures |Marshal(r)| >= 2 && Marshal(r)[0] == 8 && Marshal(r)[1] != 0
  {
  }

  lemma {:induction false} LoneTag(n: nat)
    requires n >= 3
    ensures ParseFrom([8] + Zeros(n - 1), 0, NO_RECORD) == Bad
  {
    var d := [8] + Zeros(n - 1);
    assert d[0..] == d && d[1..] == Zeros(n - 1) && d[2..] == Zeros(n - 2);
    assert ReadNum(d, 0) == Num(8, 1) && ReadNum(d, 1) == Num(0, 2) && ReadNum(d, 2) == Num(0, 3);
  }

  /** A data record that is lost from the start of a sector on, somewhere in its data, still parses, with
      zeros for what is lost. If its checksum fails, decoding ends there and the running CRC has moved. */
  lemma {:induction false} TornAtSector(crc: u32, data: bytes, j: nat, z: nat, off: nat, d: u32)
    requires var r := Record(DATA_TYPE, crc, data); var h := 8 + (|Marshal(r)| - |data|) + j;
      && Small(r) && j < |data| && data[j..] != Zeros(|data| - j) && (off + h) % MIN_SECTOR_SIZE == 0
      && |Frame(r)| <= h + z && Update(d, data[..j] + Zeros(|data| - j)) != crc
    ensures var r := Record(DATA_TYPE, crc, data); var h := 8 + (|Marshal(r)| - |data|) + j;
      |data| <= |Marshal(r)| && h < |Frame(r)| && FateOf(r, h, z, off, d) == Ends(Update(d, data[..j] + Zeros(|data| - j)))
  {
    hide Update, ParseFrom, Marshal, Frame, Remains, Header, Zeros;
    var r := Record(DATA_TYPE, crc, data);
    var lost := data[..j] + Zeros(|data| - j);
    DataLast(r);
    var h := 8 + |Header(r)| + j;
    LostBytes(r, j);
    ParseLost(r, lost);
    ZeroPart(r, h, off);
  }

  lemma {:induction false} ZeroPart(r: Record, h: nat, off: nat)
    requires 8 <= h < |Frame(r)| && (off + h) % MIN_SECTOR_SIZE == 0
    ensures LooksTorn(Remains(r, h), off + FRAME_SIZE_BYTES)
  {
    hide Frame;
    assert ZeroFrom(Remains(r, h), off + FRAME_SIZE_BYTES, h - 8);
  }

  /** The bytes of such a record. */
  lemma {:induction false} LostBytes(r: Record, j: nat)
    requires j < |r.data| && r.data[j..] != Zeros(|r.data| - j)
    ensures var h := 8 + |Header(r)| + j;
      && |Marshal(r)| == |Header(r)| + |r.data| && h < |Frame(r)| && Frame(r)[h..] != Zeros(|Frame(r)| - h)
      && Remains(r, h)[..|Marshal(r)|] == Header(r) + (r.data[..j] + Zeros(|r.data| - j))
  {
    hide FrameSize, LE, Marshal, Header, Zeros;
    DataLast(r);
    var f, p, header := Frame(r), Marshal(r), Header(r);
    var h := 8 + |header| + j;
    var pad := FrameSize(|p|).1;
    assert f[8..] == header + (r.data + Zeros(pad));
    assert f[h..] == r.data[j..] + Zeros(pad);
    ZerosHead(r.data[j..], pad);
    var left := Remains(r, h);
    assert f[8..h] == header + r.data[..j];
    ZerosSplit(|r.data| - j, pad);
    assert left == header + (r.data[..j] + Zeros(|r.data| - j)) + Zeros(pad);
  }

  lemma {:induction false} ZerosHead(a: bytes, pad: nat)
    requires a != Zeros(|a|)
    ensures a + Zeros(pad) != Zeros(|a| + pad)
  {
    assert (a + Zeros(pad))[..|a|] == a;
    assert Zeros(|a| + pad)[..|a|] == Zeros(|a|);
  }

  /** A record without its data, up to the length. */
  function Header(r: Record): bytes {
    TypeField(r) + (CrcField(r) + ([0x1a] + Put(|r.data|)))
  }

  lemma {:induction false} DataLast(r: Record)
    requires r.data != []
    ensures Marshal(r) == Header(r) + r.data
  {
  }

  /** Other data of the same length leaves the rest as it is. */
  lemma {:induction false} ParseLost(r: Record, data: bytes)
    requires TypeFits(r) && r.data != [] && |data| == |r.data| < TWO_64
    ensures ParseFrom(Header(r) + data, 0, NO_RECORD) == Ok(r.(data := data))
  {
    hide Put, ParseFrom;
    var x := r.(data := data);
    DataLast(x);
    ParseOfMarshal(x);
  }

  /** One of two payloads is torn that way, wherever its record stands and whatever the running CRC. */
  lemma {:induction false} SomePayloadStrays(off: nat, d: u32) returns (data: bytes, h: nat)
    ensures var r := Record(DATA_TYPE, Update(d, data), data);
      && Small(r) && h < |Frame(r)|
      && forall z :: h + z >= |Frame(r)| ==> FateOf(r, h, z, off, d).Ends? && FateOf(r, h, z, off, d).crc != d
  {
    hide Update, Frame, Marshal, FateOf, Zeros, Small;
    if Update(d, [1] + Zeros(1999)) != d {
      data, h := LostLastByte(off, d, 1);
    } else {
      if Update(d, [2] + Zeros(1999)) == d {
        UpdateConcat(d, [1], Zeros(1999));
        UpdateConcat(d, [2], Zeros(1999));
        UpdateInjective(Update(d, [1]), Update(d, [2]), Zeros(1999));
        assert [] + [1] == [1] && [] + [2] == [2];
        UpdateByte(d, [], 1, 2);
      }
      data, h := LostLastByte(off, d, 2);
    }
  }

  /** Two thousand bytes of which the first and the last are not zero, torn between the two. */
  lemma {:induction false} LostLastByte(off: nat, d: u32, b: byte) returns (data: bytes, h: nat)
    requires b > 0
    ensures data == [b] + Zeros(1998) + [1]
    ensures var r := Record(DATA_TYPE, Update(d, data), data);
      && Small(r) && h < |Frame(r)|
      && forall z :: h + z >= |Frame(r)| ==> FateOf(r, h, z, off, d) == Ends(Update(d, [b] + Zeros(1999)))
  {
    hide Update, Frame, FateOf, Marshal, Zeros, Small;
    data := [b] + Zeros(1998) + [1];
    var r := Record(DATA_TYPE, Update(d, data), data);
    ShortRecord(r);
    var start := off + 8 + (|Marshal(r)| - |data|);
    var j := NextSector(start);
    h := 8 + (|Marshal(r)| - |data|) + j;
    LostIs(b, j);
    UpdateByte(d, [b] + Zeros(1998), 0, 1);
    TornAtSector(r.crc, data, j, |Frame(r)|, off, d);
    forall z | h + z >= |Frame(r)|
      ensures FateOf(r, h, z, off, d) == Ends(Update(d, [b] + Zeros(1999)))
    {
      TornAtSector(r.crc, data, j, z, off, d);
    }
  }

  lemma {:induction false} NextSector(start: nat) returns (j: nat)
    ensures 512 < j <= 1024 && (start + j) % MIN_SECTOR_SIZE == 0
  {
    j := 1024 - start % MIN_SECTOR_SIZE;
  }

  lemma {:induction false} LostIs(b: byte, j: nat)
    requires 0 < j < 1999
    ensures var data := [b] + Zeros(1998) + [1];
      && data[..j] + Zeros(|data| - j) == [b] + Zeros(1999) == [b] + Zeros(1998) + [0]
      && data[j..] != Zeros(|data| - j)
  {
    var data := [b] + Zeros(1998) + [1];
    assert data[j..][|data| - j - 1] == 1;
  }

  lemma {:induction false} ShortRecord(r: Record)
    requires r.typ == DATA_TYPE && |r.data| <= 2000
    ensures Small(r) && |r.data| <= |Marshal(r)|
  {
    hide Put;
    PutShort(DATA_TYPE);
    PutShort(r.crc);
    PutShort(|r.data|);
  }
}
