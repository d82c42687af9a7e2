/** WAL records: the protobuf encoding of a record and the frame around it. */
module WalRecords {
  import opened Bytes
  import opened Binary

  const CRC_TYPE := 1
  const SNAPSHOT_TYPE := 2
  const DATA_TYPE := 3
  const FRAME_SIZE_BYTES: nat := 8
  const MAX_RECORD_SIZE: nat := 64 * 1024 * 1024

  /** Type is a signed 64-bit field. */
  datatype Record = Record(typ: int, crc: u32, data: bytes)

  const NO_RECORD := Record(0, 0, [])

  // ---- marshalling: fields in order of their numbers, zero values left out

  function Unsigned(x: int): nat
    requires -TWO_63 <= x < TWO_63
  {
    if x < 0 then x + TWO_64 else x
  }

  function Signed(x: nat): int {
    if x >= TWO_63 then x - TWO_64 else x
  }

  predicate TypeFits(r: Record) {
    -TWO_63 <= r.typ < TWO_63
  }

  function TypeField(r: Record): bytes {
    if r.typ == 0 || !TypeFits(r) then [] else [0x08] + Put(Unsigned(r.typ))
  }

  function CrcField(r: Record): bytes {
    if r.crc == 0 then [] else [0x10] + Put(r.crc)
  }

  function DataField(r: Record): bytes {
    if r.data == [] then [] else [0x1a] + (Put(|r.data|) + r.data)
  }

  function Marshal(r: Record): bytes {
    TypeField(r) + (CrcField(r) + DataField(r))
  }

  // ---- unmarshalling

  datatype Parsed = Bad | Ok(r: Record)

  /** Takes the value of a field after its tag. Fields with other numbers or wire types are skipped. */
  datatype Taken = Malformed | Taken(r: Record, next: nat)

  function TakeField(d: bytes, num: nat, wire: nat, i: nat, r: Record): (t: Taken)
    requires i <= |d|
    ensures t.Taken? ==> i <= t.next <= |d|
  {
    if wire == 0 then
      var v := ReadNum(d, i);
      if v == NoNum then Malformed
      else if num == 1 then Taken(r.(typ := Signed(v.v)), v.next)
      else if num == 2 then Taken(r.(crc := v.v % TWO_32), v.next)
      else Taken(r, v.next)
    else if wire == 1 then
      if i + 8 > |d| then Malformed else Taken(r, i + 8)
    else if wire == 2 then
      var n := ReadNum(d, i);
      if n == NoNum || n.next + n.v > |d| then Malformed
      else if num == 3 then Taken(r.(data := d[n.next..n.next + n.v]), n.next + n.v)
      else Taken(r, n.next + n.v)
    else if wire == 5 then
      if i + 4 > |d| then Malformed else Taken(r, i + 4)
    else Malformed
  }

  const MAX_FIELD_NUMBER := 0x1FFF_FFFF

  function ParseFrom(d: bytes, i: nat, r: Record): Parsed
    requires i <= |d|
    decreases |d| - i
  {
    if i == |d| then Ok(r)
    else
      var tag := ReadNum(d, i);
      if tag == NoNum || tag.v / 8 == 0 || tag.v / 8 > MAX_FIELD_NUMBER then Bad
      else
        var t := TakeField(d, tag.v / 8, tag.v % 8, tag.next, r);
        if t == Malformed then Bad else ParseFrom(d, t.next, t.r)
  }

  /** proto.Unmarshal for a Record. */
  method Unmarshal(d: bytes) returns (p: Parsed)
    ensures p == ParseFrom(d, 0, NO_RECORD)
  {
    hide ReadNum, TakeField;
    var r := NO_RECORD;
    var i := 0;
    while i < |d|
      invariant 0 <= i <= |d| && ParseFrom(d, i, r) == ParseFrom(d, 0, NO_RECORD)
      decreases |d| - i
    {
      var tag := ReadNum(d, i);
      if tag == NoNum || tag.v / 8 == 0 || tag.v / 8 > MAX_FIELD_NUMBER {
        return Bad;
      }
      var t := TakeField(d, tag.v / 8, tag.v % 8, tag.next, r);
      if t == Malformed {
        return Bad;
      }
      r, i := t.r, t.next;
    }
    return Ok(r);
  }

  lemma {:induction false} ReadTag(d: bytes, i: nat, tag: byte)
    requires 0 < tag < 128 && At(d, i, [tag])
    ensures i < |d| && ReadNum(d, i) == Num(tag, i + 1)
  {
  }

  lemma {:induction false} ParseType(d: bytes, i: nat, r: Record, x: Record)
    requires TypeFits(r) && At(d, i, TypeField(r)) && x.typ == 0
    ensures i + |TypeField(r)| <= |d|
    ensures ParseFrom(d, i, x) == ParseFrom(d, i + |TypeField(r)|, x.(typ := r.typ))
  {
    hide ReadNum, Put;
    if r.typ != 0 {
      AtConcat(d, i, [0x08], Put(Unsigned(r.typ)));
      ReadTag(d, i, 0x08);
      ReadNumOf(d, i + 1, Unsigned(r.typ));
    }
  }

  lemma {:induction false} ParseCrc(d: bytes, i: nat, r: Record, x: Record)
    requires At(d, i, CrcField(r)) && x.crc == 0
    ensures i + |CrcField(r)| <= |d|
    ensures ParseFrom(d, i, x) == ParseFrom(d, i + |CrcField(r)|, x.(crc := r.crc))
  {
    hide ReadNum, Put;
    if r.crc != 0 {
      AtConcat(d, i, [0x10], Put(r.crc));
      ReadTag(d, i, 0x10);
      ReadNumOf(d, i + 1, r.crc);
    }
  }

  lemma {:induction false} ParseData(d: bytes, i: nat, r: Record, x: Record)
    requires At(d, i, DataField(r)) && x.data == [] && |r.data| < TWO_64
    ensures i + |DataField(r)| <= |d|
    ensures ParseFrom(d, i, x) == ParseFrom(d, i + |DataField(r)|, x.(data := r.data))
  {
    hide ReadNum, Put;
    if r.data != [] {
      AtConcat(d, i, [0x1a], Put(|r.data|) + r.data);
      AtConcat(d, i + 1, Put(|r.data|), r.data);
      ReadTag(d, i, 0x1a);
      ReadNumOf(d, i + 1, |r.data|);
    }
  }

  lemma {:induction false} ParseEnds(d: bytes, r: Record)
    ensures ParseFrom(d, |d|, r) == Ok(r) && At(d, 0, d)
  {
  }

  /** Unmarshalling undoes marshalling. */
  lemma {:induction false} ParseOfMarshal(r: Record)
    requires TypeFits(r) && |r.data| < TWO_64
    ensures ParseFrom(Marshal(r), 0, NO_RECORD) == Ok(r)
  {
    hide TypeField, CrcField, DataField, ParseFrom, At;
    var d := Marshal(r);
    var a, b := |TypeField(r)|, |CrcField(r)|;
    ParseEnds(d, r);
    AtConcat(d, 0, TypeField(r), CrcField(r) + DataField(r));
    AtConcat(d, a, CrcField(r), DataField(r));
    ParseType(d, 0, r, NO_RECORD);
    ParseCrc(d, a, r, NO_RECORD.(typ := r.typ));
    ParseData(d, a + b, r, NO_RECORD.(typ := r.typ, crc := r.crc));
  }

  lemma {:induction false} MarshalNotEmpty(r: Record)
    requires r.typ > 0 && TypeFits(r)
    ensures Marshal(r) != []
  {
  }

  // ---- frames

  /** encodeFrameSize: the length in the lower 56 bits; with padding, 0x80 and the pad count above. */
  function FrameSize(n: nat): (nat, nat) {
    var pad := (8 - n % 8) % 8;
    (if pad != 0 then n + (0x80 + pad) * TWO_56 else n, pad)
  }

  /** decodeFrameSize, on the unsigned length field: the pad count is read when the sign bit is set. */
  function Unframe(lenField: nat): (nat, nat) {
    (lenField % TWO_56, if lenField >= TWO_63 then lenField / TWO_56 % 8 else 0)
  }

  /** Decoding the length field undoes encoding it, and a frame is a multiple of eight bytes. */
  lemma {:induction false} UnframeOfFrame(n: nat)
    requires n < TWO_56
    ensures var f := FrameSize(n);
      && Unframe(f.0) == (n, f.1) && f.0 < TWO_64 && (f.0 == 0 <==> n == 0)
      && f.1 < 8 && (FRAME_SIZE_BYTES + n + f.1) % 8 == 0
  {
    var pad := (8 - n % 8) % 8;
    if pad != 0 {
      assert (n + (0x80 + pad) * TWO_56) / TWO_56 == 0x80 + pad;
    }
  }

  function Zeros(n: nat): (z: bytes)
    ensures |z| == n && forall i :: 0 <= i < n ==> z[i] == 0
  {
    seq(n, _ => 0)
  }

  /** The bytes of one record: length field, payload, padding. */
  function Frame(r: Record): (f: bytes)
    ensures |f| >= FRAME_SIZE_BYTES
  {
    var p := Marshal(r);
    LE(FrameSize(|p|).0, FRAME_SIZE_BYTES) + (p + Zeros(FrameSize(|p|).1))
  }

  /** Records that the decoder accepts in size. */
  predicate Small(r: Record) {
    r.typ > 0 && TypeFits(r) && |Marshal(r)| <= MAX_RECORD_SIZE
  }

  /** The pieces of a frame where it stands in a file. */
  lemma {:induction false} FrameLayout(file: bytes, off: nat, r: Record)
    requires At(file, off, Frame(r)) && Small(r)
    ensures var n := |Marshal(r)|; var pad := FrameSize(n).1;
      && off + 8 + n + pad == off + |Frame(r)| <= |file| && n > 0
      && U64(file, off) == FrameSize(n).0 && U64(file, off) != 0 && Unframe(U64(file, off)) == (n, pad)
      && file[off + 8..off + 8 + n] == Marshal(r)
  {
    hide Marshal, FrameSize, Unframe, LE, At, U64;
    MarshalNotEmpty(r);
    var p := Marshal(r);
    UnframeOfFrame(|p|);
    var pad := FrameSize(|p|).1;
    AtConcat(file, off, LE(FrameSize(|p|).0, 8), p + Zeros(pad));
    AtConcat(file, off + 8, p, Zeros(pad));
    U64Of(file, off, FrameSize(|p|).0);
    AtSlice(file, off + 8, p);
    AtSlice(file, off + 8 + |p|, Zeros(pad));
  }
}
