/** The SSTable file: where its blocks lie and what makes a byte string a well-formed table. */
module TableFormat {
  import opened Bytes
  import opened Binary
  import opened Block
  import Bloom
  import Crc

  const TRAILER_SIZE := 5
  const FOOTER_SIZE := 48
  const COMPRESSION_NONE: byte := 0
  /** "iwsstv01" */
  const MAGIC: bytes := [105, 119, 115, 115, 116, 118, 48, 49]

  function Ascii(s: string): bytes {
    seq(|s|, i requires 0 <= i < |s| => s[i] as int % 256)
  }

  datatype Handle = Handle(offset: nat, length: nat)

  predicate Is64(h: Handle) {
    h.offset < TWO_64 && h.length < TWO_64
  }

  function EncodeHandle(h: Handle): bytes {
    Put(h.offset) + Put(h.length)
  }

  /** decodeBlockHandle; a varint that does not parse reads as 0, and one that overflows counts
      negatively. Where that happens to the first, slicing behind it panics. */
  function DecodeHandle(src: bytes): (Handle, int) {
    var a := Get(src);
    if a.1 < 0 then (Handle(0, 0), 0)
    else
      var b := Get(src[a.1..]);
      (Handle(a.0, b.0), a.1 + b.1)
  }

  predicate DecodePanics(src: bytes) {
    Get(src).1 < 0
  }

  lemma {:induction false} HandleRoundTrip(data: bytes, off: nat, h: Handle)
    requires Is64(h) && At(data, off, EncodeHandle(h))
    ensures DecodeHandle(data[off..]) == (h, |EncodeHandle(h)|) && !DecodePanics(data[off..])
  {
    hide Put, Get;
    AtConcat(data, off, Put(h.offset), Put(h.length));
    GetPut(data, off, h.offset);
    GetPut(data, off + |Put(h.offset)|, h.length);
    assert data[off..][|Put(h.offset)|..] == data[off + |Put(h.offset)|..];
  }

  function Checksum(data: bytes, blockType: byte): u32 {
    Crc.Update(Crc.Update(0, data), [blockType])
  }

  /** A block as written: its data, the compression type, the checksum of both. */
  function Stored(data: bytes): (b: bytes)
    ensures |b| == |data| + TRAILER_SIZE
  {
    data + [COMPRESSION_NONE] + LE(Checksum(data, COMPRESSION_NONE), 4)
  }

  ghost predicate BlockAt(file: bytes, h: Handle, data: bytes) {
    h.length == |data| && At(file, h.offset, Stored(data))
  }

  /** The checksum is the CRC of the block and its type in one piece. */
  lemma {:induction false} ChecksumIs(data: bytes, blockType: byte)
    ensures Checksum(data, blockType) == Crc.Update(0, data + [blockType])
  {
    Crc.UpdateConcat(0, data, [blockType]);
  }

  /** It changes with any single byte. */
  lemma {:induction false} ChecksumNotices(data: bytes, blockType: byte, data': bytes, blockType': byte, i: nat)
    requires |data'| == |data| && i <= |data|
    requires var a, b := data + [blockType], data' + [blockType']; a[i] != b[i] && a[..i] == b[..i] && a[i + 1..] == b[i + 1..]
    ensures Checksum(data', blockType') != Checksum(data, blockType)
  {
    hide Crc.Update;
    var a, b := data + [blockType], data' + [blockType'];
    ChecksumIs(data, blockType);
    ChecksumIs(data', blockType');
    assert a == a[..i] + [a[i]] + a[i + 1..] && b == a[..i] + [b[i]] + a[i + 1..];
    Crc.UpdateConcat(0, a[..i] + [a[i]], a[i + 1..]);
    Crc.UpdateConcat(0, a[..i] + [b[i]], a[i + 1..]);
    Crc.UpdateByte(0, a[..i], a[i], b[i]);
    Crc.UpdateInjective(Crc.Update(0, a[..i] + [a[i]]), Crc.Update(0, a[..i] + [b[i]]), a[i + 1..]);
  }

  // ---- index

  function IndexEntry(sep: bytes, h: Handle): Entry {
    Entry(sep, EncodeHandle(h))
  }

  function IndexEntries(seps: seq<bytes>, handles: seq<Handle>): (es: seq<Entry>)
    requires |seps| <= |handles|
    ensures |es| == |seps| && forall i :: 0 <= i < |es| ==> es[i] == IndexEntry(seps[i], handles[i])
  {
    seq(|seps|, i requires 0 <= i < |seps| => IndexEntry(seps[i], handles[i]))
  }

  /** The first byte in which two keys differ. */
  predicate DifferAt(a: bytes, b: bytes, n: nat) {
    n < |a| && n < |b| && a[n] != b[n] && a[..n] == b[..n]
  }

  /** shortSeparator: a key from a up to, not including, b; cut behind the first byte in which they
      differ, when there is room for a byte in between, and a itself otherwise. */
  method ShortSeparator(a: bytes, b: bytes) returns (sep: bytes)
    requires Less(a, b)
    ensures LessEq(a, sep) && Less(sep, b) && |sep| <= |a|
    ensures forall n: nat :: DifferAt(a, b, n) ==> if a[n] + 1 < b[n] then |sep| == n + 1 && sep[n] == a[n] + 1 else sep == a
  {
    var n := if |b| < |a| then |b| else |a|;
    var shared := 0;
    while shared < n && a[shared] == b[shared]
      invariant 0 <= shared <= n
      invariant forall k :: 0 <= k < shared ==> a[k] == b[k]
    {
      shared := shared + 1;
    }
    if shared == |a| {
      return a;
    }
    if a[shared] < 0xFF && a[shared] + 1 < b[shared] {
      sep := a[..shared] + [a[shared] + 1];
      LessAt(a, sep, shared);
      LessAt(sep, b, shared);
      return sep;
    }
    return a;
  }

  /** shortSuccessor: a short key not below a, and above it unless all its bytes are 255. */
  method ShortSuccessor(a: bytes) returns (s: bytes)
    ensures LessEq(a, s) && |s| <= |a|
    ensures s == a <==> forall k :: 0 <= k < |a| ==> a[k] == 0xFF
    ensures s != a ==>
      && s != [] && s[..|s| - 1] == a[..|s| - 1] && a[|s| - 1] < 0xFF && s[|s| - 1] == a[|s| - 1] + 1
      && forall k :: |s| <= k < |a| ==> a[k] == 0xFF
  {
    var i := |a| - 1;
    while i >= 0
      invariant -1 <= i < |a|
      invariant forall k :: i < k < |a| ==> a[k] == 0xFF
    {
      if a[i] < 0xFF {
        s := a[..i] + [a[i] + 1];
        LessAt(a, s, i);
        return s;
      }
      i := i - 1;
    }
    return a;
  }

  // ---- entries over several blocks

  function Flatten(blocks: seq<seq<Entry>>): seq<Entry> {
    if blocks == [] then [] else Flatten(blocks[..|blocks| - 1]) + blocks[|blocks| - 1]
  }

  /** Position of the first entry of block i in the whole table. */
  function StartOfBlock(blocks: seq<seq<Entry>>, i: nat): nat
    requires i <= |blocks|
  {
    |Flatten(blocks[..i])|
  }

  lemma {:induction false} StartStep(blocks: seq<seq<Entry>>, i: nat)
    requires i < |blocks|
    ensures StartOfBlock(blocks, i + 1) == StartOfBlock(blocks, i) + |blocks[i]|
  {
    assert blocks[..i + 1][..i] == blocks[..i];
  }

  lemma {:induction false} StartMonotone(blocks: seq<seq<Entry>>, i: nat, j: nat)
    requires i <= j <= |blocks|
    ensures StartOfBlock(blocks, i) <= StartOfBlock(blocks, j)
    decreases j
  {
    if i < j {
      StartMonotone(blocks, i, j - 1);
      StartStep(blocks, j - 1);
    }
  }

  lemma {:induction false} FlatAt(blocks: seq<seq<Entry>>, i: nat, j: nat)
    requires i < |blocks| && j < |blocks[i]|
    ensures StartOfBlock(blocks, i) + j < |Flatten(blocks)|
    ensures Flatten(blocks)[StartOfBlock(blocks, i) + j] == blocks[i][j]
  {
    var n := |blocks| - 1;
    if i < n {
      FlatAt(blocks[..n], i, j);
      assert blocks[..n][..i] == blocks[..i];
    }
  }

  lemma {:induction false} BlockSorted(blocks: seq<seq<Entry>>, i: nat)
    requires i < |blocks| && Sorted(Flatten(blocks))
    ensures Sorted(blocks[i])
  {
    hide Less;
    forall j, k | 0 <= j < k < |blocks[i]|
      ensures Less(blocks[i][j].key, blocks[i][k].key)
    {
      FlatAt(blocks, i, j);
      FlatAt(blocks, i, k);
    }
  }

  /** Separator i is at least every key of block i and below every key of block i + 1. */
  ghost predicate Separated(blocks: seq<seq<Entry>>, seps: seq<bytes>)
    requires |seps| <= |blocks|
  {
    && (forall i :: 0 <= i < |blocks| ==> blocks[i] != [])
    && (forall i :: 0 <= i < |seps| ==> LessEq(blocks[i][|blocks[i]| - 1].key, seps[i]))
    && (forall i, j :: 0 <= i < |seps| && j == i + 1 && j < |blocks| ==> Less(seps[i], blocks[j][0].key))
  }

  lemma {:induction false} SepsBelow(blocks: seq<seq<Entry>>, seps: seq<bytes>, i: nat, j: nat)
    requires |seps| == |blocks| && Sorted(Flatten(blocks)) && Separated(blocks, seps) && i < j < |seps|
    ensures Less(seps[i], seps[j])
    decreases j
  {
    hide Less, Flatten;
    var b := blocks[j];
    BlockSorted(blocks, j);
    LastNotBelowFirst(b);
    LessEqTransitive(b[0].key, b[|b| - 1].key, seps[j]);
    if i < j - 1 {
      SepsBelow(blocks, seps, i, j - 1);
      LessTransitive(seps[i], seps[j - 1], b[0].key);
    }
    LessLessEq(seps[i], b[0].key, seps[j]);
  }

  lemma {:induction false} LastNotBelowFirst(b: seq<Entry>)
    requires b != [] && Sorted(b)
    ensures LessEq(b[0].key, b[|b| - 1].key)
  {
  }

  // ---- properties and metaindex

  const FILTER_NAME: bytes := Ascii("indexedwatch.bloom_filter")
  const PROPS_NAME: bytes := Ascii("indexedwatch.properties")

  function MetaEntries(filter: seq<Handle>, props: Handle): seq<Entry>
    requires |filter| <= 1
  {
    (if filter == [] then [] else [Entry(FILTER_NAME, EncodeHandle(filter[0]))])
    + [Entry(PROPS_NAME, EncodeHandle(props))]
  }

  lemma {:induction false} NamesDiffer()
    ensures FILTER_NAME != PROPS_NAME
  {
  }

  // ---- footer

  function Footer(meta: Handle, index: Handle): bytes {
    var e := EncodeHandle(meta) + EncodeHandle(index);
    e + seq(if |e| <= FOOTER_SIZE - 8 then FOOTER_SIZE - 8 - |e| else 0, _ => 0) + MAGIC
  }

  /** Two handles of 64-bit numbers always leave room for the magic number. */
  lemma {:induction false} FooterHasRoom(meta: Handle, index: Handle)
    requires Is64(meta) && Is64(index)
    ensures |EncodeHandle(meta) + EncodeHandle(index)| <= FOOTER_SIZE - 8
  {
    RoomIs64();
    PutLength(meta.offset, 0);
    PutLength(meta.length, 0);
    PutLength(index.offset, 0);
    PutLength(index.length, 0);
  }

  lemma {:induction false} FooterReads(meta: Handle, index: Handle)
    requires Is64(meta) && Is64(index)
    requires |EncodeHandle(meta) + EncodeHandle(index)| <= FOOTER_SIZE - 8
    ensures var f := Footer(meta, index);
      && |f| == FOOTER_SIZE && f[FOOTER_SIZE - 8..] == MAGIC
      && DecodeHandle(f) == (meta, |EncodeHandle(meta)|)
      && DecodeHandle(f[|EncodeHandle(meta)|..]).0 == index
      && !DecodePanics(f) && !DecodePanics(f[|EncodeHandle(meta)|..])
  {
    hide EncodeHandle, DecodeHandle, DecodePanics;
    var f, e := Footer(meta, index), EncodeHandle(meta) + EncodeHandle(index);
    var pad := seq(FOOTER_SIZE - 8 - |e|, _ => 0);
    AtConcat(f, 0, e + pad, MAGIC);
    AtConcat(f, 0, e, pad);
    AtConcat(f, 0, EncodeHandle(meta), EncodeHandle(index));
    HandleRoundTrip(f, 0, meta);
    HandleRoundTrip(f, |EncodeHandle(meta)|, index);
    assert f[0..] == f;
  }

  ghost predicate HasFooter(file: bytes, meta: Handle, index: Handle) {
    && Is64(meta) && Is64(index) && |file| >= FOOTER_SIZE
    && |EncodeHandle(meta) + EncodeHandle(index)| <= FOOTER_SIZE - 8
    && At(file, |file| - FOOTER_SIZE, Footer(meta, index))
  }

  // ---- tables

  /** What the parts of a table file are and where they lie. */
  datatype Layout = Layout(blocks: seq<seq<Entry>>, seps: seq<bytes>, handles: seq<Handle>, r: nat,
                           filter: seq<Handle>, filterData: bytes,
                           index: Handle, props: Handle, meta: Handle)

  predicate Inside(h: Handle, file: bytes) {
    h.offset + h.length + TRAILER_SIZE <= |file|
  }

  ghost predicate FilterGood(block: bytes, es: seq<Entry>) {
    var f := Bloom.Decode(block);
    && f.Some? && |f.filter.data| == f.filter.nLines * Bloom.LINE_SIZE
    && forall i :: 0 <= i < |es| ==> Bloom.MayContain(f, es[i].key)
  }

  ghost predicate DataBlocks(file: bytes, L: Layout) {
    && L.r > 0 && |L.blocks| == |L.handles| == |L.seps|
    && (forall i :: 0 <= i < |L.blocks| ==> BlockAt(file, L.handles[i], Encode(L.blocks[i], L.r)))
    && Sorted(Flatten(L.blocks)) && Separated(L.blocks, L.seps)
  }

  ghost predicate MetaBlocks(file: bytes, L: Layout)
    requires |L.seps| <= |L.handles|
  {
    && |L.filter| <= 1 && (L.filter == [] <==> L.blocks == [])
    && BlockAt(file, L.index, Encode(IndexEntries(L.seps, L.handles), 1))
    && BlockAt(file, L.meta, Encode(MetaEntries(L.filter, L.props), 1))
    && (L.filter != [] ==> BlockAt(file, L.filter[0], L.filterData) && FilterGood(L.filterData, Flatten(L.blocks)))
  }

  /** The file is a table holding the entries Flatten(L.blocks). */
  ghost predicate IsTable(file: bytes, L: Layout) {
    && FOOTER_SIZE <= |file| < TWO_32
    && DataBlocks(file, L) && MetaBlocks(file, L)
    && HasFooter(file, L.meta, L.index)
  }

  /** A block stays where it is when more is written behind it. */
  lemma {:induction false} BlockAtGrows(file: bytes, more: bytes, h: Handle, data: bytes)
    requires BlockAt(file, h, data)
    ensures BlockAt(file + more, h, data)
  {
  }

  /** Blocks with the places they were written to. */
  ghost predicate AllAt(file: bytes, hs: seq<(Handle, bytes)>) {
    forall i :: 0 <= i < |hs| ==> BlockAt(file, hs[i].0, hs[i].1)
  }

  lemma {:induction false} AllAtGrows(file: bytes, more: bytes, hs: seq<(Handle, bytes)>)
    requires AllAt(file, hs)
    ensures AllAt(file + more, hs)
  {
  }

  lemma {:induction false} AllAtAppend(file: bytes, hs: seq<(Handle, bytes)>, data: bytes)
    requires AllAt(file, hs)
    ensures AllAt(file + Stored(data), hs + [(Handle(|file|, |data|), data)])
  {
    hide BlockAt;
    AllAtGrows(file, Stored(data), hs);
    BlockAppended(file, data);
  }

  lemma {:induction false} BlockAppended(file: bytes, data: bytes)
    ensures BlockAt(file + Stored(data), Handle(|file|, |data|), data)
  {
  }
}
