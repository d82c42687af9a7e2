/** Reading tables: point lookup and the two-level iterator. */
module TableReader {
  import opened Bytes
  import opened Binary
  import opened Block
  import opened TableFormat
  import Bloom

  datatype ReadResult<T> = Ok(value: T) | NotFound | Corrupted | ReadError | Panics

  predicate ChecksumMatches(file: bytes, h: Handle)
    requires Inside(h, file)
  {
    var end := h.offset + h.length;
    Checksum(file[h.offset..end], file[end]) == U32(file, end + 1)
  }

  /** The address space: make panics for longer slices, whatever memory there is. */
  const MAX_ALLOC: nat := 0x1_0000_0000_0000

  /** The bytes to read, in 64-bit arithmetic. */
  function ReadLength(h: Handle): nat {
    (h.length + TRAILER_SIZE) % TWO_64
  }

  /** Whether making the buffer panics, or slicing it where the length has wrapped and the few bytes that
      are left of it can be read. */
  predicate LengthPanics(file: bytes, h: Handle) {
    || ReadLength(h) > MAX_ALLOC
    || (ReadLength(h) < h.length && h.offset < TWO_63 && (ReadLength(h) == 0 || h.offset + ReadLength(h) <= |file|))
  }

  predicate Readable(file: bytes, h: Handle) {
    Inside(h, file) && h.length + TRAILER_SIZE <= MAX_ALLOC && h.offset < TWO_63
  }

  /** readRawBlock on any file and handle: the bytes, if they are there and match their checksum. */
  method ReadRawBlock(file: bytes, h: Handle) returns (r: ReadResult<bytes>)
    ensures r == Panics <==> LengthPanics(file, h)
    ensures r.Ok? <==> Readable(file, h) && ChecksumMatches(file, h)
    ensures r.Ok? ==> r.value == file[h.offset..h.offset + h.length]
    ensures |file| <= MAX_ALLOC ==> forall data :: BlockAt(file, h, data) ==> r == Ok(data)
  {
    hide Checksum, LE, FromLE;
    var n := ReadLength(h);
    if n > MAX_ALLOC {
      return Panics;
    }
    if h.offset >= TWO_63 || (n > 0 && h.offset + n > |file|) {
      return ReadError;
    }
    if n < h.length {
      return Panics;
    }
    assert n == h.length + TRAILER_SIZE;
    var data := file[h.offset..h.offset + h.length];
    var blockType := file[h.offset + h.length];
    var stored := U32(file, h.offset + h.length + 1);
    forall d | BlockAt(file, h, d)
      ensures d == data && Checksum(data, blockType) == stored
    {
      StoredReads(file, h, d);
    }
    if Checksum(data, blockType) != stored {
      return Corrupted;
    }
    return Ok(data);
  }

  lemma {:induction false} StoredReads(file: bytes, h: Handle, data: bytes)
    requires BlockAt(file, h, data)
    ensures Inside(h, file) && file[h.offset..h.offset + h.length] == data
    ensures file[h.offset + h.length] == COMPRESSION_NONE
    ensures U32(file, h.offset + h.length + 1) == Checksum(data, COMPRESSION_NONE)
  {
    hide Checksum, LE, FromLE;
    var sum := LE(Checksum(data, COMPRESSION_NONE), 4);
    AtConcat(file, h.offset, data + [COMPRESSION_NONE], sum);
    AtConcat(file, h.offset, data, [COMPRESSION_NONE]);
    U32Of(file, h.offset + h.length + 1, Checksum(data, COMPRESSION_NONE));
    AtPointwise(file, h.offset + h.length, [COMPRESSION_NONE]);
    assert file[h.offset + h.length + 0] == COMPRESSION_NONE;
  }

  lemma {:induction false} OneByte(file: bytes, at: nat, b: byte, off: nat, n: nat)
    requires at < |file| && off + n <= |file|
    ensures file[at := b][off..off + n] ==
      if off <= at < off + n then file[off..off + n][at - off := b] else file[off..off + n]
  {
  }

  /** A written block in which one byte has changed, be it of the data, the type or the checksum, does not
      match its checksum; so reading it is an error. */
  lemma {:induction false} ChangeNoticed(file: bytes, h: Handle, data: bytes, i: nat, b: byte)
    requires BlockAt(file, h, data) && i < |data| + TRAILER_SIZE && h.offset + i < |file| && file[h.offset + i] != b
    ensures Inside(h, file[h.offset + i := b]) && !ChecksumMatches(file[h.offset + i := b], h)
  {
    hide Checksum, LE, FromLE, U32;
    StoredReads(file, h, data);
    var end := h.offset + h.length;
    var file' := file[h.offset + i := b];
    OneByte(file, h.offset + i, b, h.offset, h.length);
    if i <= |data| {
      var data', t := file'[h.offset..end], file'[end];
      SameU32(file, file', end + 1);
      ChecksumNotices(data, COMPRESSION_NONE, data', t, i);
    } else {
      OtherU32(file, file', end + 1, i - |data| - 1);
    }
  }

  lemma {:induction false} SameU32(file: bytes, file': bytes, off: nat)
    requires off + 4 <= |file| == |file'| && file'[off..off + 4] == file[off..off + 4]
    ensures U32(file', off) == U32(file, off)
  {
  }

  lemma {:induction false} OtherU32(file: bytes, file': bytes, off: nat, j: nat)
    requires off + 4 <= |file| == |file'| && j < 4 && file'[off + j] != file[off + j]
    ensures U32(file', off) != U32(file, off)
  {
    hide FromLE;
    var a, b := file[off..off + 4], file'[off..off + 4];
    assert a[j] == file[off + j] && b[j] == file'[off + j];
    if FromLE(a) == FromLE(b) {
      FromLEInjective(a, b);
    }
  }

  lemma {:induction false} FromLEInjective(a: bytes, b: bytes)
    requires |a| == |b| && FromLE(a) == FromLE(b)
    ensures a == b
  {
    if a != [] {
      FromLEInjective(a[1..], b[1..]);
      assert a == [a[0]] + a[1..] && b == [b[0]] + b[1..];
    }
  }

  /** Whether decoding the two handles of a footer slices behind a negative count. */
  predicate FooterPanics(footer: bytes) {
    || DecodePanics(footer) || DecodeHandle(footer).1 < 0
    || (DecodedInside(footer); DecodePanics(footer[DecodeHandle(footer).1..]))
  }

  /** readFooter on any file: two handles behind a magic number, or a panic where their varints
      overflow, since nothing else checks them. */
  method ReadFooter(file: bytes) returns (r: ReadResult<(Handle, Handle)>)
    requires |file| >= FOOTER_SIZE
    ensures r == Corrupted || r == Panics || r.Ok?
    ensures r == Corrupted <==> file[|file| - 8..] != MAGIC
    ensures r == Panics <==> file[|file| - 8..] == MAGIC && FooterPanics(file[|file| - FOOTER_SIZE..])
    ensures forall m, i :: HasFooter(file, m, i) ==> r == Ok((m, i))
  {
    hide EncodeHandle, DecodeHandle, DecodePanics, Footer;
    var footer := file[|file| - FOOTER_SIZE..];
    assert footer[FOOTER_SIZE - 8..] == file[|file| - 8..];
    forall m, i | HasFooter(file, m, i)
      ensures footer[FOOTER_SIZE - 8..] == MAGIC && DecodeHandle(footer) == (m, |EncodeHandle(m)|)
      ensures DecodeHandle(footer[|EncodeHandle(m)|..]).0 == i && !FooterPanics(footer)
    {
      FooterReads(m, i);
      assert footer == Footer(m, i);
    }
    if footer[FOOTER_SIZE - 8..] != MAGIC {
      return Corrupted;
    }
    if DecodePanics(footer) || DecodeHandle(footer).1 < 0 {
      return Panics;
    }
    var m := DecodeHandle(footer);
    DecodedInside(footer);
    if DecodePanics(footer[m.1..]) {
      return Panics;
    }
    var i := DecodeHandle(footer[m.1..]);
    return Ok((m.0, i.0));
  }

  lemma {:induction false} DecodedInside(src: bytes)
    ensures DecodeHandle(src).1 <= |src|
  {
  }

  /** A footer on which it does panic: ten bytes that carry on and an eleventh. */
  lemma {:induction false} OverflowPanics(footer: bytes)
    requires |footer| == FOOTER_SIZE && forall i :: 0 <= i <= 10 ==> footer[i] >= 128
    ensures FooterPanics(footer)
  {
    Overflows(footer, 0);
  }

  lemma {:induction false} Overflows(buf: bytes, i: nat)
    requires i <= 10 < |buf| && forall j :: 0 <= j <= 10 ==> buf[j] >= 128
    ensures GetAt(buf, i) == (0, -11)
    decreases 10 - i
  {
    if i < 10 {
      Overflows(buf, i + 1);
    }
  }

  /** An opened table: index and filter in memory, data blocks read on demand. */
  class Reader {
    const file: bytes
    const indexBlock: bytes
    const filter: Bloom.MaybeFilter
    ghost const L: Layout

    ghost predicate Valid() {
      && IsTable(file, L)
      && indexBlock == Encode(IndexEntries(L.seps, L.handles), 1)
      && (filter.Some? ==> |filter.filter.data| == filter.filter.nLines * Bloom.LINE_SIZE)
      && forall e :: e in Entries() ==> Bloom.MayContain(filter, e.key)
    }

    ghost function Entries(): seq<Entry> {
      Flatten(L.blocks)
    }

    constructor (file: bytes, indexBlock: bytes, filter: Bloom.MaybeFilter, ghost L: Layout)
      ensures this.file == file && this.indexBlock == indexBlock && this.filter == filter && this.L == L
    {
      this.file, this.indexBlock, this.filter, this.L := file, indexBlock, filter, L;
    }

    lemma {:induction false} Facts()
      requires Valid()
      ensures IsTable(file, L) && indexBlock == Encode(IndexEntries(L.seps, L.handles), 1)
    {
    }

    lemma {:induction false} FilterFacts()
      requires Valid()
      ensures filter.Some? ==> |filter.filter.data| == filter.filter.nLines * Bloom.LINE_SIZE
      ensures forall e :: e in Entries() ==> Bloom.MayContain(filter, e.key)
    {
    }

    /** findDataBlock: the handle of the only block that can hold the key. */
    method FindDataBlock(key: bytes) returns (h: ReadResult<Handle>, ghost b: nat)
      requires Valid()
      ensures h == NotFound || h.Ok?
      ensures |L.blocks| == |L.handles| == |L.seps| && IsIndexFirst(L, key, b)
      ensures h.Ok? ==> b < |L.blocks| && h.value == L.handles[b]
      ensures h == NotFound ==> b == |L.blocks|
    {
      hide Valid, IsTable, Encode, Fits, Sorted, Less, EncodeHandle, DecodeHandle, Separated, Flatten, Body,
        Restarts, Block.BlockIterator.Positioned, Block.BlockIterator.Valid, IsIndexFirst;
      Facts();
      IndexUsable(file, L);
      ghost var index := IndexEntries(L.seps, L.handles);
      var it := new BlockIterator(indexBlock, index, 1);
      var ok := it.SeekGE(key);
      b := if ok then it.idx - 1 else |index|;
      IndexFirst(L, key, b);
      if !ok {
        LastEntry(it);
        return NotFound, b;
      }
      IndexValue(file, L, b);
      h := Ok(DecodeHandle(it.val).0);
    }

    /** Get: the value exactly when the key was written. */
    method Get(key: bytes) returns (r: ReadResult<bytes>)
      requires Valid()
      ensures r == NotFound || r.Ok?
      ensures r.Ok? ==> Entry(key, r.value) in Entries()
      ensures r == NotFound ==> forall e :: e in Entries() ==> e.key != key
    {
      hide Valid, IsTable, Sorted, Less, Separated, Flatten, Bloom.MayContain, IsIndexFirst;
      Facts();
      FilterFacts();
      TableFacts(file, L);
      var may := Bloom.ComputeMayContain(filter, key);
      if filter != Bloom.NoFilter && !may {
        return NotFound;
      }
      var h, b := FindDataBlock(key);
      if !h.Ok? {
        BelowMeansAbsent(L, key);
        return NotFound;
      }
      r := SearchBlock(h.value, b, key);
    }

    /** The part of Get behind the index lookup: one block is read and searched. */
    method SearchBlock(h: Handle, ghost b: nat, key: bytes) returns (r: ReadResult<bytes>)
      requires Valid() && b < |L.blocks| == |L.handles| == |L.seps| && h == L.handles[b]
      requires IsIndexFirst(L, key, b)
      ensures r == NotFound || r.Ok?
      ensures r.Ok? ==> Entry(key, r.value) in Entries()
      ensures r == NotFound ==> forall e :: e in Entries() ==> e.key != key
    {
      hide Valid, IsTable, Encode, Fits, Sorted, Less, Separated, Flatten, Body, Restarts, IsIndexFirst,
        BlockAt, Block.BlockIterator.Positioned, Block.BlockIterator.Valid;
      Facts();
      TableFacts(file, L);
      BlockUsable(file, L, b);
      var block := ReadRawBlock(file, h);
      var it := new BlockIterator(block.value, L.blocks[b], L.r);
      var ok := it.SeekGE(key);
      ghost var j := if ok then it.idx - 1 else |L.blocks[b]|;
      if ok {
        var c := CompareKeys(it.key, key);
        if c == 0 {
          FlatAt(L.blocks, b, j);
          assert Entries()[StartOfBlock(L.blocks, b) + j] == Entry(key, it.val);
          return Ok(it.val);
        }
      }
      KeyAbsent(L, key, b, j);
      return NotFound;
    }
  }

  /** When the seek fails, findDataBlock walks to the last index entry and one step further, so
      it ends invalid and the key is reported as not found in any case. */
  method LastEntry(it: BlockIterator)
    requires it.Valid()
    modifies it
    ensures it.Valid() && !it.valid
  {
    var more := it.First();
    if more {
      more := it.Next();
      while more
        invariant it.Valid() && more == it.valid
        decreases |it.es| - it.idx + if more then 1 else 0
      {
        more := it.Next();
      }
    }
  }

  // ---- opening

  /** readFilter: scans the metaindex for the filter block. */
  method ReadFilter(file: bytes, metaData: bytes, ghost L: Layout) returns (filter: Bloom.MaybeFilter)
    requires IsTable(file, L) && metaData == Encode(MetaEntries(L.filter, L.props), 1)
    ensures filter == if L.filter == [] then Bloom.NoFilter else Bloom.Decode(L.filterData)
  {
    hide IsTable, Encode, Fits, EncodeHandle, DecodeHandle, Bloom.Decode, BlockAt, Body, Restarts,
      Block.BlockIterator.Positioned, FilterGood, LengthPanics, Readable, ChecksumMatches;
    MetaFacts(file, L);
    ghost var es := MetaEntries(L.filter, L.props);
    var it := new BlockIterator(metaData, es, 1);
    var ok := it.First();
    while ok
      invariant it.Valid() && it.es == es && (ok ==> it.Current())
      invariant L.filter != [] ==> ok && it.idx == 1
      decreases |es| - it.idx + if ok then 1 else 0
    {
      if it.key == FILTER_NAME {
        NamesDiffer();
        var h := DecodeHandle(it.val).0;
        var block := ReadRawBlock(file, h);
        return Bloom.Decode(block.value);
      }
      ok := it.Next();
    }
    return Bloom.NoFilter;
  }

  lemma {:induction false} MetaFacts(file: bytes, L: Layout)
    requires IsTable(file, L)
    ensures |L.filter| <= 1 && Fits(MetaEntries(L.filter, L.props), 1) && |file| <= MAX_ALLOC
    ensures L.filter != [] ==>
      DecodeHandle(EncodeHandle(L.filter[0])).0 == L.filter[0] && BlockAt(file, L.filter[0], L.filterData)
  {
    hide Encode, EncodeHandle, DecodeHandle, DataBlocks, FilterGood;
    if L.filter != [] {
      var src := EncodeHandle(L.filter[0]);
      HandleRoundTrip(src, 0, L.filter[0]);
      assert src[0..] == src;
    }
  }

  lemma {:induction false} OpenFacts(file: bytes, L: Layout)
    requires IsTable(file, L)
    ensures FOOTER_SIZE <= |file| <= MAX_ALLOC && HasFooter(file, L.meta, L.index) && |L.filter| <= 1 && |L.seps| <= |L.handles|
    ensures BlockAt(file, L.index, Encode(IndexEntries(L.seps, L.handles), 1))
    ensures BlockAt(file, L.meta, Encode(MetaEntries(L.filter, L.props), 1))
    ensures L.filter != [] ==> FilterGood(L.filterData, Flatten(L.blocks))
  {
  }

  /** NewReader: footer, index, filter. */
  method Open(file: bytes, ghost L: Layout) returns (r: ReadResult<Reader>)
    requires IsTable(file, L)
    ensures r.Ok? && fresh(r.value) && r.value.Valid() && r.value.L == L && r.value.file == file
  {
    hide IsTable, Encode, BlockAt, Bloom.Decode, Bloom.MayContain, Flatten, HasFooter, LengthPanics, Readable,
      ChecksumMatches, FooterPanics;
    OpenFacts(file, L);
    var footer := ReadFooter(file);
    var index := ReadRawBlock(file, footer.value.1);
    var meta := ReadRawBlock(file, footer.value.0);
    var filter := ReadFilter(file, meta.value, L);
    NoFilterNoRejection();
    var reader := new Reader(file, index.value, filter, L);
    r := Ok(reader);
  }

  lemma {:induction false} NoFilterNoRejection()
    ensures forall key :: Bloom.MayContain(Bloom.NoFilter, key)
  {
  }

  // ---- the two-level iterator

  /** TableIterator: walks the index block and, inside it, one data block after the other. */
  class TableIterator {
    const reader: Reader
    var indexIter: BlockIterator?
    var dataIter: BlockIterator?
    /** Number of the block that dataIter walks, and position of its entry in the table. */
    ghost var cur: nat
    ghost var pos: nat
    ghost var Repr: set<object>

    ghost predicate Valid()
      reads this, Repr
    {
      && this in Repr && reader.Valid()
      && (indexIter != null ==> indexIter in Repr && indexIter.Valid())
      && (dataIter != null ==>
            && dataIter in Repr && dataIter.Valid() && indexIter != null && indexIter != dataIter
            && cur < |reader.L.blocks| && dataIter.es == reader.L.blocks[cur])
    }

    /** The index stands on block b. */
    ghost predicate OnIndex(b: nat)
      reads this, indexIter
    {
      && indexIter != null && indexIter.valid && indexIter.idx == b + 1 && b < |reader.L.blocks|
      && |reader.L.blocks| == |reader.L.seps| == |reader.L.handles|
      && indexIter.es == IndexEntries(reader.L.seps, reader.L.handles)
    }

    /** Positioned at entry pos of the table, ready to go on from there. */
    ghost predicate Positioned()
      reads this, Repr, indexIter, dataIter
    {
      && Valid() && OnIndex(cur) && dataIter != null && dataIter.valid && dataIter.Current()
      && pos == StartOfBlock(reader.L.blocks, cur) + dataIter.idx - 1 < |reader.Entries()|
      && reader.Entries()[pos] == Entry(dataIter.key, dataIter.val)
    }

    lemma {:induction false} CurrentEntry()
      requires Positioned()
      ensures Valid() && dataIter != null && IsValid() && pos < |reader.Entries()|
      ensures reader.Entries()[pos] == Entry(dataIter.key, dataIter.val)
    {
    }

    /** What the method of this name reports. */
    predicate IsValid()
      reads this, dataIter
    {
      dataIter != null && dataIter.valid
    }

    constructor (reader: Reader)
      requires reader.Valid()
      ensures Valid() && fresh(Repr) && this.reader == reader && dataIter == null
    {
      this.reader := reader;
      indexIter, dataIter, cur := null, null, 0;
      Repr := {this};
    }

    /** Reads the block that the index stands on. */
    method LoadDataBlock()
      requires this in Repr && reader.Valid() && OnIndex(cur)
      requires indexIter in Repr && indexIter.Valid() && indexIter.Current()
      modifies this`dataIter, this`Repr
      ensures Valid() && OnIndex(cur) && dataIter != null && fresh(dataIter) && dataIter != indexIter
      ensures Repr == old(Repr) + {dataIter} && dataIter.es == reader.L.blocks[cur]
    {
      hide Reader.Valid, IsTable, Encode, Fits, Sorted, EncodeHandle, DecodeHandle, BlockAt, Separated, Flatten,
        Block.BlockIterator.Positioned, Block.BlockIterator.Valid;
      reader.Facts();
      TableFacts(reader.file, reader.L);
      BlockUsable(reader.file, reader.L, cur);
      IndexValue(reader.file, reader.L, cur);
      var h := DecodeHandle(indexIter.val).0;
      var data := ReadRawBlock(reader.file, h);
      dataIter := new BlockIterator(data.value, reader.L.blocks[cur], reader.L.r);
      Repr := Repr + {dataIter};
    }

    /** The current entry of the data block, as a position in the table. */
    ghost method SetPos()
      requires Valid() && OnIndex(cur) && dataIter != null && dataIter.valid && dataIter.Current()
      modifies this`pos
      ensures Positioned() && pos == StartOfBlock(reader.L.blocks, cur) + dataIter.idx - 1
    {
      hide Reader.Valid, Flatten, Block.BlockIterator.Positioned;
      FlatAt(reader.L.blocks, cur, dataIter.idx - 1);
      pos := StartOfBlock(reader.L.blocks, cur) + dataIter.idx - 1;
    }

    /** The first entry of the block after the current one. */
    method NextBlock() returns (ok: bool)
      requires Valid() && OnIndex(cur) && dataIter != null
      modifies Repr
      ensures Valid() && fresh(Repr - old(Repr))
      ensures ok <==> old(cur) + 1 < |reader.L.blocks|
      ensures ok ==> Positioned() && pos == StartOfBlock(reader.L.blocks, old(cur) + 1)
      ensures ok ==> fresh(dataIter) && cur == old(cur) + 1
      ensures !ok ==> dataIter == null
    {
      hide Reader.Valid, IsTable, Sorted, Flatten, Block.BlockIterator.Positioned, Separated, EncodeHandle, Fits, Encode,
        Block.BlockIterator.Appended;
      reader.Facts();
      TableFacts(reader.file, reader.L);
      ok := indexIter.Next();
      if !ok {
        dataIter := null;
        return;
      }
      cur := cur + 1;
      LoadDataBlock();
      ok := dataIter.First();
      BlocksNotEmpty(reader.L, cur);
      SetPos();
    }

    /** Next: the following entry, if any. Inside a block the key is appended into the array of the
        previous one, where it fits; a new block has a new iterator and so a new array. */
    method Next() returns (ok: bool)
      requires Valid() && (dataIter != null ==> Positioned())
      modifies Repr
      ensures Valid() && fresh(Repr - old(Repr))
      ensures ok <==> old(dataIter) != null && old(pos) + 1 < |reader.Entries()|
      ensures ok ==> Positioned() && pos == old(pos) + 1
      ensures !ok ==> dataIter == null
      ensures ok ==> (dataIter == old(dataIter) <==> cur == old(cur)) && (dataIter != old(dataIter) ==> fresh(dataIter))
      ensures ok && dataIter == old(dataIter) ==> dataIter.Appended(old(dataIter.gen), old(dataIter.buf))
    {
      hide Reader.Valid, IsTable, Flatten, Block.BlockIterator.Positioned, Separated, Sorted, Block.BlockIterator.Appended,
        EncodeHandle, Fits, Encode;
      if dataIter == null {
        return false;
      }
      reader.Facts();
      TableFacts(reader.file, reader.L);
      ok := dataIter.Next();
      if ok {
        SetPos();
        return true;
      }
      StartStep(reader.L.blocks, cur);
      LastBlockEnds(reader.L, cur);
      ok := NextBlock();
    }

    /** Both ways to position start with a fresh iterator over the index block. */
    method OpenIndex()
      requires Valid()
      modifies this`indexIter, this`Repr
      ensures Valid() && indexIter != null && fresh(indexIter) && Repr == old(Repr) + {indexIter}
      ensures |reader.L.blocks| == |reader.L.seps| == |reader.L.handles|
      ensures indexIter.es == IndexEntries(reader.L.seps, reader.L.handles) && Sorted(indexIter.es)
    {
      hide Reader.Valid, IsTable, Encode, Fits, Sorted, Flatten, Separated, Less, Block.BlockIterator.Positioned;
      reader.Facts();
      TableFacts(reader.file, reader.L);
      IndexUsable(reader.file, reader.L);
      indexIter := new BlockIterator(reader.indexBlock, IndexEntries(reader.L.seps, reader.L.handles), 1);
      Repr := Repr + {indexIter};
    }

    /** First: the first entry, if the table has any. */
    method First() returns (ok: bool)
      requires Valid()
      modifies Repr
      ensures fresh(Repr - old(Repr))
      ensures ok <==> reader.Entries() != []
      ensures ok ==> Positioned() && pos == 0
      ensures !ok ==> dataIter == old(dataIter)
    {
      hide Reader.Valid, IsTable, Sorted, Flatten, Separated, Block.BlockIterator.Positioned, Less,
        IndexEntries, EncodeHandle;
      reader.Facts();
      TableFacts(reader.file, reader.L);
      OpenIndex();
      EmptyStart(reader.L.blocks);
      LastBlockEnds(reader.L, 0);
      ok := indexIter.First();
      if !ok {
        return;
      }
      BlocksNotEmpty(reader.L, 0);
      cur := 0;
      LoadDataBlock();
      ok := dataIter.First();
      SetPos();
    }

    /** SeekGE: the first entry not below the target. When the target is above the last separator
        the data iterator is left alone, so IsValid() goes on reporting the old position. */
    method SeekGE(target: bytes) returns (ok: bool)
      requires Valid()
      modifies Repr
      ensures fresh(Repr - old(Repr))
      ensures ok ==> Positioned() && IsFirstGE(reader.Entries(), target, pos)
      ensures !ok ==> IsFirstGE(reader.Entries(), target, |reader.Entries()|)
      ensures !ok ==> dataIter == null || dataIter == old(dataIter)
      ensures IsIndexFirst(reader.L, target, |reader.L.seps|) ==> !ok && IsValid() == old(IsValid())
      ensures !ok && IsValid() ==> old(IsValid()) && IsIndexFirst(reader.L, target, |reader.L.seps|)
    {
      hide Reader.Valid, IsTable, Sorted, Flatten, Separated, Less, Block.BlockIterator.Positioned, IsFirstGE;
      OpenIndex();
      ghost var L := reader.L;
      ok := indexIter.SeekGE(target);
      ghost var b := if ok then indexIter.idx - 1 else |L.seps|;
      IndexFirst(L, target, b);
      if !ok {
        reader.Facts();
        TableFacts(reader.file, L);
        NothingFrom(L, target);
        return;
      }
      cur := b;
      LoadDataBlock();
      ok := SeekFromBlock(target);
    }

    /** The second half of SeekGE: inside the block found, or at the start of the next one. */
    method SeekFromBlock(target: bytes) returns (ok: bool)
      requires Valid() && OnIndex(cur) && dataIter != null && IsIndexFirst(reader.L, target, cur)
      modifies Repr
      ensures Valid() && fresh(Repr - old(Repr))
      ensures ok ==> Positioned() && IsFirstGE(reader.Entries(), target, pos)
      ensures !ok ==> IsFirstGE(reader.Entries(), target, |reader.Entries()|) && dataIter == null
    {
      hide Reader.Valid, IsTable, Fits, Sorted, Flatten, Separated, Less, Block.BlockIterator.Positioned, EncodeHandle, Encode,
        Block.BlockIterator.Appended;
      reader.Facts();
      TableFacts(reader.file, reader.L);
      BlockUsable(reader.file, reader.L, cur);
      ok := dataIter.SeekGE(target);
      if ok {
        FirstInBlock(reader.L, target, cur, dataIter.idx - 1);
        SetPos();
        return;
      }
      ok := FromNextBlock(target);
    }

    /** Nothing in the block: the first entry of the next one is the answer. */
    method FromNextBlock(target: bytes) returns (ok: bool)
      requires Valid() && OnIndex(cur) && dataIter != null && IsIndexFirst(reader.L, target, cur)
      requires cur < |reader.L.blocks| && IsFirstGE(reader.L.blocks[cur], target, |reader.L.blocks[cur]|)
      modifies Repr
      ensures Valid() && fresh(Repr - old(Repr))
      ensures ok ==> Positioned() && IsFirstGE(reader.Entries(), target, pos)
      ensures !ok ==> IsFirstGE(reader.Entries(), target, |reader.Entries()|) && dataIter == null
    {
      hide Reader.Valid, IsTable, Fits, Sorted, Flatten, Separated, Less, Block.BlockIterator.Positioned, EncodeHandle, Encode,
        Block.BlockIterator.Appended;
      reader.Facts();
      TableFacts(reader.file, reader.L);
      FirstInNextBlock(reader.L, target, cur);
      LastBlockEnds(reader.L, cur);
      assert reader.L.blocks[..|reader.L.blocks|] == reader.L.blocks;
      ok := NextBlock();
    }
  }

  /** Every table that is not empty has targets above its last separator. */
  lemma {:induction false} AboveLastSeparator(file: bytes, L: Layout) returns (target: bytes)
    requires IsTable(file, L) && L.blocks != []
    ensures IsIndexFirst(L, target, |L.seps|)
  {
    hide Less, Flatten, Encode;
    TableFacts(file, L);
    IndexUsable(file, L);
    var n := |L.seps| - 1;
    target := L.seps[n] + [0];
    ExtensionAbove(L.seps[n]);
    forall i | 0 <= i < |L.seps|
      ensures Less(L.seps[i], target)
    {
      if i < n {
        SepsBelow(L.blocks, L.seps, i, n);
        LessTransitive(L.seps[i], L.seps[n], target);
      }
    }
  }

  lemma {:induction false} ExtensionAbove(k: bytes)
    ensures Less(k, k + [0])
  {
  }

  /** On every such table and target, an iterator that stood on an entry goes on saying so after a
      seek that found nothing. */
  method SeekPastEnd(reader: Reader, target: bytes) returns (found: bool, valid: bool)
    requires reader.Valid() && reader.Entries() != [] && IsIndexFirst(reader.L, target, |reader.L.seps|)
    ensures !found && valid
  {
    hide Reader.Valid, TableIterator.Valid, TableIterator.Positioned, Flatten, IsIndexFirst;
    var it := new TableIterator(reader);
    var ok := it.First();
    it.CurrentEntry();
    found := it.SeekGE(target);
    valid := it.IsValid();
  }

  // ---- a full scan

  /** First, then Next until it fails: yields exactly the entries written, in order. */
  method Scan(reader: Reader) returns (es: seq<Entry>)
    requires reader.Valid()
    ensures es == reader.Entries()
  {
    hide Reader.Valid, TableIterator.Valid, TableIterator.Positioned, Flatten;
    var it := new TableIterator(reader);
    es := [];
    var ok := it.First();
    while ok
      invariant it.reader == reader && fresh(it.Repr)
      invariant ok ==> it.Positioned() && it.pos == |es|
      invariant !ok ==> |es| == |reader.Entries()|
      invariant |es| <= |reader.Entries()| && es == reader.Entries()[..|es|]
      decreases |reader.Entries()| - |es| + if ok then 1 else 0
    {
      it.CurrentEntry();
      es := es + [Entry(it.dataIter.key, it.dataIter.val)];
      ok := it.Next();
    }
  }

  lemma {:induction false} BlocksNotEmpty(L: Layout, b: nat)
    requires |L.seps| <= |L.blocks| && Separated(L.blocks, L.seps) && b < |L.blocks|
    ensures L.blocks[b] != []
  {
  }

  /** A block ends the table exactly when its successor would start past the end. */
  lemma {:induction false} LastBlockEnds(L: Layout, b: nat)
    requires |L.seps| <= |L.blocks| && Separated(L.blocks, L.seps)
    ensures b < |L.blocks| ==>
      (StartOfBlock(L.blocks, b + 1) < |Flatten(L.blocks)| <==> b + 1 < |L.blocks|)
    ensures L.blocks == [] <==> Flatten(L.blocks) == []
  {
    hide Flatten;
    assert L.blocks[..|L.blocks|] == L.blocks;
    if L.blocks == [] {
      assert Flatten(L.blocks) == [] by { EmptyStart(L.blocks); }
    } else {
      FlatAt(L.blocks, 0, 0);
    }
    if b + 1 < |L.blocks| {
      FlatAt(L.blocks, b + 1, 0);
    }
  }

  lemma {:induction false} NothingFrom(L: Layout, key: bytes)
    requires |L.seps| == |L.blocks| && Sorted(Flatten(L.blocks)) && Separated(L.blocks, L.seps)
    requires IsIndexFirst(L, key, |L.blocks|)
    ensures IsFirstGE(Flatten(L.blocks), key, |Flatten(L.blocks)|)
  {
    hide Less, Flatten;
    AllBelowKey(L, key, |L.blocks|);
    assert L.blocks[..|L.blocks|] == L.blocks;
  }

  // ---- searching the index

  /** b is the first block whose separator is not below the key. */
  ghost predicate IsIndexFirst(L: Layout, key: bytes, b: nat) {
    && b <= |L.seps|
    && (forall i :: 0 <= i < b ==> Less(L.seps[i], key))
    && (b < |L.seps| ==> !Less(L.seps[b], key))
  }

  lemma {:induction false} IndexFirst(L: Layout, key: bytes, b: nat)
    requires |L.seps| <= |L.handles|
    ensures IsFirstGE(IndexEntries(L.seps, L.handles), key, b) <==> IsIndexFirst(L, key, b)
  {
  }

  lemma {:induction false} TableFacts(file: bytes, L: Layout)
    requires IsTable(file, L)
    ensures |L.seps| == |L.handles| == |L.blocks| && L.r > 0 && |file| <= MAX_ALLOC
    ensures Sorted(Flatten(L.blocks)) && Separated(L.blocks, L.seps)
  {
  }

  lemma {:induction false} IndexUsable(file: bytes, L: Layout)
    requires IsTable(file, L)
    ensures |L.seps| == |L.handles| == |L.blocks|
    ensures var index := IndexEntries(L.seps, L.handles); Fits(index, 1) && Sorted(index)
  {
    hide Encode, Less, Flatten;
    var index := IndexEntries(L.seps, L.handles);
    forall i, j | 0 <= i < j < |index|
      ensures Less(index[i].key, index[j].key)
    {
      SepsBelow(L.blocks, L.seps, i, j);
    }
  }

  lemma {:induction false} BlockUsable(file: bytes, L: Layout, b: nat)
    requires IsTable(file, L) && b < |L.blocks| == |L.handles|
    ensures L.r > 0 && Fits(L.blocks[b], L.r) && Sorted(L.blocks[b])
    ensures BlockAt(file, L.handles[b], Encode(L.blocks[b], L.r))
  {
    hide Encode, Less, Flatten;
    assert BlockAt(file, L.handles[b], Encode(L.blocks[b], L.r));
    BlockSorted(L.blocks, b);
  }

  lemma {:induction false} IndexValue(file: bytes, L: Layout, b: nat)
    requires IsTable(file, L) && b < |L.blocks|
    ensures var e := IndexEntries(L.seps, L.handles)[b]; DecodeHandle(e.value).0 == L.handles[b]
  {
    hide Encode, Less, Flatten, EncodeHandle, DecodeHandle;
    assert BlockAt(file, L.handles[b], Encode(L.blocks[b], L.r));
    var src := EncodeHandle(L.handles[b]);
    HandleRoundTrip(src, 0, L.handles[b]);
    assert src[0..] == src;
  }

  /** Keys in front of the block that the index points to are all below the key sought. */
  lemma {:induction false} AllBelowKey(L: Layout, key: bytes, b: nat)
    requires |L.seps| == |L.blocks| && Sorted(Flatten(L.blocks)) && Separated(L.blocks, L.seps)
    requires b <= |L.blocks| && forall i :: 0 <= i < b ==> Less(L.seps[i], key)
    ensures StartOfBlock(L.blocks, b) <= |Flatten(L.blocks)|
    ensures forall k :: 0 <= k < StartOfBlock(L.blocks, b) ==> Less(Flatten(L.blocks)[k].key, key)
  {
    hide Less, Flatten;
    StartMonotone(L.blocks, b, |L.blocks|);
    assert L.blocks[..|L.blocks|] == L.blocks;
    if b > 0 {
      var last := L.blocks[b - 1];
      FlatAt(L.blocks, b - 1, |last| - 1);
      StartStep(L.blocks, b - 1);
      LessEqLess(last[|last| - 1].key, L.seps[b - 1], key);
      AllBelow(Flatten(L.blocks), StartOfBlock(L.blocks, b) - 1, key);
    } else {
      assert L.blocks[..0] == [] && StartOfBlock(L.blocks, 0) == 0 by { EmptyStart(L.blocks); }
    }
  }

  lemma {:induction false} EmptyStart(blocks: seq<seq<Entry>>)
    ensures StartOfBlock(blocks, 0) == 0
  {
  }

  /** The first entry not below the key inside block b is the first one in the whole table. */
  lemma {:induction false} FirstInBlock(L: Layout, key: bytes, b: nat, j: nat)
    requires |L.seps| == |L.blocks| && Sorted(Flatten(L.blocks)) && Separated(L.blocks, L.seps)
    requires b < |L.blocks| && (forall i :: 0 <= i < b ==> Less(L.seps[i], key))
    requires j < |L.blocks[b]| && !Less(L.blocks[b][j].key, key)
    requires forall i :: 0 <= i < j ==> Less(L.blocks[b][i].key, key)
    ensures IsFirstGE(Flatten(L.blocks), key, StartOfBlock(L.blocks, b) + j)
  {
    hide Less, Flatten;
    AllBelowKey(L, key, b);
    FlatAt(L.blocks, b, j);
    if j > 0 {
      FlatAt(L.blocks, b, j - 1);
      AllBelow(Flatten(L.blocks), StartOfBlock(L.blocks, b) + j - 1, key);
    }
  }

  /** If block b has no entry from the key on, the first such entry opens the next block. */
  lemma {:induction false} FirstInNextBlock(L: Layout, key: bytes, b: nat)
    requires |L.seps| == |L.blocks| && Sorted(Flatten(L.blocks)) && Separated(L.blocks, L.seps)
    requires b < |L.blocks| && !Less(L.seps[b], key)
    requires forall i :: 0 <= i < |L.blocks[b]| ==> Less(L.blocks[b][i].key, key)
    ensures IsFirstGE(Flatten(L.blocks), key, StartOfBlock(L.blocks, b + 1))
  {
    hide Less, Flatten;
    var last := |L.blocks[b]| - 1;
    FlatAt(L.blocks, b, last);
    StartStep(L.blocks, b);
    AllBelow(Flatten(L.blocks), StartOfBlock(L.blocks, b) + last, key);
    if b + 1 < |L.blocks| {
      FlatAt(L.blocks, b + 1, 0);
      var first := L.blocks[b + 1][0].key;
      LessTotal(L.seps[b], key);
      LessEqLess(key, L.seps[b], first);
      LessTotal(key, first);
    } else {
      assert L.blocks[..b + 1] == L.blocks;
    }
  }

  lemma {:induction false} FirstGEAbsent(es: seq<Entry>, key: bytes, pos: nat)
    requires Sorted(es) && IsFirstGE(es, key, pos) && (pos < |es| ==> es[pos].key != key)
    ensures forall e :: e in es ==> e.key != key
  {
  }

  /** No block of the index can hold the key: then no entry has it. */
  lemma {:induction false} BelowMeansAbsent(L: Layout, key: bytes)
    requires |L.seps| == |L.blocks| && Sorted(Flatten(L.blocks)) && Separated(L.blocks, L.seps)
    requires IsIndexFirst(L, key, |L.blocks|)
    ensures forall e :: e in Flatten(L.blocks) ==> e.key != key
  {
    hide Less, Flatten;
    NothingFrom(L, key);
    FirstGEAbsent(Flatten(L.blocks), key, |Flatten(L.blocks)|);
  }

  lemma {:induction false} KeyAbsent(L: Layout, key: bytes, b: nat, j: nat)
    requires |L.seps| == |L.blocks| && Sorted(Flatten(L.blocks)) && Separated(L.blocks, L.seps)
    requires b < |L.blocks| && IsIndexFirst(L, key, b) && IsFirstGE(L.blocks[b], key, j)
    requires j < |L.blocks[b]| ==> L.blocks[b][j].key != key
    ensures forall e :: e in Flatten(L.blocks) ==> e.key != key
  {
    hide Less, Flatten;
    if j < |L.blocks[b]| {
      FirstInBlock(L, key, b, j);
      FlatAt(L.blocks, b, j);
      FirstGEAbsent(Flatten(L.blocks), key, StartOfBlock(L.blocks, b) + j);
    } else {
      FirstInNextBlock(L, key, b);
      var pos := StartOfBlock(L.blocks, b + 1);
      if b + 1 < |L.blocks| {
        FlatAt(L.blocks, b + 1, 0);
        LessTotal(L.seps[b], key);
        LessEqLess(key, L.seps[b], L.blocks[b + 1][0].key);
        LessIrreflexive(key);
      } else {
        assert L.blocks[..b + 1] == L.blocks;
      }
      FirstGEAbsent(Flatten(L.blocks), key, pos);
    }
  }
}
