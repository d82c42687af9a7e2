/** Writing tables: entries go to data blocks, full blocks to the file, and a separator for every
    block to the index. */
module TableWriter {
  import opened Bytes
  import opened Binary
  import opened Block
  import opened TableFormat
  import Bloom

  datatype WriteResult = Done | OutOfOrder

  datatype Pending = NoPending | Pending(handle: Handle)

  /** The decimal digits fmt.Sprintf("%d") prints. */
  function Decimal(n: nat): bytes {
    if n < 10 then [48 + n] else Decimal(n / 10) + [48 + n % 10]
  }

  /** Bytes of the data blocks, each followed by its trailer. */
  function DataArea(blocks: seq<seq<Entry>>, r: nat): bytes
    requires r > 0
  {
    if blocks == [] then []
    else DataArea(blocks[..|blocks| - 1], r) + Stored(Encode(blocks[|blocks| - 1], r))
  }

  datatype TableMeta = TableMeta(size: nat, keyCount: nat, smallestKey: bytes, largestKey: bytes,
                                 dataBlockCount: nat)

  // ---- where blocks end

  /** No part of the block, up to any of its entries, has reached the size. */
  ghost predicate Below(block: seq<Entry>, r: nat, size: nat)
    requires r > 0
  {
    forall k :: 0 < k <= |block| ==> |Encode(block[..k], r)| < size
  }

  /** The block has reached the size with its last entry and not before. */
  ghost predicate Reached(block: seq<Entry>, r: nat, size: nat)
    requires r > 0
  {
    block != [] && |Encode(block, r)| >= size && Below(block[..|block| - 1], r, size)
  }

  /** So it is with all finished blocks, and the open one is below. */
  ghost predicate Cut(blocks: seq<seq<Entry>>, current: seq<Entry>, r: nat, size: nat) {
    r > 0 && (forall i :: 0 <= i < |blocks| ==> Reached(blocks[i], r, size)) && Below(current, r, size)
  }

  /** The blocks of a finished table: all but the last have reached the size, none before its last entry. */
  ghost predicate BlocksCut(blocks: seq<seq<Entry>>, r: nat, size: nat) {
    && r > 0
    && (forall i :: 0 <= i < |blocks| - 1 ==> Reached(blocks[i], r, size))
    && (blocks != [] ==> blocks[|blocks| - 1] != [] && Below(blocks[|blocks| - 1][..|blocks[|blocks| - 1]| - 1], r, size))
  }

  lemma {:induction false} CutAdded(blocks: seq<seq<Entry>>, block: seq<Entry>, e: Entry, r: nat, size: nat)
    requires Cut(blocks, block, r, size)
    ensures |Encode(block + [e], r)| < size ==> Cut(blocks, block + [e], r, size)
    ensures |Encode(block + [e], r)| >= size ==> Cut(blocks + [block + [e]], [], r, size)
  {
    hide Encode;
    var block' := block + [e];
    assert block'[..|block|] == block && block'[..|block'|] == block';
    assert forall k :: 0 < k <= |block| ==> block'[..k] == block[..k];
  }

  /** What Close does with the open block. */
  lemma {:induction false} CutClosed(blocks: seq<seq<Entry>>, block: seq<Entry>, r: nat, size: nat)
    requires Cut(blocks, block, r, size)
    ensures BlocksCut(if block == [] then blocks else blocks + [block], r, size)
  {
    hide Encode;
    if block != [] {
      var but := block[..|block| - 1];
      forall k | 0 < k <= |but|
        ensures |Encode(but[..k], r)| < size
      {
        assert but[..k] == block[..k];
      }
      assert forall i :: 0 <= i < |blocks| ==> (blocks + [block])[i] == blocks[i];
    }
  }

  // ---- what the writer keeps, on values

  /** The finished data blocks are in the file where the handles say. */
  ghost predicate OnFile(w: bytes, blocks: seq<seq<Entry>>, handles: seq<Handle>, r: nat) {
    && r > 0 && |handles| == |blocks|
    && forall i :: 0 <= i < |blocks| ==> BlockAt(w, handles[i], Encode(blocks[i], r))
  }

  /** All entries are in the finished blocks and the open one, in order. */
  ghost predicate InOrder(entries: seq<Entry>, blocks: seq<seq<Entry>>, current: seq<Entry>) {
    entries == Flatten(blocks) + current && Sorted(entries)
  }

  ghost predicate KeyRange(entries: seq<Entry>, prev: bytes, smallest: bytes, largest: bytes) {
    if entries == [] then prev == []
    else prev == largest == entries[|entries| - 1].key && smallest == entries[0].key
  }

  /** A pending handle is the one of the last block, whose separator is not chosen yet. */
  ghost predicate IndexState(blocks: seq<seq<Entry>>, seps: seq<bytes>, handles: seq<Handle>,
                             index: seq<Entry>, current: seq<Entry>, pending: Pending, pendingKey: bytes)
  {
    && |seps| <= |handles| == |blocks| && Separated(blocks, seps)
    && index == IndexEntries(seps, handles)
    && (pending == NoPending ==>
          && |seps| == |blocks| && (blocks != [] ==> current != [])
          && (seps != [] && current != [] ==> Less(seps[|seps| - 1], current[0].key)))
    && (pending != NoPending ==>
          && |seps| + 1 == |blocks| && pending.handle == handles[|seps|]
          && pendingKey == blocks[|seps|][|blocks[|seps|]| - 1].key && current == [])
  }

  lemma {:induction false} FlushOnFile(w: bytes, blocks: seq<seq<Entry>>, handles: seq<Handle>, r: nat, block: seq<Entry>)
    requires OnFile(w, blocks, handles, r)
    ensures var data := Encode(block, r);
      OnFile(w + Stored(data), blocks + [block], handles + [Handle(|w|, |data|)], r)
  {
    hide Encode, Stored, BlockAt;
    var data := Encode(block, r);
    forall i | 0 <= i < |blocks|
      ensures BlockAt(w + Stored(data), handles[i], Encode(blocks[i], r))
    {
      BlockAtGrows(w, Stored(data), handles[i], Encode(blocks[i], r));
    }
    BlockAppended(w, data);
  }

  lemma {:induction false} FlushInOrder(entries: seq<Entry>, blocks: seq<seq<Entry>>, block: seq<Entry>)
    requires InOrder(entries, blocks, block)
    ensures InOrder(entries, blocks + [block], [])
  {
  }

  lemma {:induction false} FlushIndex(blocks: seq<seq<Entry>>, seps: seq<bytes>, handles: seq<Handle>, index: seq<Entry>,
                   block: seq<Entry>, key: bytes, h: Handle)
    requires IndexState(blocks, seps, handles, index, block, NoPending, key) && block != []
    ensures IndexState(blocks + [block], seps, handles + [h], index, [], Pending(h), block[|block| - 1].key)
  {
    hide Less, EncodeHandle;
  }

  lemma {:induction false} AddInOrder(entries: seq<Entry>, blocks: seq<seq<Entry>>, current: seq<Entry>, e: Entry)
    requires InOrder(entries, blocks, current)
    requires entries != [] ==> Less(entries[|entries| - 1].key, e.key)
    ensures InOrder(entries + [e], blocks, current + [e])
  {
    hide Less, Flatten;
    forall i | 0 <= i < |entries|
      ensures Less(entries[i].key, e.key)
    {
      if i < |entries| - 1 {
        LessTransitive(entries[i].key, entries[|entries| - 1].key, e.key);
      }
    }
  }

  /** With a separator chosen for the pending block, the new entry opens the next block. */
  lemma {:induction false} AddAfterPending(blocks: seq<seq<Entry>>, seps: seq<bytes>, handles: seq<Handle>, index: seq<Entry>,
                        h: Handle, key: bytes, sep: bytes, e: Entry)
    requires IndexState(blocks, seps, handles, index, [], Pending(h), key)
    requires LessEq(key, sep) && Less(sep, e.key)
    ensures IndexState(blocks, seps + [sep], handles, index + [IndexEntry(sep, h)], [e], NoPending, key)
  {
  }

  lemma {:induction false} AddToBlock(blocks: seq<seq<Entry>>, seps: seq<bytes>, handles: seq<Handle>, index: seq<Entry>,
                   current: seq<Entry>, key: bytes, e: Entry)
    requires IndexState(blocks, seps, handles, index, current, NoPending, key)
    ensures IndexState(blocks, seps, handles, index, current + [e], NoPending, key)
  {
  }

  /** The last key before a pending block's end is the largest so far. */
  lemma {:induction false} PendingKeyIsLast(entries: seq<Entry>, blocks: seq<seq<Entry>>, seps: seq<bytes>, handles: seq<Handle>,
                         index: seq<Entry>, current: seq<Entry>, h: Handle, key: bytes)
    requires InOrder(entries, blocks, current) && IndexState(blocks, seps, handles, index, current, Pending(h), key)
    ensures current == [] && entries != [] && key == entries[|entries| - 1].key
  {
  }

  lemma {:induction false} KeysMore(es: seq<Entry>, e: Entry)
    ensures Keys(es + [e]) == Keys(es) + [e.key]
  {
  }

  /** Add rejects what is not above the previous key, except that "no previous key" and "previous
      key empty" look alike: the empty key would be taken twice. */
  predicate Rejects(prevKey: bytes, key: bytes) {
    prevKey != [] && !Less(prevKey, key)
  }

  /** The order check is right exactly unless the previous and the new key are both empty. */
  lemma {:induction false} OrderCheckIff(entries: seq<Entry>, prev: bytes, smallest: bytes, largest: bytes, key: bytes)
    requires KeyRange(entries, prev, smallest, largest)
    ensures (Rejects(prev, key) <==> entries != [] && !Less(entries[|entries| - 1].key, key))
       <==> !(entries != [] && prev == [] && key == [])
  {
    hide Less;
    LessIrreflexive([]);
    if key != [] {
      EmptyIsLeast(key);
    }
  }

  class Writer {
    /** The file so far. */
    var w: bytes
    var offset: nat
    var dataBlock: BlockWriter
    var indexBlock: BlockWriter
    var bloom: Bloom.BloomWriter
    const blockSize: nat
    var keyCount: nat
    var smallestKey: bytes
    var largestKey: bytes
    /** The last key added; Go's nil and the empty key look alike here and there. */
    var prevKey: bytes
    var pendingHandle: Pending
    var pendingKey: bytes
    var dataBlockCount: nat

    ghost const r: nat
    /** Everything added so far. */
    ghost var entries: seq<Entry>
    ghost var blocks: seq<seq<Entry>>
    ghost var seps: seq<bytes>
    ghost var handles: seq<Handle>

    ghost predicate Parts()
      reads this`dataBlock, this`indexBlock, this`bloom, this`entries, dataBlock, indexBlock, bloom
    {
      && r > 0 && dataBlock != indexBlock
      && dataBlock.Valid() && dataBlock.restartInterval == r
      && indexBlock.Valid() && indexBlock.restartInterval == 1
      && bloom.Valid() && bloom.keys == Keys(entries)
    }

    /** Everything but the key range, which Add brings up to date last. */
    ghost predicate Core()
      reads this`w, this`offset, this`dataBlock, this`indexBlock, this`bloom, this`keyCount, this`pendingHandle,
        this`pendingKey, this`dataBlockCount, this`entries, this`blocks, this`seps, this`handles,
        dataBlock, indexBlock, bloom
    {
      && Parts()
      && offset == |w| && dataBlockCount == |blocks| && keyCount == |entries|
      && OnFile(w, blocks, handles, r)
      && InOrder(entries, blocks, dataBlock.entries)
      && IndexState(blocks, seps, handles, indexBlock.entries, dataBlock.entries, pendingHandle, pendingKey)
    }

    ghost predicate Valid()
      reads this, dataBlock, indexBlock, bloom
    {
      && Core() && KeyRange(entries, prevKey, smallestKey, largestKey)
      && Cut(blocks, dataBlock.entries, r, blockSize)
    }

    constructor (blockSize: nat, restartInterval: nat, bitsPerKey: nat, numProbes: nat)
      requires blockSize > 0 && restartInterval > 0 && bitsPerKey > 0 && 1 <= numProbes <= 30
      ensures Valid() && entries == [] && r == restartInterval && this.blockSize == blockSize && blocks == []
      ensures fresh(dataBlock) && fresh(indexBlock) && fresh(bloom)
    {
      hide Body, Restarts, Less, EncodeHandle;
      dataBlock := new BlockWriter(restartInterval);
      indexBlock := new BlockWriter(1);
      bloom := new Bloom.BloomWriter(bitsPerKey, numProbes);
      this.blockSize := blockSize;
      w, offset, keyCount, dataBlockCount := [], 0, 0, 0;
      smallestKey, largestKey, prevKey, pendingKey := [], [], [], [];
      pendingHandle := NoPending;
      r, entries, blocks, seps, handles := restartInterval, [], [], [], [];
    }

    /** writeBlock: data, type byte, checksum. */
    method WriteBlock(data: bytes) returns (h: Handle)
      requires offset == |w|
      modifies this`w, this`offset
      ensures offset == |w| && w == old(w) + Stored(data)
      ensures h == Handle(|old(w)|, |data|) && BlockAt(w, h, data)
    {
      hide Checksum, LE;
      h := Handle(offset, |data|);
      BlockAppended(w, data);
      w := w + Stored(data);
      offset := offset + |data| + TRAILER_SIZE;
    }

    /** Add: the entry goes to the open data block; a full block goes to the file. */
    method Add(key: bytes, value: bytes) returns (res: WriteResult)
      requires Valid() && !(entries != [] && prevKey == [] && key == [])
      modifies this, dataBlock, indexBlock, bloom
      ensures Valid() && dataBlock == old(dataBlock) && indexBlock == old(indexBlock) && bloom == old(bloom)
      ensures res == OutOfOrder <==> old(entries) != [] && !Less(old(entries)[|old(entries)| - 1].key, key)
      ensures entries == if res == Done then old(entries) + [Entry(key, value)] else old(entries)
      ensures res == OutOfOrder ==> w == old(w)
    {
      hide Core, Less, Cut;
      var above := IsAbove(key);
      if !above {
        return OutOfOrder;
      }
      TrackRange(key);
      AddEntry(key, value);
      FlushWhenFull();
      prevKey := key;
      res := Done;
    }

    /** A block that has reached its size goes to the file. */
    method FlushWhenFull()
      requires Core() && dataBlock.entries != [] && pendingHandle == NoPending
      requires Cut(blocks, dataBlock.entries[..|dataBlock.entries| - 1], r, blockSize)
      modifies this`w, this`offset, this`pendingHandle, this`pendingKey, this`dataBlockCount,
        this`blocks, this`handles, dataBlock
      ensures Core() && Cut(blocks, dataBlock.entries, r, blockSize)
    {
      hide Core, Cut, Parts, OnFile, IndexState, InOrder;
      BlockSize(this);
      CutAdded(blocks, dataBlock.entries[..|dataBlock.entries| - 1], dataBlock.entries[|dataBlock.entries| - 1], r, blockSize);
      assert dataBlock.entries[..|dataBlock.entries| - 1] + [dataBlock.entries[|dataBlock.entries| - 1]] == dataBlock.entries;
      if dataBlock.EstimatedSize() >= blockSize {
        FlushDataBlock();
      }
    }

    /** The order check of Add. */
    method IsAbove(key: bytes) returns (above: bool)
      requires Valid() && !(entries != [] && prevKey == [] && key == [])
      ensures above <==> !Rejects(prevKey, key)
      ensures above <==> (entries != [] ==> Less(entries[|entries| - 1].key, key))
    {
      hide Core;
      OrderCheckIff(entries, prevKey, smallestKey, largestKey, key);
      if prevKey == [] {
        return true;
      }
      var c := CompareKeys(key, prevKey);
      LessTotal(key, prevKey);
      above := c > 0;
    }

    method TrackRange(key: bytes)
      requires Valid()
      modifies this`smallestKey, this`largestKey
      ensures smallestKey == (if entries == [] then key else entries[0].key) && largestKey == key
    {
      hide Parts, OnFile, InOrder, IndexState;
      if keyCount == 0 {
        smallestKey := key;
      }
      largestKey := key;
    }

    method AddEntry(key: bytes, value: bytes)
      requires Core() && (entries != [] ==> Less(entries[|entries| - 1].key, key))
      modifies this`seps, this`pendingHandle, this`keyCount, this`entries, dataBlock, indexBlock, bloom
      ensures Core() && entries == old(entries) + [Entry(key, value)]
      ensures dataBlock.entries == old(dataBlock.entries) + [Entry(key, value)] && pendingHandle == NoPending
    {
      hide Block.BlockWriter.Valid, Bloom.BloomWriter.Valid, OnFile, InOrder, IndexState, Less, Keys;
      ghost var e := Entry(key, value);
      AddInOrder(entries, blocks, dataBlock.entries, e);
      ResolvePending(key, e);
      KeysMore(entries, e);
      dataBlock.Add(key, value);
      bloom.AddKey(key);
      keyCount := keyCount + 1;
      entries := entries + [e];
    }

    /** A block flushed before gets its separator once the next key is known. */
    method ResolvePending(key: bytes, ghost e: Entry)
      requires Core() && e.key == key && (entries != [] ==> Less(entries[|entries| - 1].key, key))
      modifies this`seps, this`pendingHandle, indexBlock
      ensures indexBlock.Valid() && pendingHandle == NoPending
      ensures IndexState(blocks, seps, handles, indexBlock.entries, dataBlock.entries + [e], NoPending, pendingKey)
    {
      hide Body, Restarts, OnFile, InOrder, IndexState, Less, Encode, EncodeHandle, Keys;
      if pendingHandle == NoPending {
        AddToBlock(blocks, seps, handles, indexBlock.entries, dataBlock.entries, pendingKey, e);
        return;
      }
      PendingKeyIsLast(entries, blocks, seps, handles, indexBlock.entries, dataBlock.entries,
                       pendingHandle.handle, pendingKey);
      var sep := ShortSeparator(pendingKey, key);
      AddAfterPending(blocks, seps, handles, indexBlock.entries, pendingHandle.handle, pendingKey, sep, e);
      assert dataBlock.entries + [e] == [e];
      indexBlock.Add(sep, EncodeHandle(pendingHandle.handle));
      seps := seps + [sep];
      pendingHandle := NoPending;
    }

    method FlushDataBlock()
      requires Core() && dataBlock.entries != [] && pendingHandle == NoPending
      modifies this`w, this`offset, this`pendingHandle, this`pendingKey, this`dataBlockCount,
        this`blocks, this`handles, dataBlock
      ensures Core() && dataBlock.entries == [] && pendingHandle != NoPending
      ensures blocks == old(blocks) + [old(dataBlock.entries)]
    {
      hide Encode, Stored, OnFile, InOrder, KeyRange, IndexState, BlockAt, Keys, Block.BlockWriter.Valid, Bloom.BloomWriter.Valid;
      dataBlock.LastKey();
      ghost var block := dataBlock.entries;
      FlushOnFile(w, blocks, handles, r, block);
      FlushInOrder(entries, blocks, block);
      FlushIndex(blocks, seps, handles, indexBlock.entries, block, pendingKey, Handle(|w|, |Encode(block, r)|));
      var data := dataBlock.Finish();
      var h := WriteBlock(data);
      pendingHandle := Pending(h);
      pendingKey := dataBlock.prevKey;
      dataBlock.Reset();
      dataBlockCount := dataBlockCount + 1;
      blocks, handles := blocks + [block], handles + [h];
    }

    /** The first steps of Close: the last block and its separator. */
    method FinishData()
      requires Valid()
      modifies this`w, this`offset, this`pendingHandle, this`pendingKey, this`dataBlockCount,
        this`blocks, this`handles, this`seps, dataBlock, indexBlock
      ensures indexBlock.Valid() && indexBlock.restartInterval == 1
      ensures offset == |w| && OnFile(w, blocks, handles, r) && dataBlockCount == |blocks|
      ensures Flatten(blocks) == entries && Sorted(entries)
      ensures |seps| == |blocks| && Separated(blocks, seps) && indexBlock.entries == IndexEntries(seps, handles)
      ensures BlocksCut(blocks, r, blockSize)
    {
      hide Block.BlockWriter.Valid, Bloom.BloomWriter.Valid, OnFile, Less, Flatten, EncodeHandle, Sorted, Separated,
        Cut, BlocksCut;
      OpenBlock(this);
      CutClosed(blocks, dataBlock.entries, r, blockSize);
      if dataBlock.nEntries > 0 {
        FlushDataBlock();
      }
      if pendingHandle != NoPending {
        var sep := ShortSuccessor(pendingKey);
        LastSeparator(blocks, seps, handles, indexBlock.entries, pendingHandle.handle, pendingKey, sep);
        indexBlock.Add(sep, EncodeHandle(pendingHandle.handle));
        seps := seps + [sep];
        pendingHandle := NoPending;
      }
    }

    /** The filter block, if there are keys. */
    method WriteFilter(ghost data: seq<(Handle, bytes)>) returns (filter: seq<Handle>, ghost filterData: bytes)
      requires bloom.Valid() && bloom.keys == Keys(entries) && offset == |w| && AllAt(w, data)
      modifies this`w, this`offset
      ensures offset == |w| && |filter| <= 1 && (filter == [] <==> entries == [])
      ensures filter == [] ==> AllAt(w, data)
      ensures filter != [] ==> AllAt(w, data + [(filter[0], filterData)]) && |filterData| <= |w|
      ensures filter != [] && |filterData| < TWO_32 ==> FilterGood(filterData, entries)
    {
      hide Bloom.Decode, Bloom.ExactBits, Bloom.MayContain, Stored, BlockAt, AllAt;
      var fd := bloom.Finish();
      filterData := fd;
      if fd == [] {
        return [], [];
      }
      GoodFilter(fd, bloom.hashes, bloom.keys, bloom.bitsPerKey, bloom.numProbes, entries);
      AllAtAppend(w, data, fd);
      var h := WriteBlock(fd);
      filter := [h];
    }

    /** The blocks behind the filter and the footer. */
    method WriteTail(filter: seq<Handle>, ghost data: seq<(Handle, bytes)>) returns (ghost L: Layout)
      requires |filter| <= 1 && indexBlock.Valid() && offset == |w| && AllAt(w, data)
      modifies this`w, this`offset, indexBlock
      ensures |old(w)| <= |w| && (|w| < TWO_32 ==> offset == |w|)
      ensures AllAt(w, data + [(L.index, Encode(old(indexBlock.entries), indexBlock.restartInterval)),
                               (L.meta, Encode(MetaEntries(filter, L.props), 1))])
      ensures BlockAt(w, L.props, PropsData(keyCount, dataBlockCount))
      ensures |w| < TWO_32 ==> HasFooter(w, L.meta, L.index)
    {
      hide Encode, Stored, Body, Restarts, EncodeHandle, BlockAt, AllAt, Footer, HasFooter, MetaEntries, PropsData;
      var indexData := indexBlock.Finish();
      AllAtAppend(w, data, indexData);
      var index := WriteBlock(indexData);
      ghost var hs := data + [(index, indexData)];

      var propsData := PropsBlock(keyCount, dataBlockCount);
      AllAtGrows(w, Stored(propsData), hs);
      var props := WriteBlock(propsData);

      var metaData := MetaBlock(filter, props);
      AllAtAppend(w, hs, metaData);
      BlockAtGrows(w, Stored(metaData), props, propsData);
      var meta := WriteBlock(metaData);
      assert hs + [(meta, metaData)] == data + [(index, indexData), (meta, metaData)];

      AllAtGrows(w, Footer(meta, index), hs + [(meta, metaData)]);
      FooterWritten(w, meta, index);
      BlockAtGrows(w, Footer(meta, index), props, propsData);
      w := w + Footer(meta, index);
      offset := offset + FOOTER_SIZE;
      L := Layout([], [], [], 1, filter, [], index, props, meta);
    }

    /** Close: the finished file is a table of exactly the entries added. */
    method Close() returns (meta: TableMeta, ghost L: Layout)
      requires Valid()
      modifies this, dataBlock, indexBlock
      ensures entries == old(entries)
      ensures |w| < TWO_32 ==> IsTable(w, L) && Flatten(L.blocks) == entries && meta.size == |w|
      ensures meta.keyCount == |entries| && meta.dataBlockCount == |L.blocks|
      ensures L.r == r && BlocksCut(L.blocks, r, blockSize)
      ensures BlockAt(w, L.props, PropsData(|entries|, |L.blocks|))
      ensures entries != [] ==>
        meta.smallestKey == entries[0].key && meta.largestKey == entries[|entries| - 1].key
    {
      hide Encode, Stored, BlockAt, AllAt, Flatten, Separated, Sorted, IndexEntries, MetaEntries, FilterGood,
        HasFooter, Block.BlockWriter.Valid, Bloom.BloomWriter.Valid, EncodeHandle, OnFile, IsTable, Cut, BlocksCut, PropsData;
      ghost var n := |entries|;
      FinishData();
      PlacedAt(w, blocks, handles, r);
      ghost var data := Placed(blocks, handles, r);
      ghost var filterData;
      var filter;
      filter, filterData := WriteFilter(data);
      L := WriteTail(filter, FilterPlaced(data, filter, filterData));
      L := L.(blocks := blocks, seps := seps, handles := handles, r := r, filter := filter, filterData := filterData);
      if |w| < TWO_32 {
        Assemble(w, L, entries);
      }
      meta := TableMeta(offset, keyCount, smallestKey, largestKey, dataBlockCount);
    }
  }

  lemma {:induction false} BlockSize(wr: Writer)
    requires wr.Core()
    ensures wr.dataBlock.EstimatedSize() == |Encode(wr.dataBlock.entries, wr.r)|
  {
    hide Block.BlockWriter.Valid;
    wr.dataBlock.EstimateExact();
  }

  /** An open data block and a pending handle exclude each other. */
  lemma {:induction false} OpenBlock(wr: Writer)
    requires wr.Core()
    ensures wr.dataBlock.nEntries == |wr.dataBlock.entries|
    ensures wr.dataBlock.entries != [] ==> wr.pendingHandle == NoPending
    ensures wr.dataBlock.entries == [] && wr.pendingHandle == NoPending ==> wr.blocks == []
  {
  }

  lemma {:induction false} LastSeparator(blocks: seq<seq<Entry>>, seps: seq<bytes>, handles: seq<Handle>, index: seq<Entry>,
                      h: Handle, key: bytes, sep: bytes)
    requires IndexState(blocks, seps, handles, index, [], Pending(h), key) && LessEq(key, sep)
    ensures |seps| + 1 == |blocks| && Separated(blocks, seps + [sep])
    ensures index + [IndexEntry(sep, h)] == IndexEntries(seps + [sep], handles)
  {
  }

  lemma {:induction false} EmptyIsLeast(key: bytes)
    requires key != []
    ensures Less([], key)
  {
  }

  function PropsData(keyCount: nat, dataBlockCount: nat): bytes {
    Encode([Entry(Ascii("indexedwatch.key_count"), Decimal(keyCount)),
            Entry(Ascii("indexedwatch.data_blocks"), Decimal(dataBlockCount))], 1)
  }

  /** The properties block: two counters in decimal. */
  method PropsBlock(keyCount: nat, dataBlockCount: nat) returns (data: bytes)
    ensures data == PropsData(keyCount, dataBlockCount)
  {
    hide Encode, Decimal, Ascii, Block.BlockWriter.Valid;
    var b := new BlockWriter(1);
    b.Add(Ascii("indexedwatch.key_count"), Decimal(keyCount));
    b.Add(Ascii("indexedwatch.data_blocks"), Decimal(dataBlockCount));
    assert b.entries == [Entry(Ascii("indexedwatch.key_count"), Decimal(keyCount)),
                         Entry(Ascii("indexedwatch.data_blocks"), Decimal(dataBlockCount))];
    data := b.Finish();
  }

  method MetaBlock(filter: seq<Handle>, props: Handle) returns (data: bytes)
    requires |filter| <= 1
    ensures data == Encode(MetaEntries(filter, props), 1)
  {
    hide Encode, EncodeHandle, Block.BlockWriter.Valid;
    var b := new BlockWriter(1);
    if filter != [] {
      b.Add(FILTER_NAME, EncodeHandle(filter[0]));
    }
    b.Add(PROPS_NAME, EncodeHandle(props));
    assert b.entries == MetaEntries(filter, props);
    data := b.Finish();
  }

  lemma {:induction false} FooterWritten(w: bytes, meta: Handle, index: Handle)
    requires meta.offset <= |w| && meta.length <= |w| && index.offset <= |w| && index.length <= |w|
    ensures |w + Footer(meta, index)| < TWO_32 ==>
      HasFooter(w + Footer(meta, index), meta, index) && |Footer(meta, index)| == FOOTER_SIZE
  {
    hide Footer, EncodeHandle, DecodeHandle;
    var f := Footer(meta, index);
    if |w + f| < TWO_32 {
      FooterHasRoom(meta, index);
      FooterReads(meta, index);
      AtConcat(w + f, 0, w, f);
    }
  }

  lemma {:induction false} GoodFilter(fd: bytes, hashes: seq<u32>, keys: seq<bytes>, bitsPerKey: nat, numProbes: nat, es: seq<Entry>)
    requires keys == Keys(es) && |hashes| == |keys| && forall k :: 0 <= k < |keys| ==> hashes[k] == Bloom.BloomHash(keys[k])
    requires var n := Bloom.NLines(|keys|, bitsPerKey);
      && |fd| == n * Bloom.LINE_SIZE + 5
      && (n < TWO_32 ==>
            var f := Bloom.Decode(fd);
            && f.Some? && f.filter.numProbes == numProbes && f.filter.nLines == n
            && |f.filter.data| == n * Bloom.LINE_SIZE && Bloom.ExactBits(f.filter.data, hashes, n, numProbes))
    ensures |fd| < TWO_32 ==> FilterGood(fd, es)
  {
  }

  /** Data blocks and their places, as one list. */
  ghost function Placed(blocks: seq<seq<Entry>>, handles: seq<Handle>, r: nat): (hs: seq<(Handle, bytes)>)
    requires r > 0 && |handles| == |blocks|
    ensures |hs| == |blocks| && forall i :: 0 <= i < |hs| ==> hs[i] == (handles[i], Encode(blocks[i], r))
  {
    seq(|blocks|, i requires 0 <= i < |blocks| => (handles[i], Encode(blocks[i], r)))
  }

  ghost function FilterPlaced(data: seq<(Handle, bytes)>, filter: seq<Handle>, filterData: bytes): seq<(Handle, bytes)>
    requires |filter| <= 1
  {
    if filter == [] then data else data + [(filter[0], filterData)]
  }

  lemma {:induction false} PlacedAt(w: bytes, blocks: seq<seq<Entry>>, handles: seq<Handle>, r: nat)
    requires OnFile(w, blocks, handles, r)
    ensures r > 0 && |handles| == |blocks| && AllAt(w, Placed(blocks, handles, r))
  {
  }

  /** All parts in their places make a table. */
  lemma {:induction false} Assemble(w: bytes, L: Layout, es: seq<Entry>)
    requires L.r > 0 && |L.blocks| == |L.handles| == |L.seps| && |L.filter| <= 1
    requires AllAt(w, FilterPlaced(Placed(L.blocks, L.handles, L.r), L.filter, L.filterData)
                      + [(L.index, Encode(IndexEntries(L.seps, L.handles), 1)),
                         (L.meta, Encode(MetaEntries(L.filter, L.props), 1))])
    requires |w| < TWO_32 && HasFooter(w, L.meta, L.index)
    requires Sorted(Flatten(L.blocks)) && Separated(L.blocks, L.seps) && Flatten(L.blocks) == es
    requires (L.filter == [] <==> es == []) && (L.filter != [] ==> FilterGood(L.filterData, es))
    ensures IsTable(w, L)
  {
    hide Encode, BlockAt, IndexEntries, MetaEntries, FilterGood, Less, Flatten, HasFooter;
    var n := |L.blocks|;
    var hs := FilterPlaced(Placed(L.blocks, L.handles, L.r), L.filter, L.filterData)
              + [(L.index, Encode(IndexEntries(L.seps, L.handles), 1)),
                 (L.meta, Encode(MetaEntries(L.filter, L.props), 1))];
    assert forall i :: 0 <= i < n ==> hs[i] == (L.handles[i], Encode(L.blocks[i], L.r));
    assert hs[|hs| - 2] == (L.index, Encode(IndexEntries(L.seps, L.handles), 1));
    assert hs[|hs| - 1] == (L.meta, Encode(MetaEntries(L.filter, L.props), 1));
    assert L.filter != [] ==> hs[n] == (L.filter[0], L.filterData);
    EmptyTable(L);
    FooterPresent(w, L.meta, L.index);
  }

  lemma {:induction false} FooterPresent(w: bytes, meta: Handle, index: Handle)
    requires HasFooter(w, meta, index)
    ensures |w| >= FOOTER_SIZE
  {
  }

  lemma {:induction false} EmptyTable(L: Layout)
    requires |L.seps| <= |L.blocks| && Separated(L.blocks, L.seps)
    ensures L.blocks == [] <==> Flatten(L.blocks) == []
  {
  }
}
