/** Writer and reader put together. */
module TableRoundTrip {
  import opened Bytes
  import opened Binary
  import opened Block
  import opened TableFormat
  import opened TableReader
  import opened TableWriter

  /** Adds the entries one by one and closes the writer, as flush and compaction do. */
  method WriteTable(es: seq<Entry>, blockSize: nat, r: nat, bitsPerKey: nat, numProbes: nat)
    returns (file: bytes, meta: TableMeta, ghost L: Layout)
    requires Sorted(es) && blockSize > 0 && r > 0 && bitsPerKey > 0 && 1 <= numProbes <= 30
    ensures |file| < TWO_32 ==> IsTable(file, L) && Flatten(L.blocks) == es && meta.size == |file|
    ensures meta.keyCount == |es| && L.r == r && BlocksCut(L.blocks, r, blockSize)
    ensures es != [] ==> meta.smallestKey == es[0].key && meta.largestKey == es[|es| - 1].key
  {
    hide IsTable, Less, Flatten, Writer.Core, Cut, BlocksCut;
    var wr := new Writer(blockSize, r, bitsPerKey, numProbes);
    var i := 0;
    while i < |es|
      invariant 0 <= i <= |es| && wr.Valid() && wr.entries == es[..i] && wr.r == r && wr.blockSize == blockSize
      invariant fresh(wr) && fresh(wr.dataBlock) && fresh(wr.indexBlock) && fresh(wr.bloom)
    {
      if i > 0 {
        NotEmptyKey(es[i - 1].key, es[i].key);
      }
      assert es[..i] + [es[i]] == es[..i + 1];
      var res := wr.Add(es[i].key, es[i].value);
      i := i + 1;
    }
    assert es[..i] == es;
    meta, L := wr.Close();
    file := wr.w;
  }

  lemma {:induction false} NotEmptyKey(a: bytes, b: bytes)
    requires Less(a, b)
    ensures b != []
  {
  }

  /** A table read back from the bytes written holds exactly the entries, in order. */
  method WriteThenScan(es: seq<Entry>, blockSize: nat, r: nat, bitsPerKey: nat, numProbes: nat)
    returns (file: bytes, got: seq<Entry>, ghost L: Layout)
    requires Sorted(es) && blockSize > 0 && r > 0 && bitsPerKey > 0 && 1 <= numProbes <= 30
    ensures |file| < TWO_32 ==> IsTable(file, L) && got == Flatten(L.blocks) == es
  {
    hide IsTable, Less, Flatten, Reader.Valid;
    var meta;
    file, meta, L := WriteTable(es, blockSize, r, bitsPerKey, numProbes);
    got := [];
    if |file| < TWO_32 {
      var reader := Open(file, L);
      got := Scan(reader.value);
    }
  }

  /** Looking a key up in the bytes written gives its value exactly when it was written. */
  method WriteThenGet(es: seq<Entry>, blockSize: nat, r: nat, bitsPerKey: nat, numProbes: nat, key: bytes)
    returns (file: bytes, res: ReadResult<bytes>, ghost L: Layout)
    requires Sorted(es) && blockSize > 0 && r > 0 && bitsPerKey > 0 && 1 <= numProbes <= 30
    ensures |file| < TWO_32 ==> IsTable(file, L) && Flatten(L.blocks) == es
    ensures |file| < TWO_32 ==>
      || (res.Ok? && Entry(key, res.value) in es)
      || (res == NotFound && forall e :: e in es ==> e.key != key)
  {
    hide IsTable, Less, Flatten, Reader.Valid;
    var meta;
    file, meta, L := WriteTable(es, blockSize, r, bitsPerKey, numProbes);
    res := NotFound;
    if |file| < TWO_32 {
      var reader := Open(file, L);
      res := reader.value.Get(key);
    }
  }
}
