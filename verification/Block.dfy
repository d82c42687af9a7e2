/** SSTable blocks: prefix-compressed entries followed by the offsets of the restart points. */
module Block {
  import opened Bytes
  import opened Binary
  import opened ModArith

  datatype Entry = Entry(key: bytes, value: bytes)

  // ---- the format

  /** How much of a key the previous entry supplies: nothing at a restart point. */
  function SharedLen(es: seq<Entry>, r: nat, i: nat): (n: nat)
    requires r > 0 && i < |es|
    ensures n <= |es[i].key|
  {
    if i % r == 0 then 0 else if i == 0 then 0 else Lcp(es[i - 1].key, es[i].key)
  }

  function EntryBytes(shared: nat, e: Entry): (b: bytes)
    requires shared <= |e.key|
    ensures |b| > 0
  {
    Put(shared) + Put(|e.key| - shared) + Put(|e.value|) + e.key[shared..] + e.value
  }

  /** The first n entries, encoded one after the other. */
  function Body(es: seq<Entry>, r: nat, n: nat): bytes
    requires r > 0 && n <= |es|
  {
    if n == 0 then [] else Body(es, r, n - 1) + EntryBytes(SharedLen(es, r, n - 1), es[n - 1])
  }

  /** Restart offsets are stored in 32 bits. */
  function Restarts(es: seq<Entry>, r: nat, n: nat): seq<nat>
    requires r > 0 && n <= |es|
  {
    if n == 0 then []
    else Restarts(es, r, n - 1) + if (n - 1) % r == 0 then [|Body(es, r, n - 1)| % TWO_32] else []
  }

  function Offsets(rs: seq<nat>): (b: bytes)
    ensures |b| == 4 * |rs|
  {
    if rs == [] then [] else Offsets(rs[..|rs| - 1]) + LE(rs[|rs| - 1], 4)
  }

  /** A finished block. */
  function Encode(es: seq<Entry>, r: nat): bytes
    requires r > 0
  {
    var rs := Restarts(es, r, |es|);
    Body(es, r, |es|) + Offsets(rs) + LE(|rs| % TWO_32, 4)
  }

  /** What a reader relies on: the block fits 32-bit offsets. */
  ghost predicate Fits(es: seq<Entry>, r: nat)
    requires r > 0
  {
    |Encode(es, r)| < TWO_32
  }

  function Keys(es: seq<Entry>): (ks: seq<bytes>)
    ensures |ks| == |es| && forall i :: 0 <= i < |es| ==> ks[i] == es[i].key
  {
    seq(|es|, i requires 0 <= i < |es| => es[i].key)
  }

  ghost predicate Sorted(es: seq<Entry>) {
    forall i, j :: 0 <= i < j < |es| ==> Less(es[i].key, es[j].key)
  }

  /** The position of the first entry not below the key, or the number of entries. */
  ghost predicate IsFirstGE(es: seq<Entry>, key: bytes, pos: nat) {
    && pos <= |es|
    && (forall i :: 0 <= i < pos ==> Less(es[i].key, key))
    && (pos < |es| ==> !Less(es[pos].key, key))
  }

  // ---- facts about the format

  lemma {:induction false} BodyOfPrefix(es: seq<Entry>, fs: seq<Entry>, r: nat, n: nat)
    requires r > 0 && n <= |es| <= |fs| && fs[..|es|] == es
    ensures Body(fs, r, n) == Body(es, r, n) && Restarts(fs, r, n) == Restarts(es, r, n)
  {
    if n > 0 {
      BodyOfPrefix(es, fs, r, n - 1);
      assert fs[n - 1] == fs[..|es|][n - 1];
      if n > 1 {
        assert fs[n - 2] == fs[..|es|][n - 2];
      }
    }
  }

  /** Entry i lies at offset |Body(i)| of every longer body. */
  lemma {:induction false} EntryAt(es: seq<Entry>, r: nat, i: nat, n: nat)
    requires r > 0 && i < n <= |es|
    ensures |Body(es, r, i)| < |Body(es, r, i + 1)| <= |Body(es, r, n)|
    ensures |Body(es, r, i + 1)| == |Body(es, r, i)| + |EntryBytes(SharedLen(es, r, i), es[i])|
    ensures At(Body(es, r, n), |Body(es, r, i)|, EntryBytes(SharedLen(es, r, i), es[i]))
    decreases n
  {
    hide EntryBytes, SharedLen;
    if i + 1 < n {
      EntryAt(es, r, i, n - 1);
      var b := Body(es, r, n - 1);
      AtConcat(Body(es, r, n), 0, b, EntryBytes(SharedLen(es, r, n - 1), es[n - 1]));
      AtInside(Body(es, r, n), 0, b, |Body(es, r, i)|, EntryBytes(SharedLen(es, r, i), es[i]));
    }
  }

  /** m restarts cover n entries: the next entry starts a new one exactly at m * r. */
  lemma {:induction false} CoverStep(m: nat, n: nat, r: nat)
    requires r > 0 && n <= m * r && (n > 0 ==> m > 0 && (m - 1) * r < n) && (n == 0 ==> m == 0)
    ensures n % r == 0 <==> n == m * r
    ensures (m + 1) * r == m * r + r && n + 1 <= (m + 1) * r
    ensures n % r != 0 ==> n + 1 <= m * r
  {
    if n % r == 0 {
      var q := n / r;
      assert n == q * r;
      assert (m - q) * r == m * r - q * r;
      assert (m - 1 - q) * r == (m - 1) * r - q * r;
      MultipleGrows(m - q, r);
      MultipleGrows(m - 1 - q, r);
    } else if n == m * r {
      ModOfMultiple(m, r);
    }
  }

  /** Restart k is the offset of entry k * r, and there are just enough of them. */
  lemma {:induction false} RestartsAt(es: seq<Entry>, r: nat, n: nat)
    requires r > 0 && n <= |es|
    ensures var m := |Restarts(es, r, n)|;
      && n <= m * r && (n > 0 ==> m > 0 && (m - 1) * r < n) && (n == 0 ==> m == 0)
    ensures forall k :: 0 <= k < |Restarts(es, r, n)| ==>
      0 <= k * r < n && Restarts(es, r, n)[k] == |Body(es, r, k * r)| % TWO_32
  {
    hide Body;
    if n > 0 {
      RestartsAt(es, r, n - 1);
      CoverStep(|Restarts(es, r, n - 1)|, n - 1, r);
    }
  }

  lemma {:induction false} OffsetsAt(rs: seq<nat>, k: nat)
    requires k < |rs|
    ensures At(Offsets(rs), 4 * k, LE(rs[k], 4))
  {
    if k < |rs| - 1 {
      OffsetsAt(rs[..|rs| - 1], k);
      AtConcat(Offsets(rs), 0, Offsets(rs[..|rs| - 1]), LE(rs[|rs| - 1], 4));
      AtInside(Offsets(rs), 0, Offsets(rs[..|rs| - 1]), 4 * k, LE(rs[k], 4));
    }
  }

  /** Reading the parts of an encoded entry back from an offset of a larger buffer. */
  lemma {:induction false} EntryFields(data: bytes, off: nat, shared: nat, e: Entry)
    requires shared <= |e.key| < TWO_32 && |data| < TWO_32
    requires At(data, off, EntryBytes(shared, e))
    ensures var n1, n2, n3 := |Put(shared)|, |Put(|e.key| - shared)|, |Put(|e.value|)|;
      var o := off + n1 + n2 + n3;
      && Get(data[off..]) == (shared, n1)
      && Get(data[off + n1..]) == (|e.key| - shared, n2)
      && Get(data[off + n1 + n2..]) == (|e.value|, n3)
      && o + |e.key| - shared + |e.value| == off + |EntryBytes(shared, e)|
      && At(data, o, e.key[shared..]) && At(data, o + |e.key| - shared, e.value)
  {
    hide Put, Get;
    var a1, a2, a3 := Put(shared), Put(|e.key| - shared), Put(|e.value|);
    AtConcat(data, off, a1 + a2 + a3 + e.key[shared..], e.value);
    AtConcat(data, off, a1 + a2 + a3, e.key[shared..]);
    AtConcat(data, off, a1 + a2, a3);
    AtConcat(data, off, a1, a2);
    SharedBounds(data, off, shared, e);
    GetPut(data, off, shared);
    GetPut(data, off + |a1|, |e.key| - shared);
    GetPut(data, off + |a1| + |a2|, |e.value|);
  }

  lemma {:induction false} SharedBounds(data: bytes, off: nat, shared: nat, e: Entry)
    requires shared <= |e.key| && |data| < TWO_32 && At(data, off, EntryBytes(shared, e))
    ensures |e.value| < TWO_32
  {
  }

  /** A key is no longer than the bytes written so far: what it shares was written before. */
  lemma {:induction false} KeyLength(es: seq<Entry>, r: nat, i: nat)
    requires r > 0 && i < |es|
    ensures |es[i].key| <= |Body(es, r, i + 1)|
  {
    hide Put, Body;
    EntryAt(es, r, i, i + 1);
    if i % r != 0 && i > 0 {
      KeyLength(es, r, i - 1);
    }
  }

  /** The parts of a finished block: entry bytes, restart offsets, restart count. */
  lemma {:induction false} BlockParts(es: seq<Entry>, r: nat)
    requires r > 0 && Fits(es, r)
    ensures var data, rs, b := Encode(es, r), Restarts(es, r, |es|), |Body(es, r, |es|)|;
      && |data| == b + 4 * |rs| + 4
      && At(data, 0, Body(es, r, |es|)) && At(data, b, Offsets(rs))
      && U32(data, |data| - 4) == |rs|
  {
    hide LE, FromLE, Body, Restarts, Offsets;
    var data, rs := Encode(es, r), Restarts(es, r, |es|);
    var body := Body(es, r, |es|);
    AtConcat(data, 0, body + Offsets(rs), LE(|rs| % TWO_32, 4));
    AtConcat(data, 0, body, Offsets(rs));
    U32Of(data, |data| - 4, |rs|);
  }

  lemma {:induction false} Small(x: nat)
    requires x < TWO_32
    ensures x % TWO_32 == x
  {
  }

  /** getRestart of a finished block: restart k is where entry i = k * r begins. */
  lemma {:induction false} RestartOf(es: seq<Entry>, r: nat, k: nat, i: int)
    requires r > 0 && Fits(es, r) && k < |Restarts(es, r, |es|)| && i == k * r
    ensures 0 <= i < |es|
    ensures var b := |Body(es, r, |es|)|;
      b + 4 * k + 4 <= |Encode(es, r)| && U32(Encode(es, r), b + 4 * k) == |Body(es, r, i)|
  {
    hide LE, FromLE, Body, Restarts, Encode;
    RestartsAt(es, r, |es|);
    StoredRestart(es, r, k, i);
  }

  lemma {:induction false} StoredRestart(es: seq<Entry>, r: nat, k: nat, i: nat)
    requires r > 0 && Fits(es, r) && k < |Restarts(es, r, |es|)| && i < |es|
    requires Restarts(es, r, |es|)[k] == |Body(es, r, i)| % TWO_32
    ensures var b := |Body(es, r, |es|)|;
      b + 4 * k + 4 <= |Encode(es, r)| && U32(Encode(es, r), b + 4 * k) == |Body(es, r, i)|
  {
    hide LE, FromLE, Encode, Body, Restarts, Offsets;
    var data, rs, b := Encode(es, r), Restarts(es, r, |es|), |Body(es, r, |es|)|;
    BlockParts(es, r);
    OffsetsAt(rs, k);
    AtInside(data, b, Offsets(rs), 4 * k, LE(rs[k], 4));
    EntryAt(es, r, i, |es|);
    Small(|Body(es, r, i)|);
    U32Of(data, b + 4 * k, rs[k]);
  }

  /** Entry i of a finished block, field by field. */
  lemma {:induction false} EntryInBlock(es: seq<Entry>, r: nat, i: nat)
    requires r > 0 && Fits(es, r) && i < |es|
    ensures var data, off, s := Encode(es, r), |Body(es, r, i)|, SharedLen(es, r, i);
      var n1, n2, n3 := |Put(s)|, |Put(|es[i].key| - s)|, |Put(|es[i].value|)|;
      var o := off + n1 + n2 + n3;
      && off < |Body(es, r, i + 1)| <= |Body(es, r, |es|)| <= |data|
      && Get(data[off..]) == (s, n1)
      && Get(data[off + n1..]) == (|es[i].key| - s, n2)
      && Get(data[off + n1 + n2..]) == (|es[i].value|, n3)
      && o + |es[i].key| - s + |es[i].value| == |Body(es, r, i + 1)|
      && At(data, o, es[i].key[s..]) && At(data, o + |es[i].key| - s, es[i].value)
  {
    hide Encode, EntryBytes, Body, Restarts, Put, Get, SharedLen;
    var data, off, s := Encode(es, r), |Body(es, r, i)|, SharedLen(es, r, i);
    BlockParts(es, r);
    EntryAt(es, r, i, |es|);
    AtInside(data, 0, Body(es, r, |es|), off, EntryBytes(s, es[i]));
    KeyLength(es, r, i);
    EntryFields(data, off, s, es[i]);
  }

  lemma {:induction false} AddStep(es: seq<Entry>, r: nat, e: Entry)
    requires r > 0
    ensures var fs, n := es + [e], |es|;
      && Body(fs, r, n + 1) == Body(es, r, n) + EntryBytes(SharedLen(fs, r, n), e)
      && Restarts(fs, r, n + 1)
         == Restarts(es, r, n) + (if n % r == 0 then [|Body(es, r, n)| % TWO_32] else [])
  {
    hide EntryBytes;
    BodyOfPrefix(es, es + [e], r, |es|);
  }

  // ---- writer

  /** sharedPrefix: eight bytes at a time, then one by one. */
  method SharedPrefix(a: bytes, b: bytes) returns (i: nat)
    ensures i == Lcp(a, b)
  {
    var n := if |b| < |a| then |b| else |a|;
    i := 0;
    while i + 8 <= n
      invariant i <= n
      invariant forall k :: 0 <= k < i ==> a[k] == b[k]
    {
      if a[i] != b[i] || a[i + 1] != b[i + 1] || a[i + 2] != b[i + 2] || a[i + 3] != b[i + 3] ||
         a[i + 4] != b[i + 4] || a[i + 5] != b[i + 5] || a[i + 6] != b[i + 6] || a[i + 7] != b[i + 7] {
        break;
      }
      i := i + 8;
    }
    while i < n && a[i] == b[i]
      invariant i <= n
      invariant forall k :: 0 <= k < i ==> a[k] == b[k]
    {
      i := i + 1;
    }
  }

  class BlockWriter {
    var buf: bytes
    var restarts: seq<nat>
    var nEntries: nat
    const restartInterval: nat
    var prevKey: bytes
    /** The entries added since the last reset. */
    ghost var entries: seq<Entry>

    ghost predicate Valid()
      reads this
    {
      && restartInterval > 0
      && nEntries == |entries|
      && buf == Body(entries, restartInterval, |entries|)
      && restarts == Restarts(entries, restartInterval, |entries|)
      && prevKey == if entries == [] then [] else entries[|entries| - 1].key
    }

    constructor (restartInterval: nat)
      requires restartInterval > 0
      ensures Valid() && entries == [] && this.restartInterval == restartInterval
    {
      this.restartInterval := restartInterval;
      buf, restarts, nEntries, prevKey := [], [], 0, [];
      entries := [];
    }

    lemma {:induction false} LastKey()
      requires Valid() && entries != []
      ensures prevKey == entries[|entries| - 1].key
    {
    }

    method Reset()
      requires restartInterval > 0
      modifies this
      ensures Valid() && entries == []
    {
      buf, restarts, nEntries, prevKey := [], [], 0, [];
      entries := [];
    }

    method Add(key: bytes, value: bytes)
      requires Valid()
      modifies this
      ensures Valid() && entries == old(entries) + [Entry(key, value)]
    {
      hide Put, Body, Restarts, Lcp;
      var shared := 0;
      if nEntries % restartInterval == 0 {
        restarts := restarts + [|buf| % TWO_32];
      } else {
        shared := SharedPrefix(prevKey, key);
      }
      var unshared := |key| - shared;
      var header := Put(shared) + Put(unshared) + Put(|value|);
      buf := buf + header;
      buf := buf + key[shared..];
      buf := buf + value;
      Reassociate(old(buf), header, key[shared..], value);
      prevKey := key;
      nEntries := nEntries + 1;
      entries := entries + [Entry(key, value)];
      AddStep(old(entries), restartInterval, Entry(key, value));
    }

    /** After finish the buffer holds the whole block; only reset makes the writer usable again. */
    method Finish() returns (block: bytes)
      requires Valid()
      modifies this`buf
      ensures block == buf == Encode(entries, restartInterval)
    {
      ghost var body := buf;
      var i := 0;
      while i < |restarts|
        invariant 0 <= i <= |restarts|
        invariant buf == body + Offsets(restarts[..i])
      {
        assert restarts[..i + 1][..i] == restarts[..i];
        buf := buf + LE(restarts[i], 4);
        i := i + 1;
      }
      assert restarts[..i] == restarts;
      buf := buf + LE(|restarts| % TWO_32, 4);
      block := buf;
    }

    function EstimatedSize(): nat
      reads this
    {
      |buf| + |restarts| * 4 + 4
    }

    /** The estimate is exact. */
    lemma {:induction false} EstimateExact()
      requires Valid()
      ensures EstimatedSize() == |Encode(entries, restartInterval)|
    {
      hide Body, Restarts;
    }
  }

  // ---- reader

  /** The entries end where the body ends. */
  lemma {:induction false} BodyEnd(es: seq<Entry>, r: nat, i: nat)
    requires r > 0 && i <= |es|
    ensures |Body(es, r, i)| >= |Body(es, r, |es|)| <==> i == |es|
  {
    if i < |es| {
      EntryAt(es, r, i, |es|);
    }
  }

  /** Where a seek starts scanning: a restart point, or the end of an empty block. */
  lemma {:induction false} StartOf(es: seq<Entry>, r: nat, k: nat, i: int)
    requires r > 0 && Fits(es, r) && i == k * r
    requires k < |Restarts(es, r, |es|)| || (k == 0 && |Restarts(es, r, |es|)| == 0)
    ensures 0 <= i <= |es| && i % r == 0
    ensures var b := |Body(es, r, |es|)|;
      b + 4 * k + 4 <= |Encode(es, r)| && U32(Encode(es, r), b + 4 * k) == |Body(es, r, i)|
  {
    hide Body, Restarts, Encode, LE, FromLE;
    ModOfMultiple(k, r);
    if k < |Restarts(es, r, |es|)| {
      RestartOf(es, r, k, i);
    } else {
      RestartsAt(es, r, |es|);
      EmptyStartOf(es, r);
    }
  }

  lemma {:induction false} EmptyStartOf(es: seq<Entry>, r: nat)
    requires r > 0 && Fits(es, r) && es == []
    ensures |Body(es, r, 0)| == 0 && |Encode(es, r)| >= 4 && U32(Encode(es, r), 0) == 0
  {
    hide LE, FromLE;
    BlockParts(es, r);
  }

  /** Everything before an entry that is below the target is below it, too. */
  lemma {:induction false} AllBelow(es: seq<Entry>, at: nat, target: bytes)
    requires Sorted(es) && at < |es| && Less(es[at].key, target)
    ensures forall i :: 0 <= i < at ==> Less(es[i].key, target)
  {
  }

  /** Prefix decompression restores the key. */
  lemma {:induction false} Decompress(es: seq<Entry>, r: nat, i: nat, prev: bytes)
    requires r > 0 && i < |es| && (i % r != 0 && i > 0 ==> prev == es[i - 1].key)
    ensures var s := SharedLen(es, r, i); s <= |prev| && prev[..s] + es[i].key[s..] == es[i].key
  {
  }

  /** blockIterator over a finished block; es and r are what the writer was given. */
  /** An array after a key has been written to its front. */
  function Overwrite(key: bytes, buf: bytes): (r: bytes)
    ensures |r| >= |key| && |r| >= |buf| && r[..|key|] == key
  {
    if |key| <= |buf| then key + buf[|key|..] else key
  }

  class BlockIterator {
    const data: bytes
    /** Offset of the restart array, where the entries end. */
    const restarts: nat
    const numRestarts: nat
    var offset: nat
    /** The current key is the front of an array that the next key is appended into while it fits:
        buf is all of that array, and gen tells which one it is. */
    var key: bytes
    var buf: bytes
    var gen: nat
    var val: bytes
    var valid: bool

    ghost const es: seq<Entry>
    ghost const r: nat
    /** The entry that next() decodes; the current entry, if valid, is the one before. */
    ghost var idx: nat

    /** Ready to decode entry idx; the key buffer holds the previous key unless a restart follows. */
    ghost predicate Positioned()
      reads this
    {
      && r > 0 && Fits(es, r) && data == Encode(es, r)
      && restarts == |Body(es, r, |es|)| && numRestarts == |Restarts(es, r, |es|)|
      && idx <= |es| && offset == |Body(es, r, idx)|
      && (idx < |es| && idx % r != 0 ==> idx > 0 && key == es[idx - 1].key)
      && |key| <= |buf| && buf[..|key|] == key
    }

    /** The entry before the one to decode next is in key and val. */
    ghost predicate Current()
      reads this
    {
      0 < idx <= |es| && key == es[idx - 1].key && val == es[idx - 1].value
    }

    ghost predicate Valid()
      reads this
    {
      Positioned() && (valid ==> Current())
    }

    /** Positioned past the end. */
    constructor (data: bytes, ghost es: seq<Entry>, ghost r: nat)
      requires r > 0 && Fits(es, r) && data == Encode(es, r)
      ensures Valid() && this.es == es && this.r == r && !valid && idx == |es|
    {
      BlockParts(es, r);
      this.data := data;
      this.es, this.r, idx := es, r, |es|;
      numRestarts := U32(data, |data| - 4);
      restarts := |data| - 4 - U32(data, |data| - 4) * 4;
      offset := |data| - 4 - U32(data, |data| - 4) * 4;
      key, buf, gen, val, valid := [], [], 0, [], false;
    }

    /** append(key[:shared], suffix): in the same array if the key fits, else in a new array of
        whatever capacity the allocator gives. */
    method AppendKey(shared: nat, suffix: bytes)
      requires shared <= |key| <= |buf| && buf[..|key|] == key
      modifies this`key, this`buf, this`gen
      ensures key == old(key)[..shared] + suffix && |key| <= |buf| && buf[..|key|] == key
      ensures Appended(old(gen), old(buf))
    {
      var k := key[..shared] + suffix;
      if |k| <= |buf| {
        buf := k + buf[|k|..];
      } else {
        var spare: nat :| spare >= 0;
        buf := k + seq(spare, _ => 0);
        gen := gen + 1;
      }
      key := k;
    }

    /** What became of the array: overwritten by the new key exactly if that fits, and otherwise
        left as it was, for whoever still holds a slice of it. */
    ghost predicate Appended(gen0: nat, buf0: bytes)
      reads this
    {
      && gen == (if |key| <= |buf0| then gen0 else gen0 + 1)
      && (|key| <= |buf0| ==> buf == Overwrite(key, buf0))
    }

    /** The three lengths and the two byte runs of the entry at an offset. The guards against a
        varint that does not parse never fire on a written block. */
    method ReadEntry(offset: nat) returns (shared: nat, suffix: bytes, value: bytes, end: nat)
      requires Positioned() && idx < |es| && offset == this.offset
      ensures shared == SharedLen(es, r, idx) && suffix == es[idx].key[shared..]
      ensures value == es[idx].value && end == |Body(es, r, idx + 1)|
    {
      hide Encode, Body, Restarts, EntryBytes, Put, Get, Lcp, Fits, FromLE, SharedLen;
      ghost var e, s := es[idx], SharedLen(es, r, idx);
      EntryInBlock(es, r, idx);
      var o := offset;
      var g := Get(data[o..]);
      if g.1 <= 0 {
        assert false;
      }
      shared, o := g.0, o + g.1;
      g := Get(data[o..]);
      if g.1 <= 0 {
        assert false;
      }
      var unshared := g.0;
      o := o + g.1;
      g := Get(data[o..]);
      if g.1 <= 0 {
        assert false;
      }
      var valueLen := g.0;
      o := o + g.1;
      AtSlice(data, o, e.key[s..]);
      AtSlice(data, o + unshared, e.value);
      suffix := data[o..o + unshared];
      o := o + unshared;
      value := data[o..o + valueLen];
      end := o + valueLen;
    }

    /** Decodes one entry; false exactly at the end of the entries. */
    method Next() returns (ok: bool)
      requires Positioned()
      modifies this`offset, this`key, this`buf, this`gen, this`val, this`valid, this`idx
      ensures Valid() && ok == valid == (old(idx) < |es|) && (ok ==> Current())
      ensures idx == old(idx) + if ok then 1 else 0
      ensures ok ==> Appended(old(gen), old(buf))
      ensures !ok ==> key == old(key) && gen == old(gen) && buf == old(buf)
    {
      hide Encode, Body, Restarts, EntryBytes, Fits, SharedLen;
      BodyEnd(es, r, idx);
      if offset >= restarts {
        valid := false;
        return false;
      }
      Decompress(es, r, idx, key);
      var shared, suffix, value, end := ReadEntry(offset);
      AppendKey(shared, suffix);
      val := value;
      offset := end;
      valid := true;
      idx := idx + 1;
      ok := true;
    }

    /** Positions at the first entry. */
    method First() returns (ok: bool)
      requires Valid()
      modifies this`offset, this`key, this`buf, this`gen, this`val, this`valid, this`idx
      ensures Valid() && ok == valid == (es != []) && (ok ==> Current() && idx == 1)
    {
      offset := 0;
      key := [];
      idx := 0;
      assert 0 % r == 0 && |Body(es, r, 0)| == 0;
      ok := Next();
    }

    /** The whole key stored at restart point k, entry i = k * r. */
    method DecodeKeyAt(offset: nat, ghost k: nat, ghost i: nat) returns (key: bytes)
      requires Valid() && k < numRestarts && i == k * r && i < |es| && offset == |Body(es, r, i)|
      ensures key == es[i].key
    {
      hide Encode, Body, Restarts, EntryBytes, Put, Get, Lcp;
      ModOfMultiple(k, r);
      EntryInBlock(es, r, i);
      assert SharedLen(es, r, i) == 0;
      var o := offset + Get(data[offset..]).1;
      var unshared := Get(data[o..]);
      o := o + unshared.1;
      o := o + Get(data[o..]).1;
      key := data[o..o + unshared.0];
    }

    /** Binary search over the restart points for the last one below the target; the scan starts
        there, or at the first. */
    method SearchRestarts(target: bytes) returns (start: nat, ghost at: nat)
      requires Valid() && Sorted(es)
      ensures at <= |es| && at % r == 0
      ensures restarts + start * 4 + 4 <= |data| && GetRestart(start) == |Body(es, r, at)|
      ensures forall i :: 0 <= i < at ==> Less(es[i].key, target)
    {
      hide Encode, Body, Restarts, EntryBytes, Put, Get, Lcp, Less, FromLE;
      var lo, hi := 0, numRestarts;
      at := 0;
      while lo < hi
        invariant 0 <= lo <= hi <= numRestarts
        invariant lo == 0 ==> at == 0
        invariant lo > 0 ==> at == (lo - 1) * r && at < |es| && Less(es[at].key, target)
      {
        var mid := lo + (hi - lo) / 2;
        ghost var i := mid * r;
        RestartOf(es, r, mid, i);
        var k := DecodeKeyAt(GetRestart(mid), mid, i);
        var c := CompareKeys(k, target);
        if c < 0 {
          lo, at := mid + 1, i;
        } else {
          hi := mid;
        }
      }
      start := if lo - 1 < 0 then 0 else lo - 1;
      if lo > 0 {
        AllBelow(es, at, target);
      }
      StartOf(es, r, start, at);
    }

    /** Binary search, then a linear scan: lands where a scan from the start would land. */
    method SeekGE(target: bytes) returns (ok: bool)
      requires Valid() && Sorted(es)
      modifies this`offset, this`key, this`buf, this`gen, this`val, this`valid, this`idx
      ensures Valid() && ok == valid
      ensures ok ==> Current() && IsFirstGE(es, target, idx - 1)
      ensures !ok ==> IsFirstGE(es, target, |es|)
    {
      hide Encode, Body, Restarts, EntryBytes, Put, Get, Lcp, Less, FromLE, Sorted, Fits;
      ghost var at;
      var start;
      start, at := SearchRestarts(target);
      idx := at;
      offset := GetRestart(start);
      key := [];
      ok := Next();
      while ok
        invariant Valid() && ok == valid
        invariant forall i :: 0 <= i < idx - (if ok then 1 else 0) ==> Less(es[i].key, target)
        invariant !ok ==> idx == |es|
        decreases |es| - idx + if ok then 1 else 0
      {
        var c := CompareKeys(key, target);
        if c >= 0 {
          return true;
        }
        ok := Next();
      }
      valid := false;
      return false;
    }

    function GetRestart(k: nat): nat
      requires restarts + k * 4 + 4 <= |data|
    {
      U32(data, restarts + k * 4)
    }
  }
}
