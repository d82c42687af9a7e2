/** The bloom filter of a table: one 64-byte line per key hash, a few probe bits inside it. */
module Bloom {
  import opened Bytes
  import opened Binary

  const LINE_SIZE := 64

  /** uint32(int8(b)): the byte with its sign extended. */
  function SignExtend(b: byte): u32 {
    if b < 128 then b else 0xFFFF_FF00 + b
  }

  const HASH_SEED := 0xbc9f_1d34
  const HASH_M := 0xc6a4_a793

  /** The four-byte rounds of bloomHash from position i on. */
  function Rounds(key: bytes, i: nat, h: u32): u32
    requires i <= |key|
    decreases |key| - i
  {
    if i + 4 <= |key| then
      var x := Wrap(Wrap(h + U32(key, i)) * HASH_M);
      Rounds(key, i + 4, Xor(x, x / 0x1_0000))
    else
      Tail(key, i, h)
  }

  /** The last one to three bytes. */
  function Tail(key: bytes, i: nat, h: u32): u32
    requires i <= |key| < i + 4
  {
    if i == |key| then h
    else
      var h3 := if |key| - i == 3 then Wrap(h + SignExtend(key[i + 2]) * 0x1_0000) else h;
      var h2 := if |key| - i >= 2 then Wrap(h3 + SignExtend(key[i + 1]) * 0x100) else h3;
      var x := Wrap(Wrap(h2 + SignExtend(key[i])) * HASH_M);
      Xor(x, x / 0x100_0000)
  }

  function BloomHash(key: bytes): u32 {
    Rounds(key, 0, Xor(HASH_SEED, Wrap(|key| * HASH_M)))
  }

  /** bloomHash as the loop computes it. */
  method ComputeHash(key: bytes) returns (h: u32)
    ensures h == BloomHash(key)
  {
    hide Xor, Tail, Wrap;
    h := Xor(HASH_SEED, Wrap(|key| * HASH_M));
    var i := 0;
    while i + 4 <= |key|
      invariant 0 <= i <= |key|
      invariant Rounds(key, i, h) == BloomHash(key)
    {
      h := Wrap(h + U32(key, i));
      h := Wrap(h * HASH_M);
      h := Xor(h, h / 0x1_0000);
      i := i + 4;
    }
    h := Tail(key, i, h);
  }

  // ---- bits

  function Pow2(n: nat): nat {
    if n == 0 then 1 else 2 * Pow2(n - 1)
  }

  /** x & (1 << k) != 0 */
  predicate HasBit(x: nat, k: nat) {
    if k == 0 then x % 2 == 1 else HasBit(x / 2, k - 1)
  }

  /** x | (1 << k) */
  function WithBit(x: nat, k: nat): nat {
    if k == 0 then x - x % 2 + 1 else 2 * WithBit(x / 2, k - 1) + x % 2
  }

  lemma {:induction false} OneBitSet(x: nat, k: nat, m: nat)
    ensures HasBit(WithBit(x, k), m) <==> HasBit(x, m) || m == k
  {
    if k == 0 {
      if m > 0 {
        assert WithBit(x, k) / 2 == x / 2;
      }
    } else {
      assert WithBit(x, k) / 2 == WithBit(x / 2, k - 1) && WithBit(x, k) % 2 == x % 2;
      if m > 0 {
        OneBitSet(x / 2, k - 1, m - 1);
      }
    }
  }

  lemma {:induction false} BitStaysInside(x: nat, k: nat, n: nat)
    requires k < n && x < Pow2(n)
    ensures WithBit(x, k) < Pow2(n)
  {
    var y := x / 2;
    assert x == 2 * y + x % 2 && Pow2(n) == 2 * Pow2(n - 1) && y < Pow2(n - 1);
    if k > 0 {
      BitStaysInside(x / 2, k - 1, n - 1);
    }
  }

  function OrBit(b: byte, k: nat): byte
    requires k < 8
  {
    assert WithBit(b, k) < 256 by {
      assert Pow2(8) == 256 by { assert Pow2(4) == 16; assert Pow2(6) == 64; }
      BitStaysInside(b, k, 8);
    }
    WithBit(b, k)
  }

  lemma {:induction false} NoBits(m: nat)
    ensures !HasBit(0, m)
  {
    if m > 0 {
      NoBits(m - 1);
    }
  }

  /** Bit pos of a byte string, lowest bit of the first byte first. */
  predicate BitAt(data: bytes, pos: nat)
    requires pos / 8 < |data|
  {
    HasBit(data[pos / 8], pos % 8)
  }

  // ---- probes

  /** h>>17 | h<<15: a rotation, so the two parts do not overlap. */
  function Delta(h: u32): u32 {
    h / 0x2_0000 + h % 0x2_0000 * 0x8000
  }

  /** The running hash before probe j. */
  function ProbeHash(h: u32, j: nat): u32 {
    if j == 0 then h else Wrap(ProbeHash(h, j - 1) + Delta(h))
  }

  /** The bit that probe j of a hash tests, in a filter of nLines lines. */
  function ProbeBit(h: u32, nLines: nat, j: nat): (pos: nat)
    requires nLines > 0
    ensures pos / 8 < nLines * LINE_SIZE
  {
    var p := ProbeHash(h, j);
    assert h % nLines < nLines;
    (h % nLines * LINE_SIZE + p / 8 % LINE_SIZE) * 8 + p % 8
  }

  lemma {:induction false} ProbeLocation(h: u32, nLines: nat, j: nat)
    requires nLines > 0
    ensures var p, at := ProbeHash(h, j), h % nLines * LINE_SIZE;
      && at + p / 8 % LINE_SIZE < nLines * LINE_SIZE
      && ProbeBit(h, nLines, j) / 8 == at + p / 8 % LINE_SIZE && ProbeBit(h, nLines, j) % 8 == p % 8
  {
  }

  /** Some probe of one of the hashes sets the bit. */
  ghost predicate SetBy(hashes: seq<u32>, nLines: nat, probes: nat, pos: nat)
    requires nLines > 0
  {
    exists i, j :: 0 <= i < |hashes| && 0 <= j < probes && ProbeBit(hashes[i], nLines, j) == pos
  }

  /** calcNLines: enough lines for the bits asked for, at least one, an odd number. */
  function NLines(numKeys: nat, bitsPerKey: nat): (n: nat)
    ensures n % 2 == 1
  {
    var n := (numKeys * bitsPerKey + 511) / 512;
    var n' := if n < 1 then 1 else n;
    if n' % 2 == 0 then n' + 1 else n'
  }

  /** The least odd number of lines with room for all bits. */
  lemma {:induction false} NLinesLeast(numKeys: nat, bitsPerKey: nat, m: nat)
    ensures var n := NLines(numKeys, bitsPerKey); n * 512 >= numKeys * bitsPerKey
    ensures m % 2 == 1 && m * 512 >= numKeys * bitsPerKey ==> NLines(numKeys, bitsPerKey) <= m
  {
  }

  /** The bits of the filter are exactly those that the probes of the hashes name. */
  ghost predicate ExactBits(data: bytes, hashes: seq<u32>, nLines: nat, probes: nat)
    requires nLines > 0
    requires |data| >= nLines * LINE_SIZE
  {
    forall pos: nat :: pos / 8 < nLines * LINE_SIZE ==>
      (BitAt(data, pos) <==> SetBy(hashes, nLines, probes, pos))
  }

  datatype Filter = Filter(data: bytes, numProbes: nat, nLines: nat)

  datatype MaybeFilter = NoFilter | Some(filter: Filter)

  /** decodeBloomFilter: nil for a block whose length does not match its line count. */
  function Decode(block: bytes): MaybeFilter {
    if |block| < 5 then NoFilter
    else
      var n := U32(block, |block| - 4);
      if |block| - 5 != n * LINE_SIZE then NoFilter
      else Some(Filter(block[..|block| - 5], block[|block| - 5], n))
  }

  /** What mayContain answers: all probe bits are there; without a usable filter, yes. */
  predicate MayContain(f: MaybeFilter, key: bytes)
    requires f.Some? ==> |f.filter.data| == f.filter.nLines * LINE_SIZE
  {
    f.Some? && f.filter.nLines > 0 ==>
      forall j :: 0 <= j < f.filter.numProbes ==> BitAt(f.filter.data, ProbeBit(BloomHash(key), f.filter.nLines, j))
  }

  method ComputeMayContain(f: MaybeFilter, key: bytes) returns (r: bool)
    requires f.Some? ==> |f.filter.data| == f.filter.nLines * LINE_SIZE
    ensures r == MayContain(f, key)
  {
    if f == NoFilter || f.filter.nLines == 0 {
      return true;
    }
    hide HasBit, BloomHash;
    var h0 := ComputeHash(key);
    r := ProbesSet(f.filter.data, h0, f.filter.nLines, f.filter.numProbes);
  }

  /** The loop of mayContain. */
  method ProbesSet(data: bytes, h0: u32, nLines: nat, numProbes: nat) returns (r: bool)
    requires nLines > 0 && |data| == nLines * LINE_SIZE
    ensures r <==> forall j :: 0 <= j < numProbes ==> BitAt(data, ProbeBit(h0, nLines, j))
  {
    hide HasBit, ProbeBit;
    var h := h0;
    var delta := h / 0x2_0000 + h % 0x2_0000 * 0x8000;
    var lineOff := h % nLines * LINE_SIZE;
    var j := 0;
    while j < numProbes
      invariant 0 <= j <= numProbes && h == ProbeHash(h0, j)
      invariant forall i :: 0 <= i < j ==> BitAt(data, ProbeBit(h0, nLines, i))
    {
      ProbeLocation(h0, nLines, j);
      if !HasBit(data[lineOff + h / 8 % LINE_SIZE], h % 8) {
        assert !BitAt(data, ProbeBit(h0, nLines, j));
        return false;
      }
      h := Wrap(h + delta);
      j := j + 1;
    }
    return true;
  }

  class BloomWriter {
    var hashes: seq<u32>
    const bitsPerKey: nat
    /** calcNumProbes(bitsPerKey), between 1 and 30. */
    const numProbes: nat
    ghost var keys: seq<bytes>

    ghost predicate Valid()
      reads this
    {
      && 1 <= numProbes <= 30 && bitsPerKey > 0
      && |hashes| == |keys| && forall i :: 0 <= i < |keys| ==> hashes[i] == BloomHash(keys[i])
    }

    constructor (bitsPerKey: nat, numProbes: nat)
      requires bitsPerKey > 0 && 1 <= numProbes <= 30
      ensures Valid() && keys == [] && this.bitsPerKey == bitsPerKey && this.numProbes == numProbes
    {
      this.bitsPerKey, this.numProbes := bitsPerKey, numProbes;
      hashes, keys := [], [];
    }

    method AddKey(key: bytes)
      requires Valid()
      modifies this
      ensures Valid() && keys == old(keys) + [key]
    {
      var h := ComputeHash(key);
      hashes := hashes + [h];
      keys := keys + [key];
    }

    /** The encoded filter; nothing for an empty table. */
    method Finish() returns (block: bytes)
      requires Valid()
      ensures keys == [] <==> block == []
      ensures keys != [] ==> |block| == NLines(|keys|, bitsPerKey) * LINE_SIZE + 5
      ensures var n := NLines(|keys|, bitsPerKey);
        keys != [] && n < TWO_32 ==>
          var f := Decode(block);
          && f.Some? && f.filter.numProbes == numProbes && f.filter.nLines == n
          && |f.filter.data| == n * LINE_SIZE
          && ExactBits(f.filter.data, hashes, n, numProbes)
    {
      hide Pow2, HasBit, BloomHash, ExactBits, U32, FromLE, LE, Decode, NLines;
      if |hashes| == 0 {
        return [];
      }
      var nLines := NLines(|hashes|, bitsPerKey);
      var data := BuildLines(hashes, nLines, numProbes);
      block := data + [numProbes as byte] + LE(nLines % TWO_32, 4);
      if nLines < TWO_32 {
        TrailerReads(data, numProbes, nLines);
      }
    }
  }

  /** The loop of finish over all hashes. */
  method BuildLines(hashes: seq<u32>, nLines: nat, numProbes: nat) returns (data: bytes)
    requires nLines > 0
    ensures |data| == nLines * LINE_SIZE && ExactBits(data, hashes, nLines, numProbes)
  {
    hide Pow2, HasBit, ExactBits;
    var buf := new byte[nLines * LINE_SIZE](_ => 0);
    EmptyFilter(buf[..], nLines, numProbes);
    var i := 0;
    while i < |hashes|
      invariant 0 <= i <= |hashes|
      invariant ExactBits(buf[..], hashes[..i], nLines, numProbes)
    {
      SetProbes(buf, hashes[i], nLines, numProbes, hashes[..i]);
      assert hashes[..i] + [hashes[i]] == hashes[..i + 1];
      i := i + 1;
    }
    assert hashes[..i] == hashes;
    data := buf[..];
  }

  lemma {:induction false} EmptyFilter(data: bytes, nLines: nat, probes: nat)
    requires nLines > 0 && |data| == nLines * LINE_SIZE
    requires forall k :: 0 <= k < |data| ==> data[k] == 0
    ensures ExactBits(data, [], nLines, probes)
  {
    hide HasBit;
    forall pos: nat | pos / 8 < |data|
      ensures !BitAt(data, pos)
    {
      NoBits(pos % 8);
    }
  }

  lemma {:induction false} TrailerReads(data: bytes, numProbes: byte, nLines: nat)
    requires nLines < TWO_32 && |data| == nLines * LINE_SIZE
    ensures Decode(data + [numProbes] + LE(nLines, 4)) == Some(Filter(data, numProbes, nLines))
  {
    hide LE;
    var block := data + [numProbes] + LE(nLines, 4);
    AtConcat(block, 0, data + [numProbes], LE(nLines, 4));
    U32Of(block, |block| - 4, nLines);
    assert block[..|block| - 5] == data;
  }

  /** The inner loop of finish: the probes of one more hash. */
  method SetProbes(buf: array<byte>, h0: u32, nLines: nat, numProbes: nat, ghost before: seq<u32>)
    requires nLines > 0 && buf.Length == nLines * LINE_SIZE
    requires ExactBits(buf[..], before, nLines, numProbes)
    modifies buf
    ensures ExactBits(buf[..], before + [h0], nLines, numProbes)
  {
    hide Pow2, HasBit;
    ghost var was := buf[..];
    var h := h0;
    var delta := h / 0x2_0000 + h % 0x2_0000 * 0x8000;
    var lineOff := h % nLines * LINE_SIZE;
    var j := 0;
    while j < numProbes
      invariant 0 <= j <= numProbes && h == ProbeHash(h0, j)
      invariant forall pos: nat :: pos / 8 < buf.Length ==>
        (BitAt(buf[..], pos) <==> BitAt(was, pos) || exists k :: 0 <= k < j && ProbeBit(h0, nLines, k) == pos)
    {
      var byteIdx := h / 8 % LINE_SIZE;
      var bitIdx := h % 8;
      ghost var p := ProbeBit(h0, nLines, j);
      ProbeLocation(h0, nLines, j);
      ghost var s := buf[..];
      buf[lineOff + byteIdx] := OrBit(buf[lineOff + byteIdx], bitIdx);
      OrBitAt(s, buf[..], p);
      h := Wrap(h + delta);
      j := j + 1;
    }
    forall pos: nat | pos / 8 < buf.Length
      ensures BitAt(buf[..], pos) <==> SetBy(before + [h0], nLines, numProbes, pos)
    {
      SetByMore(before, h0, nLines, numProbes, pos);
    }
  }

  lemma {:induction false} OrBitAt(s: bytes, t: bytes, p: nat)
    requires p / 8 < |s| && t == s[p / 8 := OrBit(s[p / 8], p % 8)]
    ensures forall pos: nat :: pos / 8 < |s| ==> (BitAt(t, pos) <==> BitAt(s, pos) || pos == p)
  {
    forall pos: nat | pos / 8 < |s|
      ensures BitAt(t, pos) <==> BitAt(s, pos) || pos == p
    {
      OneBitSet(s[p / 8], p % 8, pos % 8);
    }
  }

  lemma {:induction false} SetByMore(before: seq<u32>, h: u32, nLines: nat, probes: nat, pos: nat)
    requires nLines > 0
    ensures SetBy(before + [h], nLines, probes, pos) <==>
      SetBy(before, nLines, probes, pos) || exists k :: 0 <= k < probes && ProbeBit(h, nLines, k) == pos
  {
    hide ProbeBit;
    var all := before + [h];
    if i, j :| 0 <= i < |before| && 0 <= j < probes && ProbeBit(before[i], nLines, j) == pos {
      assert ProbeBit(all[i], nLines, j) == pos;
    }
    if k :| 0 <= k < probes && ProbeBit(h, nLines, k) == pos {
      assert ProbeBit(all[|before|], nLines, k) == pos;
    }
  }

  /** A stored key is never rejected. */
  lemma {:induction false} NoFalseNegative(f: Filter, hashes: seq<u32>, keys: seq<bytes>, i: nat)
    requires f.nLines > 0 && |f.data| == f.nLines * LINE_SIZE && i < |keys| == |hashes|
    requires forall k :: 0 <= k < |keys| ==> hashes[k] == BloomHash(keys[k])
    requires ExactBits(f.data, hashes, f.nLines, f.numProbes)
    ensures MayContain(Some(f), keys[i])
  {
  }
}
