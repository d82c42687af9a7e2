/** Fixed and variable length integer encodings, as Go's encoding/binary writes them. */
module Binary {
  import opened Bytes

  const TWO_32 := 0x1_0000_0000
  const TWO_56 := 0x100_0000_0000_0000
  const TWO_63 := 0x8000_0000_0000_0000
  const TWO_64 := 0x1_0000_0000_0000_0000

  // ---- uvarint: base 128, low group first, high bit marks continuation

  function Put(x: nat): (r: bytes)
    ensures r != []
  {
    if x < 128 then [x] else [x % 128 + 128] + Put(x / 128)
  }

  /** binary.Uvarint: the value and the number of bytes read; 0 for a short buffer, negative for
      a value that overflows 64 bits. */
  function Get(buf: bytes): (nat, int) {
    GetAt(buf, 0)
  }

  function GetAt(buf: bytes, i: nat): (r: (nat, int))
    requires i <= |buf| && i <= 10
    ensures r.1 <= |buf| && (r.1 > 0 ==> i < r.1)
    decreases 10 - i
  {
    if i == |buf| then (0, 0)
    else if i == 10 then (0, -11)
    else
      var b := buf[i];
      if b < 128 then
        if i == 9 && b > 1 then (0, -10) else (b, i + 1)
      else
        var rest := GetAt(buf, i + 1);
        if rest.1 <= 0 then (0, rest.1) else (b - 128 + 128 * rest.0, rest.1)
  }

  /** What still fits when i groups of seven bits have been read: 2^(64 - 7i). */
  function Room(i: nat): nat
    requires i <= 9
    decreases 9 - i
  {
    if i == 9 then 2 else 128 * Room(i + 1)
  }

  lemma {:induction false} GetPutAt(buf: bytes, i: nat, x: nat)
    requires i <= 9 && x < Room(i)
    requires At(buf, i, Put(x))
    ensures GetAt(buf, i) == (x, i + |Put(x)|)
    decreases 9 - i
  {
    assert buf[i] == buf[i..i + |Put(x)|][0];
    if x >= 128 {
      assert Put(x)[1..] == Put(x / 128);
      AtConcat(buf, i, [x % 128 + 128], Put(x / 128));
      GetPutAt(buf, i + 1, x / 128);
    }
  }

  lemma {:induction false} RoomIs64()
    ensures Room(0) == TWO_64
  {
  }

  /** Reading back what PutUvarint wrote at an offset of a larger buffer. */
  lemma {:induction false} GetPut(data: bytes, off: nat, x: nat)
    requires x < TWO_64
    requires At(data, off, Put(x))
    ensures Get(data[off..]) == (x, |Put(x)|)
  {
    var buf := data[off..];
    assert buf[0..|Put(x)|] == data[off..off + |Put(x)|];
    RoomIs64();
    GetPutAt(buf, 0, x);
  }

  /** A number read at an offset, and the offset behind it. */
  datatype Num = NoNum | Num(v: nat, next: nat)

  function ReadNum(data: bytes, i: nat): (r: Num)
    requires i <= |data|
    ensures r.Num? ==> i < r.next <= |data|
  {
    var g := Get(data[i..]);
    if g.1 <= 0 then NoNum else Num(g.0, i + g.1)
  }

  lemma {:induction false} ReadNumOf(data: bytes, i: nat, x: nat)
    requires x < TWO_64 && At(data, i, Put(x))
    ensures i <= |data| && ReadNum(data, i) == Num(x, i + |Put(x)|)
  {
    GetPut(data, i, x);
  }

  lemma {:induction false} PutLength(x: nat, i: nat)
    requires i <= 9 && x < Room(i)
    ensures |Put(x)| <= 10 - i
    decreases 9 - i
  {
    if x >= 128 {
      PutLength(x / 128, i + 1);
    }
  }

  /** varintLen counts the groups the encoding has. */
  method VarintLen(x: nat) returns (n: nat)
    ensures n == |Put(x)|
  {
    n := 1;
    var y := x;
    while y >= 0x80
      invariant n - 1 + |Put(y)| == |Put(x)|
      decreases y
    {
      n := n + 1;
      y := y / 128;
    }
  }

  // ---- fixed width

  function Pow256(k: nat): (p: nat)
    ensures p > 0
  {
    if k == 0 then 1 else 256 * Pow256(k - 1)
  }

  function LE(x: nat, k: nat): (r: bytes)
    ensures |r| == k
  {
    if k == 0 then [] else [x % 256] + LE(x / 256, k - 1)
  }

  function FromLE(b: bytes): nat {
    if b == [] then 0 else b[0] + 256 * FromLE(b[1..])
  }

  lemma {:induction false} FromLEOfLE(x: nat, k: nat)
    requires x < Pow256(k)
    ensures FromLE(LE(x, k)) == x
  {
    if k > 0 {
      FromLEOfLE(x / 256, k - 1);
      assert LE(x, k)[1..] == LE(x / 256, k - 1);
    }
  }

  lemma {:induction false} LEOfFromLE(b: bytes)
    ensures FromLE(b) < Pow256(|b|)
    ensures LE(FromLE(b), |b|) == b
  {
    if b != [] {
      LEOfFromLE(b[1..]);
      assert b == [b[0]] + b[1..];
    }
  }

  function BE(x: nat, k: nat): (r: bytes)
    ensures |r| == k
  {
    if k == 0 then [] else BE(x / 256, k - 1) + [x % 256]
  }

  function FromBE(b: bytes): nat {
    if b == [] then 0 else 256 * FromBE(b[..|b| - 1]) + b[|b| - 1]
  }

  lemma {:induction false} FromBEOfBE(x: nat, k: nat)
    requires x < Pow256(k)
    ensures FromBE(BE(x, k)) == x
  {
    if k > 0 {
      FromBEOfBE(x / 256, k - 1);
      assert BE(x, k)[..k - 1] == BE(x / 256, k - 1);
    }
  }

  lemma {:induction false} BEOfFromBE(b: bytes)
    ensures FromBE(b) < Pow256(|b|)
    ensures BE(FromBE(b), |b|) == b
  {
    if b != [] {
      BEOfFromBE(b[..|b| - 1]);
      assert b == b[..|b| - 1] + [b[|b| - 1]];
    }
  }

  /** Big-endian bytes of equal width compare like the numbers they encode. */
  lemma {:induction false} BEOrder(x: nat, y: nat, k: nat)
    requires x < y < Pow256(k)
    ensures Less(BE(x, k), BE(y, k))
  {
    if k > 0 {
      if x / 256 < y / 256 {
        BEOrder(x / 256, y / 256, k - 1);
        var n := Lcp(BE(x / 256, k - 1), BE(y / 256, k - 1));
        LessAt(BE(x, k), BE(y, k), n);
      } else {
        LessAt(BE(x, k), BE(y, k), k - 1);
      }
    }
  }

  lemma {:induction false} Pow256Values()
    ensures Pow256(4) == TWO_32
    ensures Pow256(8) == TWO_64
  {
  }

  /** binary.LittleEndian.Uint32 on data[off:]. */
  function U32(data: bytes, off: nat): nat
    requires off + 4 <= |data|
  {
    FromLE(data[off..off + 4])
  }

  /** binary.LittleEndian.Uint64 on data[off:]. */
  function U64(data: bytes, off: nat): nat
    requires off + 8 <= |data|
  {
    FromLE(data[off..off + 8])
  }

  lemma {:induction false} U32Of(data: bytes, off: nat, x: nat)
    requires At(data, off, LE(x, 4)) && x < TWO_32
    ensures off + 4 <= |data| && U32(data, off) == x
  {
    Pow256Values();
    FromLEOfLE(x, 4);
  }

  lemma {:induction false} U64Of(data: bytes, off: nat, x: nat)
    requires At(data, off, LE(x, 8)) && x < TWO_64
    ensures off + 8 <= |data| && U64(data, off) == x
  {
    Pow256Values();
    FromLEOfLE(x, 8);
  }

  // ---- 32-bit arithmetic

  type u32 = x: int | 0 <= x < TWO_32

  function Wrap(x: nat): u32 {
    x % TWO_32
  }

  /** Exclusive or of the n lowest bits. */
  function XorBits(a: nat, b: nat, n: nat): nat {
    if n == 0 then 0 else 2 * XorBits(a / 2, b / 2, n - 1) + (a + b) % 2
  }

  function Xor(a: u32, b: u32): u32 {
    Wrap(XorBits(a, b, 32))
  }
}
