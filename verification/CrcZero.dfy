/** A payload whose checksum is zero: Append takes a running checksum of zero for a failed write. */
module CrcZeros {
  import opened Bytes
  import opened Binary
  import opened Crc

  /** The 32-bit number with these bytes, the highest first. */
  function Word(a: byte, b: byte, c: byte, d: byte): u32 {
    ((a * 256 + b) * 256 + c) * 256 + d
  }

  /** h * 2^k. */
  function Doubled(h: nat, k: nat): nat {
    if k == 0 then h else 2 * Doubled(h, k - 1)
  }

  lemma {:induction false} XorOnto(a: nat, l: nat, b: nat, m: nat, n: nat)
    requires n > 0
    ensures XorBits(2 * a + l, 2 * b + m, n) == 2 * XorBits(a + l / 2, b + m / 2, n - 1) + (l + m) % 2
  {
    XorUnfolds(2 * a + l, 2 * b + m, n);
    assert (2 * a + l) / 2 == a + l / 2 && (2 * b + m) / 2 == b + m / 2;
    assert (2 * a + l + (2 * b + m)) % 2 == (l + m) % 2;
  }

  lemma {:induction false} XorSplit(h: nat, l: nat, g: nat, m: nat, n: nat, k: nat)
    requires l < Pow2(k) && m < Pow2(k)
    ensures XorBits(Doubled(h, k) + l, Doubled(g, k) + m, n + k) == Doubled(XorBits(h, g, n), k) + XorBits(l, m, k)
    ensures XorBits(l, m, k) < Pow2(k)
  {
    hide XorBits;
    if k == 0 {
      XorNone(l, m);
    } else {
      XorSplit(h, l / 2, g, m / 2, n, k - 1);
      XorUnfolds(l, m, k);
      XorOnto(Doubled(h, k - 1), l, Doubled(g, k - 1), m, n + k);
    }
  }

  lemma {:induction false} ByEight(h: nat)
    ensures Doubled(h, 8) == 256 * h
  {
    assert Doubled(h, 1) == 2 * h && Doubled(h, 2) == 4 * h && Doubled(h, 3) == 8 * h && Doubled(h, 4) == 16 * h;
    assert Doubled(h, 5) == 32 * h && Doubled(h, 6) == 64 * h && Doubled(h, 7) == 128 * h;
  }

  lemma {:induction false} XorByteSplit(h: nat, l: byte, g: nat, m: byte, n: nat)
    ensures XorBits(256 * h + l, 256 * g + m, n + 8) == 256 * XorBits(h, g, n) + XorBits(l, m, 8)
    ensures XorBits(l, m, 8) < 256
  {
    assert Pow2(8) == 256;
    ByEight(h);
    ByEight(g);
    ByEight(XorBits(h, g, n));
    XorSplit(h, l, g, m, n, 8);
  }

  function XorByte(x: byte, y: byte): byte {
    Num((x as bv8) ^ (y as bv8))
  }

  function Num(x: bv8): byte {
    x as byte
  }

  lemma {:induction false} HalfOf(x: bv8)
    ensures Num(x >> 1) == Num(x) / 2 && Num(x & 1) == Num(x) % 2
  {
  }

  lemma {:induction false} LastBits(x: bv8, y: bv8)
    ensures Num((x ^ y) & 1) == (Num(x & 1) + Num(y & 1)) % 2
  {
    assert x & 1 == 0 || x & 1 == 1;
    assert y & 1 == 0 || y & 1 == 1;
    assert (x ^ y) & 1 == (x & 1) ^ (y & 1);
  }

  lemma {:induction false} XorHalves(x: bv8, y: bv8)
    ensures Num(x ^ y) == 2 * Num((x >> 1) ^ (y >> 1)) + (Num(x) + Num(y)) % 2
  {
    hide Num;
    HalfOf(x);
    HalfOf(y);
    HalfOf(x ^ y);
    LastBits(x, y);
    assert (x ^ y) >> 1 == (x >> 1) ^ (y >> 1);
  }

  /** On bytes it is the exclusive or of bit vectors. */
  lemma {:induction false} XorIsBits(x: bv8, y: bv8, n: nat)
    requires Num(x) < Pow2(n) && Num(y) < Pow2(n)
    ensures XorBits(Num(x), Num(y), n) == Num(x ^ y)
  {
    hide Num, XorBits;
    if n == 0 {
      XorNone(Num(x), Num(y));
      NumZero(x);
      NumZero(y);
      NumZero(x ^ y);
    } else {
      HalfOf(x);
      HalfOf(y);
      XorHalves(x, y);
      XorUnfolds(Num(x), Num(y), n);
      XorIsBits(x >> 1, y >> 1, n - 1);
    }
  }

  lemma {:induction false} NumZero(x: bv8)
    ensures Num(x) == 0 <==> x == 0
  {
  }

  lemma {:induction false} NumOf(x: byte)
    ensures Num(x as bv8) == x
  {
  }

  lemma {:induction false} XorByteIs(x: byte, y: byte)
    ensures XorBits(x, y, 8) == XorByte(x, y)
  {
    hide XorBits, Num;
    assert Pow2(8) == 256;
    NumOf(x);
    NumOf(y);
    XorIsBits(x as bv8, y as bv8, 8);
  }

  /** Exclusive or goes byte by byte. */
  lemma {:induction false} XorWords(a: byte, b: byte, c: byte, d: byte, p: byte, q: byte, r: byte, s: byte)
    ensures Xor(Word(a, b, c, d), Word(p, q, r, s)) == Word(XorByte(a, p), XorByte(b, q), XorByte(c, r), XorByte(d, s))
  {
    hide XorBits, XorByte;
    XorByteSplit((a * 256 + b) * 256 + c, d, (p * 256 + q) * 256 + r, s, 24);
    XorByteSplit(a * 256 + b, c, p * 256 + q, r, 16);
    XorByteSplit(a, b, p, q, 8);
    XorByteSplit(0, a, 0, p, 0);
    XorByteIs(a, p);
    XorByteIs(b, q);
    XorByteIs(c, r);
    XorByteIs(d, s);
  }

  /** A shift of an odd number takes in the polynomial, byte by byte. */
  lemma {:induction false} Odd(x: u32, k: nat, a: byte, b: byte, c: byte, d: byte, p: byte, q: byte, r: byte, s: byte)
    requires k > 0 && x == 2 * (0x100_0000 * a + 0x1_0000 * b + 0x100 * c + d) + 1
    requires XorByte(a, 0x82) == p && XorByte(b, 0xf6) == q && XorByte(c, 0x3b) == r && XorByte(d, 0x78) == s
    ensures Shift(x, k) == Shift(0x100_0000 * p + 0x1_0000 * q + 0x100 * r + s, k - 1)
  {
    hide XorByte, Xor;
    assert x % 2 == 1 && x / 2 == Word(a, b, c, d);
    assert POLYNOMIAL == Word(0x82, 0xf6, 0x3b, 0x78);
    XorWords(a, b, c, d, 0x82, 0xf6, 0x3b, 0x78);
  }

  /** A shift of an even number halves it. */
  lemma {:induction false} Even(x: u32, k: nat, j: nat, y: u32)
    requires j <= k && x == Pow2(j) * y
    ensures Shift(x, k) == Shift(y, k - j)
  {
    hide Shift;
    if j > 0 {
      assert Pow2(j) * y == 2 * (Pow2(j - 1) * y);
      EvenOnce(x / 2, k);
      Even(x / 2, k - 1, j - 1, y);
    }
  }

  lemma {:induction false} EvenOnce(y: u32, k: nat)
    requires k > 0 && 2 * y < TWO_32
    ensures Shift(2 * y, k) == Shift(y, k - 1)
  {
    hide Xor;
    assert 2 * y / 2 == y && 2 * y % 2 == 0;
  }

  lemma {:induction false} ShiftNone(x: u32)
    ensures Shift(x, 0) == x
  {
  }

  /** A data byte changes the lowest byte. */
  lemma {:induction false} XorLast(h: u32, l: byte, m: byte, r: byte)
    requires h < 0x100_0000 && XorByte(l, m) == r
    ensures Xor(256 * h + l, m) == 256 * h + r
  {
    hide XorBits, XorByte;
    XorByteSplit(h, l, 0, m, 24);
    XorByteIs(l, m);
    SmallWord();
    XorZero(h, 24);
  }

  lemma {:induction false} SmallWord()
    ensures Pow2(24) == 0x100_0000
  {
    assert Pow2(8) == 256 && Pow2(16) == 65536;
  }

  lemma {:induction false} XorZero(a: nat, n: nat)
    requires a < Pow2(n)
    ensures XorBits(a, 0, n) == a
  {
    if n > 0 {
      XorZero(a / 2, n - 1);
    }
  }

  lemma {:induction false} FirstShiftA()
    ensures Shift(0xffff_ff54, 8) == Shift(0xa5b4_4a5c, 3)
  {
    hide Shift, Xor;
    Even(0xffff_ff54, 8, 2, 0x3fff_ffd5);
    Odd(0x3fff_ffd5, 6, 0x1f, 0xff, 0xff, 0xea, 0x9d, 0x09, 0xc4, 0x92);
    Even(0x9d09_c492, 5, 1, 0x4e84_e249);
    Odd(0x4e84_e249, 4, 0x27, 0x42, 0x71, 0x24, 0xa5, 0xb4, 0x4a, 0x5c);
  }

  lemma {:induction false} FirstShiftB()
    ensures Shift(0xa5b4_4a5c, 3) == Shift(0x9640_b233, 0)
  {
    hide Shift, Xor;
    Even(0xa5b4_4a5c, 3, 2, 0x296d_1297);
    Odd(0x296d_1297, 1, 0x14, 0xb6, 0x89, 0x4b, 0x96, 0x40, 0xb2, 0x33);
  }

  lemma {:induction false} FirstByte()
    ensures Shift(Xor(0xffff_ffff, 171), 8) == 0x9640_b233
  {
    hide Shift, Xor;
    XorLast(0x00ff_ffff, 0xff, 171, 0x54);
    FirstShiftA();
    FirstShiftB();
    ShiftNone(0x9640_b233);
  }

  lemma {:induction false} SecondShiftA()
    ensures Shift(0x9640_b2a8, 8) == Shift(0xa012_b76c, 2)
  {
    hide Shift, Xor;
    Even(0x9640_b2a8, 8, 3, 0x12c8_1655);
    Odd(0x12c8_1655, 5, 0x09, 0x64, 0x0b, 0x2a, 0x8b, 0x92, 0x30, 0x52);
    Even(0x8b92_3052, 4, 1, 0x45c9_1829);
    Odd(0x45c9_1829, 3, 0x22, 0xe4, 0x8c, 0x14, 0xa0, 0x12, 0xb7, 0x6c);
  }

  lemma {:induction false} SecondShiftB()
    ensures Shift(0xa012_b76c, 2) == Shift(0x2804_addb, 0)
  {
    hide Shift, Xor;
    Even(0xa012_b76c, 2, 2, 0x2804_addb);
  }

  lemma {:induction false} SecondByte()
    ensures Shift(Xor(0x9640_b233, 155), 8) == 0x2804_addb
  {
    hide Shift, Xor;
    XorLast(0x0096_40b2, 0x33, 155, 0xa8);
    SecondShiftA();
    SecondShiftB();
    ShiftNone(0x2804_addb);
  }

  lemma {:induction false} ThirdShiftA()
    ensures Shift(0x2804_ad3b, 8) == Shift(0xc98c_0d8a, 6)
  {
    hide Shift, Xor;
    Odd(0x2804_ad3b, 8, 0x14, 0x02, 0x56, 0x9d, 0x96, 0xf4, 0x6d, 0xe5);
    Odd(0x96f4_6de5, 7, 0x4b, 0x7a, 0x36, 0xf2, 0xc9, 0x8c, 0x0d, 0x8a);
  }

  lemma {:induction false} ThirdShiftB()
    ensures Shift(0xc98c_0d8a, 6) == Shift(0xaed3_757e, 2)
  {
    hide Shift, Xor;
    Even(0xc98c_0d8a, 6, 1, 0x64c6_06c5);
    Odd(0x64c6_06c5, 5, 0x32, 0x63, 0x03, 0x62, 0xb0, 0x95, 0x38, 0x1a);
    Even(0xb095_381a, 4, 1, 0x584a_9c0d);
    Odd(0x584a_9c0d, 3, 0x2c, 0x25, 0x4e, 0x06, 0xae, 0xd3, 0x75, 0x7e);
  }

  lemma {:induction false} ThirdShiftC()
    ensures Shift(0xaed3_757e, 2) == Shift(0xa942_e627, 0)
  {
    hide Shift, Xor;
    Even(0xaed3_757e, 2, 1, 0x5769_babf);
    Odd(0x5769_babf, 1, 0x2b, 0xb4, 0xdd, 0x5f, 0xa9, 0x42, 0xe6, 0x27);
  }

  lemma {:induction false} ThirdByte()
    ensures Shift(Xor(0x2804_addb, 224), 8) == 0xa942_e627
  {
    hide Shift, Xor;
    XorLast(0x0028_04ad, 0xdb, 224, 0x3b);
    ThirdShiftA();
    ThirdShiftB();
    ThirdShiftC();
    ShiftNone(0xa942_e627);
  }

  lemma {:induction false} FourthShiftA()
    ensures Shift(0xa942_e6bc, 8) == Shift(0xc919_08af, 4)
  {
    hide Shift, Xor;
    Even(0xa942_e6bc, 8, 2, 0x2a50_b9af);
    Odd(0x2a50_b9af, 6, 0x15, 0x28, 0x5c, 0xd7, 0x97, 0xde, 0x67, 0xaf);
    Odd(0x97de_67af, 5, 0x4b, 0xef, 0x33, 0xd7, 0xc9, 0x19, 0x08, 0xaf);
  }

  lemma {:induction false} FourthShiftB()
    ensures Shift(0xc919_08af, 4) == Shift(0xf1cb_64ef, 2)
  {
    hide Shift, Xor;
    Odd(0xc919_08af, 4, 0x64, 0x8c, 0x84, 0x57, 0xe6, 0x7a, 0xbf, 0x2f);
    Odd(0xe67a_bf2f, 3, 0x73, 0x3d, 0x5f, 0x97, 0xf1, 0xcb, 0x64, 0xef);
  }

  lemma {:induction false} FourthShiftC()
    ensures Shift(0xf1cb_64ef, 2) == Shift(0xffff_ffff, 0)
  {
    hide Shift, Xor;
    Odd(0xf1cb_64ef, 2, 0x78, 0xe5, 0xb2, 0x77, 0xfa, 0x13, 0x89, 0x0f);
    Odd(0xfa13_890f, 1, 0x7d, 0x09, 0xc4, 0x87, 0xff, 0xff, 0xff, 0xff);
  }

  lemma {:induction false} FourthByte()
    ensures Shift(Xor(0xa942_e627, 155), 8) == 0xffff_ffff
  {
    hide Shift, Xor;
    XorLast(0x00a9_42e6, 0x27, 155, 0xbc);
    FourthShiftA();
    FourthShiftB();
    FourthShiftC();
    ShiftNone(0xffff_ffff);
  }

  /** Four bytes that make the checksum zero, from the start of a log. */
  lemma {:induction false} ZeroChecksum()
    ensures Update(0, [171, 155, 224, 155]) == 0
  {
    hide Shift, Xor;
    var data: bytes := [171, 155, 224, 155];
    var start: u32 := 0xffff_ffff;
    FirstByte();
    SecondByte();
    ThirdByte();
    FourthByte();
    assert data[..1] == [171] && data[..1][..0] == [];
    assert data[..2][..1] == data[..1] && data[..3][..2] == data[..2];
    assert Fold(start, data[..1]) == 0x9640_b233;
    assert Fold(start, data[..2]) == 0x2804_addb;
    assert Fold(start, data[..3]) == 0xa942_e627;
    assert Fold(start, data) == start;
  }
}
