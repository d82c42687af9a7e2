/** CRC-32C (Castagnoli) as crc32.Update computes it, one bit at a time. */
module Crc {
  import opened Bytes
  import opened Binary

  const POLYNOMIAL: u32 := 0x82f6_3b78

  function Shift(x: u32, k: nat): u32
    decreases k
  {
    if k == 0 then x
    else Shift(if x % 2 == 1 then Xor(x / 2, POLYNOMIAL) else x / 2, k - 1)
  }

  function Fold(c: u32, data: bytes): u32 {
    if data == [] then c else Shift(Xor(Fold(c, data[..|data| - 1]), data[|data| - 1]), 8)
  }

  function Not(x: u32): u32 {
    TWO_32 - 1 - x
  }

  function Update(c: u32, data: bytes): u32 {
    Not(Fold(Not(c), data))
  }

  lemma {:induction false} FoldConcat(c: u32, a: bytes, b: bytes)
    ensures Fold(Fold(c, a), b) == Fold(c, a + b)
  {
    hide Shift, Xor;
    if b == [] {
      assert a + b == a;
    } else {
      FoldConcat(c, a, b[..|b| - 1]);
      assert (a + b)[..|a + b| - 1] == a + b[..|b| - 1];
    }
  }

  /** Chaining: the checksum of a record that continues a digest covers everything before it. */
  lemma {:induction false} UpdateConcat(c: u32, a: bytes, b: bytes)
    ensures Update(Update(c, a), b) == Update(c, a + b)
  {
    hide Fold;
    FoldConcat(Not(c), a, b);
  }

  lemma {:induction false} UpdateNothing(c: u32)
    ensures Update(c, []) == c
  {
  }

  // ---- different running checksums stay different

  function Pow2(k: nat): nat {
    if k == 0 then 1 else 2 * Pow2(k - 1)
  }

  lemma {:induction false} XorNone(a: nat, b: nat)
    ensures XorBits(a, b, 0) == 0
  {
  }

  lemma {:induction false} XorUnfolds(a: nat, b: nat, n: nat)
    requires n > 0
    ensures XorBits(a, b, n) == 2 * XorBits(a / 2, b / 2, n - 1) + (a + b) % 2
  {
  }

  /** Exclusive or with the same number twice changes nothing. */
  lemma {:induction false} XorTwice(a: nat, b: nat, n: nat)
    requires a < Pow2(n)
    ensures XorBits(a, b, n) < Pow2(n) && XorBits(XorBits(a, b, n), b, n) == a
  {
    hide XorBits;
    if n == 0 {
      XorNone(a, b);
      XorNone(XorBits(a, b, 0), b);
    } else {
      XorTwice(a / 2, b / 2, n - 1);
      XorUnfolds(a, b, n);
      var x := XorBits(a, b, n);
      XorUnfolds(x, b, n);
      assert x / 2 == XorBits(a / 2, b / 2, n - 1);
    }
  }

  lemma {:induction false} XorHigh(a: nat, b: nat, n: nat)
    requires a < Pow2(n) <= b < Pow2(n + 1)
    ensures XorBits(a, b, n + 1) >= Pow2(n)
  {
    hide XorBits;
    XorUnfolds(a, b, n + 1);
    if n == 0 {
      XorNone(a / 2, b / 2);
    } else {
      XorHigh(a / 2, b / 2, n - 1);
    }
  }

  lemma {:induction false} Powers()
    ensures Pow2(31) == 0x8000_0000 && Pow2(32) == TWO_32
  {
    assert Pow2(8) == 256 && Pow2(16) == 65536 && Pow2(24) == 0x100_0000;
  }

  lemma {:induction false} XorInjective(a: u32, b: u32, x: u32)
    requires Xor(a, x) == Xor(b, x)
    ensures a == b
  {
    hide XorBits, Pow2;
    Powers();
    XorTwice(a, x, 32);
    XorTwice(b, x, 32);
  }

  /** One shift tells by the highest bit whether the polynomial went in. */
  lemma {:induction false} ShiftOnce(x: u32, k: nat) returns (y: u32)
    requires k > 0
    ensures Shift(x, k) == Shift(y, k - 1)
    ensures y == if x % 2 == 1 then Xor(x / 2, POLYNOMIAL) else x / 2
    ensures y >= 0x8000_0000 <==> x % 2 == 1
  {
    hide XorBits, Pow2;
    y := if x % 2 == 1 then Xor(x / 2, POLYNOMIAL) else x / 2;
    Powers();
    XorTwice(x / 2, POLYNOMIAL, 32);
    XorHigh(x / 2, POLYNOMIAL, 31);
  }

  lemma {:induction false} ShiftInjective(a: u32, b: u32, k: nat)
    requires Shift(a, k) == Shift(b, k)
    ensures a == b
    decreases k
  {
    if k > 0 {
      hide Xor, Shift;
      var x := ShiftOnce(a, k);
      var y := ShiftOnce(b, k);
      ShiftInjective(x, y, k - 1);
      if a % 2 == 1 {
        XorInjective(a / 2, b / 2, POLYNOMIAL);
      }
    }
  }

  lemma {:induction false} FoldInjective(a: u32, b: u32, data: bytes)
    requires Fold(a, data) == Fold(b, data)
    ensures a == b
  {
    hide Xor, Shift;
    if data != [] {
      var n := |data| - 1;
      ShiftInjective(Xor(Fold(a, data[..n]), data[n]), Xor(Fold(b, data[..n]), data[n]), 8);
      XorInjective(Fold(a, data[..n]), Fold(b, data[..n]), data[n]);
      FoldInjective(a, b, data[..n]);
    }
  }

  /** The same data keeps different running checksums apart. */
  lemma {:induction false} UpdateInjective(a: u32, b: u32, data: bytes)
    ensures Update(a, data) == Update(b, data) <==> a == b
  {
    hide Fold;
    if Update(a, data) == Update(b, data) {
      FoldInjective(Not(a), Not(b), data);
    }
  }

  lemma {:induction false} XorSwaps(a: nat, b: nat, n: nat)
    ensures XorBits(a, b, n) == XorBits(b, a, n)
  {
    if n > 0 {
      XorSwaps(a / 2, b / 2, n - 1);
    }
  }

  /** And one checksum keeps data apart that differ in the last byte. */
  lemma {:induction false} UpdateByte(c: u32, data: bytes, a: byte, b: byte)
    requires a != b
    ensures Update(c, data + [a]) != Update(c, data + [b])
  {
    hide XorBits, Shift;
    var x := Fold(Not(c), data);
    assert (data + [a])[..|data|] == data && (data + [b])[..|data|] == data;
    if Update(c, data + [a]) == Update(c, data + [b]) {
      ShiftInjective(Xor(x, a), Xor(x, b), 8);
      XorSwaps(x, a, 32);
      XorSwaps(x, b, 32);
      XorInjective(a, b, x);
    }
  }
}
