/** Byte strings and their order. Every key of the engine is compared byte by byte; the same loop
    appears three times in the sources (skiplist, sstable and lsm packages). */
module Bytes {

  type byte = x: int | 0 <= x < 256

  type bytes = seq<byte>

  /** Length of the longest common prefix. The postconditions determine it. */
  function Lcp(a: bytes, b: bytes): (n: nat)
    ensures n <= |a| && n <= |b|
    ensures forall i :: 0 <= i < n ==> a[i] == b[i]
    ensures n < |a| && n < |b| ==> a[n] != b[n]
  {
    if a != [] && b != [] && a[0] == b[0] then 1 + Lcp(a[1..], b[1..]) else 0
  }

  /** Lexicographic order: the first difference decides, a proper prefix comes first. */
  predicate Less(a: bytes, b: bytes) {
    var n := Lcp(a, b);
    n < |b| && (n < |a| ==> a[n] < b[n])
  }

  predicate LessEq(a: bytes, b: bytes) {
    a == b || Less(a, b)
  }

  /** The order from any witness of the first difference. */
  lemma {:induction false} LessAt(a: bytes, b: bytes, n: nat)
    requires n <= |a| && n < |b|
    requires forall i :: 0 <= i < n ==> a[i] == b[i]
    requires n < |a| ==> a[n] < b[n]
    ensures Less(a, b)
  {
  }

  lemma {:induction false} LessIrreflexive(a: bytes)
    ensures !Less(a, a)
  {
  }

  lemma {:induction false} LessTransitive(a: bytes, b: bytes, c: bytes)
    requires Less(a, b) && Less(b, c)
    ensures Less(a, c)
  {
  }

  lemma {:induction false} LessTotal(a: bytes, b: bytes)
    ensures Less(a, b) || a == b || Less(b, a)
    ensures !(Less(a, b) && Less(b, a))
  {
  }

  lemma {:induction false} LessEqTransitive(a: bytes, b: bytes, c: bytes)
    requires LessEq(a, b) && LessEq(b, c)
    ensures LessEq(a, c)
  {
  }

  lemma {:induction false} LessLessEq(a: bytes, b: bytes, c: bytes)
    requires Less(a, b) && LessEq(b, c)
    ensures Less(a, c)
  {
  }

  lemma {:induction false} LessEqLess(a: bytes, b: bytes, c: bytes)
    requires LessEq(a, b) && Less(b, c)
    ensures Less(a, c)
  {
  }

  /** A common prefix does not take part in the comparison. */
  lemma {:induction false} LessCommonPrefix(p: bytes, a: bytes, b: bytes)
    ensures Less(p + a, p + b) <==> Less(a, b)
  {
    var n := Lcp(a, b);
    if Less(a, b) {
      LessAt(p + a, p + b, |p| + n);
    } else if a == b {
      LessIrreflexive(p + a);
    } else {
      LessTotal(a, b);
      LessAt(p + b, p + a, |p| + Lcp(b, a));
      LessTotal(p + a, p + b);
    }
  }

  /** compareKeys / compareBytes: the loop decides the order. */
  method CompareKeys(a: bytes, b: bytes) returns (c: int)
    ensures c == -1 || c == 0 || c == 1
    ensures c == -1 <==> Less(a, b)
    ensures c == 0 <==> a == b
    ensures c == 1 <==> Less(b, a)
  {
    LessTotal(a, b);
    var n := if |b| < |a| then |b| else |a|;
    var i := 0;
    while i < n
      invariant 0 <= i <= n
      invariant forall k :: 0 <= k < i ==> a[k] == b[k]
    {
      if a[i] < b[i] {
        LessAt(a, b, i);
        return -1;
      }
      if a[i] > b[i] {
        LessAt(b, a, i);
        return 1;
      }
      i := i + 1;
    }
    if |a| < |b| {
      LessAt(a, b, n);
      return -1;
    }
    if |a| > |b| {
      LessAt(b, a, n);
      return 1;
    }
    assert a == b;
    return 0;
  }

  predicate IsPrefix(p: bytes, s: bytes) {
    |p| <= |s| && s[..|p|] == p
  }

  /** Neither string is a proper prefix of the other. */
  predicate Unrelated(a: bytes, b: bytes) {
    a == b || (!IsPrefix(a, b) && !IsPrefix(b, a))
  }

  // ---- pieces of a longer string

  /** The piece stands at the offset. */
  predicate At(data: bytes, off: nat, piece: bytes) {
    off + |piece| <= |data| && data[off..off + |piece|] == piece
  }

  lemma {:induction false} AtSlice(data: bytes, off: nat, piece: bytes)
    requires At(data, off, piece)
    ensures off + |piece| <= |data| && data[off..off + |piece|] == piece
  {
  }

  lemma {:induction false} AtPointwise(data: bytes, off: nat, piece: bytes)
    requires off + |piece| <= |data|
    ensures At(data, off, piece) <==> forall k :: 0 <= k < |piece| ==> data[off + k] == piece[k]
  {
    var d := data[off..off + |piece|];
    assert forall k :: 0 <= k < |piece| ==> d[k] == data[off + k];
    if forall k :: 0 <= k < |piece| ==> data[off + k] == piece[k] {
      assert d == piece;
    }
  }

  /** A concatenation stands where its parts stand one after the other. */
  lemma {:induction false} AtConcat(data: bytes, off: nat, x: bytes, y: bytes)
    ensures At(data, off, x + y) <==> At(data, off, x) && At(data, off + |x|, y)
  {
    if off + |x| + |y| <= |data| {
      AtPointwise(data, off, x + y);
      AtPointwise(data, off, x);
      AtPointwise(data, off + |x|, y);
      if At(data, off, x + y) {
        assert forall k :: 0 <= k < |x| ==> (x + y)[k] == x[k];
        assert forall k :: 0 <= k < |y| ==> (x + y)[|x| + k] == y[k] && data[off + (|x| + k)] == (x + y)[|x| + k];
      }
    }
  }

  /** A piece of a piece. */
  lemma {:induction false} AtInside(data: bytes, off: nat, piece: bytes, i: nat, x: bytes)
    requires At(data, off, piece) && At(piece, i, x)
    ensures At(data, off + i, x)
  {
    AtPointwise(data, off, piece);
    AtPointwise(piece, i, x);
    AtPointwise(data, off + i, x);
    forall k | 0 <= k < |x|
      ensures data[off + i + k] == x[k]
    {
      assert data[off + (i + k)] == piece[i + k] == x[k];
    }
  }

  lemma {:induction false} Reassociate(a: bytes, b: bytes, c: bytes, d: bytes)
    ensures a + b + c + d == a + (b + c + d)
  {
  }
}
