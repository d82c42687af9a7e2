/** Internal keys: user key followed by an 8-byte trailer that holds the complement of
    (seqNum << 8) | kind in big-endian order. */
module InternalKey {
  import opened Bytes
  import opened Binary

  const KIND_SET: byte := 1
  const KIND_DELETE: byte := 0
  const TRAILER_SIZE := 8
  /** The largest sequence number that fits the trailer. */
  const MAX_SEQ := TWO_56 - 1

  datatype Parsed = Parsed(userKey: bytes, seqNum: nat, kind: byte)

  /** The trailer value; the shift drops the top byte of a 64-bit sequence number. */
  function Trailer(seqNum: nat, kind: byte): (t: nat)
    ensures t < TWO_64
  {
    TWO_64 - 1 - (seqNum * 256 % TWO_64 + kind)
  }

  function Make(userKey: bytes, seqNum: nat, kind: byte): (ikey: bytes)
    ensures |ikey| == |userKey| + TRAILER_SIZE
    ensures ikey[..|userKey|] == userKey
  {
    userKey + BE(Trailer(seqNum, kind), TRAILER_SIZE)
  }

  function UserKey(ikey: bytes): bytes {
    if |ikey| < TRAILER_SIZE then ikey else ikey[..|ikey| - TRAILER_SIZE]
  }

  function Parse(ikey: bytes): Parsed {
    if |ikey| < TRAILER_SIZE then Parsed(ikey, 0, 0)
    else
      var trailer := ikey[|ikey| - TRAILER_SIZE..];
      BEOfFromBE(trailer);
      Pow256Values();
      var v: nat := TWO_64 - 1 - FromBE(trailer);
      Parsed(UserKey(ikey), v / 256, v % 256)
  }

  function Seq(ikey: bytes): nat { Parse(ikey).seqNum }

  function Kind(ikey: bytes): byte { Parse(ikey).kind }

  /** Parsing undoes making, up to the byte that the shift drops: sequence numbers come back
      modulo 2^56, so exactly those below 2^56 survive. */
  lemma {:induction false} ParseOfMake(userKey: bytes, seqNum: nat, kind: byte)
    ensures Parse(Make(userKey, seqNum, kind)) == Parsed(userKey, seqNum % TWO_56, kind)
    ensures UserKey(Make(userKey, seqNum, kind)) == userKey
  {
    var ikey := Make(userKey, seqNum, kind);
    assert ikey[|ikey| - TRAILER_SIZE..] == BE(Trailer(seqNum, kind), TRAILER_SIZE);
    Pow256Values();
    FromBEOfBE(Trailer(seqNum, kind), TRAILER_SIZE);
    assert seqNum * 256 % TWO_64 == (seqNum % TWO_56) * 256;
  }

  lemma {:induction false} TrailerOfParts(x: nat)
    requires x < TWO_64
    ensures var v := TWO_64 - 1 - x; v / 256 < TWO_56 && Trailer(v / 256, v % 256) == x
  {
  }

  /** Making undoes parsing for every string long enough to carry a trailer. */
  lemma {:induction false} MakeOfParse(ikey: bytes)
    requires |ikey| >= TRAILER_SIZE
    ensures var p := Parse(ikey); Make(p.userKey, p.seqNum, p.kind) == ikey && p.seqNum < TWO_56
  {
    hide BE, FromBE, Pow256;
    var t, p := ikey[|ikey| - TRAILER_SIZE..], Parse(ikey);
    BEOfFromBE(t);
    Pow256Values();
    TrailerOfParts(FromBE(t));
    assert ikey == UserKey(ikey) + t;
  }

  /** Newer first: higher sequence number, then set before delete. */
  predicate Newer(s: nat, k: byte, t: nat, j: byte) {
    s > t || (s == t && k > j)
  }

  lemma {:induction false} VersionOrder(u: bytes, s: nat, k: byte, t: nat, j: byte)
    requires s < TWO_56 && t < TWO_56
    ensures Less(Make(u, s, k), Make(u, t, j)) <==> Newer(s, k, t, j)
  {
    hide Less, BE, Pow256;
    var x, y := Trailer(s, k), Trailer(t, j);
    assert x == TWO_64 - 1 - (s * 256 + k) && y == TWO_64 - 1 - (t * 256 + j);
    Pow256Values();
    LessCommonPrefix(u, BE(x, TRAILER_SIZE), BE(y, TRAILER_SIZE));
    LessTotal(BE(x, TRAILER_SIZE), BE(y, TRAILER_SIZE));
    LessIrreflexive(BE(x, TRAILER_SIZE));
    assert x < y <==> Newer(s, k, t, j);
    if x < y {
      BEOrder(x, y, TRAILER_SIZE);
    } else if y < x {
      BEOrder(y, x, TRAILER_SIZE);
    }
  }

  /** Two strings that differ inside both decide the order of any extensions. */
  lemma {:induction false} UnrelatedExtensions(u: bytes, v: bytes, x: bytes, y: bytes)
    requires Unrelated(u, v) && u != v
    ensures Less(u + x, v + y) <==> Less(u, v)
  {
    var n := Lcp(u, v);
    if u[n] < v[n] {
      LessAt(u + x, v + y, n);
    } else {
      LessAt(v + y, u + x, n);
      LessAt(v, u, n);
      LessTotal(u + x, v + y);
      LessTotal(u, v);
    }
  }

  /** Byte order on internal keys is (user key ascending, sequence number descending, set before
      delete), as long as neither user key is a proper prefix of the other. */
  lemma {:induction false} InternalOrder(u: bytes, s: nat, k: byte, v: bytes, t: nat, j: byte)
    requires s < TWO_56 && t < TWO_56
    requires Unrelated(u, v)
    ensures Less(Make(u, s, k), Make(v, t, j)) <==> Less(u, v) || (u == v && Newer(s, k, t, j))
  {
    if u == v {
      VersionOrder(u, s, k, t, j);
      LessIrreflexive(u);
    } else {
      UnrelatedExtensions(u, v, BE(Trailer(s, k), TRAILER_SIZE), BE(Trailer(t, j), TRAILER_SIZE));
    }
  }

  lemma {:induction false} FirstTrailerByte()
    ensures BE(Trailer(1, KIND_SET), TRAILER_SIZE)[0] == 255
  {
    var t := Trailer(1, KIND_SET);
    assert t == 0xFFFF_FFFF_FFFF_FEFE;
    assert BE(t, 8)[0] == BE(t / 256, 7)[0];
    assert BE(t / 0x100, 7)[0] == BE(t / 0x1_0000, 6)[0];
    assert BE(t / 0x1_0000, 6)[0] == BE(t / 0x100_0000, 5)[0];
    assert BE(t / 0x100_0000, 5)[0] == BE(t / 0x1_0000_0000, 4)[0];
    assert BE(t / 0x1_0000_0000, 4)[0] == BE(t / 0x100_0000_0000, 3)[0];
    assert BE(t / 0x100_0000_0000, 3)[0] == BE(t / 0x1_0000_0000_0000, 2)[0];
    assert BE(t / 0x1_0000_0000_0000, 2)[0] == BE(t / 0x100_0000_0000_0000, 1)[0];
  }

  /** Without that hypothesis the order fails: "a" precedes "a\0", but version 1 of "a" sorts
      after version 1 of "a\0", because the trailer byte 0xFF meets the byte 0. */
  lemma {:induction false} PrefixBreaksOrder()
    ensures Less([97], [97, 0])
    ensures Less(Make([97, 0], 1, KIND_SET), Make([97], 1, KIND_SET))
  {
    LessAt([97], [97, 0], 1);
    FirstTrailerByte();
    assert Make([97], 1, KIND_SET)[1] == 255;
    LessAt(Make([97, 0], 1, KIND_SET), Make([97], 1, KIND_SET), 1);
  }

  /** Whatever sorts between two strings that start with u starts with u itself; so every byte
      string between two versions of one user key starts with that key. */
  lemma {:induction false} BetweenSharesPrefix(u: bytes, x: bytes, y: bytes, z: bytes)
    requires Less(u + x, z) && Less(z, u + y)
    ensures IsPrefix(u, z)
  {
  }
}
