/** Picking a compaction: which files to merge into the next level. */
module Compactions {
  import opened Bytes
  import opened Binary
  import opened Versions

  const L0_COMPACTION_THRESHOLD := 4
  const LEVEL_MULTIPLIER := 10
  const BASE_LEVEL_TARGET_SIZE := 4 * 1024 * 1024
  const TARGET_FILE_SIZE := 2 * 1024 * 1024

  /** The output level is the next one. */
  datatype Pick = Pick(level: nat, inputs: seq<FileMeta>, overlaps: seq<FileMeta>)

  datatype MaybePick = NoPick | Picked(p: Pick)

  function TotalSize(fs: seq<FileMeta>): nat {
    if fs == [] then 0 else TotalSize(fs[..|fs| - 1]) + fs[|fs| - 1].size
  }

  /** levelSize, in 64-bit arithmetic. */
  method LevelSize(fs: seq<FileMeta>) returns (total: nat)
    ensures total == TotalSize(fs) % TWO_64
  {
    total := 0;
    for i := 0 to |fs|
      invariant total == TotalSize(fs[..i]) % TWO_64
    {
      assert fs[..i + 1][..i] == fs[..i];
      total := (total + fs[i].size) % TWO_64;
    }
    assert fs[..|fs|] == fs;
  }

  function Power(b: nat, n: nat): nat {
    if n == 0 then 1 else b * Power(b, n - 1)
  }

  /** 4 MB for level 1, ten times as much for each further level. */
  method TargetLevelSize(level: nat) returns (size: nat)
    ensures size == BASE_LEVEL_TARGET_SIZE * Power(LEVEL_MULTIPLIER, if level == 0 then 0 else level - 1)
  {
    size := BASE_LEVEL_TARGET_SIZE;
    var i := 1;
    while i < level
      invariant 1 <= i && (i <= level || i == 1)
      invariant size == BASE_LEVEL_TARGET_SIZE * Power(LEVEL_MULTIPLIER, i - 1)
    {
      size := size * LEVEL_MULTIPLIER;
      i := i + 1;
    }
  }

  /** 2 MB, doubled for each level. */
  method TargetFileSize(level: nat) returns (size: nat)
    ensures size == TARGET_FILE_SIZE * Power(2, level) && size > 0
  {
    size := TARGET_FILE_SIZE;
    for i := 0 to level
      invariant size == TARGET_FILE_SIZE * Power(2, i) && size > 0
    {
      size := size * 2;
    }
  }

  // ---- key ranges

  /** A key that may be nil. The bounds of an empty table are nil as the writer leaves them, but not
      any more once they have been read back from the manifest; nil and empty compare alike. */
  datatype Bound = Nil | Bounded(k: bytes) {
    function Bytes(): bytes {
      if Nil? then [] else k
    }
  }

  /** A bound of a file; decoded are the files whose metadata comes from the manifest. */
  function BoundOf(key: bytes, f: FileMeta, decoded: set<nat>): Bound {
    if key == [] && f.fileNum !in decoded then Nil else Bounded(key)
  }

  /** The range that keyRange computes; nil stands for "not set yet". */
  function RangeOf(files: seq<FileMeta>, decoded: set<nat>): (Bound, Bound) {
    if files == [] then (Nil, Nil)
    else
      var n := |files| - 1;
      var r, f := RangeOf(files[..n], decoded), files[n];
      (if r.0.Nil? || Less(f.smallest, r.0.Bytes()) then BoundOf(f.smallest, f, decoded) else r.0,
       if r.1.Nil? || Less(r.1.Bytes(), f.largest) then BoundOf(f.largest, f, decoded) else r.1)
  }

  /** The range covers every file. */
  ghost predicate Covers(files: seq<FileMeta>, smallest: bytes, largest: bytes) {
    forall i :: 0 <= i < |files| ==> LessEq(smallest, files[i].smallest) && LessEq(files[i].largest, largest)
  }

  method KeyRange(files: seq<FileMeta>, decoded: set<nat>) returns (smallest: Bound, largest: Bound)
    ensures (smallest, largest) == RangeOf(files, decoded)
  {
    hide Less;
    smallest, largest := Nil, Nil;
    for i := 0 to |files|
      invariant (smallest, largest) == RangeOf(files[..i], decoded)
    {
      assert files[..i + 1][..i] == files[..i];
      var c := CompareKeys(files[i].smallest, smallest.Bytes());
      if smallest.Nil? || c < 0 {
        smallest := BoundOf(files[i].smallest, files[i], decoded);
      }
      c := CompareKeys(files[i].largest, largest.Bytes());
      if largest.Nil? || c > 0 {
        largest := BoundOf(files[i].largest, files[i], decoded);
      }
    }
    assert files[..|files|] == files;
  }

  /** The table has no entries. */
  predicate EmptyTable(f: FileMeta) {
    f.smallest == []
  }

  /** A table has both bounds or none. */
  ghost predicate BoundsPaired(files: seq<FileMeta>) {
    forall i :: 0 <= i < |files| ==> (files[i].smallest == [] <==> files[i].largest == [])
  }

  /** The files of a level hold entries. */
  ghost predicate KeysSet(fs: seq<FileMeta>) {
    forall i :: 0 <= i < |fs| ==> fs[i].smallest != [] && fs[i].largest != []
  }

  ghost predicate EmptyDecoded(files: seq<FileMeta>, decoded: set<nat>) {
    exists i :: 0 <= i < |files| && EmptyTable(files[i]) && files[i].fileNum in decoded
  }

  /** No table is empty, or one is that has been read back, or the last one is. */
  ghost predicate RangeRight(files: seq<FileMeta>, decoded: set<nat>) {
    || (forall i :: 0 <= i < |files| ==> !EmptyTable(files[i]))
    || EmptyDecoded(files, decoded)
    || (files != [] && EmptyTable(files[|files| - 1]))
  }

  /** The computed range covers all files if and only if that is so: an empty table's nil is taken for
      "not set", and the range restarts behind it. */
  lemma {:induction false} RangeCoversIff(files: seq<FileMeta>, decoded: set<nat>)
    requires BoundsPaired(files)
    ensures Covers(files, RangeOf(files, decoded).0.Bytes(), RangeOf(files, decoded).1.Bytes())
      <==> RangeRight(files, decoded)
  {
    hide Less, LessEq;
    LargestCovers(files, decoded);
    SmallestIs(files, decoded);
    var smallest := RangeOf(files, decoded).0;
    EmptyIsLeast();
    if !RangeRight(files, decoded) {
      var i :| 0 <= i < |files| && EmptyTable(files[i]);
      assert !LessEq(smallest.k, files[i].smallest);
    }
  }

  lemma {:induction false} EmptyIsLeast()
    ensures forall k :: LessEq([], k)
    ensures forall k :: LessEq(k, []) ==> k == []
  {
  }

  lemma {:induction false} LargestCovers(files: seq<FileMeta>, decoded: set<nat>)
    ensures forall i :: 0 <= i < |files| ==> LessEq(files[i].largest, RangeOf(files, decoded).1.Bytes())
  {
    hide Less, LessEq;
    if files != [] {
      var n := |files| - 1;
      LargestCovers(files[..n], decoded);
      var l, l', f := RangeOf(files[..n], decoded).1.Bytes(), RangeOf(files, decoded).1.Bytes(), files[n];
      EmptyIsLeast();
      LessTotal(l, f.largest);
      NotBelow(l, f.largest);
      NotBelow(f.largest, f.largest);
      forall i | 0 <= i < n
        ensures LessEq(files[i].largest, l')
      {
        assert files[..n][i] == files[i];
        LessEqTransitive(files[i].largest, l, l');
      }
    }
  }

  lemma {:induction false} NotBelow(a: bytes, b: bytes)
    ensures if Less(a, b) then LessEq(a, b) else LessEq(b, a)
    ensures LessEq(a, a)
  {
  }

  /** What the lower bound is in each case. */
  lemma {:induction false} SmallestIs(files: seq<FileMeta>, decoded: set<nat>)
    requires BoundsPaired(files)
    ensures var s := RangeOf(files, decoded).0;
      if EmptyDecoded(files, decoded) then s == Bounded([])
      else if files == [] || EmptyTable(files[|files| - 1]) then s == Nil
      else s.Bounded? && s.k != []
    ensures (forall i :: 0 <= i < |files| ==> !EmptyTable(files[i]))
      ==> forall i :: 0 <= i < |files| ==> LessEq(RangeOf(files, decoded).0.Bytes(), files[i].smallest)
  {
    hide Less, LessEq;
    if files != [] {
      var n := |files| - 1;
      SmallestIs(files[..n], decoded);
      var s, s', f := RangeOf(files[..n], decoded).0, RangeOf(files, decoded).0, files[n];
      NothingBelow(f.smallest, s.Bytes());
      NotBelow(f.smallest, s.Bytes());
      assert EmptyDecoded(files, decoded) <==> EmptyDecoded(files[..n], decoded) || (EmptyTable(f) && f.fileNum in decoded) by {
        EmptyDecodedMore(files, decoded);
      }
      if forall i :: 0 <= i < |files| ==> !EmptyTable(files[i]) {
        assert !EmptyDecoded(files, decoded);
        forall i | 0 <= i < |files|
          ensures LessEq(s'.Bytes(), files[i].smallest)
        {
          if i < n {
            assert files[..n][i] == files[i] && !EmptyTable(files[n - 1]) && files[..n][n - 1] == files[n - 1];
            LessEqTransitive(s'.Bytes(), s.Bytes(), files[i].smallest);
          } else {
            NotBelow(s'.Bytes(), f.smallest);
          }
        }
      }
    }
  }

  lemma {:induction false} EmptyDecodedMore(files: seq<FileMeta>, decoded: set<nat>)
    requires files != []
    ensures var n := |files| - 1;
      EmptyDecoded(files, decoded) <==> EmptyDecoded(files[..n], decoded) || (EmptyTable(files[n]) && files[n].fileNum in decoded)
  {
    var n := |files| - 1;
    if i :| 0 <= i < |files| && EmptyTable(files[i]) && files[i].fileNum in decoded {
      assert i < n ==> files[..n][i] == files[i];
    }
    if i :| 0 <= i < n && EmptyTable(files[..n][i]) && files[..n][i].fileNum in decoded {
      assert files[..n][i] == files[i];
    }
  }

  lemma {:induction false} NothingBelow(a: bytes, b: bytes)
    ensures b == [] ==> !Less(a, b)
    ensures a == [] && b != [] ==> Less(a, b)
  {
  }

  // ---- picking

  /** What a pick promises: all of level 0 or one file of a deeper level that has a next one, and
      the files of the next level that meet a range covering them. */
  ghost predicate PickOk(v: Levels, p: Pick) {
    && p.level < NUM_LEVELS - 1 && p.inputs != []
    && (p.level == 0 ==> p.inputs == v[0])
    && (p.level > 0 ==> |p.inputs| == 1 && p.inputs[0] in v[p.level])
    && exists smallest, largest :: Covers(p.inputs, smallest, largest)
         && p.overlaps == Touching(v[p.level + 1], smallest, largest)
  }

  /** What pickCompaction makes of a version, whatever tables are empty and whichever files have been
      read back from the manifest. */
  ghost predicate PickMade(v: Levels, p: Pick) {
    if p.level == 0 then v[0] != [] && exists decoded :: p == PickOfL0(v, decoded) else PickOk(v, p)
  }

  function PickOfL0(v: Levels, decoded: set<nat>): Pick {
    var r := RangeOf(v[0], decoded);
    Pick(0, v[0], Touching(v[1], r.0.Bytes(), r.1.Bytes()))
  }

  /** pickL0Compaction: all of level 0, and what meets the computed range. */
  method PickL0(v: Levels, decoded: set<nat>) returns (p: Pick)
    ensures p == PickOfL0(v, decoded)
    ensures v[0] != [] && BoundsPaired(v[0]) && RangeRight(v[0], decoded) ==> PickOk(v, p)
  {
    hide RangeOf, RangeRight, Touching, Covers;
    var inputs := v[0];
    var smallest, largest := KeyRange(inputs, decoded);
    var overlaps := Overlapping(v[1], smallest.Bytes(), largest.Bytes());
    p := Pick(0, inputs, overlaps);
    if BoundsPaired(inputs) && RangeRight(inputs, decoded) {
      RangeCoversIff(inputs, decoded);
    }
  }

  method PickLevel(v: Levels, level: nat) returns (p: MaybePick)
    requires 0 < level < NUM_LEVELS - 1
    ensures p == NoPick <==> v[level] == []
    ensures p.Picked? ==> PickOk(v, p.p) && p.p.level == level
    ensures p.Picked? ==> forall f :: f in v[level] ==> f.size <= p.p.inputs[0].size
  {
    hide Touching, Less;
    var fs := v[level];
    if fs == [] {
      return NoPick;
    }
    var k := 0;
    for i := 1 to |fs|
      invariant k < i && forall j :: 0 <= j < i ==> fs[j].size <= fs[k].size
    {
      if fs[i].size > fs[k].size {
        k := i;
      }
    }
    var pick := fs[k];
    var overlaps := Overlapping(v[level + 1], pick.smallest, pick.largest);
    assert Covers([pick], pick.smallest, pick.largest);
    return Picked(Pick(level, [pick], overlaps));
  }

  /** The level that is due: level 0 by file count, else the first one over its target size. */
  ghost predicate Due(v: Levels, level: nat) {
    if level == 0 then |v[0]| >= L0_COMPACTION_THRESHOLD
    else
      && level < NUM_LEVELS - 1
      && TotalSize(v[level]) % TWO_64 > BASE_LEVEL_TARGET_SIZE * Power(LEVEL_MULTIPLIER, level - 1)
  }

  method PickCompaction(v: Levels, decoded: set<nat>) returns (p: MaybePick)
    ensures p == NoPick <==> forall level: nat :: level < NUM_LEVELS - 1 ==> !Due(v, level)
    ensures p.Picked? ==> Due(v, p.p.level) && PickMade(v, p.p)
    ensures p.Picked? && (p.p.level == 0 ==> BoundsPaired(v[0]) && RangeRight(v[0], decoded)) ==> PickOk(v, p.p)
    ensures p.Picked? ==> forall level: nat :: level < p.p.level ==> !Due(v, level)
  {
    hide PickOk, Power, RangeRight, RangeOf;
    if |v[0]| >= L0_COMPACTION_THRESHOLD {
      var l0 := PickL0(v, decoded);
      assert Due(v, 0);
      return Picked(l0);
    }
    for level := 1 to NUM_LEVELS - 1
      invariant forall l: nat :: l < level ==> !Due(v, l)
    {
      var target := TargetLevelSize(level);
      var size := LevelSize(v[level]);
      if size > target {
        assert Due(v, level);
        p := PickLevel(v, level);
        return;
      }
    }
    return NoPick;
  }
}
