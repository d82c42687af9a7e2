/** What flushes and compactions keep: true metadata, disjoint levels, and every stored entry; and
    why the compaction loop stops. */
module CompactionTree {
  import opened Bytes
  import opened Block
  import opened Merge
  import opened Versions
  import opened Compactions
  import opened CompactionMerge

  /** The live levels, the tables on disk, and the file numbers given out. */
  datatype Tree = Tree(v: Levels, disk: Disk, nextFileNum: nat)

  /** A live table holds the entry. */
  ghost predicate Has(t: Tree, e: Entry) {
    exists l, f :: 0 <= l < NUM_LEVELS && f in t.v[l] && f.fileNum in t.disk && e in t.disk[f.fileNum]
  }

  ghost predicate FileOk(t: Tree, l: int, f: FileMeta) {
    f.level == l && f.fileNum < t.nextFileNum && f.fileNum in t.disk && MetaOf(f, t.disk[f.fileNum])
  }

  ghost predicate FilesOk(t: Tree) {
    forall l, f :: 0 <= l < NUM_LEVELS && f in t.v[l] ==> FileOk(t, l, f)
  }

  /** A file number names one file. */
  ghost predicate Unique(v: Levels) {
    forall k, f, l, g ::
      0 <= k < NUM_LEVELS && 0 <= l < NUM_LEVELS && f in v[k] && g in v[l] && f.fileNum == g.fileNum ==> f == g
  }

  ghost predicate NoRepeat(fs: seq<FileMeta>) {
    forall i, j :: 0 <= i < j < |fs| ==> fs[i] != fs[j]
  }

  /** Levels 1 to 6 are sorted and their files do not overlap. */
  ghost predicate Disjoint(v: Levels) {
    forall l :: 1 <= l < NUM_LEVELS ==> InOrder(v[l])
  }

  ghost predicate TreeOk(t: Tree) {
    FilesOk(t) && Unique(t.v) && NoRepeat(t.v[0]) && Disjoint(t.v)
  }

  /** As much of it as the stored entries need, whatever the ranges of the files are. */
  ghost predicate Kept(t: Tree) {
    (forall l, f :: 0 <= l < NUM_LEVELS && f in t.v[l] ==> FileKept(t, l, f)) && Unique(t.v)
  }

  ghost predicate FileKept(t: Tree, l: int, f: FileMeta) {
    f.level == l && f.fileNum < t.nextFileNum && f.fileNum in t.disk
  }

  /** No two stored entries share an internal key. */
  ghost predicate Consistent(t: Tree) {
    forall d, e :: Has(t, d) && Has(t, e) && d.key == e.key ==> d == e
  }

  // ---- the steps

  function DeletionsOf(fs: seq<FileMeta>, level: int): (r: seq<Deleted>)
    ensures |r| == |fs| && forall i :: 0 <= i < |fs| ==> r[i] == Deleted(level, fs[i].fileNum)
  {
    seq(|fs|, i requires 0 <= i < |fs| => Deleted(level, fs[i].fileNum))
  }

  function CompactionEdit(p: Pick, outs: seq<Table>): Edit {
    Edit(Absent, Absent, Metas(outs), DeletionsOf(p.inputs, p.level) + DeletionsOf(p.overlaps, p.level + 1))
  }

  function Written(disk: Disk, outs: seq<Table>): Disk {
    if outs == [] then disk
    else Written(disk, outs[..|outs| - 1])[outs[|outs| - 1].meta.fileNum := outs[|outs| - 1].es]
  }

  function Merging(p: Pick): seq<FileMeta> {
    p.inputs + p.overlaps
  }

  function Nums(fs: seq<FileMeta>): set<nat> {
    set i | 0 <= i < |fs| :: fs[i].fileNum
  }

  /** Writes the outputs, applies the edit, removes the merged files. */
  function AfterCompaction(t: Tree, p: Pick, outs: seq<Table>, next: nat): Tree {
    Tree(Applied(t.v, CompactionEdit(p, outs)), Written(t.disk, outs) - Nums(Merging(p)), next)
  }

  function AfterFlush(t: Tree, f: FileMeta, es: seq<Entry>, next: nat): Tree {
    Tree(Applied(t.v, Edit(Absent, Absent, [f], [])), t.disk[f.fileNum := es], next)
  }

  /** A pick whose files are still live: what picking promises and a flush does not disturb. */
  ghost predicate Standing(v: Levels, p: Pick) {
    && p.level < NUM_LEVELS - 1 && p.inputs != [] && NoRepeat(p.inputs)
    && (forall f :: f in p.inputs ==> f in v[p.level])
    && exists smallest, largest :: Covers(p.inputs, smallest, largest)
         && p.overlaps == Touching(v[p.level + 1], smallest, largest)
  }

  /** As much of it as the stored entries need: the files are those of the two levels. */
  ghost predicate StandingKept(v: Levels, p: Pick) {
    && p.level < NUM_LEVELS - 1
    && (forall f :: f in p.inputs ==> f in v[p.level]) && forall f :: f in p.overlaps ==> f in v[p.level + 1]
  }

  lemma {:induction false} KeptOf(t: Tree, p: Pick)
    ensures FilesOk(t) && Unique(t.v) ==> Kept(t)
    ensures TreeOk(t) ==> Kept(t)
    ensures Standing(t.v, p) ==> StandingKept(t.v, p)
  {
    hide MetaOf;
    if FilesOk(t) {
      forall l, f | 0 <= l < NUM_LEVELS && f in t.v[l]
        ensures FileKept(t, l, f)
      {
        assert FileOk(t, l, f);
      }
    }
  }

  function Cursors(fs: seq<FileMeta>, disk: Disk): (r: seq<Cursor>)
    requires forall f :: f in fs ==> f.fileNum in disk
    ensures |r| == |fs|
  {
    seq(|fs|, i requires 0 <= i < |fs| => Cursor(disk[fs[i].fileNum], 0))
  }

  /** File numbers that no live file has. */
  ghost predicate Fresh(t: Tree, outs: seq<Table>, next: nat) {
    && t.nextFileNum <= next
    && (forall i :: 0 <= i < |outs| ==> outs[i].meta.fileNum < next)
    && (forall i, j :: 0 <= i < j < |outs| ==> outs[i].meta.fileNum != outs[j].meta.fileNum)
    && forall i, l, f :: 0 <= i < |outs| && 0 <= l < NUM_LEVELS && f in t.v[l] ==> outs[i].meta.fileNum != f.fileNum
  }

  /** The outputs are the merge of the picked tables. */
  ghost predicate MergeOf(t: Tree, p: Pick, outs: seq<Table>, nums: nat -> nat)
    requires forall f :: f in Merging(p) ==> f.fileNum in t.disk
  {
    && OutputsOk(outs, p.level + 1, nums) && Sorted(Flat(outs))
    && ToMap(Flat(outs)) == Merged(AtStart(Cursors(Merging(p), t.disk)))
    && |Flat(outs)| <= Remaining(AtStart(Cursors(Merging(p), t.disk)))
  }

  /** The merged files are gone, from their levels and from disk, the outputs are in the level below the
      one picked, and everything else is where it was. */
  ghost predicate Replaced(t: Tree, p: Pick, outs: seq<Table>, t': Tree) {
    && (forall l, f :: 0 <= l < NUM_LEVELS ==>
          (f in t'.v[l] <==> (f in t.v[l] && f !in Merging(p)) || (l == p.level + 1 && f in Metas(outs))))
    && (forall l, f :: 0 <= l < NUM_LEVELS && f in t.v[l] && f !in Merging(p) ==>
          f.fileNum in t.disk && f.fileNum in t'.disk && t'.disk[f.fileNum] == t.disk[f.fileNum])
    && (forall i :: 0 <= i < |outs| ==> outs[i].meta.fileNum in t'.disk && t'.disk[outs[i].meta.fileNum] == outs[i].es)
    && (forall f :: f in Merging(p) ==> f.fileNum !in t'.disk)
  }

  lemma {:induction false} MergingLive(t: Tree, p: Pick)
    requires FilesOk(t) && Standing(t.v, p)
    ensures forall f :: f in p.overlaps ==> f in t.v[p.level + 1]
    ensures forall f :: f in Merging(p) ==>
      f.fileNum in t.disk && MetaOf(f, t.disk[f.fileNum]) && f.fileNum < t.nextFileNum
  {
  }

  // ---- what the merge holds

  lemma {:induction false} MapEntry(es: seq<Entry>, k: bytes)
    requires k in ToMap(es)
    ensures Entry(k, ToMap(es)[k]) in es
  {
    if k != es[0].key {
      MapEntry(es[1..], k);
    }
  }

  lemma {:induction false} EntryInMap(es: seq<Entry>, e: Entry)
    requires e in es
    ensures e.key in ToMap(es)
  {
    InToMap(es, e.key);
  }

  lemma {:induction false} CursorRest(fs: seq<FileMeta>, disk: Disk, i: nat)
    requires forall f :: f in fs ==> f.fileNum in disk
    requires i < |fs|
    ensures AtStart(Cursors(fs, disk))[i].Rest() == disk[fs[i].fileNum]
  {
  }

  /** Every merged entry comes from one of the tables. */
  lemma {:induction false} MergedFrom(fs: seq<FileMeta>, disk: Disk, es: seq<Entry>, e: Entry) returns (f: FileMeta)
    requires forall f :: f in fs ==> f.fileNum in disk
    requires Sorted(es) && ToMap(es) == Merged(AtStart(Cursors(fs, disk))) && e in es
    ensures f in fs && e in disk[f.fileNum]
  {
    hide Merged, ToMap, AtStart, Cursors, Sorted;
    var iters := AtStart(Cursors(fs, disk));
    EntryInMap(es, e);
    SortedValue(es, e);
    var i := MergedHas(iters, e.key);
    var j := MergedContains(iters, e.key, i);
    MergedAt(iters, e.key, j);
    CursorRest(fs, disk, j);
    MapEntry(disk[fs[j].fileNum], e.key);
    f := fs[j];
  }

  /** No key of a table is lost. */
  lemma {:induction false} MergedKeeps(fs: seq<FileMeta>, disk: Disk, es: seq<Entry>, f: FileMeta, e: Entry)
    returns (d: Entry)
    requires forall f :: f in fs ==> f.fileNum in disk
    requires ToMap(es) == Merged(AtStart(Cursors(fs, disk))) && f in fs && e in disk[f.fileNum]
    ensures d in es && d.key == e.key
  {
    hide Merged, ToMap, AtStart, Cursors;
    var iters := AtStart(Cursors(fs, disk));
    var i :| 0 <= i < |fs| && fs[i] == f;
    CursorRest(fs, disk, i);
    EntryInMap(disk[f.fileNum], e);
    var j := MergedContains(iters, e.key, i);
    MapEntry(es, e.key);
    d := Entry(e.key, ToMap(es)[e.key]);
  }

  lemma {:induction false} SortedValue(es: seq<Entry>, e: Entry)
    requires Sorted(es) && e in es
    ensures e.key in ToMap(es) && ToMap(es)[e.key] == e.value
  {
    hide Less;
    if e != es[0] {
      SortedTail(es);
      SortedValue(es[1..], e);
      LessIrreflexive(e.key);
    }
  }

  lemma {:induction false} InFlat(outs: seq<Table>, e: Entry)
    ensures e in Flat(outs) <==> exists i :: 0 <= i < |outs| && e in outs[i].es
  {
    if outs != [] {
      var n := |outs| - 1;
      InFlat(outs[..n], e);
      if i :| 0 <= i < |outs| && e in outs[i].es {
        if i < n {
          assert e in outs[..n][i].es;
        }
      }
      if e in Flat(outs[..n]) {
        var i :| 0 <= i < n && e in outs[..n][i].es;
        assert e in outs[i].es;
      }
    }
  }

  lemma {:induction false} WrittenAt(disk: Disk, outs: seq<Table>)
    requires forall i, j :: 0 <= i < j < |outs| ==> outs[i].meta.fileNum != outs[j].meta.fileNum
    ensures forall i :: 0 <= i < |outs| ==>
      outs[i].meta.fileNum in Written(disk, outs) && Written(disk, outs)[outs[i].meta.fileNum] == outs[i].es
    ensures forall n :: (forall i :: 0 <= i < |outs| ==> outs[i].meta.fileNum != n) ==>
      (n in Written(disk, outs) <==> n in disk) && (n in disk ==> Written(disk, outs)[n] == disk[n])
  {
    if outs != [] {
      var n := |outs| - 1;
      WrittenAt(disk, outs[..n]);
      assert forall i :: 0 <= i < n ==> outs[..n][i] == outs[i];
    }
  }

  // ---- the new version

  lemma {:induction false} GoneIff(p: Pick, outs: seq<Table>, n: nat)
    ensures Gone(CompactionEdit(p, outs).deleted, n) <==> n in Nums(Merging(p))
  {
    var ds := CompactionEdit(p, outs).deleted;
    var fs := Merging(p);
    assert |ds| == |fs|;
    assert forall i :: 0 <= i < |fs| ==> ds[i].fileNum == fs[i].fileNum;
  }

  /** The files of the new version: the live ones that were not merged, and the outputs. */
  lemma {:induction false} CompactedExactly(t: Tree, p: Pick, outs: seq<Table>, next: nat, l: nat, f: FileMeta)
    requires l < NUM_LEVELS
    ensures f in AfterCompaction(t, p, outs, next).v[l] <==>
      (f in t.v[l] && f.fileNum !in Nums(Merging(p))) || (f in Metas(outs) && f.level == l)
  {
    hide Applied, Gone, Nums;
    AppliedExactly(t.v, CompactionEdit(p, outs), l, f);
    GoneIff(p, outs, f.fileNum);
  }

  /** Deleting by number deletes exactly the merged files. */
  lemma {:induction false} MergedNums(t: Tree, p: Pick, l: nat, f: FileMeta)
    requires Kept(t) && StandingKept(t.v, p) && l < NUM_LEVELS && f in t.v[l]
    ensures f.fileNum in Nums(Merging(p)) <==> f in Merging(p)
    ensures f in Merging(p) ==> (l == p.level && f in p.inputs) || (l == p.level + 1 && f in p.overlaps)
  {
    hide Unique;
    var fs := Merging(p);
    forall i | 0 <= i < |fs|
      ensures if i < |p.inputs| then fs[i] in p.inputs && FileKept(t, p.level, fs[i])
              else fs[i] in p.overlaps && FileKept(t, p.level + 1, fs[i])
    {
    }
    if f.fileNum in Nums(fs) {
      var i :| 0 <= i < |fs| && fs[i].fileNum == f.fileNum;
      SameFile(t.v, if i < |p.inputs| then p.level else p.level + 1, fs[i], l, f);
    }
    if f in fs {
      var i :| 0 <= i < |fs| && fs[i] == f;
      assert FileKept(t, l, f);
    }
  }

  lemma {:induction false} SameFile(v: Levels, k: nat, f: FileMeta, l: nat, g: FileMeta)
    requires Unique(v) && k < NUM_LEVELS && l < NUM_LEVELS && f in v[k] && g in v[l] && f.fileNum == g.fileNum
    ensures f == g
  {
  }

  lemma {:induction false} CompactionFilesOk(t: Tree, p: Pick, outs: seq<Table>, nums: nat -> nat, next: nat)
    requires FilesOk(t) && Unique(t.v) && Standing(t.v, p) && OutputsOk(outs, p.level + 1, nums) && Fresh(t, outs, next)
    ensures FilesOk(AfterCompaction(t, p, outs, next))
  {
    hide MetaOf, Standing, Written, Nums, Merging, AfterCompaction, Unique, InOrder;
    var t' := AfterCompaction(t, p, outs, next);
    AfterIs(t, p, outs, next);
    KeptOf(t, p);
    WrittenAt(t.disk, outs);
    forall l, f | 0 <= l < NUM_LEVELS && f in t'.v[l]
      ensures FileOk(t', l, f)
    {
      CompactedExactly(t, p, outs, next, l, f);
      if f in Metas(outs) {
        var i :| 0 <= i < |outs| && Metas(outs)[i] == f;
        OutputNotMerged(t, p, outs, next, i);
      } else {
        assert FileOk(t, l, f);
      }
    }
  }

  lemma {:induction false} CompactionUnique(t: Tree, p: Pick, outs: seq<Table>, next: nat)
    requires Unique(t.v) && Fresh(t, outs, next)
    ensures Unique(AfterCompaction(t, p, outs, next).v)
  {
    hide Nums, Merging, AfterCompaction;
    var v' := AfterCompaction(t, p, outs, next).v;
    forall k, f, l, g |
      0 <= k < NUM_LEVELS && 0 <= l < NUM_LEVELS && f in v'[k] && g in v'[l] && f.fileNum == g.fileNum
      ensures f == g
    {
      CompactedExactly(t, p, outs, next, k, f);
      CompactedExactly(t, p, outs, next, l, g);
    }
  }

  lemma {:induction false} AfterIs(t: Tree, p: Pick, outs: seq<Table>, next: nat)
    ensures AfterCompaction(t, p, outs, next).disk == Written(t.disk, outs) - Nums(Merging(p))
    ensures AfterCompaction(t, p, outs, next).nextFileNum == next
  {
  }

  lemma {:induction false} OutputNotMerged(t: Tree, p: Pick, outs: seq<Table>, next: nat, i: nat)
    requires StandingKept(t.v, p) && Fresh(t, outs, next) && i < |outs|
    ensures outs[i].meta.fileNum !in Nums(Merging(p))
  {
    var fs := Merging(p);
    forall j | 0 <= j < |fs|
      ensures fs[j].fileNum != outs[i].meta.fileNum
    {
      assert fs[j] in p.inputs || fs[j] in p.overlaps;
    }
  }

  /** What a compaction does to the tree. */
  lemma {:induction false} CompactionReplaces(t: Tree, p: Pick, outs: seq<Table>, nums: nat -> nat, next: nat)
    requires Kept(t) && StandingKept(t.v, p) && OutputsOk(outs, p.level + 1, nums) && Fresh(t, outs, next)
    ensures Replaced(t, p, outs, AfterCompaction(t, p, outs, next))
  {
    hide Kept, StandingKept, Fresh, OutputsOk, Nums, Merging, AfterCompaction, Written;
    var t' := AfterCompaction(t, p, outs, next);
    forall l, f | 0 <= l < NUM_LEVELS
      ensures f in t'.v[l] <==> (f in t.v[l] && f !in Merging(p)) || (l == p.level + 1 && f in Metas(outs))
    {
      LiveAfter(t, p, outs, nums, next, l, f);
    }
    forall l, f | 0 <= l < NUM_LEVELS && f in t.v[l] && f !in Merging(p)
      ensures f.fileNum in t.disk && f.fileNum in t'.disk && t'.disk[f.fileNum] == t.disk[f.fileNum]
    {
      DiskAfter(t, p, outs, next, l, f);
    }
    AfterIs(t, p, outs, next);
    FreshNums(t, outs, next);
    WrittenAt(t.disk, outs);
    InNums(Merging(p));
    forall i: nat | i < |outs|
      ensures outs[i].meta.fileNum !in Nums(Merging(p))
    {
      OutputNotMerged(t, p, outs, next, i);
    }
  }

  lemma {:induction false} LiveAfter(t: Tree, p: Pick, outs: seq<Table>, nums: nat -> nat, next: nat, l: nat, f: FileMeta)
    requires Kept(t) && StandingKept(t.v, p) && OutputsOk(outs, p.level + 1, nums) && l < NUM_LEVELS
    ensures f in AfterCompaction(t, p, outs, next).v[l] <==>
      (f in t.v[l] && f !in Merging(p)) || (l == p.level + 1 && f in Metas(outs))
  {
    hide Kept, StandingKept, OutputsOk, Nums, Merging, AfterCompaction;
    OutputsLevel(outs, p.level + 1, nums);
    CompactedExactly(t, p, outs, next, l, f);
    if f in t.v[l] {
      MergedNums(t, p, l, f);
    }
  }

  lemma {:induction false} DiskAfter(t: Tree, p: Pick, outs: seq<Table>, next: nat, l: nat, f: FileMeta)
    requires Kept(t) && StandingKept(t.v, p) && Fresh(t, outs, next) && l < NUM_LEVELS && f in t.v[l] && f !in Merging(p)
    ensures var disk := AfterCompaction(t, p, outs, next).disk;
      f.fileNum in t.disk && f.fileNum in disk && disk[f.fileNum] == t.disk[f.fileNum]
  {
    hide StandingKept, Fresh, Nums, Merging, AfterCompaction, Written, Unique;
    AfterIs(t, p, outs, next);
    FreshNums(t, outs, next);
    WrittenAt(t.disk, outs);
    MergedNums(t, p, l, f);
    assert FileKept(t, l, f);
  }

  lemma {:induction false} InNums(fs: seq<FileMeta>)
    ensures forall f :: f in fs ==> f.fileNum in Nums(fs)
  {
  }

  lemma {:induction false} OutputsLevel(outs: seq<Table>, level: nat, nums: nat -> nat)
    requires OutputsOk(outs, level, nums)
    ensures forall f :: f in Metas(outs) ==> f.level == level
  {
    hide MetaOf, InOrder;
  }

  lemma {:induction false} FreshNums(t: Tree, outs: seq<Table>, next: nat)
    requires Fresh(t, outs, next)
    ensures forall i, j :: 0 <= i < j < |outs| ==> outs[i].meta.fileNum != outs[j].meta.fileNum
    ensures forall i, l, f :: 0 <= i < |outs| && 0 <= l < NUM_LEVELS && f in t.v[l] ==> outs[i].meta.fileNum != f.fileNum
  {
  }

  // ---- disjoint levels

  /** A run of files from before the last one takes the last one at its end. */
  lemma {:induction false} InOrderAdd(fs: seq<FileMeta>, r: seq<FileMeta>)
    requires InOrder(fs) && fs != [] && InOrder(r) && forall f :: f in r ==> f in fs[..|fs| - 1]
    ensures InOrder(r + [fs[|fs| - 1]])
  {
    hide Less, RangeOk;
    var n := |fs| - 1;
    forall i | 0 <= i < |r|
      ensures Less(r[i].largest, fs[n].smallest)
    {
      assert r[i] in r;
      var k :| 0 <= k < n && fs[..n][k] == r[i];
    }
  }

  lemma {:induction false} SurvivorsInOrder(fs: seq<FileMeta>, gone: set<nat>)
    requires InOrder(fs)
    ensures InOrder(Survivors(fs, gone))
  {
    hide InOrder;
    if fs == [] {
      InOrderNone();
    } else {
      var n := |fs| - 1;
      InOrderPrefix(fs, n);
      SurvivorsInOrder(fs[..n], gone);
      SurvivorsExactly(fs[..n], gone);
      var r := Survivors(fs[..n], gone);
      InOrderAdd(fs, r);
      assert r + [] == r;
    }
  }

  lemma {:induction false} SurvivorsNoRepeat(fs: seq<FileMeta>, gone: set<nat>)
    requires NoRepeat(fs)
    ensures NoRepeat(Survivors(fs, gone))
  {
    if fs != [] {
      var n := |fs| - 1;
      SurvivorsNoRepeat(fs[..n], gone);
      SurvivorsExactly(fs[..n], gone);
      var r := Survivors(fs[..n], gone);
      forall i | 0 <= i < |r|
        ensures r[i] != fs[n]
      {
        assert r[i] in fs[..n];
        var k :| 0 <= k < n && fs[..n][k] == r[i];
      }
    }
  }

  lemma {:induction false} ArrivalsAll(fs: seq<FileMeta>, level: int)
    requires forall i :: 0 <= i < |fs| ==> fs[i].level == level
    ensures Arrivals(fs, level) == fs
    ensures forall l :: l != level ==> Arrivals(fs, l) == []
  {
    if fs != [] {
      var n := |fs| - 1;
      ArrivalsAll(fs[..n], level);
      assert fs == fs[..n] + [fs[n]];
    }
  }

  /** Two runs in order that are apart from each other sort into one run in order. */
  lemma {:induction false} UnionInOrder(fs: seq<FileMeta>, gs: seq<FileMeta>)
    requires InOrder(fs) && InOrder(gs)
    requires forall i, j :: 0 <= i < |fs| && 0 <= j < |gs| ==> Apart(fs[i], gs[j])
    ensures InOrder(SortFiles(fs + gs))
  {
    hide Less, RangeOk, SortFiles;
    SortInOrder(fs + gs);
  }

  /** A file of the output level that was not merged lies on one side of everything merged. */
  lemma {:induction false} OneSide(fs: seq<FileMeta>, p: Pick, smallest: bytes, largest: bytes, g: FileMeta)
    requires InOrder(fs) && Covers(p.inputs, smallest, largest) && p.overlaps == Touching(fs, smallest, largest)
    requires g in fs && g !in p.overlaps
    ensures (forall f :: f in Merging(p) ==> Less(g.largest, f.smallest))
         || (forall f :: f in Merging(p) ==> Less(f.largest, g.smallest))
  {
    hide Less, LessEq, RangeOk;
    assert Less(largest, g.smallest) || Less(g.largest, smallest);
    forall f | f in Merging(p)
      ensures Less(g.largest, smallest) ==> Less(g.largest, f.smallest)
      ensures Less(largest, g.smallest) ==> Less(f.largest, g.smallest)
    {
      if f in p.inputs {
        var i :| 0 <= i < |p.inputs| && p.inputs[i] == f;
        LessThrough(g.largest, smallest, f.smallest);
        LessBefore(f.largest, largest, g.smallest);
      } else {
        assert f in fs && Touches(f, smallest, largest);
        TouchingSide(fs, f, g, smallest, largest);
      }
    }
  }

  lemma {:induction false} LessThrough(a: bytes, b: bytes, c: bytes)
    requires LessEq(b, c)
    ensures Less(a, b) ==> Less(a, c)
  {
  }

  lemma {:induction false} LessBefore(a: bytes, b: bytes, c: bytes)
    requires LessEq(a, b)
    ensures Less(b, c) ==> Less(a, c)
  {
  }

  lemma {:induction false} TouchingSide(fs: seq<FileMeta>, f: FileMeta, g: FileMeta, smallest: bytes, largest: bytes)
    requires InOrder(fs) && f in fs && g in fs && f != g && Touches(f, smallest, largest)
    ensures Less(g.largest, smallest) ==> Less(g.largest, f.smallest)
    ensures Less(largest, g.smallest) ==> Less(f.largest, g.smallest)
  {
    hide Less, LessEq;
    var i :| 0 <= i < |fs| && fs[i] == f;
    var j :| 0 <= j < |fs| && fs[j] == g;
    if i < j {
      // f lies before g: then it cannot reach past a range that begins after g
      LessBefore(g.smallest, g.largest, smallest);
      if Less(g.largest, smallest) {
        LessTransitive(f.largest, g.smallest, smallest);
      }
    } else {
      LessThrough(largest, g.smallest, g.largest);
      if Less(largest, g.smallest) {
        LessTransitive(largest, g.largest, f.smallest);
      }
    }
  }

  /** The range of an output lies within the tables it was merged from. */
  lemma {:induction false} OutputWithin(t: Tree, p: Pick, outs: seq<Table>, nums: nat -> nat, i: nat)
    requires FilesOk(t) && Standing(t.v, p) && (forall f :: f in Merging(p) ==> f.fileNum in t.disk)
    requires MergeOf(t, p, outs, nums) && i < |outs|
    ensures exists f :: f in Merging(p) && LessEq(f.smallest, outs[i].meta.smallest)
    ensures exists f :: f in Merging(p) && LessEq(outs[i].meta.largest, f.largest)
  {
    hide Merging, MergeOf, Less, LessEq, FilesOk, Sorted, Standing;
    OutputsFacts(t, p, outs, nums);
    var es := outs[i].es;
    var f := OutputFrom(t, p, outs, nums, i, es[0]);
    var g := OutputFrom(t, p, outs, nums, i, es[|es| - 1]);
  }

  lemma {:induction false} OutputSource(t: Tree, p: Pick, outs: seq<Table>, nums: nat -> nat, i: nat, e: Entry)
    returns (f: FileMeta)
    requires (forall f :: f in Merging(p) ==> f.fileNum in t.disk) && MergeOf(t, p, outs, nums) && i < |outs| && e in outs[i].es
    ensures f in Merging(p) && e in t.disk[f.fileNum]
  {
    hide Merged, ToMap, AtStart, Cursors, Merging, Remaining, Sorted, OutputsOk;
    InFlat(outs, e);
    f := MergedFrom(Merging(p), t.disk, Flat(outs), e);
  }

  lemma {:induction false} OutputFrom(t: Tree, p: Pick, outs: seq<Table>, nums: nat -> nat, i: nat, e: Entry)
    returns (f: FileMeta)
    requires FilesOk(t) && Standing(t.v, p) && (forall f :: f in Merging(p) ==> f.fileNum in t.disk)
    requires MergeOf(t, p, outs, nums) && i < |outs| && e in outs[i].es
    ensures f in Merging(p) && e in t.disk[f.fileNum] && LessEq(f.smallest, e.key) && LessEq(e.key, f.largest)
  {
    hide Merged, ToMap, AtStart, Cursors, Standing, Merging, Less, LessEq, Remaining, Sorted, MetaOf, OutputsOk, FilesOk;
    MergingLive(t, p);
    f := OutputSource(t, p, outs, nums, i, e);
    EntryInRange(f, t.disk[f.fileNum], e);
  }

  lemma {:induction false} EntryInRange(f: FileMeta, es: seq<Entry>, e: Entry)
    requires MetaOf(f, es) && e in es
    ensures LessEq(f.smallest, e.key) && LessEq(e.key, f.largest)
  {
  }

  lemma {:induction false} OutputsApart(t: Tree, p: Pick, outs: seq<Table>, nums: nat -> nat, g: FileMeta, i: nat)
    requires FilesOk(t) && Standing(t.v, p) && (forall f :: f in Merging(p) ==> f.fileNum in t.disk)
    requires Disjoint(t.v) && MergeOf(t, p, outs, nums) && i < |outs|
    requires g in t.v[p.level + 1] && g !in p.overlaps
    ensures Apart(g, outs[i].meta)
  {
    hide Merging, MergeOf, Less, LessEq, FilesOk;
    assert Standing(t.v, p);
    var smallest, largest :| Covers(p.inputs, smallest, largest)
      && p.overlaps == Touching(t.v[p.level + 1], smallest, largest);
    OneSide(t.v[p.level + 1], p, smallest, largest, g);
    OutputWithin(t, p, outs, nums, i);
    var o := outs[i].meta;
    var f :| f in Merging(p) && LessEq(f.smallest, o.smallest);
    var h :| h in Merging(p) && LessEq(o.largest, h.largest);
    LessThrough(g.largest, f.smallest, o.smallest);
    LessBefore(o.largest, h.largest, g.smallest);
  }

  lemma {:induction false} GoneNumsAre(p: Pick, outs: seq<Table>)
    ensures GoneNums(CompactionEdit(p, outs).deleted) == Nums(Merging(p))
  {
    hide Gone;
    forall n: nat
      ensures n in GoneNums(CompactionEdit(p, outs).deleted) <==> n in Nums(Merging(p))
    {
      GoneIff(p, outs, n);
    }
  }

  lemma {:induction false} CompactedLevel(t: Tree, p: Pick, outs: seq<Table>, nums: nat -> nat, next: nat, l: nat)
    requires OutputsOk(outs, p.level + 1, nums) && l < NUM_LEVELS
    ensures
      var r := Survivors(t.v[l], Nums(Merging(p))) + if l == p.level + 1 then Metas(outs) else [];
      AfterCompaction(t, p, outs, next).v[l] == if l == 0 then r else SortFiles(r)
  {
    hide Survivors, Nums, Merging, SortFiles, Arrivals;
    GoneNumsAre(p, outs);
    ArrivalsAll(Metas(outs), p.level + 1);
  }

  lemma {:induction false} CompactionDisjoint(t: Tree, p: Pick, outs: seq<Table>, nums: nat -> nat, next: nat)
    requires TreeOk(t) && Standing(t.v, p) && (forall f :: f in Merging(p) ==> f.fileNum in t.disk)
    requires MergeOf(t, p, outs, nums)
    ensures Disjoint(AfterCompaction(t, p, outs, next).v) && NoRepeat(AfterCompaction(t, p, outs, next).v[0])
  {
    hide Merging, Nums, AfterCompaction, Standing, Survivors, SortFiles, InOrder, Apart, FilesOk, Unique;
    var t' := AfterCompaction(t, p, outs, next);
    OutputsFacts(t, p, outs, nums);
    forall l | 1 <= l < NUM_LEVELS
      ensures InOrder(t'.v[l])
    {
      CompactedLevel(t, p, outs, nums, next, l);
      var fs := Survivors(t.v[l], Nums(Merging(p)));
      var gs := if l == p.level + 1 then Metas(outs) else [];
      SurvivorsInOrder(t.v[l], Nums(Merging(p)));
      SurvivorsExactly(t.v[l], Nums(Merging(p)));
      InOrderNone();
      forall i, j | 0 <= i < |fs| && 0 <= j < |gs|
        ensures Apart(fs[i], gs[j])
      {
        assert fs[i] in fs;
        NotOverlap(p, fs[i]);
        OutputsApart(t, p, outs, nums, fs[i], j);
      }
      UnionInOrder(fs, gs);
    }
    CompactedLevel(t, p, outs, nums, next, 0);
    SurvivorsNoRepeat(t.v[0], Nums(Merging(p)));
    assert Survivors(t.v[0], Nums(Merging(p))) + [] == Survivors(t.v[0], Nums(Merging(p)));
  }

  lemma {:induction false} InOrderNone()
    ensures InOrder([])
  {
  }

  lemma {:induction false} NotOverlap(p: Pick, f: FileMeta)
    ensures f in p.overlaps ==> f.fileNum in Nums(Merging(p))
  {
    if f in p.overlaps {
      var i :| 0 <= i < |p.overlaps| && p.overlaps[i] == f;
      assert Merging(p)[|p.inputs| + i] == f;
    }
  }

  lemma {:induction false} OutputsFacts(t: Tree, p: Pick, outs: seq<Table>, nums: nat -> nat)
    requires (forall f :: f in Merging(p) ==> f.fileNum in t.disk) && MergeOf(t, p, outs, nums)
    ensures OutputsOk(outs, p.level + 1, nums) && InOrder(Metas(outs))
  {
  }

  /** A compaction of any files of two levels keeps tables and numbers in order. */
  lemma {:induction false} CompactionKept(t: Tree, p: Pick, outs: seq<Table>, nums: nat -> nat, next: nat)
    requires Kept(t) && StandingKept(t.v, p) && OutputsOk(outs, p.level + 1, nums) && Fresh(t, outs, next)
    ensures Kept(AfterCompaction(t, p, outs, next))
  {
    hide MetaOf, StandingKept, Written, Nums, Merging, AfterCompaction, Unique, InOrder;
    var t' := AfterCompaction(t, p, outs, next);
    AfterIs(t, p, outs, next);
    WrittenAt(t.disk, outs);
    CompactionUnique(t, p, outs, next);
    forall l, f | 0 <= l < NUM_LEVELS && f in t'.v[l]
      ensures FileKept(t', l, f)
    {
      CompactedExactly(t, p, outs, next, l, f);
      if f in Metas(outs) {
        var i :| 0 <= i < |outs| && Metas(outs)[i] == f;
        OutputNotMerged(t, p, outs, next, i);
      } else {
        assert FileKept(t, l, f);
      }
    }
  }

  /** A compaction keeps the tree in shape, also when flushes have added files since it was picked. */
  lemma {:induction false} CompactionKeepsTree(t: Tree, p: Pick, outs: seq<Table>, nums: nat -> nat, next: nat)
    requires TreeOk(t) && Standing(t.v, p) && (forall f :: f in Merging(p) ==> f.fileNum in t.disk)
    requires MergeOf(t, p, outs, nums) && Fresh(t, outs, next)
    ensures TreeOk(AfterCompaction(t, p, outs, next))
  {
    hide Merging, Standing, FilesOk, Unique, NoRepeat, Disjoint, AfterCompaction, Fresh;
    OutputsFacts(t, p, outs, nums);
    CompactionFilesOk(t, p, outs, nums, next);
    CompactionUnique(t, p, outs, next);
    CompactionDisjoint(t, p, outs, nums, next);
  }
}
