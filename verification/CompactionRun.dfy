/** Flushes and compactions as state changes: conservation of entries and termination of the loop. */
module CompactionRuns {
  import opened Bytes
  import opened Block
  import opened Merge
  import opened Versions
  import opened Compactions
  import opened CompactionMerge
  import opened CompactionTree

  // ---- conservation

  /** A compaction stores nothing new. */
  lemma {:induction false} NothingNew(t: Tree, p: Pick, outs: seq<Table>, nums: nat -> nat, next: nat, e: Entry)
    requires Kept(t) && StandingKept(t.v, p) && (forall f :: f in Merging(p) ==> f.fileNum in t.disk)
    requires MergeOf(t, p, outs, nums) && Fresh(t, outs, next)
    requires Has(AfterCompaction(t, p, outs, next), e)
    ensures Has(t, e)
  {
    hide MergeOf, StandingKept, Merging, Nums, Written, MetaOf, Unique, AfterCompaction, Fresh;
    var t' := AfterCompaction(t, p, outs, next);
    AfterIs(t, p, outs, next);
    var l, f :| 0 <= l < NUM_LEVELS && f in t'.v[l] && f.fileNum in t'.disk && e in t'.disk[f.fileNum];
    CompactedExactly(t, p, outs, next, l, f);
    if f in Metas(outs) {
      var i :| 0 <= i < |outs| && Metas(outs)[i] == f;
      OutputStored(t, p, outs, nums, next, i);
      var g := OutputSource(t, p, outs, nums, i, e);
      MergingLevel(t, p, g);
    } else {
      SurvivorStored(t, p, outs, next, l, f);
      assert FileKept(t, l, f);
    }
  }

  lemma {:induction false} MergingLevel(t: Tree, p: Pick, g: FileMeta)
    requires StandingKept(t.v, p) && g in Merging(p)
    ensures exists l :: 0 <= l < NUM_LEVELS && g in t.v[l]
  {
  }

  lemma {:induction false} OutputStored(t: Tree, p: Pick, outs: seq<Table>, nums: nat -> nat, next: nat, i: nat)
    requires StandingKept(t.v, p) && Fresh(t, outs, next) && i < |outs|
    ensures var n := outs[i].meta.fileNum;
      n in AfterCompaction(t, p, outs, next).disk && AfterCompaction(t, p, outs, next).disk[n] == outs[i].es
  {
    hide StandingKept, Written, Merging, Nums;
    WrittenAt(t.disk, outs);
    OutputNotMerged(t, p, outs, next, i);
  }

  /** A file that was not merged keeps its table. */
  lemma {:induction false} SurvivorStored(t: Tree, p: Pick, outs: seq<Table>, next: nat, l: nat, f: FileMeta)
    requires Kept(t) && Fresh(t, outs, next) && l < NUM_LEVELS && f in t.v[l] && f.fileNum !in Nums(Merging(p))
    ensures f.fileNum in t.disk
    ensures f.fileNum in AfterCompaction(t, p, outs, next).disk
    ensures AfterCompaction(t, p, outs, next).disk[f.fileNum] == t.disk[f.fileNum]
  {
    hide Written, Merging, Nums, MetaOf;
    WrittenAt(t.disk, outs);
    assert FileKept(t, l, f);
  }

  /** A compaction loses no internal key. */
  lemma {:induction false} NoKeyLost(t: Tree, p: Pick, outs: seq<Table>, nums: nat -> nat, next: nat, e: Entry)
    returns (d: Entry)
    requires Kept(t) && StandingKept(t.v, p) && (forall f :: f in Merging(p) ==> f.fileNum in t.disk)
    requires MergeOf(t, p, outs, nums) && Fresh(t, outs, next)
    requires Has(t, e)
    ensures d.key == e.key && Has(AfterCompaction(t, p, outs, next), d)
  {
    hide MergeOf, StandingKept, Merging, Nums, MetaOf, AfterCompaction, Fresh, Kept;
    var l, f :| 0 <= l < NUM_LEVELS && f in t.v[l] && f.fileNum in t.disk && e in t.disk[f.fileNum];
    MergedNums(t, p, l, f);
    if f in Merging(p) {
      d := KeyMoved(t, p, outs, nums, next, f, e);
    } else {
      d := e;
      SurvivorStored(t, p, outs, next, l, f);
      CompactedExactly(t, p, outs, next, l, f);
    }
  }

  lemma {:induction false} KeyMoved(t: Tree, p: Pick, outs: seq<Table>, nums: nat -> nat, next: nat, f: FileMeta, e: Entry)
    returns (d: Entry)
    requires StandingKept(t.v, p) && (forall f :: f in Merging(p) ==> f.fileNum in t.disk)
    requires MergeOf(t, p, outs, nums) && Fresh(t, outs, next)
    requires f in Merging(p) && e in t.disk[f.fileNum]
    ensures d.key == e.key && Has(AfterCompaction(t, p, outs, next), d)
  {
    hide MergeOf, StandingKept, Merging, MetaOf, AfterCompaction, Fresh, InOrder;
    d := KeyInOutput(t, p, outs, nums, f, e);
    InFlat(outs, d);
    var i :| 0 <= i < |outs| && d in outs[i].es;
    OutputsFacts(t, p, outs, nums);
    OutputStored(t, p, outs, nums, next, i);
    StandingLevel(t.v, p);
    CompactedExactly(t, p, outs, next, p.level + 1, outs[i].meta);
    assert Metas(outs)[i] == outs[i].meta;
    assert outs[i].meta in AfterCompaction(t, p, outs, next).v[p.level + 1];
  }

  lemma {:induction false} StandingLevel(v: Levels, p: Pick)
    requires StandingKept(v, p)
    ensures p.level < NUM_LEVELS - 1
  {
  }

  lemma {:induction false} MergeFacts(t: Tree, p: Pick, outs: seq<Table>, nums: nat -> nat)
    requires (forall f :: f in Merging(p) ==> f.fileNum in t.disk) && MergeOf(t, p, outs, nums)
    ensures Sorted(Flat(outs)) && ToMap(Flat(outs)) == Merged(AtStart(Cursors(Merging(p), t.disk)))
  {
  }

  lemma {:induction false} KeyInOutput(t: Tree, p: Pick, outs: seq<Table>, nums: nat -> nat, f: FileMeta, e: Entry)
    returns (d: Entry)
    requires (forall f :: f in Merging(p) ==> f.fileNum in t.disk) && MergeOf(t, p, outs, nums)
    requires f in Merging(p) && e in t.disk[f.fileNum]
    ensures d in Flat(outs) && d.key == e.key
  {
    hide MergeOf, Merged, ToMap, AtStart, Cursors, Merging, Sorted, Flat;
    MergeFacts(t, p, outs, nums);
    d := MergedKeeps(Merging(p), t.disk, Flat(outs), f, e);
  }

  /** As long as internal keys are unique, a compaction leaves the stored entries as they were. */
  lemma {:induction false} CompactionKeepsEntries(t: Tree, p: Pick, outs: seq<Table>, nums: nat -> nat, next: nat)
    requires Kept(t) && StandingKept(t.v, p) && (forall f :: f in Merging(p) ==> f.fileNum in t.disk)
    requires MergeOf(t, p, outs, nums) && Fresh(t, outs, next) && Consistent(t)
    ensures forall e :: Has(AfterCompaction(t, p, outs, next), e) <==> Has(t, e)
    ensures Consistent(AfterCompaction(t, p, outs, next))
  {
    hide Has, MergeOf, StandingKept, Merging, AfterCompaction, Fresh, Kept;
    var t' := AfterCompaction(t, p, outs, next);
    forall e
      ensures Has(t', e) <==> Has(t, e)
    {
      if Has(t', e) {
        NothingNew(t, p, outs, nums, next, e);
      }
      if Has(t, e) {
        var d := NoKeyLost(t, p, outs, nums, next, e);
        NothingNew(t, p, outs, nums, next, d);
      }
    }
  }

  // ---- flush

  /** The files of the version after a flush: the live ones, and the new one at the end of level 0. */
  lemma {:induction false} FlushedLevels(v: Levels, f: FileMeta, l: nat)
    requires f.level == 0 && l < NUM_LEVELS
    requires 0 < l ==> InOrder(v[l])
    ensures Applied(v, Edit(Absent, Absent, [f], []))[l] == if l == 0 then v[0] + [f] else v[l]
  {
    hide Less, InOrder, SortFiles;
    var e := Edit(Absent, Absent, [f], []);
    NoneGone(v[l]);
    assert GoneNums(e.deleted) == {};
    assert [f][..0] == [];
    assert Arrivals([f], l) == Arrivals([], l) + if l == 0 then [f] else [];
    assert v[l] + [] == v[l];
    if l > 0 {
      SortedAlready(v[l]);
    }
  }

  lemma {:induction false} NoneGone(fs: seq<FileMeta>)
    ensures Survivors(fs, {}) == fs
  {
    if fs != [] {
      NoneGone(fs[..|fs| - 1]);
      assert fs == fs[..|fs| - 1] + [fs[|fs| - 1]];
    }
  }

  lemma {:induction false} SortedAlready(fs: seq<FileMeta>)
    requires InOrder(fs)
    ensures SortFiles(fs) == fs
  {
    hide Less, InOrder, Insert;
    if fs != [] {
      var n := |fs| - 1;
      InOrderPrefix(fs, n);
      SortedAlready(fs[..n]);
      assert fs == fs[..n] + [fs[n]];
      if n > 0 {
        SmallestGrow(fs, n - 1, n);
        LessTotal(fs[n - 1].smallest, fs[n].smallest);
      }
      InsertAtEnd(fs[..n], fs[n]);
    }
  }

  lemma {:induction false} InsertAtEnd(fs: seq<FileMeta>, f: FileMeta)
    requires fs != [] ==> !Less(f.smallest, fs[|fs| - 1].smallest)
    ensures Insert(fs, f) == fs + [f]
  {
  }

  /** A finished flush that nobody else's file number collides with. */
  ghost predicate FlushOk(t: Tree, f: FileMeta, es: seq<Entry>, next: nat) {
    && f.level == 0 && MetaOf(f, es) && f.fileNum < next && t.nextFileNum <= next
    && forall l, g :: 0 <= l < NUM_LEVELS && g in t.v[l] ==> g.fileNum != f.fileNum
  }

  /** As much of it as the stored entries need. */
  ghost predicate FlushKept(t: Tree, f: FileMeta, next: nat) {
    && f.level == 0 && f.fileNum < next && t.nextFileNum <= next
    && forall l, g :: 0 <= l < NUM_LEVELS && g in t.v[l] ==> g.fileNum != f.fileNum
  }

  lemma {:induction false} FlushedExactly(t: Tree, f: FileMeta, es: seq<Entry>, next: nat, l: nat, g: FileMeta)
    requires l < NUM_LEVELS && f.level == 0
    ensures g in AfterFlush(t, f, es, next).v[l] <==> g in t.v[l] || (l == 0 && g == f)
  {
    hide Applied;
    AppliedExactly(t.v, Edit(Absent, Absent, [f], []), l, g);
  }

  /** Publishing any flushed table, an empty one too, keeps tables and numbers in order. */
  lemma {:induction false} FlushKeepsKept(t: Tree, f: FileMeta, es: seq<Entry>, next: nat)
    requires Kept(t) && FlushKept(t, f, next)
    ensures Kept(AfterFlush(t, f, es, next))
  {
    hide Applied;
    var t' := AfterFlush(t, f, es, next);
    forall l, g | 0 <= l < NUM_LEVELS
      ensures g in t'.v[l] <==> g in t.v[l] || (l == 0 && g == f)
    {
      FlushedExactly(t, f, es, next, l, g);
    }
    forall l, g | 0 <= l < NUM_LEVELS && g in t'.v[l]
      ensures FileKept(t', l, g)
    {
      if g != f {
        assert FileKept(t, l, g);
      }
    }
  }

  lemma {:induction false} FlushKeepsTree(t: Tree, f: FileMeta, es: seq<Entry>, next: nat)
    requires TreeOk(t) && FlushOk(t, f, es, next)
    ensures TreeOk(AfterFlush(t, f, es, next))
  {
    hide MetaOf, InOrder, Applied;
    var t' := AfterFlush(t, f, es, next);
    forall l | 0 <= l < NUM_LEVELS
      ensures t'.v[l] == if l == 0 then t.v[0] + [f] else t.v[l]
    {
      FlushedLevels(t.v, f, l);
    }
    forall l, g | 0 <= l < NUM_LEVELS && g in t'.v[l]
      ensures FileOk(t', l, g)
    {
      if g != f {
        assert FileOk(t, l, g);
      }
    }
    if f in t.v[0] {
      assert false;
    }
  }

  /** A flush stores exactly the entries of the memtable in addition. */
  lemma {:induction false} FlushAdds(t: Tree, f: FileMeta, es: seq<Entry>, next: nat, e: Entry)
    requires Kept(t) && FlushKept(t, f, next)
    ensures Has(AfterFlush(t, f, es, next), e) <==> Has(t, e) || e in es
  {
    hide Applied, Unique;
    var t' := AfterFlush(t, f, es, next);
    forall l, g | 0 <= l < NUM_LEVELS
      ensures g in t'.v[l] <==> g in t.v[l] || (l == 0 && g == f)
    {
      FlushedExactly(t, f, es, next, l, g);
    }
    if e in es {
      assert f in t'.v[0] && e in t'.disk[f.fileNum];
    }
    if Has(t, e) {
      var l, g :| 0 <= l < NUM_LEVELS && g in t.v[l] && g.fileNum in t.disk && e in t.disk[g.fileNum];
      assert g in t'.v[l] && e in t'.disk[g.fileNum];
    }
  }

  lemma {:induction false} FlushKeepsFiles(t: Tree, f: FileMeta, es: seq<Entry>, next: nat, p: Pick)
    requires FlushKept(t, f, next) && StandingKept(t.v, p)
    ensures StandingKept(AfterFlush(t, f, es, next).v, p)
  {
    hide Applied;
    forall l, g | 0 <= l < NUM_LEVELS && g in t.v[l]
      ensures g in AfterFlush(t, f, es, next).v[l]
    {
      FlushedExactly(t, f, es, next, l, g);
    }
  }

  /** A flush does not disturb a pick that is being compacted. */
  lemma {:induction false} FlushKeepsPick(t: Tree, f: FileMeta, es: seq<Entry>, next: nat, p: Pick)
    requires TreeOk(t) && FlushOk(t, f, es, next) && Standing(t.v, p)
    ensures Standing(AfterFlush(t, f, es, next).v, p)
  {
    hide MetaOf, InOrder, Applied, FilesOk, Unique, NoRepeat, Touching;
    var v' := AfterFlush(t, f, es, next).v;
    var smallest, largest :| Covers(p.inputs, smallest, largest)
      && p.overlaps == Touching(t.v[p.level + 1], smallest, largest);
    FlushedLevels(t.v, f, p.level);
    FlushedLevels(t.v, f, p.level + 1);
    assert v'[p.level + 1] == t.v[p.level + 1];
  }

  /** What picking promises is enough to compact. */
  lemma {:induction false} PickStands(t: Tree, p: Pick)
    requires TreeOk(t) && PickOk(t.v, p)
    ensures Standing(t.v, p)
  {
  }

  lemma {:induction false} TreeKeysSet(t: Tree)
    requires TreeOk(t)
    ensures KeysSet(t.v[0])
  {
    hide Less, Unique, Disjoint, NoRepeat;
    forall i | 0 <= i < |t.v[0]|
      ensures t.v[0][i].smallest != [] && t.v[0][i].largest != []
    {
      assert FileOk(t, 0, t.v[0][i]);
      NonEmptyKeys(t.disk[t.v[0][i].fileNum]);
    }
  }

  lemma {:induction false} NonEmptyKeys(es: seq<Entry>)
    requires Sorted(es) && es != [] && es[0].key != []
    ensures KeysNonEmpty(es)
  {
  }

  // ---- termination

  function Size(disk: Disk, f: FileMeta): nat {
    if f.fileNum in disk then |disk[f.fileNum]| else 0
  }

  function Weight(fs: seq<FileMeta>, disk: Disk): nat {
    if fs == [] then 0 else Weight(fs[..|fs| - 1], disk) + Size(disk, fs[|fs| - 1])
  }

  /** How far the stored entries still are from the last level. */
  function Measure(t: Tree): nat {
    6 * Weight(t.v[0], t.disk) + 5 * Weight(t.v[1], t.disk) + 4 * Weight(t.v[2], t.disk)
    + 3 * Weight(t.v[3], t.disk) + 2 * Weight(t.v[4], t.disk) + Weight(t.v[5], t.disk)
  }

  lemma {:induction false} WeightConcat(fs: seq<FileMeta>, gs: seq<FileMeta>, disk: Disk)
    ensures Weight(fs + gs, disk) == Weight(fs, disk) + Weight(gs, disk)
  {
    hide Size;
    if gs == [] {
      assert fs + gs == fs;
    } else {
      WeightConcat(fs, gs[..|gs| - 1], disk);
      assert (fs + gs)[..|fs + gs| - 1] == fs + gs[..|gs| - 1];
    }
  }

  lemma {:induction false} WeightAppend(fs: seq<FileMeta>, f: FileMeta, disk: Disk)
    ensures Weight(fs + [f], disk) == Weight(fs, disk) + Size(disk, f)
  {
  }

  lemma {:induction false} WeightOfInsert(fs: seq<FileMeta>, f: FileMeta, disk: Disk)
    ensures Weight(Insert(fs, f), disk) == Weight(fs, disk) + Size(disk, f)
  {
    hide Size, Less, Weight;
    WeightAppend(fs, f, disk);
    if fs == [] {
      assert fs + [f] == [f];
    } else {
      var n := |fs| - 1;
      WeightOfInsert(fs[..n], f, disk);
      WeightAppend(Insert(fs[..n], f), fs[n], disk);
      WeightAppend(fs[..n], fs[n], disk);
      assert fs[..n] + [fs[n]] == fs;
    }
  }

  lemma {:induction false} WeightOfSort(fs: seq<FileMeta>, disk: Disk)
    ensures Weight(SortFiles(fs), disk) == Weight(fs, disk)
  {
    hide Size, Insert;
    if fs != [] {
      var n := |fs| - 1;
      WeightOfSort(fs[..n], disk);
      WeightOfInsert(SortFiles(fs[..n]), fs[n], disk);
    }
  }

  /** The deleted files of a level, in order. */
  function Removed(fs: seq<FileMeta>, gone: set<nat>): seq<FileMeta> {
    if fs == [] then []
    else
      var n := |fs| - 1;
      Removed(fs[..n], gone) + if fs[n].fileNum in gone then [fs[n]] else []
  }

  lemma {:induction false} RemovedExactly(fs: seq<FileMeta>, gone: set<nat>)
    ensures forall f :: f in Removed(fs, gone) <==> f in fs && f.fileNum in gone
  {
    if fs != [] {
      var n := |fs| - 1;
      RemovedExactly(fs[..n], gone);
      assert fs == fs[..n] + [fs[n]];
    }
  }

  lemma {:induction false} WeightSplit(fs: seq<FileMeta>, gone: set<nat>, disk: Disk)
    ensures Weight(Survivors(fs, gone), disk) + Weight(Removed(fs, gone), disk) == Weight(fs, disk)
  {
    hide Size;
    if fs != [] {
      var n := |fs| - 1;
      WeightSplit(fs[..n], gone, disk);
      var s, r := Survivors(fs[..n], gone), Removed(fs[..n], gone);
      assert (s + [fs[n]])[..|s|] == s && (r + [fs[n]])[..|r|] == r;
      assert s + [] == s && r + [] == r;
    }
  }

  lemma {:induction false} WeightWithout(gs: seq<FileMeta>, k: nat, disk: Disk)
    requires k < |gs|
    ensures Weight(gs, disk) == Weight(gs[..k] + gs[k + 1..], disk) + Size(disk, gs[k])
  {
    hide Size, Weight;
    WeightConcat(gs[..k + 1], gs[k + 1..], disk);
    WeightAppend(gs[..k], gs[k], disk);
    WeightConcat(gs[..k], gs[k + 1..], disk);
    assert gs[..k + 1] == gs[..k] + [gs[k]] && gs == gs[..k + 1] + gs[k + 1..];
  }

  /** Distinct files weigh no more than a list that contains them all. */
  lemma {:induction false} WeightWithin(fs: seq<FileMeta>, gs: seq<FileMeta>, disk: Disk)
    requires NoRepeat(fs) && forall f :: f in fs ==> f in gs
    ensures Weight(fs, disk) <= Weight(gs, disk)
    decreases |fs|
  {
    hide Size;
    if fs != [] {
      var n := |fs| - 1;
      assert fs[n] in gs;
      var k :| 0 <= k < |gs| && gs[k] == fs[n];
      assert fs == fs[..n] + [fs[n]];
      OthersWithin(fs[..n], fs[n], gs, k, gs[..k] + gs[k + 1..]);
      WeightWithin(fs[..n], gs[..k] + gs[k + 1..], disk);
      WeightWithout(gs, k, disk);
    }
  }

  lemma {:induction false} OthersWithin(fs: seq<FileMeta>, f: FileMeta, gs: seq<FileMeta>, k: nat, rest: seq<FileMeta>)
    requires NoRepeat(fs + [f]) && (forall g :: g in fs + [f] ==> g in gs)
    requires k < |gs| && gs[k] == f && rest == gs[..k] + gs[k + 1..]
    ensures NoRepeat(fs) && forall g :: g in fs ==> g in rest
  {
    var all := fs + [f];
    assert forall i :: 0 <= i < |fs| ==> all[i] == fs[i];
    forall g | g in fs
      ensures g in rest
    {
      var a :| 0 <= a < |fs| && fs[a] == g;
      assert all[a] != all[|fs|];
      assert g in all && g in gs;
      var i :| 0 <= i < |gs| && gs[i] == g;
      assert rest[if i < k then i else i - 1] == g;
    }
  }

  lemma {:induction false} WeightSame(fs: seq<FileMeta>, disk: Disk, disk': Disk)
    requires forall f :: f in fs ==> Size(disk, f) == Size(disk', f)
    ensures Weight(fs, disk) == Weight(fs, disk')
  {
    hide Size;
    if fs != [] {
      WeightSame(fs[..|fs| - 1], disk, disk');
    }
  }

  lemma {:induction false} RemainingIsWeight(fs: seq<FileMeta>, disk: Disk)
    requires forall f :: f in fs ==> f.fileNum in disk
    ensures Remaining(AtStart(Cursors(fs, disk))) == Weight(fs, disk)
  {
    if fs != [] {
      var n := |fs| - 1;
      RemainingIsWeight(fs[..n], disk);
      assert AtStart(Cursors(fs, disk))[..n] == AtStart(Cursors(fs[..n], disk));
      CursorRest(fs, disk, n);
    }
  }

  lemma {:induction false} OutputWeight(outs: seq<Table>, disk: Disk)
    requires forall i :: 0 <= i < |outs| ==>
      outs[i].meta.fileNum in disk && disk[outs[i].meta.fileNum] == outs[i].es
    ensures Weight(Metas(outs), disk) == |Flat(outs)|
  {
    if outs != [] {
      var n := |outs| - 1;
      OutputWeight(outs[..n], disk);
      assert Metas(outs)[..n] == Metas(outs[..n]);
    }
  }

  lemma {:induction false} TouchingInOrder(fs: seq<FileMeta>, smallest: bytes, largest: bytes)
    requires InOrder(fs)
    ensures InOrder(Touching(fs, smallest, largest))
  {
    hide InOrder, Touches;
    if fs == [] {
      InOrderNone();
    } else {
      var n := |fs| - 1;
      InOrderPrefix(fs, n);
      TouchingInOrder(fs[..n], smallest, largest);
      var r := Touching(fs[..n], smallest, largest);
      InOrderAdd(fs, r);
      assert r + [] == r;
    }
  }

  lemma {:induction false} InOrderNoRepeat(fs: seq<FileMeta>)
    requires InOrder(fs)
    ensures NoRepeat(fs)
  {
  }

  /** How the weight of one level changes. */
  lemma {:induction false} LevelWeight(t: Tree, p: Pick, outs: seq<Table>, nums: nat -> nat, next: nat, l: nat)
    requires TreeOk(t) && Standing(t.v, p) && OutputsOk(outs, p.level + 1, nums) && Fresh(t, outs, next)
    requires l < NUM_LEVELS
    ensures
      var t' := AfterCompaction(t, p, outs, next);
      Weight(t'.v[l], t'.disk) + Weight(Removed(t.v[l], Nums(Merging(p))), t.disk)
      == Weight(t.v[l], t.disk) + if l == p.level + 1 then |Flat(outs)| else 0
  {
    hide Survivors, Merging, Nums, AfterCompaction, Written, OutputsOk, Standing, Unique, Disjoint, NoRepeat, MetaOf,
         SortFiles, Weight, FilesOk;
    var t' := AfterCompaction(t, p, outs, next);
    var gone := Nums(Merging(p));
    var rest := Survivors(t.v[l], gone);
    var added := if l == p.level + 1 then Metas(outs) else [];
    KeptOf(t, p);
    CompactedLevel(t, p, outs, nums, next, l);
    WeightOfSort(rest + added, t'.disk);
    WeightConcat(rest, added, t'.disk);
    WeightSplit(t.v[l], gone, t.disk);
    SurvivorsExactly(t.v[l], gone);
    forall f | f in rest
      ensures Size(t.disk, f) == Size(t'.disk, f)
    {
      SurvivorStored(t, p, outs, next, l, f);
    }
    WeightSame(rest, t.disk, t'.disk);
    forall i | 0 <= i < |outs|
      ensures outs[i].meta.fileNum in t'.disk && t'.disk[outs[i].meta.fileNum] == outs[i].es
    {
      OutputStored(t, p, outs, nums, next, i);
    }
    OutputWeight(outs, t'.disk);
    WeightOfNone(t'.disk);
  }

  lemma {:induction false} WeightOfNone(disk: Disk)
    ensures Weight([], disk) == 0
  {
  }

  /** The merged files account for what the two levels lose, and the outputs hold no more. */
  lemma {:induction false} MergedWeight(t: Tree, p: Pick, outs: seq<Table>, nums: nat -> nat)
    requires TreeOk(t) && Standing(t.v, p) && (forall f :: f in Merging(p) ==> f.fileNum in t.disk)
    requires MergeOf(t, p, outs, nums)
    ensures
      var a := Weight(Removed(t.v[p.level], Nums(Merging(p))), t.disk);
      var b := Weight(Removed(t.v[p.level + 1], Nums(Merging(p))), t.disk);
      a > 0 && |Flat(outs)| <= a + b
  {
    hide Weight, Nums, MetaOf, Covers, Touches, OutputsOk, Flat, Remaining, Merged, ToMap, Removed, InOrder, AtStart, Cursors;
    var gone := Nums(Merging(p));
    RemainingIsWeight(Merging(p), t.disk);
    WeightConcat(p.inputs, p.overlaps, t.disk);
    RemovedExactly(t.v[p.level], gone);
    RemovedExactly(t.v[p.level + 1], gone);
    MergingNums(p);
    WeightWithin(p.inputs, Removed(t.v[p.level], gone), t.disk);
    OverlapsNoRepeat(t, p);
    WeightWithin(p.overlaps, Removed(t.v[p.level + 1], gone), t.disk);
    InputsHeavy(t, p);
  }

  lemma {:induction false} MergingNums(p: Pick)
    ensures forall f :: f in p.inputs || f in p.overlaps ==> f.fileNum in Nums(Merging(p))
  {
    forall f | f in p.inputs || f in p.overlaps
      ensures f.fileNum in Nums(Merging(p))
    {
      assert f in Merging(p);
      var i :| 0 <= i < |Merging(p)| && Merging(p)[i] == f;
    }
  }

  lemma {:induction false} OverlapsNoRepeat(t: Tree, p: Pick)
    requires Disjoint(t.v) && Standing(t.v, p)
    ensures NoRepeat(p.overlaps)
    ensures forall f :: f in p.overlaps ==> f in t.v[p.level + 1]
  {
    hide InOrder, Covers, NoRepeat, Touches;
    var smallest, largest :| Covers(p.inputs, smallest, largest)
      && p.overlaps == Touching(t.v[p.level + 1], smallest, largest);
    TouchingInOrder(t.v[p.level + 1], smallest, largest);
    InOrderNoRepeat(p.overlaps);
  }

  lemma {:induction false} InputsHeavy(t: Tree, p: Pick)
    requires FilesOk(t) && Standing(t.v, p)
    ensures Weight(p.inputs, t.disk) > 0
  {
    hide Sorted, Covers, Touches, NoRepeat;
    var f := p.inputs[|p.inputs| - 1];
    assert FileOk(t, p.level, f);
  }

  /** Every compaction brings stored entries closer to the last level. */
  lemma {:induction false} CompactionDecreases(t: Tree, p: Pick, outs: seq<Table>, nums: nat -> nat, next: nat)
    requires TreeOk(t) && Standing(t.v, p) && (forall f :: f in Merging(p) ==> f.fileNum in t.disk)
    requires MergeOf(t, p, outs, nums) && Fresh(t, outs, next)
    ensures Measure(AfterCompaction(t, p, outs, next)) < Measure(t)
  {
    hide Weight, Nums, Merging, MergeOf, Fresh, TreeOk, Standing, AfterCompaction, Removed, Flat, OutputsOk;
    OutputsFacts(t, p, outs, nums);
    KeptOf(t, p);
    StandingLevel(t.v, p);
    MergedWeight(t, p, outs, nums);
    forall l | 0 <= l < NUM_LEVELS && l != p.level && l != p.level + 1
      ensures Weight(Removed(t.v[l], Nums(Merging(p))), t.disk) == 0
    {
      OthersStay(t, p, l);
    }
    LevelWeight(t, p, outs, nums, next, 0);
    LevelWeight(t, p, outs, nums, next, 1);
    LevelWeight(t, p, outs, nums, next, 2);
    LevelWeight(t, p, outs, nums, next, 3);
    LevelWeight(t, p, outs, nums, next, 4);
    LevelWeight(t, p, outs, nums, next, 5);
  }

  lemma {:induction false} OthersStay(t: Tree, p: Pick, l: nat)
    requires TreeOk(t) && Standing(t.v, p) && l < NUM_LEVELS && l != p.level && l != p.level + 1
    ensures Weight(Removed(t.v[l], Nums(Merging(p))), t.disk) == 0
  {
    hide Standing, Nums, Merging, Disjoint, NoRepeat, Removed;
    var r := Removed(t.v[l], Nums(Merging(p)));
    RemovedExactly(t.v[l], Nums(Merging(p)));
    if r != [] {
      assert r[0] in r;
      KeptOf(t, p);
      MergedNums(t, p, l, r[0]);
      assert false;
    }
  }

  // ---- the tree as the database changes it

  class Lsm {
    var v: Levels
    var disk: Disk
    var nextFileNum: nat

    ghost function T(): Tree
      reads this
    {
      Tree(v, disk, nextFileNum)
    }

    ghost predicate Valid()
      reads this
    {
      TreeOk(T())
    }

    constructor ()
      ensures Valid() && v == EMPTY && disk == map[]
    {
      hide InOrder, FileOk;
      v, disk, nextFileNum := EMPTY, map[], 1;
      new;
      InOrderNone();
    }

    /** flush and the version edit that publishes it: the entries of a sealed memtable, at least one,
        become a table at the end of level 0. */
    method Flush(es: seq<Entry>, size: nat)
      requires Valid() && es != [] && Sorted(es) && es[0].key != []
      modifies this
      ensures Valid() && forall e :: Has(T(), e) <==> Has(old(T()), e) || e in es
      ensures v[0] == old(v)[0] + [FileMeta(old(nextFileNum), 0, size, es[0].key, es[|es| - 1].key)]
      ensures forall l :: 0 < l < NUM_LEVELS ==> v[l] == old(v)[l]
      ensures nextFileNum == old(nextFileNum) + 1 && disk == old(disk)[old(nextFileNum) := es]
    {
      hide Has, TreeOk, Applied, Sorted;
      ghost var t := T();
      var fileNum := nextFileNum;
      nextFileNum := nextFileNum + 1;
      var f := FileMeta(fileNum, 0, size, es[0].key, es[|es| - 1].key);
      FlushReady(t, f, es);
      KeptOf(t, Pick(0, [], []));
      disk := disk[fileNum := es];
      v := Apply(v, Edit(Absent, Absent, [f], []));
      assert T() == AfterFlush(t, f, es, fileNum + 1);
      FlushKeepsTree(t, f, es, fileNum + 1);
      forall e
        ensures Has(T(), e) <==> Has(t, e) || e in es
      {
        FlushAdds(t, f, es, fileNum + 1, e);
      }
      forall l | 0 <= l < NUM_LEVELS
        ensures v[l] == if l == 0 then t.v[0] + [f] else t.v[l]
      {
        TreeInOrder(t);
        FlushedLevels(t.v, f, l);
      }
    }

    /** runCompaction: merges the picked tables, publishes the outputs, removes the inputs. */
    method RunCompaction(p: Pick, sizes: nat -> nat) returns (ghost outs: seq<Table>)
      requires Valid() && Standing(v, p)
      modifies this
      ensures Replaced(old(T()), p, outs, T()) && nextFileNum == old(nextFileNum) + |outs|
      ensures var target := TARGET_FILE_SIZE * Power(2, p.level + 1);
        outs != [] ==> CutAt(outs[..|outs| - 1], target) && Filling(outs[|outs| - 1].es, target)
      ensures forall i :: 0 <= i < |outs| ==> outs[i].meta.size == sizes(outs[i].meta.fileNum)
      ensures Valid() && Measure(T()) < Measure(old(T()))
      ensures old(Consistent(T())) ==> Consistent(T()) && forall e :: Has(T(), e) <==> Has(old(T()), e)
      ensures forall e :: Has(T(), e) ==> Has(old(T()), e)
    {
      hide Has, TreeOk, MetaOf, Applied, Sorted, Standing, Consistent, Measure, MergeOf, Fresh, Merging, Nums, Written,
           OutputsOk, Merged, AtStart, Remaining, ToMap, Flat, Metas, Kept, StandingKept, Replaced, Power, CutAt, Filling;
      ghost var t := T();
      TreeFiles(t);
      MergingLive(t, p);
      InputsReady(t, p);
      var iters := Cursors(Merging(p), disk);
      var target := TargetFileSize(p.level + 1);
      var first := nextFileNum;
      var nums: nat -> nat := i => first + i;
      var tables := MergeTables(iters, p.level + 1, target, nums, sizes);
      outs := tables;
      nextFileNum := first + |tables|;
      disk := Written(disk, tables);
      var edit := CompactionEdit(p, tables);
      OutputLevels(t, p, tables, nums);
      v := Apply(v, edit);
      disk := disk - Nums(Merging(p));
      ghost var next := nextFileNum;
      assert T() == AfterCompaction(t, p, outs, next);
      NumbersFresh(t, p, outs, nums, next);
      IsMergeOf(t, p, outs, nums);
      KeptOf(t, p);
      CompactionKeepsTree(t, p, outs, nums, next);
      CompactionDecreases(t, p, outs, nums, next);
      CompactionReplaces(t, p, outs, nums, next);
      forall e | Has(T(), e)
        ensures Has(t, e)
      {
        NothingNew(t, p, outs, nums, next, e);
      }
      if Consistent(t) {
        CompactionKeepsEntries(t, p, outs, nums, next);
      }
    }

    /** doCompaction without flushes in between: ends, with no level due, and keeps what is stored,
        whichever files have been read back from the manifest. */
    method DoCompaction(sizes: nat -> nat, decoded: set<nat>)
      requires Valid() && Consistent(T())
      modifies this
      ensures Valid() && Consistent(T()) && forall e :: Has(T(), e) <==> Has(old(T()), e)
      ensures forall level: nat :: level < NUM_LEVELS - 1 ==> !Due(v, level)
    {
      hide Has, TreeOk, Standing, Consistent, Measure, Due, PickOk;
      while true
        invariant Valid() && Consistent(T()) && forall e :: Has(T(), e) <==> Has(old(T()), e)
        decreases Measure(T())
      {
        TreeKeysSet(T());
        var pick := PickCompaction(v, decoded);
        if pick == NoPick {
          return;
        }
        PickStands(T(), pick.p);
        var _ := RunCompaction(pick.p, sizes);
      }
    }
  }

  lemma {:induction false} TreeFiles(t: Tree)
    requires TreeOk(t)
    ensures FilesOk(t)
  {
  }

  lemma {:induction false} TreeInOrder(t: Tree)
    requires TreeOk(t)
    ensures forall l :: 0 < l < NUM_LEVELS ==> InOrder(t.v[l])
  {
  }

  lemma {:induction false} FlushReady(t: Tree, f: FileMeta, es: seq<Entry>)
    requires TreeOk(t) && f.level == 0 && f.fileNum == t.nextFileNum && MetaOf(f, es)
    ensures FlushOk(t, f, es, f.fileNum + 1)
  {
  }

  lemma {:induction false} InputsReady(t: Tree, p: Pick)
    requires forall f :: f in Merging(p) ==> f.fileNum in t.disk && MetaOf(f, t.disk[f.fileNum])
    ensures
      var iters := Cursors(Merging(p), t.disk);
      forall i :: 0 <= i < |iters| ==> Sorted(iters[i].es) && KeysNonEmpty(iters[i].es)
  {
  }

  lemma {:induction false} OutputLevels(t: Tree, p: Pick, outs: seq<Table>, nums: nat -> nat)
    requires OutputsOk(outs, p.level + 1, nums) && Standing(t.v, p)
    ensures LevelsExist(CompactionEdit(p, outs))
  {
  }

  lemma {:induction false} NumbersFresh(t: Tree, p: Pick, outs: seq<Table>, nums: nat -> nat, next: nat)
    requires TreeOk(t) && OutputsOk(outs, p.level + 1, nums) && next == t.nextFileNum + |outs|
    requires forall i :: nums(i) == t.nextFileNum + i
    ensures Fresh(t, outs, next)
  {
  }

  lemma {:induction false} IsMergeOf(t: Tree, p: Pick, outs: seq<Table>, nums: nat -> nat)
    requires forall f :: f in Merging(p) ==> f.fileNum in t.disk
    requires OutputsOk(outs, p.level + 1, nums) && Sorted(Flat(outs))
    requires ToMap(Flat(outs)) == Merged(AtStart(Cursors(Merging(p), t.disk)))
    requires |Flat(outs)| <= Remaining(AtStart(Cursors(Merging(p), t.disk)))
    ensures MergeOf(t, p, outs, nums)
  {
  }
}
