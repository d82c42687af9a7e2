/** The shape of the tree in a run of the database: it holds as long as no empty memtable is flushed. */
module DatabaseShapes {
  import opened Bytes
  import opened InternalKey
  import opened Block
  import opened Merge
  import opened Versions
  import opened Compactions
  import opened CompactionMerge
  import opened CompactionTree
  import opened CompactionRuns
  import opened Memtables
  import opened Databases
  import opened DatabaseRuns

  ghost predicate ShapeOk(t: Tree, flush: Flushing, c: Compacting) {
    && TreeOk(t)
    && (flush.Built? ==> FlushOk(t, flush.f, flush.es, t.nextFileNum))
    && (c.Merging? ==> Standing(t.v, c.p))
  }

  /** A higher file number changes nothing about the files. */
  lemma {:induction false} ShapeNextNum(t: Tree, n: nat, flush: Flushing, c: Compacting)
    requires ShapeOk(t, flush, c) && t.nextFileNum <= n
    ensures ShapeOk(t.(nextFileNum := n), flush, c)
  {
    hide MetaOf, Unique, NoRepeat, Disjoint, Standing;
    var t' := t.(nextFileNum := n);
    forall l, f | 0 <= l < NUM_LEVELS && f in t'.v[l]
      ensures FileOk(t', l, f)
    {
      assert FileOk(t, l, f);
    }
  }

  lemma {:induction false} ShapeBuild(t: Tree, ws: set<Write>, es: seq<Entry>, size: nat, c: Compacting)
    requires ShapeOk(t, Taken, c) && Lists(es, ws) && es != []
    ensures ShapeOk(t.(nextFileNum := t.nextFileNum + 1), Built(TableMeta(t.nextFileNum, size, es), es), c)
  {
    hide Sorted, EntryOf, Standing, TreeOk, FlushOk;
    ShapeNextNum(t, t.nextFileNum + 1, Taken, c);
    assert es[0] in es;
    var w :| w in ws && es[0] == EntryOf(w);
    KeyNotEmpty(w);
    FlushReady(t, TableMeta(t.nextFileNum, size, es), es);
    FlushSame(t, t.nextFileNum + 1, TableMeta(t.nextFileNum, size, es), es);
  }

  lemma {:induction false} KeyNotEmpty(w: Write)
    ensures EntryOf(w).key != []
  {
  }

  lemma {:induction false} FlushSame(t: Tree, n: nat, f: FileMeta, es: seq<Entry>)
    requires FlushOk(t, f, es, n)
    ensures FlushOk(t.(nextFileNum := n), f, es, n)
  {
    hide MetaOf;
  }

  /** Where all tables hold entries, what is picked covers its inputs. */
  lemma {:induction false} ShapePick(t: Tree, flush: Flushing, p: Pick)
    requires ShapeOk(t, flush, NoCompaction) && PickMade(t.v, p)
    ensures ShapeOk(t, flush, Compacting.Merging(p, []))
  {
    hide TreeOk, RangeOf, Touching, Covers, FlushOk, Standing;
    TreeKeysSet(t);
    if p.level == 0 {
      var decoded :| p == PickOfL0(t.v, decoded);
      RangeCoversIff(t.v[0], decoded);
    }
    PickStands(t, p);
  }

  lemma {:induction false} ShapePublishTable(t: Tree, f: FileMeta, es: seq<Entry>, c: Compacting)
    requires ShapeOk(t, Built(f, es), c)
    ensures ShapeOk(AfterFlush(t, f, es, t.nextFileNum), Published, c)
  {
    hide TreeOk, FlushOk, Standing, AfterFlush;
    FlushKeepsTree(t, f, es, t.nextFileNum);
    if c.Merging? {
      FlushKeepsPick(t, f, es, t.nextFileNum, c.p);
    }
  }

  lemma {:induction false} ShapePublishMerge(s: State, outs: seq<Table>)
    requires Inv(s) && ShapeOk(s.t, s.flush, s.compaction) && Can(s, PublishMerge(outs))
    ensures var s' := Do(s, PublishMerge(outs)); ShapeOk(s'.t, s'.flush, s'.compaction)
  {
    hide TreeOk, Kept, NumbersOk, ReadersOk, ContentsOk, FlushingOk, MetaOf, MergeOf, CompactingOk, Fresh, FlushKept,
         AfterCompaction, Nth, Standing;
    var p, nums, next := s.compaction.p, Nth(s.compaction.nums), s.t.nextFileNum;
    OutputsFacts(s.t, p, outs, nums);
    OutputsFresh(s.t, s.compaction, s.flush, outs);
    CompactionKeepsTree(s.t, p, outs, nums, next);
    AfterIs(s.t, p, outs, next);
    if s.flush.Built? {
      CompactingStands(s.t, s.compaction, s.flush);
      FlushOfKept(s.t, s.flush.f, s.flush.es, next);
      FlushStillOk(s.t, p, outs, next, s.flush.f);
      KeptOfFlush(AfterCompaction(s.t, p, outs, next), s.flush.f, s.flush.es, next);
    }
  }

  lemma {:induction false} FlushOfKept(t: Tree, f: FileMeta, es: seq<Entry>, next: nat)
    requires FlushOk(t, f, es, next)
    ensures FlushKept(t, f, next) && MetaOf(f, es)
  {
    hide MetaOf;
  }

  lemma {:induction false} KeptOfFlush(t: Tree, f: FileMeta, es: seq<Entry>, next: nat)
    requires FlushKept(t, f, next) && MetaOf(f, es)
    ensures FlushOk(t, f, es, next)
  {
    hide MetaOf;
  }

  lemma {:induction false} ShapeStep(s: State, a: Action)
    requires Inv(s) && ShapeOk(s.t, s.flush, s.compaction) && Can(s, a) && (a.BuildTable? ==> a.es != [])
    ensures var s' := Do(s, a); ShapeOk(s'.t, s'.flush, s'.compaction)
  {
    hide Inv, TreeOk, FlushOk, Standing, AfterFlush, AfterCompaction, PickMade, MergeOf, InputsOnDisk, Lists, Capture;
    match a
    case BuildTable(es, size) => ShapeBuild(s.t, s.mems[s.dropped], es, size, s.compaction);
    case PublishTable => ShapePublishTable(s.t, s.flush.f, s.flush.es, s.compaction);
    case PickFiles(p) => ShapePick(s.t, s.flush, p);
    case AllocOutput => ShapeNextNum(s.t, s.t.nextFileNum + 1, s.flush, s.compaction);
    case PublishMerge(outs) => ShapePublishMerge(s, outs);
    case _ =>
  }

  /** No flush of the run finds an empty memtable. */
  ghost predicate NoEmptyFlush(acts: seq<Action>) {
    forall i :: 0 <= i < |acts| && acts[i].BuildTable? ==> acts[i].es != []
  }

  lemma {:induction false} ShapeRun(acts: seq<Action>)
    requires Runs(acts) && NoEmptyFlush(acts)
    ensures var s := After(acts); ShapeOk(s.t, s.flush, s.compaction)
    decreases |acts|
  {
    hide ShapeOk, Can, Do, Inv;
    if acts == [] {
      ShapeStart();
    } else {
      ShapeRun(acts[..|acts| - 1]);
      InvRun(acts[..|acts| - 1]);
      ShapeStep(After(acts[..|acts| - 1]), acts[|acts| - 1]);
    }
  }

  lemma {:induction false} ShapeStart()
    ensures ShapeOk(START.t, START.flush, START.compaction)
  {
    hide InOrder, FileOk;
    InOrderNone();
  }

  /** Without empty flushes: levels 1 to 6 are sorted and disjoint, metadata is true, and file numbers are
      unique. */
  lemma {:induction false} TreeAlwaysOk(acts: seq<Action>)
    requires Runs(acts) && NoEmptyFlush(acts)
    ensures TreeOk(After(acts).t)
  {
    hide TreeOk, Runs, After, NoEmptyFlush, FlushOk, Standing;
    ShapeRun(acts);
  }

  /** With them too: internal keys and file numbers are unique, and every live file is on disk. */
  lemma {:induction false} TreeAlwaysKept(acts: seq<Action>)
    requires Runs(acts)
    ensures Kept(After(acts).t) && Consistent(After(acts).t)
  {
    hide Kept, FlushingOk, CompactingOk, ReadersOk, Runs, After, ContentsOk, NumbersOk, Consistent;
    InvRun(acts);
    StoredConsistent(After(acts));
  }
}
