/** The state of the database read off the history of its run: which files are live and what they hold,
    which writes there are, and what a read has captured. */
module DatabaseHistory {
  import opened Bytes
  import opened InternalKey
  import opened Block
  import opened Merge
  import opened Versions
  import opened Compactions
  import opened CompactionMerge
  import opened CompactionTree
  import opened CompactionRuns
  import opened Memtables
  import opened Databases
  import opened DatabaseRuns

  lemma {:induction false} LastStep(acts: seq<Action>) returns (n: nat)
    requires Runs(acts) && acts != []
    ensures n == |acts| - 1 && Runs(acts[..n]) && Can(After(acts[..n]), acts[n]) && After(acts) == Do(After(acts[..n]), acts[n])
    ensures forall k :: 0 <= k <= n ==> acts[..n][..k] == acts[..k]
  {
    hide Can, Do;
    n := |acts| - 1;
  }

  // ---- files

  /** File f is live in level l, and its table holds es. */
  ghost predicate Holds(t: Tree, l: nat, f: FileMeta, es: seq<Entry>)
    requires l < NUM_LEVELS
  {
    f in t.v[l] && f.fileNum in t.disk && t.disk[f.fileNum] == es
  }

  /** Action k has made file f live in level l: the table of a flush, in level 0, or an output of a
      compaction, one level below the one picked. */
  ghost predicate Puts(acts: seq<Action>, k: nat, l: nat, f: FileMeta, es: seq<Entry>) {
    && k < |acts| && Runs(acts[..k])
    && match acts[k]
       case PublishTable => l == 0 && After(acts[..k]).flush == Built(f, es)
       case PublishMerge(outs) =>
         var c := After(acts[..k]).compaction;
         c.Merging? && l == c.p.level + 1 && Table(f, es) in outs
       case _ => false
  }

  /** Action k is the end of a compaction that has merged f. */
  ghost predicate Takes(acts: seq<Action>, k: nat, f: FileMeta) {
    && k < |acts| && acts[k].PublishMerge? && Runs(acts[..k])
    && After(acts[..k]).compaction.Merging? && f in CompactionTree.Merging(After(acts[..k]).compaction.p)
  }

  ghost predicate StillThere(acts: seq<Action>, k: nat, f: FileMeta) {
    forall j: nat :: j > k ==> !Takes(acts, j, f)
  }

  lemma {:induction false} HoldsAfterFlush(s: State, l: nat, f: FileMeta, es: seq<Entry>)
    requires Inv(s) && Can(s, PublishTable) && l < NUM_LEVELS
    ensures Holds(Do(s, PublishTable).t, l, f, es) <==> Holds(s.t, l, f, es) || (l == 0 && s.flush == Built(f, es))
  {
    hide NumbersOk, ContentsOk, ReadersOk, CompactingOk, Unique, Lists, Applied;
    FlushedExactly(s.t, s.flush.f, s.flush.es, s.t.nextFileNum, l, f);
    FlushDisk(s.t, s.flush.f, s.flush.es, s.t.nextFileNum);
  }

  lemma {:induction false} FlushDisk(t: Tree, f: FileMeta, es: seq<Entry>, next: nat)
    ensures AfterFlush(t, f, es, next).disk == t.disk[f.fileNum := es]
  {
  }

  lemma {:induction false} HoldsAfterMerge(s: State, outs: seq<Table>, l: nat, f: FileMeta, es: seq<Entry>)
    requires Inv(s) && Can(s, PublishMerge(outs)) && l < NUM_LEVELS
    ensures Holds(Do(s, PublishMerge(outs)).t, l, f, es) <==>
      || (Holds(s.t, l, f, es) && f !in CompactionTree.Merging(s.compaction.p))
      || (l == s.compaction.p.level + 1 && Table(f, es) in outs)
  {
    hide NumbersOk, ContentsOk, ReadersOk, FlushingOk, CompactingOk, MergeOf, AfterCompaction, CompactionTree.Merging, Nums,
         StandingKept, Fresh, MetaOf, Kept, InOrder;
    var p, next, nums := s.compaction.p, s.t.nextFileNum, Nth(s.compaction.nums);
    CompactingStands(s.t, s.compaction, s.flush);
    OutputsFacts(s.t, p, outs, nums);
    OutputsFresh(s.t, s.compaction, s.flush, outs);
    CompactedExactly(s.t, p, outs, next, l, f);
    AfterIs(s.t, p, outs, next);
    FreshApart(s.t, outs, next, l, f);
    WrittenAt(s.t.disk, outs);
    if f in s.t.v[l] {
      MergedNums(s.t, p, l, f);
    }
    forall i: nat | i < |outs|
      ensures outs[i].meta.fileNum !in Nums(CompactionTree.Merging(p))
    {
      OutputNotMerged(s.t, p, outs, next, i);
    }
    OutputOf(outs, f, es);
  }

  lemma {:induction false} FreshApart(t: Tree, outs: seq<Table>, next: nat, l: nat, f: FileMeta)
    requires Fresh(t, outs, next) && l < NUM_LEVELS
    ensures forall i, j :: 0 <= i < j < |outs| ==> outs[i].meta.fileNum != outs[j].meta.fileNum
    ensures f in t.v[l] ==> forall i :: 0 <= i < |outs| ==> outs[i].meta.fileNum != f.fileNum
  {
  }

  lemma {:induction false} OutputOf(outs: seq<Table>, f: FileMeta, es: seq<Entry>)
    ensures Table(f, es) in outs <==> exists i :: 0 <= i < |outs| && outs[i].meta == f && outs[i].es == es
    ensures f in Metas(outs) <==> exists i :: 0 <= i < |outs| && outs[i].meta == f
  {
    forall i | 0 <= i < |outs|
      ensures Metas(outs)[i] == outs[i].meta && outs[i] == Table(outs[i].meta, outs[i].es)
    {
    }
  }

  /** The other steps leave the files as they are. */
  lemma {:induction false} HoldsOtherwise(s: State, a: Action, l: nat, f: FileMeta, es: seq<Entry>)
    requires Can(s, a) && !a.PublishTable? && !a.PublishMerge? && l < NUM_LEVELS
    ensures Holds(Do(s, a).t, l, f, es) <==> Holds(s.t, l, f, es)
  {
    hide PickMade, Lists, Capture;
  }

  /** After every run, a file is live in a level, and holds these entries, if and only if an action has put
      it there with them and no compaction after that has merged it. */
  lemma {:induction false} LiveIff(acts: seq<Action>, l: nat, f: FileMeta, es: seq<Entry>)
    requires Runs(acts) && l < NUM_LEVELS
    ensures Holds(After(acts).t, l, f, es) <==> exists k: nat :: Puts(acts, k, l, f, es) && StillThere(acts, k, f)
    decreases |acts|
  {
    hide Can, Do, Inv, Holds, Puts, Takes, Runs, After;
    if acts == [] {
      StartHolds(l, f, es);
    } else {
      var n := LastStep(acts);
      LiveIff(acts[..n], l, f, es);
      InvRun(acts[..n]);
      var s, a := After(acts[..n]), acts[n];
      LiveStep(s, acts, n, l, f, es);
      forall k: nat
        ensures k < n ==> (Puts(acts, k, l, f, es) <==> Puts(acts[..n], k, l, f, es)) && (Takes(acts, k, f) <==> Takes(acts[..n], k, f))
        ensures k >= n ==> !Puts(acts[..n], k, l, f, es) && !Takes(acts[..n], k, f)
        ensures k > n ==> !Puts(acts, k, l, f, es) && !Takes(acts, k, f)
      {
        SamePuts(acts, n, k, l, f, es);
      }
      LiveMore(acts, n, l, f, es);
    }
  }

  lemma {:induction false} SamePuts(acts: seq<Action>, n: nat, k: nat, l: nat, f: FileMeta, es: seq<Entry>)
    requires n == |acts| - 1
    ensures k < n ==> (Puts(acts, k, l, f, es) <==> Puts(acts[..n], k, l, f, es)) && (Takes(acts, k, f) <==> Takes(acts[..n], k, f))
    ensures k >= n ==> !Puts(acts[..n], k, l, f, es) && !Takes(acts[..n], k, f)
    ensures k > n ==> !Puts(acts, k, l, f, es) && !Takes(acts, k, f)
  {
    hide Runs, After;
    if k < n {
      assert acts[..n][..k] == acts[..k];
    }
  }

  lemma {:induction false} LiveMore(acts: seq<Action>, n: nat, l: nat, f: FileMeta, es: seq<Entry>)
    requires n < |acts|
    requires forall k: nat :: k < n ==> (Puts(acts, k, l, f, es) <==> Puts(acts[..n], k, l, f, es)) && (Takes(acts, k, f) <==> Takes(acts[..n], k, f))
    requires forall k: nat :: k >= n ==> !Puts(acts[..n], k, l, f, es) && !Takes(acts[..n], k, f)
    requires forall k: nat :: k > n ==> !Puts(acts, k, l, f, es) && !Takes(acts, k, f)
    ensures (exists k: nat :: Puts(acts, k, l, f, es) && StillThere(acts, k, f)) <==>
      || ((exists k: nat :: Puts(acts[..n], k, l, f, es) && StillThere(acts[..n], k, f)) && !Takes(acts, n, f))
      || Puts(acts, n, l, f, es)
  {
    hide Puts, Takes;
    if Puts(acts, n, l, f, es) {
      assert StillThere(acts, n, f);
    }
    forall k: nat | k < n
      ensures StillThere(acts, k, f) <==> StillThere(acts[..n], k, f) && !Takes(acts, n, f)
    {
    }
  }

  lemma {:induction false} LiveStep(s: State, acts: seq<Action>, n: nat, l: nat, f: FileMeta, es: seq<Entry>)
    requires n < |acts| && Runs(acts[..n]) && s == After(acts[..n]) && Inv(s) && Can(s, acts[n]) && l < NUM_LEVELS
    ensures Holds(Do(s, acts[n]).t, l, f, es) <==> (Holds(s.t, l, f, es) && !Takes(acts, n, f)) || Puts(acts, n, l, f, es)
  {
    hide Do, Inv, Holds, Runs, After, MergeOf, InputsOnDisk, PickMade, Lists, CompactionTree.Merging;
    match acts[n]
    case PublishTable => HoldsAfterFlush(s, l, f, es);
    case PublishMerge(outs) => HoldsAfterMerge(s, outs, l, f, es);
    case _ => HoldsOtherwise(s, acts[n], l, f, es);
  }

  lemma {:induction false} StartHolds(l: nat, f: FileMeta, es: seq<Entry>)
    requires l < NUM_LEVELS
    ensures Runs([]) && After([]) == START
    ensures !Holds(START.t, l, f, es) && forall k: nat :: !Puts([], k, l, f, es)
  {
  }

  /** Publishing a merge, in any run. */
  lemma {:induction false} MergePublished(acts: seq<Action>, outs: seq<Table>)
    requires Runs(acts) && Can(After(acts), PublishMerge(outs))
    ensures var s, s' := After(acts), Do(After(acts), PublishMerge(outs));
      s'.compaction == NoCompaction && Replaced(s.t, s.compaction.p, outs, s'.t)
  {
    hide NumbersOk, ContentsOk, ReadersOk, FlushingOk, CompactingOk, MergeOf, AfterCompaction, Runs, After, MetaOf, Fresh,
         InOrder, Kept, Replaced;
    InvRun(acts);
    var s := After(acts);
    var p, next, nums := s.compaction.p, s.t.nextFileNum, Nth(s.compaction.nums);
    CompactingStands(s.t, s.compaction, s.flush);
    OutputsFacts(s.t, p, outs, nums);
    OutputsFresh(s.t, s.compaction, s.flush, outs);
    CompactionReplaces(s.t, p, outs, nums, next);
  }

  // ---- the background loops get through

  /** A flush, from any state with a sealed memtable: its table is live in level 0 and the memtable gone. */
  lemma {:induction false} WholeFlush(acts: seq<Action>, es: seq<Entry>, size: nat) returns (more: seq<Action>)
    requires Runs(acts) && After(acts).flush == NoFlush && After(acts).dropped + 1 < |After(acts).mems|
    requires Lists(es, After(acts).mems[After(acts).dropped])
    ensures more == acts + [TakeOldest, BuildTable(es, size), PublishTable, DropMemtable] && Runs(more)
    ensures var s, s' := After(acts), After(more);
      && s' == s.(t := s'.t, dropped := s.dropped + 1)
      && Holds(s'.t, 0, TableMeta(s.t.nextFileNum, size, es), es)
  {
    hide Runs, After, Lists, AfterFlush, Inv, Holds;
    var n := After(acts).t.nextFileNum;
    more := RunMore(acts, TakeOldest);
    more := RunMore(more, BuildTable(es, size));
    InvRun(more);
    HoldsAfterFlush(After(more), 0, TableMeta(n, size, es), es);
    more := RunMore(more, PublishTable);
    more := RunMore(more, DropMemtable);
  }

  /** The numbers of k outputs. */
  function From(n: nat, k: nat): (r: seq<nat>)
    ensures |r| == k && forall i :: 0 <= i < k ==> r[i] == n + i
  {
    seq(k, i => n + i)
  }

  /** Giving out the numbers of the outputs. */
  lemma {:induction false} AllocMany(acts: seq<Action>, k: nat) returns (more: seq<Action>)
    requires Runs(acts) && After(acts).compaction.Merging? && After(acts).compaction.nums == []
    ensures Runs(more)
    ensures var s := After(acts);
      After(more) == s.(t := s.t.(nextFileNum := s.t.nextFileNum + k),
                        compaction := s.compaction.(nums := From(s.t.nextFileNum, k)))
  {
    hide Runs, After;
    var n := After(acts).t.nextFileNum;
    if k == 0 {
      more := acts;
      assert From(n, 0) == [];
    } else {
      more := AllocMany(acts, k - 1);
      more := RunMore(more, AllocOutput);
      assert From(n, k - 1) + [n + (k - 1)] == From(n, k);
    }
  }

  /** A compaction, from any state with a level that is due: picked, merged and published. What it puts
      out replaces what it has merged. */
  lemma {:induction false} WholeCompaction(acts: seq<Action>, p: Pick, outs: seq<Table>) returns (more: seq<Action>)
    requires Runs(acts) && After(acts).compaction == NoCompaction
    requires var s := After(acts); PickMade(s.t.v, p) && Due(s.t.v, p.level) && InputsOnDisk(s.t, p)
    requires var s := After(acts); MergeOf(s.t, p, outs, Nth(From(s.t.nextFileNum, |outs|)))
    ensures Runs(more)
    ensures var s, s' := After(acts), After(more);
      s' == s.(t := s'.t) && Replaced(s.t, p, outs, s'.t)
  {
    hide Runs, After, PickMade, Due, MergeOf, Replaced, AfterCompaction;
    var s := After(acts);
    more := RunMore(acts, PickFiles(p));
    more := AllocMany(more, |outs|);
    SameInputs(s.t, p, outs, s.t.nextFileNum + |outs|);
    MergePublished(more, outs);
    ReplacedSame(s.t, p, outs, After(more).t, Do(After(more), PublishMerge(outs)).t);
    more := RunMore(more, PublishMerge(outs));
  }

  lemma {:induction false} ReplacedSame(t: Tree, p: Pick, outs: seq<Table>, u: Tree, t': Tree)
    requires u.v == t.v && u.disk == t.disk && Replaced(u, p, outs, t')
    ensures Replaced(t, p, outs, t')
  {
  }

  lemma {:induction false} SameInputs(t: Tree, p: Pick, outs: seq<Table>, next: nat)
    requires InputsOnDisk(t, p) && MergeOf(t, p, outs, Nth(From(t.nextFileNum, |outs|)))
    ensures InputsOnDisk(t.(nextFileNum := next), p)
    ensures MergeOf(t.(nextFileNum := next), p, outs, Nth(From(t.nextFileNum, |outs|)))
  {
    hide OutputsOk, Merged, Cursors, Sorted, ToMap, Remaining;
  }
}
