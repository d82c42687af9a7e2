/** The database as a transition system: writers, the flush loop, the compaction loop and captures
    by readers interleave; a step is one atomic operation or one critical section. */
module Databases {
  import opened Bytes
  import opened InternalKey
  import opened Block
  import opened Merge
  import opened Versions
  import opened Compactions
  import opened CompactionMerge
  import opened CompactionTree
  import opened CompactionRuns
  import opened Memtables

  /** A Set or Delete: it has taken its number, has stored it as the last one, or is done. */
  datatype Phase = Numbered | Stored | Done(ok: bool)

  datatype Writer = Writer(w: Write, phase: Phase)

  /** The flush loop: holds the oldest sealed memtable, has built its table, has published it. */
  datatype Flushing = NoFlush | Taken | Built(f: FileMeta, es: seq<Entry>) | Published

  /** The compaction loop: merges a pick; the file numbers allocated so far. */
  datatype Compacting = NoCompaction | Merging(p: Pick, nums: seq<nat>)

  /** A read. Must are the writes that had returned when it began; memtables are captured as a range
      of numbers. Get and NewIterator capture the memtables first, NewSnapshot the version; from is
      the oldest memtable whose table was not published yet when a snapshot loaded its version. */
  datatype Reader =
    | Started(must: set<Write>)
    | HasMemtables(must: set<Write>, lo: nat, hi: nat)
    | Captured(must: set<Write>, lo: nat, hi: nat, t: Tree)
    | SnapshotStarted(must: set<Write>)
    | SnapshotVersion(must: set<Write>, from: nat, t: Tree)
    | SnapshotTaken(must: set<Write>, from: nat, lo: nat, hi: nat, t: Tree)

  /** Mems are all memtables there ever were; those below dropped are flushed and gone, the last one
      is active. Written are the writes that a memtable has taken, returned those whose call is over. */
  datatype State = State(t: Tree, mems: seq<set<Write>>, dropped: nat, seqNum: nat, lastSeqNum: nat,
                         written: set<Write>, returned: set<Write>, writers: map<nat, Writer>,
                         flush: Flushing, compaction: Compacting, readers: map<nat, Reader>)

  const START := State(Tree(EMPTY, map[], 1), [{}], 0, 0, 0, {}, {}, map[], NoFlush, NoCompaction, map[])

  datatype Action =
    | TakeNumber(i: nat, key: bytes, kind: byte, value: bytes)
    | StoreNumber(i: nat)
    | InsertOrRotate(i: nat, room: bool, roomInNew: bool)
    | ReturnCall(i: nat)
    | TakeOldest
    | BuildTable(es: seq<Entry>, size: nat)
    | PublishTable
    | DropMemtable
    | PickFiles(p: Pick)
    | AllocOutput
    | PublishMerge(outs: seq<Table>)
    | BeginRead(r: nat)
    | CopyMemtables(r: nat)
    | LoadVersion(r: nat)
    | BeginSnapshot(r: nat)

  /** The entries of a memtable in order. */
  ghost predicate Lists(es: seq<Entry>, ws: set<Write>) {
    && Sorted(es)
    && (forall w :: w in ws ==> EntryOf(w) in es)
    && (forall e :: e in es ==> exists w :: w in ws && e == EntryOf(w))
  }

  function Nth(nums: seq<nat>): nat -> nat {
    (i: nat) => if i < |nums| then nums[i] else 0
  }

  ghost predicate InputsOnDisk(t: Tree, p: Pick) {
    forall f :: f in CompactionTree.Merging(p) ==> f.fileNum in t.disk
  }

  /** When an action is possible. */
  ghost predicate Can(s: State, a: Action) {
    match a
    case TakeNumber(i, _, kind, _) => i !in s.writers && s.seqNum < MAX_SEQ && kind <= KIND_SET
    case StoreNumber(i) => i in s.writers && s.writers[i].phase == Phase.Numbered
    case InsertOrRotate(i, _, _) => i in s.writers && s.writers[i].phase == Stored && s.mems != []
    case ReturnCall(i) => i in s.writers && s.writers[i].phase.Done?
    case TakeOldest => s.flush == NoFlush && s.dropped + 1 < |s.mems|
    case BuildTable(es, _) =>
      s.flush == Taken && s.dropped < |s.mems| && Lists(es, s.mems[s.dropped])
    case PublishTable => s.flush.Built?
    case DropMemtable => s.flush == Published
    case PickFiles(p) => s.compaction == NoCompaction && PickMade(s.t.v, p) && Due(s.t.v, p.level)
    case AllocOutput => s.compaction.Merging?
    case PublishMerge(outs) =>
      && s.compaction.Merging? && |outs| == |s.compaction.nums|
      && InputsOnDisk(s.t, s.compaction.p) && MergeOf(s.t, s.compaction.p, outs, Nth(s.compaction.nums))
    case BeginRead(r) => r !in s.readers
    case CopyMemtables(r) => r in s.readers && (s.readers[r].Started? || s.readers[r].SnapshotVersion?)
    case LoadVersion(r) => r in s.readers && (s.readers[r].HasMemtables? || s.readers[r].SnapshotStarted?)
    case BeginSnapshot(r) => r !in s.readers
  }

  function Finish(s: State, i: nat, ok: bool): State
    requires i in s.writers
  {
    var w := s.writers[i].w;
    s.(writers := s.writers[i := Writer(w, Done(ok))], written := if ok then s.written + {w} else s.written)
  }

  /** Set under the lock: into the active memtable, or else seal it and try a new one. */
  function Insert(s: State, i: nat, room: bool, roomInNew: bool): State
    requires i in s.writers && s.mems != []
  {
    var w := s.writers[i].w;
    var last := |s.mems| - 1;
    if room then Finish(s.(mems := s.mems[last := s.mems[last] + {w}]), i, true)
    else Finish(s.(mems := s.mems + [if roomInNew then {w} else {}]), i, roomInNew)
  }

  function TableMeta(n: nat, size: nat, es: seq<Entry>): FileMeta {
    if es == [] then FileMeta(n, 0, size, [], [])
    else FileMeta(n, 0, size, es[0].key, es[|es| - 1].key)
  }

  /** The oldest memtable whose table is not in the version. */
  function Unpublished(s: State): nat {
    s.dropped + if s.flush == Published then 1 else 0
  }

  function Capture(s: State, r: Reader): Reader {
    match r
    case Started(must) => HasMemtables(must, s.dropped, |s.mems|)
    case HasMemtables(must, lo, hi) => Captured(must, lo, hi, s.t)
    case SnapshotStarted(must) => SnapshotVersion(must, Unpublished(s), s.t)
    case SnapshotVersion(must, from, t) => SnapshotTaken(must, from, s.dropped, |s.mems|, t)
    case _ => r
  }

  function Do(s: State, a: Action): State
    requires Can(s, a)
  {
    match a
    case TakeNumber(i, key, kind, value) =>
      var n := s.seqNum + 1;
      s.(seqNum := n, writers := s.writers[i := Writer(Write(key, n, kind, value), Phase.Numbered)])
    case StoreNumber(i) =>
      var w := s.writers[i].w;
      s.(lastSeqNum := w.seqNum, writers := s.writers[i := Writer(w, Stored)])
    case InsertOrRotate(i, room, roomInNew) => Insert(s, i, room, roomInNew)
    case ReturnCall(i) =>
      var x := s.writers[i];
      s.(writers := s.writers - {i}, returned := if x.phase.ok then s.returned + {x.w} else s.returned)
    case TakeOldest => s.(flush := Taken)
    case BuildTable(es, size) =>
      var n := s.t.nextFileNum;
      s.(t := s.t.(nextFileNum := n + 1), flush := Built(TableMeta(n, size, es), es))
    case PublishTable => s.(t := AfterFlush(s.t, s.flush.f, s.flush.es, s.t.nextFileNum), flush := Published)
    case DropMemtable => s.(dropped := s.dropped + 1, flush := NoFlush)
    case PickFiles(p) => s.(compaction := Merging(p, []))
    case AllocOutput =>
      var n := s.t.nextFileNum;
      s.(t := s.t.(nextFileNum := n + 1), compaction := s.compaction.(nums := s.compaction.nums + [n]))
    case PublishMerge(outs) =>
      s.(t := AfterCompaction(s.t, s.compaction.p, outs, s.t.nextFileNum), compaction := NoCompaction)
    case BeginRead(r) => s.(readers := s.readers[r := Started(s.returned)])
    case CopyMemtables(r) => s.(readers := s.readers[r := Capture(s, s.readers[r])])
    case LoadVersion(r) => s.(readers := s.readers[r := Capture(s, s.readers[r])])
    case BeginSnapshot(r) => s.(readers := s.readers[r := SnapshotStarted(s.returned)])
  }

  /** A run from the empty database, and where it ends. */
  ghost predicate Runs(acts: seq<Action>)
    decreases |acts|, 0
  {
    acts != [] ==> Runs(acts[..|acts| - 1]) && Can(After(acts[..|acts| - 1]), acts[|acts| - 1])
  }

  ghost function After(acts: seq<Action>): State
    requires Runs(acts)
    decreases |acts|, 1
  {
    if acts == [] then START else Do(After(acts[..|acts| - 1]), acts[|acts| - 1])
  }

  // ---- the invariant

  ghost predicate InMems(mems: seq<set<Write>>, lo: nat, hi: nat, w: Write) {
    exists id :: lo <= id < hi && id < |mems| && w in mems[id]
  }

  /** Numbers identify writes. */
  ghost predicate NumbersOk(seqNum: nat, written: set<Write>, returned: set<Write>, writers: map<nat, Writer>) {
    && seqNum <= MAX_SEQ && returned <= written
    && (forall w :: w in written ==> 0 < w.seqNum <= seqNum && w.kind <= KIND_SET)
    && (forall v, w :: v in written && w in written && v.seqNum == w.seqNum ==> v == w)
    && (forall i :: i in writers ==> 0 < writers[i].w.seqNum <= seqNum && writers[i].w.kind <= KIND_SET)
    && (forall i, j :: i in writers && j in writers && i != j ==> writers[i].w.seqNum != writers[j].w.seqNum)
    && (forall i :: i in writers && writers[i].phase == Done(true) ==> writers[i].w in written)
    && (forall i, w :: i in writers && !writers[i].phase.Done? && w in written ==> writers[i].w.seqNum != w.seqNum)
  }

  /** Memtables and live tables hold the successful writes and nothing else. */
  ghost predicate ContentsOk(t: Tree, mems: seq<set<Write>>, dropped: nat, written: set<Write>) {
    && dropped < |mems|
    && (forall w :: w in written ==> InMems(mems, dropped, |mems|, w) || Has(t, EntryOf(w)))
    && (forall id, w :: 0 <= id < |mems| && w in mems[id] ==> w in written)
    && Stores(t, written)
  }

  /** Every entry of a live table is a write. */
  ghost predicate Stores(t: Tree, written: set<Write>) {
    forall e :: Has(t, e) ==> exists w :: w in written && e == EntryOf(w)
  }

  ghost predicate NotLive(t: Tree, n: nat) {
    forall l, f :: 0 <= l < NUM_LEVELS && f in t.v[l] ==> f.fileNum != n
  }

  ghost predicate FlushingOk(t: Tree, mems: seq<set<Write>>, dropped: nat, flush: Flushing) {
    && (flush != NoFlush ==> dropped + 1 < |mems|)
    && (flush.Built? ==> FlushKept(t, flush.f, t.nextFileNum) && Lists(flush.es, mems[dropped]))
    && (flush == Published ==> forall w :: w in mems[dropped] ==> Has(t, EntryOf(w)))
  }

  ghost predicate CompactingOk(t: Tree, c: Compacting, flush: Flushing) {
    c.Merging? ==>
      && StandingKept(t.v, c.p)
      && (forall i, j :: 0 <= i < j < |c.nums| ==> c.nums[i] != c.nums[j])
      && (forall i :: 0 <= i < |c.nums| ==> c.nums[i] < t.nextFileNum && NotLive(t, c.nums[i]))
      && (flush.Built? ==> forall i :: 0 <= i < |c.nums| ==> c.nums[i] != flush.f.fileNum)
  }

  /** What a capture must hold, it holds or will hold. */
  ghost predicate ReaderOk(t: Tree, mems: seq<set<Write>>, written: set<Write>, r: Reader) {
    match r
    case Started(must) => must <= written
    case SnapshotStarted(must) => must <= written
    case SnapshotVersion(must, from, seen) =>
      forall w :: w in must ==> InMems(mems, from, |mems|, w) || Has(seen, EntryOf(w))
    case SnapshotTaken(must, from, lo, hi, seen) =>
      hi <= |mems| && forall w :: w in must ==> InMems(mems, from, hi, w) || Has(seen, EntryOf(w))
    case HasMemtables(must, lo, hi) =>
      hi <= |mems| && forall w :: w in must ==> InMems(mems, lo, hi, w) || Has(t, EntryOf(w))
    case Captured(must, lo, hi, seen) =>
      && hi <= |mems| && Stores(seen, written)
      && forall w :: w in must ==> InMems(mems, lo, hi, w) || Has(seen, EntryOf(w))
  }

  ghost predicate ReadersOk(t: Tree, mems: seq<set<Write>>, written: set<Write>, readers: map<nat, Reader>) {
    forall r :: r in readers ==> ReaderOk(t, mems, written, readers[r])
  }

  ghost predicate Inv(s: State) {
    && Kept(s.t) && NumbersOk(s.seqNum, s.written, s.returned, s.writers)
    && ContentsOk(s.t, s.mems, s.dropped, s.written)
    && FlushingOk(s.t, s.mems, s.dropped, s.flush) && CompactingOk(s.t, s.compaction, s.flush)
    && ReadersOk(s.t, s.mems, s.written, s.readers)
  }

  // ---- what the pieces need from each step

  ghost predicate Grows(t: Tree, t': Tree) {
    forall e :: Has(t, e) ==> Has(t', e)
  }

  ghost predicate MemsGrow(mems: seq<set<Write>>, mems': seq<set<Write>>) {
    |mems| <= |mems'| && forall id :: 0 <= id < |mems| ==> mems[id] <= mems'[id]
  }

  lemma {:induction false} InMemsGrows(mems: seq<set<Write>>, mems': seq<set<Write>>, lo: nat, hi: nat, hi': nat, w: Write)
    requires MemsGrow(mems, mems') && hi <= hi' && InMems(mems, lo, hi, w)
    ensures InMems(mems', lo, hi', w)
  {
    var id :| lo <= id < hi && id < |mems| && w in mems[id];
    assert w in mems'[id];
  }

  /** Captures only profit when tables and memtables gain entries. */
  lemma {:induction false} ReadersKeep(t: Tree, mems: seq<set<Write>>, written: set<Write>, readers: map<nat, Reader>,
                                       t': Tree, mems': seq<set<Write>>, written': set<Write>)
    requires ReadersOk(t, mems, written, readers) && Grows(t, t') && MemsGrow(mems, mems') && written <= written'
    ensures ReadersOk(t', mems', written', readers)
  {
    hide Has, InMems, EntryOf;
    forall r | r in readers
      ensures ReaderOk(t', mems', written', readers[r])
    {
      var x := readers[r];
      assert ReaderOk(t, mems, written, x);
      forall lo, hi, w | 0 <= lo && 0 <= hi && InMems(mems, lo, hi, w)
        ensures InMems(mems', lo, hi, w)
      {
        InMemsGrows(mems, mems', lo, hi, hi, w);
      }
      if x.SnapshotVersion? {
        forall w | w in x.must && InMems(mems, x.from, |mems|, w)
          ensures InMems(mems', x.from, |mems'|, w)
        {
          InMemsGrows(mems, mems', x.from, |mems|, |mems'|, w);
        }
      }
    }
  }

  lemma {:induction false} ReaderStep(t: Tree, mems: seq<set<Write>>, written: set<Write>, readers: map<nat, Reader>,
                                      r: nat, x: Reader)
    requires ReadersOk(t, mems, written, readers) && ReaderOk(t, mems, written, x)
    ensures ReadersOk(t, mems, written, readers[r := x])
  {
    hide ReaderOk;
  }

  lemma {:induction false} Same(t: Tree, mems: seq<set<Write>>)
    ensures Grows(t, t) && MemsGrow(mems, mems)
  {
    hide Has;
  }

  /** Only levels and tables matter to what is stored. */
  lemma {:induction false} NextNumOnly(t: Tree, n: nat)
    requires Kept(t) && t.nextFileNum <= n
    ensures Kept(t.(nextFileNum := n))
    ensures forall e :: Has(t.(nextFileNum := n), e) <==> Has(t, e)
  {
    hide Unique;
    var t' := t.(nextFileNum := n);
    forall l, f | 0 <= l < NUM_LEVELS && f in t'.v[l]
      ensures FileKept(t', l, f)
    {
      assert FileKept(t, l, f);
    }
  }

  lemma {:induction false} EntryInjective(v: Write, w: Write)
    requires v.seqNum <= MAX_SEQ && w.seqNum <= MAX_SEQ
    ensures EntryOf(v).key == EntryOf(w).key ==> v.key == w.key && v.seqNum == w.seqNum && v.kind == w.kind
    ensures EntryOf(v) == EntryOf(w) ==> v == w
  {
    hide Make, UserKey, Seq, Kind;
    ParseEntry(v);
    ParseEntry(w);
  }

  /** Internal keys are unique among the stored entries. */
  lemma {:induction false} StoredConsistent(s: State)
    requires NumbersOk(s.seqNum, s.written, s.returned, s.writers) && ContentsOk(s.t, s.mems, s.dropped, s.written)
    ensures Consistent(s.t)
  {
    hide Has, EntryOf;
    forall d, e | Has(s.t, d) && Has(s.t, e) && d.key == e.key
      ensures d == e
    {
      var v :| v in s.written && d == EntryOf(v);
      var w :| w in s.written && e == EntryOf(w);
      EntryInjective(v, w);
    }
  }

  // ---- writers

  lemma {:induction false} InvTakeNumber(s: State, a: Action)
    requires Inv(s) && Can(s, a) && a.TakeNumber?
    ensures Inv(Do(s, a))
  {
    hide Kept, ContentsOk, FlushingOk, CompactingOk, ReadersOk;
  }

  lemma {:induction false} InvStoreNumber(s: State, a: Action)
    requires Inv(s) && Can(s, a) && a.StoreNumber?
    ensures Inv(Do(s, a))
  {
    hide Kept, ContentsOk, FlushingOk, CompactingOk, ReadersOk;
  }

  lemma {:induction false} InvReturnCall(s: State, a: Action)
    requires Inv(s) && Can(s, a) && a.ReturnCall?
    ensures Inv(Do(s, a))
  {
    hide Kept, ContentsOk, FlushingOk, CompactingOk, ReadersOk;
  }

  lemma {:induction false} FinishNumbers(seqNum: nat, written: set<Write>, returned: set<Write>,
                                         writers: map<nat, Writer>, i: nat, ok: bool)
    requires NumbersOk(seqNum, written, returned, writers) && i in writers && writers[i].phase == Stored
    ensures NumbersOk(seqNum, if ok then written + {writers[i].w} else written, returned,
                      writers[i := Writer(writers[i].w, Done(ok))])
  {
  }

  /** A new write goes into the active memtable or a newer one. */
  lemma {:induction false} ContentsMore(t: Tree, mems: seq<set<Write>>, dropped: nat, written: set<Write>,
                                        mems': seq<set<Write>>, written': set<Write>)
    requires ContentsOk(t, mems, dropped, written) && MemsGrow(mems, mems') && written <= written'
    requires forall w :: w in written' && w !in written ==> InMems(mems', dropped, |mems'|, w)
    requires forall id, w :: 0 <= id < |mems'| && w in mems'[id] ==> w in written'
    ensures ContentsOk(t, mems', dropped, written')
  {
    hide Has, InMems, EntryOf;
    forall w | w in written && InMems(mems, dropped, |mems|, w)
      ensures InMems(mems', dropped, |mems'|, w)
    {
      InMemsGrows(mems, mems', dropped, |mems|, |mems'|, w);
    }
  }

  lemma {:induction false} InvInsert(s: State, i: nat, room: bool, roomInNew: bool)
    requires Inv(s) && Can(s, InsertOrRotate(i, room, roomInNew))
    ensures Inv(Do(s, InsertOrRotate(i, room, roomInNew)))
  {
    hide Kept, NumbersOk, ReadersOk, CompactingOk, Has, Lists, FlushKept, EntryOf;
    var s' := Insert(s, i, room, roomInNew);
    var w := s.writers[i].w;
    FinishNumbers(s.seqNum, s.written, s.returned, s.writers, i, room || roomInNew);
    MemsMore(s.mems, s'.mems, s.dropped, w, room, roomInNew);
    ContentsMore(s.t, s.mems, s.dropped, s.written, s'.mems, s'.written);
    Same(s.t, s.mems);
    ReadersKeep(s.t, s.mems, s.written, s.readers, s.t, s'.mems, s'.written);
  }

  lemma {:induction false} MemsMore(mems: seq<set<Write>>, mems': seq<set<Write>>, dropped: nat, w: Write, room: bool,
                                    roomInNew: bool)
    requires mems != [] && dropped < |mems|
    requires mems' == if room then mems[|mems| - 1 := mems[|mems| - 1] + {w}]
                      else mems + [if roomInNew then {w} else {}]
    ensures MemsGrow(mems, mems') && (forall id :: 0 <= id < |mems| - 1 ==> mems'[id] == mems[id])
    ensures room || roomInNew ==> InMems(mems', dropped, |mems'|, w)
    ensures forall id, v :: 0 <= id < |mems'| && v in mems'[id] ==>
      (id < |mems| && v in mems[id]) || (v == w && (room || roomInNew))
  {
    if room || roomInNew {
      assert w in mems'[|mems'| - 1];
    }
  }

  // ---- flush

  lemma {:induction false} InvTakeOldest(s: State, a: Action)
    requires Inv(s) && Can(s, a) && a.TakeOldest?
    ensures Inv(Do(s, a))
  {
    hide Kept, NumbersOk, ContentsOk, ReadersOk, StandingKept, NotLive;
  }

  lemma {:induction false} InvBuildTable(s: State, es: seq<Entry>, size: nat)
    requires Inv(s) && Can(s, BuildTable(es, size))
    ensures Inv(Do(s, BuildTable(es, size)))
  {
    hide Kept, NumbersOk, ReadersOk, ContentsOk, Has, Lists, FlushKept, StandingKept, NotLive, Sorted;
    var s' := Do(s, BuildTable(es, size));
    var n := s.t.nextFileNum;
    NextNumOnly(s.t, n + 1);
    Same(s.t, s.mems);
    ReadersKeep(s.t, s.mems, s.written, s.readers, s'.t, s.mems, s.written);
    ContentsFrame(s.t, s'.t, s.mems, s.dropped, s.written);
    BuiltOk(s.t, es, size);
    NotLiveFrame(s.t, n + 1);
  }

  lemma {:induction false} ContentsFrame(t: Tree, t': Tree, mems: seq<set<Write>>, dropped: nat, written: set<Write>)
    requires ContentsOk(t, mems, dropped, written) && forall e :: Has(t', e) <==> Has(t, e)
    ensures ContentsOk(t', mems, dropped, written)
  {
    hide Has, InMems, EntryOf;
  }

  lemma {:induction false} NotLiveFrame(t: Tree, n: nat)
    ensures forall k :: NotLive(t, k) ==> NotLive(t.(nextFileNum := n), k)
  {
  }

  lemma {:induction false} BuiltOk(t: Tree, es: seq<Entry>, size: nat)
    requires Kept(t)
    ensures FlushKept(t.(nextFileNum := t.nextFileNum + 1), TableMeta(t.nextFileNum, size, es), t.nextFileNum + 1)
  {
    hide Unique;
    forall l, g | 0 <= l < NUM_LEVELS && g in t.v[l]
      ensures g.fileNum != t.nextFileNum
    {
      assert FileKept(t, l, g);
    }
  }

  lemma {:induction false} InvPublishTable(s: State)
    requires Inv(s) && Can(s, PublishTable)
    ensures Inv(Do(s, PublishTable))
  {
    hide Kept, NumbersOk, ReadersOk, Has, FlushKept, StandingKept, NotLive, Sorted, EntryOf, InMems, AfterFlush;
    var s' := Do(s, PublishTable);
    var f, es := s.flush.f, s.flush.es;
    var n := s.t.nextFileNum;
    FlushKeepsKept(s.t, f, es, n);
    forall e
      ensures Has(s'.t, e) <==> Has(s.t, e) || e in es
    {
      FlushAdds(s.t, f, es, n, e);
    }
    Same(s.t, s.mems);
    ReadersKeep(s.t, s.mems, s.written, s.readers, s'.t, s.mems, s.written);
    if s.compaction.Merging? {
      FlushKeepsFiles(s.t, f, es, n, s.compaction.p);
      forall i | 0 <= i < |s.compaction.nums|
        ensures NotLive(s'.t, s.compaction.nums[i])
      {
        FlushNotLive(s.t, f, es, n, s.compaction.nums[i]);
      }
    }
    AfterFlushNext(s.t, f, es, n);
  }

  lemma {:induction false} AfterFlushNext(t: Tree, f: FileMeta, es: seq<Entry>, n: nat)
    ensures AfterFlush(t, f, es, n).nextFileNum == n
  {
  }

  lemma {:induction false} FlushNotLive(t: Tree, f: FileMeta, es: seq<Entry>, n: nat, k: nat)
    requires FlushKept(t, f, n) && NotLive(t, k) && k != f.fileNum
    ensures NotLive(AfterFlush(t, f, es, n), k)
  {
    hide Applied, AfterFlush;
    forall l, g | 0 <= l < NUM_LEVELS && g in AfterFlush(t, f, es, n).v[l]
      ensures g.fileNum != k
    {
      FlushedExactly(t, f, es, n, l, g);
    }
  }

  lemma {:induction false} InvDropMemtable(s: State)
    requires Inv(s) && Can(s, DropMemtable)
    ensures Inv(Do(s, DropMemtable))
  {
    hide Kept, NumbersOk, ReadersOk, Has, StandingKept, NotLive, EntryOf;
    forall w | w in s.written && InMems(s.mems, s.dropped, |s.mems|, w)
      ensures InMems(s.mems, s.dropped + 1, |s.mems|, w) || Has(s.t, EntryOf(w))
    {
      var id :| s.dropped <= id < |s.mems| && w in s.mems[id];
    }
  }

  // ---- compaction

  lemma {:induction false} InvPickFiles(s: State, p: Pick)
    requires Inv(s) && Can(s, PickFiles(p))
    ensures Inv(Do(s, PickFiles(p)))
  {
    hide Kept, NumbersOk, ReadersOk, ContentsOk, FlushingOk, PickMade, StandingKept;
    MadeStands(s.t.v, p);
  }

  lemma {:induction false} MadeStands(v: Levels, p: Pick)
    requires PickMade(v, p)
    ensures StandingKept(v, p)
  {
    hide RangeOf, Covers, Touches;
  }

  lemma {:induction false} InvAllocOutput(s: State)
    requires Inv(s) && Can(s, AllocOutput)
    ensures Inv(Do(s, AllocOutput))
  {
    hide Kept, NumbersOk, ReadersOk, ContentsOk, Has, Lists, StandingKept, NotLive, MetaOf;
    var s' := Do(s, AllocOutput);
    var n := s.t.nextFileNum;
    NextNumOnly(s.t, n + 1);
    Same(s.t, s.mems);
    ReadersKeep(s.t, s.mems, s.written, s.readers, s'.t, s.mems, s.written);
    ContentsFrame(s.t, s'.t, s.mems, s.dropped, s.written);
    NotLiveFrame(s.t, n + 1);
    NextNotLive(s.t);
  }

  lemma {:induction false} NextNotLive(t: Tree)
    requires Kept(t)
    ensures NotLive(t, t.nextFileNum)
  {
    hide Unique;
    forall l, f | 0 <= l < NUM_LEVELS && f in t.v[l]
      ensures f.fileNum != t.nextFileNum
    {
      assert FileKept(t, l, f);
    }
  }

  lemma {:induction false} OutputsFresh(t: Tree, c: Compacting, flush: Flushing, outs: seq<Table>)
    requires c.Merging? && CompactingOk(t, c, flush) && |outs| == |c.nums|
    requires OutputsOk(outs, c.p.level + 1, Nth(c.nums))
    ensures Fresh(t, outs, t.nextFileNum)
    ensures forall i :: 0 <= i < |outs| ==> outs[i].meta.fileNum == c.nums[i]
  {
    hide MetaOf, InOrder, StandingKept;
    forall i, l, f | 0 <= i < |outs| && 0 <= l < NUM_LEVELS && f in t.v[l]
      ensures outs[i].meta.fileNum != f.fileNum
    {
      assert NotLive(t, c.nums[i]);
    }
  }

  /** A table that a flush has built meanwhile keeps its number to itself. */
  lemma {:induction false} FlushStillOk(t: Tree, p: Pick, outs: seq<Table>, next: nat, f: FileMeta)
    requires FlushKept(t, f, next) && t.nextFileNum == next
    requires forall i :: 0 <= i < |outs| ==> outs[i].meta.fileNum != f.fileNum
    ensures FlushKept(AfterCompaction(t, p, outs, next), f, next)
  {
    hide MetaOf, Nums, CompactionTree.Merging, AfterCompaction;
    var t' := AfterCompaction(t, p, outs, next);
    AfterIs(t, p, outs, next);
    forall l, g | 0 <= l < NUM_LEVELS && g in t'.v[l]
      ensures g.fileNum != f.fileNum
    {
      CompactedExactly(t, p, outs, next, l, g);
    }
  }

  lemma {:induction false} InvPublishMerge(s: State, outs: seq<Table>)
    requires Inv(s) && Can(s, PublishMerge(outs))
    ensures Inv(Do(s, PublishMerge(outs)))
  {
    hide Kept, NumbersOk, ReadersOk, ContentsOk, Has, Lists, StandingKept, NotLive, MetaOf, MergeOf, Consistent,
         CompactingOk, Fresh, FlushKept, AfterCompaction, Nth, EntryOf;
    var p, nums, next := s.compaction.p, Nth(s.compaction.nums), s.t.nextFileNum;
    var t' := AfterCompaction(s.t, p, outs, next);
    CompactingStands(s.t, s.compaction, s.flush);
    OutputsFacts(s.t, p, outs, nums);
    OutputsFresh(s.t, s.compaction, s.flush, outs);
    StoredConsistent(s);
    CompactionKept(s.t, p, outs, nums, next);
    CompactionKeepsEntries(s.t, p, outs, nums, next);
    Same(s.t, s.mems);
    ReadersKeep(s.t, s.mems, s.written, s.readers, t', s.mems, s.written);
    ContentsFrame(s.t, t', s.mems, s.dropped, s.written);
    AfterIs(s.t, p, outs, next);
    if s.flush.Built? {
      FlushStillOk(s.t, p, outs, next, s.flush.f);
    }
    NoCompactionOk(t', s.flush);
  }

  lemma {:induction false} CompactingStands(t: Tree, c: Compacting, flush: Flushing)
    requires CompactingOk(t, c, flush) && c.Merging?
    ensures StandingKept(t.v, c.p)
    ensures flush.Built? ==> forall i :: 0 <= i < |c.nums| ==> c.nums[i] != flush.f.fileNum
  {
  }

  lemma {:induction false} NoCompactionOk(t: Tree, flush: Flushing)
    ensures CompactingOk(t, NoCompaction, flush)
  {
  }

  // ---- readers

  lemma {:induction false} InvRead(s: State, a: Action)
    requires Inv(s) && Can(s, a) && (a.BeginRead? || a.BeginSnapshot?)
    ensures Inv(Do(s, a))
  {
    hide Kept, ContentsOk, FlushingOk, CompactingOk, ReadersOk, NumbersOk;
    ReturnedWritten(s);
    ReaderStep(s.t, s.mems, s.written, s.readers, a.r, if a.BeginRead? then Started(s.returned) else SnapshotStarted(s.returned));
  }

  lemma {:induction false} ReturnedWritten(s: State)
    requires NumbersOk(s.seqNum, s.written, s.returned, s.writers)
    ensures s.returned <= s.written
  {
  }

  /** The heart of the capture: what has returned is in the memtables that are copied or in a table
      that is already published, and stays in every later version. */
  lemma {:induction false} CaptureOk(s: State, r: nat)
    requires ContentsOk(s.t, s.mems, s.dropped, s.written) && FlushingOk(s.t, s.mems, s.dropped, s.flush)
    requires ReadersOk(s.t, s.mems, s.written, s.readers) && r in s.readers
    ensures ReaderOk(s.t, s.mems, s.written, Capture(s, s.readers[r]))
  {
    hide Has, InMems, EntryOf, FlushKept, Lists;
    assert ReaderOk(s.t, s.mems, s.written, s.readers[r]);
    forall w | s.flush == Published && InMems(s.mems, s.dropped, |s.mems|, w) && !InMems(s.mems, s.dropped + 1, |s.mems|, w)
      ensures Has(s.t, EntryOf(w))
    {
      InFirst(s.mems, s.dropped, w);
    }
  }

  lemma {:induction false} InFirst(mems: seq<set<Write>>, lo: nat, w: Write)
    requires InMems(mems, lo, |mems|, w) && !InMems(mems, lo + 1, |mems|, w)
    ensures lo < |mems| && w in mems[lo]
  {
    var id :| lo <= id < |mems| && w in mems[id];
  }

  lemma {:induction false} InvCapture(s: State, a: Action)
    requires Inv(s) && Can(s, a) && (a.CopyMemtables? || a.LoadVersion?)
    ensures Inv(Do(s, a))
  {
    hide Kept, ContentsOk, FlushingOk, CompactingOk, ReadersOk, NumbersOk;
    CaptureOk(s, a.r);
    ReaderStep(s.t, s.mems, s.written, s.readers, a.r, Capture(s, s.readers[a.r]));
  }

  // ---- every run

  lemma {:induction false} InvStep(s: State, a: Action)
    requires Inv(s) && Can(s, a)
    ensures Inv(Do(s, a))
  {
    hide Inv, Can, Do;
    match a
    case TakeNumber(_, _, _, _) => InvTakeNumber(s, a);
    case StoreNumber(_) => InvStoreNumber(s, a);
    case InsertOrRotate(i, room, roomInNew) => InvInsert(s, i, room, roomInNew);
    case ReturnCall(_) => InvReturnCall(s, a);
    case TakeOldest => InvTakeOldest(s, a);
    case BuildTable(es, size) => InvBuildTable(s, es, size);
    case PublishTable => InvPublishTable(s);
    case DropMemtable => InvDropMemtable(s);
    case PickFiles(p) => InvPickFiles(s, p);
    case AllocOutput => InvAllocOutput(s);
    case PublishMerge(outs) => InvPublishMerge(s, outs);
    case BeginRead(_) => InvRead(s, a);
    case CopyMemtables(_) => InvCapture(s, a);
    case LoadVersion(_) => InvCapture(s, a);
    case BeginSnapshot(_) => InvRead(s, a);
  }

  lemma {:induction false} InvStart()
    ensures Inv(START)
  {
    hide InOrder, FileOk;
    InOrderNone();
  }

  /** The invariant holds after every run. */
  lemma {:induction false} InvRun(acts: seq<Action>)
    requires Runs(acts)
    ensures Inv(After(acts))
    decreases |acts|
  {
    hide Inv, Can, Do;
    if acts == [] {
      InvStart();
    } else {
      InvRun(acts[..|acts| - 1]);
      InvStep(After(acts[..|acts| - 1]), acts[|acts| - 1]);
    }
  }
}
