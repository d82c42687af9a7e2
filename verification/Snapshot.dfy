/** NewSnapshot: which writes it can miss, and a run in which it does. */
module Snapshots {
  import opened Bytes
  import opened InternalKey
  import opened Block
  import opened Versions
  import opened Compactions
  import opened CompactionMerge
  import opened CompactionTree
  import opened CompactionRuns
  import opened Memtables
  import opened Databases
  import opened DatabaseRuns

  // ---- where the writes of a table come from

  /** A write goes into one memtable only. */
  ghost predicate Apart(mems: seq<set<Write>>) {
    forall i, j, w :: 0 <= i < j < |mems| && w in mems[i] ==> w !in mems[j]
  }

  /** What the tables hold comes from the first n memtables. */
  ghost predicate TablesFrom(t: Tree, mems: seq<set<Write>>, n: nat) {
    forall e :: Has(t, e) ==> exists w :: InMems(mems, 0, n, w) && e == EntryOf(w)
  }

  ghost predicate SeenFrom(mems: seq<set<Write>>, r: Reader) {
    match r
    case SnapshotVersion(_, from, seen) => TablesFrom(seen, mems, from)
    case SnapshotTaken(_, from, _, _, seen) => TablesFrom(seen, mems, from)
    case _ => true
  }

  ghost predicate Origins(s: State) {
    && Apart(s.mems) && TablesFrom(s.t, s.mems, Unpublished(s))
    && forall r :: r in s.readers ==> SeenFrom(s.mems, s.readers[r])
  }

  lemma {:induction false} TablesFromGrows(t: Tree, mems: seq<set<Write>>, n: nat, mems': seq<set<Write>>, n': nat)
    requires TablesFrom(t, mems, n) && MemsGrow(mems, mems') && n <= n'
    ensures TablesFrom(t, mems', n')
  {
    hide Has, InMems, EntryOf, MemsGrow;
    forall e | Has(t, e)
      ensures exists w :: InMems(mems', 0, n', w) && e == EntryOf(w)
    {
      var w :| InMems(mems, 0, n, w) && e == EntryOf(w);
      InMemsGrows(mems, mems', 0, n, n', w);
    }
  }

  lemma {:induction false} SeenGrows(readers: map<nat, Reader>, mems: seq<set<Write>>, mems': seq<set<Write>>)
    requires (forall r :: r in readers ==> SeenFrom(mems, readers[r])) && MemsGrow(mems, mems')
    ensures forall r :: r in readers ==> SeenFrom(mems', readers[r])
  {
    hide TablesFrom, MemsGrow;
    forall r | r in readers
      ensures SeenFrom(mems', readers[r])
    {
      var x := readers[r];
      if x.SnapshotVersion? || x.SnapshotTaken? {
        TablesFromGrows(x.t, mems, x.from, mems', x.from);
      }
    }
  }

  lemma {:induction false} ApartMore(mems: seq<set<Write>>, mems': seq<set<Write>>, w: Write, room: bool, roomInNew: bool)
    requires Apart(mems) && mems != [] && forall id :: 0 <= id < |mems| ==> w !in mems[id]
    requires mems' == if room then mems[|mems| - 1 := mems[|mems| - 1] + {w}]
                      else mems + [if roomInNew then {w} else {}]
    ensures Apart(mems')
  {
  }

  lemma {:induction false} NewToAll(s: State, i: nat)
    requires NumbersOk(s.seqNum, s.written, s.returned, s.writers) && ContentsOk(s.t, s.mems, s.dropped, s.written)
    requires i in s.writers && s.writers[i].phase == Stored
    ensures forall id :: 0 <= id < |s.mems| ==> s.writers[i].w !in s.mems[id]
  {
    hide InMems, Stores;
  }

  /** Tables and memtables unchanged, or only more entries from the memtable published. */
  lemma {:induction false} OriginsStep(acts: seq<Action>, a: Action)
    requires Runs(acts) && Can(After(acts), a) && Origins(After(acts))
    ensures Origins(Do(After(acts), a))
  {
    hide Runs, After, Kept, FlushingOk, CompactingOk, ReadersOk, NumbersOk, ContentsOk, Has, Do, Apart, TablesFrom, SeenFrom,
         PickMade, MergeOf, InputsOnDisk, Lists;
    InvRun(acts);
    var s := After(acts);
    var s' := Do(s, a);
    if a.InsertOrRotate? {
      OriginsInsert(s, a);
    } else {
      OthersKeepMems(s, a);
      forall e
        ensures Has(s'.t, e) <==> Has(s.t, e) || (a.PublishTable? && e in s.flush.es)
      {
        TablesChange(acts, a, e);
      }
      OriginsOther(s, a, s');
    }
  }

  lemma {:induction false} OriginsInsert(s: State, a: Action)
    requires Inv(s) && Can(s, a) && a.InsertOrRotate? && Origins(s)
    ensures Origins(Do(s, a))
  {
    hide Kept, FlushingOk, CompactingOk, ReadersOk, NumbersOk, Has, Apart, TablesFrom, SeenFrom, Stores;
    var s' := Do(s, a);
    var w := s.writers[a.i].w;
    NewToAll(s, a.i);
    MemsMore(s.mems, s'.mems, s.dropped, w, a.room, a.roomInNew);
    ApartMore(s.mems, s'.mems, w, a.room, a.roomInNew);
    TablesFromGrows(s.t, s.mems, Unpublished(s), s'.mems, Unpublished(s));
    SeenGrows(s.readers, s.mems, s'.mems);
  }

  lemma {:induction false} OthersKeepMems(s: State, a: Action)
    requires Can(s, a) && !a.InsertOrRotate?
    ensures Do(s, a).mems == s.mems
    ensures Unpublished(Do(s, a)) == Unpublished(s) + if a.PublishTable? then 1 else 0
    ensures forall r :: r in Do(s, a).readers ==>
      (r in s.readers && Do(s, a).readers[r] in {s.readers[r], Capture(s, s.readers[r])})
      || Do(s, a).readers[r].Started? || Do(s, a).readers[r].SnapshotStarted?
  {
    hide AfterFlush, AfterCompaction, PickMade, MergeOf, InputsOnDisk, Lists;
  }

  lemma {:induction false} OriginsOther(s: State, a: Action, s': State)
    requires Inv(s) && Can(s, a) && Origins(s) && s'.mems == s.mems
    requires Unpublished(s') == Unpublished(s) + if a.PublishTable? then 1 else 0
    requires forall e :: Has(s'.t, e) <==> Has(s.t, e) || (a.PublishTable? && e in s.flush.es)
    requires forall r :: r in s'.readers ==>
      (r in s.readers && s'.readers[r] in {s.readers[r], Capture(s, s.readers[r])})
      || s'.readers[r].Started? || s'.readers[r].SnapshotStarted?
    ensures Origins(s')
  {
    hide Kept, CompactingOk, ReadersOk, NumbersOk, Has, Apart, ContentsOk, EntryOf, FlushKept, Sorted;
    forall e | Has(s'.t, e)
      ensures exists w :: InMems(s.mems, 0, Unpublished(s'), w) && e == EntryOf(w)
    {
      if Has(s.t, e) {
        var w :| InMems(s.mems, 0, Unpublished(s), w) && e == EntryOf(w);
      } else {
        var w :| w in s.mems[s.dropped] && e == EntryOf(w);
        assert InMems(s.mems, 0, Unpublished(s'), w);
      }
    }
  }

  /** It holds after every run: tables hold writes of the memtables whose tables are published. */
  lemma {:induction false} OriginsRun(acts: seq<Action>)
    requires Runs(acts)
    ensures Origins(After(acts))
    decreases |acts|
  {
    hide Origins, Can, Do;
    if acts == [] {
      OriginsStart();
    } else {
      OriginsRun(acts[..|acts| - 1]);
      OriginsStep(acts[..|acts| - 1], acts[|acts| - 1]);
    }
  }

  lemma {:induction false} OriginsStart()
    ensures Origins(START)
  {
  }

  // ---- what a snapshot misses

  /** NewSnapshot loads the version first. It captures every write that had returned before it began
      if and only if none of them sits in a memtable that was not published yet when the version was
      loaded and was dropped by the time the memtables were copied. */
  lemma {:induction false} SnapshotMisses(acts: seq<Action>, k: nat, r: nat)
    requires Runs(acts) && k < |acts| && acts[k] == BeginSnapshot(r)
    requires r in After(acts).readers && After(acts).readers[r].SnapshotTaken? && Runs(acts[..k])
    ensures var s := After(acts); var x := s.readers[r];
      (forall w :: w in After(acts[..k]).returned ==> InMems(s.mems, x.lo, x.hi, w) || Has(x.t, EntryOf(w)))
      <==> (forall w :: w in After(acts[..k]).returned ==> !InMems(s.mems, x.from, x.lo, w))
  {
    hide Kept, FlushingOk, CompactingOk, Runs, After, NumbersOk, Has, EntryOf, InMems, Stores, Apart, TablesFrom;
    InvRun(acts);
    OriginsRun(acts);
    MustIsReturned(acts, k, r);
    var s := After(acts);
    var x := s.readers[r];
    assert ReaderOk(s.t, s.mems, s.written, x);
    assert SeenFrom(s.mems, x);
    forall w | InMems(s.mems, x.from, x.hi, w)
      ensures InMems(s.mems, x.from, x.lo, w) || InMems(s.mems, x.lo, x.hi, w)
    {
      InMemsSplit(s.mems, x.from, x.lo, x.hi, w);
    }
    forall w | InMems(s.mems, x.from, x.lo, w)
      ensures !InMems(s.mems, x.lo, x.hi, w) && !Has(x.t, EntryOf(w))
    {
      InOnePlace(s, x.from, x.lo, x.hi, x.t, w);
    }
  }

  lemma {:induction false} InOnePlace(s: State, from: nat, lo: nat, hi: nat, t: Tree, w: Write)
    requires NumbersOk(s.seqNum, s.written, s.returned, s.writers) && ContentsOk(s.t, s.mems, s.dropped, s.written)
    requires Apart(s.mems) && TablesFrom(t, s.mems, from) && InMems(s.mems, from, lo, w)
    ensures !InMems(s.mems, lo, hi, w) && !Has(t, EntryOf(w))
  {
    hide Has, EntryOf, Stores;
    if Has(t, EntryOf(w)) {
      var v :| InMems(s.mems, 0, from, v) && EntryOf(w) == EntryOf(v);
      EntryInjective(v, w);
    }
  }

  lemma {:induction false} InMemsSplit(mems: seq<set<Write>>, lo: nat, mid: nat, hi: nat, w: Write)
    requires InMems(mems, lo, hi, w)
    ensures InMems(mems, lo, mid, w) || InMems(mems, mid, hi, w)
  {
  }

  // ---- a run that goes wrong

  /** Two writes, the first one in a sealed memtable. */
  lemma {:induction false} TwoWrites(v: Write, w: Write) returns (acts: seq<Action>)
    requires v == Write([97], 1, KIND_SET, []) && w == Write([98], 2, KIND_SET, [])
    ensures Runs(acts)
    ensures After(acts) == START.(seqNum := 2, lastSeqNum := 2, written := {v, w}, returned := {v, w}, mems := [{v}, {w}])
  {
    hide Runs, After;
    StartRun();
    acts := RunSet([], 0, [97], true);
    assert After(acts).mems == [{v}] && After(acts).written == {v};
    acts := RunSet(acts, 0, [98], false);
    assert After(acts).mems == [{v}, {w}] && After(acts).written == {v, w};
  }

  /** The snapshot loads the version, a flush completes, and the snapshot copies the memtables: the
      flushed write is in neither. */
  lemma {:induction false} SnapshotLosesWrite() returns (acts: seq<Action>, k: nat, v: Write)
    ensures Runs(acts) && k < |acts| && acts[k] == BeginSnapshot(0)
    ensures Runs(acts[..k]) && v in After(acts[..k]).returned
    ensures 0 in After(acts).readers && After(acts).readers[0].SnapshotTaken?
    ensures var s := After(acts); var x := s.readers[0];
      !InMems(s.mems, x.lo, x.hi, v) && !Has(x.t, EntryOf(v))
  {
    hide Runs, After, Has, EntryOf;
    v := Write([97], 1, KIND_SET, []);
    var w := Write([98], 2, KIND_SET, []);
    var before, loaded := SnapshotLoads(v, w);
    k := |before|;
    var flushed := RunFlush(loaded, v);
    acts := RunMore(flushed, CopyMemtables(0));
    PrefixKept(before, loaded, flushed, acts);
    EmptyHasNothing(EntryOf(v));
  }

  lemma {:induction false} SnapshotLoads(v: Write, w: Write) returns (before: seq<Action>, loaded: seq<Action>)
    requires v == Write([97], 1, KIND_SET, []) && w == Write([98], 2, KIND_SET, [])
    ensures Runs(before) && v in After(before).returned
    ensures Runs(loaded) && |loaded| == |before| + 2 && loaded[..|before|] == before
    ensures loaded[|before|] == BeginSnapshot(0)
    ensures var s := After(loaded);
      s.mems == [{v}, {w}] && s.dropped == 0 && s.flush == NoFlush && 0 in s.readers
      && s.readers[0] == SnapshotVersion({v, w}, 0, START.t)
  {
    hide Runs, After, Has, EntryOf;
    before := TwoWrites(v, w);
    loaded := RunMore(before, BeginSnapshot(0));
    loaded := RunMore(loaded, LoadVersion(0));
  }

  lemma {:induction false} PrefixKept(before: seq<Action>, loaded: seq<Action>, flushed: seq<Action>, acts: seq<Action>)
    requires |loaded| == |before| + 2 && loaded[..|before|] == before
    requires |loaded| <= |flushed| && flushed[..|loaded|] == loaded && |acts| == |flushed| + 1 && acts[..|flushed|] == flushed
    ensures acts[..|before|] == before && acts[|before|] == loaded[|before|]
  {
  }
}
