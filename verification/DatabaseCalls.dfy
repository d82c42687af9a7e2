/** The writes and reads of a run of the database, read off its history. */
module DatabaseCalls {
  import opened Bytes
  import opened InternalKey
  import opened Block
  import opened Versions
  import opened Compactions
  import opened CompactionTree
  import opened Memtables
  import opened Databases
  import opened DatabaseRuns
  import opened DatabaseHistory

  // ---- counting

  /** How many calls of Set and Delete have taken a number. */
  function NumbersTaken(acts: seq<Action>): nat {
    if acts == [] then 0
    else NumbersTaken(acts[..|acts| - 1]) + if acts[|acts| - 1].TakeNumber? then 1 else 0
  }

  /** How many memtables have been sealed. */
  function Sealed(acts: seq<Action>): nat {
    if acts == [] then 0
    else
      var a := acts[|acts| - 1];
      Sealed(acts[..|acts| - 1]) + if a.InsertOrRotate? && !a.room then 1 else 0
  }

  function Dropped(acts: seq<Action>): nat {
    if acts == [] then 0
    else Dropped(acts[..|acts| - 1]) + if acts[|acts| - 1].DropMemtable? then 1 else 0
  }

  /** How many file numbers have been given out. */
  function FileNums(acts: seq<Action>): nat {
    if acts == [] then 0
    else
      var a := acts[|acts| - 1];
      FileNums(acts[..|acts| - 1]) + if a.BuildTable? || a.AllocOutput? then 1 else 0
  }

  lemma {:induction false} Counted(acts: seq<Action>)
    requires Runs(acts)
    ensures var s := After(acts);
      && s.seqNum == NumbersTaken(acts) && |s.mems| == Sealed(acts) + 1 && s.dropped == Dropped(acts)
      && s.t.nextFileNum == FileNums(acts) + 1
    decreases |acts|
  {
    hide Can, Do;
    if acts != [] {
      var n := LastStep(acts);
      Counted(acts[..n]);
      CountStep(After(acts[..n]), acts[n]);
    }
  }

  lemma {:induction false} CountStep(s: State, a: Action)
    requires Can(s, a)
    ensures var s' := Do(s, a);
      && s'.seqNum == s.seqNum + (if a.TakeNumber? then 1 else 0)
      && |s'.mems| == |s.mems| + (if a.InsertOrRotate? && !a.room then 1 else 0)
      && s'.dropped == s.dropped + (if a.DropMemtable? then 1 else 0)
      && s'.t.nextFileNum == s.t.nextFileNum + if a.BuildTable? || a.AllocOutput? then 1 else 0
  {
    hide PickMade, Lists, Capture, MergeOf, InputsOnDisk;
  }

  // ---- writes

  /** Action j begins a call with this write, and the call has not returned. */
  ghost predicate OpenCall(acts: seq<Action>, j: nat, i: nat, w: Write) {
    && j < |acts| && acts[j] == TakeNumber(i, w.key, w.kind, w.value) && w.seqNum == NumbersTaken(acts[..j]) + 1
    && forall m :: j < m < |acts| ==> acts[m] != ReturnCall(i)
  }

  /** Action k puts the write of the call that action j began into a memtable. */
  ghost predicate WriteBy(acts: seq<Action>, j: nat, k: nat, w: Write) {
    && j < k < |acts| && acts[k].InsertOrRotate? && (acts[k].room || acts[k].roomInNew)
    && OpenCall(acts[..k], j, acts[k].i, w)
  }

  /** A call that has inserted its write and not returned. */
  ghost predicate DoneBy(acts: seq<Action>, j: nat, k: nat, i: nat, w: Write) {
    WriteBy(acts, j, k, w) && OpenCall(acts, j, i, w)
  }

  lemma {:induction false} OpenMore(acts: seq<Action>, n: nat, j: nat, i: nat, w: Write)
    requires n == |acts| - 1
    ensures OpenCall(acts, j, i, w) <==>
      || (OpenCall(acts[..n], j, i, w) && acts[n] != ReturnCall(i))
      || (j == n && acts[n] == TakeNumber(i, w.key, w.kind, w.value) && w.seqNum == NumbersTaken(acts[..n]) + 1)
  {
    if j < n {
      assert acts[..n][..j] == acts[..j];
    }
  }

  lemma {:induction false} WriteMore(acts: seq<Action>, n: nat, j: nat, k: nat, w: Write)
    requires n == |acts| - 1
    ensures WriteBy(acts, j, k, w) <==> WriteBy(acts[..n], j, k, w) || (k == n && WriteBy(acts, j, n, w))
  {
    hide OpenCall;
    if k < n {
      assert acts[..n][..k] == acts[..k];
    }
  }

  ghost predicate Calls(s: State, i: nat, w: Write) {
    i in s.writers && s.writers[i].w == w
  }

  lemma {:induction false} CallsStep(s: State, a: Action, i: nat, w: Write)
    requires Can(s, a)
    ensures Calls(Do(s, a), i, w) <==>
      (Calls(s, i, w) && a != ReturnCall(i)) || (a == TakeNumber(i, w.key, w.kind, w.value) && w.seqNum == s.seqNum + 1)
  {
    hide PickMade, Lists, Capture, MergeOf, InputsOnDisk;
  }

  /** The calls under way are those that have begun and not returned, each with the number it took. */
  lemma {:induction false} CallsIff(acts: seq<Action>, i: nat, w: Write)
    requires Runs(acts)
    ensures Calls(After(acts), i, w) <==> exists j: nat :: OpenCall(acts, j, i, w)
    decreases |acts|
  {
    hide Can, Do, Calls, OpenCall, Runs, After;
    if acts == [] {
      NoCalls(i, w);
    } else {
      var n := LastStep(acts);
      CallsIff(acts[..n], i, w);
      Counted(acts[..n]);
      CallsStep(After(acts[..n]), acts[n], i, w);
      OpenMore(acts, n, n, i, w);
      if j: nat :| OpenCall(acts[..n], j, i, w) {
        OpenMore(acts, n, j, i, w);
      }
      if j: nat :| OpenCall(acts, j, i, w) {
        OpenMore(acts, n, j, i, w);
      }
    }
  }

  lemma {:induction false} NoCalls(i: nat, w: Write)
    ensures Runs([]) && After([]) == START && !Calls(START, i, w) && forall j: nat :: !OpenCall([], j, i, w)
  {
  }

  /** What a step does to the writes. */
  lemma {:induction false} WritesStep(s: State, a: Action, w: Write)
    requires Can(s, a) && s.mems != []
    ensures var s' := Do(s, a);
      && (w in s'.written <==> w in s.written || Inserts(s, a, w))
      && (w in s'.returned <==> w in s.returned || (a.ReturnCall? && s.writers[a.i] == Writer(w, Phase.Done(true))))
      && |s'.mems| >= |s.mems| > 0
      && forall id: nat :: id < |s'.mems| ==>
           (w in s'.mems[id] <==> (id < |s.mems| && w in s.mems[id]) || (id == |s'.mems| - 1 && Inserts(s, a, w)))
  {
    hide PickMade, Lists, Capture, MergeOf, InputsOnDisk;
  }

  ghost predicate Inserts(s: State, a: Action, w: Write) {
    a.InsertOrRotate? && (a.room || a.roomInNew) && Calls(s, a.i, w)
  }

  lemma {:induction false} InsertsIff(acts: seq<Action>, n: nat, w: Write)
    requires Runs(acts) && n == |acts| - 1 && Runs(acts[..n])
    ensures Inserts(After(acts[..n]), acts[n], w) <==> exists j: nat :: WriteBy(acts, j, n, w)
  {
    hide Calls, OpenCall, Runs, After;
    if acts[n].InsertOrRotate? {
      CallsIff(acts[..n], acts[n].i, w);
      if j: nat :| OpenCall(acts[..n], j, acts[n].i, w) {
        OpenBefore(acts[..n], j, acts[n].i, w);
        assert acts[n].room || acts[n].roomInNew ==> WriteBy(acts, j, n, w);
      }
    }
  }

  lemma {:induction false} OpenBefore(acts: seq<Action>, j: nat, i: nat, w: Write)
    requires OpenCall(acts, j, i, w)
    ensures j < |acts|
  {
  }

  /** After every run, the writes in a memtable are exactly those of the calls that found room in it: the
      active one at that moment, or the one that the call itself has opened. A write has the key, kind and
      value of its call, and the number of its turn. */
  lemma {:induction false} MemtableIff(acts: seq<Action>, id: nat, w: Write)
    requires Runs(acts)
    ensures |After(acts).mems| == Sealed(acts) + 1
    ensures id <= Sealed(acts) ==>
      (w in After(acts).mems[id] <==> exists j: nat, k: nat :: WroteTo(acts, j, k, w, id))
    decreases |acts|
  {
    hide Can, Do, Runs, After, Inserts, WriteBy, Sealed;
    Counted(acts);
    if acts == [] {
      NoWrites(w);
    } else {
      var n := LastStep(acts);
      MemtableIff(acts[..n], id, w);
      Counted(acts[..n]);
      WritesStep(After(acts[..n]), acts[n], w);
      InsertsIff(acts, n, w);
      SealedMore(acts, n);
      forall j: nat, k: nat
        ensures WroteTo(acts, j, k, w, id) <==>
          WroteTo(acts[..n], j, k, w, id) || (k == n && WriteBy(acts, j, n, w) && Sealed(acts) == id)
      {
        WroteToMore(acts, n, j, k, w, id);
      }
      if j: nat :| WriteBy(acts, j, n, w) && Sealed(acts) == id {
        assert WroteTo(acts, j, n, w, id);
      }
      if j: nat, k: nat :| WroteTo(acts[..n], j, k, w, id) {
        assert WroteTo(acts, j, k, w, id);
      }
      SealedBound(acts[..n], id, w);
    }
  }

  /** Action k has put the write into memtable id. */
  ghost predicate WroteTo(acts: seq<Action>, j: nat, k: nat, w: Write, id: nat) {
    WriteBy(acts, j, k, w) && k < |acts| && Sealed(acts[..k + 1]) == id
  }

  lemma {:induction false} WroteToMore(acts: seq<Action>, n: nat, j: nat, k: nat, w: Write, id: nat)
    requires n == |acts| - 1
    ensures WroteTo(acts, j, k, w, id) <==>
      WroteTo(acts[..n], j, k, w, id) || (k == n && WriteBy(acts, j, n, w) && Sealed(acts) == id)
  {
    hide WriteBy, Sealed;
    WriteMore(acts, n, j, k, w);
    WriteBefore(acts, j, k, w);
    WriteBefore(acts[..n], j, k, w);
    if k < n {
      assert acts[..n][..k + 1] == acts[..k + 1];
    } else if k == n {
      assert acts[..k + 1] == acts;
    }
  }

  /** No write has gone to a memtable that is not there yet. */
  lemma {:induction false} SealedBound(acts: seq<Action>, id: nat, w: Write)
    ensures id > Sealed(acts) ==> forall j: nat, k: nat :: !WroteTo(acts, j, k, w, id)
  {
    hide WriteBy;
    forall j: nat, k: nat | WroteTo(acts, j, k, w, id)
      ensures id <= Sealed(acts)
    {
      SealedUp(acts, k + 1);
    }
  }

  lemma {:induction false} SealedUp(acts: seq<Action>, k: nat)
    requires k <= |acts|
    ensures Sealed(acts[..k]) <= Sealed(acts)
    decreases |acts|
  {
    if k == |acts| {
      assert acts[..k] == acts;
    } else {
      SealedUp(acts[..|acts| - 1], k);
      assert acts[..|acts| - 1][..k] == acts[..k];
    }
  }

  lemma {:induction false} SealedMore(acts: seq<Action>, n: nat)
    requires n == |acts| - 1
    ensures Sealed(acts) == Sealed(acts[..n]) + if acts[n].InsertOrRotate? && !acts[n].room then 1 else 0
  {
  }

  lemma {:induction false} WriteBefore(acts: seq<Action>, j: nat, k: nat, w: Write)
    ensures WriteBy(acts, j, k, w) ==> j < k < |acts|
  {
  }

  lemma {:induction false} NoWrites(w: Write)
    ensures Runs([]) && After([]) == START && Sealed([]) == 0 && forall j: nat, k: nat :: !WriteBy([], j, k, w)
    ensures forall j: nat, k: nat, id: nat :: !WroteTo([], j, k, w, id)
    ensures w !in START.written && w !in START.returned && START.mems == [{}]
  {
  }

  /** The successful writes are those of the calls that have inserted; failed calls leave none. */
  lemma {:induction false} WrittenIff(acts: seq<Action>, w: Write)
    requires Runs(acts)
    ensures w in After(acts).written <==> exists j: nat, k: nat :: WriteBy(acts, j, k, w)
    decreases |acts|
  {
    hide Can, Do, Runs, After, Inserts, WriteBy;
    if acts == [] {
      NoWrites(w);
    } else {
      var n := LastStep(acts);
      WrittenIff(acts[..n], w);
      Counted(acts[..n]);
      WritesStep(After(acts[..n]), acts[n], w);
      InsertsIff(acts, n, w);
      forall j: nat, k: nat
        ensures WriteBy(acts, j, k, w) <==> WriteBy(acts[..n], j, k, w) || (k == n && WriteBy(acts, j, n, w))
      {
        WriteMore(acts, n, j, k, w);
      }
    }
  }

  // ---- calls that return

  ghost predicate HasInserted(s: State, i: nat, w: Write) {
    i in s.writers && s.writers[i] == Writer(w, Phase.Done(true))
  }

  lemma {:induction false} InsertedStep(s: State, a: Action, i: nat, w: Write)
    requires Can(s, a)
    ensures HasInserted(Do(s, a), i, w) <==>
      (HasInserted(s, i, w) && a != ReturnCall(i)) || (a.InsertOrRotate? && a.i == i && Inserts(s, a, w))
  {
    hide PickMade, Lists, Capture, MergeOf, InputsOnDisk;
  }

  lemma {:induction false} DoneMore(acts: seq<Action>, n: nat, j: nat, k: nat, i: nat, w: Write)
    requires n == |acts| - 1
    ensures DoneBy(acts, j, k, i, w) <==>
      || (DoneBy(acts[..n], j, k, i, w) && acts[n] != ReturnCall(i))
      || (k == n && WriteBy(acts, j, n, w) && acts[n].i == i)
  {
    WriteMore(acts, n, j, k, w);
    OpenMore(acts, n, j, i, w);
    if k == n && acts[n].InsertOrRotate? {
      OpenMore(acts, n, j, acts[n].i, w);
    }
  }

  lemma {:induction false} InsertedIff(acts: seq<Action>, i: nat, w: Write)
    requires Runs(acts)
    ensures HasInserted(After(acts), i, w) <==> exists j: nat, k: nat :: DoneBy(acts, j, k, i, w)
    decreases |acts|
  {
    hide Can, Do, Runs, After, Inserts, DoneBy, HasInserted, WriteBy;
    if acts == [] {
      NoneDone(i, w);
    } else {
      var n := LastStep(acts);
      InsertedIff(acts[..n], i, w);
      InsertedStep(After(acts[..n]), acts[n], i, w);
      InsertsIff(acts, n, w);
      InsertsOnly(After(acts[..n]), acts[n], w);
      if j: nat, k: nat :| DoneBy(acts[..n], j, k, i, w) {
        DoneMore(acts, n, j, k, i, w);
      }
      if j: nat :| WriteBy(acts, j, n, w) {
        DoneMore(acts, n, j, n, i, w);
      }
      if j: nat, k: nat :| DoneBy(acts, j, k, i, w) {
        DoneMore(acts, n, j, k, i, w);
      }
    }
  }

  lemma {:induction false} InsertsOnly(s: State, a: Action, w: Write)
    ensures Inserts(s, a, w) ==> a.InsertOrRotate?
  {
  }

  lemma {:induction false} NoneDone(i: nat, w: Write)
    ensures Runs([]) && After([]) == START && !HasInserted(START, i, w) && forall j: nat, k: nat :: !DoneBy([], j, k, i, w)
  {
  }

  /** By action m a call returns after its write has gone in. */
  ghost predicate ReturnedBy(acts: seq<Action>, j: nat, k: nat, m: nat, w: Write) {
    m < |acts| && acts[m].ReturnCall? && DoneBy(acts[..m], j, k, acts[m].i, w)
  }

  lemma {:induction false} ReturnedMore(acts: seq<Action>, n: nat, j: nat, k: nat, m: nat, w: Write)
    requires n == |acts| - 1
    ensures ReturnedBy(acts, j, k, m, w) <==>
      ReturnedBy(acts[..n], j, k, m, w) || (m == n && acts[n].ReturnCall? && DoneBy(acts[..n], j, k, acts[n].i, w))
  {
    hide DoneBy;
    if m < n {
      assert acts[..n][..m] == acts[..m];
    }
  }

  /** The writes that count as returned are those whose call has inserted them and then returned. */
  lemma {:induction false} ReturnedIff(acts: seq<Action>, w: Write)
    requires Runs(acts)
    ensures w in After(acts).returned <==> exists j: nat, k: nat, m: nat :: ReturnedBy(acts, j, k, m, w)
    decreases |acts|
  {
    hide Can, Do, Runs, After, Inserts, DoneBy, ReturnedBy;
    if acts == [] {
      NoneReturned(w);
    } else {
      var n := LastStep(acts);
      ReturnedIff(acts[..n], w);
      Counted(acts[..n]);
      var s, a := After(acts[..n]), acts[n];
      WritesStep(s, a, w);
      CanReturn(s, a);
      if a.ReturnCall? {
        InsertedIff(acts[..n], a.i, w);
        if j: nat, k: nat :| DoneBy(acts[..n], j, k, a.i, w) {
          ReturnedMore(acts, n, j, k, n, w);
        }
      }
      if j: nat, k: nat, m: nat :| ReturnedBy(acts[..n], j, k, m, w) {
        ReturnedMore(acts, n, j, k, m, w);
      }
      if j: nat, k: nat, m: nat :| ReturnedBy(acts, j, k, m, w) {
        ReturnedMore(acts, n, j, k, m, w);
      }
    }
  }

  lemma {:induction false} CanReturn(s: State, a: Action)
    requires Can(s, a)
    ensures a.ReturnCall? ==> a.i in s.writers
  {
  }

  lemma {:induction false} NoneReturned(w: Write)
    ensures Runs([]) && After([]) == START && w !in START.returned
    ensures forall j: nat, k: nat, m: nat :: !ReturnedBy([], j, k, m, w)
  {
  }

  // ---- reads

  ghost predicate At(acts: seq<Action>, k: nat, a: Action) {
    k < |acts| && acts[k] == a && Runs(acts[..k])
  }

  /** How a reader came to hold what it holds. A read captures, by one action each, the writes returned when
      it began, the memtables not dropped, and the live version: a Get or NewIterator in this order, a
      snapshot the version before the memtables. */
  ghost predicate CameFrom(acts: seq<Action>, r: nat, x: Reader) {
    match x
    case Started(must) => exists i: nat :: Began(acts, i, r, false, must)
    case HasMemtables(must, lo, hi) => exists i: nat, j: nat ::
      i < j && Began(acts, i, r, false, must) && Copied(acts, j, r, lo, hi)
    case Captured(must, lo, hi, t) => exists i: nat, j: nat, k: nat ::
      i < j < k && Began(acts, i, r, false, must) && Copied(acts, j, r, lo, hi) && Loaded(acts, k, r, t)
    case SnapshotStarted(must) => exists i: nat :: Began(acts, i, r, true, must)
    case SnapshotVersion(must, from, t) => exists i: nat, j: nat ::
      i < j && Began(acts, i, r, true, must) && LoadedFirst(acts, j, r, from, t)
    case SnapshotTaken(must, from, lo, hi, t) => exists i: nat, j: nat, k: nat ::
      i < j < k && Began(acts, i, r, true, must) && LoadedFirst(acts, j, r, from, t) && Copied(acts, k, r, lo, hi)
  }

  ghost predicate Began(acts: seq<Action>, i: nat, r: nat, snapshot: bool, must: set<Write>) {
    At(acts, i, if snapshot then BeginSnapshot(r) else BeginRead(r)) && After(acts[..i]).returned == must
  }

  ghost predicate Copied(acts: seq<Action>, j: nat, r: nat, lo: nat, hi: nat) {
    At(acts, j, CopyMemtables(r)) && After(acts[..j]).dropped == lo && |After(acts[..j]).mems| == hi
  }

  ghost predicate Loaded(acts: seq<Action>, k: nat, r: nat, t: Tree) {
    At(acts, k, LoadVersion(r)) && After(acts[..k]).t == t
  }

  /** From is the oldest memtable whose table was not published then. */
  ghost predicate LoadedFirst(acts: seq<Action>, k: nat, r: nat, from: nat, t: Tree) {
    Loaded(acts, k, r, t) && from == Unpublished(After(acts[..k]))
  }

  lemma {:induction false} StepsStay(acts: seq<Action>, n: nat, r: nat)
    requires n < |acts|
    ensures forall k: nat, snapshot, must :: Began(acts[..n], k, r, snapshot, must) ==> k < n && Began(acts, k, r, snapshot, must)
    ensures forall k: nat, lo, hi :: Copied(acts[..n], k, r, lo, hi) ==> k < n && Copied(acts, k, r, lo, hi)
    ensures forall k: nat, t :: Loaded(acts[..n], k, r, t) ==> k < n && Loaded(acts, k, r, t)
    ensures forall k: nat, from, t :: LoadedFirst(acts[..n], k, r, from, t) ==> k < n && LoadedFirst(acts, k, r, from, t)
  {
    hide Runs, After;
    forall k: nat | k < n
      ensures acts[..n][..k] == acts[..k]
    {
    }
  }

  /** Earlier actions stay in the history. */
  lemma {:induction false} CameFromBefore(acts: seq<Action>, n: nat, r: nat, x: Reader)
    requires n < |acts| && CameFrom(acts[..n], r, x)
    ensures CameFrom(acts, r, x)
  {
    hide Began, Copied, Loaded, LoadedFirst;
    StepsStay(acts, n, r);
  }

  lemma {:induction false} ReadersStep(s: State, a: Action, r: nat)
    requires Can(s, a) && r in Do(s, a).readers
    ensures var x := Do(s, a).readers[r];
      || (r in s.readers && x == s.readers[r])
      || (a == BeginRead(r) && x == Started(s.returned)) || (a == BeginSnapshot(r) && x == SnapshotStarted(s.returned))
      || (a == CopyMemtables(r) && r in s.readers && s.readers[r].Started?
          && x == HasMemtables(s.readers[r].must, s.dropped, |s.mems|))
      || (a == LoadVersion(r) && r in s.readers && s.readers[r].HasMemtables?
          && x == Captured(s.readers[r].must, s.readers[r].lo, s.readers[r].hi, s.t))
      || (a == LoadVersion(r) && r in s.readers && s.readers[r].SnapshotStarted?
          && x == SnapshotVersion(s.readers[r].must, Unpublished(s), s.t))
      || (a == CopyMemtables(r) && r in s.readers && s.readers[r].SnapshotVersion?
          && x == SnapshotTaken(s.readers[r].must, s.readers[r].from, s.dropped, |s.mems|, s.readers[r].t))
  {
    hide PickMade, Lists, MergeOf, InputsOnDisk;
  }

  lemma {:induction false} CaptureIs(acts: seq<Action>, r: nat)
    requires Runs(acts) && r in After(acts).readers
    ensures CameFrom(acts, r, After(acts).readers[r])
    decreases |acts|
  {
    hide Can, Do, Runs, After, CameFrom;
    if acts == [] {
      NoReaders();
    } else {
      var n := LastStep(acts);
      var s, a := After(acts[..n]), acts[n];
      ReadersStep(s, a, r);
      if r in s.readers {
        CaptureIs(acts[..n], r);
        CameFromBefore(acts, n, r, s.readers[r]);
        CaptureNow(acts, n, r, s.readers[r], After(acts).readers[r]);
      } else {
        BeginNow(acts, n, r, After(acts).readers[r]);
      }
    }
  }

  lemma {:induction false} NoReaders()
    ensures Runs([]) && After([]).readers == map[]
  {
  }

  lemma {:induction false} BeginNow(acts: seq<Action>, n: nat, r: nat, x: Reader)
    requires n < |acts| && Runs(acts[..n])
    requires var s, a := After(acts[..n]), acts[n];
      (a == BeginRead(r) && x == Started(s.returned)) || (a == BeginSnapshot(r) && x == SnapshotStarted(s.returned))
    ensures CameFrom(acts, r, x)
  {
    hide Runs, After;
    assert Began(acts, n, r, acts[n].BeginSnapshot?, After(acts[..n]).returned);
  }

  lemma {:induction false} CaptureNow(acts: seq<Action>, n: nat, r: nat, x: Reader, x': Reader)
    requires n < |acts| && Runs(acts[..n]) && CameFrom(acts[..n], r, x) && CameFrom(acts, r, x)
    requires var s, a := After(acts[..n]), acts[n];
      || x' == x
      || (a == CopyMemtables(r) && x.Started? && x' == HasMemtables(x.must, s.dropped, |s.mems|))
      || (a == LoadVersion(r) && x.HasMemtables? && x' == Captured(x.must, x.lo, x.hi, s.t))
      || (a == LoadVersion(r) && x.SnapshotStarted? && x' == SnapshotVersion(x.must, Unpublished(s), s.t))
      || (a == CopyMemtables(r) && x.SnapshotVersion? && x' == SnapshotTaken(x.must, x.from, s.dropped, |s.mems|, x.t))
      || (a == BeginRead(r) && x' == Started(s.returned)) || (a == BeginSnapshot(r) && x' == SnapshotStarted(s.returned))
    ensures CameFrom(acts, r, x')
  {
    hide Runs, After;
    var s := After(acts[..n]);
    assert acts[n] == CopyMemtables(r) ==> Copied(acts, n, r, s.dropped, |s.mems|);
    assert acts[n] == LoadVersion(r) ==> Loaded(acts, n, r, s.t) && LoadedFirst(acts, n, r, Unpublished(s), s.t);
    assert acts[n] == BeginRead(r) ==> Began(acts, n, r, false, s.returned);
    assert acts[n] == BeginSnapshot(r) ==> Began(acts, n, r, true, s.returned);
    hide Began, Copied, Loaded, LoadedFirst;
    StepsStay(acts, n, r);
  }
}
