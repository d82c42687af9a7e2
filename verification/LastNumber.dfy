/** The last sequence number, as the manifest logs it. */
module LastNumbers {
  import opened Bytes
  import opened InternalKey
  import opened Block
  import opened Versions
  import opened Compactions
  import opened CompactionMerge
  import opened CompactionTree
  import opened CompactionRuns
  import opened Memtables
  import opened Databases
  import opened DatabaseRuns

  // ---- the logged sequence number

  ghost predicate NoneNumbered(s: State) {
    forall i :: i in s.writers ==> !OnlyNumbered(s.writers, i)
  }

  /** The call has taken its number and not stored it yet. */
  predicate OnlyNumbered(writers: map<nat, Writer>, i: nat) {
    i in writers && writers[i].phase == Phase.Numbered
  }

  /** No call takes its number while another one has taken, but not yet stored its own. */
  ghost predicate InTurn(acts: seq<Action>)
    requires Runs(acts)
    decreases |acts|
  {
    acts != [] ==>
      var n := |acts| - 1;
      && InTurn(acts[..n])
      && (acts[n].TakeNumber? ==> NoneNumbered(After(acts[..n])))
  }

  ghost predicate LastNumberOk(seqNum: nat, last: nat, written: set<Write>, writers: map<nat, Writer>) {
    && last <= seqNum
    && (forall i, j :: OnlyNumbered(writers, i) && OnlyNumbered(writers, j) ==> i == j)
    && (forall i :: i in writers ==>
          if OnlyNumbered(writers, i) then writers[i].w.seqNum == seqNum else writers[i].w.seqNum <= last)
    && (forall w :: w in written ==> w.seqNum <= last)
    && ((forall i :: i in writers ==> !OnlyNumbered(writers, i)) ==> last == seqNum)
  }

  lemma {:induction false} LastNumberTaken(seqNum: nat, last: nat, written: set<Write>, writers: map<nat, Writer>,
                                           i: nat, w: Write)
    requires LastNumberOk(seqNum, last, written, writers) && i !in writers && w.seqNum == seqNum + 1
    requires forall j :: j in writers ==> !OnlyNumbered(writers, j)
    ensures LastNumberOk(seqNum + 1, last, written, writers[i := Writer(w, Phase.Numbered)])
  {
    var writers' := writers[i := Writer(w, Phase.Numbered)];
    assert OnlyNumbered(writers', i);
    assert forall j :: j in writers' && j != i ==> !OnlyNumbered(writers, j);
  }

  lemma {:induction false} LastNumberStored(seqNum: nat, last: nat, written: set<Write>, writers: map<nat, Writer>, i: nat)
    requires LastNumberOk(seqNum, last, written, writers) && OnlyNumbered(writers, i)
    ensures LastNumberOk(seqNum, writers[i].w.seqNum, written, writers[i := Writer(writers[i].w, Stored)])
  {
  }

  lemma {:induction false} LastNumberFinished(seqNum: nat, last: nat, written: set<Write>, writers: map<nat, Writer>,
                                              i: nat, ok: bool)
    requires LastNumberOk(seqNum, last, written, writers) && i in writers && !OnlyNumbered(writers, i)
    ensures LastNumberOk(seqNum, last, if ok then written + {writers[i].w} else written,
                         writers[i := Writer(writers[i].w, Done(ok))])
  {
    var writers' := writers[i := Writer(writers[i].w, Done(ok))];
    assert forall j :: j in writers' ==> (OnlyNumbered(writers', j) <==> OnlyNumbered(writers, j));
  }

  lemma {:induction false} LastNumberReturned(seqNum: nat, last: nat, written: set<Write>, writers: map<nat, Writer>, i: nat)
    requires LastNumberOk(seqNum, last, written, writers) && i in writers && !OnlyNumbered(writers, i)
    ensures LastNumberOk(seqNum, last, written, writers - {i})
  {
    var writers' := writers - {i};
    assert forall j :: j in writers ==> j != i ==> (OnlyNumbered(writers', j) <==> OnlyNumbered(writers, j));
  }

  lemma {:induction false} LastNumberStep(s: State, a: Action)
    requires LastNumberOk(s.seqNum, s.lastSeqNum, s.written, s.writers) && Can(s, a)
    requires a.TakeNumber? ==> NoneNumbered(s)
    ensures var s' := Do(s, a); LastNumberOk(s'.seqNum, s'.lastSeqNum, s'.written, s'.writers)
  {
    hide AfterFlush, AfterCompaction, PickMade, MergeOf, InputsOnDisk, Lists, LastNumberOk;
    match a
    case TakeNumber(i, key, kind, value) =>
      LastNumberTaken(s.seqNum, s.lastSeqNum, s.written, s.writers, i, Write(key, s.seqNum + 1, kind, value));
    case StoreNumber(i) =>
      LastNumberStored(s.seqNum, s.lastSeqNum, s.written, s.writers, i);
    case InsertOrRotate(i, room, roomInNew) =>
      LastNumberFinished(s.seqNum, s.lastSeqNum, s.written, s.writers, i, room || roomInNew);
    case ReturnCall(i) =>
      LastNumberReturned(s.seqNum, s.lastSeqNum, s.written, s.writers, i);
    case _ =>
  }

  // ---- exactly when it covers what has been stored

  /** The numbers that calls have stored. */
  ghost function StoredNumbers(acts: seq<Action>): set<nat>
    requires Runs(acts)
    decreases |acts|
  {
    if acts == [] then {}
    else
      var n := |acts| - 1;
      StoredNumbers(acts[..n])
      + if acts[n].StoreNumber? then {After(acts[..n]).writers[acts[n].i].w.seqNum} else {}
  }

  /** At every moment no number that has been stored is above the last one. */
  ghost predicate AlwaysCovered(acts: seq<Action>)
    requires Runs(acts)
    decreases |acts|
  {
    && (acts != [] ==> AlwaysCovered(acts[..|acts| - 1]))
    && forall x :: x in StoredNumbers(acts) ==> x <= After(acts).lastSeqNum
  }

  /** Every call stores a number that is above the one stored before. */
  ghost predicate StoresInOrder(acts: seq<Action>)
    requires Runs(acts)
    decreases |acts|
  {
    acts != [] ==>
      var n := |acts| - 1;
      && StoresInOrder(acts[..n])
      && (acts[n].StoreNumber? ==> After(acts[..n]).writers[acts[n].i].w.seqNum > After(acts[..n]).lastSeqNum)
  }

  /** Where the numbers are: those not stored yet differ from those that are, and the last number is
      one of these. */
  ghost predicate NumbersApart(seqNum: nat, last: nat, written: set<Write>, writers: map<nat, Writer>, stored: set<nat>) {
    && (last == 0 || last in stored)
    && (forall x :: x in stored ==> x <= seqNum)
    && (forall i :: i in writers ==> (writers[i].w.seqNum in stored <==> !OnlyNumbered(writers, i)))
    && (forall w :: w in written ==> w.seqNum in stored)
  }

  lemma {:induction false} ApartTaken(seqNum: nat, last: nat, written: set<Write>, writers: map<nat, Writer>, stored: set<nat>,
                                      i: nat, w: Write)
    requires NumbersApart(seqNum, last, written, writers, stored) && w.seqNum == seqNum + 1
    ensures NumbersApart(seqNum + 1, last, written, writers[i := Writer(w, Phase.Numbered)], stored)
  {
  }

  lemma {:induction false} ApartStored(seqNum: nat, last: nat, written: set<Write>, writers: map<nat, Writer>, stored: set<nat>,
                                       i: nat)
    requires NumbersApart(seqNum, last, written, writers, stored) && i in writers && writers[i].w.seqNum <= seqNum
    requires forall j :: j in writers && j != i ==> writers[i].w.seqNum != writers[j].w.seqNum
    ensures var n := writers[i].w.seqNum;
      NumbersApart(seqNum, n, written, writers[i := Writer(writers[i].w, Stored)], stored + {n})
  {
    var writers' := writers[i := Writer(writers[i].w, Stored)];
    assert forall j :: j in writers && j != i ==> (OnlyNumbered(writers', j) <==> OnlyNumbered(writers, j));
  }

  lemma {:induction false} ApartFinished(seqNum: nat, last: nat, written: set<Write>, writers: map<nat, Writer>,
                                         stored: set<nat>, i: nat, ok: bool)
    requires NumbersApart(seqNum, last, written, writers, stored) && i in writers && !OnlyNumbered(writers, i)
    ensures NumbersApart(seqNum, last, if ok then written + {writers[i].w} else written,
                         writers[i := Writer(writers[i].w, Done(ok))], stored)
  {
    var writers' := writers[i := Writer(writers[i].w, Done(ok))];
    assert forall j :: j in writers ==> (OnlyNumbered(writers', j) <==> OnlyNumbered(writers, j));
  }

  lemma {:induction false} ApartReturned(seqNum: nat, last: nat, written: set<Write>, writers: map<nat, Writer>,
                                         stored: set<nat>, i: nat)
    requires NumbersApart(seqNum, last, written, writers, stored)
    ensures NumbersApart(seqNum, last, written, writers - {i}, stored)
  {
    var writers' := writers - {i};
    assert forall j :: j in writers' ==> (OnlyNumbered(writers', j) <==> OnlyNumbered(writers, j));
  }

  ghost predicate StateApart(s: State, stored: set<nat>) {
    NumbersApart(s.seqNum, s.lastSeqNum, s.written, s.writers, stored)
  }

  lemma {:induction false} ApartStep(s: State, a: Action, stored: set<nat>)
    requires NumbersOk(s.seqNum, s.written, s.returned, s.writers) && Can(s, a) && StateApart(s, stored)
    ensures StateApart(Do(s, a), stored + if a.StoreNumber? then {s.writers[a.i].w.seqNum} else {})
  {
    hide AfterFlush, AfterCompaction, PickMade, MergeOf, InputsOnDisk, Lists, Capture, NumbersApart;
    assert stored + {} == stored;
    match a
    case TakeNumber(i, key, kind, value) =>
      ApartTaken(s.seqNum, s.lastSeqNum, s.written, s.writers, stored, i, Write(key, s.seqNum + 1, kind, value));
    case StoreNumber(i) =>
      ApartStored(s.seqNum, s.lastSeqNum, s.written, s.writers, stored, i);
    case InsertOrRotate(i, room, roomInNew) =>
      ApartFinished(s.seqNum, s.lastSeqNum, s.written, s.writers, stored, i, room || roomInNew);
    case ReturnCall(i) =>
      ApartReturned(s.seqNum, s.lastSeqNum, s.written, s.writers, stored, i);
    case _ =>
  }

  lemma {:induction false} ApartRun(acts: seq<Action>)
    requires Runs(acts)
    ensures StateApart(After(acts), StoredNumbers(acts))
    decreases |acts|
  {
    hide Can, Do, StateApart, Kept, ContentsOk, FlushingOk, CompactingOk, ReadersOk, NumbersOk;
    if acts == [] {
      NoneYet();
    } else {
      var n := |acts| - 1;
      ApartRun(acts[..n]);
      InvRun(acts[..n]);
      ApartStep(After(acts[..n]), acts[n], StoredNumbers(acts[..n]));
    }
  }

  lemma {:induction false} NoneYet()
    ensures StateApart(START, {})
  {
  }

  lemma {:induction false} LastAfter(s: State, a: Action)
    requires Can(s, a)
    ensures Do(s, a).lastSeqNum == if a.StoreNumber? then s.writers[a.i].w.seqNum else s.lastSeqNum
    ensures a.StoreNumber? ==> OnlyNumbered(s.writers, a.i)
  {
    hide AfterFlush, AfterCompaction, PickMade, MergeOf, InputsOnDisk, Lists, Capture;
  }

  /** The number that the manifest logs covers at every moment what has been stored, if and only if
      the calls store their numbers in order. */
  lemma {:induction false} CoveredIff(acts: seq<Action>)
    requires Runs(acts)
    ensures AlwaysCovered(acts) <==> StoresInOrder(acts)
    decreases |acts|
  {
    hide Can, Do, NumbersOk, Kept, ContentsOk, FlushingOk, CompactingOk, ReadersOk;
    if acts != [] {
      var n := |acts| - 1;
      var s, a, stored := After(acts[..n]), acts[n], StoredNumbers(acts[..n]);
      CoveredIff(acts[..n]);
      ApartRun(acts[..n]);
      InvRun(acts[..n]);
      LastAfter(s, a);
      assert StoredNumbers(acts) == stored + if a.StoreNumber? then {s.writers[a.i].w.seqNum} else {};
      if a.StoreNumber? {
        NumberTaken(s, a.i);
        assert s.writers[a.i].w.seqNum !in stored;
      }
    }
  }

  lemma {:induction false} NumberTaken(s: State, i: nat)
    requires NumbersOk(s.seqNum, s.written, s.returned, s.writers) && i in s.writers
    ensures s.writers[i].w.seqNum > 0
  {
  }

  /** What has been stored includes the number of every write. */
  lemma {:induction false} WritesCovered(acts: seq<Action>)
    requires Runs(acts) && StoresInOrder(acts)
    ensures forall w :: w in After(acts).written ==> w.seqNum <= After(acts).lastSeqNum
  {
    hide Can, Do, Runs, After, StoredNumbers, StoresInOrder;
    CoveredIff(acts);
    ApartRun(acts);
  }

  /** So it is when the calls take their numbers in turn; between the calls the last number is then
      the last one taken. */
  lemma {:induction false} LastNumberCovers(acts: seq<Action>)
    requires Runs(acts) && InTurn(acts)
    ensures StoresInOrder(acts) && AlwaysCovered(acts)
    ensures NoneNumbered(After(acts)) ==> After(acts).lastSeqNum == After(acts).seqNum
  {
    hide Can, Do, Runs, After, InTurn, StoresInOrder, AlwaysCovered;
    InTurnOk(acts);
    CoveredIff(acts);
  }

  lemma {:induction false} InTurnOk(acts: seq<Action>)
    requires Runs(acts) && InTurn(acts)
    ensures var s := After(acts); LastNumberOk(s.seqNum, s.lastSeqNum, s.written, s.writers)
    ensures StoresInOrder(acts)
    decreases |acts|
  {
    hide Can, Do, NumbersOk, Kept, ContentsOk, FlushingOk, CompactingOk, ReadersOk;
    if acts != [] {
      var n := |acts| - 1;
      var s, a := After(acts[..n]), acts[n];
      InTurnOk(acts[..n]);
      LastNumberStep(s, a);
      ApartRun(acts[..n]);
      InvRun(acts[..n]);
      LastAfter(s, a);
      if a.StoreNumber? {
        NumberTaken(s, a.i);
      }
    }
  }

  /** The call with the smaller number stores it last. */
  lemma {:induction false} StoredOutOfTurn(v: Write, w: Write) returns (acts: seq<Action>)
    requires v == Write([97], 1, KIND_SET, []) && w == Write([98], 2, KIND_SET, [])
    ensures Runs(acts)
    ensures After(acts) == START.(seqNum := 2, lastSeqNum := 1, writers := map[0 := Writer(v, Stored), 1 := Writer(w, Stored)])
  {
    hide Runs, After;
    StartRun();
    acts := RunMore([], TakeNumber(0, [97], KIND_SET, []));
    acts := RunMore(acts, TakeNumber(1, [98], KIND_SET, []));
    acts := RunMore(acts, StoreNumber(1));
    acts := RunMore(acts, StoreNumber(0));
    assert After(acts).writers == map[0 := Writer(v, Stored), 1 := Writer(w, Stored)];
  }

  /** Otherwise it can fall back: a write with a larger number than the logged one has returned, and
      opening the database again would give its number to another write. */
  lemma {:induction false} LastNumberFallsBack() returns (acts: seq<Action>, w: Write)
    ensures Runs(acts) && w in After(acts).returned && After(acts).writers == map[]
    ensures After(acts).lastSeqNum < w.seqNum == After(acts).seqNum
  {
    hide Runs, After;
    w := Write([98], 2, KIND_SET, []);
    acts := StoredOutOfTurn(Write([97], 1, KIND_SET, []), w);
    acts := RunMore(acts, InsertOrRotate(0, true, true));
    acts := RunMore(acts, ReturnCall(0));
    acts := RunMore(acts, InsertOrRotate(1, true, true));
    acts := RunMore(acts, ReturnCall(1));
    assert After(acts).writers == map[];
  }
}
