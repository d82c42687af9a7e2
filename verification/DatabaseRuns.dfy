/** What holds after every run of the database. */
module DatabaseRuns {
  import opened Bytes
  import opened InternalKey
  import opened Block
  import opened Versions
  import opened Compactions
  import opened CompactionMerge
  import opened CompactionTree
  import opened CompactionRuns
  import opened Memtables
  import opened Databases

  // ---- contents

  /** Memtables that are not flushed yet and live tables hold exactly the successful writes. */
  lemma {:induction false} ContentsExact(acts: seq<Action>, w: Write)
    requires Runs(acts) && w.seqNum <= MAX_SEQ
    ensures var s := After(acts);
      w in s.written <==> InMems(s.mems, s.dropped, |s.mems|, w) || Has(s.t, EntryOf(w))
  {
    hide Kept, FlushingOk, CompactingOk, ReadersOk, Runs, After, EntryOf, Has;
    InvRun(acts);
    var s := After(acts);
    if Has(s.t, EntryOf(w)) {
      var v :| v in s.written && EntryOf(w) == EntryOf(v);
      EntryInjective(v, w);
    }
  }

  /** Stored entries change in one way only: publishing a flushed table adds its entries. */
  lemma {:induction false} TablesChange(acts: seq<Action>, a: Action, e: Entry)
    requires Runs(acts) && Can(After(acts), a)
    ensures var s := After(acts);
      Has(Do(s, a).t, e) <==> Has(s.t, e) || (a.PublishTable? && e in s.flush.es)
  {
    hide Kept, ReadersOk, Runs, After, ContentsOk, NumbersOk, Has, Consistent, StandingKept, MergeOf, AfterCompaction,
         AfterFlush, FlushKept, Nth, Fresh, CompactingOk;
    InvRun(acts);
    var s := After(acts);
    match a
    case PublishTable =>
      FlushAdds(s.t, s.flush.f, s.flush.es, s.t.nextFileNum, e);
    case PublishMerge(outs) =>
      var p, nums := s.compaction.p, Nth(s.compaction.nums);
      StoredConsistent(s);
      CompactingStands(s.t, s.compaction, s.flush);
      OutputsFacts(s.t, p, outs, nums);
      OutputsFresh(s.t, s.compaction, s.flush, outs);
      CompactionKeepsEntries(s.t, p, outs, nums, s.t.nextFileNum);
    case BuildTable(_, _) =>
      NextNumOnly(s.t, s.t.nextFileNum + 1);
    case AllocOutput =>
      NextNumOnly(s.t, s.t.nextFileNum + 1);
    case _ =>
  }

  // ---- captures

  /** What a capture has to hold is what had returned when the read began. */
  lemma {:induction false} MustIsReturned(acts: seq<Action>, k: nat, r: nat)
    requires Runs(acts) && k < |acts| && (acts[k] == BeginRead(r) || acts[k] == BeginSnapshot(r))
    ensures Runs(acts[..k]) && r in After(acts).readers
    ensures After(acts).readers[r].must == After(acts[..k]).returned
    decreases |acts|
  {
    var n := |acts| - 1;
    if k < n {
      MustIsReturned(acts[..n], k, r);
      assert acts[..n][..k] == acts[..k];
      MustStays(After(acts[..n]), acts[n], r);
    }
  }

  lemma {:induction false} MustStays(s: State, a: Action, r: nat)
    requires Can(s, a) && r in s.readers
    ensures r in Do(s, a).readers && Do(s, a).readers[r].must == s.readers[r].must
  {
    hide AfterFlush, AfterCompaction, PickMade, MergeOf, InputsOnDisk, Lists;
  }

  /** Get and NewIterator: every write that had returned before the read began is in the captured
      memtables or in the captured version. */
  lemma {:induction false} CaptureComplete(acts: seq<Action>, k: nat, r: nat, w: Write)
    requires Runs(acts) && k < |acts| && acts[k] == BeginRead(r)
    requires r in After(acts).readers && After(acts).readers[r].Captured?
    requires Runs(acts[..k]) && w in After(acts[..k]).returned
    ensures var s := After(acts); var x := s.readers[r];
      x.hi <= |s.mems| && (InMems(s.mems, x.lo, x.hi, w) || Has(x.t, EntryOf(w)))
  {
    hide Kept, FlushingOk, CompactingOk, Runs, After, ContentsOk, NumbersOk, Has, EntryOf, InMems;
    InvRun(acts);
    MustIsReturned(acts, k, r);
    assert ReaderOk(After(acts).t, After(acts).mems, After(acts).written, After(acts).readers[r]);
  }

  // ---- building runs

  lemma {:induction false} RunMore(acts: seq<Action>, a: Action) returns (more: seq<Action>)
    requires Runs(acts) && Can(After(acts), a)
    ensures more == acts + [a] && Runs(more) && After(more) == Do(After(acts), a)
  {
    hide Can, Do;
    more := acts + [a];
    assert more[..|more| - 1] == acts;
  }

  /** A whole call of Set. */
  lemma {:induction false} RunSet(acts: seq<Action>, i: nat, key: bytes, room: bool) returns (more: seq<Action>)
    requires Runs(acts) && i !in After(acts).writers && After(acts).seqNum < MAX_SEQ && After(acts).mems != []
    ensures Runs(more)
    ensures var s := After(acts); var w := Write(key, s.seqNum + 1, KIND_SET, []);
      After(more) == s.(seqNum := s.seqNum + 1, lastSeqNum := s.seqNum + 1, written := s.written + {w},
                        returned := s.returned + {w},
                        mems := if room then s.mems[|s.mems| - 1 := s.mems[|s.mems| - 1] + {w}] else s.mems + [{w}])
  {
    hide Runs, After;
    var s := After(acts);
    more := RunMore(acts, TakeNumber(i, key, KIND_SET, []));
    more := RunMore(more, StoreNumber(i));
    more := RunMore(more, InsertOrRotate(i, room, true));
    more := RunMore(more, ReturnCall(i));
    assert After(more).writers == s.writers;
  }

  /** A whole flush of a memtable with one write. */
  lemma {:induction false} RunFlush(acts: seq<Action>, w: Write) returns (more: seq<Action>)
    requires Runs(acts) && After(acts).flush == NoFlush && After(acts).dropped + 1 < |After(acts).mems|
    requires After(acts).mems[After(acts).dropped] == {w}
    ensures Runs(more) && |acts| <= |more| && more[..|acts|] == acts
    ensures var s, s' := After(acts), After(more);
      s' == s.(t := s'.t, dropped := s.dropped + 1)
  {
    hide Runs, After, AfterFlush, EntryOf;
    var es := [EntryOf(w)];
    more := RunMore(acts, TakeOldest);
    more := RunMore(more, BuildTable(es, 0));
    more := RunMore(more, PublishTable);
    more := RunMore(more, DropMemtable);
  }

  lemma {:induction false} StartRun()
    ensures Runs([]) && After([]) == START
  {
  }

  lemma {:induction false} EmptyHasNothing(e: Entry)
    ensures !Has(START.t, e)
  {
  }
}
