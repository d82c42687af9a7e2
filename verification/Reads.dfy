/** Reading your writes: what a scan over a captured state shows of a write that had returned before
    the scan's capture began, in any interleaving with writers, flushes and compactions. */
module Reads {
  import opened Bytes
  import opened InternalKey
  import opened Block
  import opened Merge
  import opened Visibility
  import opened KeyBuffers
  import opened DBIterators
  import opened Versions
  import opened Compactions
  import opened CompactionRuns
  import opened CompactionTree
  import opened Memtables
  import opened Databases
  import opened DatabaseRuns

  /** What a scan sees of a memtable that others write to meanwhile: everything that was in it when
      the scan began, and nothing that is not in it when the scan ends (WalkComplete and
      WalkIncreases in SkiplistSafety). */
  ghost predicate ListsBetween(es: seq<Entry>, before: set<Write>, after: set<Write>) {
    && Sorted(es)
    && (forall w :: w in before ==> EntryOf(w) in es)
    && (forall e :: e in es ==> exists w :: w in after && e == EntryOf(w))
  }

  ghost predicate FromMemtable(b: State, s: State, x: Reader, es: seq<Entry>)
    requires x.Captured?
  {
    exists id :: x.lo <= id < x.hi && id < |b.mems| && id < |s.mems| && ListsBetween(es, b.mems[id], s.mems[id])
  }

  ghost predicate FromTable(x: Reader, es: seq<Entry>)
    requires x.Captured?
  {
    exists l, f :: 0 <= l < NUM_LEVELS && f in x.t.v[l] && f.fileNum in x.t.disk && es == x.t.disk[f.fileNum]
  }

  /** NewIterator has one iterator for every captured memtable and every table of the captured
      version, and no other; the scan runs from state b to state s. */
  ghost predicate Sources(b: State, s: State, x: Reader, iters: seq<Cursor>)
    requires x.Captured?
  {
    && (forall i :: 0 <= i < |iters| ==>
          Sorted(iters[i].es) && (FromMemtable(b, s, x, iters[i].es) || FromTable(x, iters[i].es)))
    && (forall id :: x.lo <= id < x.hi && id < |b.mems| && id < |s.mems| ==>
          exists i :: 0 <= i < |iters| && ListsBetween(iters[i].es, b.mems[id], s.mems[id]))
    && (forall l, f :: 0 <= l < NUM_LEVELS && f in x.t.v[l] && f.fileNum in x.t.disk
          ==> exists i :: 0 <= i < |iters| && iters[i].es == x.t.disk[f.fileNum])
  }

  /** Every source holds writes only. */
  lemma {:induction false} SourceWritten(b: State, s: State, x: Reader, es: seq<Entry>, e: Entry) returns (v: Write)
    requires x.Captured? && ContentsOk(s.t, s.mems, s.dropped, s.written) && ReaderOk(s.t, s.mems, s.written, x)
    requires (FromMemtable(b, s, x, es) || FromTable(x, es)) && e in es
    ensures v in s.written && e == EntryOf(v)
  {
    hide EntryOf, Sorted, InMems;
    if FromMemtable(b, s, x, es) {
      var id :| x.lo <= id < x.hi && id < |b.mems| && id < |s.mems| && ListsBetween(es, b.mems[id], s.mems[id]);
      v :| v in s.mems[id] && e == EntryOf(v);
    } else {
      assert Has(x.t, e);
      v :| v in s.written && e == EntryOf(v);
    }
  }

  /** A captured write is an entry of some source. */
  lemma {:induction false} WriteInSource(b: State, s: State, x: Reader, iters: seq<Cursor>, w: Write) returns (i: nat)
    requires x.Captured? && Sources(b, s, x, iters) && x.hi <= |s.mems|
    requires InMems(b.mems, x.lo, x.hi, w) || Has(x.t, EntryOf(w))
    ensures i < |iters| && EntryOf(w) in iters[i].es
  {
    hide EntryOf, Sorted, FromMemtable, FromTable;
    if InMems(b.mems, x.lo, x.hi, w) {
      var id :| x.lo <= id < x.hi && id < |b.mems| && w in b.mems[id];
      i :| 0 <= i < |iters| && ListsBetween(iters[i].es, b.mems[id], s.mems[id]);
    } else {
      var l, f :| 0 <= l < NUM_LEVELS && f in x.t.v[l] && f.fileNum in x.t.disk && EntryOf(w) in x.t.disk[f.fileNum];
      i :| 0 <= i < |iters| && iters[i].es == x.t.disk[f.fileNum];
    }
  }

  lemma {:induction false} StartRest(iters: seq<Cursor>, i: nat)
    requires i < |iters|
    ensures AtStart(iters)[i].Rest() == iters[i].es
  {
  }

  /** An entry of a source has its key in the union. */
  lemma {:induction false} UnionHas(iters: seq<Cursor>, i: nat, e: Entry)
    requires i < |iters| && e in iters[i].es
    ensures e.key in Merged(AtStart(iters))
  {
    hide Merged, ToMap;
    StartRest(iters, i);
    EntryInMap(iters[i].es, e);
    var j := MergedContains(AtStart(iters), e.key, i);
  }

  /** What the union maps a key to is an entry of some source. */
  lemma {:induction false} UnionEntry(iters: seq<Cursor>, k: bytes) returns (j: nat)
    requires k in Merged(AtStart(iters))
    ensures j < |iters| && Entry(k, Merged(AtStart(iters))[k]) in iters[j].es
  {
    hide Merged, ToMap;
    var i := MergedHas(AtStart(iters), k);
    j := MergedContains(AtStart(iters), k, i);
    MergedAt(AtStart(iters), k, j);
    StartRest(iters, j);
    MapEntry(iters[j].es, k);
  }

  /** So every key of the union is that of a write, with its value. */
  lemma {:induction false} UnionWritten(b: State, s: State, x: Reader, iters: seq<Cursor>, k: bytes) returns (v: Write)
    requires x.Captured? && ContentsOk(s.t, s.mems, s.dropped, s.written) && ReaderOk(s.t, s.mems, s.written, x)
    requires Sources(b, s, x, iters) && k in Merged(AtStart(iters))
    ensures v in s.written && k == EntryOf(v).key && Merged(AtStart(iters))[k] == EntryOf(v).value
  {
    hide Merged, EntryOf, ContentsOk, ReaderOk, FromMemtable, FromTable, Sorted;
    var j := UnionEntry(iters, k);
    v := SourceWritten(b, s, x, iters[j].es, Entry(k, Merged(AtStart(iters))[k]));
  }

  lemma {:induction false} SmallNumber(s: State, w: Write)
    requires NumbersOk(s.seqNum, s.written, s.returned, s.writers) && w in s.written
    ensures w.seqNum <= MAX_SEQ && w.kind <= KIND_SET
  {
  }

  /** No written user key is a proper prefix of another one. */
  ghost predicate PrefixFree(written: set<Write>) {
    forall v, w :: v in written && w in written ==> Unrelated(v.key, w.key)
  }

  lemma {:induction false} UnionGood(b: State, s: State, x: Reader, iters: seq<Cursor>)
    requires x.Captured? && ContentsOk(s.t, s.mems, s.dropped, s.written) && ReaderOk(s.t, s.mems, s.written, x)
    requires NumbersOk(s.seqNum, s.written, s.returned, s.writers) && Sources(b, s, x, iters) && PrefixFree(s.written)
    ensures GoodKeys(Merged(AtStart(iters)))
  {
    hide Merged, ContentsOk, ReaderOk, Sources, NumbersOk, UserKey, Seq, Kind, Make, Less, Unrelated;
    var all := Merged(AtStart(iters));
    forall j | j in all
      ensures |j| >= TRAILER_SIZE && Kind(j) <= KIND_SET && exists v :: v in s.written && UserKey(j) == v.key
    {
      var v := UnionWritten(b, s, x, iters, j);
      SmallNumber(s, v);
      ParseEntry(v);
    }
  }

  /** What a write shows of its key, if it is the newest version that a scan finds. */
  ghost predicate ShownBy(v: Write, out: seq<Entry>) {
    forall x :: Entry(v.key, x) in out <==> v.kind == KIND_SET && x == v.value
  }

  /** A captured write, or a later one of the same key, is the newest version in the union. */
  lemma {:induction false} NewestIsLater(b: State, s: State, x: Reader, iters: seq<Cursor>, w: Write)
    returns (v: Write, k: bytes)
    requires x.Captured? && ContentsOk(s.t, s.mems, s.dropped, s.written) && ReaderOk(s.t, s.mems, s.written, x)
    requires NumbersOk(s.seqNum, s.written, s.returned, s.writers) && Sources(b, s, x, iters) && PrefixFree(s.written)
    requires w.seqNum <= MAX_SEQ && x.hi <= |s.mems|
    requires InMems(b.mems, x.lo, x.hi, w) || Has(x.t, EntryOf(w))
    ensures v in s.written && v.key == w.key && v.seqNum >= w.seqNum && v.kind <= KIND_SET
    ensures var all := Merged(AtStart(iters));
      IsNewest(all, k) && k in all && UserKey(k) == v.key && Kind(k) == v.kind && all[k] == EntryOf(v).value
  {
    hide Merged, ContentsOk, ReaderOk, Sources, NumbersOk, UserKey, Seq, Kind, Make, Less, InMems, Has, PrefixFree, GoodKeys;
    var all := Merged(AtStart(iters));
    var i := WriteInSource(b, s, x, iters, w);
    UnionHas(iters, i, EntryOf(w));
    ParseEntry(w);
    UnionGood(b, s, x, iters);
    k := NewestOf(all, EntryOf(w).key);
    v := UnionWritten(b, s, x, iters, k);
    SmallNumber(s, v);
    ParseEntry(v);
  }

  lemma {:induction false} CapturedBounds(s: State, x: Reader)
    requires x.Captured? && ReaderOk(s.t, s.mems, s.written, x)
    ensures x.hi <= |s.mems|
  {
  }

  /** A capture that is complete stays what it is. */
  lemma {:induction false} CapturedStays(acts: seq<Action>, m: nat, r: nat)
    requires Runs(acts) && m <= |acts| && Runs(acts[..m])
    requires r in After(acts[..m]).readers && After(acts[..m]).readers[r].Captured?
    ensures r in After(acts).readers && After(acts).readers[r] == After(acts[..m]).readers[r]
    decreases |acts|
  {
    hide Can, Do;
    var n := |acts| - 1;
    if m < |acts| {
      assert acts[..n][..m] == acts[..m];
      CapturedStays(acts[..n], m, r);
      CapturedKept(After(acts[..n]), acts[n], r);
    } else {
      assert acts[..m] == acts;
    }
  }

  lemma {:induction false} CapturedKept(s: State, a: Action, r: nat)
    requires Can(s, a) && r in s.readers && s.readers[r].Captured?
    ensures r in Do(s, a).readers && Do(s, a).readers[r] == s.readers[r]
  {
    hide AfterFlush, AfterCompaction, PickMade, MergeOf, InputsOnDisk, Lists;
  }

  /** A scan that begins after acts[..m] and ends after acts, whatever happens between: of a write that
      had returned before NewIterator began, it shows that write or a later one of its key. */
  lemma {:induction false} ScanShowsLater(acts: seq<Action>, k: nat, m: nat, r: nat, w: Write, iters: seq<Cursor>, over: Reuse)
    returns (v: Write)
    requires Runs(acts) && k < m <= |acts| && acts[k] == BeginRead(r) && Runs(acts[..k]) && Runs(acts[..m])
    requires r in After(acts[..m]).readers && After(acts[..m]).readers[r].Captured?
    requires w in After(acts[..k]).returned && w.seqNum <= MAX_SEQ
    requires Sources(After(acts[..m]), After(acts), After(acts[..m]).readers[r], iters)
    requires PrefixFree(After(acts).written) && |over| == |iters| && SourcesRight(AtStart(iters), over)
    ensures v in After(acts).written && v.key == w.key && v.seqNum >= w.seqNum
    ensures ShownBy(v, ScanOut(AtStart(iters), over))
  {
    hide Runs, After, Merged, Sources, EntryOf, Kept, FlushingOk, CompactingOk, ContentsOk, NumbersOk, IsNewest, Less,
         Has, InMems, Sorted, PrefixFree, SourcesRight, GoodKeys, Kind, ReaderOk, Visible, ScanOut, AllSorted;
    InvRun(acts);
    CapturedStays(acts, m, r);
    assert acts[..m][..k] == acts[..k];
    CaptureComplete(acts[..m], k, r, w);
    var b, s := After(acts[..m]), After(acts);
    var x := s.readers[r];
    assert ReaderOk(s.t, s.mems, s.written, x);
    CapturedBounds(s, x);
    var key;
    v, key := NewestIsLater(b, s, x, iters, w);
    UnionGood(b, s, x, iters);
    SourcesSorted(b, s, x, iters);
    StartSorted(iters);
    ScanYields(AtStart(iters), over);
    var all := Merged(AtStart(iters));
    forall y
      ensures Visible(all, w.key, y) <==> v.kind == KIND_SET && y == EntryOf(v).value
    {
      VisibleOnce(all, key, y);
    }
    SetValue(v);
  }

  lemma {:induction false} SourcesSorted(b: State, s: State, x: Reader, iters: seq<Cursor>)
    requires x.Captured? && Sources(b, s, x, iters)
    ensures forall i :: 0 <= i < |iters| ==> Sorted(iters[i].es)
  {
  }

  lemma {:induction false} SetValue(v: Write)
    ensures v.kind == KIND_SET ==> EntryOf(v).value == v.value
  {
  }

  /** No later write of the same user key. */
  ghost predicate Last(s: State, w: Write) {
    w in s.written && forall v :: v in s.written && v.key == w.key ==> v.seqNum <= w.seqNum
  }

  /** Reading your writes: if no other write of its key has followed by the end of the scan, that write
      is what the scan shows of its key; and if it is a deletion, the scan shows nothing. */
  lemma {:induction false} ReadYourWrites(acts: seq<Action>, k: nat, m: nat, r: nat, w: Write, iters: seq<Cursor>, over: Reuse)
    requires Runs(acts) && k < m <= |acts| && acts[k] == BeginRead(r) && Runs(acts[..k]) && Runs(acts[..m])
    requires r in After(acts[..m]).readers && After(acts[..m]).readers[r].Captured?
    requires w in After(acts[..k]).returned && Last(After(acts), w)
    requires Sources(After(acts[..m]), After(acts), After(acts[..m]).readers[r], iters)
    requires PrefixFree(After(acts).written) && |over| == |iters| && SourcesRight(AtStart(iters), over)
    ensures ShownBy(w, ScanOut(AtStart(iters), over))
  {
    hide Runs, After, Merged, Sources, EntryOf, Kept, FlushingOk, CompactingOk, ContentsOk, Less,
         Sorted, PrefixFree, SourcesRight, ReaderOk, ScanOut;
    InvRun(acts);
    var s := After(acts);
    SmallNumber(s, w);
    var v := ScanShowsLater(acts, k, m, r, w, iters, over);
    assert v == w;
  }
}
