/** Get in a run of the database: what the newest-first search of the captured memtables finds. */
module GetRuns {
  import opened Bytes
  import opened InternalKey
  import opened Block
  import opened Merge
  import opened Versions
  import opened Compactions
  import opened CompactionMerge
  import opened CompactionTree
  import opened CompactionRuns
  import opened Memtables
  import opened VersionGet
  import opened Databases
  import opened DatabaseRuns

  /** The loops of Get: the active memtable, then the sealed ones from new to old; the first that has a
      version up to s answers. */
  function Search(tables: seq<seq<Entry>>, key: bytes, s: nat): MaybeWrite {
    if tables == [] then None
    else
      var n := |tables| - 1;
      var w := Find(tables[n], key, s);
      if w.Some? then w else Search(tables[..n], key, s)
  }

  predicate IsVersion(w: Write, key: bytes, s: nat) {
    w.key == key && w.seqNum <= s
  }

  /** The write of the key with the largest number up to s. */
  ghost predicate Latest(mems: seq<set<Write>>, key: bytes, s: nat, w: Write) {
    && IsVersion(w, key, s) && (exists i :: 0 <= i < |mems| && w in mems[i])
    && forall i, v :: 0 <= i < |mems| && v in mems[i] && IsVersion(v, key, s) ==> v.seqNum <= w.seqNum
  }

  /** No memtable newer than that of w has a version of the key up to s. */
  ghost predicate NoneNewer(mems: seq<set<Write>>, key: bytes, s: nat, w: Write) {
    forall i, v :: 0 <= i < |mems| && v in mems[i] && IsVersion(v, key, s) ==> exists j :: i <= j < |mems| && w in mems[j]
  }

  /** The writes of a run, as far as one key goes: a number names one write, and other keys are not
      prefixes of this one nor it of them. */
  ghost predicate Proper(mems: seq<set<Write>>, key: bytes) {
    && (forall i, w :: 0 <= i < |mems| && w in mems[i] ==>
          w.seqNum <= MAX_SEQ && w.kind <= KIND_SET && Unrelated(w.key, key))
    && (forall i, j, v, w :: 0 <= i < |mems| && 0 <= j < |mems| && v in mems[i] && w in mems[j] && v.seqNum == w.seqNum ==> v == w)
  }

  ghost predicate AllLists(tables: seq<seq<Entry>>, mems: seq<set<Write>>) {
    |tables| == |mems| && forall i :: 0 <= i < |mems| ==> Lists(tables[i], mems[i])
  }

  /** The write that an entry of a memtable comes from. */
  lemma {:induction false} EntryFrom(es: seq<Entry>, ws: set<Write>, key: bytes, e: Entry) returns (w: Write)
    requires Lists(es, ws) && e in es && forall w :: w in ws ==> w.seqNum <= MAX_SEQ && w.kind <= KIND_SET && Unrelated(w.key, key)
    ensures w in ws && e == EntryOf(w) && UserKey(e.key) == w.key && Seq(e.key) == w.seqNum && Kind(e.key) == w.kind
    ensures |e.key| >= TRAILER_SIZE && Unrelated(UserKey(e.key), key)
  {
    hide Make, UserKey, Seq, Kind, Unrelated, Sorted;
    w :| w in ws && e == EntryOf(w);
    ParseEntry(w);
    EntryLength(w);
  }

  lemma {:induction false} MemtablePlain(es: seq<Entry>, ws: set<Write>, key: bytes)
    requires Lists(es, ws) && Proper([ws], key)
    ensures Plain(es, key)
  {
    hide Make, UserKey, Seq, Kind, Unrelated, Sorted, EntryOf;
    assert [ws][0] == ws;
    forall e | e in es
      ensures |e.key| >= TRAILER_SIZE && Kind(e.key) <= KIND_SET && Unrelated(UserKey(e.key), key)
    {
      var w := EntryFrom(es, ws, key, e);
    }
    forall d, e | d in es && e in es && UserKey(d.key) == key && UserKey(e.key) == key && Seq(d.key) == Seq(e.key)
      ensures d == e
    {
      var v := EntryFrom(es, ws, key, d);
      var w := EntryFrom(es, ws, key, e);
    }
  }

  /** One memtable: its newest version up to s, and nothing exactly when it has none. */
  lemma {:induction false} FindInMemtable(es: seq<Entry>, ws: set<Write>, key: bytes, s: nat)
    requires Lists(es, ws) && Proper([ws], key) && s <= MAX_SEQ
    ensures Find(es, key, s) == None ==> forall w :: w in ws ==> !IsVersion(w, key, s)
    ensures Find(es, key, s).Some? ==> var x := Find(es, key, s).w;
      x in ws && IsVersion(x, key, s) && forall w :: w in ws && IsVersion(w, key, s) ==> w.seqNum <= x.seqNum
  {
    hide Make, UserKey, Seq, Kind, Unrelated, Sorted, EntryOf, Find, Plain;
    assert [ws][0] == ws;
    MemtablePlain(es, ws, key);
    FindIsNewest(es, key, s);
    forall w | w in ws && IsVersion(w, key, s)
      ensures EntryOf(w) in es && VersionUpTo(EntryOf(w), key, s) && Seq(EntryOf(w).key) == w.seqNum
    {
      ParseEntry(w);
    }
    if Find(es, key, s).Some? {
      var e := SomeNewest(es, key, s);
      var x := EntryFrom(es, ws, key, e);
      EntryValue(x);
    }
  }

  lemma {:induction false} ProperPart(mems: seq<set<Write>>, key: bytes, i: nat)
    requires Proper(mems, key) && i < |mems|
    ensures Proper([mems[i]], key) && Proper(mems[..i], key)
  {
    hide Unrelated;
    assert [mems[i]][0] == mems[i];
  }

  /** The search stops in the newest memtable that has a version, at the newest one there. */
  ghost predicate StopsAtNewest(mems: seq<set<Write>>, key: bytes, s: nat, i: nat, x: Write) {
    && i < |mems| && x in mems[i] && IsVersion(x, key, s)
    && (forall w :: w in mems[i] && IsVersion(w, key, s) ==> w.seqNum <= x.seqNum)
    && forall j, w :: i < j < |mems| && w in mems[j] ==> !IsVersion(w, key, s)
  }

  lemma {:induction false} SearchFinds(tables: seq<seq<Entry>>, mems: seq<set<Write>>, key: bytes, s: nat) returns (i: nat)
    requires AllLists(tables, mems) && Proper(mems, key) && s <= MAX_SEQ
    ensures Search(tables, key, s) == None ==> forall j, w :: 0 <= j < |mems| && w in mems[j] ==> !IsVersion(w, key, s)
    ensures Search(tables, key, s).Some? ==> StopsAtNewest(mems, key, s, i, Search(tables, key, s).w)
    decreases |mems|
  {
    hide Find, Lists, Proper, IsVersion;
    i := 0;
    if tables != [] {
      var n := |tables| - 1;
      ProperPart(mems, key, n);
      FindInMemtable(tables[n], mems[n], key, s);
      if Find(tables[n], key, s).Some? {
        i := n;
      } else {
        i := SearchFinds(tables[..n], mems[..n], key, s);
      }
    }
  }

  /** The search finds the write with the largest number up to s if and only if no newer memtable has a
      version up to s. */
  lemma {:induction false} SearchRightIff(tables: seq<seq<Entry>>, mems: seq<set<Write>>, key: bytes, s: nat, w: Write)
    requires AllLists(tables, mems) && Proper(mems, key) && s <= MAX_SEQ && Latest(mems, key, s, w)
    ensures Search(tables, key, s) == Some(w) <==> NoneNewer(mems, key, s, w)
  {
    hide Search, AllLists, Unrelated, IsVersion;
    var i := SearchFinds(tables, mems, key, s);
    if NoneNewer(mems, key, s, w) {
      var x := Search(tables, key, s).w;
      assert x in mems[i] && IsVersion(x, key, s);
    }
  }

  /** In every run, for what a Get has captured, at any moment of its search. */
  lemma {:induction false} GetInRun(acts: seq<Action>, r: nat, tables: seq<seq<Entry>>, key: bytes, s: nat, w: Write)
    requires Runs(acts) && r in After(acts).readers && After(acts).readers[r].Captured?
    requires var x := After(acts).readers[r]; x.lo <= x.hi <= |After(acts).mems| && s <= MAX_SEQ
    requires forall v :: v in After(acts).written ==> Unrelated(v.key, key)
    requires var x := After(acts).readers[r]; var mems := After(acts).mems[x.lo..x.hi];
      AllLists(tables, mems) && Latest(mems, key, s, w)
    ensures var x := After(acts).readers[r];
      Search(tables, key, s) == Some(w) <==> NoneNewer(After(acts).mems[x.lo..x.hi], key, s, w)
  {
    hide Runs, After, Kept, FlushingOk, CompactingOk, ReadersOk, Search, AllLists, Unrelated, Latest, NoneNewer;
    InvRun(acts);
    var x := After(acts).readers[r];
    ProperInRun(After(acts), x.lo, x.hi, key);
    SearchRightIff(tables, After(acts).mems[x.lo..x.hi], key, s, w);
  }

  lemma {:induction false} ProperInRun(s: State, lo: nat, hi: nat, key: bytes)
    requires NumbersOk(s.seqNum, s.written, s.returned, s.writers) && ContentsOk(s.t, s.mems, s.dropped, s.written)
    requires lo <= hi <= |s.mems| && forall v :: v in s.written ==> Unrelated(v.key, key)
    ensures Proper(s.mems[lo..hi], key)
  {
    hide Unrelated, InMems, Stores;
    var mems := s.mems[lo..hi];
    assert forall i, w :: 0 <= i < |mems| && w in mems[i] ==> w in s.mems[lo + i] && w in s.written;
  }

  /** Two overlapping calls for one key: the one with the larger number goes into the memtable that the
      other one finds full. From then on the search finds the older write. */
  lemma {:induction false} OverlapShowsOlder(x: bytes, y: bytes) returns (acts: seq<Action>, older: Write, newer: Write)
    ensures older == Write([97], 1, KIND_SET, x) && newer == Write([97], 2, KIND_SET, y)
    ensures Runs(acts) && After(acts).returned == {older, newer} && 0 in After(acts).readers
    ensures After(acts).readers[0] == Captured({older, newer}, 0, 2, START.t)
    ensures Latest(After(acts).mems, [97], 2, newer) && |After(acts).mems| == 2
    ensures forall tables :: AllLists(tables, After(acts).mems) ==> Search(tables, [97], 2) == Some(older)
  {
    hide Runs, After, Search, AllLists, Proper, Latest, NoneNewer;
    older, newer := Write([97], 1, KIND_SET, x), Write([97], 2, KIND_SET, y);
    acts := OverlappingCalls(older, newer);
    acts := RunMore(acts, BeginRead(0));
    acts := RunMore(acts, CopyMemtables(0));
    acts := RunMore(acts, LoadVersion(0));
    TwoMemtables(older, newer);
    forall tables | AllLists(tables, [{newer}, {older}])
      ensures Search(tables, [97], 2) == Some(older)
    {
      NewerMemtableFirst(tables, older, newer);
    }
  }

  lemma {:induction false} OverlappingCalls(older: Write, newer: Write) returns (acts: seq<Action>)
    requires older.key == newer.key == [97] && older.seqNum == 1 && newer.seqNum == 2 && older.kind == newer.kind == KIND_SET
    ensures Runs(acts)
    ensures After(acts) == START.(seqNum := 2, lastSeqNum := 2, written := {older, newer}, returned := {older, newer},
                                  mems := [{newer}, {older}])
  {
    hide Runs, After;
    StartRun();
    acts := RunMore([], TakeNumber(0, older.key, older.kind, older.value));
    acts := RunMore(acts, TakeNumber(1, newer.key, newer.kind, newer.value));
    acts := RunMore(acts, StoreNumber(0));
    acts := RunMore(acts, StoreNumber(1));
    acts := RunMore(acts, InsertOrRotate(1, true, true));
    assert After(acts).mems == [{newer}] && After(acts).written == {newer};
    acts := RunMore(acts, ReturnCall(1));
    assert After(acts).returned == {newer};
    acts := RunMore(acts, InsertOrRotate(0, false, true));
    acts := RunMore(acts, ReturnCall(0));
    assert After(acts).writers == map[] && After(acts).mems == [{newer}, {older}];
  }

  lemma {:induction false} TwoMemtables(older: Write, newer: Write)
    requires older.key == newer.key == [97] && older.seqNum == 1 && newer.seqNum == 2 && older.kind == newer.kind == KIND_SET
    ensures Latest([{newer}, {older}], [97], 2, newer) && Proper([{newer}, {older}], [97])
    ensures !NoneNewer([{newer}, {older}], [97], 2, newer)
  {
    hide Unrelated;
    var mems := [{newer}, {older}];
    assert mems[0] == {newer} && mems[1] == {older};
    assert newer in mems[0] && older in mems[1];
    assert Unrelated(newer.key, [97]) by { SameKey([97]); }
    assert IsVersion(older, [97], 2) && forall j: nat :: 1 <= j < |mems| ==> newer !in mems[j];
  }

  lemma {:induction false} SameKey(k: bytes)
    ensures Unrelated(k, k)
  {
  }

  lemma {:induction false} NewerMemtableFirst(tables: seq<seq<Entry>>, older: Write, newer: Write)
    requires AllLists(tables, [{newer}, {older}]) && Proper([{newer}, {older}], [97])
    requires older.key == newer.key == [97] && older.seqNum == 1 && newer.seqNum == 2
    ensures Search(tables, [97], 2) == Some(older)
  {
    hide Search, AllLists, Proper;
    var mems := [{newer}, {older}];
    assert older in mems[1] && IsVersion(older, [97], 2) && mems[1] == {older};
    var i := SearchFinds(tables, mems, [97], 2);
  }
}
