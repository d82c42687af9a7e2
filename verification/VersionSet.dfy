/** The manifest: every edit is logged before it is applied, and replaying the log gives the live
    version. */
module VersionSets {
  import opened Bytes
  import opened Binary
  import opened Versions

  /** What recovery rebuilds. */
  datatype State = State(v: Levels, nextFileNum: nat, lastSeqNum: nat)

  const START := State(EMPTY, 1, 0)

  function Step(st: State, e: Edit): State {
    State(Applied(st.v, e),
          if e.nextFileNum.Present? && e.nextFileNum.n > st.nextFileNum then e.nextFileNum.n else st.nextFileNum,
          if e.lastSeqNum.Present? then e.lastSeqNum.n else st.lastSeqNum)
  }

  function Fold(st: State, es: seq<Edit>): State
    decreases |es|
  {
    if es == [] then st else Fold(Step(st, es[0]), es[1..])
  }

  /** A logged record: its length, then the encoded edit. */
  function Record(e: Edit): (r: bytes)
    ensures |r| >= 4
  {
    var data := FieldsBytes(FieldsOf(e));
    LE(|data|, 4) + data
  }

  function Manifest(es: seq<Edit>): bytes {
    if es == [] then [] else Record(es[0]) + Manifest(es[1..])
  }

  /** Edits that the format can hold and that name existing levels. */
  ghost predicate Loggable(e: Edit) {
    Fits(e) && LevelsExist(e) && |FieldsBytes(FieldsOf(e))| < TWO_32
  }

  datatype Outcome = Recovered(st: State) | Corrupt | Crash

  /** Reading records from an offset of the manifest file: a short read or an edit that does not
      decode is an error, a key length beyond the record or an unknown level panics. */
  function ReplayFrom(file: bytes, i: nat, st: State): Outcome
    requires i <= |file|
    decreases |file| - i
  {
    if i == |file| then Recovered(st)
    else if i + 4 > |file| then Corrupt
    else
      var n := U32(file, i);
      if i + 4 + n > |file| then Corrupt
      else match DecodeFrom(file[i + 4..i + 4 + n], 0, NO_EDIT)
        case BadEdit => Corrupt
        case Panics => Crash
        case Ok(e) => if LevelsExist(e) then ReplayFrom(file, i + 4 + n, Step(st, e)) else Crash
  }

  lemma {:induction false} FoldAppend(st: State, es: seq<Edit>, e: Edit)
    ensures Fold(st, es + [e]) == Step(Fold(st, es), e)
    decreases |es|
  {
    hide Step;
    if es == [] {
      assert Fold(st, [e]) == Fold(Step(st, e), []);
    } else {
      FoldAppend(Step(st, es[0]), es[1..], e);
      assert (es + [e])[1..] == es[1..] + [e];
    }
  }

  lemma {:induction false} ManifestAppend(es: seq<Edit>, e: Edit)
    ensures Manifest(es + [e]) == Manifest(es) + Record(e)
  {
    hide Record;
    if es == [] {
      assert Manifest([e]) == Record(e) + Manifest([]);
    } else {
      ManifestAppend(es[1..], e);
      assert (es + [e])[1..] == es[1..] + [e];
      assert Record(es[0]) + (Manifest(es[1..]) + Record(e)) == Manifest(es) + Record(e);
    }
  }

  /** A whole record is read as its edit. */
  lemma {:induction false} ReadRecord(file: bytes, i: nat, e: Edit)
    requires Loggable(e) && At(file, i, Record(e))
    ensures i + 4 <= |file| && i + 4 + U32(file, i) == i + |Record(e)| <= |file|
    ensures DecodeFrom(file[i + 4..i + |Record(e)|], 0, NO_EDIT) == Ok(e)
  {
    hide FieldsBytes, FieldsOf, DecodeFrom, Fits, LevelsExist, LE, U32;
    var data := FieldsBytes(FieldsOf(e));
    AtConcat(file, i, LE(|data|, 4), data);
    U32Of(file, i, |data|);
    DecodeOfEncode(e);
  }

  /** The number of whole records in the first m bytes. */
  function Whole(es: seq<Edit>, m: nat): (k: nat)
    ensures k <= |es|
  {
    if es == [] || |Record(es[0])| > m then 0 else 1 + Whole(es[1..], m - |Record(es[0])|)
  }

  lemma {:induction false} WholeIsLargest(es: seq<Edit>, m: nat)
    ensures |Manifest(es[..Whole(es, m)])| <= m
    ensures Whole(es, m) < |es| ==> |Manifest(es[..Whole(es, m) + 1])| > m
  {
    hide Record;
    if es != [] {
      var r := |Record(es[0])|;
      if r <= m {
        WholeIsLargest(es[1..], m - r);
        var k := Whole(es[1..], m - r);
        assert es[..k + 1][1..] == es[1..][..k];
        if k + 1 < |es| {
          assert es[..k + 2][1..] == es[1..][..k + 1];
        }
      } else {
        assert es[..1] == [es[0]];
        assert Manifest([es[0]]) == Record(es[0]) + Manifest([]);
      }
    }
  }

  /** Only the head of a record is left: an error, unless nothing is left. */
  lemma {:induction false} TornRecord(file: bytes, i: nat, e: Edit, st: State)
    requires Loggable(e) && i <= |file| && |file| - i < |Record(e)| && file[i..] == Record(e)[..|file| - i]
    ensures ReplayFrom(file, i, st) == if i == |file| then Recovered(st) else Corrupt
  {
    hide FieldsBytes, FieldsOf, DecodeFrom, Fits, LevelsExist, LE, U32;
    var data := FieldsBytes(FieldsOf(e));
    if i + 4 <= |file| {
      assert file[i..i + 4] == file[i..][..4] == LE(|data|, 4);
      U32Of(file, i, |data|);
    }
  }

  /** A manifest cut at any byte: recovery succeeds exactly when the cut falls between two records,
      and then replays the records before it. */
  lemma {:induction false} ReplayCut(file: bytes, i: nat, es: seq<Edit>, m: nat, st: State)
    requires forall j :: 0 <= j < |es| ==> Loggable(es[j])
    requires i <= |file| && m <= |Manifest(es)| && file[i..] == Manifest(es)[..m]
    ensures var k := Whole(es, m);
      ReplayFrom(file, i, st) == if |Manifest(es[..k])| == m then Recovered(Fold(st, es[..k])) else Corrupt
    decreases |es|
  {
    hide Record, DecodeFrom, Step, Loggable, U32, LevelsExist;
    if es == [] {
      assert m == 0 && i == |file|;
    } else {
      var e := es[0];
      var r := |Record(e)|;
      if r > m {
        assert file[i..] == Record(e)[..m];
        assert es[..0] == [];
        TornRecord(file, i, e, st);
      } else {
        assert At(file, i, Record(e)) by {
          assert file[i..i + r] == file[i..][..r] == Record(e);
        }
        ReadRecord(file, i, e);
        LoggableLevels(e);
        assert file[i + r..] == file[i..][r..];
        ReplayCut(file, i + r, es[1..], m - r, Step(st, e));
        var k := Whole(es[1..], m - r);
        assert es[..k + 1][1..] == es[1..][..k];
      }
    }
  }

  lemma {:induction false} LoggableLevels(e: Edit)
    requires Loggable(e)
    ensures LevelsExist(e)
  {
  }

  lemma {:induction false} WholeOfAll(es: seq<Edit>)
    ensures Whole(es, |Manifest(es)|) == |es|
  {
    hide Record;
    if es != [] {
      WholeOfAll(es[1..]);
    }
  }

  /** Replaying the whole manifest folds the logged edits. */
  lemma {:induction false} ReplayAll(es: seq<Edit>)
    requires forall j :: 0 <= j < |es| ==> Loggable(es[j])
    ensures ReplayFrom(Manifest(es), 0, START) == Recovered(Fold(START, es))
  {
    hide ReplayFrom, Fold, Manifest, Loggable;
    var file := Manifest(es);
    assert file[0..] == file[..|file|];
    WholeOfAll(es);
    assert es[..|es|] == es;
    ReplayCut(file, 0, es, |file|, START);
  }

  /** Every live file has a number below n. */
  ghost predicate FilesBelow(v: Levels, n: nat) {
    forall l, f :: 0 <= l < NUM_LEVELS && f in v[l] ==> f.fileNum < n
  }

  lemma {:induction false} AppliedBelow(v: Levels, e: Edit, n: nat, m: nat)
    requires FilesBelow(v, n) && n <= m && forall f :: f in e.newFiles ==> f.fileNum < m
    ensures FilesBelow(Applied(v, e), m)
  {
    hide Applied;
    forall l, f | 0 <= l < NUM_LEVELS && f in Applied(v, e)[l]
      ensures f.fileNum < m
    {
      AppliedExactly(v, e, l, f);
    }
  }

  /** The edit with the numbers that logAndApply fills in. */
  function Stamped(e: Edit, nextFileNum: nat, lastSeqNum: nat): Edit {
    e.(nextFileNum := Present(nextFileNum), lastSeqNum := Present(lastSeqNum))
  }

  class VersionSet {
    var current: Levels
    var nextFileNum: nat
    var lastSeqNum: nat
    /** The bytes of the manifest file. */
    var manifest: bytes
    /** The logged edits. */
    ghost var edits: seq<Edit>

    ghost predicate Valid()
      reads this
    {
      && (forall j :: 0 <= j < |edits| ==> Loggable(edits[j]))
      && manifest == Manifest(edits)
      && var st := Fold(START, edits);
         st.v == current && st.nextFileNum <= nextFileNum && FilesBelow(current, st.nextFileNum)
    }

    constructor (manifest: bytes)
      ensures current == EMPTY && nextFileNum == 1 && lastSeqNum == 0 && this.manifest == manifest && edits == []
      ensures manifest == [] ==> Valid()
    {
      current, nextFileNum, lastSeqNum, this.manifest, edits := EMPTY, 1, 0, manifest, [];
    }

    /** allocFileNum: a number that no live file has, nor any later allocation. */
    method AllocFileNum() returns (n: nat)
      requires Valid()
      modifies this`nextFileNum
      ensures Valid() && n == old(nextFileNum) && nextFileNum == n + 1
      ensures FilesBelow(current, n)
    {
      hide Manifest, Fold, Loggable;
      n := nextFileNum;
      nextFileNum := nextFileNum + 1;
    }

    /** logAndApply: log first, then apply; no other call comes between. */
    method LogAndApply(e: Edit)
      requires Valid() && Loggable(Stamped(e, nextFileNum, lastSeqNum))
      requires forall f :: f in e.newFiles ==> f.fileNum < nextFileNum
      modifies this`current, this`manifest, this`edits
      ensures Valid() && edits == old(edits) + [Stamped(e, nextFileNum, lastSeqNum)]
      ensures current == Applied(old(current), e)
      ensures Fold(START, edits).nextFileNum == nextFileNum && Fold(START, edits).lastSeqNum == lastSeqNum
    {
      hide Manifest, Fold, Loggable, FieldsBytes, FieldsOf, LevelsExist, FilesBelow, Applied;
      var edit := e.(nextFileNum := Present(nextFileNum), lastSeqNum := Present(lastSeqNum));
      var data := Encode(edit);
      manifest := manifest + LE(|data|, 4) + data;
      ManifestAppend(edits, edit);
      assert manifest == old(manifest) + Record(edit);
      FoldAppend(START, edits, edit);
      AppliedBelow(current, edit, Fold(START, edits).nextFileNum, nextFileNum);
      SameChange(current, e, edit);
      LoggableLevels(edit);
      current := Apply(current, edit);
      edits := edits + [edit];
    }

    /** recover: replays the manifest file record by record. */
    method Recover() returns (o: Outcome)
      requires current == EMPTY && nextFileNum == 1 && lastSeqNum == 0
      modifies this`current, this`nextFileNum, this`lastSeqNum
      ensures o == ReplayFrom(manifest, 0, START)
      ensures o.Recovered? ==> o.st == State(current, nextFileNum, lastSeqNum)
      ensures !o.Recovered? ==> current == EMPTY
    {
      hide DecodeFrom, Applied, LevelsExist, U32;
      var v := EMPTY;
      var i := 0;
      while i < |manifest|
        invariant 0 <= i <= |manifest| && current == EMPTY
        invariant ReplayFrom(manifest, i, State(v, nextFileNum, lastSeqNum)) == ReplayFrom(manifest, 0, START)
        decreases |manifest| - i
      {
        if i + 4 > |manifest| {
          return Corrupt;
        }
        var n := U32(manifest, i);
        if i + 4 + n > |manifest| {
          return Corrupt;
        }
        var edit := Decode(manifest[i + 4..i + 4 + n]);
        if edit == BadEdit {
          return Corrupt;
        }
        if edit == Panics || !LevelsExist(edit.e) {
          return Crash;
        }
        var e := edit.e;
        v := Apply(v, e);
        if e.nextFileNum.Present? && e.nextFileNum.n > nextFileNum {
          nextFileNum := e.nextFileNum.n;
        }
        if e.lastSeqNum.Present? {
          lastSeqNum := e.lastSeqNum.n;
        }
        i := i + 4 + n;
      }
      current := v;
      return Recovered(State(v, nextFileNum, lastSeqNum));
    }
  }

  /** The header numbers of an edit do not change what it does to the levels. */
  lemma {:induction false} SameChange(v: Levels, e: Edit, edit: Edit)
    requires edit.newFiles == e.newFiles && edit.deleted == e.deleted
    ensures Applied(v, edit) == Applied(v, e)
  {
  }

  /** Opening the files of a version set again gives the same live version, and new file numbers
      start above every live one. */
  method Reopen(vs: VersionSet) returns (ws: VersionSet)
    requires vs.Valid()
    ensures fresh(ws) && ws.Valid() && ws.current == vs.current && ws.edits == vs.edits
    ensures FilesBelow(ws.current, ws.nextFileNum) && ws.nextFileNum <= vs.nextFileNum
    ensures ws.lastSeqNum == Fold(START, vs.edits).lastSeqNum
  {
    hide Manifest, Fold, Loggable, ReplayFrom;
    ws := new VersionSet(vs.manifest);
    ReplayAll(vs.edits);
    var o := ws.Recover();
    ws.edits := vs.edits;
  }
}
