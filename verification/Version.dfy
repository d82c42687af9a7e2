/** The version set: file metadata, edits, their encoding, and the manifest that logs them. */
module Versions {
  import opened Bytes
  import opened Binary

  const NUM_LEVELS := 7

  datatype FileMeta = FileMeta(fileNum: nat, level: int, size: nat, smallest: bytes, largest: bytes)

  datatype Deleted = Deleted(level: int, fileNum: nat)

  datatype MaybeNum = Absent | Present(n: nat)

  /** A change from one version to the next. */
  datatype Edit = Edit(lastSeqNum: MaybeNum, nextFileNum: MaybeNum, newFiles: seq<FileMeta>, deleted: seq<Deleted>)

  const NO_EDIT := Edit(Absent, Absent, [], [])

  // ---- encoding

  /** One tagged field of an encoded edit. */
  datatype Field = LastSeqNum(n: nat) | NextFileNum(n: nat) | NewFile(f: FileMeta) | DeletedFile(d: Deleted)

  /** Conversions between a 64-bit signed level and the unsigned number on disk. */
  function ToUnsigned(l: int): int {
    if l < 0 then l + TWO_64 else l
  }

  function ToSigned(v: nat): int {
    if v >= TWO_64 / 2 then v - TWO_64 else v
  }

  predicate IsInt64(l: int) {
    -TWO_64 / 2 <= l < TWO_64 / 2
  }

  function PutLevel(l: int): bytes {
    if IsInt64(l) then Put(ToUnsigned(l)) else Put(0)
  }

  function KeyBytes(k: bytes): bytes {
    Put(|k|) + k
  }

  function FieldBytes(x: Field): (r: bytes)
    ensures r != []
  {
    match x
    case LastSeqNum(n) => [1] + Put(n)
    case NextFileNum(n) => [2] + Put(n)
    case NewFile(f) =>
      [3] + (PutLevel(f.level) + (Put(f.fileNum) + (Put(f.size) + (KeyBytes(f.smallest) + KeyBytes(f.largest)))))
    case DeletedFile(d) => [4] + (PutLevel(d.level) + Put(d.fileNum))
  }

  function FieldsBytes(xs: seq<Field>): bytes {
    if xs == [] then [] else FieldBytes(xs[0]) + FieldsBytes(xs[1..])
  }

  function NewFiles(fs: seq<FileMeta>): (r: seq<Field>)
    ensures |r| == |fs| && forall i :: 0 <= i < |fs| ==> r[i] == NewFile(fs[i])
  {
    seq(|fs|, i requires 0 <= i < |fs| => NewFile(fs[i]))
  }

  function DeletedFiles(ds: seq<Deleted>): (r: seq<Field>)
    ensures |r| == |ds| && forall i :: 0 <= i < |ds| ==> r[i] == DeletedFile(ds[i])
  {
    seq(|ds|, i requires 0 <= i < |ds| => DeletedFile(ds[i]))
  }

  function HeaderFields(e: Edit): seq<Field> {
    (if e.lastSeqNum.Present? then [LastSeqNum(e.lastSeqNum.n)] else [])
    + (if e.nextFileNum.Present? then [NextFileNum(e.nextFileNum.n)] else [])
  }

  function FieldsOf(e: Edit): seq<Field> {
    HeaderFields(e) + NewFiles(e.newFiles) + DeletedFiles(e.deleted)
  }

  /** Fields that 64-bit numbers can hold. */
  predicate FieldFits(x: Field) {
    match x
    case LastSeqNum(n) => n < TWO_64
    case NextFileNum(n) => n < TWO_64
    case NewFile(f) =>
      IsInt64(f.level) && f.fileNum < TWO_64 && f.size < TWO_64 && |f.smallest| < TWO_64 && |f.largest| < TWO_64
    case DeletedFile(d) => IsInt64(d.level) && d.fileNum < TWO_64
  }

  ghost predicate Fits(e: Edit) {
    forall x :: x in FieldsOf(e) ==> FieldFits(x)
  }

  lemma {:induction false} FieldsBytesAppend(xs: seq<Field>, x: Field)
    ensures FieldsBytes(xs + [x]) == FieldsBytes(xs) + FieldBytes(x)
  {
    hide FieldBytes;
    if xs == [] {
      assert FieldsBytes([x]) == FieldBytes(x) + FieldsBytes([]);
    } else {
      FieldsBytesAppend(xs[1..], x);
      assert (xs + [x])[1..] == xs[1..] + [x];
      assert FieldBytes(xs[0]) + (FieldsBytes(xs[1..]) + FieldBytes(x)) == FieldsBytes(xs) + FieldBytes(x);
    }
  }

  /** VersionEdit.encode: appends field after field to a buffer. */
  method Encode(e: Edit) returns (buf: bytes)
    ensures buf == FieldsBytes(FieldsOf(e))
  {
    hide FieldBytes;
    buf := [];
    ghost var done: seq<Field> := [];
    if e.lastSeqNum.Present? {
      FieldsBytesAppend(done, LastSeqNum(e.lastSeqNum.n));
      buf := buf + FieldBytes(LastSeqNum(e.lastSeqNum.n));
      done := done + [LastSeqNum(e.lastSeqNum.n)];
    }
    if e.nextFileNum.Present? {
      FieldsBytesAppend(done, NextFileNum(e.nextFileNum.n));
      buf := buf + FieldBytes(NextFileNum(e.nextFileNum.n));
      done := done + [NextFileNum(e.nextFileNum.n)];
    }
    assert done == HeaderFields(e);
    for i := 0 to |e.newFiles|
      invariant done == HeaderFields(e) + NewFiles(e.newFiles)[..i] && buf == FieldsBytes(done)
    {
      FieldsBytesAppend(done, NewFile(e.newFiles[i]));
      buf := buf + FieldBytes(NewFile(e.newFiles[i]));
      done := done + [NewFile(e.newFiles[i])];
    }
    for i := 0 to |e.deleted|
      invariant done == HeaderFields(e) + NewFiles(e.newFiles) + DeletedFiles(e.deleted)[..i]
      invariant buf == FieldsBytes(done)
    {
      FieldsBytesAppend(done, DeletedFile(e.deleted[i]));
      buf := buf + FieldBytes(DeletedFile(e.deleted[i]));
      done := done + [DeletedFile(e.deleted[i])];
    }
    assert done == FieldsOf(e);
  }

  // ---- decoding

  /** A length and that many bytes; the slice panics when they are not there. */
  datatype Key = NoLength | OutOfRange | Key(k: bytes, next: nat)

  function ReadKey(data: bytes, i: nat): (r: Key)
    requires i <= |data|
    ensures r.Key? ==> i < r.next <= |data|
  {
    var n := ReadNum(data, i);
    if n == NoNum then NoLength
    else if n.next + n.v > |data| then OutOfRange
    else Key(data[n.next..n.next + n.v], n.next + n.v)
  }

  datatype Read = Bad | Panic | Got(x: Field, next: nat)

  function ReadNewFile(data: bytes, i: nat): (r: Read)
    requires i <= |data|
    ensures r.Got? ==> i < r.next <= |data|
  {
    var level := ReadNum(data, i);
    if level == NoNum then Bad else
    var fileNum := ReadNum(data, level.next);
    if fileNum == NoNum then Bad else
    var size := ReadNum(data, fileNum.next);
    if size == NoNum then Bad else
    var smallest := ReadKey(data, size.next);
    if smallest == NoLength then Bad else
    if smallest == OutOfRange then Panic else
    var largest := ReadKey(data, smallest.next);
    if largest == NoLength then Bad else
    if largest == OutOfRange then Panic else
    Got(NewFile(FileMeta(fileNum.v, ToSigned(level.v), size.v, smallest.k, largest.k)), largest.next)
  }

  /** The switch on the tag. */
  function ReadField(data: bytes, i: nat): (r: Read)
    requires i < |data|
    ensures r.Got? ==> i < r.next <= |data|
  {
    var tag := data[i];
    if tag == 1 || tag == 2 then
      var v := ReadNum(data, i + 1);
      if v == NoNum then Bad
      else if tag == 1 then Got(LastSeqNum(v.v), v.next)
      else Got(NextFileNum(v.v), v.next)
    else if tag == 3 then
      ReadNewFile(data, i + 1)
    else if tag == 4 then
      var level := ReadNum(data, i + 1);
      if level == NoNum then Bad else
      var fileNum := ReadNum(data, level.next);
      if fileNum == NoNum then Bad
      else Got(DeletedFile(Deleted(ToSigned(level.v), fileNum.v)), fileNum.next)
    else Bad
  }

  function Take(e: Edit, x: Field): Edit {
    match x
    case LastSeqNum(n) => e.(lastSeqNum := Present(n))
    case NextFileNum(n) => e.(nextFileNum := Present(n))
    case NewFile(f) => e.(newFiles := e.newFiles + [f])
    case DeletedFile(d) => e.(deleted := e.deleted + [d])
  }

  function TakeAll(e: Edit, xs: seq<Field>): Edit {
    if xs == [] then e else Take(TakeAll(e, xs[..|xs| - 1]), xs[|xs| - 1])
  }

  datatype Decoded = BadEdit | Panics | Ok(e: Edit)

  /** What a byte string decodes to from an offset on. */
  function DecodeFrom(data: bytes, i: nat, e: Edit): Decoded
    requires i <= |data|
    decreases |data| - i
  {
    if i == |data| then Ok(e)
    else match ReadField(data, i)
      case Bad => BadEdit
      case Panic => Panics
      case Got(x, next) => DecodeFrom(data, next, Take(e, x))
  }

  /** decodeVersionEdit */
  method Decode(data: bytes) returns (r: Decoded)
    ensures r == DecodeFrom(data, 0, NO_EDIT)
  {
    hide ReadField;
    var ve := NO_EDIT;
    var i := 0;
    while i < |data|
      invariant 0 <= i <= |data| && DecodeFrom(data, i, ve) == DecodeFrom(data, 0, NO_EDIT)
      decreases |data| - i
    {
      match ReadField(data, i)
      case Bad =>
        return BadEdit;
      case Panic =>
        return Panics;
      case Got(x, next) =>
        match x {
          case LastSeqNum(n) => ve := ve.(lastSeqNum := Present(n));
          case NextFileNum(n) => ve := ve.(nextFileNum := Present(n));
          case NewFile(f) => ve := ve.(newFiles := ve.newFiles + [f]);
          case DeletedFile(d) => ve := ve.(deleted := ve.deleted + [d]);
        }
        i := next;
    }
    return Ok(ve);
  }

  // ---- decoding undoes encoding

  lemma {:induction false} ReadKeyOf(data: bytes, i: nat, k: bytes)
    requires |k| < TWO_64 && At(data, i, KeyBytes(k))
    ensures i <= |data| && ReadKey(data, i) == Key(k, i + |KeyBytes(k)|)
  {
    hide ReadNum, Put;
    AtConcat(data, i, Put(|k|), k);
    ReadNumOf(data, i, |k|);
  }

  lemma {:induction false} SignedRoundTrip(l: int)
    requires IsInt64(l)
    ensures 0 <= ToUnsigned(l) < TWO_64 && ToSigned(ToUnsigned(l)) == l
  {
  }

  lemma {:induction false} ReadNewFileOf(data: bytes, i: nat, f: FileMeta)
    requires FieldFits(NewFile(f)) && i < |data|
    requires At(data, i, FieldBytes(NewFile(f)))
    ensures ReadNewFile(data, i + 1) == Got(NewFile(f), i + |FieldBytes(NewFile(f))|)
  {
    hide ReadNum, ReadKey, Put, KeyBytes, ToSigned, ToUnsigned, At, FieldBytes;
    SignedRoundTrip(f.level);
    NewFileLayout(data, i, f);
    var a := i + 1;
    ReadNumOf(data, a, ToUnsigned(f.level));
    var b := a + |Put(ToUnsigned(f.level))|;
    ReadNumOf(data, b, f.fileNum);
    var c := b + |Put(f.fileNum)|;
    ReadNumOf(data, c, f.size);
    var d := c + |Put(f.size)|;
    ReadKeyOf(data, d, f.smallest);
    ReadKeyOf(data, d + |KeyBytes(f.smallest)|, f.largest);
  }

  lemma {:induction false} NewFileLayout(data: bytes, i: nat, f: FileMeta)
    requires FieldFits(NewFile(f)) && At(data, i, FieldBytes(NewFile(f)))
    ensures 0 <= ToUnsigned(f.level)
    ensures
      var a := i + 1;
      var b := a + |Put(ToUnsigned(f.level))|;
      var c := b + |Put(f.fileNum)|;
      var d := c + |Put(f.size)|;
      var e := d + |KeyBytes(f.smallest)|;
      && At(data, a, Put(ToUnsigned(f.level))) && At(data, b, Put(f.fileNum)) && At(data, c, Put(f.size))
      && At(data, d, KeyBytes(f.smallest)) && At(data, e, KeyBytes(f.largest))
      && i + |FieldBytes(NewFile(f))| == e + |KeyBytes(f.largest)|
  {
    hide Put, KeyBytes, ToUnsigned, At;
    SignedRoundTrip(f.level);
    var level, num, size := Put(ToUnsigned(f.level)), Put(f.fileNum), Put(f.size);
    var keys := KeyBytes(f.smallest) + KeyBytes(f.largest);
    AtConcat(data, i, [3], level + (num + (size + keys)));
    AtConcat(data, i + 1, level, num + (size + keys));
    AtConcat(data, i + 1 + |level|, num, size + keys);
    AtConcat(data, i + 1 + |level| + |num|, size, keys);
    AtConcat(data, i + 1 + |level| + |num| + |size|, KeyBytes(f.smallest), KeyBytes(f.largest));
  }

  lemma {:induction false} TagOf(data: bytes, i: nat, x: Field)
    requires At(data, i, FieldBytes(x))
    ensures i < |data|
    ensures data[i] == match x case LastSeqNum(_) => 1 case NextFileNum(_) => 2 case NewFile(_) => 3 case DeletedFile(_) => 4
  {
  }

  lemma {:induction false} ReadFieldOf(data: bytes, i: nat, x: Field)
    requires FieldFits(x) && At(data, i, FieldBytes(x))
    ensures i < |data| && ReadField(data, i) == Got(x, i + |FieldBytes(x)|)
  {
    hide ReadNewFile, ReadNum, Put, At, ToSigned, ToUnsigned;
    TagOf(data, i, x);
    match x
    case LastSeqNum(n) =>
      AtConcat(data, i, [1], Put(n));
      ReadNumOf(data, i + 1, n);
    case NextFileNum(n) =>
      AtConcat(data, i, [2], Put(n));
      ReadNumOf(data, i + 1, n);
    case NewFile(f) =>
      ReadNewFileOf(data, i, f);
    case DeletedFile(d) =>
      SignedRoundTrip(d.level);
      var level := ToUnsigned(d.level);
      AtConcat(data, i, [4], Put(level) + Put(d.fileNum));
      AtConcat(data, i + 1, Put(level), Put(d.fileNum));
      ReadNumOf(data, i + 1, level);
      ReadNumOf(data, i + 1 + |Put(level)|, d.fileNum);
  }

  lemma {:induction false} DecodeFields(data: bytes, i: nat, xs: seq<Field>, e: Edit)
    requires i <= |data| && data[i..] == FieldsBytes(xs)
    requires forall x :: x in xs ==> FieldFits(x)
    ensures DecodeFrom(data, i, e) == Ok(TakeAll(e, xs))
    decreases |xs|
  {
    hide FieldBytes, ReadField, FieldFits, Take;
    if xs != [] {
      var x := xs[0];
      assert At(data, i, FieldBytes(x)) by {
        assert data[i..i + |FieldBytes(x)|] == data[i..][..|FieldBytes(x)|];
      }
      ReadFieldOf(data, i, x);
      var next := i + |FieldBytes(x)|;
      assert data[next..] == data[i..][|FieldBytes(x)|..];
      DecodeFields(data, next, xs[1..], Take(e, x));
      TakeFirst(e, xs);
    }
  }

  lemma {:induction false} TakeFirst(e: Edit, xs: seq<Field>)
    requires xs != []
    ensures TakeAll(e, xs) == TakeAll(Take(e, xs[0]), xs[1..])
  {
    hide Take;
    var n := |xs| - 1;
    if n == 0 {
      assert TakeAll(e, xs) == Take(TakeAll(e, []), xs[0]);
    } else {
      TakeFirst(e, xs[..n]);
      assert xs[..n][1..] == xs[1..][..n - 1];
    }
  }

  lemma {:induction false} TakeAllConcat(e: Edit, xs: seq<Field>, ys: seq<Field>)
    ensures TakeAll(e, xs + ys) == TakeAll(TakeAll(e, xs), ys)
  {
    hide Take;
    if ys == [] {
      assert xs + ys == xs;
    } else {
      var n := |ys| - 1;
      TakeAllConcat(e, xs, ys[..n]);
      assert (xs + ys)[..|xs + ys| - 1] == xs + ys[..n];
    }
  }

  lemma {:induction false} TakeNewFiles(e: Edit, fs: seq<FileMeta>)
    ensures TakeAll(e, NewFiles(fs)) == e.(newFiles := e.newFiles + fs)
  {
    if fs == [] {
      assert e.newFiles + fs == e.newFiles;
    } else {
      var n := |fs| - 1;
      TakeNewFiles(e, fs[..n]);
      assert NewFiles(fs)[..n] == NewFiles(fs[..n]);
      assert fs == fs[..n] + [fs[n]];
    }
  }

  lemma {:induction false} TakeDeletedFiles(e: Edit, ds: seq<Deleted>)
    ensures TakeAll(e, DeletedFiles(ds)) == e.(deleted := e.deleted + ds)
  {
    if ds == [] {
      assert e.deleted + ds == e.deleted;
    } else {
      var n := |ds| - 1;
      TakeDeletedFiles(e, ds[..n]);
      assert DeletedFiles(ds)[..n] == DeletedFiles(ds[..n]);
      assert ds == ds[..n] + [ds[n]];
    }
  }

  lemma {:induction false} TakeHeader(e: Edit)
    ensures TakeAll(NO_EDIT, HeaderFields(e)) == Edit(e.lastSeqNum, e.nextFileNum, [], [])
  {
    var a := if e.lastSeqNum.Present? then [LastSeqNum(e.lastSeqNum.n)] else [];
    var b := if e.nextFileNum.Present? then [NextFileNum(e.nextFileNum.n)] else [];
    TakeAllConcat(NO_EDIT, a, b);
  }

  lemma {:induction false} FieldsRebuild(e: Edit)
    ensures TakeAll(NO_EDIT, FieldsOf(e)) == e
  {
    hide TakeAll, Take, HeaderFields;
    var a, b, c := HeaderFields(e), NewFiles(e.newFiles), DeletedFiles(e.deleted);
    TakeAllConcat(NO_EDIT, a + b, c);
    TakeAllConcat(NO_EDIT, a, b);
    TakeHeader(e);
    TakeNewFiles(TakeAll(NO_EDIT, a), e.newFiles);
    TakeDeletedFiles(TakeAll(NO_EDIT, a + b), e.deleted);
  }

  /** Decoding undoes encoding, for every edit whose numbers fit 64 bits. */
  lemma {:induction false} DecodeOfEncode(e: Edit)
    requires Fits(e)
    ensures DecodeFrom(FieldsBytes(FieldsOf(e)), 0, NO_EDIT) == Ok(e)
  {
    hide FieldsBytes, FieldsOf, DecodeFrom;
    var data := FieldsBytes(FieldsOf(e));
    assert data[0..] == data;
    DecodeFields(data, 0, FieldsOf(e), NO_EDIT);
    FieldsRebuild(e);
  }

  // ---- versions

  /** The live files of each level. */
  type Levels = s: seq<seq<FileMeta>> | |s| == NUM_LEVELS witness [[], [], [], [], [], [], []]

  const EMPTY: Levels := [[], [], [], [], [], [], []]

  ghost predicate Gone(ds: seq<Deleted>, fileNum: nat) {
    exists i :: 0 <= i < |ds| && ds[i].fileNum == fileNum
  }

  function GoneNums(ds: seq<Deleted>): (r: set<nat>)
    ensures forall n :: n in r <==> Gone(ds, n)
  {
    set i | 0 <= i < |ds| :: ds[i].fileNum
  }

  /** The files whose numbers are not deleted, in order; the level of a deletion is not looked at. */
  function Survivors(fs: seq<FileMeta>, gone: set<nat>): seq<FileMeta> {
    if fs == [] then []
    else
      var n := |fs| - 1;
      Survivors(fs[..n], gone) + if fs[n].fileNum in gone then [] else [fs[n]]
  }

  function Arrivals(fs: seq<FileMeta>, level: int): seq<FileMeta> {
    if fs == [] then []
    else
      var n := |fs| - 1;
      Arrivals(fs[..n], level) + if fs[n].level == level then [fs[n]] else []
  }

  /** Puts a file before the first one with a larger smallest key. */
  function Insert(fs: seq<FileMeta>, f: FileMeta): (r: seq<FileMeta>)
    ensures multiset(r) == multiset(fs) + multiset{f}
  {
    if fs == [] then [f]
    else
      var n := |fs| - 1;
      assert fs == fs[..n] + [fs[n]];
      if Less(f.smallest, fs[n].smallest) then Insert(fs[..n], f) + [fs[n]] else fs + [f]
  }

  function SortFiles(fs: seq<FileMeta>): (r: seq<FileMeta>)
    ensures multiset(r) == multiset(fs)
  {
    if fs == [] then []
    else
      var n := |fs| - 1;
      assert fs == fs[..n] + [fs[n]];
      Insert(SortFiles(fs[..n]), fs[n])
  }

  function AppliedLevel(fs: seq<FileMeta>, e: Edit, level: nat): seq<FileMeta> {
    var r := Survivors(fs, GoneNums(e.deleted)) + Arrivals(e.newFiles, level);
    if level == 0 then r else SortFiles(r)
  }

  function Applied(v: Levels, e: Edit): Levels {
    seq(NUM_LEVELS, level requires 0 <= level < NUM_LEVELS => AppliedLevel(v[level], e, level))
  }

  /** The levels that the version's array has; another one panics. */
  predicate LevelsExist(e: Edit) {
    forall i :: 0 <= i < |e.newFiles| ==> 0 <= e.newFiles[i].level < NUM_LEVELS
  }

  method Filter(fs: seq<FileMeta>, gone: set<nat>) returns (filtered: seq<FileMeta>)
    ensures filtered == Survivors(fs, gone)
  {
    filtered := [];
    for i := 0 to |fs|
      invariant filtered == Survivors(fs[..i], gone)
    {
      assert fs[..i + 1][..i] == fs[..i];
      if fs[i].fileNum !in gone {
        filtered := filtered + [fs[i]];
      }
    }
    assert fs[..|fs|] == fs;
  }

  /** Version.apply on a copy of the levels: filters every level, appends the new files, sorts all
      levels but the first. */
  method Apply(v: Levels, e: Edit) returns (nv: Levels)
    requires LevelsExist(e)
    ensures nv == Applied(v, e)
  {
    hide SortFiles, Survivors, GoneNums;
    nv := v;
    var deleted := GoneNums(e.deleted);
    for l := 0 to NUM_LEVELS
      invariant forall k :: 0 <= k < NUM_LEVELS ==> nv[k] == if k < l then Survivors(v[k], deleted) else v[k]
    {
      var filtered := Filter(nv[l], deleted);
      nv := nv[l := filtered];
    }
    for i := 0 to |e.newFiles|
      invariant forall k :: 0 <= k < NUM_LEVELS ==> nv[k] == Survivors(v[k], deleted) + Arrivals(e.newFiles[..i], k)
    {
      var f := e.newFiles[i];
      assert e.newFiles[..i + 1][..i] == e.newFiles[..i];
      nv := nv[f.level := nv[f.level] + [f]];
    }
    assert e.newFiles[..|e.newFiles|] == e.newFiles;
    for l := 1 to NUM_LEVELS
      invariant forall k :: 0 < k < l ==> nv[k] == AppliedLevel(v[k], e, k)
      invariant forall k :: 0 <= k < NUM_LEVELS && !(0 < k < l) ==>
        nv[k] == Survivors(v[k], deleted) + Arrivals(e.newFiles, k)
    {
      nv := nv[l := SortFiles(nv[l])];
    }
    assert nv == Applied(v, e);
  }

  lemma {:induction false} SurvivorsExactly(fs: seq<FileMeta>, gone: set<nat>)
    ensures forall f :: f in Survivors(fs, gone) <==> f in fs && f.fileNum !in gone
  {
    if fs != [] {
      var n := |fs| - 1;
      SurvivorsExactly(fs[..n], gone);
      assert fs == fs[..n] + [fs[n]];
    }
  }

  lemma {:induction false} ArrivalsExactly(fs: seq<FileMeta>, level: int)
    ensures forall f :: f in Arrivals(fs, level) <==> f in fs && f.level == level
  {
    if fs != [] {
      var n := |fs| - 1;
      ArrivalsExactly(fs[..n], level);
      assert fs == fs[..n] + [fs[n]];
    }
  }

  lemma {:induction false} SortedMembers(fs: seq<FileMeta>)
    ensures forall f :: f in SortFiles(fs) <==> f in fs
  {
    hide SortFiles;
    assert forall f :: f in SortFiles(fs) <==> f in multiset(SortFiles(fs));
    assert forall f :: f in fs <==> f in multiset(fs);
  }

  /** The live files after an edit: the old ones that are not deleted and the new ones. */
  lemma {:induction false} AppliedExactly(v: Levels, e: Edit, level: nat, f: FileMeta)
    requires level < NUM_LEVELS
    ensures f in Applied(v, e)[level] <==>
      (f in v[level] && !Gone(e.deleted, f.fileNum)) || (f in e.newFiles && f.level == level)
  {
    hide Survivors, Arrivals, SortFiles, GoneNums, Gone;
    var r := Survivors(v[level], GoneNums(e.deleted)) + Arrivals(e.newFiles, level);
    SurvivorsExactly(v[level], GoneNums(e.deleted));
    ArrivalsExactly(e.newFiles, level);
    SortedMembers(r);
  }

  // ---- disjoint levels

  /** Key ranges that do not touch, in either order. */
  predicate Apart(f: FileMeta, g: FileMeta) {
    Less(f.largest, g.smallest) || Less(g.largest, f.smallest)
  }

  ghost predicate AllApart(fs: seq<FileMeta>) {
    forall i, j :: 0 <= i < j < |fs| ==> Apart(fs[i], fs[j])
  }

  predicate RangeOk(f: FileMeta) {
    LessEq(f.smallest, f.largest)
  }

  /** Files in order of their ranges, which do not overlap. */
  ghost predicate InOrder(fs: seq<FileMeta>) {
    && (forall i :: 0 <= i < |fs| ==> RangeOk(fs[i]))
    && (forall i, j :: 0 <= i < j < |fs| ==> Less(fs[i].largest, fs[j].smallest))
  }

  lemma {:induction false} ApartBySmallest(f: FileMeta, g: FileMeta)
    requires RangeOk(f) && RangeOk(g) && Apart(f, g)
    ensures Less(f.smallest, g.smallest) <==> Less(f.largest, g.smallest)
    ensures !Less(f.smallest, g.smallest) <==> Less(g.largest, f.smallest)
  {
    hide Less;
    if Less(f.largest, g.smallest) {
      if f.smallest != f.largest {
        LessTransitive(f.smallest, f.largest, g.smallest);
      }
      LessTotal(f.smallest, g.smallest);
      LessIrreflexive(f.smallest);
      if Less(g.largest, f.smallest) {
        LessEqLess(g.smallest, g.largest, f.smallest);
        assert false;
      }
    } else {
      LessEqLess(g.smallest, g.largest, f.smallest);
      LessTotal(f.smallest, g.smallest);
    }
  }

  lemma {:induction false} InsertInOrder(fs: seq<FileMeta>, f: FileMeta)
    requires InOrder(fs) && RangeOk(f) && forall i :: 0 <= i < |fs| ==> Apart(fs[i], f)
    ensures InOrder(Insert(fs, f))
  {
    hide Less, LessEq, RangeOk;
    if fs != [] {
      var n := |fs| - 1;
      ApartBySmallest(fs[n], f);
      ApartBySmallest(f, fs[n]);
      if Less(f.smallest, fs[n].smallest) {
        InsertInOrder(fs[..n], f);
        InsertLast(fs, f);
      } else {
        forall i | 0 <= i < |fs|
          ensures Less(fs[i].largest, f.smallest)
        {
          if i < n {
            RangesChain(fs[i], fs[n], f);
          }
        }
        InOrderMore(fs, f);
      }
    }
  }

  lemma {:induction false} InOrderMore(fs: seq<FileMeta>, f: FileMeta)
    requires InOrder(fs) && RangeOk(f) && forall i :: 0 <= i < |fs| ==> Less(fs[i].largest, f.smallest)
    ensures InOrder(fs + [f])
  {
    hide Less, RangeOk;
  }

  lemma {:induction false} InsertLast(fs: seq<FileMeta>, f: FileMeta)
    requires fs != [] && InOrder(fs) && Less(f.largest, fs[|fs| - 1].smallest)
    requires InOrder(Insert(fs[..|fs| - 1], f))
    ensures InOrder(Insert(fs[..|fs| - 1], f) + [fs[|fs| - 1]])
  {
    hide Less, RangeOk, Insert;
    var n := |fs| - 1;
    var r := Insert(fs[..n], f);
    forall i | 0 <= i < |r|
      ensures Less(r[i].largest, fs[n].smallest)
    {
      assert r[i] in multiset(r);
      if r[i] != f {
        var k :| 0 <= k < n && fs[..n][k] == r[i];
      }
    }
  }

  lemma {:induction false} RangesChain(f: FileMeta, g: FileMeta, h: FileMeta)
    requires Less(f.largest, g.smallest) && RangeOk(g) && Less(g.largest, h.smallest)
    ensures Less(f.largest, h.smallest)
  {
    hide Less;
    LessEqLess(g.smallest, g.largest, h.smallest);
    LessTransitive(f.largest, g.smallest, h.smallest);
  }

  /** Sorting by smallest key puts files with separate ranges into the order of their ranges. */
  lemma {:induction false} SortInOrder(fs: seq<FileMeta>)
    requires AllApart(fs) && forall i :: 0 <= i < |fs| ==> RangeOk(fs[i])
    ensures InOrder(SortFiles(fs))
  {
    hide Apart, RangeOk, Insert;
    if fs != [] {
      var n := |fs| - 1;
      SortInOrder(fs[..n]);
      SortedMembers(fs[..n]);
      var r := SortFiles(fs[..n]);
      forall i | 0 <= i < |r|
        ensures Apart(r[i], fs[n])
      {
        assert r[i] in fs[..n];
      }
      InsertInOrder(r, fs[n]);
    }
  }

  /** That order is the only one: whatever sorting algorithm is used, the result is the same. */
  lemma {:induction false} OrderUnique(fs: seq<FileMeta>, gs: seq<FileMeta>)
    requires InOrder(fs) && multiset(fs) == multiset(gs)
    requires forall i, j :: 0 <= i < j < |gs| ==> !Less(gs[j].smallest, gs[i].smallest)
    ensures fs == gs
  {
    hide Less, RangeOk, InOrder;
    assert |fs| == |multiset(fs)| == |gs|;
    if fs != [] {
      var n := |fs| - 1;
      LastsAgree(fs, gs);
      DropLast(fs);
      DropLast(gs);
      InOrderPrefix(fs, n);
      OrderUnique(fs[..n], gs[..n]);
    }
  }

  lemma {:induction false} DropLast(fs: seq<FileMeta>)
    requires fs != []
    ensures multiset(fs[..|fs| - 1]) == multiset(fs) - multiset{fs[|fs| - 1]}
  {
    assert fs == fs[..|fs| - 1] + [fs[|fs| - 1]];
  }

  lemma {:induction false} InOrderPrefix(fs: seq<FileMeta>, n: nat)
    requires InOrder(fs) && n <= |fs|
    ensures InOrder(fs[..n])
  {
  }

  lemma {:induction false} LastsAgree(fs: seq<FileMeta>, gs: seq<FileMeta>)
    requires InOrder(fs) && multiset(fs) == multiset(gs) && |fs| == |gs| > 0
    requires forall i, j :: 0 <= i < j < |gs| ==> !Less(gs[j].smallest, gs[i].smallest)
    ensures fs[|fs| - 1] == gs[|gs| - 1]
  {
    hide Less, RangeOk, InOrder;
    var n := |fs| - 1;
    if fs[n] != gs[n] {
      assert fs[n] in multiset(gs) && gs[n] in multiset(fs);
      var i :| 0 <= i < |fs| && fs[i] == gs[n];
      var j :| 0 <= j < |gs| && gs[j] == fs[n];
      SmallestGrow(fs, i, n);
      assert false;
    }
  }

  lemma {:induction false} SmallestGrow(fs: seq<FileMeta>, i: nat, j: nat)
    requires InOrder(fs) && i < j < |fs|
    ensures Less(fs[i].smallest, fs[j].smallest)
  {
    hide Less;
    LessEqLess(fs[i].smallest, fs[i].largest, fs[j].smallest);
  }

  // ---- overlapping

  predicate Touches(f: FileMeta, smallest: bytes, largest: bytes) {
    !Less(largest, f.smallest) && !Less(f.largest, smallest)
  }

  function Touching(fs: seq<FileMeta>, smallest: bytes, largest: bytes): (r: seq<FileMeta>)
    ensures forall f :: f in r <==> f in fs && Touches(f, smallest, largest)
  {
    if fs == [] then []
    else
      var n := |fs| - 1;
      assert fs == fs[..n] + [fs[n]];
      Touching(fs[..n], smallest, largest) + if Touches(fs[n], smallest, largest) then [fs[n]] else []
  }

  /** Version.overlapping: the files of a level that meet a key range, in order. */
  method Overlapping(fs: seq<FileMeta>, smallest: bytes, largest: bytes) returns (result: seq<FileMeta>)
    ensures result == Touching(fs, smallest, largest)
  {
    hide Less;
    result := [];
    for i := 0 to |fs|
      invariant result == Touching(fs[..i], smallest, largest)
    {
      assert fs[..i + 1][..i] == fs[..i];
      var c := CompareKeys(fs[i].smallest, largest);
      var d := CompareKeys(fs[i].largest, smallest);
      if !(c > 0 || d < 0) {
        result := result + [fs[i]];
      }
    }
    assert fs[..|fs|] == fs;
  }
}
