/** Point reads in the tables of a version. The first table whose range takes in the key decides: a
    table without the key answers with kind 0, which is the kind of a deletion. */
module VersionGet {
  import opened Bytes
  import opened Binary
  import opened InternalKey
  import opened Block
  import opened Merge
  import opened Versions
  import opened Memtables
  import opened CompactionMerge
  import opened CompactionTree

  datatype MaybeValue = Nil | Value(v: bytes)

  datatype GetResult = ErrNotFound | Found(v: bytes)

  /** getFromTable: the value, if any, and a kind; a miss has the zero kind. */
  function FromTable(es: seq<Entry>, key: bytes, s: nat): (MaybeValue, byte) {
    var w := Find(es, key, s);
    if w == None then (Nil, 0)
    else if w.w.kind == KIND_DELETE then (Nil, KIND_DELETE)
    else (Value(w.w.value), KIND_SET)
  }

  /** The user key lies between the user keys of the table's range. */
  predicate InRange(f: FileMeta, key: bytes) {
    !Less(key, UserKey(f.smallest)) && !Less(UserKey(f.largest), key)
  }

  datatype MaybeFile = NoFile | File(f: FileMeta)

  function LastInRange(fs: seq<FileMeta>, key: bytes): MaybeFile {
    if fs == [] then NoFile
    else if InRange(fs[|fs| - 1], key) then File(fs[|fs| - 1])
    else LastInRange(fs[..|fs| - 1], key)
  }

  function FirstInRange(fs: seq<FileMeta>, key: bytes): MaybeFile {
    if fs == [] then NoFile
    else if InRange(fs[0], key) then File(fs[0])
    else FirstInRange(fs[1..], key)
  }

  function DeciderFrom(v: Levels, level: nat, key: bytes): MaybeFile
    requires level <= NUM_LEVELS
    decreases NUM_LEVELS - level
  {
    if level == NUM_LEVELS then NoFile
    else if FirstInRange(v[level], key).File? then FirstInRange(v[level], key)
    else DeciderFrom(v, level + 1, key)
  }

  /** The newest table of level 0 in range, else the first one of the shallowest level in range. */
  function Decider(v: Levels, key: bytes): MaybeFile {
    if LastInRange(v[0], key).File? then LastInRange(v[0], key) else DeciderFrom(v, 1, key)
  }

  /** What the deciding table says: a set version, or anything else. */
  function Answer(v: Levels, disk: Disk, key: bytes, s: nat): GetResult {
    var d := Decider(v, key);
    if d == NoFile || d.f.fileNum !in disk then ErrNotFound else Says(disk[d.f.fileNum], key, s)
  }

  function Says(es: seq<Entry>, key: bytes, s: nat): GetResult {
    var w := Find(es, key, s);
    if w.Some? && w.w.kind != KIND_DELETE then Found(w.w.value) else ErrNotFound
  }

  // ---- which table that is

  /** The last of these files whose range takes in the key is at index i. */
  predicate LastAt(fs: seq<FileMeta>, key: bytes, i: nat) {
    i < |fs| && InRange(fs[i], key) && forall j :: i < j < |fs| ==> !InRange(fs[j], key)
  }

  /** The first one is. */
  predicate FirstAt(fs: seq<FileMeta>, key: bytes, i: nat) {
    i < |fs| && InRange(fs[i], key) && forall j :: 0 <= j < i ==> !InRange(fs[j], key)
  }

  predicate NoneAround(fs: seq<FileMeta>, key: bytes) {
    forall i :: 0 <= i < |fs| ==> !InRange(fs[i], key)
  }

  /** Nothing is in range above this level. */
  predicate NoneAbove(v: Levels, level: nat, key: bytes)
    requires level <= NUM_LEVELS
  {
    forall l :: 0 <= l < level ==> NoneAround(v[l], key)
  }

  /** The answer of the table of f. */
  function TableSays(disk: Disk, f: FileMeta, key: bytes, s: nat): GetResult {
    if f.fileNum in disk then Says(disk[f.fileNum], key, s) else ErrNotFound
  }

  /** The newest table of level 0 in range answers; if there is none, the first one in range of the
      shallowest level that has one; if no level has, the key is not found. */
  ghost predicate AnswerOf(v: Levels, disk: Disk, key: bytes, s: nat, r: GetResult) {
    && (forall i: nat :: LastAt(v[0], key, i) ==> r == TableSays(disk, v[0][i], key, s))
    && (forall l: nat, i: nat :: 0 < l < NUM_LEVELS && NoneAbove(v, l, key) && FirstAt(v[l], key, i) ==>
          r == TableSays(disk, v[l][i], key, s))
    && (NoneAbove(v, NUM_LEVELS, key) ==> r == ErrNotFound)
  }

  lemma {:induction false} LastAtFound(fs: seq<FileMeta>, key: bytes, i: nat)
    requires LastAt(fs, key, i)
    ensures LastInRange(fs, key) == File(fs[i])
  {
    hide InRange;
    if i < |fs| - 1 {
      LastAtFound(fs[..|fs| - 1], key, i);
    }
  }

  lemma {:induction false} FirstAtFound(fs: seq<FileMeta>, key: bytes, i: nat)
    requires FirstAt(fs, key, i)
    ensures FirstInRange(fs, key) == File(fs[i])
  {
    hide InRange;
    if i > 0 {
      FirstAtFound(fs[1..], key, i - 1);
    }
  }

  lemma {:induction false} NoneFound(fs: seq<FileMeta>, key: bytes)
    requires NoneAround(fs, key)
    ensures FirstInRange(fs, key) == NoFile && LastInRange(fs, key) == NoFile
  {
    hide InRange;
    if fs != [] {
      NoneFound(fs[1..], key);
      NoneFound(fs[..|fs| - 1], key);
    }
  }

  /** Levels with nothing in range are passed. */
  lemma {:induction false} DeciderBelow(v: Levels, from: nat, level: nat, key: bytes)
    requires from <= level <= NUM_LEVELS && NoneAbove(v, level, key)
    ensures DeciderFrom(v, from, key) == DeciderFrom(v, level, key)
    decreases level - from
  {
    hide NoneAround, FirstInRange, LastInRange;
    if from < level {
      NoneFound(v[from], key);
      DeciderBelow(v, from + 1, level, key);
    }
  }

  lemma {:induction false} AnswerIs(v: Levels, disk: Disk, key: bytes, s: nat)
    ensures AnswerOf(v, disk, key, s, Answer(v, disk, key, s))
  {
    hide InRange, LastInRange, FirstInRange, NoneAround, DeciderFrom, Says;
    forall i: nat | LastAt(v[0], key, i)
      ensures Decider(v, key) == File(v[0][i])
    {
      LastAtFound(v[0], key, i);
    }
    forall l: nat | 0 < l <= NUM_LEVELS && NoneAbove(v, l, key)
      ensures Decider(v, key) == DeciderFrom(v, l, key)
    {
      NoneFound(v[0], key);
      DeciderBelow(v, 1, l, key);
    }
    forall l: nat, i: nat | 0 < l < NUM_LEVELS && FirstAt(v[l], key, i)
      ensures DeciderFrom(v, l, key) == File(v[l][i])
    {
      FirstAtFound(v[l], key, i);
      DecidedHere(v, l, key);
    }
    NoDecider(v, key);
  }

  /** Of two tables of level 0 in range the later one answers, or one that is later still. */
  lemma {:induction false} LaterAnswers(v: Levels, disk: Disk, key: bytes, s: nat, i: nat, j: nat) returns (k: nat)
    requires i < j < |v[0]| && InRange(v[0][i], key) && InRange(v[0][j], key)
    ensures j <= k < |v[0]| && InRange(v[0][k], key) && Answer(v, disk, key, s) == TableSays(disk, v[0][k], key, s)
    ensures j == |v[0]| - 1 ==> k == j
  {
    hide InRange, Answer;
    AnswerIs(v, disk, key, s);
    k := LastFrom(v[0], key, j);
  }

  lemma {:induction false} LastFrom(fs: seq<FileMeta>, key: bytes, j: nat) returns (k: nat)
    requires j < |fs| && InRange(fs[j], key)
    ensures j <= k && LastAt(fs, key, k)
    decreases |fs| - j
  {
    hide InRange;
    k := j;
    if !LastAt(fs, key, j) {
      var i :| j < i < |fs| && InRange(fs[i], key);
      k := LastFrom(fs, key, i);
    }
  }

  // ---- order of user keys

  /** Along a level, user keys do not decrease. */
  ghost predicate UserOrder(fs: seq<FileMeta>) {
    && (forall i :: 0 <= i < |fs| ==> !Less(UserKey(fs[i].largest), UserKey(fs[i].smallest)))
    && (forall i, j :: 0 <= i < j < |fs| ==> !Less(UserKey(fs[j].smallest), UserKey(fs[i].largest)))
  }

  /** Bounds of a level whose user keys are not proper prefixes of each other. */
  ghost predicate PrefixFree(fs: seq<FileMeta>) {
    && (forall i :: 0 <= i < |fs| ==> |fs[i].smallest| >= TRAILER_SIZE && |fs[i].largest| >= TRAILER_SIZE)
    && (forall i, j :: 0 <= i < |fs| && 0 <= j < |fs| ==> Unrelated(UserKey(fs[i].largest), UserKey(fs[j].smallest)))
  }

  lemma {:induction false} UserKeysFollow(a: bytes, b: bytes)
    requires |a| >= TRAILER_SIZE && |b| >= TRAILER_SIZE && Unrelated(UserKey(a), UserKey(b)) && LessEq(a, b)
    ensures !Less(UserKey(b), UserKey(a))
  {
    hide Less;
    var u, v := UserKey(a), UserKey(b);
    LessTotal(u, v);
    LessIrreflexive(u);
    LessIrreflexive(a);
    LessTotal(a, b);
    if u != v && Less(v, u) {
      assert a == u + a[|u|..] && b == v + b[|v|..];
      UnrelatedExtensions(v, u, b[|v|..], a[|u|..]);
    }
  }

  /** Disjoint internal key ranges give ordered user keys when no user key is a prefix of another. */
  lemma {:induction false} InOrderUserOrder(fs: seq<FileMeta>)
    requires InOrder(fs) && PrefixFree(fs)
    ensures UserOrder(fs)
  {
    hide Less, UserKey, Unrelated;
    forall i | 0 <= i < |fs|
      ensures !Less(UserKey(fs[i].largest), UserKey(fs[i].smallest))
    {
      UnrelatedSymmetric(UserKey(fs[i].largest), UserKey(fs[i].smallest));
      UserKeysFollow(fs[i].smallest, fs[i].largest);
    }
    forall i, j | 0 <= i < j < |fs|
      ensures !Less(UserKey(fs[j].smallest), UserKey(fs[i].largest))
    {
      UserKeysFollow(fs[i].largest, fs[j].smallest);
    }
  }

  lemma {:induction false} UnrelatedSymmetric(a: bytes, b: bytes)
    requires Unrelated(a, b)
    ensures Unrelated(b, a)
  {
  }

  lemma {:induction false} NotLessTransitive(a: bytes, b: bytes, c: bytes)
    requires !Less(b, a) && !Less(c, b)
    ensures !Less(c, a)
  {
    hide Less;
    LessTotal(a, b);
    LessTotal(b, c);
    if Less(c, a) && Less(a, b) {
      LessTransitive(c, a, b);
    }
  }

  lemma {:induction false} LargestOrder(fs: seq<FileMeta>, i: nat, j: nat)
    requires UserOrder(fs) && i <= j < |fs|
    ensures !Less(UserKey(fs[j].largest), UserKey(fs[i].largest))
  {
    hide Less, UserKey;
    if i == j {
      LessIrreflexive(UserKey(fs[i].largest));
    } else {
      NotLessTransitive(UserKey(fs[i].largest), UserKey(fs[j].smallest), UserKey(fs[j].largest));
    }
  }

  /** sort.Search for the first file whose largest user key is not below the key. */
  method SearchFiles(fs: seq<FileMeta>, key: bytes) returns (idx: nat)
    requires UserOrder(fs)
    ensures idx <= |fs|
    ensures forall i :: 0 <= i < idx ==> Less(UserKey(fs[i].largest), key)
    ensures forall i :: idx <= i < |fs| ==> !Less(UserKey(fs[i].largest), key)
  {
    hide Less, UserKey, UserOrder;
    idx := 0;
    var j := |fs|;
    while idx < j
      invariant 0 <= idx <= j <= |fs|
      invariant forall i :: 0 <= i < idx ==> Less(UserKey(fs[i].largest), key)
      invariant forall i :: j <= i < |fs| ==> !Less(UserKey(fs[i].largest), key)
    {
      var h := (idx + j) / 2;
      var c := CompareKeys(UserKey(fs[h].largest), key);
      if !(c >= 0) {
        BelowHalf(fs, h, key);
        idx := h + 1;
      } else {
        AboveHalf(fs, h, key);
        j := h;
      }
    }
  }

  lemma {:induction false} BelowHalf(fs: seq<FileMeta>, h: nat, key: bytes)
    requires UserOrder(fs) && h < |fs| && Less(UserKey(fs[h].largest), key)
    ensures forall i :: 0 <= i <= h ==> Less(UserKey(fs[i].largest), key)
  {
    hide Less, UserKey, UserOrder;
    forall i | 0 <= i <= h
      ensures Less(UserKey(fs[i].largest), key)
    {
      LargestOrder(fs, i, h);
      if !Less(UserKey(fs[i].largest), key) {
        NotLessTransitive(key, UserKey(fs[i].largest), UserKey(fs[h].largest));
      }
    }
  }

  lemma {:induction false} AboveHalf(fs: seq<FileMeta>, h: nat, key: bytes)
    requires UserOrder(fs) && h < |fs| && !Less(UserKey(fs[h].largest), key)
    ensures forall i :: h <= i < |fs| ==> !Less(UserKey(fs[i].largest), key)
  {
    hide Less, UserKey, UserOrder;
    forall i | h <= i < |fs|
      ensures !Less(UserKey(fs[i].largest), key)
    {
      LargestOrder(fs, h, i);
      NotLessTransitive(key, UserKey(fs[h].largest), UserKey(fs[i].largest));
    }
  }

  /** The search finds the first file in range, if there is one. */
  lemma {:induction false} SearchedIsFirst(fs: seq<FileMeta>, key: bytes, idx: nat)
    requires UserOrder(fs) && idx <= |fs|
    requires forall i :: 0 <= i < idx ==> Less(UserKey(fs[i].largest), key)
    requires forall i :: idx <= i < |fs| ==> !Less(UserKey(fs[i].largest), key)
    ensures FirstInRange(fs, key) ==
      if idx < |fs| && !Less(key, UserKey(fs[idx].smallest)) then File(fs[idx]) else NoFile
    decreases |fs|
  {
    hide Less, UserKey;
    if fs != [] {
      if idx == 0 {
        if Less(key, UserKey(fs[0].smallest)) {
          NoneInRange(fs, key);
        }
      } else {
        SearchedIsFirst(fs[1..], key, idx - 1);
      }
    }
  }

  lemma {:induction false} NoneInRange(fs: seq<FileMeta>, key: bytes)
    requires UserOrder(fs) && fs != [] && Less(key, UserKey(fs[0].smallest))
    ensures FirstInRange(fs, key) == NoFile
    decreases |fs|
  {
    hide Less, UserKey;
    if |fs| > 1 {
      var a, b, c := UserKey(fs[0].smallest), UserKey(fs[0].largest), UserKey(fs[1].smallest);
      NotLessTransitive(a, b, c);
      if !Less(key, c) {
        NotLessTransitive(a, c, key);
      }
      NoneInRange(fs[1..], key);
    }
  }

  /** The files' tables are there. */
  ghost predicate OnDisk(v: Levels, disk: Disk) {
    forall l, f :: 0 <= l < NUM_LEVELS && f in v[l] ==> f.fileNum in disk
  }

  lemma {:induction false} NotSkipped(v: Levels, level: nat, key: bytes)
    requires level < NUM_LEVELS && FirstInRange(v[level], key) == NoFile
    ensures DeciderFrom(v, level, key) == DeciderFrom(v, level + 1, key)
  {
  }

  /** getFromVersion: the first table in range answers, whether or not it holds the key. */
  method GetFromVersion(v: Levels, disk: Disk, key: bytes, s: nat) returns (r: GetResult)
    requires OnDisk(v, disk) && forall l :: 0 < l < NUM_LEVELS ==> UserOrder(v[l])
    ensures r == Answer(v, disk, key, s) && AnswerOf(v, disk, key, s, r)
  {
    hide Less, UserKey, UserOrder, Find, DeciderFrom, AnswerOf;
    AnswerIs(v, disk, key, s);
    var i := |v[0]|;
    assert v[0][..i] == v[0];
    while i > 0
      invariant 0 <= i <= |v[0]| && LastInRange(v[0], key) == LastInRange(v[0][..i], key)
    {
      i := i - 1;
      var f := v[0][i];
      assert v[0][..i + 1][..i] == v[0][..i];
      var c := CompareKeys(key, UserKey(f.smallest));
      var d := CompareKeys(key, UserKey(f.largest));
      if c < 0 || d > 0 {
        continue;
      }
      assert f in v[0];
      var x := FromTable(disk[f.fileNum], key, s);
      if x.1 == KIND_DELETE {
        return ErrNotFound;
      }
      if x.0 != Nil {
        return Found(x.0.v);
      }
    }
    for level := 1 to NUM_LEVELS
      invariant LastInRange(v[0], key) == NoFile && Decider(v, key) == DeciderFrom(v, level, key)
    {
      var fs := v[level];
      if |fs| == 0 {
        NotSkipped(v, level, key);
        continue;
      }
      var idx := SearchFiles(fs, key);
      SearchedIsFirst(fs, key, idx);
      if idx >= |fs| {
        NotSkipped(v, level, key);
        continue;
      }
      var f := fs[idx];
      var c := CompareKeys(key, UserKey(f.smallest));
      if c < 0 {
        NotSkipped(v, level, key);
        continue;
      }
      DecidedHere(v, level, key);
      assert f in v[level];
      var x := FromTable(disk[f.fileNum], key, s);
      if x.1 == KIND_DELETE {
        return ErrNotFound;
      }
      if x.0 != Nil {
        return Found(x.0.v);
      }
    }
    NoDecider(v, key);
    return ErrNotFound;
  }

  lemma {:induction false} DecidedHere(v: Levels, level: nat, key: bytes)
    requires level < NUM_LEVELS && FirstInRange(v[level], key).File?
    ensures DeciderFrom(v, level, key) == FirstInRange(v[level], key)
  {
  }

  lemma {:induction false} NoDecider(v: Levels, key: bytes)
    ensures DeciderFrom(v, NUM_LEVELS, key) == NoFile
  {
  }

  // ---- right and wrong answers

  /** Versions of the key among these entries: internal keys, other user keys are not prefixes of it
      nor it of them, and a number names one version. */
  ghost predicate Plain(es: seq<Entry>, key: bytes) {
    && Sorted(es)
    && (forall e :: e in es ==> |e.key| >= TRAILER_SIZE && Kind(e.key) <= KIND_SET && Unrelated(UserKey(e.key), key))
    && (forall d, e :: d in es && e in es && UserKey(d.key) == key && UserKey(e.key) == key && Seq(d.key) == Seq(e.key) ==> d == e)
  }

  /** The same for the entries of all live tables. */
  ghost predicate PlainTree(t: Tree, key: bytes) {
    && FilesOk(t)
    && (forall e :: Has(t, e) ==> |e.key| >= TRAILER_SIZE && Kind(e.key) <= KIND_SET && Unrelated(UserKey(e.key), key))
    && (forall d, e :: Has(t, d) && Has(t, e) && UserKey(d.key) == key && UserKey(e.key) == key && Seq(d.key) == Seq(e.key)
          ==> d == e)
  }

  predicate VersionUpTo(e: Entry, key: bytes, s: nat) {
    UserKey(e.key) == key && Seq(e.key) <= s
  }

  /** The newest version of a key up to a sequence number among the live tables. */
  ghost predicate Newest(t: Tree, key: bytes, s: nat, w: Write) {
    && w.key == key && w.seqNum <= s && Has(t, EntryOf(w))
    && forall e :: Has(t, e) && VersionUpTo(e, key, s) ==> Seq(e.key) <= w.seqNum
  }

  /** The same in one table. */
  ghost predicate NewestIn(es: seq<Entry>, key: bytes, s: nat, e: Entry) {
    && e in es && VersionUpTo(e, key, s)
    && forall d :: d in es && VersionUpTo(d, key, s) ==> Seq(d.key) <= Seq(e.key)
  }

  /** Where a seek for (key, s) stops, relative to the versions of the key. */
  lemma {:induction false} StopsBefore(a: bytes, key: bytes, s: nat)
    requires |a| >= TRAILER_SIZE && Kind(a) <= KIND_SET && Unrelated(UserKey(a), key) && s <= MAX_SEQ
    ensures Less(a, Make(key, s, KIND_SET)) <==> Less(UserKey(a), key) || (UserKey(a) == key && Seq(a) > s)
  {
    hide Less, Make, Unrelated;
    MakeOfParse(a);
    var p := Parse(a);
    InternalOrder(p.userKey, p.seqNum, p.kind, key, s, KIND_SET);
  }

  /** Of two keys of which one is a version of the key, the order. */
  lemma {:induction false} VersionAfter(a: bytes, b: bytes, key: bytes)
    requires |a| >= TRAILER_SIZE && |b| >= TRAILER_SIZE && UserKey(b) == key && Unrelated(UserKey(a), key) && Less(a, b)
    ensures Less(UserKey(a), key) || (UserKey(a) == key && Seq(a) >= Seq(b))
  {
    hide Less, Make, Unrelated;
    MakeOfParse(a);
    MakeOfParse(b);
    var p, q := Parse(a), Parse(b);
    InternalOrder(p.userKey, p.seqNum, p.kind, q.userKey, q.seqNum, q.kind);
  }

  /** Searching a table finds its newest version up to s, and nothing exactly when it has none. */
  lemma {:induction false} FindIsNewest(es: seq<Entry>, key: bytes, s: nat)
    requires Plain(es, key) && s <= MAX_SEQ
    ensures Find(es, key, s) == None <==> forall e :: e in es ==> !VersionUpTo(e, key, s)
    ensures forall e :: NewestIn(es, key, s, e) ==> Find(es, key, s) == Some(Write(key, Seq(e.key), Kind(e.key), e.value))
  {
    hide Less, Make, UserKey, Seq, Kind, Unrelated;
    var p := SeekPos(es, Make(key, s, KIND_SET));
    LessIrreflexive(key);
    if p < |es| {
      assert es[p] in es;
      StopsBefore(es[p].key, key, s);
    }
    forall e | e in es && VersionUpTo(e, key, s)
      ensures p < |es| && UserKey(es[p].key) == key && Seq(es[p].key) <= s && Seq(es[p].key) >= Seq(e.key)
    {
      LandsBefore(es, key, s, p, e);
    }
  }

  lemma {:induction false} LandsBefore(es: seq<Entry>, key: bytes, s: nat, p: nat, e: Entry)
    requires Plain(es, key) && s <= MAX_SEQ && p == SeekPos(es, Make(key, s, KIND_SET)) && e in es && VersionUpTo(e, key, s)
    ensures p < |es| && UserKey(es[p].key) == key && Seq(es[p].key) <= s && Seq(es[p].key) >= Seq(e.key)
  {
    hide Less, Make, UserKey, Seq, Kind, Unrelated;
    var q :| 0 <= q < |es| && es[q] == e;
    LessIrreflexive(key);
    StopsBefore(e.key, key, s);
    assert p <= q;
    assert es[p] in es;
    StopsBefore(es[p].key, key, s);
    if p < q {
      VersionAfter(es[p].key, e.key, key);
    }
  }

  /** A live version of the key lies in the range of its table, so some table decides. */
  lemma {:induction false} DeciderExists(t: Tree, w: Write)
    requires PlainTree(t, w.key) && Has(t, EntryOf(w)) && w.seqNum <= MAX_SEQ
    ensures var d := Decider(t.v, w.key);
      d.File? && d.f.fileNum in t.disk && Plain(t.disk[d.f.fileNum], w.key)
      && exists l :: 0 <= l < NUM_LEVELS && d.f in t.v[l]
  {
    hide Less, UserKey, Seq, Kind, Unrelated, EntryOf, InRange, MetaOf;
    var l, f :| 0 <= l < NUM_LEVELS && f in t.v[l] && f.fileNum in t.disk && EntryOf(w) in t.disk[f.fileNum];
    assert FileOk(t, l, f);
    VersionInRange(t, l, f, w);
    if l == 0 {
      LastFound(t.v[0], f, w.key);
    } else {
      FirstFound(t.v[l], f, w.key);
      ShallowestFound(t.v, 1, l, w.key);
    }
    var d := Decider(t.v, w.key);
    assert d.File? by { DeciderFile(t.v, l, w.key); }
    DeciderLive(t.v, w.key);
    var k :| 0 <= k < NUM_LEVELS && d.f in t.v[k];
    assert FileOk(t, k, d.f);
    TablePlain(t, k, d.f, w.key);
  }

  lemma {:induction false} DeciderFile(v: Levels, l: nat, key: bytes)
    requires l < NUM_LEVELS
    requires if l == 0 then LastInRange(v[0], key).File? else DeciderFrom(v, 1, key).File?
    ensures Decider(v, key).File?
  {
  }

  lemma {:induction false} TablePlain(t: Tree, l: nat, f: FileMeta, key: bytes)
    requires PlainTree(t, key) && l < NUM_LEVELS && f in t.v[l]
    ensures f.fileNum in t.disk && Plain(t.disk[f.fileNum], key)
  {
    hide Less, UserKey, Seq, Kind, Unrelated;
    assert FileOk(t, l, f);
    assert forall e :: e in t.disk[f.fileNum] ==> Has(t, e);
  }

  lemma {:induction false} VersionInRange(t: Tree, l: nat, f: FileMeta, w: Write)
    requires PlainTree(t, w.key) && l < NUM_LEVELS && f in t.v[l] && f.fileNum in t.disk && EntryOf(w) in t.disk[f.fileNum]
    requires w.seqNum <= MAX_SEQ
    ensures InRange(f, w.key)
  {
    hide Less, UserKey, Seq, Kind, Unrelated, EntryOf;
    assert FileOk(t, l, f);
    var es := t.disk[f.fileNum];
    ParseEntry(w);
    EntryLength(w);
    var j :| 0 <= j < |es| && es[j] == EntryOf(w);
    assert Has(t, es[0]) && Has(t, es[|es| - 1]);
    UnrelatedSymmetric(UserKey(f.smallest), w.key);
    UnrelatedSymmetric(UserKey(f.largest), w.key);
    UserKeysFollow(f.smallest, EntryOf(w).key);
    UserKeysFollow(EntryOf(w).key, f.largest);
  }

  lemma {:induction false} EntryLength(w: Write)
    ensures |EntryOf(w).key| >= TRAILER_SIZE
  {
  }

  lemma {:induction false} LastFound(fs: seq<FileMeta>, f: FileMeta, key: bytes)
    requires f in fs && InRange(f, key)
    ensures LastInRange(fs, key).File?
  {
    hide InRange;
    if fs[|fs| - 1] != f {
      LastFound(fs[..|fs| - 1], f, key);
    }
  }

  lemma {:induction false} FirstFound(fs: seq<FileMeta>, f: FileMeta, key: bytes)
    requires f in fs && InRange(f, key)
    ensures FirstInRange(fs, key).File?
  {
    hide InRange;
    if fs[0] != f {
      FirstFound(fs[1..], f, key);
    }
  }

  lemma {:induction false} ShallowestFound(v: Levels, level: nat, l: nat, key: bytes)
    requires level <= l < NUM_LEVELS && FirstInRange(v[l], key).File?
    ensures DeciderFrom(v, level, key).File?
    decreases l - level
  {
    hide FirstInRange;
    if level < l {
      ShallowestFound(v, level + 1, l, key);
    }
  }

  lemma {:induction false} DeciderLive(v: Levels, key: bytes)
    ensures Decider(v, key).File? ==> exists l :: 0 <= l < NUM_LEVELS && Decider(v, key).f in v[l]
  {
    LastIn(v[0], key);
    DeciderFromLive(v, 1, key);
  }

  lemma {:induction false} LastIn(fs: seq<FileMeta>, key: bytes)
    ensures LastInRange(fs, key).File? ==> LastInRange(fs, key).f in fs
  {
    hide InRange;
    if fs != [] {
      LastIn(fs[..|fs| - 1], key);
    }
  }

  lemma {:induction false} FirstIn(fs: seq<FileMeta>, key: bytes)
    ensures FirstInRange(fs, key).File? ==> FirstInRange(fs, key).f in fs
  {
    hide InRange;
    if fs != [] {
      FirstIn(fs[1..], key);
    }
  }

  lemma {:induction false} DeciderFromLive(v: Levels, level: nat, key: bytes)
    requires level <= NUM_LEVELS
    ensures DeciderFrom(v, level, key).File? ==> exists l :: 0 <= l < NUM_LEVELS && DeciderFrom(v, level, key).f in v[l]
    decreases NUM_LEVELS - level
  {
    hide FirstInRange;
    if level < NUM_LEVELS {
      FirstIn(v[level], key);
      DeciderFromLive(v, level + 1, key);
    }
  }

  /** What a read of the newest version w has to answer. */
  function Right(w: Write): GetResult {
    if w.kind == KIND_DELETE then ErrNotFound else Found(w.value)
  }

  /** The table that decides has w; or its newest version up to s is not w, or it has none, but says
      the same: w is a deletion and that one, if any, is too, or both are sets of one value. */
  ghost predicate SaysTheSame(es: seq<Entry>, w: Write, s: nat) {
    || EntryOf(w) in es
    || (w.kind == KIND_DELETE && forall e :: NewestIn(es, w.key, s, e) ==> Kind(e.key) == KIND_DELETE)
    || (w.kind == KIND_SET && exists e :: NewestIn(es, w.key, s, e) && Kind(e.key) == KIND_SET && e.value == w.value)
  }

  /** A live version has a deciding table, and a read answers from the newest version if and only if
      that table has it or says the same without it. Without a version of the key up to s in that
      table the answer is "not found". */
  lemma {:induction false} ReadRightIff(t: Tree, s: nat, w: Write)
    requires PlainTree(t, w.key) && Newest(t, w.key, s, w) && s <= MAX_SEQ && w.kind <= KIND_SET
    ensures Decider(t.v, w.key).File? && Decider(t.v, w.key).f.fileNum in t.disk
    ensures var es := t.disk[Decider(t.v, w.key).f.fileNum];
      && (Answer(t.v, t.disk, w.key, s) == Right(w) <==> SaysTheSame(es, w, s))
      && ((forall e :: e in es ==> !VersionUpTo(e, w.key, s)) ==> Answer(t.v, t.disk, w.key, s) == ErrNotFound)
  {
    hide Less, Make, UserKey, Seq, Kind, Unrelated, Decider, Find, EntryOf, Plain, NewestIn, SaysTheSame;
    DeciderExists(t, w);
    var d := Decider(t.v, w.key).f;
    var es := t.disk[d.fileNum];
    FindIsNewest(es, w.key, s);
    if EntryOf(w) in es {
      NewestThere(t, s, w, es);
    }
    SaysIff(es, w, s);
  }

  lemma {:induction false} NewestThere(t: Tree, s: nat, w: Write, es: seq<Entry>)
    requires Newest(t, w.key, s, w) && s <= MAX_SEQ && EntryOf(w) in es
    requires exists l, f :: 0 <= l < NUM_LEVELS && f in t.v[l] && f.fileNum in t.disk && t.disk[f.fileNum] == es
    ensures NewestIn(es, w.key, s, EntryOf(w))
  {
    hide Less, Make, UserKey, Seq, Kind, Unrelated, EntryOf;
    ParseEntry(w);
    assert forall e :: e in es ==> Has(t, e);
  }

  /** What the table says, against what it should say. */
  lemma {:induction false} SaysIff(es: seq<Entry>, w: Write, s: nat)
    requires Plain(es, w.key) && w.seqNum <= s <= MAX_SEQ && w.kind <= KIND_SET
    requires EntryOf(w) in es ==> NewestIn(es, w.key, s, EntryOf(w))
    ensures Says(es, w.key, s) == Right(w) <==> SaysTheSame(es, w, s)
  {
    hide Less, Make, UserKey, Seq, Kind, Unrelated, Find, EntryOf, Plain, NewestIn;
    ParseEntry(w);
    EntryValue(w);
    FindIsNewest(es, w.key, s);
    if Find(es, w.key, s).Some? {
      var e := SomeNewest(es, w.key, s);
    } else {
      NoNewest(es, w.key, s);
    }
  }

  lemma {:induction false} EntryValue(w: Write)
    ensures EntryOf(w).value == w.value
  {
  }

  lemma {:induction false} NoNewest(es: seq<Entry>, key: bytes, s: nat)
    requires forall e :: e in es ==> !VersionUpTo(e, key, s)
    ensures forall e :: !NewestIn(es, key, s, e)
  {
  }

  /** If a table has versions up to s, it has a newest one. */
  lemma {:induction false} SomeNewest(es: seq<Entry>, key: bytes, s: nat) returns (e: Entry)
    requires Plain(es, key) && s <= MAX_SEQ && Find(es, key, s).Some?
    ensures NewestIn(es, key, s, e) && Kind(e.key) <= KIND_SET
  {
    hide Less, Make, UserKey, Seq, Kind, Unrelated;
    var p := SeekPos(es, Make(key, s, KIND_SET));
    e := es[p];
    LessIrreflexive(key);
    StopsBefore(e.key, key, s);
    forall d | d in es && VersionUpTo(d, key, s)
      ensures Seq(d.key) <= Seq(e.key)
    {
      LandsBefore(es, key, s, p, d);
    }
  }

  /** A newer table of level 0 around the key, without the key, hides an older table that has it: the
      read finds nothing although the version is live. */
  lemma {:induction false} OlderTableHidden() returns (t: Tree, w: Write)
    ensures TreeOk(t) && Newest(t, w.key, 3, w) && w.kind == KIND_SET
    ensures Answer(t.v, t.disk, w.key, 3) == ErrNotFound
  {
    hide Less, EntryOf, Make, UserKey, Seq, Kind, TreeOk, Newest;
    w := Write([98], 1, KIND_SET, [7]);
    var a, c := Write([97], 2, KIND_SET, []), Write([99], 3, KIND_SET, []);
    var older, newer := [EntryOf(w)], [EntryOf(a), EntryOf(c)];
    var f := FileMeta(1, 0, 0, older[0].key, older[0].key);
    var g := FileMeta(2, 0, 0, newer[0].key, newer[1].key);
    var v := EMPTY[0 := [f, g]];
    t := Tree(v, map[1 := older, 2 := newer], 3);
    ThreeKeys(a, w, c);
    TwoTables(t, f, g, older, newer);
    FindMisses(newer, w.key);
    FindsOwn(w);
    ParseEntry(w);
    NewestInOlder(t, f, g, w, a, c);
    assert [f, g][..1] == [f];
    assert LastInRange(v[0], w.key) == File(g);
  }

  lemma {:induction false} ThreeKeys(a: Write, w: Write, c: Write)
    requires a.key == [97] && w.key == [98] && c.key == [99]
    requires a.seqNum <= 3 && w.seqNum <= 3 && c.seqNum <= 3 && a.kind <= KIND_SET && w.kind <= KIND_SET && c.kind <= KIND_SET
    ensures Less(EntryOf(a).key, EntryOf(c).key) && UserKey(EntryOf(a).key) == [97] && UserKey(EntryOf(c).key) == [99]
    ensures Less(EntryOf(a).key, Make([98], 3, KIND_SET)) && !Less(EntryOf(c).key, Make([98], 3, KIND_SET))
    ensures !Less([98], [97]) && !Less([99], [98])
    ensures EntryOf(a).key != [] && EntryOf(c).key != [] && EntryOf(w).key != []
  {
    hide Make, UserKey, Seq, Kind;
    ParseEntry(a);
    ParseEntry(c);
    LessAt([97], [98], 0);
    LessAt([98], [99], 0);
    LessAt([97], [99], 0);
    LessTotal([97], [98]);
    LessTotal([98], [99]);
    InternalOrder([97], a.seqNum, a.kind, [99], c.seqNum, c.kind);
    InternalOrder([97], a.seqNum, a.kind, [98], 3, KIND_SET);
    InternalOrder([99], c.seqNum, c.kind, [98], 3, KIND_SET);
  }

  lemma {:induction false} TwoTables(t: Tree, f: FileMeta, g: FileMeta, older: seq<Entry>, newer: seq<Entry>)
    requires t == Tree(EMPTY[0 := [f, g]], map[1 := older, 2 := newer], 3)
    requires |older| == 1 && f == FileMeta(1, 0, 0, older[0].key, older[0].key) && older[0].key != []
    requires |newer| == 2 && g == FileMeta(2, 0, 0, newer[0].key, newer[1].key) && newer[0].key != []
    requires Less(newer[0].key, newer[1].key)
    ensures TreeOk(t)
  {
    hide Less;
    assert MetaOf(f, older) && MetaOf(g, newer);
  }

  lemma {:induction false} FindMisses(es: seq<Entry>, key: bytes)
    requires |es| == 2 && Less(es[0].key, Make(key, 3, KIND_SET)) && !Less(es[1].key, Make(key, 3, KIND_SET))
    requires UserKey(es[1].key) != key
    ensures Find(es, key, 3) == None
  {
    hide Less, UserKey, Make;
    assert SeekPos(es, Make(key, 3, KIND_SET)) == 1;
  }

  lemma {:induction false} FindsOwn(w: Write)
    requires w.seqNum <= 3 && w.kind <= KIND_SET
    ensures Find([EntryOf(w)], w.key, 3) == Some(w)
  {
    hide Less, Make, UserKey, Seq, Kind;
    ParseEntry(w);
    SeekPasses(w, w.key, 3);
    LessIrreflexive(w.key);
    assert SeekPos([EntryOf(w)], Make(w.key, 3, KIND_SET)) == 0;
  }

  lemma {:induction false} NewestInOlder(t: Tree, f: FileMeta, g: FileMeta, w: Write, a: Write, c: Write)
    requires t.v == EMPTY[0 := [f, g]] && f.fileNum == 1 && g.fileNum == 2 && w.seqNum <= 3
    requires 1 in t.disk && 2 in t.disk && t.disk[1] == [EntryOf(w)] && t.disk[2] == [EntryOf(a), EntryOf(c)]
    requires UserKey(EntryOf(a).key) != w.key && UserKey(EntryOf(c).key) != w.key && Seq(EntryOf(w).key) == w.seqNum
    ensures Newest(t, w.key, 3, w)
  {
    hide EntryOf, UserKey, Seq;
    assert f in t.v[0] && EntryOf(w) in t.disk[f.fileNum];
  }
}
