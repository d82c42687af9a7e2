/** The user-visible scan: newest version of every user key, without the deleted ones. */
module DBIterators {
  import opened Bytes
  import opened Binary
  import opened InternalKey
  import opened Block
  import opened Merge
  import opened Visibility
  import opened KeyBuffers

  // ---- what the iterator does, as functions of the sources

  datatype Found = Nothing | Found(e: Entry, rest: seq<Cursor>)

  /** The next user key whose newest version is a set, and where the sources are left. */
  ghost function FindFrom(iters: seq<Cursor>, over: Reuse): (f: Found)
    requires |over| == |iters|
    ensures f.Found? ==> |f.rest| == |iters| && Remaining(f.rest) < Remaining(iters)
    decreases Remaining(iters)
  {
    if !HasTop(iters) then Nothing
    else
      var k := TopKey(iters);
      TopSliceHolds(iters, over);
      var rest := SkipFrom(iters, over, TopSlice(iters));
      if Kind(k) == KIND_SET then Found(Entry(UserKey(k), TopValue(iters)), rest) else FindFrom(rest, over)
  }

  /** All that First and Next yield until they fail. */
  ghost function ScanOut(iters: seq<Cursor>, over: Reuse): seq<Entry>
    requires |over| == |iters|
    decreases Remaining(iters)
  {
    match FindFrom(iters, over)
    case Nothing => []
    case Found(e, rest) => [e] + ScanOut(rest, over)
  }

  /** SeekGE behind the merge's own seek: past the user keys below the target. */
  ghost function SeekSkip(iters: seq<Cursor>, over: Reuse, target: bytes): (r: seq<Cursor>)
    requires |over| == |iters|
    ensures |r| == |iters| && Remaining(r) <= Remaining(iters)
    decreases Remaining(iters)
  {
    if !HasTop(iters) || !Less(UserKey(TopKey(iters)), target) then iters
    else
      TopSliceHolds(iters, over);
      SeekSkip(SkipFrom(iters, over, TopSlice(iters)), over, target)
  }

  /** Where DBIterator.SeekGE sends the merge. */
  function SeekKey(target: bytes): bytes {
    Make(target, MAX_SEQ, KIND_SET)
  }

  ghost function SeekFound(iters: seq<Cursor>, over: Reuse, target: bytes): Found
    requires |over| == |iters|
  {
    FindFrom(SeekSkip(AtKey(iters, SeekKey(target)), over, target), over)
  }

  /** Where the loop of skipUserKey ends, seen from its test. */
  ghost function Landed(iters: seq<Cursor>, over: Reuse, sl: Slice): seq<Cursor>
    requires Holds(iters, over, sl)
  {
    if Matches(iters, over, sl) then SkipFrom(iters, over, sl) else iters
  }

  lemma {:induction false} SkipStep(iters: seq<Cursor>, over: Reuse, sl: Slice)
    requires HasTop(iters) && Holds(iters, over, sl)
    ensures Holds(Stepped(iters), over, sl) && Remaining(Stepped(iters)) < Remaining(iters)
    ensures SkipFrom(iters, over, sl) == Landed(Stepped(iters), over, sl)
  {
    hide Remaining, IsTop, UserKey, ArrayAt;
    SteppedFurther(iters);
  }

  lemma {:induction false} LandedHolds(iters: seq<Cursor>, over: Reuse, sl: Slice)
    requires HasTop(iters) && Holds(iters, over, sl)
    ensures |SkipFrom(iters, over, sl)| == |over|
  {
    hide Remaining, IsTop, UserKey, ArrayAt;
  }

  /** What a search has to come to: the least visible user key of all, on sources that stay good. */
  ghost predicate Right(all: map<bytes, bytes>, f: Found, over: Reuse) {
    match f
    case Nothing => forall u, v :: !Visible(all, u, v)
    case Found(e, rest) =>
      && AllSorted(rest) && |rest| == |over| && SourcesRight(rest, over) && GoodKeys(Merged(rest))
      && NextVisible(all, Merged(rest), e.key, e.value)
  }

  class DBIterator {
    const merge: MergeIterator
    /** In which arrays the sources keep their keys since the iterator was positioned: the allocator
        decides, so First and SeekGE take it as a parameter. */
    var over: Reuse
    var key: bytes
    var val: bytes
    var valid: bool

    ghost predicate Ready()
      reads this, merge
    {
      merge.Valid() && |over| == |merge.iters|
    }

    constructor (merge: MergeIterator)
      ensures this.merge == merge && !valid
    {
      this.merge := merge;
      over, key, val, valid := [], [], [], false;
    }

    /** The result of a search, as the caller sees it. */
    ghost predicate Shows(f: Found, ok: bool)
      reads this, merge
    {
      && Ready() && ok == valid == f.Found?
      && (if f.Found? then Entry(key, val) == f.e && merge.iters == f.rest else !merge.IsValid())
    }

    /** The keys are good, and so every skip that is to come is right (SkipsRightIff). */
    ghost predicate Clean()
      reads this, merge
    {
      Ready() && GoodKeys(merge.View()) && SourcesRight(merge.iters, over)
    }

    /** The result is the least that was visible, and what comes after it is left. */
    ghost predicate FirstOf(all: map<bytes, bytes>, ok: bool)
      reads this, merge
    {
      if ok then Clean() && NextVisible(all, merge.View(), key, val) else forall u, v :: !Visible(all, u, v)
    }

    lemma {:induction false} RightResult(all: map<bytes, bytes>, f: Found, ok: bool)
      requires Shows(f, ok) && Right(all, f, over)
      ensures FirstOf(all, ok)
    {
      hide Merged, GoodKeys, SourcesRight, Visible, NextVisible, Sorted;
    }

    /** skipUserKey: on while the current user key is what the slice reads as. */
    method SkipUserKey(userKey: Slice)
      requires Ready() && merge.IsValid() && Holds(merge.iters, over, userKey)
      modifies merge
      ensures Ready() && HasTop(old(merge.iters))
      ensures merge.iters == SkipFrom(old(merge.iters), over, userKey)
    {
      hide Less, Remaining, MergeIterator.Valid, UserKey, IsTop, SkipFrom, Holds, Content, Advanced;
      ghost var was := merge.iters;
      merge.TopOfHeap();
      SkipStep(was, over, userKey);
      var more := merge.Next();
      while more
        invariant merge.Valid() && more == merge.IsValid() && Holds(merge.iters, over, userKey)
        invariant SkipFrom(was, over, userKey) == Landed(merge.iters, over, userKey)
        decreases Remaining(merge.iters)
      {
        merge.TopOfHeap();
        SkipStep(merge.iters, over, userKey);
        if UserKey(merge.Key()) != Content(merge.iters, over, userKey) {
          return;
        }
        more := merge.Next();
      }
      merge.TopOfHeap();
      LandedHolds(was, over, userKey);
    }

    /** ikey[:len(ikey)-8] */
    method TakeUserKey() returns (userKey: Slice)
      requires Ready() && merge.IsValid()
      ensures HasTop(merge.iters) && userKey == TopSlice(merge.iters)
      ensures Holds(merge.iters, over, userKey) && Content(merge.iters, over, userKey) == UserKey(merge.Key())
    {
      hide Less, Remaining, MergeIterator.Valid, UserKey, ArrayAt;
      merge.TopOfHeap();
      TopSliceHolds(merge.iters, over);
      userKey := Slice(merge.h[0], merge.iters[merge.h[0]].pos, |UserKey(merge.Key())|);
    }

    /** findNextVisible */
    method FindNextVisible() returns (ok: bool)
      requires Ready()
      modifies this`key, this`val, this`valid, merge
      ensures Shows(FindFrom(old(merge.iters), over), ok)
    {
      hide Less, Remaining, MergeIterator.Valid, UserKey, Kind, IsTop, ArrayAt, Content;
      ghost var was := merge.iters;
      while merge.IsValid()
        invariant Ready() && |merge.iters| == |was| && FindFrom(was, over) == FindFrom(merge.iters, over)
        decreases Remaining(merge.iters)
      {
        merge.TopOfHeap();
        var ikey := merge.Key();
        var userKey := TakeUserKey();
        if Kind(ikey) == KIND_SET {
          key := UserKey(ikey);
          val := merge.Value();
          valid := true;
          SkipUserKey(userKey);
          return true;
        }
        SkipUserKey(userKey);
      }
      merge.TopOfHeap();
      valid := false;
      return false;
    }

    /** Whether the sources are sorted: what First and SeekGE need. */
    ghost predicate SourcesSorted()
      reads merge
    {
      forall i :: 0 <= i < |merge.iters| ==> Sorted(merge.iters[i].es)
    }

    /** Everything the sources hold, whatever has been read already. */
    ghost function Store(): map<bytes, bytes>
      reads merge
    {
      Merged(AtStart(merge.iters))
    }

    method First(over: Reuse) returns (ok: bool)
      requires SourcesSorted() && |over| == |merge.iters|
      modifies this, merge
      ensures this.over == over && Shows(FindFrom(AtStart(old(merge.iters)), over), ok)
      ensures GoodKeys(old(Store())) && SourcesRight(AtStart(old(merge.iters)), over) ==> FirstOf(old(Store()), ok)
    {
      hide Less, Merged, Sorted, MergeIterator.Valid, FindFrom, GoodKeys, SourcesRight, Right, FirstOf, Remaining;
      ghost var was := merge.iters;
      FindNothing(AtStart(was), over);
      this.over := over;
      var some := merge.First();
      merge.TopOfHeap();
      if some {
        ok := FindNextVisible();
      } else {
        valid, ok := false, false;
      }
      if GoodKeys(old(Store())) && SourcesRight(AtStart(was), over) {
        StartShows(was, over);
        RightResult(old(Store()), FindFrom(AtStart(was), over), ok);
      }
    }

    method Next() returns (ok: bool)
      requires Ready()
      modifies this`key, this`val, this`valid, merge
      ensures old(valid) ==> Shows(FindFrom(old(merge.iters), over), ok)
      ensures !old(valid) ==> !ok && !valid && merge.iters == old(merge.iters) && Ready()
      ensures old(valid && Clean()) ==> FirstOf(old(merge.View()), ok)
    {
      hide Less, Merged, Remaining, FindFrom, GoodKeys, SourcesRight, Right, FirstOf, Rest, Sorted, MergeIterator.Loaded;
      if !valid {
        return false;
      }
      ghost var was := merge.iters;
      FindNothing(was, over);
      merge.TopOfHeap();
      if merge.IsValid() {
        ok := FindNextVisible();
      } else {
        valid, ok := false, false;
      }
      if old(Clean()) {
        RestStarts(Merged(was));
        FindShows(Merged(was), was, over);
        RightResult(Merged(was), FindFrom(was, over), ok);
      }
    }

    method SeekGE(target: bytes, over: Reuse) returns (ok: bool)
      requires SourcesSorted() && |over| == |merge.iters|
      modifies this, merge
      ensures this.over == over && Shows(SeekFound(old(merge.iters), over, target), ok)
      ensures GoodKeys(old(Store())) && SourcesRight(AtKey(old(merge.iters), SeekKey(target)), over) ==>
        FirstOf(Reached(old(Store()), target), ok)
    {
      hide Less, Merged, Sorted, MergeIterator.Valid, Remaining, FindFrom, GoodKeys, SourcesRight, Right, FirstOf, Reached,
        SeekSkip, Make;
      ghost var was := merge.iters;
      this.over := over;
      var some := merge.SeekGE(SeekKey(target));
      ghost var at := merge.iters;
      merge.TopOfHeap();
      if some {
        SkipBelow(target);
        merge.TopOfHeap();
      } else {
        SeekSkipEmpty(at, over, target);
      }
      FindNothing(SeekSkip(at, over, target), over);
      if merge.IsValid() {
        ok := FindNextVisible();
      } else {
        valid, ok := false, false;
      }
      if GoodKeys(old(Store())) && SourcesRight(AtKey(was, SeekKey(target)), over) {
        SeekShows(was, over, target);
        RightResult(Reached(old(Store()), target), SeekFound(was, over, target), ok);
      }
    }

    /** The loop of SeekGE: past the user keys below the target. */
    method SkipBelow(target: bytes)
      requires Ready()
      modifies merge
      ensures Ready() && merge.iters == SeekSkip(old(merge.iters), over, target)
    {
      hide Less, Merged, Sorted, MergeIterator.Valid, UserKey, Remaining, IsTop, ArrayAt, Content;
      ghost var was := merge.iters;
      while merge.IsValid()
        invariant Ready() && |merge.iters| == |was|
        invariant SeekSkip(was, over, target) == SeekSkip(merge.iters, over, target)
        decreases Remaining(merge.iters)
      {
        merge.TopOfHeap();
        var c := CompareKeys(UserKey(merge.Key()), target);
        if c >= 0 {
          break;
        }
        var userKey := TakeUserKey();
        SkipUserKey(userKey);
      }
      merge.TopOfHeap();
    }
  }

  lemma {:induction false} SeekSkipEmpty(iters: seq<Cursor>, over: Reuse, target: bytes)
    requires |over| == |iters| && !HasTop(iters)
    ensures SeekSkip(iters, over, target) == iters
  {
  }

  /** First, then Next until it fails. */
  method ScanAll(it: DBIterator, over: Reuse) returns (out: seq<Entry>)
    requires it.SourcesSorted() && |over| == |it.merge.iters|
    modifies it, it.merge
    ensures out == ScanOut(AtStart(old(it.merge.iters)), over)
    ensures GoodKeys(old(it.Store())) && SourcesRight(AtStart(old(it.merge.iters)), over) ==> Yields(old(it.Store()), out)
  {
    hide Less, DBIterator.Ready, DBIterator.FirstOf, DBIterator.Clean, Merged, GoodKeys, Yields, Remaining, FindFrom, SourcesRight, Sorted;
    ghost var start := AtStart(it.merge.iters);
    if GoodKeys(it.Store()) && SourcesRight(start, over) {
      StartSorted(it.merge.iters);
      ScanYields(start, over);
    }
    out := [];
    var ok := it.First(over);
    ghost var before := start;
    while ok
      invariant |before| == |over| && it.over == over && it.Shows(FindFrom(before, over), ok)
      invariant ScanOut(start, over) == out + ScanOut(before, over)
      decreases Remaining(before) + if ok then 1 else 0
    {
      out := out + [Entry(it.key, it.val)];
      before := it.merge.iters;
      ok := it.Next();
    }
  }

  lemma {:induction false} StartSorted(iters: seq<Cursor>)
    requires forall i :: 0 <= i < |iters| ==> Sorted(iters[i].es)
    ensures AllSorted(AtStart(iters))
  {
    hide Sorted;
  }

  // ---- what a search shows

  /** One skip that is right, and those after it. */
  lemma {:induction false} SkipLeaves(iters: seq<Cursor>, over: Reuse)
    requires AllSorted(iters) && HasTop(iters) && |over| == |iters| && SourcesRight(iters, over) && GoodKeys(Merged(iters))
    ensures Holds(iters, over, TopSlice(iters))
    ensures var rest := SkipFrom(iters, over, TopSlice(iters));
      && AllSorted(rest) && SourcesRight(rest, over) && GoodKeys(Merged(rest))
      && Merged(rest) == Without(Merged(iters), UserKey(TopKey(iters)))
  {
    hide Less, Merged, Remaining, IsTop, UserKey, AllSorted, GoodKeys, Without, ArrayAt, SkipRight, SourcesRight;
    SourcesStep(iters, over);
    SkipRightIff(iters, over);
    SkipShrinks(iters, over, TopSlice(iters));
    GoodWithout(Merged(iters), UserKey(TopKey(iters)));
  }

  /** findNextVisible: the first visible user key of all. */
  lemma {:induction false} FindShows(all: map<bytes, bytes>, iters: seq<Cursor>, over: Reuse)
    requires AllSorted(iters) && |over| == |iters| && SourcesRight(iters, over) && GoodKeys(Merged(iters))
    requires Rest(all, Merged(iters))
    ensures Right(all, FindFrom(iters, over), over)
    decreases Remaining(iters)
  {
    hide Less, Merged, Remaining, IsTop, UserKey, AllSorted, GoodKeys, Without, ArrayAt, SourcesRight, Rest, Visible,
      NextVisible, Kind;
    if !HasTop(iters) {
      NoTopEmpty(iters);
      NothingVisible(all);
    } else {
      var k := TopKey(iters);
      SkipLeaves(iters, over);
      StepDrops(iters);
      if Kind(k) == KIND_SET {
        FoundVisible(all, Merged(iters), k);
      } else {
        TombstonePassed(all, Merged(iters), k);
        FindShows(all, SkipFrom(iters, over, TopSlice(iters)), over);
      }
    }
  }

  /** A scan yields strictly increasing user keys: exactly those whose newest version is a set. */
  lemma {:induction false} ScanYields(iters: seq<Cursor>, over: Reuse)
    requires AllSorted(iters) && |over| == |iters| && SourcesRight(iters, over) && GoodKeys(Merged(iters))
    ensures Yields(Merged(iters), ScanOut(iters, over))
    decreases Remaining(iters)
  {
    hide Less, Merged, Remaining, AllSorted, GoodKeys, SourcesRight, Rest, Visible, NextVisible, FindFrom, Yields;
    RestStarts(Merged(iters));
    FindShows(Merged(iters), iters, over);
    match FindFrom(iters, over) {
      case Nothing => NothingYields(Merged(iters));
      case Found(e, rest) =>
        ScanYields(rest, over);
        YieldsMore(Merged(iters), Merged(rest), e, ScanOut(rest, over));
    }
  }

  lemma {:induction false} FindNothing(iters: seq<Cursor>, over: Reuse)
    requires |over| == |iters|
    ensures !HasTop(iters) ==> FindFrom(iters, over) == Nothing
  {
  }

  lemma {:induction false} StartShows(iters: seq<Cursor>, over: Reuse)
    requires |over| == |iters| && forall i :: 0 <= i < |iters| ==> Sorted(iters[i].es)
    requires SourcesRight(AtStart(iters), over) && GoodKeys(Merged(AtStart(iters)))
    ensures Right(Merged(AtStart(iters)), FindFrom(AtStart(iters), over), over)
  {
    hide Less, Merged, GoodKeys, SourcesRight, Sorted, FindFrom, Rest, Visible, NextVisible;
    StartSorted(iters);
    RestStarts(Merged(AtStart(iters)));
    FindShows(Merged(AtStart(iters)), AtStart(iters), over);
  }

  // ---- what table sources make of it

  /** A table that is one block, with all user keys of one length and an array that fits them: a scan
      shows the first entry, if that is a set, and nothing else. */
  lemma {:induction false} BlockScan(es: seq<Entry>, over: set<nat>)
    requires es != [] && (forall j :: 0 < j < |es| ==> j in over)
    requires forall j :: 0 <= j < |es| ==> |es[j].key| == |es[0].key| >= TRAILER_SIZE
    ensures ScanOut([Cursor(es, 0)], [over])
      == if Kind(es[0].key) == KIND_SET then [Entry(UserKey(es[0].key), es[0].value)] else []
  {
    hide Kind, UserKey, IsTop;
    var c, end := Cursor(es, 0), Cursor(es, |es|);
    SkipsSameLength(c, over, |es|);
    OneSource(c);
    OneSource(end);
    FindNothing([end], [over]);
    assert ScanOut([end], [over]) == [];
    assert TopValue([c]) == es[0].value;
  }

  /** Set("a"), Set("b"), flush, and a scan: "b" is stored, its newest version is a set, and the scan
      does not show it. */
  lemma {:induction false} SecondKeyLost(x: bytes, y: bytes)
    ensures var es := [Entry(Make([97], 1, KIND_SET), x), Entry(Make([98], 2, KIND_SET), y)];
      && Sorted(es) && Visible(Merged([Cursor(es, 0)]), [98], y)
      && ScanOut([Cursor(es, 0)], [{1}]) == [Entry([97], x)]
  {
    hide Less, Trailer;
    var a, b := Make([97], 1, KIND_SET), Make([98], 2, KIND_SET);
    var es := [Entry(a, x), Entry(b, y)];
    ParseOfMake([97], 1, KIND_SET);
    ParseOfMake([98], 2, KIND_SET);
    LessAt([97], [98], 0);
    InternalOrder([97], 1, KIND_SET, [98], 2, KIND_SET);
    BlockScan(es, {1});
    var all := Merged([Cursor(es, 0)]);
    TwoEntries(es[0], es[1]);
    assert IsNewest(all, b);
  }

  lemma {:induction false} TwoEntries(d: Entry, e: Entry)
    requires d.key != e.key
    ensures Merged([Cursor([d, e], 0)]) == map[d.key := d.value, e.key := e.value]
  {
    var c := Cursor([d, e], 0);
    assert c.Rest() == [d, e] && [d, e][1..] == [e] && [e][1..] == [];
    assert [c][..0] == [];
    assert ToMap([e]) == map[e.key := e.value];
  }

  /** Two sources, the first a table with two user keys of one length in one block, the second with
      an older version of its first key. */
  function OlderBehind(x: Entry, y: Entry, z: Entry): seq<Cursor> {
    [Cursor([x, y], 0), Cursor([z], 0)]
  }

  /** By the time the older version is compared, the array reads as the second user key: so the skip
      ends there, and the first user key is shown again with the older value. */
  lemma {:induction false} OlderShownAgain(x: Entry, y: Entry, z: Entry)
    requires Less(x.key, z.key) && Less(z.key, y.key) && |x.key| == |y.key| >= TRAILER_SIZE
    requires UserKey(x.key) == UserKey(z.key) != UserKey(y.key) && Kind(x.key) == Kind(z.key) == KIND_SET
    ensures var out := ScanOut(OlderBehind(x, y, z), [{1}, {}]);
      |out| >= 2 && out[0] == Entry(UserKey(x.key), x.value) && out[1] == Entry(UserKey(x.key), z.value)
  {
    hide Less, Kind, Remaining, SkipFrom;
    var iters, over, u := OlderBehind(x, y, z), [{1}, {}], UserKey(x.key);
    LessIrreflexive(z.key);
    TopIs(iters, 0);
    var next := [Cursor([x, y], 1), Cursor([z], 0)];
    assert Stepped(iters) == next;
    TopIs(next, 1);
    assert ArrayAt([x, y], {1}, 0, 1) == y.key;
    assert SkipFrom(iters, over, TopSlice(iters)) == next by {
      assert Content(next, over, TopSlice(iters)) == UserKey(y.key);
      SkipStep(iters, over, TopSlice(iters));
    }
    assert FindFrom(iters, over) == Found(Entry(u, x.value), next);
    assert FindFrom(next, over).e == Entry(u, z.value);
    ScanStarts(iters, over);
    ScanStarts(next, over);
  }

  lemma {:induction false} ScanStarts(iters: seq<Cursor>, over: Reuse)
    requires |over| == |iters| && FindFrom(iters, over).Found?
    ensures ScanOut(iters, over) == [FindFrom(iters, over).e] + ScanOut(FindFrom(iters, over).rest, over)
  {
  }

  /** Such keys: versions 2 and 1 of "a", and "b". */
  lemma {:induction false} SuchVersions()
    ensures var a2, a1, b := Make([97], 2, KIND_SET), Make([97], 1, KIND_SET), Make([98], 3, KIND_SET);
      && Less(a2, a1) && Less(a1, b) && UserKey(a2) == UserKey(a1) != UserKey(b)
      && Kind(a2) == Kind(a1) == KIND_SET
  {
    hide Less, Trailer;
    ParseOfMake([97], 2, KIND_SET);
    ParseOfMake([97], 1, KIND_SET);
    ParseOfMake([98], 3, KIND_SET);
    VersionOrder([97], 2, KIND_SET, 1, KIND_SET);
    LessAt([97], [98], 0);
    InternalOrder([97], 1, KIND_SET, [98], 3, KIND_SET);
  }

  lemma {:induction false} TopIs(iters: seq<Cursor>, t: nat)
    requires IsTop(iters, t)
    ensures HasTop(iters) && TopOf(iters) == t
  {
    hide IsTop;
    OneTop(iters, t, TopOf(iters));
  }

  // ---- seeking

  /** What a seek finds from the target on: the versions that do not sort below the seek key. */
  ghost function Reached(all: map<bytes, bytes>, target: bytes): map<bytes, bytes> {
    map k | k in all && !Less(UserKey(k), target) && !Less(k, SeekKey(target)) :: all[k]
  }

  /** The loop of SeekGE leaves what is not below the target. */
  lemma {:induction false} SeekSkipLeaves(iters: seq<Cursor>, over: Reuse, target: bytes)
    requires AllSorted(iters) && |over| == |iters| && SourcesRight(iters, over) && GoodKeys(Merged(iters))
    ensures var r := SeekSkip(iters, over, target);
      AllSorted(r) && SourcesRight(r, over) && GoodKeys(Merged(r)) && Merged(r) == From(Merged(iters), target)
    decreases Remaining(iters)
  {
    hide Less, Merged, Remaining, IsTop, UserKey, AllSorted, GoodKeys, ArrayAt, SourcesRight, From, Without;
    if !HasTop(iters) {
      NoTopEmpty(iters);
      AllFrom(Merged(iters), target);
    } else {
      StepDrops(iters);
      if Less(UserKey(TopKey(iters)), target) {
        SkipLeaves(iters, over);
        BelowFrom(Merged(iters), target, UserKey(TopKey(iters)));
        SeekSkipLeaves(SkipFrom(iters, over, TopSlice(iters)), over, target);
      } else {
        LeastFrom(Merged(iters), target, TopKey(iters));
      }
    }
  }

  lemma {:induction false} AllFrom(view: map<bytes, bytes>, target: bytes)
    requires forall k :: k in view ==> !Less(UserKey(k), target)
    ensures From(view, target) == view
  {
  }

  lemma {:induction false} BelowFrom(view: map<bytes, bytes>, target: bytes, u: bytes)
    requires Less(u, target)
    ensures From(Without(view, u), target) == From(view, target)
  {
  }

  lemma {:induction false} LeastFrom(view: map<bytes, bytes>, target: bytes, k: bytes)
    requires GoodKeys(view) && k in view && !Less(UserKey(k), target) && forall j :: j in view && j != k ==> Less(k, j)
    ensures From(view, target) == view
  {
    hide Less, UserKey, IsNewest, GoodKeys;
    LeastKey(view, k);
    forall j | j in view
      ensures !Less(UserKey(j), target)
    {
      if UserKey(j) != UserKey(k) && Less(UserKey(j), target) {
        LessTransitive(UserKey(k), UserKey(j), target);
      }
    }
    AllFrom(view, target);
  }

  /** SeekGE, as long as every skip is right: the first visible user key of what is reached. */
  lemma {:induction false} SeekShows(iters: seq<Cursor>, over: Reuse, target: bytes)
    requires |over| == |iters| && forall i :: 0 <= i < |iters| ==> Sorted(iters[i].es)
    requires SourcesRight(AtKey(iters, SeekKey(target)), over) && GoodKeys(Merged(AtStart(iters)))
    ensures Right(Reached(Merged(AtStart(iters)), target), SeekFound(iters, over, target), over)
  {
    hide Less, Merged, UserKey, SourcesRight, Sorted, FindFrom, Rest, Visible, NextVisible, Make, SeekSkip, From, Reached,
      GoodKeys, Right, AllSorted, Remaining;
    var all, at := Merged(AtStart(iters)), AtKey(iters, SeekKey(target));
    ReachedIs(iters, target);
    SeekSkipLeaves(at, over, target);
    RestStarts(Reached(all, target));
    FindShows(Reached(all, target), SeekSkip(at, over, target), over);
  }

  lemma {:induction false} ReachedIs(iters: seq<Cursor>, target: bytes)
    requires forall i :: 0 <= i < |iters| ==> Sorted(iters[i].es)
    requires GoodKeys(Merged(AtStart(iters)))
    ensures var at := AtKey(iters, SeekKey(target));
      && From(Merged(at), target) == Reached(Merged(AtStart(iters)), target)
      && AllSorted(at) && GoodKeys(Merged(at))
  {
    hide Less, Merged, UserKey, Sorted, Make, Unrelated, Kind;
    SeekIsSuffix(iters, SeekKey(target));
  }

  /** No stored version of a user key from the target on sorts below the seek key. */
  ghost predicate SeekReaches(all: map<bytes, bytes>, target: bytes) {
    forall k :: k in all && !Less(UserKey(k), target) ==> !Less(k, SeekKey(target))
  }

  /** Which versions the seek leaves behind: exactly those whose user key properly extends the
      target by bytes that, with the trailer, sort below the trailer of the seek key. */
  lemma {:induction false} LeftBehind(k: bytes, target: bytes)
    requires |k| >= TRAILER_SIZE && Kind(k) <= KIND_SET
    ensures !Less(UserKey(k), target) && Less(k, SeekKey(target)) <==>
      IsPrefix(target, UserKey(k)) && UserKey(k) != target
      && Less(k[|target|..], BE(Trailer(MAX_SEQ, KIND_SET), TRAILER_SIZE))
  {
    hide Less, BE, Trailer;
    var u := UserKey(k);
    var t := BE(Trailer(MAX_SEQ, KIND_SET), TRAILER_SIZE);
    TrailerApart(k);
    if IsPrefix(target, u) {
      assert k == target + k[|target|..];
      LessCommonPrefix(target, k[|target|..], t);
      PrefixNotAbove(target, u);
      if u == target {
        MakeOfParse(k);
        VersionOrder(u, Seq(k), Kind(k), MAX_SEQ, KIND_SET);
      }
    } else if IsPrefix(u, target) {
      PrefixBelow(u, target);
    } else {
      UnrelatedExtensions(u, target, k[|u|..], t);
    }
  }

  lemma {:induction false} PrefixNotAbove(p: bytes, s: bytes)
    requires IsPrefix(p, s)
    ensures !Less(s, p)
  {
  }

  lemma {:induction false} PrefixBelow(p: bytes, s: bytes)
    requires IsPrefix(p, s) && p != s
    ensures Less(p, s)
  {
  }

  /** It is enough that no stored user key extends the target with a zero byte. */
  lemma {:induction false} SeekReachesWithoutZero(all: map<bytes, bytes>, target: bytes)
    requires forall k :: k in all ==> |k| >= TRAILER_SIZE && Kind(k) <= KIND_SET
    requires forall k :: k in all && IsPrefix(target, UserKey(k)) && UserKey(k) != target ==> UserKey(k)[|target|] != 0
    ensures SeekReaches(all, target)
  {
    hide Less, Kind, BE, Trailer, Make;
    forall k | k in all && !Less(UserKey(k), target)
      ensures !Less(k, SeekKey(target))
    {
      LeftBehind(k, target);
      if IsPrefix(target, UserKey(k)) && UserKey(k) != target {
        NotBelowSeekTrailer(k[|target|..]);
      }
    }
  }

  lemma {:induction false} SeekTrailerStartsZero()
    ensures BE(Trailer(MAX_SEQ, KIND_SET), TRAILER_SIZE)[0] == 0
  {
    var t := Trailer(MAX_SEQ, KIND_SET);
    assert t == 0xFE;
    assert BE(t, 8)[0] == BE(t / 0x100, 7)[0];
    ZeroBytes(7);
  }

  lemma {:induction false} ZeroBytes(n: nat)
    ensures forall i :: 0 <= i < n ==> BE(0, n)[i] == 0
  {
    if n > 0 {
      ZeroBytes(n - 1);
    }
  }

  lemma {:induction false} NotBelowSeekTrailer(s: bytes)
    requires s != [] && s[0] != 0
    ensures !Less(s, BE(Trailer(MAX_SEQ, KIND_SET), TRAILER_SIZE))
  {
    hide BE, Trailer;
    SeekTrailerStartsZero();
  }

  /** A stored key that a seek misses: the target followed by eight zero bytes. */
  lemma {:induction false} SeekMisses(target: bytes, seqNum: nat)
    ensures var u := target + BE(0, TRAILER_SIZE);
      Less(target, u) && Less(Make(u, seqNum, KIND_SET), SeekKey(target))
  {
    hide Trailer;
    var u := target + BE(0, TRAILER_SIZE);
    PrefixBelow(target, u);
    var t := BE(Trailer(MAX_SEQ, KIND_SET), TRAILER_SIZE);
    var rest := BE(Trailer(seqNum, KIND_SET), TRAILER_SIZE);
    ZeroBelow(rest);
    assert Make(u, seqNum, KIND_SET) == target + (BE(0, TRAILER_SIZE) + rest);
    LessCommonPrefix(target, BE(0, TRAILER_SIZE) + rest, t);
  }

  lemma {:induction false} ZeroBelow(rest: bytes)
    ensures Less(BE(0, TRAILER_SIZE) + rest, BE(Trailer(MAX_SEQ, KIND_SET), TRAILER_SIZE))
  {
    hide Less;
    Pow256Values();
    assert Trailer(MAX_SEQ, KIND_SET) == 0xFE;
    BEOrder(0, 0xFE, TRAILER_SIZE);
    var a, b := BE(0, TRAILER_SIZE), BE(0xFE, TRAILER_SIZE);
    SameLengthExtension(a, b, rest);
  }

  lemma {:induction false} SameLengthExtension(a: bytes, b: bytes, rest: bytes)
    requires |a| == |b| && Less(a, b)
    ensures Less(a + rest, b)
  {
  }


  // ---- when a seek is right

  /** The first thing that a scan of all shows. */
  ghost predicate FirstVisible(all: map<bytes, bytes>, u: bytes, v: bytes) {
    Visible(all, u, v) && forall w, x :: Visible(all, w, x) ==> !Less(w, u)
  }

  ghost predicate SameVisible(a: map<bytes, bytes>, b: map<bytes, bytes>) {
    forall u, v :: Visible(a, u, v) <==> Visible(b, u, v)
  }

  ghost predicate SameFirst(a: map<bytes, bytes>, b: map<bytes, bytes>) {
    forall u, v :: FirstVisible(a, u, v) <==> FirstVisible(b, u, v)
  }

  /** Of every user key whose newest version is left behind: if that is a set, the newest version that
      is reached is a set with the same value; if it is a deletion, so is the newest version that is
      reached, if any is. */
  ghost predicate SeekHarmless(all: map<bytes, bytes>, target: bytes) {
    forall j :: IsNewest(From(all, target), j) && Less(j, SeekKey(target)) ==>
      if Kind(j) == KIND_SET
      then exists k :: IsNewest(Reached(all, target), k) && UserKey(k) == UserKey(j) && Kind(k) == KIND_SET && all[k] == all[j]
      else forall k :: IsNewest(Reached(all, target), k) && UserKey(k) == UserKey(j) ==> Kind(k) != KIND_SET
  }

  /** Everything from the target on is shown as it should be if and only if that is so. */
  lemma {:induction false} SeekRightIff(all: map<bytes, bytes>, target: bytes)
    requires GoodKeys(all)
    ensures SameVisible(Reached(all, target), From(all, target)) <==> SeekHarmless(all, target)
  {
    hide Less, Unrelated, UserKey, SeekKey, Kind;
    var near, far := Reached(all, target), From(all, target);
    forall j | IsNewest(far, j) && Less(j, SeekKey(target))
      ensures SameVisible(near, far) ==> if Kind(j) == KIND_SET
        then exists k :: IsNewest(near, k) && UserKey(k) == UserKey(j) && Kind(k) == KIND_SET && all[k] == all[j]
        else forall k :: IsNewest(near, k) && UserKey(k) == UserKey(j) ==> Kind(k) != KIND_SET
    {
      if SameVisible(near, far) {
        LeftShows(all, target, j);
      }
    }
    if SeekHarmless(all, target) {
      forall u, v
        ensures Visible(near, u, v) <==> Visible(far, u, v)
      {
        HarmlessShows(all, target, u, v);
      }
    }
  }

  lemma {:induction false} GoodFrom(all: map<bytes, bytes>, target: bytes)
    requires GoodKeys(all)
    ensures GoodKeys(From(all, target)) && GoodKeys(Reached(all, target))
  {
  }

  lemma {:induction false} LeftShows(all: map<bytes, bytes>, target: bytes, j: bytes)
    requires GoodKeys(all) && IsNewest(From(all, target), j) && SameVisible(Reached(all, target), From(all, target))
    ensures var near := Reached(all, target);
      if Kind(j) == KIND_SET
      then exists k :: IsNewest(near, k) && UserKey(k) == UserKey(j) && Kind(k) == KIND_SET && all[k] == all[j]
      else forall k :: IsNewest(near, k) && UserKey(k) == UserKey(j) ==> Kind(k) != KIND_SET
  {
    hide Less, UserKey, SeekKey, Kind, GoodKeys, IsNewest;
    var near, far := Reached(all, target), From(all, target);
    GoodFrom(all, target);
    if Kind(j) == KIND_SET {
      NewestStored(far, j);
      VisibleOnce(far, j, all[j]);
      assert Visible(near, UserKey(j), all[j]);
    } else {
      forall k | IsNewest(near, k) && UserKey(k) == UserKey(j)
        ensures Kind(k) != KIND_SET
      {
        NewestStored(near, k);
        VisibleOnce(far, j, all[k]);
        VisibleOnce(near, k, all[k]);
      }
    }
  }

  lemma {:induction false} NewestStored(all: map<bytes, bytes>, k: bytes)
    requires IsNewest(all, k)
    ensures k in all
  {
  }

  lemma {:induction false} HarmlessShows(all: map<bytes, bytes>, target: bytes, u: bytes, v: bytes)
    requires GoodKeys(all) && SeekHarmless(all, target)
    ensures Visible(Reached(all, target), u, v) <==> Visible(From(all, target), u, v)
  {
    hide Less, UserKey, Kind, GoodKeys, Newer;
    var near, far := Reached(all, target), From(all, target);
    GoodFrom(all, target);
    if Visible(far, u, v) {
      var j :| IsNewest(far, j) && UserKey(j) == u && Kind(j) == KIND_SET && far[j] == v;
      if !Less(j, SeekKey(target)) {
        assert IsNewest(near, j);
      }
    }
    if Visible(near, u, v) {
      var k :| IsNewest(near, k) && UserKey(k) == u && Kind(k) == KIND_SET && near[k] == v;
      var j := NewestOf(far, k);
      if Less(j, SeekKey(target)) {
        if Kind(j) == KIND_SET {
          var k' :| IsNewest(near, k') && UserKey(k') == UserKey(j) && Kind(k') == KIND_SET && all[k'] == all[j];
          assert near[k'] == all[j];
          VisibleOnce(near, k, all[j]);
        }
        assert Visible(far, u, v);
      } else {
        assert IsNewest(near, j);
        VisibleOnce(near, j, v);
        assert Visible(far, u, v);
      }
    }
  }

  /** Every stored user key has a newest version. */
  lemma {:induction false} NewestOf(all: map<bytes, bytes>, k: bytes) returns (j: bytes)
    requires k in all && GoodKeys(all)
    ensures IsNewest(all, j) && UserKey(j) == UserKey(k)
    decreases |VersionsFrom(all, k)|
  {
    hide UserKey, Seq, Kind, GoodKeys;
    if i :| i in all && UserKey(i) == UserKey(k) && Newer(Seq(i), Kind(i), Seq(k), Kind(k)) {
      assert VersionsFrom(all, i) <= VersionsFrom(all, k);
      assert i in VersionsFrom(all, k) && i !in VersionsFrom(all, i);
      Smaller(VersionsFrom(all, i), VersionsFrom(all, k), i);
      j := NewestOf(all, i);
    } else {
      j := k;
    }
  }

  ghost function VersionsFrom(all: map<bytes, bytes>, k: bytes): set<bytes> {
    set i | i in all && UserKey(i) == UserKey(k) && Newer(Seq(i), Kind(i), Seq(k), Kind(k))
  }

  lemma {:induction false} Smaller(a: set<bytes>, b: set<bytes>, x: bytes)
    requires a <= b && x in b && x !in a
    ensures |a| < |b|
  {
    assert a <= b - {x};
    SubsetSize(a, b - {x});
  }

  lemma {:induction false} SubsetSize(a: set<bytes>, b: set<bytes>)
    requires a <= b
    ensures |a| <= |b|
  {
    if x :| x in a {
      SubsetSize(a - {x}, b - {x});
    }
  }

  /** And so is already its first answer: the user keys with versions left behind come before all
      others from the target on. */
  lemma {:induction false} SeekAnswerIff(all: map<bytes, bytes>, target: bytes)
    requires GoodKeys(all)
    ensures SameFirst(Reached(all, target), From(all, target)) <==> SeekHarmless(all, target)
  {
    hide Less, Unrelated, UserKey, SeekKey, Kind, IsNewest, Visible, FirstVisible, SeekHarmless;
    var near, far := Reached(all, target), From(all, target);
    SeekRightIff(all, target);
    if SameVisible(near, far) {
      assert SameFirst(near, far) by { hide *; SameShown(near, far); }
    } else {
      var u, v :| Visible(near, u, v) != Visible(far, u, v);
      FirstDiffers(all, target, u, v);
    }
  }

  lemma {:induction false} SameShown(a: map<bytes, bytes>, b: map<bytes, bytes>)
    requires SameVisible(a, b)
    ensures SameFirst(a, b)
  {
    hide Visible, Less;
  }

  lemma {:induction false} FirstDiffers(all: map<bytes, bytes>, target: bytes, u: bytes, v: bytes)
    requires GoodKeys(all) && Visible(Reached(all, target), u, v) != Visible(From(all, target), u, v)
    ensures !SameFirst(Reached(all, target), From(all, target))
  {
    hide Less, Unrelated, UserKey, SeekKey, Kind, IsNewest, Visible, Newer;
    var near, far := Reached(all, target), From(all, target);
    var view := if Visible(near, u, v) then near else far;
    var w, x := SomeFirst(view, u, v);
    if SameFirst(near, far) {
      assert FirstVisible(near, w, x) && FirstVisible(far, w, x);
      GoodFrom(all, target);
      LeftFirst(all, target, u, v, w, x);
    }
  }

  /** The user key that differs is not above any that is reached, so both would show it first. */
  lemma {:induction false} LeftFirst(all: map<bytes, bytes>, target: bytes, u: bytes, v: bytes, w: bytes, x: bytes)
    requires GoodKeys(all) && Visible(Reached(all, target), u, v) != Visible(From(all, target), u, v)
    requires !Less(u, w)
    ensures !FirstVisible(Reached(all, target), w, x) || !FirstVisible(From(all, target), w, x)
  {
    hide Less, Unrelated, UserKey, SeekKey, Kind, Newer, GoodKeys, IsNewest;
    var near, far := Reached(all, target), From(all, target);
    GoodFrom(all, target);
    if FirstVisible(near, w, x) && FirstVisible(far, w, x) {
      var k := VisibleBy(near, w, x);
      var k' := VisibleBy(far, w, x);
      if w == u {
        VisibleOnce(near, k, v);
        VisibleOnce(far, k', v);
      } else {
        var j := StoredBy(all, target, u, v);
        LessTotal(u, w);
        LessTotal(SeekKey(target), k);
        if SeekKey(target) != k {
          LessTransitive(j, SeekKey(target), k);
        }
        GoodPair(all, j, k);
        UserOrder(j, k);
        LessTotal(UserKey(j), UserKey(k));
      }
    }
  }

  lemma {:induction false} GoodPair(all: map<bytes, bytes>, j: bytes, k: bytes)
    requires GoodKeys(all) && j in all && k in all
    ensures |j| >= TRAILER_SIZE && |k| >= TRAILER_SIZE && Unrelated(UserKey(j), UserKey(k))
  {
  }

  lemma {:induction false} VisibleBy(all: map<bytes, bytes>, u: bytes, v: bytes) returns (k: bytes)
    requires Visible(all, u, v)
    ensures IsNewest(all, k) && k in all && UserKey(k) == u && Kind(k) == KIND_SET && all[k] == v
  {
    k :| IsNewest(all, k) && UserKey(k) == u && Kind(k) == KIND_SET && all[k] == v;
  }

  /** Where the two differ, the newest version is left behind. */
  lemma {:induction false} StoredBy(all: map<bytes, bytes>, target: bytes, u: bytes, v: bytes) returns (j: bytes)
    requires GoodKeys(all) && Visible(Reached(all, target), u, v) != Visible(From(all, target), u, v)
    ensures j in all && UserKey(j) == u && Less(j, SeekKey(target))
  {
    hide Less, UserKey, SeekKey, Kind, Newer, GoodKeys, Visible;
    var near, far := Reached(all, target), From(all, target);
    GoodFrom(all, target);
    var k := VisibleBy(if Visible(near, u, v) then near else far, u, v);
    j := NewestOf(far, k);
    if !Less(j, SeekKey(target)) {
      assert IsNewest(near, j);
      VisibleOnce(near, j, v);
      VisibleOnce(far, j, v);
    }
  }

  /** If anything is visible, something is visible first. */
  lemma {:induction false} SomeFirst(all: map<bytes, bytes>, u: bytes, v: bytes) returns (w: bytes, x: bytes)
    requires Visible(all, u, v)
    ensures FirstVisible(all, w, x) && !Less(u, w)
    decreases |UserKeysBelow(all, u)|
  {
    hide Less, UserKey, Visible;
    if w', x' :| Visible(all, w', x') && Less(w', u) {
      VisibleStored(all, w', x');
      BelowShrinks(all, w', u);
      w, x := SomeFirst(all, w', x');
      LessChain(w', u, w);
    } else {
      LessIrreflexive(u);
      w, x := u, v;
    }
  }

  ghost function UserKeysBelow(all: map<bytes, bytes>, u: bytes): set<bytes> {
    set k | k in all && Less(UserKey(k), u) :: UserKey(k)
  }

  lemma {:induction false} BelowShrinks(all: map<bytes, bytes>, w: bytes, u: bytes)
    requires Less(w, u) && exists k :: k in all && UserKey(k) == w
    ensures |UserKeysBelow(all, w)| < |UserKeysBelow(all, u)|
  {
    hide Less, UserKey;
    LessIrreflexive(w);
    forall x | x in UserKeysBelow(all, w)
      ensures x in UserKeysBelow(all, u)
    {
      LessTransitive(x, w, u);
    }
    Smaller(UserKeysBelow(all, w), UserKeysBelow(all, u), w);
  }

  lemma {:induction false} LessChain(w': bytes, u: bytes, w: bytes)
    requires Less(w', u) && !Less(w', w)
    ensures !Less(u, w)
  {
  }

  /** A seek that misses a key altogether: the target followed by eight zero bytes, whatever its number. */
  lemma {:induction false} SeekLosesKey(target: bytes, seqNum: nat, x: bytes)
    ensures var u := target + BE(0, TRAILER_SIZE); var all := map[Make(u, seqNum, KIND_SET) := x];
      Visible(From(all, target), u, x) && Reached(all, target) == map[]
  {
    hide BE, Less, Trailer;
    var u := target + BE(0, TRAILER_SIZE);
    var k := Make(u, seqNum, KIND_SET);
    SeekMisses(target, seqNum);
    ParseOfMake(u, seqNum, KIND_SET);
    LessTotal(u, target);
    assert From(map[k := x], target) == map[k := x];
    OnlyVersion(k, x);
  }

  /** A seek that shows an old value: the target followed by one zero byte, whose version with the
      largest number is left behind while version 1 is not. */
  lemma {:induction false} SeekShowsOlder(target: bytes, x: bytes, y: bytes)
    ensures var u := target + [0];
      var all := map[Make(u, MAX_SEQ, KIND_SET) := x, Make(u, 1, KIND_SET) := y];
      && Visible(From(all, target), u, x)
      && Visible(Reached(all, target), u, y) && (x != y ==> !Visible(Reached(all, target), u, x))
  {
    hide BE, Less, Trailer, Make;
    var u := target + [0];
    var j, k := Make(u, MAX_SEQ, KIND_SET), Make(u, 1, KIND_SET);
    var all := map[j := x, k := y];
    Straddles(target);
    ParseOfMake(u, MAX_SEQ, KIND_SET);
    ParseOfMake(u, 1, KIND_SET);
    PrefixBelow(target, u);
    LessTotal(u, target);
    assert From(all, target) == all;
    assert Reached(all, target) == map[k := y];
    NewestOfTwo(j, k, x, y);
    OnlyVersion(k, y);
  }

  lemma {:induction false} NewestOfTwo(j: bytes, k: bytes, x: bytes, y: bytes)
    requires j != k && UserKey(j) == UserKey(k) && Kind(j) == KIND_SET && Seq(k) < Seq(j)
    ensures Visible(map[j := x, k := y], UserKey(j), x)
  {
    hide UserKey, Kind, Seq;
    assert IsNewest(map[j := x, k := y], j);
  }

  lemma {:induction false} OnlyVersion(k: bytes, y: bytes)
    requires Kind(k) == KIND_SET
    ensures forall v :: Visible(map[k := y], UserKey(k), v) <==> v == y
  {
    hide UserKey, Kind, Seq;
    assert IsNewest(map[k := y], k);
  }

  /** The two versions lie on either side of the seek key. */
  lemma {:induction false} Straddles(target: bytes)
    ensures var u := target + [0];
      Less(Make(u, MAX_SEQ, KIND_SET), SeekKey(target)) && !Less(Make(u, 1, KIND_SET), SeekKey(target))
  {
    hide Trailer, BE, Less;
    var t, t1 := BE(Trailer(MAX_SEQ, KIND_SET), TRAILER_SIZE), BE(Trailer(1, KIND_SET), TRAILER_SIZE);
    assert Make(target + [0], MAX_SEQ, KIND_SET) == target + ([0] + t);
    assert Make(target + [0], 1, KIND_SET) == target + ([0] + t1);
    LessCommonPrefix(target, [0] + t, t);
    LessCommonPrefix(target, [0] + t1, t);
    SeekTrailer();
    FirstTrailerByte();
    LessAt([0] + t, t, 7);
    LessAt(t, [0] + t1, 1);
    LessTotal(t, [0] + t1);
  }

  lemma {:induction false} SeekTrailer()
    ensures BE(Trailer(MAX_SEQ, KIND_SET), TRAILER_SIZE) == [0, 0, 0, 0, 0, 0, 0, 254]
  {
    assert Trailer(MAX_SEQ, KIND_SET) == 0xFE;
    assert BE(0xFE, 8) == BE(0, 7) + [254];
    ZeroBytes(7);
    assert BE(0, 7) == [0, 0, 0, 0, 0, 0, 0];
  }
}
