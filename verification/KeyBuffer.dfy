/** skipUserKey: what stepping over the versions of one user key leaves, when the user key is a slice
    of a buffer that a source may meanwhile write its next key into. */
module KeyBuffers {
  import opened Bytes
  import opened InternalKey
  import opened Block
  import opened Merge
  import opened Visibility

  // ---- slices of key buffers

  /** For every source the positions whose key goes into the array that held the key before it: none
      in a memtable, in a table those inside a block where the key fits (BlockIterator.Appended). */
  type Reuse = seq<set<nat>>

  /** The first len bytes of the array that held the key of source src at position pos. */
  datatype Slice = Slice(src: nat, pos: nat, len: nat)

  predicate InPlace(over: set<nat>, p: nat, q: nat) {
    forall j :: p < j <= q ==> j in over
  }

  /** That array once the source has moved on to position q. */
  function ArrayAt(es: seq<Entry>, over: set<nat>, p: nat, q: nat): (buf: bytes)
    requires p < |es|
    ensures |buf| >= |es[p].key|
    decreases q
  {
    if q <= p then es[p].key
    else
      var buf := ArrayAt(es, over, p, q - 1);
      if q < |es| && InPlace(over, p, q) then Overwrite(es[q].key, buf) else buf
  }

  predicate Holds(iters: seq<Cursor>, over: Reuse, sl: Slice) {
    && |over| == |iters| && sl.src < |iters|
    && sl.pos < |iters[sl.src].es| && sl.len <= |iters[sl.src].es[sl.pos].key|
  }

  /** What the slice reads as now. */
  function Content(iters: seq<Cursor>, over: Reuse, sl: Slice): (u: bytes)
    requires Holds(iters, over, sl)
    ensures |u| == sl.len
  {
    ArrayAt(iters[sl.src].es, over[sl.src], sl.pos, iters[sl.src].pos)[..sl.len]
  }

  /** The user key of the current entry, as findNextVisible and SeekGE take it. */
  ghost function TopSlice(iters: seq<Cursor>): Slice
    requires HasTop(iters)
  {
    var t := TopOf(iters);
    Slice(t, iters[t].pos, |UserKey(TopKey(iters))|)
  }

  lemma {:induction false} TopSliceHolds(iters: seq<Cursor>, over: Reuse)
    requires HasTop(iters) && |over| == |iters|
    ensures Holds(iters, over, TopSlice(iters)) && Content(iters, over, TopSlice(iters)) == UserKey(TopKey(iters))
  {
  }

  // ---- the skip

  /** Where skipUserKey leaves the sources. */
  ghost function SkipFrom(iters: seq<Cursor>, over: Reuse, sl: Slice): (r: seq<Cursor>)
    requires HasTop(iters) && Holds(iters, over, sl)
    ensures Further(iters, r) && Remaining(r) < Remaining(iters)
    decreases Remaining(iters)
  {
    SteppedFurther(iters);
    var next := Stepped(iters);
    if Matches(next, over, sl) then SkipFrom(next, over, sl) else next
  }

  /** The test of its loop: the current user key is what the slice reads as. */
  ghost predicate Matches(iters: seq<Cursor>, over: Reuse, sl: Slice)
    requires Holds(iters, over, sl)
  {
    HasTop(iters) && UserKey(TopKey(iters)) == Content(iters, over, sl)
  }

  lemma {:induction false} SkipShrinks(iters: seq<Cursor>, over: Reuse, sl: Slice)
    requires AllSorted(iters) && HasTop(iters) && Holds(iters, over, sl)
    ensures AllSorted(SkipFrom(iters, over, sl))
    ensures forall k :: k in Merged(SkipFrom(iters, over, sl)) ==> k in Merged(iters) && k != TopKey(iters)
    ensures forall k :: k in Merged(SkipFrom(iters, over, sl)) ==> Merged(SkipFrom(iters, over, sl))[k] == Merged(iters)[k]
    decreases Remaining(iters)
  {
    hide Less, Merged, Remaining, IsTop, UserKey, Content, AllSorted;
    SteppedFurther(iters);
    StepDrops(iters);
    if Matches(Stepped(iters), over, sl) {
      SkipShrinks(Stepped(iters), over, sl);
    }
  }

  /** What is left while the versions of u are being skipped: no other user key has gone, and what
      has gone came first. */
  ghost predicate Underway(all: map<bytes, bytes>, view: map<bytes, bytes>, u: bytes) {
    && Without(view, u) == Without(all, u)
    && (forall k :: k in view ==> k in all && all[k] == view[k])
    && (forall j, k :: j in all && j !in view && k in view ==> Less(j, k))
  }

  lemma {:induction false} UnderwayStep(all: map<bytes, bytes>, view: map<bytes, bytes>, u: bytes, k: bytes)
    requires Underway(all, view, u) && k in view && UserKey(k) == u && forall j :: j in view && j != k ==> Less(k, j)
    ensures Underway(all, view - {k}, u)
    ensures forall j :: j in all && j !in view - {k} ==> LessEq(j, k)
  {
    hide Less, UserKey;
  }

  /** A key of another user key that has come to the front ends the versions of u. */
  lemma {:induction false} AnotherAhead(all: map<bytes, bytes>, view: map<bytes, bytes>, d: bytes, k: bytes)
    requires GoodKeys(all) && Underway(all, view, UserKey(d)) && d in all && k in view && Less(d, k)
    requires UserKey(k) != UserKey(d) && forall j :: j in view && j != k ==> Less(k, j)
    ensures view == Without(all, UserKey(d))
  {
    hide Less, UserKey;
    GroupPassed(all, view, d, k);
  }

  /** As long as the slice goes on reading u, the skip takes out exactly the versions of u. */
  lemma {:induction false} SkipStable(all: map<bytes, bytes>, iters: seq<Cursor>, over: Reuse, sl: Slice, u: bytes)
    requires AllSorted(iters) && HasTop(iters) && Holds(iters, over, sl) && GoodKeys(all)
    requires Underway(all, Merged(iters), u) && UserKey(TopKey(iters)) == u && sl.len == |u|
    requires forall x: nat :: sl.pos <= x ==> ArrayAt(iters[sl.src].es, over[sl.src], sl.pos, x)[..sl.len] == u
    requires sl.pos <= iters[sl.src].pos
    ensures Merged(SkipFrom(iters, over, sl)) == Without(all, u)
    decreases Remaining(iters)
  {
    hide Less, Merged, Remaining, IsTop, UserKey, AllSorted, GoodKeys, Without;
    SteppedFurther(iters);
    StepDrops(iters);
    var d, next := TopKey(iters), Stepped(iters);
    UnderwayStep(all, Merged(iters), u, d);
    assert Content(next, over, sl) == u;
    if !HasTop(next) {
      NoTopEmpty(next);
      NothingWithout(all, u);
    } else {
      StepDrops(next);
      if UserKey(TopKey(next)) == u {
        SkipStable(all, next, over, sl, u);
      } else {
        AnotherAhead(all, Merged(next), d, TopKey(next));
      }
    }
  }

  lemma {:induction false} NothingWithout(all: map<bytes, bytes>, u: bytes)
    requires Underway(all, map[], u)
    ensures Without(all, u) == map[]
  {
  }

  // ---- when the slice goes on reading u

  /** Where the run of versions of u that starts at p ends. */
  function GroupEnd(es: seq<Entry>, p: nat, u: bytes): (q: nat)
    requires p <= |es|
    ensures p <= q <= |es| && forall j :: p <= j < q ==> UserKey(es[j].key) == u
    ensures q < |es| ==> UserKey(es[q].key) != u
    decreases |es| - p
  {
    if p < |es| && UserKey(es[p].key) == u then GroupEnd(es, p + 1, u) else p
  }

  /** Inside the run, and for ever if the array is given up at its end, the slice reads u. */
  lemma {:induction false} ReadsInGroup(es: seq<Entry>, over: set<nat>, p: nat, q: nat, u: bytes, x: nat)
    requires p < q <= |es| && p <= x
    requires forall j :: p <= j < q ==> |es[j].key| >= TRAILER_SIZE && UserKey(es[j].key) == u
    requires x < q || q == |es| || !InPlace(over, p, q)
    ensures |es[p].key| >= |u| && ArrayAt(es, over, p, x)[..|u|] == u
    decreases x
  {
    if x > p {
      ReadsInGroup(es, over, p, q, u, x - 1);
      if x < |es| && InPlace(over, p, x) {
        assert x < q;
        assert Overwrite(es[x].key, ArrayAt(es, over, p, x - 1))[..|es[x].key|] == es[x].key;
      }
    }
  }

  /** At the end of the run, if the array is kept, the slice reads as a user key exactly if the next
      user key is that one and has the length of u. */
  lemma {:induction false} ReadsPastGroup(es: seq<Entry>, over: set<nat>, p: nat, q: nat, u: bytes, w: bytes)
    requires p < q < |es| && InPlace(over, p, q) && |es[p].key| >= |u| && |es[q].key| >= TRAILER_SIZE
    requires var u' := UserKey(es[q].key); u' != u && Unrelated(u', u) && Unrelated(u', w)
    ensures var read := ArrayAt(es, over, p, q)[..|u|]; var u' := UserKey(es[q].key);
      read != u && (read == w <==> |u'| == |u| && w == u')
  {
    var u' := UserKey(es[q].key);
    var buf := ArrayAt(es, over, p, q);
    var read := buf[..|u|];
    assert buf[..|es[q].key|] == es[q].key;
    assert buf[..|u'|] == u';
    if |u'| <= |u| {
      assert read[..|u'|] == u';
    } else {
      assert u'[..|u|] == read;
    }
  }

  // ---- when the skip is right

  /** k is the last version of its user key. */
  ghost predicate NoOlder(all: map<bytes, bytes>, u: bytes, k: bytes) {
    forall j :: j in all && UserKey(j) == u ==> !Less(k, j)
  }

  /** No user key but u is below u'. */
  ghost predicate LeastOther(all: map<bytes, bytes>, u: bytes, u': bytes) {
    forall j :: j in all && UserKey(j) != u ==> !Less(UserKey(j), u')
  }

  /** The user key of the current entry is read from a buffer. Either that buffer is not written to
      when its source comes to another user key, or by then no other source holds an older version,
      and the next user key of all is not that one with the same length. */
  ghost predicate SkipRight(iters: seq<Cursor>, over: Reuse)
    requires HasTop(iters) && |over| == |iters|
  {
    var u := UserKey(TopKey(iters));
    var t := TopOf(iters);
    var es, p := iters[t].es, iters[t].pos;
    var q := GroupEnd(es, p, u);
    || q == |es| || !InPlace(over[t], p, q)
    || (&& NoOlder(Merged(iters), u, es[q - 1].key)
        && !(|UserKey(es[q].key)| == |u| && LeastOther(Merged(iters), u, UserKey(es[q].key))))
  }

  lemma {:induction false} StillToCome(iters: seq<Cursor>, i: nat, j: nat)
    requires i < |iters| && iters[i].pos <= j < |iters[i].es|
    ensures iters[i].es[j].key in Merged(iters)
  {
    hide Merged, ToMap;
    var rest := iters[i].Rest();
    assert rest[j - iters[i].pos].key == iters[i].es[j].key;
    InToMap(rest, iters[i].es[j].key);
    var _ := MergedContains(iters, iters[i].es[j].key, i);
  }

  lemma {:induction false} OlderGone(all: map<bytes, bytes>, view: map<bytes, bytes>, u: bytes, last: bytes)
    requires view == Without(all, u) && forall j :: j in all && j !in view ==> LessEq(j, last)
    ensures NoOlder(all, u, last)
  {
    hide Less, UserKey;
    forall j | j in all && UserKey(j) == u
      ensures !Less(last, j)
    {
      LessTotal(last, j);
      LessIrreflexive(j);
    }
  }

  lemma {:induction false} NextIsLeast(all: map<bytes, bytes>, view: map<bytes, bytes>, u: bytes, k: bytes)
    requires view == Without(all, u) && GoodKeys(view) && k in view && forall j :: j in view && j != k ==> Less(k, j)
    ensures LeastOther(all, u, UserKey(k))
  {
    hide Less, UserKey, IsNewest, GoodKeys;
    LeastKey(view, k);
    forall j | j in all && UserKey(j) != u
      ensures !Less(UserKey(j), UserKey(k))
    {
      LessTotal(UserKey(j), UserKey(k));
      LessIrreflexive(UserKey(k));
    }
  }

  /** The array of the slice has just been overwritten by the entry at q. */
  ghost predicate Overwritten(all: map<bytes, bytes>, iters: seq<Cursor>, over: Reuse, sl: Slice, u: bytes, q: nat) {
    && AllSorted(iters) && Holds(iters, over, sl) && GoodKeys(all) && Underway(all, Merged(iters), u)
    && sl.len == |u| && sl.pos < q == iters[sl.src].pos < |iters[sl.src].es| && InPlace(over[sl.src], sl.pos, q)
    && var es := iters[sl.src].es; var last := es[q - 1].key;
       && UserKey(last) == u && UserKey(es[q].key) != u && last in all && |es[sl.pos].key| >= |u|
       && (forall j :: j in all && j !in Merged(iters) ==> LessEq(j, last))
       && (forall k :: k in Merged(iters) ==> Less(last, k))
  }

  /** Then the next current user key is passed exactly if it is the one that was written and as long. */
  lemma {:induction false} OverwrittenReads(all: map<bytes, bytes>, iters: seq<Cursor>, over: Reuse, sl: Slice, u: bytes, q: nat)
    requires Overwritten(all, iters, over, sl, u, q)
    ensures HasTop(iters) && TopKey(iters) in Merged(iters) && UserKey(iters[sl.src].es[q].key) != u
    ensures forall j :: j in Merged(iters) && j != TopKey(iters) ==> Less(TopKey(iters), j)
    ensures iters[sl.src].es[q].key in Merged(iters)
    ensures var w, u' := UserKey(TopKey(iters)), UserKey(iters[sl.src].es[q].key);
      Matches(iters, over, sl) <==> |u'| == |u| && w == u'
  {
    hide Less, Merged, IsTop, UserKey, AllSorted, ArrayAt, Unrelated, LessEq, Without;
    StillToCome(iters, sl.src, q);
    LiveHasTop(iters, sl.src);
    StepDrops(iters);
    var es := iters[sl.src].es;
    assert es[q].key in all && TopKey(iters) in all && es[q - 1].key in all;
    ReadsPastGroup(es, over[sl.src], sl.pos, q, u, UserKey(TopKey(iters)));
  }

  /** If another user key has come to the front, the versions of u are gone. */
  lemma {:induction false} OverwrittenNext(all: map<bytes, bytes>, iters: seq<Cursor>, over: Reuse, sl: Slice, u: bytes, q: nat)
    requires Overwritten(all, iters, over, sl, u, q) && HasTop(iters) && UserKey(TopKey(iters)) != u
    ensures var w, u' := UserKey(TopKey(iters)), UserKey(iters[sl.src].es[q].key);
      && Merged(iters) == Without(all, u) && NoOlder(all, u, iters[sl.src].es[q - 1].key)
      && (LeastOther(all, u, u') <==> w == u')
  {
    hide Less, Merged, IsTop, UserKey, AllSorted, LessEq, InPlace, NoOlder, LeastOther, GoodKeys;
    OverwrittenReads(all, iters, over, sl, u, q);
    var es, view, k := iters[sl.src].es, Merged(iters), TopKey(iters);
    AnotherAhead(all, view, es[q - 1].key, k);
    OlderGone(all, view, u, es[q - 1].key);
    GoodWithout(all, u);
    NextIsLeast(all, view, u, k);
    OneLeast(all, u, k, es[q].key);
  }

  lemma {:induction false} OneLeast(all: map<bytes, bytes>, u: bytes, j: bytes, k: bytes)
    requires j in all && k in all && UserKey(j) != u && UserKey(k) != u && LeastOther(all, u, UserKey(j))
    ensures LeastOther(all, u, UserKey(k)) <==> UserKey(j) == UserKey(k)
  {
    hide Less, UserKey;
    LessTotal(UserKey(j), UserKey(k));
  }

  lemma {:induction false} AfterOverwrite(all: map<bytes, bytes>, iters: seq<Cursor>, over: Reuse, sl: Slice, u: bytes, q: nat)
    requires Overwritten(all, iters, over, sl, u, q)
    ensures var es := iters[sl.src].es; var u' := UserKey(es[q].key);
      Merged(if Matches(iters, over, sl) then SkipFrom(iters, over, sl) else iters) == Without(all, u)
      <==> NoOlder(all, u, es[q - 1].key) && !(|u'| == |u| && LeastOther(all, u, u'))
  {
    hide Less, Merged, IsTop, UserKey, LessEq, Matches, LeastOther, GoodKeys, InPlace;
    OverwrittenReads(all, iters, over, sl, u, q);
    var k := TopKey(iters);
    if UserKey(k) == u {
      StillGone(all, u, k);
    } else {
      OverwrittenNext(all, iters, over, sl, u, q);
      if Matches(iters, over, sl) {
        SkipShrinks(iters, over, sl);
        assert k in Without(all, u);
      }
    }
  }

  /** If the array is kept to the end of the run, what the skip leaves is decided there. */
  lemma {:induction false} SkipOverwritten(all: map<bytes, bytes>, iters: seq<Cursor>, over: Reuse, sl: Slice, u: bytes, q: nat)
    requires AllSorted(iters) && HasTop(iters) && Holds(iters, over, sl) && GoodKeys(all)
    requires Underway(all, Merged(iters), u) && UserKey(TopKey(iters)) == u && sl.len == |u|
    requires sl.pos <= iters[sl.src].pos < q < |iters[sl.src].es| && InPlace(over[sl.src], sl.pos, q)
    requires var es := iters[sl.src].es;
      && UserKey(es[q].key) != u
      && forall j :: sl.pos <= j < q ==> |es[j].key| >= TRAILER_SIZE && UserKey(es[j].key) == u
    ensures var es := iters[sl.src].es; var u' := UserKey(es[q].key);
      Merged(SkipFrom(iters, over, sl)) == Without(all, u)
      <==> NoOlder(all, u, es[q - 1].key) && !(|u'| == |u| && LeastOther(all, u, u'))
    decreases Remaining(iters)
  {
    hide Less, Merged, Remaining, IsTop, UserKey, AllSorted, GoodKeys, Without, ArrayAt, NoOlder, LeastOther, LessEq;
    SteppedFurther(iters);
    StepDrops(iters);
    var d, next, es := TopKey(iters), Stepped(iters), iters[sl.src].es;
    UnderwayStep(all, Merged(iters), u, d);
    if next[sl.src].pos < q {
      StillToCome(next, sl.src, next[sl.src].pos);
      LiveHasTop(next, sl.src);
      StepDrops(next);
      if UserKey(TopKey(next)) != u {
        AnotherAhead(all, Merged(next), d, TopKey(next));
        assert false by { StillGone(all, u, es[next[sl.src].pos].key); }
      }
      ReadsInGroup(es, over[sl.src], sl.pos, q, u, next[sl.src].pos);
      SkipOverwritten(all, next, over, sl, u, q);
    } else {
      assert next[sl.src].pos == q && d == es[q - 1].key;
      AfterOverwrite(all, next, over, sl, u, q);
    }
  }

  lemma {:induction false} StillGone(all: map<bytes, bytes>, u: bytes, k: bytes)
    requires UserKey(k) == u
    ensures k !in Without(all, u)
  {
  }

  /** skipUserKey leaves exactly the other user keys if and only if SkipRight holds. */
  lemma {:induction false} SkipRightIff(iters: seq<Cursor>, over: Reuse)
    requires AllSorted(iters) && HasTop(iters) && |over| == |iters| && GoodKeys(Merged(iters))
    ensures Merged(SkipFrom(iters, over, TopSlice(iters))) == Without(Merged(iters), UserKey(TopKey(iters)))
      <==> SkipRight(iters, over)
  {
    hide Less, Merged, Remaining, UserKey, AllSorted, ArrayAt, NoOlder, LeastOther;
    var all, sl, u := Merged(iters), TopSlice(iters), UserKey(TopKey(iters));
    var es, p := iters[sl.src].es, sl.pos;
    var q := GroupEnd(es, p, u);
    assert q > p;
    GroupKeys(iters, sl.src, q);
    TopSliceHolds(iters, over);
    if q == |es| || !InPlace(over[sl.src], p, q) {
      forall x: nat | p <= x
        ensures |es[p].key| >= |u| && ArrayAt(es, over[sl.src], p, x)[..|u|] == u
      {
        ReadsInGroup(es, over[sl.src], p, q, u, x);
      }
      SkipStable(all, iters, over, sl, u);
    } else {
      SkipOverwritten(all, iters, over, sl, u, q);
    }
  }

  lemma {:induction false} GroupKeys(iters: seq<Cursor>, i: nat, q: nat)
    requires i < |iters| && iters[i].pos <= q <= |iters[i].es| && GoodKeys(Merged(iters))
    ensures forall j :: iters[i].pos <= j < q ==> |iters[i].es[j].key| >= TRAILER_SIZE
  {
    hide Merged;
    forall j | iters[i].pos <= j < q
      ensures |iters[i].es[j].key| >= TRAILER_SIZE
    {
      StillToCome(iters, i, j);
    }
  }

  /** Every skip is right of a scan that goes on from here. */
  ghost predicate SkipsRight(iters: seq<Cursor>, over: Reuse)
    requires |over| == |iters|
    decreases Remaining(iters)
  {
    HasTop(iters) ==>
      && SkipRight(iters, over)
      && (TopSliceHolds(iters, over); SkipsRight(SkipFrom(iters, over, TopSlice(iters)), over))
  }

  // ---- the same, seen from the sources

  /** The entry at position p of source t is still to come, and no source before t still has its key. */
  ghost predicate Decides(iters: seq<Cursor>, t: nat, p: nat) {
    && t < |iters| && iters[t].pos <= p < |iters[t].es|
    && forall i :: 0 <= i < t ==> iters[t].es[p].key !in ToMap(iters[i].Rest())
  }

  /** No user key between u and u'. */
  ghost predicate NextUser(all: map<bytes, bytes>, u: bytes, u': bytes) {
    forall j :: j in all && Less(u, UserKey(j)) ==> !Less(UserKey(j), u')
  }

  /** The run of versions that starts at p. Either its array is not written to at its end, or its last
      version is the last one of all, and the next user key of all is not the next one in the source with
      the same length. */
  ghost predicate RunRight(all: map<bytes, bytes>, es: seq<Entry>, over: set<nat>, p: nat)
    requires p < |es|
  {
    var u := UserKey(es[p].key);
    var q := GroupEnd(es, p, u);
    || q == |es| || !InPlace(over, p, q)
    || (NoOlder(all, u, es[q - 1].key) && !(|UserKey(es[q].key)| == |u| && NextUser(all, u, UserKey(es[q].key))))
  }

  /** So it is with every run that starts at the newest version of a user key. */
  ghost predicate SourcesRight(iters: seq<Cursor>, over: Reuse)
    requires |over| == |iters|
  {
    forall t: nat, p: nat :: Starts(iters, t, p) ==> RunRight(Merged(iters), iters[t].es, over[t], p)
  }

  /** The newest version of a user key is at position p of source t. */
  ghost predicate Starts(iters: seq<Cursor>, t: nat, p: nat) {
    Decides(iters, t, p) && IsNewest(Merged(iters), iters[t].es[p].key)
  }

  lemma {:induction false} InRestAt(c: Cursor, p: nat)
    requires Sorted(c.es) && c.pos <= |c.es| && p < |c.es|
    ensures c.es[p].key in ToMap(c.Rest()) <==> c.pos <= p
  {
    hide Less, ToMap;
    var rest, k := c.Rest(), c.es[p].key;
    InToMap(rest, k);
    SamePlace(c.es);
    if c.pos <= p {
      assert rest[p - c.pos].key == k;
    }
    forall i | 0 <= i < |rest| && rest[i].key == k
      ensures p == c.pos + i
    {
      assert rest[i] == c.es[c.pos + i];
    }
  }

  /** The top is where its key decides, and nowhere else. */
  lemma {:induction false} TopDecidesAt(iters: seq<Cursor>, t: nat, p: nat)
    requires AllSorted(iters) && HasTop(iters) && t < |iters| && p < |iters[t].es| && iters[t].es[p].key == TopKey(iters)
    ensures Decides(iters, t, p) <==> t == TopOf(iters) && p == iters[t].pos
  {
    hide Less, ToMap, Sorted;
    var top, k := TopOf(iters), TopKey(iters);
    InRestAt(iters[t], p);
    InRestAt(iters[top], iters[top].pos);
    SamePlace(iters[t].es);
    forall i | 0 <= i < top
      ensures k !in ToMap(iters[i].Rest())
    {
      if k in ToMap(iters[i].Rest()) {
        HeadIsLeast(iters[i], k);
        BeforeTotal(iters, i, top);
      }
    }
    if Decides(iters, t, p) && t == top {
      HeadIsLeast(iters[t], k);
    }
  }

  lemma {:induction false} SamePlace(es: seq<Entry>)
    requires Sorted(es)
    ensures forall i, j :: 0 <= i < |es| && 0 <= j < |es| && es[i].key == es[j].key ==> i == j
  {
    hide Less;
    forall i, j | 0 <= i < j < |es|
      ensures es[i].key != es[j].key
    {
      LessIrreflexive(es[i].key);
    }
  }

  /** A skip takes the keys that it passes out of every source. */
  lemma {:induction false} SkipSources(iters: seq<Cursor>, over: Reuse, sl: Slice, i: nat, k: bytes)
    requires AllSorted(iters) && HasTop(iters) && Holds(iters, over, sl) && i < |iters|
    ensures var r := SkipFrom(iters, over, sl);
      k in ToMap(r[i].Rest()) <==> k in ToMap(iters[i].Rest()) && k in Merged(r)
    decreases Remaining(iters)
  {
    hide Less, Merged, Remaining, IsTop, UserKey, Content, AllSorted, ToMap, Stepped;
    SteppedFurther(iters);
    StepSources(iters);
    var next := Stepped(iters);
    if Matches(next, over, sl) {
      SkipSources(next, over, sl, i, k);
      SkipShrinks(iters, over, sl);
    } else {
      StepDrops(iters);
      if k in ToMap(next[i].Rest()) {
        var _ := MergedContains(next, k, i);
      }
    }
  }

  lemma {:induction false} DecidesStays(iters: seq<Cursor>, over: Reuse, sl: Slice, t: nat, p: nat)
    requires AllSorted(iters) && HasTop(iters) && Holds(iters, over, sl) && t < |iters| && p < |iters[t].es|
    requires iters[t].es[p].key in Merged(SkipFrom(iters, over, sl))
    ensures Decides(SkipFrom(iters, over, sl), t, p) <==> Decides(iters, t, p)
  {
    hide Less, Merged, Remaining, IsTop, UserKey, ToMap, SkipFrom, Sorted;
    var r, k := SkipFrom(iters, over, sl), iters[t].es[p].key;
    SkipShrinks(iters, over, sl);
    forall i | 0 <= i <= t
      ensures k in ToMap(r[i].Rest()) <==> k in ToMap(iters[i].Rest())
    {
      SkipSources(iters, over, sl, i, k);
    }
    InRestAt(iters[t], p);
    InRestAt(r[t], p);
  }

  /** Taking out the least user key changes nothing for the others. */
  lemma {:induction false} RunStays(all: map<bytes, bytes>, u: bytes, es: seq<Entry>, over: set<nat>, p: nat)
    requires p < |es| && UserKey(es[p].key) != u && forall j :: j in all && UserKey(j) != u ==> Less(u, UserKey(j))
    requires es[p].key in all
    ensures RunRight(all, es, over, p) <==> RunRight(Without(all, u), es, over, p)
  {
    hide Less, UserKey, GroupEnd, InPlace;
    var w := UserKey(es[p].key);
    LessTotal(u, w);
    assert forall k :: NoOlder(all, w, k) <==> NoOlder(Without(all, u), w, k);
    assert forall u' :: NextUser(all, w, u') <==> NextUser(Without(all, u), w, u');
  }

  /** At the top, the run is right exactly if the skip is. */
  lemma {:induction false} TopRun(iters: seq<Cursor>, over: Reuse)
    requires AllSorted(iters) && HasTop(iters) && |over| == |iters| && GoodKeys(Merged(iters))
    ensures var t := TopOf(iters); SkipRight(iters, over) <==> RunRight(Merged(iters), iters[t].es, over[t], iters[t].pos)
    ensures IsNewest(Merged(iters), TopKey(iters))
    ensures forall j :: j in Merged(iters) && UserKey(j) != UserKey(TopKey(iters)) ==> Less(UserKey(TopKey(iters)), UserKey(j))
  {
    hide Less, Merged, UserKey, InPlace, NoOlder, IsNewest, GoodKeys;
    StepDrops(iters);
    LeastKey(Merged(iters), TopKey(iters));
    LessIrreflexive(UserKey(TopKey(iters)));
    var u := UserKey(TopKey(iters));
    assert forall u' :: NextUser(Merged(iters), u, u') <==> LeastOther(Merged(iters), u, u');
  }

  lemma {:induction false} OneNewest(all: map<bytes, bytes>, j: bytes, k: bytes)
    requires GoodKeys(all) && IsNewest(all, j) && IsNewest(all, k) && UserKey(j) == UserKey(k)
    ensures j == k
  {
    hide Unrelated;
    MakeOfParse(j);
    MakeOfParse(k);
  }

  lemma {:induction false} NewestWithout(all: map<bytes, bytes>, u: bytes, k: bytes)
    ensures IsNewest(Without(all, u), k) <==> IsNewest(all, k) && UserKey(k) != u
  {
    hide UserKey, Seq, Kind;
  }

  /** The sources are right if and only if the first skip is, and what it leaves. */
  lemma {:induction false} SourcesStep(iters: seq<Cursor>, over: Reuse)
    requires AllSorted(iters) && HasTop(iters) && |over| == |iters| && GoodKeys(Merged(iters))
    ensures Holds(iters, over, TopSlice(iters))
    ensures SourcesRight(iters, over) <==> SkipRight(iters, over) && SourcesRight(SkipFrom(iters, over, TopSlice(iters)), over)
  {
    hide Less, Merged, UserKey, GoodKeys, IsNewest, SkipRight, RunRight, ToMap, Remaining, SkipFrom, Without, IsTop;
    TopSliceHolds(iters, over);
    TopRun(iters, over);
    SkipRightIff(iters, over);
    var top, k, rest := TopOf(iters), TopKey(iters), SkipFrom(iters, over, TopSlice(iters));
    TopDecidesAt(iters, top, iters[top].pos);
    assert Further(iters, rest);
    if SkipRight(iters, over) {
      forall t: nat, p: nat | t < |iters| && p < |iters[t].es|
        ensures Starts(iters, t, p) <==> (t == top && p == iters[top].pos) || Starts(rest, t, p)
        ensures Starts(rest, t, p) ==>
          (RunRight(Merged(rest), iters[t].es, over[t], p) <==> RunRight(Merged(iters), iters[t].es, over[t], p))
      {
        StartsStep(iters, over, t, p);
      }
    }
  }

  lemma {:induction false} StartsStep(iters: seq<Cursor>, over: Reuse, t: nat, p: nat)
    requires AllSorted(iters) && HasTop(iters) && |over| == |iters| && GoodKeys(Merged(iters)) && SkipRight(iters, over)
    requires t < |iters| && p < |iters[t].es|
    ensures Holds(iters, over, TopSlice(iters))
    ensures var rest := SkipFrom(iters, over, TopSlice(iters));
      && (Starts(iters, t, p) <==> (t == TopOf(iters) && p == iters[t].pos) || Starts(rest, t, p))
      && (Starts(rest, t, p) ==>
            (RunRight(Merged(rest), iters[t].es, over[t], p) <==> RunRight(Merged(iters), iters[t].es, over[t], p)))
  {
    hide Less, Merged, UserKey, GoodKeys, IsNewest, SkipRight, RunRight, Decides, Remaining, SkipFrom, Without, IsTop;
    TopSliceHolds(iters, over);
    TopRun(iters, over);
    SkipRightIff(iters, over);
    SkipShrinks(iters, over, TopSlice(iters));
    var all, top, k := Merged(iters), TopKey(iters), iters[t].es[p].key;
    NewestWithout(all, UserKey(top), k);
    if IsNewest(all, k) {
      NewestIn(all, k);
      if UserKey(k) == UserKey(top) {
        OneNewest(all, k, top);
        TopDecidesAt(iters, t, p);
      } else {
        NewestIn(Without(all, UserKey(top)), k);
        DecidesStays(iters, over, TopSlice(iters), t, p);
        RunStays(all, UserKey(top), iters[t].es, over[t], p);
      }
    }
  }

  lemma {:induction false} NewestIn(all: map<bytes, bytes>, k: bytes)
    requires IsNewest(all, k)
    ensures k in all
  {
  }

  /** Every skip of a scan is right if and only if the sources are. */
  lemma {:induction false} SkipsRightIff(iters: seq<Cursor>, over: Reuse)
    requires AllSorted(iters) && |over| == |iters| && GoodKeys(Merged(iters))
    ensures SkipsRight(iters, over) <==> SourcesRight(iters, over)
    decreases Remaining(iters)
  {
    hide Less, Merged, UserKey, GoodKeys, IsNewest, SkipRight, RunRight, Remaining, IsTop, Without, AllSorted, SourcesRight;
    if HasTop(iters) {
      SourcesStep(iters, over);
      if SkipRight(iters, over) {
        SkipRightIff(iters, over);
        SkipShrinks(iters, over, TopSlice(iters));
        GoodWithout(Merged(iters), UserKey(TopKey(iters)));
        SkipsRightIff(SkipFrom(iters, over, TopSlice(iters)), over);
      }
    } else {
      NoStart(iters, over);
    }
  }

  lemma {:induction false} NoStart(iters: seq<Cursor>, over: Reuse)
    requires |over| == |iters| && !HasTop(iters)
    ensures SourcesRight(iters, over)
  {
    hide RunRight;
    NoTopEmpty(iters);
  }

  // ---- what goes wrong otherwise

  /** With the array kept and the same source on top again, the next entry is passed exactly when its
      user key is as long as the one to be skipped. */
  lemma {:induction false} NextPassedIff(iters: seq<Cursor>, over: Reuse, t: nat, p: nat)
    requires AllSorted(iters) && HasTop(iters) && |over| == |iters| && t == TopOf(iters) && p == iters[t].pos
    requires p + 1 < |iters[t].es| && p + 1 in over[t]
    requires var u, k := UserKey(iters[t].es[p].key), iters[t].es[p + 1].key;
      |k| >= TRAILER_SIZE && UserKey(k) != u && Unrelated(UserKey(k), u)
    requires HasTop(Stepped(iters)) && TopOf(Stepped(iters)) == t
    ensures Holds(iters, over, TopSlice(iters))
    ensures var u, k := UserKey(iters[t].es[p].key), iters[t].es[p + 1].key;
      k !in Merged(SkipFrom(iters, over, TopSlice(iters))) <==> |UserKey(k)| == |u|
  {
    hide Less, Merged, Remaining, Before, AllSorted, Unrelated, UserKey;
    var es, next, sl := iters[t].es, Stepped(iters), TopSlice(iters);
    TopSliceHolds(iters, over);
    StepDrops(iters);
    SteppedFurther(iters);
    assert next[t] == iters[t].Past(TopKey(iters));
    ReadsPastGroup(es, over[t], p, p + 1, UserKey(es[p].key), UserKey(es[p + 1].key));
    StillToCome(next, t, p + 1);
    if Matches(next, over, sl) {
      SkipShrinks(next, over, sl);
    }
  }

  /** A table's block, with no other source left: while the array is kept, everything is passed that
      has a user key of the same length. */
  lemma {:induction false} SkipsSameLength(c: Cursor, over: set<nat>, r: nat)
    requires c.pos < r <= |c.es| && InPlace(over, c.pos, if r < |c.es| then r else r - 1)
    requires forall j :: c.pos <= j < r ==> |c.es[j].key| == |c.es[c.pos].key| >= TRAILER_SIZE
    requires r < |c.es| ==> |c.es[r].key| != |c.es[c.pos].key| && |c.es[r].key| >= TRAILER_SIZE
    ensures HasTop([c]) && SkipFrom([c], [over], TopSlice([c])) == [Cursor(c.es, r)]
  {
    OneSource(c);
    SkipsOn(c, over, Slice(0, c.pos, |c.es[c.pos].key| - TRAILER_SIZE), r);
  }

  lemma {:induction false} OneSource(c: Cursor)
    ensures c.Live() ==> IsTop([c], 0) && TopOf([c]) == 0 && TopKey([c]) == c.Head()
    ensures c.Live() ==> Stepped([c]) == [Cursor(c.es, c.pos + 1)]
    ensures !c.Live() ==> !HasTop([c])
  {
    if c.Live() {
      assert IsTop([c], 0);
    }
  }

  lemma {:induction false} SkipsOn(c: Cursor, over: set<nat>, sl: Slice, r: nat)
    requires sl.src == 0 && sl.pos <= c.pos < r <= |c.es| && InPlace(over, sl.pos, if r < |c.es| then r else r - 1)
    requires forall j :: sl.pos <= j < r ==> |c.es[j].key| == sl.len + TRAILER_SIZE
    requires r < |c.es| ==> |c.es[r].key| != sl.len + TRAILER_SIZE && |c.es[r].key| >= TRAILER_SIZE
    ensures HasTop([c]) && Holds([c], [over], sl) && SkipFrom([c], [over], sl) == [Cursor(c.es, r)]
    decreases r - c.pos
  {
    hide Remaining, IsTop;
    OneSource(c);
    var next := Cursor(c.es, c.pos + 1);
    OneSource(next);
    if next.pos < r {
      SameLengthRead(c.es, over, sl.pos, next.pos, sl.len + TRAILER_SIZE);
      SkipsOn(next, over, sl, r);
    }
  }

  lemma {:induction false} SameLengthRead(es: seq<Entry>, over: set<nat>, p: nat, x: nat, n: nat)
    requires p <= x < |es| && InPlace(over, p, x) && forall j :: p <= j <= x ==> |es[j].key| == n
    ensures ArrayAt(es, over, p, x) == es[x].key
    decreases x
  {
    if x > p {
      SameLengthRead(es, over, p, x - 1, n);
    }
  }

  // ---- a condition on the sources alone

  /** Where an array is written to by another user key, that one has a different length, and no other
      source holds versions of the old one. So it is with memtables only, which reuse no arrays. */
  ghost predicate KeysStay(iters: seq<Cursor>, over: Reuse) {
    && |over| == |iters|
    && forall i, q {:trigger q in over[i]} :: 0 <= i < |iters| && q in over[i] && 0 < q < |iters[i].es| ==>
         var u, u' := UserKey(iters[i].es[q - 1].key), UserKey(iters[i].es[q].key);
         u' == u || (|u'| != |u| && forall j, e :: 0 <= j < |iters| && j != i && e in iters[j].es ==> UserKey(e.key) != u)
  }

  lemma {:induction false} MemtablesStay(iters: seq<Cursor>, over: Reuse)
    requires |over| == |iters| && forall i :: 0 <= i < |over| ==> over[i] == {}
    ensures KeysStay(iters, over)
  {
  }

  lemma {:induction false} KeysStayOn(iters: seq<Cursor>, iters': seq<Cursor>, over: Reuse)
    requires KeysStay(iters, over) && |iters'| == |iters| && forall i :: 0 <= i < |iters| ==> iters'[i].es == iters[i].es
    ensures KeysStay(iters', over)
  {
    hide UserKey;
  }

  lemma {:induction false} StayingIsRight(iters: seq<Cursor>, over: Reuse)
    requires AllSorted(iters) && HasTop(iters) && KeysStay(iters, over) && GoodKeys(Merged(iters))
    ensures SkipRight(iters, over)
  {
    hide UserKey, Merged, Less, Sorted, Before, GoodKeys;
    var u, t := UserKey(TopKey(iters)), TopOf(iters);
    var es, p := iters[t].es, iters[t].pos;
    var q := GroupEnd(es, p, u);
    assert q > p;
    if q < |es| && InPlace(over[t], p, q) {
      assert q in over[t];
      forall j | j in Merged(iters) && UserKey(j) == u
        ensures !Less(es[q - 1].key, j)
      {
        LastOfSource(iters, t, q, u, j);
      }
    }
  }

  /** And so is every skip after it. */
  lemma {:induction false} StayingAllRight(iters: seq<Cursor>, over: Reuse)
    requires AllSorted(iters) && |over| == |iters| && KeysStay(iters, over) && GoodKeys(Merged(iters))
    ensures SourcesRight(iters, over)
    decreases Remaining(iters)
  {
    hide Less, Merged, Remaining, IsTop, UserKey, AllSorted, GoodKeys, Without, ArrayAt, SkipRight, KeysStay, SourcesRight;
    if HasTop(iters) {
      SourcesStep(iters, over);
      StayingIsRight(iters, over);
      SkipRightIff(iters, over);
      SkipShrinks(iters, over, TopSlice(iters));
      KeysStayOn(iters, SkipFrom(iters, over, TopSlice(iters)), over);
      GoodWithout(Merged(iters), UserKey(TopKey(iters)));
      StayingAllRight(SkipFrom(iters, over, TopSlice(iters)), over);
    } else {
      NoStart(iters, over);
    }
  }

  /** When no other source has versions of u, the run in source t ends with its last one. */
  lemma {:induction false} LastOfSource(iters: seq<Cursor>, t: nat, q: nat, u: bytes, k: bytes)
    requires AllSorted(iters) && t < |iters| && iters[t].pos < q < |iters[t].es| && k in Merged(iters) && UserKey(k) == u
    requires forall j, e :: 0 <= j < |iters| && j != t && e in iters[j].es ==> UserKey(e.key) != u
    requires UserKey(iters[t].es[q - 1].key) == u != UserKey(iters[t].es[q].key) && GoodKeys(Merged(iters))
    ensures !Less(iters[t].es[q - 1].key, k)
  {
    hide UserKey, Merged, Less, ToMap, GoodKeys;
    var es := iters[t].es;
    var i := MergedHas(iters, k);
    InToMap(iters[i].Rest(), k);
    var m :| 0 <= m < |iters[i].Rest()| && iters[i].Rest()[m].key == k;
    assert iters[i].es[iters[i].pos + m].key == k && iters[i].es[iters[i].pos + m] in iters[i].es;
    assert i == t;
    StillToCome(iters, t, q - 1);
    StillToCome(iters, t, q);
    if iters[t].pos + m < q {
      LessEqNotAbove(es, iters[t].pos + m, q - 1);
    } else {
      assert iters[t].pos + m == q || Less(es[q].key, k);
      NotBack(Merged(iters), es[q - 1].key, es[q].key, k);
    }
  }

  lemma {:induction false} LessEqNotAbove(es: seq<Entry>, i: nat, j: nat)
    requires Sorted(es) && i <= j < |es|
    ensures !Less(es[j].key, es[i].key)
  {
  }

  /** Between two versions of one user key no other user key sorts. */
  lemma {:induction false} NotBack(all: map<bytes, bytes>, a: bytes, b: bytes, c: bytes)
    requires GoodKeys(all) && a in all && b in all && c in all && Less(a, b) && UserKey(a) != UserKey(b)
    ensures UserKey(c) == UserKey(a) ==> !Less(b, c)
  {
    hide UserKey, Less;
    UserOrder(a, b);
    LessTotal(UserKey(a), UserKey(b));
    if UserKey(c) == UserKey(a) {
      UserOrder(b, c);
    }
  }
}
