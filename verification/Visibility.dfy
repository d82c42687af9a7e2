/** What a scan of stored versions has to show: of every user key the newest version, unless deleted. */
module Visibility {
  import opened Bytes
  import opened Binary
  import opened InternalKey
  import opened Block

  // ---- what a store shows

  /** The stored keys the scan is promised for: internal keys whose user keys are not proper
      prefixes of each other, with one of the two kinds. */
  ghost predicate GoodKeys(all: map<bytes, bytes>) {
    && (forall k :: k in all ==> |k| >= TRAILER_SIZE && Kind(k) <= KIND_SET)
    && (forall j, k :: j in all && k in all ==> Unrelated(UserKey(j), UserKey(k)))
  }

  /** No version of the same user key is newer. */
  ghost predicate IsNewest(all: map<bytes, bytes>, k: bytes) {
    && k in all
    && forall j :: j in all && UserKey(j) == UserKey(k) ==> !Newer(Seq(j), Kind(j), Seq(k), Kind(k))
  }

  /** A scan of the store shows the user key with the value: its newest version is a set. */
  ghost predicate Visible(all: map<bytes, bytes>, u: bytes, v: bytes) {
    exists k :: IsNewest(all, k) && UserKey(k) == u && Kind(k) == KIND_SET && all[k] == v
  }

  /** What a scan yields from here on: the visible keys that pass, in order, each once. */
  ghost predicate Yields(all: map<bytes, bytes>, out: seq<Entry>) {
    && Sorted(out)
    && forall u, v :: Visible(all, u, v) <==> Entry(u, v) in out
  }

  /** The part of a store whose user keys are above u. */
  ghost function Above(all: map<bytes, bytes>, u: bytes): map<bytes, bytes> {
    map k | k in all && Less(u, UserKey(k)) :: all[k]
  }

  /** The part of a store whose user keys are not below u. */
  ghost function From(all: map<bytes, bytes>, u: bytes): map<bytes, bytes> {
    map k | k in all && !Less(UserKey(k), u) :: all[k]
  }

  ghost function Without(all: map<bytes, bytes>, u: bytes): map<bytes, bytes> {
    map k | k in all && UserKey(k) != u :: all[k]
  }

  // ---- order of internal keys

  lemma {:induction false} TrailerApart(k: bytes)
    requires |k| >= TRAILER_SIZE
    ensures k == UserKey(k) + k[|UserKey(k)|..]
  {
  }

  /** Keys of different user keys are ordered like the user keys. */
  lemma {:induction false} UserOrder(j: bytes, k: bytes)
    requires |j| >= TRAILER_SIZE && |k| >= TRAILER_SIZE
    requires Unrelated(UserKey(j), UserKey(k)) && UserKey(j) != UserKey(k)
    ensures Less(j, k) <==> Less(UserKey(j), UserKey(k))
  {
  }

  /** Versions of one user key are ordered newest first. */
  lemma {:induction false} NewestFirst(j: bytes, k: bytes)
    requires |j| >= TRAILER_SIZE && |k| >= TRAILER_SIZE && UserKey(j) == UserKey(k)
    ensures Less(j, k) <==> Newer(Seq(j), Kind(j), Seq(k), Kind(k))
  {
    hide Less, Make;
    MakeOfParse(j);
    MakeOfParse(k);
    VersionOrder(UserKey(j), Seq(j), Kind(j), Seq(k), Kind(k));
  }

  /** The least key of a store is the newest version of the least user key. */
  lemma {:induction false} LeastKey(all: map<bytes, bytes>, k: bytes)
    requires GoodKeys(all) && k in all && forall j :: j in all && j != k ==> Less(k, j)
    ensures IsNewest(all, k)
    ensures forall j :: j in all && UserKey(j) != UserKey(k) ==> Less(UserKey(k), UserKey(j))
  {
    hide Less, Unrelated;
    forall j | j in all && UserKey(j) == UserKey(k)
      ensures !Newer(Seq(j), Kind(j), Seq(k), Kind(k))
    {
      if j != k {
        NewestFirst(j, k);
        LessTotal(j, k);
      }
    }
    forall j | j in all && UserKey(j) != UserKey(k)
      ensures Less(UserKey(k), UserKey(j))
    {
      UserOrder(k, j);
    }
  }

  // ---- what stepping over user keys does

  /** Taking one user key out leaves what is visible of the others. */
  lemma {:induction false} VisibleWithout(all: map<bytes, bytes>, u: bytes, w: bytes, v: bytes)
    requires w != u
    ensures Visible(Without(all, u), w, v) <==> Visible(all, w, v)
  {
    var rest := Without(all, u);
    if k :| IsNewest(rest, k) && UserKey(k) == w && Kind(k) == KIND_SET && rest[k] == v {
      assert IsNewest(all, k);
    }
    if k :| IsNewest(all, k) && UserKey(k) == w && Kind(k) == KIND_SET && all[k] == v {
      assert IsNewest(rest, k);
    }
  }

  lemma {:induction false} GoneWithout(all: map<bytes, bytes>, u: bytes, v: bytes)
    ensures !Visible(Without(all, u), u, v)
  {
  }

  /** A user key has one newest version, so it shows one value or none. */
  lemma {:induction false} VisibleOnce(all: map<bytes, bytes>, k: bytes, v: bytes)
    requires GoodKeys(all) && IsNewest(all, k)
    ensures Visible(all, UserKey(k), v) <==> Kind(k) == KIND_SET && all[k] == v
  {
    hide Unrelated;
    if j :| IsNewest(all, j) && UserKey(j) == UserKey(k) && Kind(j) == KIND_SET && all[j] == v {
      MakeOfParse(j);
      MakeOfParse(k);
      assert j == k;
    }
  }

  lemma {:induction false} GoodWithout(all: map<bytes, bytes>, u: bytes)
    requires GoodKeys(all)
    ensures GoodKeys(Without(all, u))
  {
  }

  /** Once a key of another user key is least behind a version of u, no version of u is left. */
  lemma {:induction false} GroupPassed(all: map<bytes, bytes>, view: map<bytes, bytes>, d: bytes, k: bytes)
    requires GoodKeys(all) && d in all && (forall j :: j in view ==> j in all && all[j] == view[j])
    requires k in view && UserKey(k) != UserKey(d) && Less(d, k)
    requires forall j :: j in view && j != k ==> Less(k, j)
    ensures view == Without(view, UserKey(d))
  {
    hide Less, Unrelated;
    LeastKey(view, k);
    UserOrder(d, k);
    forall j | j in view
      ensures UserKey(j) != UserKey(d)
    {
      if UserKey(j) == UserKey(d) {
        LessTotal(UserKey(d), UserKey(k));
      }
    }
  }

  /** The key with its value is the least that old shows, and view is what comes after it. */
  ghost predicate NextVisible(before: map<bytes, bytes>, view: map<bytes, bytes>, key: bytes, val: bytes) {
    && view == Above(before, key)
    && (exists k :: k in before && UserKey(k) == key)
    && forall u, v :: Visible(before, u, v) <==> (u == key && v == val) || Visible(view, u, v)
  }

  /** view lacks only user keys that show nothing and come before all of view. */
  ghost predicate Rest(all: map<bytes, bytes>, view: map<bytes, bytes>) {
    && (forall j :: j in view ==> j in all && all[j] == view[j])
    && (forall j, k :: j in all && j !in view && k in view ==> Less(UserKey(j), UserKey(k)))
    && (forall u, v :: Visible(view, u, v) <==> Visible(all, u, v))
  }

  lemma {:induction false} RestStarts(all: map<bytes, bytes>)
    ensures Rest(all, all)
  {
  }

  lemma {:induction false} NothingVisible(all: map<bytes, bytes>)
    ensures Rest(all, map[]) ==> forall u, v :: !Visible(all, u, v)
  {
  }

  /** Taking the least user key out of what is left leaves what is above it in the whole store. */
  lemma {:induction false} LeastGroup(all: map<bytes, bytes>, view: map<bytes, bytes>, k: bytes)
    requires GoodKeys(view) && Rest(all, view) && k in view && forall j :: j in view && j != k ==> Less(k, j)
    ensures Without(view, UserKey(k)) == Above(all, UserKey(k))
  {
    hide Less, Unrelated, UserKey, Visible, IsNewest;
    LeastKey(view, k);
    var u := UserKey(k);
    LessIrreflexive(u);
    forall j | j in all
      ensures j in view && UserKey(j) != u <==> Less(u, UserKey(j))
    {
      LessTotal(u, UserKey(j));
    }
  }

  lemma {:induction false} FoundVisible(all: map<bytes, bytes>, view: map<bytes, bytes>, k: bytes)
    requires GoodKeys(view) && Rest(all, view) && k in view && forall j :: j in view && j != k ==> Less(k, j)
    requires Kind(k) == KIND_SET
    ensures NextVisible(all, Without(view, UserKey(k)), UserKey(k), view[k])
  {
    hide Less, UserKey, Visible, IsNewest, Kind;
    LeastKey(view, k);
    LeastGroup(all, view, k);
    GroupShows(view, k);
  }

  /** The least user key shows the value of its newest version, if that is a set. */
  lemma {:induction false} GroupShows(view: map<bytes, bytes>, k: bytes)
    requires GoodKeys(view) && IsNewest(view, k)
    ensures forall u, v :: Visible(view, u, v) <==>
      (u == UserKey(k) && v == view[k] && Kind(k) == KIND_SET) || Visible(Without(view, UserKey(k)), u, v)
  {
    hide Less, UserKey, Visible, Kind, GoodKeys, Without;
    forall u, v
      ensures Visible(view, u, v) <==>
        (u == UserKey(k) && v == view[k] && Kind(k) == KIND_SET) || Visible(Without(view, UserKey(k)), u, v)
    {
      if u == UserKey(k) {
        VisibleOnce(view, k, v);
        GoneWithout(view, u, v);
      } else {
        VisibleWithout(view, UserKey(k), u, v);
      }
    }
  }

  lemma {:induction false} TombstonePassed(all: map<bytes, bytes>, view: map<bytes, bytes>, k: bytes)
    requires GoodKeys(view) && Rest(all, view) && k in view && forall j :: j in view && j != k ==> Less(k, j)
    requires Kind(k) != KIND_SET
    ensures Rest(all, Without(view, UserKey(k)))
  {
    hide Less, UserKey, Visible, Kind, IsNewest;
    LeastKey(view, k);
    LeastGroup(all, view, k);
    GroupShows(view, k);
    var rest := Without(view, UserKey(k));
    forall i, j | i in all && i !in rest && j in rest
      ensures Less(UserKey(i), UserKey(j))
    {
      assert Less(UserKey(k), UserKey(j));
    }
  }

  // ---- a whole scan

  lemma {:induction false} NothingYields(all: map<bytes, bytes>)
    requires forall u, v :: !Visible(all, u, v)
    ensures Yields(all, [])
  {
  }

  lemma {:induction false} YieldsMore(all: map<bytes, bytes>, view: map<bytes, bytes>, e: Entry, out: seq<Entry>)
    requires NextVisible(all, view, e.key, e.value) && Yields(view, out)
    ensures Yields(all, [e] + out)
  {
    hide Less, UserKey, IsNewest;
    forall i | 0 <= i < |out|
      ensures Less(e.key, out[i].key)
    {
      assert Entry(out[i].key, out[i].value) in out;
      assert Visible(view, out[i].key, out[i].value);
      VisibleStored(view, out[i].key, out[i].value);
    }
  }

  lemma {:induction false} VisibleStored(all: map<bytes, bytes>, u: bytes, v: bytes)
    requires Visible(all, u, v)
    ensures exists k :: k in all && UserKey(k) == u
  {
  }
}
