/** MergeIterator: a binary heap of sorted sources, container/heap written out. */
module Merge {
  import opened Bytes
  import opened Block

  /** A sorted source and where it stands: the contract of the Iterator interface. For tables it is
      proved in TableReader (TableIterator.First, Next, SeekGE), for a skiplist that others write to
      meanwhile in SkiplistSafety (SeekDecides, WalkIncreases, WalkComplete). */
  datatype Cursor = Cursor(es: seq<Entry>, pos: nat) {
    predicate Live() {
      pos < |es|
    }

    function Head(): bytes {
      if Live() then es[pos].key else []
    }

    function Rest(): seq<Entry> {
      if pos <= |es| then es[pos..] else []
    }

    /** One entry further if the key is the current one. */
    function Past(key: bytes): Cursor {
      if Live() && Head() == key then Cursor(es, pos + 1) else this
    }
  }

  /** Position of the first entry not below the key. */
  function SeekPos(es: seq<Entry>, key: bytes): (p: nat)
    ensures p <= |es| && (p < |es| ==> !Less(es[p].key, key))
    ensures forall i :: 0 <= i < p ==> Less(es[i].key, key)
  {
    if es == [] || !Less(es[0].key, key) then 0 else 1 + SeekPos(es[1..], key)
  }

  // ---- what a merge means

  function ToMap(es: seq<Entry>): map<bytes, bytes> {
    if es == [] then map[] else ToMap(es[1..])[es[0].key := es[0].value]
  }

  /** The union of what the sources still hold; for a key in several sources the one with the
      lowest index decides. */
  function Merged(iters: seq<Cursor>): map<bytes, bytes> {
    if iters == [] then map[]
    else ToMap(iters[|iters| - 1].Rest()) + Merged(iters[..|iters| - 1])
  }

  function Remaining(iters: seq<Cursor>): nat {
    if iters == [] then 0 else |iters[|iters| - 1].Rest()| + Remaining(iters[..|iters| - 1])
  }

  ghost predicate AllSorted(iters: seq<Cursor>) {
    forall i :: 0 <= i < |iters| ==> Sorted(iters[i].es) && iters[i].pos <= |iters[i].es|
  }

  lemma {:induction false} InToMap(es: seq<Entry>, k: bytes)
    ensures k in ToMap(es) <==> exists i :: 0 <= i < |es| && es[i].key == k
  {
    if es != [] {
      InToMap(es[1..], k);
      if i :| 0 <= i < |es| && es[i].key == k {
        if i > 0 {
          assert es[1..][i - 1].key == k;
        }
      }
      if k in ToMap(es[1..]) {
        var i :| 0 <= i < |es[1..]| && es[1..][i].key == k;
        assert es[i + 1].key == k;
      }
    }
  }

  lemma {:induction false} SortedTail(es: seq<Entry>)
    requires Sorted(es) && es != []
    ensures Sorted(es[1..]) && forall k :: k in ToMap(es[1..]) ==> Less(es[0].key, k)
    ensures ToMap(es[1..]) == ToMap(es) - {es[0].key}
  {
    hide Less;
    forall k | k in ToMap(es[1..])
      ensures Less(es[0].key, k) && k != es[0].key
    {
      InToMap(es[1..], k);
      var i :| 0 <= i < |es[1..]| && es[1..][i].key == k;
      assert es[i + 1].key == k;
      LessIrreflexive(k);
    }
  }

  /** A key in the union has the value of the first source that holds it. */
  lemma {:induction false} MergedAt(iters: seq<Cursor>, k: bytes, i: nat)
    requires i < |iters| && k in ToMap(iters[i].Rest())
    requires forall j :: 0 <= j < i ==> k !in ToMap(iters[j].Rest())
    ensures k in Merged(iters) && Merged(iters)[k] == ToMap(iters[i].Rest())[k]
  {
    hide ToMap, Cursor.Rest;
    var n := |iters| - 1;
    if i < n {
      MergedAt(iters[..n], k, i);
    } else {
      NotMerged(iters[..n], k);
    }
  }

  lemma {:induction false} NotMerged(iters: seq<Cursor>, k: bytes)
    requires forall j :: 0 <= j < |iters| ==> k !in ToMap(iters[j].Rest())
    ensures k !in Merged(iters)
  {
    if iters != [] {
      NotMerged(iters[..|iters| - 1], k);
    }
  }

  lemma {:induction false} MergedHas(iters: seq<Cursor>, k: bytes) returns (i: nat)
    requires k in Merged(iters)
    ensures i < |iters| && k in ToMap(iters[i].Rest())
  {
    var n := |iters| - 1;
    if k in Merged(iters[..n]) {
      i := MergedHas(iters[..n], k);
    } else {
      i := n;
    }
  }

  /** Dropping one key from every source drops it from the union. */
  lemma {:induction false} MergedDrop(iters: seq<Cursor>, iters': seq<Cursor>, k: bytes)
    requires |iters| == |iters'|
    requires forall i :: 0 <= i < |iters| ==> ToMap(iters'[i].Rest()) == ToMap(iters[i].Rest()) - {k}
    ensures Merged(iters') == Merged(iters) - {k}
  {
    if iters != [] {
      var n := |iters| - 1;
      MergedDrop(iters[..n], iters'[..n], k);
    }
  }

  // ---- the heap order

  /** iterHeap.Less on source numbers: by key, then by source. */
  predicate Before(iters: seq<Cursor>, a: nat, b: nat)
    requires a < |iters| && b < |iters|
  {
    Less(iters[a].Head(), iters[b].Head()) || (iters[a].Head() == iters[b].Head() && a < b)
  }

  lemma {:induction false} BeforeTotal(iters: seq<Cursor>, a: nat, b: nat)
    requires a < |iters| && b < |iters|
    ensures a == b || Before(iters, a, b) || Before(iters, b, a)
    ensures !(Before(iters, a, b) && Before(iters, b, a))
  {
  }

  /** c is not after a when it is not after b and b is not after a. */
  lemma {:induction false} NotBeforeTransitive(iters: seq<Cursor>, a: nat, b: nat, c: nat)
    requires a < |iters| && b < |iters| && c < |iters|
    requires !Before(iters, a, b) && !Before(iters, b, c)
    ensures !Before(iters, a, c)
  {
    hide Less;
    var x, y, z := iters[a].Head(), iters[b].Head(), iters[c].Head();
    LessTotal(x, y);
    LessTotal(y, z);
    LessTotal(x, z);
    LessIrreflexive(x);
    if Less(y, x) && Less(z, y) {
      LessTransitive(z, y, x);
    }
  }

  function Parent(k: int): int {
    (k - 1) / 2
  }

  ghost predicate Items(iters: seq<Cursor>, h: seq<nat>) {
    forall k :: 0 <= k < |h| ==> h[k] < |iters|
  }

  /** No item comes before its parent, except perhaps item x. */
  ghost predicate OrderedBut(iters: seq<Cursor>, h: seq<nat>, n: int, x: int)
    requires Items(iters, h) && n <= |h|
  {
    forall k {:trigger h[k]} :: 0 < k < n && k != x ==> !Before(iters, h[k], h[Parent(k)])
  }

  /** No child of x comes before the parent of x. */
  ghost predicate Bridged(iters: seq<Cursor>, h: seq<nat>, n: int, x: int)
    requires Items(iters, h) && n <= |h|
  {
    forall k {:trigger h[k]} :: 0 < k < n && Parent(k) == x && 0 < x ==> !Before(iters, h[k], h[Parent(x)])
  }

  /** No item comes before its parent, except perhaps the children of x. */
  ghost predicate OrderedAbove(iters: seq<Cursor>, h: seq<nat>, n: int, x: int)
    requires Items(iters, h) && n <= |h|
  {
    forall k {:trigger h[k]} :: 0 < k < n && Parent(k) != x ==> !Before(iters, h[k], h[Parent(k)])
  }

  ghost predicate Ordered(iters: seq<Cursor>, h: seq<nat>)
    requires Items(iters, h)
  {
    OrderedBut(iters, h, |h|, -1)
  }

  lemma {:induction false} TopIsFirst(iters: seq<Cursor>, h: seq<nat>, k: nat)
    requires Items(iters, h) && Ordered(iters, h) && k < |h|
    ensures !Before(iters, h[k], h[0])
    decreases k
  {
    hide Before;
    if k == 0 {
      BeforeTotal(iters, h[0], h[0]);
    } else {
      TopIsFirst(iters, h, Parent(k));
      NotBeforeTransitive(iters, h[k], h[Parent(k)], h[0]);
    }
  }

  function Swapped(h: seq<nat>, i: nat, j: nat): (r: seq<nat>)
    requires i < |h| && j < |h|
    ensures |r| == |h|
  {
    h[i := h[j]][j := h[i]]
  }

  lemma {:induction false} SwapKeeps(h: seq<nat>, i: nat, j: nat)
    requires i < |h| && j < |h|
    ensures multiset(Swapped(h, i, j)) == multiset(h)
  {
  }

  lemma {:induction false} SwapBelow(h: seq<nat>, i: nat, j: nat, n: nat)
    requires i < n <= |h| && j < n
    ensures Swapped(h, i, j)[n..] == h[n..]
  {
  }

  /** Pop puts the top behind the heap that remains, whose own top may then be out of order. */
  lemma {:induction false} TopGoesLast(iters: seq<Cursor>, h: seq<nat>)
    requires h != [] && Items(iters, h) && OrderedAbove(iters, h, |h|, 0)
    ensures var n := |h| - 1; var h' := Swapped(h, 0, n);
      Items(iters, h') && OrderedAbove(iters, h', n, 0) && Bridged(iters, h', n, 0) && h'[n..] == [h[0]]
    ensures |h| == 1 ==> OrderedBut(iters, Swapped(h, 0, 0), 0, -1)
  {
    hide Before;
    var n := |h| - 1;
    var h' := Swapped(h, 0, n);
    assert h'[n] == h[0] && forall k :: 0 < k < n ==> h'[k] == h[k];
    forall k | 0 < k < n && Parent(k) != 0
      ensures !Before(iters, h'[k], h'[Parent(k)])
    {
      assert 0 < Parent(k) < n;
    }
  }

  lemma {:induction false} WithoutLast(iters: seq<Cursor>, h: seq<nat>)
    requires h != [] && Items(iters, h) && OrderedBut(iters, h, |h| - 1, -1)
    ensures var r := h[..|h| - 1];
      Items(iters, r) && Ordered(iters, r) && multiset(r) == multiset(h) - multiset{h[|h| - 1]} && h[|h| - 1..] == [h[|h| - 1]]
  {
    hide Before;
    var n := |h| - 1;
    assert h == h[..n] + [h[n]];
  }

  lemma {:induction false} UpStep(iters: seq<Cursor>, h: seq<nat>, j: nat)
    requires Items(iters, h) && 0 < j < |h| && Before(iters, h[j], h[Parent(j)])
    requires OrderedBut(iters, h, |h|, j) && Bridged(iters, h, |h|, j)
    ensures var h' := Swapped(h, Parent(j), j);
      Items(iters, h') && OrderedBut(iters, h', |h|, Parent(j)) && Bridged(iters, h', |h|, Parent(j))
  {
    hide Before;
    var i := Parent(j);
    var h' := Swapped(h, i, j);
    BeforeTotal(iters, h[j], h[i]);
    forall k | 0 < k < |h| && k != i
      ensures !Before(iters, h'[k], h'[Parent(k)])
    {
      if k != j && Parent(k) == i {
        NotBeforeTransitive(iters, h[k], h[i], h[j]);
      }
    }
    forall k | 0 < k < |h| && Parent(k) == i && 0 < i
      ensures !Before(iters, h'[k], h'[Parent(i)])
    {
      if k != j {
        NotBeforeTransitive(iters, h[k], h[i], h[Parent(i)]);
      }
    }
  }

  lemma {:induction false} DownStep(iters: seq<Cursor>, h: seq<nat>, n: nat, i: nat, j: nat)
    requires Items(iters, h) && i < j < n <= |h| && Parent(j) == i && Before(iters, h[j], h[i])
    requires forall k {:trigger h[k]} :: 0 < k < n && Parent(k) == i && k != j ==> !Before(iters, h[k], h[j])
    requires OrderedAbove(iters, h, n, i) && Bridged(iters, h, n, i)
    ensures var h' := Swapped(h, i, j);
      Items(iters, h') && OrderedAbove(iters, h', n, j) && Bridged(iters, h', n, j)
  {
    hide Before;
    var h' := Swapped(h, i, j);
    BeforeTotal(iters, h[j], h[i]);
    forall k | 0 < k < n && Parent(k) != j
      ensures !Before(iters, h'[k], h'[Parent(k)])
    {
    }
  }

  /** When no child of i comes before it, the heap is in order. */
  lemma {:induction false} DownDone(iters: seq<Cursor>, h: seq<nat>, n: nat, i: nat)
    requires Items(iters, h) && n <= |h| && OrderedAbove(iters, h, n, i)
    requires forall k {:trigger h[k]} :: 0 < k < n && Parent(k) == i ==> !Before(iters, h[k], h[i])
    ensures OrderedBut(iters, h, n, -1)
  {
  }

  class MergeIterator {
    var iters: seq<Cursor>
    /** Source numbers, as a heap. */
    var h: seq<nat>

    constructor (iters: seq<Cursor>)
      ensures this.iters == iters && h == []
    {
      this.iters, h := iters, [];
    }

    /** container/heap up: swaps item j towards the root while it comes before its parent. */
    method Up(j0: nat)
      requires j0 < |h| && Items(iters, h) && OrderedBut(iters, h, |h|, j0) && Bridged(iters, h, |h|, j0)
      modifies this`h
      ensures Items(iters, h) && Ordered(iters, h) && multiset(h) == old(multiset(h)) && |h| == old(|h|)
    {
      hide Before;
      var j: nat := j0;
      while true
        invariant j < |h| && |h| == old(|h|) && Items(iters, h) && multiset(h) == old(multiset(h))
        invariant OrderedBut(iters, h, |h|, j) && Bridged(iters, h, |h|, j)
        decreases j
      {
        var i := if j == 0 then 0 else (j - 1) / 2;
        if i == j || !Before(iters, h[j], h[i]) {
          break;
        }
        UpStep(iters, h, j);
        SwapKeeps(h, i, j);
        h := Swapped(h, i, j);
        j := i;
      }
    }

    /** container/heap down: swaps item i with its smaller child while that comes before it. */
    method Down(i0: nat, n: nat) returns (moved: bool)
      requires i0 < n <= |h| && Items(iters, h)
      requires OrderedAbove(iters, h, n, i0) && Bridged(iters, h, n, i0)
      modifies this`h
      ensures |h| == old(|h|) && Items(iters, h) && OrderedBut(iters, h, n, -1)
      ensures multiset(h) == old(multiset(h)) && h[n..] == old(h)[n..]
      ensures !moved ==> h == old(h)
    {
      hide Before, OrderedAbove, OrderedBut, Bridged, Swapped;
      var i := i0;
      while true
        invariant i0 <= i < n <= |h| && |h| == old(|h|) && Items(iters, h)
        invariant multiset(h) == old(multiset(h)) && h[n..] == old(h)[n..]
        invariant i == i0 ==> h == old(h)
        invariant OrderedAbove(iters, h, n, i) && Bridged(iters, h, n, i)
        decreases n - i
      {
        var j := 2 * i + 1;
        if j >= n {
          break;
        }
        if j + 1 < n && Before(iters, h[j + 1], h[j]) {
          j := j + 1;
        }
        SmallerChild(iters, h, n, i, j);
        if !Before(iters, h[j], h[i]) {
          NoChildBefore(iters, h, n, i, j);
          break;
        }
        DownStep(iters, h, n, i, j);
        SwapKeeps(h, i, j);
        SwapBelow(h, i, j, n);
        h := Swapped(h, i, j);
        i := j;
      }
      DownDone(iters, h, n, i);
      moved := i > i0;
    }

    // ---- heap.Push, heap.Pop, heap.Fix

    method Push(x: nat)
      requires x < |iters| && Items(iters, h) && Ordered(iters, h)
      modifies this`h
      ensures Items(iters, h) && Ordered(iters, h) && multiset(h) == old(multiset(h)) + multiset{x}
    {
      hide Before;
      h := h + [x];
      Up(|h| - 1);
    }

    /** Removes the top, whose source need not be in order any more. */
    method Pop()
      requires h != [] && Items(iters, h) && OrderedAbove(iters, h, |h|, 0)
      modifies this`h
      ensures Items(iters, h) && Ordered(iters, h) && multiset(h) == old(multiset(h)) - multiset{old(h)[0]}
    {
      hide Before, OrderedAbove, OrderedBut, Bridged, Swapped;
      var n := |h| - 1;
      SwapKeeps(h, 0, n);
      TopGoesLast(iters, h);
      h := Swapped(h, 0, n);
      if n > 0 {
        var _ := Down(0, n);
      }
      WithoutLast(iters, h);
      h := h[..n];
    }

    /** Restores the order after the top's source has moved on. */
    method Fix()
      requires h != [] && Items(iters, h) && OrderedAbove(iters, h, |h|, 0)
      modifies this`h
      ensures Items(iters, h) && Ordered(iters, h) && multiset(h) == old(multiset(h))
    {
      hide Before;
      var moved := Down(0, |h|);
      if !moved {
        Up(0);
      }
    }

    // ---- the iterator

    /** The heap is in order and holds each source below n that is not exhausted, once. */
    ghost predicate Loaded(n: nat)
      reads this
    {
      && n <= |iters| && Items(iters, h) && Ordered(iters, h)
      && forall i: nat :: multiset(h)[i] == if i < n && iters[i].Live() then 1 else 0
    }

    ghost predicate Valid()
      reads this
    {
      AllSorted(iters) && Loaded(|iters|)
    }

    /** What is still to come. */
    ghost function View(): map<bytes, bytes>
      reads this
    {
      Merged(iters)
    }

    predicate IsValid()
      reads this
    {
      |h| > 0
    }

    function Key(): bytes
      requires h != [] && h[0] < |iters|
      reads this
    {
      iters[h[0]].Head()
    }

    function Value(): bytes
      requires h != [] && h[0] < |iters| && iters[h[0]].Live()
      reads this
    {
      iters[h[0]].es[iters[h[0]].pos].value
    }

    /** Puts source i at a position and, if it has an entry there, on the heap. */
    method Place(i: nat, pos: nat)
      requires i < |iters| && Loaded(i)
      modifies this
      ensures iters == old(iters)[i := Cursor(old(iters)[i].es, pos)] && Loaded(i + 1)
    {
      hide Before;
      ghost var was := iters;
      iters := iters[i := Cursor(iters[i].es, pos)];
      OthersOrdered(was, iters, h, i);
      if iters[i].Live() {
        Push(i);
      }
    }

    /** First: every source at its first entry. */
    method First() returns (ok: bool)
      requires forall i :: 0 <= i < |iters| ==> Sorted(iters[i].es)
      modifies this
      ensures iters == AtStart(old(iters)) && Valid() && ok == IsValid() == (View() != map[])
    {
      hide Before, Merged, Sorted;
      ghost var was := iters;
      h := [];
      var i := 0;
      while i < |iters|
        invariant 0 <= i <= |iters| == |was| && Loaded(i)
        invariant forall j :: 0 <= j < |iters| ==> iters[j] == if j < i then Cursor(was[j].es, 0) else was[j]
      {
        Place(i, 0);
        i := i + 1;
      }
      NonEmptyView(iters, h);
      ok := |h| > 0;
    }

    /** SeekGE: every source at its first entry not below the key. */
    method SeekGE(key: bytes) returns (ok: bool)
      requires forall i :: 0 <= i < |iters| ==> Sorted(iters[i].es)
      modifies this
      ensures iters == AtKey(old(iters), key) && Valid() && ok == IsValid() == (View() != map[])
    {
      hide Before, Merged, Sorted, Less;
      ghost var was := iters;
      h := [];
      var i := 0;
      while i < |iters|
        invariant 0 <= i <= |iters| == |was| && Loaded(i)
        invariant forall j :: 0 <= j < |iters| ==>
          iters[j] == if j < i then Cursor(was[j].es, SeekPos(was[j].es, key)) else was[j]
      {
        Place(i, SeekPos(iters[i].es, key));
        i := i + 1;
      }
      NonEmptyView(iters, h);
      ok := |h| > 0;
    }

    /** Next: leaves the current key behind in every source that is on it. */
    method Next() returns (ok: bool)
      requires Valid()
      modifies this
      ensures Valid() && ok == IsValid() == (View() != map[])
      ensures !old(IsValid()) ==> iters == old(iters)
      ensures old(IsValid()) ==> View() == old(View()) - {old(Key())}
      ensures old(IsValid()) ==> iters == Advanced(old(iters), old(Key()))
      ensures Remaining(iters) <= old(Remaining(iters)) && (old(IsValid()) ==> Remaining(iters) < old(Remaining(iters)))
    {
      hide Before, Merged, Sorted, Less, Ordered, Remaining;
      NonEmptyView(iters, h);
      if |h| == 0 {
        return false;
      }
      ghost var was := iters;
      TopIsLive(iters, h);
      var prevKey := Key();
      NotBelowTop(iters, h);
      while |h| > 0 && HeapKey() == prevKey
        invariant Valid() && |iters| == |was|
        invariant MovedOn(was, iters, prevKey) && NoneBelow(iters, prevKey)
        invariant iters == was || Remaining(iters) < Remaining(was)
        invariant iters == was ==> h == old(h)
        decreases Remaining(iters)
      {
        Advance(was, prevKey);
      }
      EndOfStep(was, iters, h, prevKey);
      NonEmptyView(iters, h);
      ok := |h| > 0;
    }

    function HeapKey(): bytes
      requires Items(iters, h)
      reads this
    {
      if h == [] then [] else iters[h[0]].Head()
    }

    /** One turn of the loop of Next: the top's source moves on; then Fix or Pop. */
    method Advance(ghost was: seq<Cursor>, prevKey: bytes)
      requires Valid() && h != [] && HeapKey() == prevKey && |was| == |iters| && AllSorted(was)
      requires MovedOn(was, iters, prevKey) && NoneBelow(iters, prevKey)
      requires iters == was || Remaining(iters) < Remaining(was)
      modifies this
      ensures Valid() && |iters| == |was| && iters != was
      ensures MovedOn(was, iters, prevKey) && NoneBelow(iters, prevKey)
      ensures Remaining(iters) < old(Remaining(iters)) && Remaining(iters) < Remaining(was)
    {
      hide Before, Sorted, Less, Remaining, Merged, Ordered, NoneBelow, MovedOn, AllSorted, OrderedAbove;
      var top := h[0];
      TopIsLive(iters, h);
      ghost var before := iters;
      iters := iters[top := iters[top].(pos := iters[top].pos + 1)];
      StepDown(before, iters, h, prevKey, was);
      assert forall i: nat :: multiset(h)[i] == if i < |iters| && (iters[i].Live() || i == top) then 1 else 0;
      if iters[top].Live() {
        Fix();
      } else {
        Pop();
      }
    }

    /** The top of the heap decides; an empty heap means that every source is exhausted. */
    lemma {:induction false} TopOfHeap()
      requires Valid()
      ensures IsValid() <==> HasTop(iters)
      ensures IsValid() ==> h[0] < |iters| && iters[h[0]].Live() && IsTop(iters, h[0]) && TopOf(iters) == h[0]
      ensures IsValid() ==> TopKey(iters) == Key() && TopValue(iters) == Value()
    {
      hide Less, Before, Merged, Ordered, Sorted;
      NotBelowTop(iters, h);
      if IsValid() {
        TopIsLive(iters, h);
        forall i: nat | i < |iters| && i != h[0] && iters[i].Live()
          ensures Before(iters, h[0], i)
        {
          BeforeTotal(iters, h[0], i);
        }
        assert IsTop(iters, h[0]);
        OneTop(iters, h[0], TopOf(iters));
      }
    }

    /** The current entry is the least of what is to come, from the source that decides. */
    lemma {:induction false} Current()
      requires Valid() && IsValid()
      ensures h[0] < |iters| && iters[h[0]].Live()
      ensures Key() in View() && View()[Key()] == Value()
      ensures forall k :: k in View() && k != Key() ==> Less(Key(), k)
    {
      hide Less, Before, Merged, Ordered;
      TopOfHeap();
      StepDrops(iters);
    }
  }

  lemma {:induction false} SmallerChild(iters: seq<Cursor>, h: seq<nat>, n: nat, i: nat, j: nat)
    requires Items(iters, h) && n <= |h| && 2 * i + 1 < n && (j == 2 * i + 1 || j == 2 * i + 2 < n)
    requires if 2 * i + 2 < n && Before(iters, h[2 * i + 2], h[2 * i + 1]) then j == 2 * i + 2 else j == 2 * i + 1
    ensures Parent(j) == i
    ensures forall k {:trigger h[k]} :: 0 < k < n && Parent(k) == i && k != j ==> !Before(iters, h[k], h[j])
  {
    hide Before;
    forall k | 0 < k < n && Parent(k) == i && k != j
      ensures !Before(iters, h[k], h[j])
    {
      BeforeTotal(iters, h[k], h[j]);
    }
  }

  lemma {:induction false} NoChildBefore(iters: seq<Cursor>, h: seq<nat>, n: nat, i: nat, j: nat)
    requires Items(iters, h) && i < j < n <= |h| && !Before(iters, h[j], h[i])
    requires forall k {:trigger h[k]} :: 0 < k < n && Parent(k) == i && k != j ==> !Before(iters, h[k], h[j])
    ensures forall k {:trigger h[k]} :: 0 < k < n && Parent(k) == i ==> !Before(iters, h[k], h[i])
  {
    hide Before;
    forall k | 0 < k < n && Parent(k) == i
      ensures !Before(iters, h[k], h[i])
    {
      if k != j {
        NotBeforeTransitive(iters, h[k], h[j], h[i]);
      }
    }
  }

  /** A source that is not on the heap does not take part in its order. */
  lemma {:induction false} OthersOrdered(iters: seq<Cursor>, iters': seq<Cursor>, h: seq<nat>, i: nat)
    requires i < |iters| == |iters'| && iters' == iters[i := iters'[i]]
    requires Items(iters, h) && Ordered(iters, h) && i !in multiset(h)
    ensures Items(iters', h) && Ordered(iters', h)
  {
  }

  function AtStart(iters: seq<Cursor>): (r: seq<Cursor>)
    ensures |r| == |iters|
  {
    seq(|iters|, i requires 0 <= i < |iters| => Cursor(iters[i].es, 0))
  }

  function AtKey(iters: seq<Cursor>, key: bytes): (r: seq<Cursor>)
    ensures |r| == |iters|
  {
    seq(|iters|, i requires 0 <= i < |iters| => Cursor(iters[i].es, SeekPos(iters[i].es, key)))
  }

  /** The sources after a step: those on the key have moved on. */
  function Advanced(iters: seq<Cursor>, key: bytes): (r: seq<Cursor>)
    ensures |r| == |iters|
  {
    seq(|iters|, i requires 0 <= i < |iters| => iters[i].Past(key))
  }

  /** The source that decides the current entry: before every other that is not exhausted. */
  ghost predicate IsTop(iters: seq<Cursor>, t: nat) {
    && t < |iters| && iters[t].Live()
    && forall i: nat :: i < |iters| && i != t && iters[i].Live() ==> Before(iters, t, i)
  }

  lemma {:induction false} OneTop(iters: seq<Cursor>, t: nat, u: nat)
    requires IsTop(iters, t) && IsTop(iters, u)
    ensures t == u
  {
    hide Less;
    BeforeTotal(iters, t, u);
  }

  ghost predicate HasTop(iters: seq<Cursor>) {
    exists t: nat :: IsTop(iters, t)
  }

  ghost function TopOf(iters: seq<Cursor>): (t: nat)
    requires HasTop(iters)
    ensures IsTop(iters, t)
  {
    var t: nat :| IsTop(iters, t);
    t
  }

  ghost function TopKey(iters: seq<Cursor>): bytes
    requires HasTop(iters)
  {
    iters[TopOf(iters)].Head()
  }

  ghost function TopValue(iters: seq<Cursor>): bytes
    requires HasTop(iters)
  {
    var c := iters[TopOf(iters)];
    c.es[c.pos].value
  }

  /** What Next does to the sources. */
  ghost function Stepped(iters: seq<Cursor>): (r: seq<Cursor>)
    requires HasTop(iters)
    ensures |r| == |iters|
  {
    Advanced(iters, TopKey(iters))
  }

  /** The same sources, read at least as far. */
  ghost predicate Further(iters: seq<Cursor>, iters': seq<Cursor>) {
    && |iters'| == |iters|
    && forall i :: 0 <= i < |iters| ==> iters'[i].es == iters[i].es && iters'[i].pos >= iters[i].pos
  }

  lemma {:induction false} RestShrinks(c: Cursor, key: bytes)
    ensures |c.Past(key).Rest()| <= |c.Rest()|
    ensures c.Live() && c.Head() == key ==> |c.Past(key).Rest()| < |c.Rest()|
  {
  }

  lemma {:induction false} RemainingAdvanced(iters: seq<Cursor>, key: bytes)
    ensures Remaining(Advanced(iters, key)) <= Remaining(iters)
  {
    hide Cursor.Rest, Cursor.Past;
    if iters != [] {
      var n := |iters| - 1;
      RemainingAdvanced(iters[..n], key);
      RestShrinks(iters[n], key);
      assert Advanced(iters, key)[..n] == Advanced(iters[..n], key);
    }
  }

  lemma {:induction false} RemainingDrops(iters: seq<Cursor>, i: nat)
    requires i < |iters| && iters[i].Live()
    ensures Remaining(Advanced(iters, iters[i].Head())) < Remaining(iters)
  {
    hide Cursor.Rest, Cursor.Past;
    var n, key := |iters| - 1, iters[i].Head();
    RestShrinks(iters[n], key);
    assert Advanced(iters, key)[..n] == Advanced(iters[..n], key);
    if i < n {
      assert iters[..n][i] == iters[i];
      RemainingDrops(iters[..n], i);
    } else {
      RemainingAdvanced(iters[..n], key);
    }
  }

  lemma {:induction false} SteppedFurther(iters: seq<Cursor>)
    requires HasTop(iters)
    ensures Remaining(Stepped(iters)) < Remaining(iters) && Further(iters, Stepped(iters))
  {
    RemainingDrops(iters, TopOf(iters));
  }

  /** The top has the least key of the union and its value; a step takes just that key out. */
  lemma {:induction false} StepDrops(iters: seq<Cursor>)
    requires AllSorted(iters) && HasTop(iters)
    ensures AllSorted(Stepped(iters)) && Merged(Stepped(iters)) == Merged(iters) - {TopKey(iters)}
    ensures TopKey(iters) in Merged(iters) && Merged(iters)[TopKey(iters)] == TopValue(iters)
    ensures forall k :: k in Merged(iters) && k != TopKey(iters) ==> Less(TopKey(iters), k)
  {
    hide Less, Merged;
    var t, key := TopOf(iters), TopKey(iters);
    TopDecides(iters, t);
    forall k | k in Merged(iters) && k != key
      ensures Less(key, k)
    {
      TopIsLeast(iters, t, k);
    }
    StepSources(iters);
    MergedDrop(iters, Stepped(iters), key);
  }

  /** In every source. */
  lemma {:induction false} StepSources(iters: seq<Cursor>)
    requires AllSorted(iters) && HasTop(iters)
    ensures AllSorted(Stepped(iters))
    ensures forall i :: 0 <= i < |iters| ==> ToMap(Stepped(iters)[i].Rest()) == ToMap(iters[i].Rest()) - {TopKey(iters)}
  {
    hide Less, ToMap, Before, Sorted, Cursor.Rest, IsTop;
    forall i | 0 <= i < |iters|
      ensures ToMap(Stepped(iters)[i].Rest()) == ToMap(iters[i].Rest()) - {TopKey(iters)}
      ensures Sorted(Stepped(iters)[i].es) && Stepped(iters)[i].pos <= |Stepped(iters)[i].es|
    {
      StepSource(iters, i);
    }
  }

  lemma {:induction false} StepSource(iters: seq<Cursor>, i: nat)
    requires AllSorted(iters) && HasTop(iters) && i < |iters|
    ensures var c, c' := iters[i], Stepped(iters)[i];
      ToMap(c'.Rest()) == ToMap(c.Rest()) - {TopKey(iters)} && c'.es == c.es && c'.pos <= |c'.es|
  {
    hide Less, ToMap, Sorted, Cursor.Rest;
    var t, c, c' := TopOf(iters), iters[i], Stepped(iters)[i];
    if c'.Live() {
      if c' == c {
        assert Before(iters, t, i);
      } else {
        AboveKey(c);
      }
    }
    RestAbove(c, c', TopKey(iters));
  }

  lemma {:induction false} LiveHasTop(iters: seq<Cursor>, i: nat)
    requires i < |iters| && iters[i].Live()
    ensures HasTop(iters)
  {
    hide Before;
    var t := SomeTop(iters, |iters|, i);
    assert IsTop(iters, t);
  }

  /** Without a top nothing is left. */
  lemma {:induction false} NoTopEmpty(iters: seq<Cursor>)
    requires !HasTop(iters)
    ensures Merged(iters) == map[]
  {
    hide Merged, Less;
    if i: nat :| i < |iters| && iters[i].Live() {
      LiveHasTop(iters, i);
    }
    MergedEmpty(iters);
  }

  /** Among the first n sources, if one of them is not exhausted, one is before the others. */
  lemma {:induction false} SomeTop(iters: seq<Cursor>, n: nat, i: nat) returns (t: nat)
    requires i < n <= |iters| && iters[i].Live()
    ensures t < n && iters[t].Live()
    ensures forall j: nat :: j < n && j != t && iters[j].Live() ==> Before(iters, t, j)
  {
    hide Less, Before;
    var m := n - 1;
    if j: nat :| j < m && iters[j].Live() {
      t := SomeTop(iters, m, j);
      BeforeTotal(iters, t, m);
      if iters[m].Live() && Before(iters, m, t) {
        forall j: nat | j < n && j != m && iters[j].Live()
          ensures Before(iters, m, j)
        {
          if j != t {
            BeforeTotal(iters, t, j);
            BeforeTotal(iters, m, j);
            BeforeTotal(iters, m, t);
            if !Before(iters, m, j) {
              NotBeforeTransitive(iters, m, j, t);
            }
          }
        }
        t := m;
      }
    } else {
      t := i;
    }
  }

  /** Sources stand where they stood, or one entry further if they stood on the key. */
  ghost predicate MovedOn(was: seq<Cursor>, iters: seq<Cursor>, key: bytes)
    requires |was| == |iters|
  {
    forall i :: 0 <= i < |was| ==>
      iters[i] == was[i] || (was[i].Live() && was[i].Head() == key && iters[i] == was[i].(pos := was[i].pos + 1))
  }

  ghost predicate NoneBelow(iters: seq<Cursor>, key: bytes) {
    forall i :: 0 <= i < |iters| && iters[i].Live() ==> LessEq(key, iters[i].Head())
  }

  ghost predicate HoldsLive(iters: seq<Cursor>, h: seq<nat>) {
    forall i: nat :: multiset(h)[i] == if i < |iters| && iters[i].Live() then 1 else 0
  }

  lemma {:induction false} TopIsLive(iters: seq<Cursor>, h: seq<nat>)
    requires h != [] && HoldsLive(iters, h)
    ensures h[0] < |iters| && iters[h[0]].Live()
  {
  }

  /** Every live source is somewhere on the heap, so its key is not below the top's. */
  lemma {:induction false} NotBelowTop(iters: seq<Cursor>, h: seq<nat>)
    requires Items(iters, h) && Ordered(iters, h) && HoldsLive(iters, h)
    ensures h != [] ==> NoneBelow(iters, iters[h[0]].Head())
    ensures h != [] ==> forall i :: 0 <= i < |iters| && iters[i].Live() ==> !Before(iters, i, h[0])
    ensures h == [] ==> forall i :: 0 <= i < |iters| ==> !iters[i].Live()
  {
    hide Less;
    forall i | 0 <= i < |iters| && iters[i].Live()
      ensures h != [] && !Before(iters, i, h[0]) && LessEq(iters[h[0]].Head(), iters[i].Head())
    {
      assert i in multiset(h);
      var k :| 0 <= k < |h| && h[k] == i;
      TopIsFirst(iters, h, k);
      LessTotal(iters[h[0]].Head(), iters[i].Head());
    }
  }

  lemma {:induction false} MergedEmpty(iters: seq<Cursor>)
    requires forall i :: 0 <= i < |iters| ==> !iters[i].Live()
    ensures Merged(iters) == map[]
  {
    if iters != [] {
      MergedEmpty(iters[..|iters| - 1]);
    }
  }

  lemma {:induction false} HeadInMap(c: Cursor)
    requires c.Live()
    ensures c.Head() in ToMap(c.Rest())
  {
  }

  lemma {:induction false} NonEmptyView(iters: seq<Cursor>, h: seq<nat>)
    requires HoldsLive(iters, h)
    ensures h == [] <==> Merged(iters) == map[]
  {
    hide Merged;
    if h == [] {
      forall i | 0 <= i < |iters|
        ensures !iters[i].Live()
      {
        assert multiset(h)[i] == 0;
      }
      MergedEmpty(iters);
    } else {
      TopIsLive(iters, h);
      HeadInMap(iters[h[0]]);
      var _ := MergedContains(iters, iters[h[0]].Head(), h[0]);
    }
  }

  /** A key of one source is in the union; the first source that has it is found. */
  lemma {:induction false} MergedContains(iters: seq<Cursor>, k: bytes, i: nat) returns (j: nat)
    requires i < |iters| && k in ToMap(iters[i].Rest())
    ensures j <= i && k in ToMap(iters[j].Rest()) && k in Merged(iters)
    ensures forall m :: 0 <= m < j ==> k !in ToMap(iters[m].Rest())
    decreases i
  {
    hide Merged;
    if m :| 0 <= m < i && k in ToMap(iters[m].Rest()) {
      j := MergedContains(iters, k, m);
    } else {
      j := i;
      MergedAt(iters, k, i);
    }
  }

  lemma {:induction false} RemainingStep(iters: seq<Cursor>, i: nat, c: Cursor)
    requires i < |iters| && |c.Rest()| == |iters[i].Rest()| - 1
    ensures Remaining(iters[i := c]) == Remaining(iters) - 1
  {
    hide Cursor.Rest, Cursor.Live;
    var n := |iters| - 1;
    var iters' := iters[i := c];
    assert Remaining(iters') == |iters'[n].Rest()| + Remaining(iters'[..n]);
    assert Remaining(iters) == |iters[n].Rest()| + Remaining(iters[..n]);
    if i < n {
      RemainingStep(iters[..n], i, c);
      assert iters'[..n] == iters[..n][i := c];
    } else {
      assert iters'[..n] == iters[..n];
    }
  }

  /** Moving the top's source on keeps everything else in order and leaves no smaller key. */
  lemma {:induction false} StepDown(iters: seq<Cursor>, iters': seq<Cursor>, h: seq<nat>, key: bytes, was: seq<Cursor>)
    requires AllSorted(iters) && Items(iters, h) && Ordered(iters, h) && HoldsLive(iters, h)
    requires h != [] && iters[h[0]].Live() && iters[h[0]].Head() == key
    requires iters' == iters[h[0] := iters[h[0]].(pos := iters[h[0]].pos + 1)]
    requires |was| == |iters| && AllSorted(was) && MovedOn(was, iters, key) && NoneBelow(iters, key)
    requires iters == was || Remaining(iters) < Remaining(was)
    ensures AllSorted(iters') && Items(iters', h) && OrderedAbove(iters', h, |h|, 0)
    ensures MovedOn(was, iters', key) && NoneBelow(iters', key) && iters' != was
    ensures Remaining(iters') == Remaining(iters) - 1 && Remaining(iters') < Remaining(was)
  {
    hide Less, Remaining;
    var top := h[0];
    RemainingStep(iters, top, iters'[top]);
    AboveKey(iters[top]);
    LessIrreflexive(key);
    assert iters[top] == was[top] by {
      AboveKey(was[top]);
    }
    OthersOnce(h);
  }

  /** The next key of a sorted source is above the current one. */
  lemma {:induction false} AboveKey(c: Cursor)
    requires Sorted(c.es) && c.Live()
    ensures var c' := c.(pos := c.pos + 1); c'.Live() ==> Less(c.Head(), c'.Head()) && c'.Head() != c.Head()
  {
  }

  lemma {:induction false} OthersOnce(h: seq<nat>)
    requires h != [] && multiset(h)[h[0]] == 1
    ensures forall k :: 0 < k < |h| ==> h[k] != h[0]
  {
    assert h == [h[0]] + h[1..];
    forall k | 0 < k < |h|
      ensures h[k] != h[0]
    {
      assert h[k] == h[1..][k - 1];
      assert h[k] in multiset(h[1..]);
    }
  }

  /** When no source stands on the key any more, it is gone from the union and nothing else is. */
  lemma {:induction false} EndOfStep(was: seq<Cursor>, iters: seq<Cursor>, h: seq<nat>, key: bytes)
    requires |was| == |iters| && AllSorted(was) && AllSorted(iters)
    requires Items(iters, h) && Ordered(iters, h) && HoldsLive(iters, h)
    requires MovedOn(was, iters, key) && NoneBelow(iters, key)
    requires h != [] ==> iters[h[0]].Head() != key
    ensures Merged(iters) == Merged(was) - {key}
    ensures iters == Advanced(was, key)
  {
    hide Less, Merged, Ordered;
    NotBelowTop(iters, h);
    if h != [] {
      TopIsLive(iters, h);
    }
    forall i | 0 <= i < |iters|
      ensures ToMap(iters[i].Rest()) == ToMap(was[i].Rest()) - {key} && iters[i] == Advanced(was, key)[i]
    {
      if iters[i].Live() {
        var top := iters[h[0]].Head();
        LessEqChain(key, top, iters[i].Head());
        LessIrreflexive(key);
      }
      RestAbove(was[i], iters[i], key);
    }
    MergedDrop(was, iters, key);
  }

  lemma {:induction false} LessEqChain(a: bytes, b: bytes, c: bytes)
    requires LessEq(a, b) && a != b && LessEq(b, c)
    ensures Less(a, c)
  {
  }

  lemma {:induction false} RestAbove(c: Cursor, c': Cursor, key: bytes)
    requires Sorted(c.es) && c.pos <= |c.es|
    requires c' == c || (c.Live() && c.Head() == key && c' == c.(pos := c.pos + 1))
    requires c'.Live() ==> Less(key, c'.Head())
    ensures ToMap(c'.Rest()) == ToMap(c.Rest()) - {key}
  {
    hide Less;
    var es := c.Rest();
    assert Sorted(es);
    if c' == c {
      if c.Live() && key in ToMap(es) {
        SortedTail(es);
        LessTotal(key, es[0].key);
        LessIrreflexive(key);
        assert false;
      }
      assert key !in ToMap(es);
    } else {
      assert c'.Rest() == es[1..];
      SortedTail(es);
    }
  }

  lemma {:induction false} TopDecides(iters: seq<Cursor>, top: nat)
    requires AllSorted(iters) && IsTop(iters, top)
    ensures var c := iters[top];
      c.Head() in Merged(iters) && Merged(iters)[c.Head()] == c.es[c.pos].value
  {
    hide Less, Merged;
    var key := iters[top].Head();
    HeadInMap(iters[top]);
    forall j | 0 <= j < top
      ensures key !in ToMap(iters[j].Rest())
    {
      if key in ToMap(iters[j].Rest()) {
        HeadIsLeast(iters[j], key);
        BeforeTotal(iters, j, top);
      }
    }
    MergedAt(iters, key, top);
  }

  lemma {:induction false} HeadIsLeast(c: Cursor, k: bytes)
    requires Sorted(c.es) && k in ToMap(c.Rest())
    ensures c.Live() && LessEq(c.Head(), k)
  {
    hide Less;
    InToMap(c.Rest(), k);
    var i :| 0 <= i < |c.Rest()| && c.Rest()[i].key == k;
    assert c.es[c.pos + i].key == k;
  }

  lemma {:induction false} TopIsLeast(iters: seq<Cursor>, t: nat, k: bytes)
    requires AllSorted(iters) && IsTop(iters, t) && k in Merged(iters)
    ensures LessEq(iters[t].Head(), k)
  {
    hide Less, Merged;
    var i := MergedHas(iters, k);
    HeadIsLeast(iters[i], k);
    var top, x := iters[t].Head(), iters[i].Head();
    if Less(top, x) && Less(x, k) {
      LessTransitive(top, x, k);
    }
  }

  // ---- a full scan

  /** "for First(); Valid(); Next()": the strictly sorted union, each key once, with the value of
      the first source that holds it. */
  method Drain(m: MergeIterator) returns (es: seq<Entry>)
    requires forall i :: 0 <= i < |m.iters| ==> Sorted(m.iters[i].es)
    modifies m
    ensures Sorted(es) && ToMap(es) == Merged(AtStart(old(m.iters)))
  {
    hide Merged, ToMap, Sorted, Remaining, MergeIterator.Valid;
    ghost var all := Merged(AtStart(m.iters));
    var ok := m.First();
    es := [];
    EmptyScan();
    while m.IsValid()
      invariant m.Valid() && ok == m.IsValid() == (m.View() != map[])
      invariant Scanned(es, m.View(), all)
      decreases Remaining(m.iters)
    {
      m.Current();
      ScanStep(es, m.View(), all, m.Key(), m.Value());
      es := es + [Entry(m.Key(), m.Value())];
      ok := m.Next();
    }
  }

  /** es is the part of the union below what is still to come. */
  ghost predicate Scanned(es: seq<Entry>, view: map<bytes, bytes>, all: map<bytes, bytes>) {
    && Sorted(es) && all == ToMap(es) + view
    && forall i, k :: 0 <= i < |es| && k in view ==> Less(es[i].key, k)
  }

  lemma {:induction false} EmptyScan()
    ensures Sorted([]) && forall all :: Scanned([], all, all)
  {
  }

  lemma {:induction false} ScanStep(es: seq<Entry>, view: map<bytes, bytes>, all: map<bytes, bytes>, key: bytes, value: bytes)
    requires Scanned(es, view, all) && key in view && view[key] == value
    requires forall k :: k in view && k != key ==> Less(key, k)
    ensures Scanned(es + [Entry(key, value)], view - {key}, all)
  {
    hide Less;
    LessIrreflexive(key);
    assert forall i :: 0 <= i < |es| ==> Less(es[i].key, key);
    ToMapAppend(es, Entry(key, value));
  }

  lemma {:induction false} ToMapAppend(es: seq<Entry>, e: Entry)
    requires forall i :: 0 <= i < |es| ==> es[i].key != e.key
    ensures ToMap(es + [e]) == ToMap(es)[e.key := e.value]
  {
    if es != [] {
      ToMapAppend(es[1..], e);
      assert (es + [e])[1..] == es[1..] + [e];
    }
  }

  lemma {:induction false} SameEmptiness(es: seq<Entry>)
    ensures ToMap(es) == map[] <==> es == []
  {
    if es != [] {
      assert es[0].key in ToMap(es);
    }
  }

  /** A sorted list is determined by its contents, so the result of a scan is unique. */
  lemma {:induction false} SortedUnique(es: seq<Entry>, fs: seq<Entry>)
    requires Sorted(es) && Sorted(fs) && ToMap(es) == ToMap(fs)
    ensures es == fs
  {
    hide Less;
    SameEmptiness(es);
    SameEmptiness(fs);
    if es != [] && fs != [] {
      SortedTail(es);
      SortedTail(fs);
      LessTotal(es[0].key, fs[0].key);
      assert es[0].key in ToMap(fs) && fs[0].key in ToMap(es);
      SortedUnique(es[1..], fs[1..]);
    }
  }

  /** After SeekGE the union is the part of the whole that is not below the key. */
  lemma {:induction false} SeekIsSuffix(iters: seq<Cursor>, key: bytes)
    requires forall i :: 0 <= i < |iters| ==> Sorted(iters[i].es)
    ensures forall k :: k in Merged(AtKey(iters, key)) <==> k in Merged(AtStart(iters)) && !Less(k, key)
    ensures forall k :: k in Merged(AtKey(iters, key)) ==> Merged(AtKey(iters, key))[k] == Merged(AtStart(iters))[k]
  {
    hide Less, ToMap;
    if iters != [] {
      var n := |iters| - 1;
      SeekIsSuffix(iters[..n], key);
      assert AtKey(iters, key)[..n] == AtKey(iters[..n], key);
      assert AtStart(iters)[..n] == AtStart(iters[..n]);
      SuffixOfSource(iters[n].es, SeekPos(iters[n].es, key), key);
      assert iters[n].es[0..] == iters[n].es;
    }
  }

  lemma {:induction false} SuffixOfSource(es: seq<Entry>, p: nat, key: bytes)
    requires Sorted(es) && IsFirstGE(es, key, p)
    ensures forall k :: k in ToMap(es[p..]) <==> k in ToMap(es) && !Less(k, key)
    ensures forall k :: k in ToMap(es[p..]) ==> ToMap(es[p..])[k] == ToMap(es)[k]
    decreases p
  {
    hide Less;
    if p == 0 {
      assert es[0..] == es;
      forall k | k in ToMap(es)
        ensures !Less(k, key)
      {
        InToMap(es, k);
        var i :| 0 <= i < |es| && es[i].key == k;
        if i > 0 && Less(k, key) {
          LessTransitive(es[0].key, k, key);
        }
      }
    } else {
      SortedTail(es);
      SuffixOfSource(es[1..], p - 1, key);
      assert es[p..] == es[1..][p - 1..];
      forall k | k in ToMap(es[1..])
        ensures k != es[0].key
      {
        LessIrreflexive(k);
      }
    }
  }
}
