/** The block cache: a map and a doubly linked list in order of use, bounded by a byte count. */
module Cache {
  import opened Bytes
  import opened TableFormat
  import opened TableReader

  datatype Key = Key(fileID: nat, blockOffset: nat)

  /** A cached block. */
  datatype Cached = Cached(key: Key, data: bytes)

  datatype MaybeData = NoData | Data(d: bytes)

  // ---- the recency list

  function Total(l: seq<Cached>): nat {
    if l == [] then 0 else Total(l[..|l| - 1]) + |l[|l| - 1].data|
  }

  /** Drops least recently used blocks until the rest fits. */
  function Trim(l: seq<Cached>, capacity: int): seq<Cached> {
    if l == [] || Total(l) <= capacity then l else Trim(l[..|l| - 1], capacity)
  }

  predicate Holds(l: seq<Cached>, key: Key) {
    exists i :: 0 <= i < |l| && l[i].key == key
  }

  /** The blocks whose keys are not in a set, in order. */
  function Without(l: seq<Cached>, gone: set<Key>): seq<Cached> {
    if l == [] then []
    else
      var n := |l| - 1;
      Without(l[..n], gone) + if l[n].key in gone then [] else [l[n]]
  }

  /** The blocks of other files, in order. */
  function OtherFiles(l: seq<Cached>, fileID: nat): seq<Cached> {
    if l == [] then []
    else
      var n := |l| - 1;
      OtherFiles(l[..n], fileID) + if l[n].key.fileID == fileID then [] else [l[n]]
  }

  ghost predicate DistinctKeys(l: seq<Cached>) {
    forall i, j :: 0 <= i < j < |l| ==> l[i].key != l[j].key
  }

  /** What is kept is the most recently used part, it fits, and the next block would not. */
  lemma {:induction false} TrimIsPrefix(l: seq<Cached>, capacity: int) returns (k: nat)
    requires capacity >= 0
    ensures k <= |l| && Trim(l, capacity) == l[..k] && Total(l[..k]) <= capacity
    ensures k < |l| ==> Total(l[..k + 1]) > capacity
  {
    if l == [] || Total(l) <= capacity {
      k := |l|;
      assert l[..k] == l;
    } else {
      k := TrimIsPrefix(l[..|l| - 1], capacity);
      assert l[..|l| - 1][..k] == l[..k];
      if k < |l| - 1 {
        assert l[..|l| - 1][..k + 1] == l[..k + 1];
      } else {
        assert l[..k + 1] == l;
      }
    }
  }

  lemma {:induction false} TotalConcat(a: seq<Cached>, b: seq<Cached>)
    ensures Total(a + b) == Total(a) + Total(b)
  {
    if b == [] {
      assert a + b == a;
    } else {
      TotalConcat(a, b[..|b| - 1]);
      assert (a + b)[..|a + b| - 1] == a + b[..|b| - 1];
    }
  }

  // ---- the linked list

  class Node {
    const key: Key
    const data: bytes
    var prev: Node?
    var next: Node?

    constructor (key: Key, data: bytes)
      ensures this.key == key && this.data == data && prev == null && next == null
    {
      this.key, this.data, prev, next := key, data, null, null;
    }
  }

  function NodeAt(order: seq<Node>, i: int): Node? {
    if 0 <= i < |order| then order[i] else null
  }

  ghost predicate LinkAt(order: seq<Node>, i: int)
    requires 0 <= i < |order|
    reads order[i]
  {
    order[i].prev == NodeAt(order, i - 1) && order[i].next == NodeAt(order, i + 1)
  }

  /** The nodes are linked in this order, from head to tail. */
  ghost predicate Linked(order: seq<Node>, head: Node?, tail: Node?)
    reads order
  {
    && (forall i, j :: 0 <= i < j < |order| ==> order[i] != order[j])
    && head == NodeAt(order, 0) && tail == NodeAt(order, |order| - 1)
    && forall i {:trigger LinkAt(order, i)} :: 0 <= i < |order| ==> LinkAt(order, i)
  }

  function Entries(order: seq<Node>): (l: seq<Cached>)
    ensures |l| == |order| && forall i :: 0 <= i < |order| ==> l[i] == Cached(order[i].key, order[i].data)
  {
    seq(|order|, i requires 0 <= i < |order| => Cached(order[i].key, order[i].data))
  }

  /** The map finds every node of the list by its key, and nothing else. */
  ghost predicate Mapped(items: map<Key, Node>, order: seq<Node>) {
    && (forall i :: 0 <= i < |order| ==> order[i].key in items && items[order[i].key] == order[i])
    && (forall k :: k in items ==> items[k] in order && items[k].key == k)
  }

  function Dropped(order: seq<Node>, i: nat): seq<Node>
    requires i < |order|
  {
    order[..i] + order[i + 1..]
  }

  class BlockCache {
    const capacity: int
    var size: int
    var items: map<Key, Node>
    var head: Node?
    var tail: Node?
    /** The nodes, most recently used first. */
    ghost var order: seq<Node>

    ghost predicate Valid()
      reads this, order
    {
      Linked(order, head, tail) && Mapped(items, order) && size == Total(List())
    }

    /** The recency list. */
    ghost function List(): seq<Cached>
      reads this`order
    {
      Entries(order)
    }

    constructor (capacity: int)
      ensures Valid() && List() == [] && this.capacity == capacity
    {
      this.capacity, size, items, head, tail, order := capacity, 0, map[], null, null, [];
    }

    /** pushFront */
    method PushFront(entry: Node)
      requires Linked(order, head, tail) && entry !in order
      modifies this`head, this`tail, this`order, entry, order
      ensures order == [entry] + old(order) && Linked(order, head, tail)
    {
      ghost var was := order;
      assert forall i :: 0 <= i < |was| ==> LinkAt(was, i);
      entry.prev := null;
      entry.next := head;
      if head != null {
        head.prev := entry;
      }
      head := entry;
      if tail == null {
        tail := entry;
      }
      order := [entry] + order;
      forall i | 0 <= i < |order|
        ensures LinkAt(order, i)
      {
        if i > 0 {
          assert order[i] == was[i - 1] && old(LinkAt(was, i - 1));
        }
      }
    }

    /** remove */
    method Remove(entry: Node, ghost i: nat)
      requires Linked(order, head, tail) && i < |order| && order[i] == entry
      modifies this`head, this`tail, this`order, order
      ensures order == Dropped(old(order), i) && Linked(order, head, tail) && entry.prev == entry.next == null
    {
      ghost var was := order;
      assert LinkAt(was, i);
      assert i > 0 ==> LinkAt(was, i - 1);
      assert i + 1 < |was| ==> LinkAt(was, i + 1);
      if entry.prev != null {
        entry.prev.next := entry.next;
      } else {
        head := entry.next;
      }
      if entry.next != null {
        entry.next.prev := entry.prev;
      } else {
        tail := entry.prev;
      }
      entry.prev := null;
      entry.next := null;
      order := Dropped(was, i);
      forall j | 0 <= j < |order|
        ensures LinkAt(order, j)
      {
        var m := if j < i then j else j + 1;
        assert order[j] == was[m] && was[m] != entry;
        assert NodeAt(order, j - 1) == if j == i then NodeAt(was, i - 1) else NodeAt(was, m - 1);
        assert NodeAt(order, j + 1) == if j + 1 == i then NodeAt(was, i + 1) else NodeAt(was, m + 1);
        assert old(LinkAt(was, m));
      }
    }

    /** moveToFront */
    method MoveToFront(entry: Node, ghost i: nat)
      requires Valid() && i < |order| && order[i] == entry
      modifies this`head, this`tail, this`order, order
      ensures Valid() && order == [entry] + Dropped(old(order), i)
    {
      hide Linked, Mapped, Total;
      ghost var was := order;
      if entry == head {
        HeadIsFirst(i);
        assert was == [entry] + Dropped(was, i);
        return;
      }
      NotInDropped(was, i, head, tail);
      Remove(entry, i);
      PushFront(entry);
      MovedMapped(items, was, i);
      MovedTotal(was, i);
    }

    lemma {:induction false} HeadIsFirst(i: nat)
      requires Linked(order, head, tail) && i < |order| && order[i] == head
      ensures i == 0
    {
    }

    /** Takes a block out of the list, the map and the byte count. */
    method Discard(entry: Node, ghost i: nat)
      requires Valid() && i < |order| && order[i] == entry
      modifies this`head, this`tail, this`order, this`items, this`size, order
      ensures Valid() && order == Dropped(old(order), i) && items == old(items) - {entry.key}
    {
      hide Linked, Mapped, Total;
      ghost var was := order;
      NotInDropped(was, i, head, tail);
      Remove(entry, i);
      items := items - {entry.key};
      size := size - |entry.data|;
      DroppedMapped(old(items), was, i);
      DroppedTotal(was, i);
    }

    /** evictTail */
    method EvictTail()
      requires Valid() && tail != null
      modifies this`head, this`tail, this`order, this`items, this`size, order
      ensures Valid() && |old(order)| > 0 && order == old(order)[..|old(order)| - 1]
    {
      hide Mapped, Total, LinkAt;
      ghost var n := |order| - 1;
      assert order[n] == tail;
      Discard(tail, n);
      assert order == old(order)[..n];
    }

    /** Get: the block, which becomes the most recently used one. */
    method Get(fileID: nat, blockOffset: nat) returns (r: MaybeData)
      requires Valid()
      modifies this`head, this`tail, this`order, order
      ensures Valid() && (r == NoData <==> !Holds(old(List()), Key(fileID, blockOffset)))
      ensures forall i :: 0 <= i < |order| ==> order[i] in old(order)
      ensures r == NoData ==> List() == old(List())
      ensures r.Data? ==> Touched(old(List()), Cached(Key(fileID, blockOffset), r.d), List())
    {
      hide Linked, Total;
      var key := Key(fileID, blockOffset);
      FindsKey(items, order, key);
      if key !in items {
        return NoData;
      }
      var entry := items[key];
      ghost var i: nat :| i < |order| && order[i] == entry;
      ghost var was := order;
      MoveToFront(entry, i);
      MovedEntries(was, i);
      DroppedMembers(was, i);
      return Data(entry.data);
    }

    /** Set: a new block goes to the front, and least recently used ones are evicted until the rest
        fits; a block that is already cached only moves to the front. */
    method Set(fileID: nat, blockOffset: nat, data: bytes)
      requires Valid()
      modifies this`head, this`tail, this`order, this`items, this`size, order
      ensures Valid()
      ensures var l, key := old(List()), Key(fileID, blockOffset);
        if Holds(l, key) then exists d :: Touched(l, Cached(key, d), List())
        else List() == Trim([Cached(key, data)] + l, capacity)
      ensures !Holds(old(List()), Key(fileID, blockOffset)) && capacity >= 0 ==> size <= capacity
    {
      hide Linked, Total, Trim, Mapped, Touched, Holds;
      var key := Key(fileID, blockOffset);
      FindsKey(items, order, key);
      if key in items {
        var found := items[key];
        ghost var i: nat :| i < |order| && order[i] == found;
        ghost var was := order;
        MoveToFront(found, i);
        MovedEntries(was, i);
        return;
      }
      var entry := new Node(key, data);
      ghost var l := List();
      NewMapped(items, order, entry);
      items := items[key := entry];
      PushFront(entry);
      size := size + |data|;
      assert List() == [Cached(key, data)] + l;
      NewTotal(Cached(key, data), l);
      EvictToFit();
    }

    /** The end of Set: evicts from the tail until the rest fits. */
    method EvictToFit()
      requires Valid()
      modifies this`head, this`tail, this`order, this`items, this`size, order
      ensures Valid() && List() == Trim(old(List()), capacity)
      ensures capacity >= 0 ==> size <= capacity
    {
      hide Linked, Total, Trim, Mapped, Entries;
      while size > capacity && tail != null
        invariant Valid() && forall k :: 0 <= k < |order| ==> order[k] in old(order)
        invariant Trim(List(), capacity) == Trim(old(List()), capacity)
        decreases |order|
      {
        TailIsNull();
        TrimMore(List(), capacity);
        ghost var before := List();
        EvictTail();
        assert List() == before[..|before| - 1];
      }
      TailIsNull();
      TrimDone(List(), capacity);
    }

    lemma {:induction false} TailIsNull()
      requires Linked(order, head, tail)
      ensures tail == null <==> order == []
    {
    }

    /** The keys of the map that belong to a file, in the order the map gives them. */
    method KeysOfFile(fileID: nat) returns (toDelete: seq<Key>)
      ensures ToDelete(toDelete, items.Keys, fileID)
    {
      toDelete := [];
      var rest := items.Keys;
      ghost var seen: set<Key> := {};
      while rest != {}
        invariant rest <= items.Keys && seen == items.Keys - rest && ToDelete(toDelete, seen, fileID)
        decreases |rest|
      {
        var k :| k in rest;
        if k.fileID == fileID {
          toDelete := toDelete + [k];
        }
        rest := rest - {k};
        seen := seen + {k};
      }
    }

    /** Evict: removes exactly the blocks of one file. */
    method Evict(fileID: nat)
      requires Valid()
      modifies this`head, this`tail, this`order, this`items, this`size, order
      ensures Valid() && List() == OtherFiles(old(List()), fileID)
    {
      hide Linked, Total, Mapped, Without, OtherFiles, ToDelete, Dropped, DistinctKeys;
      ghost var l, all := List(), items.Keys;
      ListDistinct(items, order, head, tail);
      ListKeys(items, order);
      var toDelete := KeysOfFile(fileID);
      NothingGone(l);
      ghost var gone: set<Key> := {};
      for i := 0 to |toDelete|
        invariant Valid() && forall k :: 0 <= k < |order| ==> order[k] in old(order)
        invariant gone == First(toDelete, i) && items.Keys == all - gone && List() == Without(l, gone)
      {
        var key := toDelete[i];
        DeleteAt(toDelete, all, fileID, i);
        var entry := items[key];
        ghost var j := NodeIndex(items, order, key);
        ghost var before := order;
        Discard(entry, j);
        DroppedEntries(before, j);
        DroppedMembers(before, j);
        WithoutOne(l, gone, key, j);
        FirstMore(toDelete, i);
        gone := gone + {key};
      }
      DeleteAll(toDelete, all, fileID);
      WithoutIsOthers(l, gone, fileID);
    }
  }

  // ---- how the steps keep list, map and byte count together

  /** The block c was moved to the front. */
  ghost predicate Touched(l: seq<Cached>, c: Cached, l': seq<Cached>) {
    exists i :: 0 <= i < |l| && l[i] == c && l' == [c] + (l[..i] + l[i + 1..])
  }

  lemma {:induction false} NotInDropped(order: seq<Node>, i: nat, head: Node?, tail: Node?)
    requires Linked(order, head, tail) && i < |order|
    ensures order[i] !in Dropped(order, i)
  {
  }

  lemma {:induction false} DroppedMembers(order: seq<Node>, i: nat)
    requires i < |order|
    ensures forall n :: n in order <==> n == order[i] || n in Dropped(order, i)
    ensures forall k :: 0 <= k < |Dropped(order, i)| ==> Dropped(order, i)[k] in order
  {
  }

  lemma {:induction false} MovedMapped(items: map<Key, Node>, order: seq<Node>, i: nat)
    requires Mapped(items, order) && i < |order|
    ensures Mapped(items, [order[i]] + Dropped(order, i))
  {
  }

  lemma {:induction false} DroppedMapped(items: map<Key, Node>, order: seq<Node>, i: nat)
    requires Mapped(items, order) && i < |order| && order[i] !in Dropped(order, i)
    ensures Mapped(items - {order[i].key}, Dropped(order, i))
  {
  }

  lemma {:induction false} NewMapped(items: map<Key, Node>, order: seq<Node>, entry: Node)
    requires Mapped(items, order) && entry.key !in items
    ensures Mapped(items[entry.key := entry], [entry] + order) && entry !in order
  {
  }

  lemma {:induction false} DroppedEntries(order: seq<Node>, i: nat)
    requires i < |order|
    ensures Entries(Dropped(order, i)) == Entries(order)[..i] + Entries(order)[i + 1..]
  {
  }

  lemma {:induction false} MovedEntries(order: seq<Node>, i: nat)
    requires i < |order|
    ensures Touched(Entries(order), Cached(order[i].key, order[i].data), Entries([order[i]] + Dropped(order, i)))
  {
  }

  lemma {:induction false} DroppedTotal(order: seq<Node>, i: nat)
    requires i < |order|
    ensures Total(Entries(Dropped(order, i))) == Total(Entries(order)) - |order[i].data|
  {
    hide Total;
    var l := Entries(order);
    DroppedEntries(order, i);
    TotalConcat(l[..i], l[i + 1..]);
    TotalConcat(l[..i], [l[i]] + l[i + 1..]);
    NewTotal(l[i], l[i + 1..]);
    assert l == l[..i] + ([l[i]] + l[i + 1..]);
  }

  lemma {:induction false} MovedTotal(order: seq<Node>, i: nat)
    requires i < |order|
    ensures Total(Entries([order[i]] + Dropped(order, i))) == Total(Entries(order))
  {
    hide Total;
    var c := Cached(order[i].key, order[i].data);
    DroppedTotal(order, i);
    NewTotal(c, Entries(Dropped(order, i)));
    assert Entries([order[i]] + Dropped(order, i)) == [c] + Entries(Dropped(order, i));
  }

  lemma {:induction false} NewTotal(c: Cached, l: seq<Cached>)
    ensures Total([c] + l) == |c.data| + Total(l)
  {
    TotalConcat([c], l);
    assert [c][..0] == [];
  }

  lemma {:induction false} TrimMore(l: seq<Cached>, capacity: int)
    requires l != [] && Total(l) > capacity
    ensures Trim(l, capacity) == Trim(l[..|l| - 1], capacity)
  {
  }

  lemma {:induction false} TrimDone(l: seq<Cached>, capacity: int)
    requires l == [] || Total(l) <= capacity
    ensures Trim(l, capacity) == l
    ensures capacity >= 0 ==> Total(l) <= capacity
  {
  }

  lemma {:induction false} FindsKey(items: map<Key, Node>, order: seq<Node>, key: Key)
    requires Mapped(items, order)
    ensures key in items <==> Holds(Entries(order), key)
    ensures key in items ==> items[key] in order && items[key].key == key
  {
  }

  lemma {:induction false} NodeIndex(items: map<Key, Node>, order: seq<Node>, key: Key) returns (j: nat)
    requires Mapped(items, order) && key in items
    ensures j < |order| && order[j] == items[key] && order[j].key == key && Entries(order)[j].key == key
  {
    j :| 0 <= j < |order| && order[j] == items[key];
  }

  lemma {:induction false} ListDistinct(items: map<Key, Node>, order: seq<Node>, head: Node?, tail: Node?)
    requires Mapped(items, order) && Linked(order, head, tail)
    ensures DistinctKeys(Entries(order))
  {
  }

  lemma {:induction false} ListKeys(items: map<Key, Node>, order: seq<Node>)
    requires Mapped(items, order)
    ensures forall c :: c in Entries(order) ==> c.key in items
  {
  }

  // ---- eviction of a file

  ghost predicate ToDelete(ks: seq<Key>, seen: set<Key>, fileID: nat) {
    && (forall i, j :: 0 <= i < j < |ks| ==> ks[i] != ks[j])
    && (forall k :: k in ks <==> k in seen && k.fileID == fileID)
  }

  function First(ks: seq<Key>, i: nat): set<Key>
    requires i <= |ks|
  {
    set j | 0 <= j < i :: ks[j]
  }

  lemma {:induction false} FirstMore(ks: seq<Key>, i: nat)
    requires i < |ks|
    ensures First(ks, i + 1) == First(ks, i) + {ks[i]}
  {
  }

  lemma {:induction false} DeleteAt(ks: seq<Key>, all: set<Key>, fileID: nat, i: nat)
    requires ToDelete(ks, all, fileID) && i < |ks|
    ensures ks[i] in all && ks[i] !in First(ks, i)
  {
  }

  lemma {:induction false} DeleteAll(ks: seq<Key>, all: set<Key>, fileID: nat)
    requires ToDelete(ks, all, fileID)
    ensures forall k :: k in all ==> (k in First(ks, |ks|) <==> k.fileID == fileID)
  {
  }

  lemma {:induction false} NothingGone(l: seq<Cached>)
    ensures Without(l, {}) == l
  {
    if l != [] {
      NothingGone(l[..|l| - 1]);
      assert l == l[..|l| - 1] + [l[|l| - 1]];
    }
  }

  lemma {:induction false} WithoutOthers(l: seq<Cached>, gone: set<Key>, key: Key)
    requires forall i :: 0 <= i < |l| ==> l[i].key != key
    ensures Without(l, gone + {key}) == Without(l, gone)
  {
    if l != [] {
      WithoutOthers(l[..|l| - 1], gone, key);
    }
  }

  lemma {:induction false} WithoutFrom(l: seq<Cached>, gone: set<Key>)
    ensures forall c :: c in Without(l, gone) ==> c in l && c.key !in gone
  {
    if l != [] {
      WithoutFrom(l[..|l| - 1], gone);
    }
  }

  /** Taking out one more key takes out one block. */
  lemma {:induction false} WithoutOne(l: seq<Cached>, gone: set<Key>, key: Key, j: nat)
    requires DistinctKeys(l) && j < |Without(l, gone)| && Without(l, gone)[j].key == key
    ensures Without(l, gone + {key}) == Without(l, gone)[..j] + Without(l, gone)[j + 1..]
  {
    hide Without;
    assert l != [] by { WithoutNone(gone); }
    var n := |l| - 1;
    var w := Without(l[..n], gone);
    WithoutFrom(l[..n], gone);
    WithoutLast(l, gone);
    WithoutLast(l, gone + {key});
    if j < |w| {
      assert w[j] in w && w[j] in l[..n];
      WithoutOne(l[..n], gone, key, j);
      assert l[n].key != key;
    } else {
      WithoutOthers(l[..n], gone, key);
    }
  }

  lemma {:induction false} WithoutNone(gone: set<Key>)
    ensures Without([], gone) == []
  {
  }

  lemma {:induction false} WithoutLast(l: seq<Cached>, gone: set<Key>)
    requires l != []
    ensures var n := |l| - 1; Without(l, gone) == Without(l[..n], gone) + if l[n].key in gone then [] else [l[n]]
  {
  }

  lemma {:induction false} WithoutIsOthers(l: seq<Cached>, gone: set<Key>, fileID: nat)
    requires forall c :: c in l ==> (c.key in gone <==> c.key.fileID == fileID)
    ensures Without(l, gone) == OtherFiles(l, fileID)
  {
    if l != [] {
      WithoutIsOthers(l[..|l| - 1], gone, fileID);
      assert l[|l| - 1] in l;
    }
  }

  // ---- reading through the cache

  /** The block that an uncached read of the handle returns. */
  ghost predicate Reads(file: bytes, h: Handle, data: bytes) {
    Readable(file, h) && ChecksumMatches(file, h) && data == file[h.offset..h.offset + h.length]
  }

  /** Every cached block is what its file holds there. Files do not change, have numbers of their own,
      and a block offset belongs to one length. */
  ghost predicate Coherent(l: seq<Cached>, files: map<nat, bytes>, lengths: map<Key, nat>) {
    forall c :: c in l ==>
      && c.key.fileID in files && c.key in lengths
      && Reads(files[c.key.fileID], Handle(c.key.blockOffset, lengths[c.key]), c.data)
  }

  lemma {:induction false} TouchedCoherent(l: seq<Cached>, c: Cached, l': seq<Cached>, files: map<nat, bytes>,
                                           lengths: map<Key, nat>)
    requires Touched(l, c, l') && Coherent(l, files, lengths)
    ensures c in l && Coherent(l', files, lengths)
  {
  }

  lemma {:induction false} TrimMembers(l: seq<Cached>, capacity: int)
    ensures forall c :: c in Trim(l, capacity) ==> c in l
  {
    if l != [] && Total(l) > capacity {
      TrimMembers(l[..|l| - 1], capacity);
    }
  }

  lemma {:induction false} NewCoherent(l: seq<Cached>, c: Cached, capacity: int, files: map<nat, bytes>,
                                       lengths: map<Key, nat>)
    requires Coherent(l, files, lengths) && Coherent([c], files, lengths)
    ensures Coherent(Trim([c] + l, capacity), files, lengths)
  {
    hide Reads, Trim;
    TrimMembers([c] + l, capacity);
    assert c in [c];
  }

  lemma {:induction false} RawReads(file: bytes, h: Handle, data: bytes)
    requires Readable(file, h) && ChecksumMatches(file, h) && data == file[h.offset..h.offset + h.length]
    ensures Reads(file, h, data)
  {
  }

  lemma {:induction false} ReadsRaw(file: bytes, h: Handle, data: bytes)
    requires Reads(file, h, data)
    ensures Readable(file, h) && ChecksumMatches(file, h)
  {
  }

  lemma {:induction false} NewBlock(key: Key, h: Handle, file: bytes, data: bytes, files: map<nat, bytes>,
                                    lengths: map<Key, nat>)
    requires key.fileID in files && files[key.fileID] == file && key in lengths && lengths[key] == h.length
    requires key.blockOffset == h.offset && Reads(file, h, data)
    ensures Coherent([Cached(key, data)], files, lengths)
  {
  }

  lemma {:induction false} BlockReads(l: seq<Cached>, c: Cached, files: map<nat, bytes>, lengths: map<Key, nat>)
    requires Coherent(l, files, lengths) && c in l
    ensures c.key.fileID in files && c.key in lengths
    ensures Reads(files[c.key.fileID], Handle(c.key.blockOffset, lengths[c.key]), c.data)
  {
  }

  /** What a read of a block does to the list: a cached one comes to the front; one that was read goes in
      there and the list is trimmed; one that cannot be read changes nothing. */
  ghost predicate CachedAfter(l: seq<Cached>, key: Key, r: ReadResult<bytes>, capacity: int, l': seq<Cached>) {
    if Holds(l, key) then r.Ok? && Touched(l, Cached(key, r.value), l')
    else if r.Ok? then l' == Trim([Cached(key, r.value)] + l, capacity)
    else l' == l
  }

  /** readDataBlock: a read through the cache returns what an uncached read of the file returns. */
  method ReadDataBlock(cache: BlockCache?, fileID: nat, h: Handle, file: bytes, ghost files: map<nat, bytes>,
                       ghost lengths: map<Key, nat>) returns (r: ReadResult<bytes>)
    requires cache != null ==> cache.Valid() && Coherent(cache.List(), files, lengths)
    requires fileID in files && files[fileID] == file
    requires Key(fileID, h.offset) in lengths && lengths[Key(fileID, h.offset)] == h.length
    modifies cache, if cache != null then cache.order else []
    ensures cache != null ==> cache.Valid() && Coherent(cache.List(), files, lengths)
    ensures cache != null ==>
      CachedAfter(old(cache.List()), Key(fileID, h.offset), r, cache.capacity, cache.List())
    ensures r.Ok? <==> Readable(file, h) && ChecksumMatches(file, h)
    ensures r.Ok? ==> Reads(file, h, r.value)
  {
    hide Holds, Trim, BlockCache.Valid, Coherent, Reads, Touched, BlockAt, ChecksumMatches, Readable, Entries, Linked, Mapped, Total;
    var key := Key(fileID, h.offset);
    if cache != null {
      ghost var l := cache.List();
      var hit := cache.Get(fileID, h.offset);
      if hit.Data? {
        TouchedCoherent(l, Cached(key, hit.d), cache.List(), files, lengths);
        BlockReads(l, Cached(key, hit.d), files, lengths);
        ReadsRaw(file, h, hit.d);
        return Ok(hit.d);
      }
    }
    r := ReadRawBlock(file, h);
    if !r.Ok? {
      return;
    }
    RawReads(file, h, r.value);
    if cache != null {
      ghost var l := cache.List();
      NewBlock(key, h, file, r.value, files, lengths);
      cache.Set(fileID, h.offset, r.value);
      NewCoherent(l, Cached(key, r.value), cache.capacity, files, lengths);
    }
  }
}
