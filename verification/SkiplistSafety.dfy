/** What every interleaving of Add and Get calls and iterators keeps. */
module SkiplistSafety {
  import opened Bytes
  import opened Arenas
  import opened Skiplist

  // ---- one level as a list of nodes

  /** The successor in the list, 0 for the last node. */
  function After(l: seq<nat>, j: nat): nat {
    if j + 1 < |l| then l[j + 1] else 0
  }

  /** l is what a walk along the level-i pointers from the head visits, head included. */
  ghost predicate IsLevel(sh: Shared, i: nat, l: seq<nat>) {
    && |l| > 0 && l[0] == HEAD
    && (forall j :: 0 <= j < |l| ==> l[j] in sh.nodes && l[j] != 0)
    && (forall j {:trigger NextOf(sh, l[j], i)} :: 0 <= j < |l| ==> NextOf(sh, l[j], i) == After(l, j))
  }

  /** Keys strictly increase after the head, so no node and no key occurs twice. */
  ghost predicate SortedLevel(sh: Shared, l: seq<nat>) {
    && (forall j :: 1 <= j < |l| ==> l[j] != HEAD)
    && (forall j, k {:trigger KeyAt(sh, l[j]), KeyAt(sh, l[k])} ::
          1 <= j < k < |l| ==> Less(KeyAt(sh, l[j]), KeyAt(sh, l[k])))
  }

  /** The key of the node is below the given one; the head is below everything. */
  predicate Below(sh: Shared, o: nat, key: bytes) {
    o == HEAD || Less(KeyAt(sh, o), key)
  }

  ghost predicate KeyLinked(sh: Shared, l: seq<nat>, key: bytes) {
    exists j {:trigger KeyAt(sh, l[j])} :: 1 <= j < |l| && KeyAt(sh, l[j]) == key
  }

  // ---- the invariant

  function End(nd: Node): nat {
    nd.valOff + nd.valSize
  }

  ghost predicate Regions(sh: Shared) {
    && 1 <= sh.n && HEAD in sh.nodes
    && (forall o :: o in sh.nodes ==>
          && o > 0
          && sh.nodes[o].keyOff == o + NODE_SIZE
          && sh.nodes[o].valOff == sh.nodes[o].keyOff + sh.nodes[o].keySize
          && End(sh.nodes[o]) <= sh.n && End(sh.nodes[o]) <= |sh.mem|)
    && (forall o, p {:trigger End(sh.nodes[o]), sh.nodes[p]} ::
          o in sh.nodes && p in sh.nodes && o < p ==> End(sh.nodes[o]) <= p)
  }

  ghost predicate Nested(L: seq<seq<nat>>)
    requires |L| == MAX_HEIGHT
  {
    forall i, j, o :: 0 <= i <= j < MAX_HEIGHT && o in L[j] ==> o in L[i]
  }

  ghost predicate SharedInv(sh: Shared, L: seq<seq<nat>>) {
    && Regions(sh)
    && 1 <= sh.height <= MAX_HEIGHT
    && |L| == MAX_HEIGHT
    && (forall i :: 0 <= i < MAX_HEIGHT ==> IsLevel(sh, i, L[i]) && SortedLevel(sh, L[i]))
    && Nested(L)
    && (forall i :: sh.height <= i < MAX_HEIGHT ==> L[i] == [HEAD])
  }

  /** A splice that was read at some time still brackets the key by linked nodes. */
  ghost predicate SpliceOk(sh: Shared, l: seq<nat>, key: bytes, s: Splice) {
    s.prev != 0 ==>
      && s.prev in l && Below(sh, s.prev, key)
      && (s.next != 0 ==> s.next in l && s.next != HEAD && Less(key, KeyAt(sh, s.next)))
  }

  /** The node a call has allocated, 0 if none. */
  function Own(pc: PC): nat {
    match pc
    case WriteKey(nd, _) => nd
    case WriteValue(nd, _) => nd
    case GrowLoad(nd, _) => nd
    case GrowCas(nd, _, _) => nd
    case Store(nd, _, _) => nd
    case Cas(nd, _, _, _, _) => nd
    case Refind(nd, _, _, _) => nd
    case Done(Added(nd, _)) => nd
    case _ => 0
  }

  /** On how many levels that node is linked, counted from the bottom. */
  function Linked(pc: PC): nat {
    match pc
    case Store(_, _, i) => i
    case Cas(_, _, i, _, _) => i
    case Refind(_, _, i, _) => i
    case Done(Added(_, h)) => h
    case _ => 0
  }

  ghost predicate OwnNode(sh: Shared, L: seq<seq<nat>>, th: Thread)
    requires |L| == MAX_HEIGHT
  {
    var nd := Own(th.pc);
    nd != 0 ==>
      && th.op.Add? && nd in sh.nodes && nd != HEAD
      && sh.nodes[nd].keySize == |th.op.key| && sh.nodes[nd].valSize == |th.op.value|
      && (!th.pc.WriteKey? ==> KeyAt(sh, nd) == th.op.key)
      && (!th.pc.WriteKey? && !th.pc.WriteValue? ==> ValueAt(sh, nd) == th.op.value)
      && (forall j :: 0 <= j < MAX_HEIGHT ==> (nd in L[j] <==> j < Linked(th.pc)))
  }

  ghost predicate Splices(sh: Shared, L: seq<seq<nat>>, th: Thread, from: nat)
    requires |L| == MAX_HEIGHT == |th.spl|
  {
    forall i :: from <= i < MAX_HEIGHT ==> SpliceOk(sh, L[i], th.op.key, th.spl[i])
  }

  /** A node of the bottom level that an iterator with this target may stand on. */
  ghost predicate Target(sh: Shared, l: seq<nat>, key: bytes, o: nat) {
    o in l && o != HEAD && !Less(KeyAt(sh, o), key)
  }

  /** The nodes an iterator has left behind and the one it stands on, 0 for none: linked, not below
      the target, and with strictly increasing keys. */
  ghost predicate WalkOk(sh: Shared, l: seq<nat>, key: bytes, seen: seq<nat>, at: nat) {
    && (forall i :: 0 <= i < |seen| ==> Target(sh, l, key, seen[i]))
    && (at != 0 ==> Target(sh, l, key, at))
    && (forall i, j :: 0 <= i < j < |seen| ==> Less(KeyAt(sh, seen[i]), KeyAt(sh, seen[j])))
    && (forall i :: 0 <= i < |seen| && at != 0 ==> Less(KeyAt(sh, seen[i]), KeyAt(sh, at)))
  }

  ghost predicate PCInv(sh: Shared, L: seq<seq<nat>>, th: Thread)
    requires |L| == MAX_HEIGHT == |th.spl|
  {
    match th.pc
    case Start => Splices(sh, L, th, 0)
    case Search(level, prev, found) =>
      && level < MAX_HEIGHT && prev in L[level] && Below(sh, prev, th.op.key)
      && (found ==> KeyLinked(sh, L[0], th.op.key))
      && (!found ==> Splices(sh, L, th, level + 1))
    case Alloc => th.op.Add? && Splices(sh, L, th, 0)
    case WriteKey(_, h) => 1 <= h <= MAX_HEIGHT && Splices(sh, L, th, 0)
    case WriteValue(_, h) => 1 <= h <= MAX_HEIGHT && Splices(sh, L, th, 0)
    case GrowLoad(_, h) => 1 <= h <= MAX_HEIGHT && Splices(sh, L, th, 0)
    case GrowCas(_, h, seen) => 1 <= seen < h <= MAX_HEIGHT && Splices(sh, L, th, 0)
    case Store(_, h, i) => i < h <= MAX_HEIGHT && h <= sh.height && Splices(sh, L, th, 0)
    case Cas(nd, h, i, prev, next) =>
      && i < h <= MAX_HEIGHT && h <= sh.height && Splices(sh, L, th, 0)
      && prev != 0 && SpliceOk(sh, L[i], th.op.key, Splice(prev, next))
      && NextOf(sh, nd, i) == next
    case Refind(_, h, i, prev) =>
      && i < h <= MAX_HEIGHT && h <= sh.height && Splices(sh, L, th, 0)
      && prev in L[i] && Below(sh, prev, th.op.key)
    case Visit(at, seen) => WalkOk(sh, L[0], th.op.key, seen, at)
    case Done(result) =>
      match result
      case Added(_, h) => 1 <= h <= MAX_HEIGHT
      case RecordExists => KeyLinked(sh, L[0], th.op.key)
      case Found(at) => at in L[0] && at != HEAD && KeyAt(sh, at) == th.op.key
      case Panic => false
      case _ => true
  }

  ghost predicate HasNode(pc: PC) {
    pc.WriteKey? || pc.WriteValue? || pc.GrowLoad? || pc.GrowCas? || pc.Store? || pc.Cas?
    || pc.Refind? || (pc.Done? && pc.result.Added?)
  }

  ghost predicate ThreadInv(sh: Shared, L: seq<seq<nat>>, th: Thread)
    requires |L| == MAX_HEIGHT
  {
    && WellFormed(th) && (th.op.Walk? && !th.op.seek ==> th.op.key == [])
    && (HasNode(th.pc) ==> Own(th.pc) != 0)
    && OwnNode(sh, L, th)
    && PCInv(sh, L, th)
  }

  ghost predicate DistinctOwners(threads: seq<Thread>) {
    forall t, u :: 0 <= t < u < |threads| && Own(threads[t].pc) != 0 ==>
      Own(threads[t].pc) != Own(threads[u].pc)
  }

  ghost predicate Inv(s: State, L: seq<seq<nat>>) {
    && SharedInv(s.sh, L)
    && (forall t :: 0 <= t < |s.threads| ==> ThreadInv(s.sh, L, s.threads[t]))
    && DistinctOwners(s.threads)
  }

  // ---- what a step may change, seen by a thread that does not own node x

  ghost predicate Frame(sh: Shared, L: seq<seq<nat>>, sh': Shared, L': seq<seq<nat>>, x: nat)
    requires |L| == |L'| == MAX_HEIGHT
  {
    && sh.height <= sh'.height
    && (forall o :: o in sh.nodes ==>
          && o in sh'.nodes
          && sh'.nodes[o].keySize == sh.nodes[o].keySize && sh'.nodes[o].valSize == sh.nodes[o].valSize)
    && (forall o :: o in sh.nodes && (o != x || o in L[0]) ==>
          KeyAt(sh', o) == KeyAt(sh, o) && ValueAt(sh', o) == ValueAt(sh, o))
    && (forall i, o :: 0 <= i < MAX_HEIGHT && o in L[i] ==> o in L'[i])
    && (forall i, o :: 0 <= i < MAX_HEIGHT && o in L'[i] && o !in L[i] ==> o == x)
    && (forall i, o :: 0 <= i < MAX_HEIGHT && o in sh.nodes && o != x && o !in L[i] ==>
          NextOf(sh', o, i) == NextOf(sh, o, i))
  }

  lemma {:induction false} KeyLinkedFrame(sh: Shared, L: seq<seq<nat>>, sh': Shared, L': seq<seq<nat>>, x: nat, key: bytes)
    requires |L| == |L'| == MAX_HEIGHT
    requires SharedInv(sh, L) && SharedInv(sh', L') && Frame(sh, L, sh', L', x)
    requires KeyLinked(sh, L[0], key)
    ensures KeyLinked(sh', L'[0], key)
  {
    var j :| 1 <= j < |L[0]| && KeyAt(sh, L[0][j]) == key;
    var o := L[0][j];
    assert o in L'[0];
    var k :| 0 <= k < |L'[0]| && L'[0][k] == o;
    assert k != 0;
    assert KeyAt(sh', L'[0][k]) == key;
  }

  lemma {:induction false} SpliceFrame(sh: Shared, L: seq<seq<nat>>, sh': Shared, L': seq<seq<nat>>, x: nat, i: nat,
                    key: bytes, s: Splice)
    requires |L| == |L'| == MAX_HEIGHT && i < MAX_HEIGHT
    requires SharedInv(sh, L) && Frame(sh, L, sh', L', x)
    requires SpliceOk(sh, L[i], key, s)
    ensures SpliceOk(sh', L'[i], key, s)
  {
    if s.prev != 0 {
      LinkedStays(sh, L, sh', L', x, i, s.prev);
      if s.next != 0 {
        LinkedStays(sh, L, sh', L', x, i, s.next);
      }
    }
  }

  lemma {:induction false} LinkedStays(sh: Shared, L: seq<seq<nat>>, sh': Shared, L': seq<seq<nat>>, x: nat, i: nat, o: nat)
    requires |L| == |L'| == MAX_HEIGHT && i < MAX_HEIGHT
    requires SharedInv(sh, L) && Frame(sh, L, sh', L', x)
    requires o in L[i]
    ensures o in L'[i] && o in sh.nodes && KeyAt(sh', o) == KeyAt(sh, o)
  {
  }

  lemma {:induction false} SplicesFrame(sh: Shared, L: seq<seq<nat>>, sh': Shared, L': seq<seq<nat>>, x: nat, th: Thread,
                     from: nat)
    requires |L| == |L'| == MAX_HEIGHT == |th.spl|
    requires SharedInv(sh, L) && Frame(sh, L, sh', L', x)
    requires Splices(sh, L, th, from)
    ensures Splices(sh', L', th, from)
  {
    forall i | from <= i < MAX_HEIGHT
      ensures SpliceOk(sh', L'[i], th.op.key, th.spl[i])
    {
      SpliceFrame(sh, L, sh', L', x, i, th.op.key, th.spl[i]);
    }
  }

  lemma {:induction false} OwnNodeFrame(sh: Shared, L: seq<seq<nat>>, sh': Shared, L': seq<seq<nat>>, x: nat, th: Thread)
    requires |L| == |L'| == MAX_HEIGHT
    requires Frame(sh, L, sh', L', x)
    requires Own(th.pc) == 0 || Own(th.pc) != x
    requires OwnNode(sh, L, th)
    ensures OwnNode(sh', L', th)
  {
  }

  lemma {:induction false} WalkFrame(sh: Shared, L: seq<seq<nat>>, sh': Shared, L': seq<seq<nat>>, x: nat, key: bytes,
                     seen: seq<nat>, at: nat)
    requires |L| == |L'| == MAX_HEIGHT
    requires SharedInv(sh, L) && Frame(sh, L, sh', L', x) && WalkOk(sh, L[0], key, seen, at)
    ensures WalkOk(sh', L'[0], key, seen, at)
  {
    hide Less, SharedInv, Frame;
    forall o | o in L[0]
      ensures o in L'[0] && KeyAt(sh', o) == KeyAt(sh, o)
    {
      LinkedStays(sh, L, sh', L', x, 0, o);
    }
  }

  lemma {:induction false} PCInvFrame(sh: Shared, L: seq<seq<nat>>, sh': Shared, L': seq<seq<nat>>, x: nat, th: Thread)
    requires |L| == |L'| == MAX_HEIGHT == |th.spl|
    requires SharedInv(sh, L) && SharedInv(sh', L') && Frame(sh, L, sh', L', x)
    requires ThreadInv(sh, L, th) && (Own(th.pc) == 0 || Own(th.pc) != x)
    ensures PCInv(sh', L', th)
  {
    if Splices(sh, L, th, 0) {
      SplicesFrame(sh, L, sh', L', x, th, 0);
    }
    match th.pc {
      case Search(level, prev, found) =>
        LinkedStays(sh, L, sh', L', x, level, prev);
        if found {
          KeyLinkedFrame(sh, L, sh', L', x, th.op.key);
        } else {
          SplicesFrame(sh, L, sh', L', x, th, level + 1);
        }
      case Cas(nd, h, i, prev, next) =>
        SpliceFrame(sh, L, sh', L', x, i, th.op.key, Splice(prev, next));
        assert nd !in L[i];
      case Refind(nd, h, i, prev) =>
        LinkedStays(sh, L, sh', L', x, i, prev);
      case Visit(at, seen) =>
        WalkFrame(sh, L, sh', L', x, th.op.key, seen, at);
      case Done(result) =>
        if result.RecordExists? {
          KeyLinkedFrame(sh, L, sh', L', x, th.op.key);
        } else if result.Found? {
          LinkedStays(sh, L, sh', L', x, 0, result.at);
        }
      case _ =>
    }
  }

  // ---- steps that only read the shared state

  /** What a walk finds next on a level it is on. */
  lemma {:induction false} NextOnLevel(sh: Shared, i: nat, l: seq<nat>, prev: nat)
    requires IsLevel(sh, i, l) && SortedLevel(sh, l) && prev in l
    ensures var next := NextOf(sh, prev, i); next != 0 ==> next in l && next != HEAD
  {
  }

  /** Where the walk stops, the next key tells whether the key is on the level. */
  lemma {:induction false} StopDecides(sh: Shared, i: nat, l: seq<nat>, prev: nat, key: bytes)
    requires IsLevel(sh, i, l) && SortedLevel(sh, l) && prev in l && Below(sh, prev, key)
    requires var next := NextOf(sh, prev, i); next != 0 ==> !Less(KeyAt(sh, next), key)
    ensures var next := NextOf(sh, prev, i);
      KeyLinked(sh, l, key) <==> next != 0 && KeyAt(sh, next) == key
  {
    var j :| 0 <= j < |l| && l[j] == prev;
    var next := NextOf(sh, prev, i);
    if next != 0 && KeyAt(sh, next) == key {
      assert KeyAt(sh, l[j + 1]) == key;
    }
    if k :| 1 <= k < |l| && KeyAt(sh, l[k]) == key {
      LessIrreflexive(key);
      if k < j {
        LessTransitive(key, KeyAt(sh, l[j]), key);
        assert false;
      }
      if k > j + 1 {
        LessTotal(key, KeyAt(sh, next));
        LessTransitive(key, KeyAt(sh, next), key);
        assert false;
      }
    }
  }

  /** What holds after a step of th: the invariants, and a frame for everyone else. */
  ghost predicate Preserved(sh: Shared, L: seq<seq<nat>>, th: Thread, sh': Shared, L': seq<seq<nat>>, th': Thread)
    requires |L| == |L'| == MAX_HEIGHT
  {
    && SharedInv(sh', L') && ThreadInv(sh', L', th') && th'.op == th.op
    && (Own(th'.pc) == Own(th.pc) || Own(th'.pc) == 0 || (Own(th.pc) == 0 && Own(th'.pc) !in sh.nodes))
    && Frame(sh, L, sh', L', if Own(th.pc) != 0 then Own(th.pc) else Own(th'.pc))
  }

  lemma {:induction false} SearchPreserves(sh: Shared, L: seq<seq<nat>>, th: Thread)
    requires SharedInv(sh, L) && ThreadInv(sh, L, th) && th.pc.Search?
    ensures Preserved(sh, L, th, sh, L, SearchStep(sh, th))
  {
    hide Less, IsLevel, SortedLevel, Regions;
    var Search(level, prev, found) := th.pc;
    var next := NextOf(sh, prev, level);
    NextOnLevel(sh, level, L[level], prev);
    if !(next != 0 && Less(KeyAt(sh, next), th.op.key)) {
      SearchStops(sh, L, th);
    }
  }

  /** At the end of a level: the splice is good if the key was not met, and a met key is linked. */
  lemma {:induction false} SearchStops(sh: Shared, L: seq<seq<nat>>, th: Thread)
    requires SharedInv(sh, L) && ThreadInv(sh, L, th) && th.pc.Search?
    requires var next := NextOf(sh, th.pc.prev, th.pc.level);
      next != 0 ==> !Less(KeyAt(sh, next), th.op.key)
    ensures ThreadInv(sh, L, SearchStep(sh, th))
  {
    hide Less, IsLevel, SortedLevel, Regions;
    var Search(level, prev, found) := th.pc;
    var key := th.op.key;
    var next := NextOf(sh, prev, level);
    var hit := next != 0 && KeyAt(sh, next) == key;
    NextOnLevel(sh, level, L[level], prev);
    StopDecides(sh, level, L[level], prev, key);
    if hit {
      LowerLevelHasKey(sh, L, level, key);
    } else {
      if next != 0 {
        LessTotal(key, KeyAt(sh, next));
      }
      assert SpliceOk(sh, L[level], key, Splice(prev, next));
    }
    if level > 0 {
      assert prev in L[level - 1];
    } else if th.op.Walk? {
      assert next != 0 ==> Target(sh, L[0], key, next);
      assert SearchStep(sh, th).pc == Visit(next, []);
    }
  }

  lemma {:induction false} LowerLevelHasKey(sh: Shared, L: seq<seq<nat>>, i: nat, key: bytes)
    requires SharedInv(sh, L) && i < MAX_HEIGHT && KeyLinked(sh, L[i], key)
    ensures KeyLinked(sh, L[0], key)
  {
    var j :| 1 <= j < |L[i]| && KeyAt(sh, L[i][j]) == key;
    var o := L[i][j];
    assert o in L[i];
    assert o in L[0];
    var k :| 0 <= k < |L[0]| && L[0][k] == o;
    assert SortedLevel(sh, L[i]);
    assert k != 0;
    assert KeyAt(sh, L[0][k]) == key;
  }

  lemma {:induction false} RefindPreserves(sh: Shared, L: seq<seq<nat>>, th: Thread)
    requires SharedInv(sh, L) && ThreadInv(sh, L, th) && th.pc.Refind?
    ensures Preserved(sh, L, th, sh, L, RefindStep(sh, th))
  {
    hide Less, IsLevel, SortedLevel, Regions;
    var Refind(nd, h, i, prev) := th.pc;
    var next := NextOf(sh, prev, i);
    NextOnLevel(sh, i, L[i], prev);
    if !(next != 0 && Less(KeyAt(sh, next), th.op.key)) {
      RefindStops(sh, L, th);
    }
  }

  lemma {:induction false} RefindStops(sh: Shared, L: seq<seq<nat>>, th: Thread)
    requires SharedInv(sh, L) && ThreadInv(sh, L, th) && th.pc.Refind?
    requires var next := NextOf(sh, th.pc.prev, th.pc.i); next != 0 ==> !Less(KeyAt(sh, next), th.op.key)
    ensures ThreadInv(sh, L, RefindStep(sh, th))
  {
    hide Less, IsLevel, SortedLevel, Regions;
    var Refind(nd, h, i, prev) := th.pc;
    var key := th.op.key;
    var next := NextOf(sh, prev, i);
    NextOnLevel(sh, i, L[i], prev);
    if next != 0 && KeyAt(sh, next) == key {
      StopDecides(sh, i, L[i], prev, key);
      LowerLevelHasKey(sh, L, i, key);
      if i != 0 {
        assert next in L[0];
        NoSecondNode(sh, L, nd, next, key);
        assert false;
      }
    } else {
      if next != 0 {
        LessTotal(key, KeyAt(sh, next));
      }
      assert SpliceOk(sh, L[i], key, Splice(prev, next));
    }
  }

  /** Two linked nodes with one key are the same node; so a call that is linked below cannot meet
      its key again above, and the panic of Add is out of reach. */
  lemma {:induction false} NoSecondNode(sh: Shared, L: seq<seq<nat>>, a: nat, b: nat, key: bytes)
    requires SharedInv(sh, L)
    requires a in L[0] && b in L[0] && a != HEAD && b != HEAD
    requires KeyAt(sh, a) == key && KeyAt(sh, b) == key
    ensures a == b
  {
  }

  // ---- steps that write

  /** The levels survive any change that leaves the linked nodes' pointers and keys alone. */
  lemma {:induction false} SharedFrame(sh: Shared, L: seq<seq<nat>>, sh': Shared)
    requires SharedInv(sh, L)
    requires Regions(sh') && sh.height <= sh'.height <= MAX_HEIGHT
    requires forall i, o :: 0 <= i < MAX_HEIGHT && o in L[i] ==>
      o in sh'.nodes && NextOf(sh', o, i) == NextOf(sh, o, i) && KeyAt(sh', o) == KeyAt(sh, o)
    ensures SharedInv(sh', L)
  {
    hide Less, IsLevel, SortedLevel, Regions, KeyAt, NextOf;
    forall i | 0 <= i < MAX_HEIGHT
      ensures IsLevel(sh', i, L[i]) && SortedLevel(sh', L[i])
    {
      LevelFrame(sh, sh', i, L[i]);
    }
  }

  lemma {:induction false} LevelFrame(sh: Shared, sh': Shared, i: nat, l: seq<nat>)
    requires IsLevel(sh, i, l) && SortedLevel(sh, l)
    requires forall o :: o in l ==>
      o in sh'.nodes && NextOf(sh', o, i) == NextOf(sh, o, i) && KeyAt(sh', o) == KeyAt(sh, o)
    ensures IsLevel(sh', i, l) && SortedLevel(sh', l)
  {
  }

  /** A fresh region starts behind every node there is. */
  lemma {:induction false} RegionsExtend(sh: Shared, sh': Shared, off: nat, node: Node)
    requires Regions(sh) && sh' == sh.(n := sh'.n, nodes := sh.nodes[off := node])
    requires sh.n <= off && End(node) <= sh'.n <= |sh.mem|
    requires node.keyOff == off + NODE_SIZE && node.valOff == node.keyOff + node.keySize
    ensures Regions(sh') && off !in sh.nodes && off != 0 && off != HEAD
  {
    hide Less, KeyAt, Regions;
    RegionsBelow(sh, off);
    forall o, p | o in sh'.nodes && p in sh'.nodes && o < p
      ensures End(sh'.nodes[o]) <= p
    {
      if o != off && p != off {
        RegionPair(sh, o, p);
      }
    }
    RegionsOne(sh, sh', off, node);
  }

  lemma {:induction false} RegionsBelow(sh: Shared, off: nat)
    requires Regions(sh) && sh.n <= off
    ensures off !in sh.nodes && off != 0 && off != HEAD
    ensures forall o :: o in sh.nodes ==> o < End(sh.nodes[o]) <= off
  {
  }

  lemma {:induction false} RegionPair(sh: Shared, o: nat, p: nat)
    requires Regions(sh) && o in sh.nodes && p in sh.nodes && o < p
    ensures End(sh.nodes[o]) <= p
  {
  }

  lemma {:induction false} RegionsOne(sh: Shared, sh': Shared, off: nat, node: Node)
    requires Regions(sh) && sh' == sh.(n := sh'.n, nodes := sh.nodes[off := node])
    requires sh.n <= off && End(node) <= sh'.n <= |sh.mem|
    requires node.keyOff == off + NODE_SIZE && node.valOff == node.keyOff + node.keySize
    requires forall o, p {:trigger End(sh'.nodes[o]), sh'.nodes[p]} ::
      o in sh'.nodes && p in sh'.nodes && o < p ==> End(sh'.nodes[o]) <= p
    ensures Regions(sh')
  {
  }

  lemma {:induction false} AllocRegions(sh: Shared, th: Thread, h: nat)
    requires Regions(sh) && th.op.Add?
    requires AllocStep(sh, th, h).0.n <= |sh.mem|
    ensures var (sh', th') := AllocStep(sh, th, h);
      Regions(sh') && Own(th'.pc) !in sh.nodes && Own(th'.pc) != 0 && Own(th'.pc) != HEAD
  {
    hide Less;
    var (sh', th') := AllocStep(sh, th, h);
    var off := Own(th'.pc);
    assert sh.n <= off && End(sh'.nodes[off]) <= sh'.n by {
      OffsetInsideReservation(sh.n, NODE_SIZE + |th.op.key| + |th.op.value|, NODE_ALIGNMENT);
    }
    assert 1 <= sh.n;
    hide Regions;
    RegionsExtend(sh, sh', off, sh'.nodes[off]);
  }

  /** The arena counter and the list height concern no node. */
  lemma {:induction false} CounterFrame(sh: Shared, L: seq<seq<nat>>, sh': Shared, x: nat)
    requires SharedInv(sh, L) && sh' == sh.(n := sh'.n, height := sh'.height)
    requires sh.n <= sh'.n && sh.height <= sh'.height <= MAX_HEIGHT
    ensures SharedInv(sh', L) && Frame(sh, L, sh', L, x)
  {
    hide Less, IsLevel, SortedLevel;
    LinkedAreNodes(sh, L);
    SharedFrame(sh, L, sh');
  }

  lemma {:induction false} NewNodeFrame(sh: Shared, L: seq<seq<nat>>, sh': Shared, off: nat)
    requires SharedInv(sh, L) && Regions(sh') && off !in sh.nodes && off in sh'.nodes
    requires sh' == sh.(n := sh'.n, nodes := sh.nodes[off := sh'.nodes[off]])
    ensures SharedInv(sh', L) && Frame(sh, L, sh', L, off)
    ensures forall j :: 0 <= j < MAX_HEIGHT ==> off !in L[j]
  {
    hide Less, IsLevel, SortedLevel, Regions;
    LinkedAreNodes(sh, L);
    assert forall o :: o in sh.nodes ==> KeyAt(sh', o) == KeyAt(sh, o) && ValueAt(sh', o) == ValueAt(sh, o);
    SharedFrame(sh, L, sh');
  }

  lemma {:induction false} AllocPreserves(sh: Shared, L: seq<seq<nat>>, th: Thread, h: nat)
    requires SharedInv(sh, L) && ThreadInv(sh, L, th) && th.pc.Alloc? && 1 <= h <= MAX_HEIGHT
    ensures var (sh', th') := AllocStep(sh, th, h); Preserved(sh, L, th, sh', L, th')
  {
    hide Less, IsLevel, SortedLevel, Regions, Frame, KeyAt, ValueAt;
    var (sh', th') := AllocStep(sh, th, h);
    if sh'.n <= |sh.mem| {
      AllocRegions(sh, th, h);
      NewNodeFrame(sh, L, sh', Own(th'.pc));
    } else {
      CounterFrame(sh, L, sh', 0);
    }
    SplicesFrame(sh, L, sh', L, Own(th'.pc), th, 0);
  }

  lemma {:induction false} LinkedAreNodes(sh: Shared, L: seq<seq<nat>>)
    requires SharedInv(sh, L)
    ensures forall i, o :: 0 <= i < MAX_HEIGHT && o in L[i] ==> o in sh.nodes
  {
  }

  lemma {:induction false} SliceOfPut(mem: bytes, off: nat, src: bytes, o: nat, k: nat)
    requires off + |src| <= |mem| && o + k <= |mem|
    ensures o + k <= off || off + |src| <= o ==> Slice(PutBytes(mem, off, src), o, k) == Slice(mem, o, k)
    ensures Slice(PutBytes(mem, off, src), off, |src|) == src
  {
  }

  /** Writing inside one node's region leaves the keys and values of all others alone. */
  lemma {:induction false} WriteFrame(sh: Shared, nd: nat, off: nat, src: bytes)
    requires Regions(sh) && nd in sh.nodes
    requires sh.nodes[nd].keyOff <= off && off + |src| <= End(sh.nodes[nd])
    ensures var sh' := sh.(mem := PutBytes(sh.mem, off, src));
      Regions(sh') && forall o :: o in sh.nodes && o != nd ==>
        KeyAt(sh', o) == KeyAt(sh, o) && ValueAt(sh', o) == ValueAt(sh, o)
  {
    forall o | o in sh.nodes && o != nd
      ensures var sh' := sh.(mem := PutBytes(sh.mem, off, src));
        KeyAt(sh', o) == KeyAt(sh, o) && ValueAt(sh', o) == ValueAt(sh, o)
    {
      var node := sh.nodes[o];
      assert o < nd ==> End(node) <= nd;
      assert nd < o ==> End(sh.nodes[nd]) <= o;
      SliceOfPut(sh.mem, off, src, node.keyOff, node.keySize);
      SliceOfPut(sh.mem, off, src, node.valOff, node.valSize);
    }
  }

  lemma {:induction false} WriteKeyPreserves(sh: Shared, L: seq<seq<nat>>, th: Thread, h: nat)
    requires SharedInv(sh, L) && ThreadInv(sh, L, th) && th.pc.WriteKey?
    ensures var (sh', th') := Act(sh, th, h); Preserved(sh, L, th, sh', L, th')
  {
    hide Less, IsLevel, SortedLevel, Nested, SpliceOk, WalkOk, Regions, PutBytes, Slice, KeyAt, ValueAt, Splices;
    var (sh', th') := Act(sh, th, h);
    WriteKeyEffect(sh, th.pc.nd, th.op.key);
    WritePreserves(sh, L, sh', th);
    KeyedThread(sh, L, sh', th, h);
  }

  lemma {:induction false} WriteKeyEffect(sh: Shared, nd: nat, key: bytes)
    requires Regions(sh) && nd in sh.nodes && sh.nodes[nd].keySize == |key|
    ensures var sh' := sh.(mem := PutBytes(sh.mem, nd + NODE_SIZE, key));
      && Regions(sh') && KeyAt(sh', nd) == key
      && forall o :: o in sh.nodes && o != nd ==> KeyAt(sh', o) == KeyAt(sh, o) && ValueAt(sh', o) == ValueAt(sh, o)
  {
    hide Regions, Slice, PutBytes;
    RegionOf(sh, nd);
    var node := sh.nodes[nd];
    WriteFrame(sh, nd, node.keyOff, key);
    SliceOfPut(sh.mem, node.keyOff, key, node.keyOff, node.keySize);
  }

  lemma {:induction false} WriteValuePreserves(sh: Shared, L: seq<seq<nat>>, th: Thread, h: nat)
    requires SharedInv(sh, L) && ThreadInv(sh, L, th) && th.pc.WriteValue?
    ensures var (sh', th') := Act(sh, th, h); Preserved(sh, L, th, sh', L, th')
  {
    hide Less, IsLevel, SortedLevel, Nested, SpliceOk, WalkOk, Regions, PutBytes, Slice, KeyAt, ValueAt, Splices;
    var (sh', th') := Act(sh, th, h);
    WriteValueEffect(sh, th.pc.nd, th.op.value);
    WritePreserves(sh, L, sh', th);
    WrittenThread(sh, L, sh', th, h);
  }

  lemma {:induction false} RegionOf(sh: Shared, nd: nat)
    requires Regions(sh) && nd in sh.nodes
    ensures var node := sh.nodes[nd];
      && node.keyOff == nd + NODE_SIZE && node.valOff == node.keyOff + node.keySize && End(node) <= |sh.mem|
  {
  }

  lemma {:induction false} WriteValueEffect(sh: Shared, nd: nat, value: bytes)
    requires Regions(sh) && nd in sh.nodes && sh.nodes[nd].valSize == |value|
    ensures var sh' := sh.(mem := PutBytes(sh.mem, nd + NODE_SIZE + sh.nodes[nd].keySize, value));
      && Regions(sh') && KeyAt(sh', nd) == KeyAt(sh, nd) && ValueAt(sh', nd) == value
      && forall o :: o in sh.nodes && o != nd ==> KeyAt(sh', o) == KeyAt(sh, o) && ValueAt(sh', o) == ValueAt(sh, o)
  {
    hide Regions, Slice, PutBytes;
    RegionOf(sh, nd);
    var node := sh.nodes[nd];
    WriteFrame(sh, nd, node.valOff, value);
    SliceOfPut(sh.mem, node.valOff, value, node.keyOff, node.keySize);
    SliceOfPut(sh.mem, node.valOff, value, node.valOff, node.valSize);
  }

  lemma {:induction false} WrittenThread(sh: Shared, L: seq<seq<nat>>, sh': Shared, th: Thread, h: nat)
    requires |L| == MAX_HEIGHT && ThreadInv(sh, L, th) && th.pc.WriteValue? && sh' == Act(sh, th, h).0
    requires Splices(sh', L, th, 0) && KeyAt(sh', th.pc.nd) == KeyAt(sh, th.pc.nd) && ValueAt(sh', th.pc.nd) == th.op.value
    ensures ThreadInv(sh', L, Act(sh, th, h).1)
  {
    hide Less, SpliceOk, WalkOk, Slice, PutBytes, KeyAt, ValueAt;
  }

  lemma {:induction false} KeyedThread(sh: Shared, L: seq<seq<nat>>, sh': Shared, th: Thread, h: nat)
    requires |L| == MAX_HEIGHT && ThreadInv(sh, L, th) && th.pc.WriteKey? && sh' == Act(sh, th, h).0
    requires Splices(sh', L, th, 0) && KeyAt(sh', th.pc.nd) == th.op.key
    ensures ThreadInv(sh', L, Act(sh, th, h).1)
  {
    hide Less, SpliceOk, WalkOk, Slice, PutBytes, KeyAt, ValueAt;
  }

  /** The part the two copies share: the node written is not linked anywhere yet. */
  lemma {:induction false} WritePreserves(sh: Shared, L: seq<seq<nat>>, sh': Shared, th: Thread)
    requires SharedInv(sh, L) && ThreadInv(sh, L, th) && (th.pc.WriteKey? || th.pc.WriteValue?)
    requires sh' == sh.(mem := sh'.mem) && Regions(sh')
    requires forall o :: o in sh.nodes && o != Own(th.pc) ==>
      KeyAt(sh', o) == KeyAt(sh, o) && ValueAt(sh', o) == ValueAt(sh, o)
    ensures SharedInv(sh', L) && Frame(sh, L, sh', L, Own(th.pc)) && Splices(sh', L, th, 0)
  {
    hide Less, IsLevel, SortedLevel, Regions;
    var nd := Own(th.pc);
    LinkedAreNodes(sh, L);
    assert forall i :: 0 <= i < MAX_HEIGHT ==> nd !in L[i];
    SharedFrame(sh, L, sh');
    SplicesFrame(sh, L, sh', L, nd, th, 0);
  }

  lemma {:induction false} GrowThread(sh: Shared, L: seq<seq<nat>>, th: Thread, h: nat)
    requires |L| == MAX_HEIGHT && ThreadInv(sh, L, th) && (th.pc.GrowLoad? || th.pc.GrowCas?)
    requires 1 <= sh.height <= MAX_HEIGHT && Splices(Act(sh, th, h).0, L, th, 0)
    ensures var (sh', th') := Act(sh, th, h); ThreadInv(sh', L, th')
  {
    hide Less, SpliceOk, Below;
  }

  lemma {:induction false} GrowPreserves(sh: Shared, L: seq<seq<nat>>, th: Thread, h: nat)
    requires SharedInv(sh, L) && ThreadInv(sh, L, th) && (th.pc.GrowLoad? || th.pc.GrowCas?)
    ensures var (sh', th') := Act(sh, th, h); Preserved(sh, L, th, sh', L, th')
  {
    hide Less, IsLevel, SortedLevel, Regions, Nested;
    var (sh', th') := Act(sh, th, h);
    CounterFrame(sh, L, sh', Own(th.pc));
    SplicesFrame(sh, L, sh', L, Own(th.pc), th, 0);
    GrowThread(sh, L, th, h);
    hide SharedInv, Frame, OwnNode, PCInv;
  }

  lemma {:induction false} SetNextEffect(sh: Shared, off: nat, level: nat, next: nat)
    ensures var sh' := SetNext(sh, off, level, next);
      && sh' == sh.(links := sh'.links) && NextOf(sh', off, level) == next
      && (forall o, i :: o != off || i != level ==> NextOf(sh', o, i) == NextOf(sh, o, i))
      && (forall o :: KeyAt(sh', o) == KeyAt(sh, o) && ValueAt(sh', o) == ValueAt(sh, o))
  {
  }

  /** A tower entry of a level the node is not on yet concerns nobody else. */
  lemma {:induction false} StoreFrame(sh: Shared, L: seq<seq<nat>>, nd: nat, i: nat, next: nat)
    requires SharedInv(sh, L) && nd in sh.nodes && i < MAX_HEIGHT
    requires forall j :: i <= j < MAX_HEIGHT ==> nd !in L[j]
    ensures var sh' := SetNext(sh, nd, i, next); SharedInv(sh', L) && Frame(sh, L, sh', L, nd)
  {
    hide Less, SortedLevel, IsLevel, Regions;
    var sh' := SetNext(sh, nd, i, next);
    SetNextEffect(sh, nd, i, next);
    RegionsUnlinked(sh, sh');
    LinkedAreNodes(sh, L);
    SharedFrame(sh, L, sh');
  }

  lemma {:induction false} StorePreserves(sh: Shared, L: seq<seq<nat>>, th: Thread)
    requires SharedInv(sh, L) && ThreadInv(sh, L, th) && th.pc.Store?
    ensures var (sh', th') := StoreStep(sh, th); Preserved(sh, L, th, sh', L, th')
  {
    hide Less, SortedLevel, IsLevel, Regions, Frame, SetNext, NextOf, KeyAt, ValueAt, WalkOk, Nested;
    var (sh', th') := StoreStep(sh, th);
    var Store(nd, h, i) := th.pc;
    StoreFrame(sh, L, nd, i, th'.pc.next);
    SetNextEffect(sh, nd, i, th'.pc.next);
    SplicesFrame(sh, L, sh', L, nd, th, 0);
    assert th.spl[i].prev == 0 ==> HEAD in L[i] by { HeadOnLevels(sh, L); }
    assert SpliceOk(sh', L[i], th.op.key, th.spl[i]);
  }

  function Insert(l: seq<nat>, j: nat, nd: nat): seq<nat>
    requires j < |l|
  {
    l[..j + 1] + [nd] + l[j + 1..]
  }

  /** A successful compare-and-swap puts the node between two nodes that bracket its key. */
  lemma {:induction false} LinkLevel(sh: Shared, i: nat, l: seq<nat>, j: nat, nd: nat)
    requires i < MAX_HEIGHT && IsLevel(sh, i, l) && SortedLevel(sh, l) && j < |l|
    requires nd in sh.nodes && nd !in l && nd != HEAD && nd != 0 && NextOf(sh, nd, i) == After(l, j)
    requires Below(sh, l[j], KeyAt(sh, nd))
    requires j + 1 < |l| ==> Less(KeyAt(sh, nd), KeyAt(sh, l[j + 1]))
    ensures var sh', l' := SetNext(sh, l[j], i, nd), Insert(l, j, nd);
      IsLevel(sh', i, l') && SortedLevel(sh', l')
  {
    SetNextEffect(sh, l[j], i, nd);
    LinkPointers(sh, i, l, j, nd);
    LinkSorted(sh, l, j, nd);
    var sh', l' := SetNext(sh, l[j], i, nd), Insert(l, j, nd);
    assert forall o :: KeyAt(sh', o) == KeyAt(sh, o);
  }

  lemma {:induction false} LinkPointers(sh: Shared, i: nat, l: seq<nat>, j: nat, nd: nat)
    requires i < MAX_HEIGHT && IsLevel(sh, i, l) && SortedLevel(sh, l) && j < |l|
    requires nd in sh.nodes && nd !in l && nd != 0 && NextOf(sh, nd, i) == After(l, j)
    ensures IsLevel(SetNext(sh, l[j], i, nd), i, Insert(l, j, nd))
  {
    var sh', l' := SetNext(sh, l[j], i, nd), Insert(l, j, nd);
    SetNextEffect(sh, l[j], i, nd);
    forall k | 0 <= k < |l'|
      ensures l'[k] in sh'.nodes && l'[k] != 0 && NextOf(sh', l'[k], i) == After(l', k)
    {
      if k <= j {
        assert l'[k] == l[k];
        if k < j {
          DistinctOnLevel(sh, l, k, j);
        }
      } else if k > j + 1 {
        assert l'[k] == l[k - 1];
        DistinctOnLevel(sh, l, j, k - 1);
      }
    }
  }

  lemma {:induction false} DistinctOnLevel(sh: Shared, l: seq<nat>, j: nat, k: nat)
    requires SortedLevel(sh, l) && j < k < |l| && l[0] == HEAD
    ensures l[j] != l[k]
  {
    if j > 0 {
      LessIrreflexive(KeyAt(sh, l[j]));
    }
  }

  lemma {:induction false} LinkSorted(sh: Shared, l: seq<nat>, j: nat, nd: nat)
    requires |l| > 0 && l[0] == HEAD && SortedLevel(sh, l) && j < |l| && nd != HEAD
    requires Below(sh, l[j], KeyAt(sh, nd))
    requires j + 1 < |l| ==> Less(KeyAt(sh, nd), KeyAt(sh, l[j + 1]))
    ensures SortedLevel(sh, Insert(l, j, nd))
  {
    hide Less, KeyAt;
    var l' := Insert(l, j, nd);
    forall a, b | 1 <= a < b < |l'|
      ensures Less(KeyAt(sh, l'[a]), KeyAt(sh, l'[b]))
    {
      if a <= j && b == j + 1 {
        assert l'[a] == l[a] && l'[b] == nd;
        if a < j {
          LessTransitive(KeyAt(sh, l[a]), KeyAt(sh, l[j]), KeyAt(sh, nd));
        }
      } else if a == j + 1 {
        assert l'[a] == nd && l'[b] == l[b - 1];
        if b - 1 > j + 1 {
          LessTransitive(KeyAt(sh, nd), KeyAt(sh, l[j + 1]), KeyAt(sh, l[b - 1]));
        }
      } else {
        assert l'[a] == l[if a <= j then a else a - 1];
        assert l'[b] == l[if b <= j then b else b - 1];
      }
    }
  }

  /** The node is linked one level further up: between two nodes that bracket its key, which are
      still neighbours because the compare-and-swap succeeded. */
  lemma {:induction false} CasLinks(sh: Shared, L: seq<seq<nat>>, th: Thread) returns (L': seq<seq<nat>>)
    requires SharedInv(sh, L) && ThreadInv(sh, L, th) && th.pc.Cas?
    requires NextOf(sh, th.pc.prev, th.pc.i) == th.pc.next
    ensures |L'| == MAX_HEIGHT
    ensures var sh' := SetNext(sh, th.pc.prev, th.pc.i, th.pc.nd);
      && (forall k :: 0 <= k < MAX_HEIGHT ==> IsLevel(sh', k, L'[k]) && SortedLevel(sh', L'[k]))
      && (forall k, o :: 0 <= k < MAX_HEIGHT ==>
            (o in L'[k] <==> o in L[k] || (k == th.pc.i && o == th.pc.nd)))
      && (forall k :: 0 <= k < MAX_HEIGHT && k != th.pc.i ==> L'[k] == L[k])
  {
    hide Less, IsLevel, SortedLevel, Regions;
    var Cas(nd, h, i, prev, next) := th.pc;
    var l := L[i];
    assert IsLevel(sh, i, l) && SortedLevel(sh, l);
    var j := IndexOnLevel(sh, i, l, prev);
    AfterNotHead(sh, i, l, j);
    LinkLevel(sh, i, l, j, nd);
    InsertMembers(l, j, nd);
    L' := L[i := Insert(l, j, nd)];
    var sh' := SetNext(sh, prev, i, nd);
    SetNextEffect(sh, prev, i, nd);
    forall k | 0 <= k < MAX_HEIGHT
      ensures IsLevel(sh', k, L'[k]) && SortedLevel(sh', L'[k])
    {
      if k != i {
        assert IsLevel(sh, k, L[k]) && SortedLevel(sh, L[k]);
        OtherLevel(sh, sh', k, L[k]);
      }
    }
  }

  lemma {:induction false} IndexOnLevel(sh: Shared, i: nat, l: seq<nat>, prev: nat) returns (j: nat)
    requires IsLevel(sh, i, l) && prev in l
    ensures j < |l| && l[j] == prev && NextOf(sh, prev, i) == After(l, j)
  {
    j :| 0 <= j < |l| && l[j] == prev;
    assert NextOf(sh, l[j], i) == After(l, j);
  }

  lemma {:induction false} AfterNotHead(sh: Shared, i: nat, l: seq<nat>, j: nat)
    requires IsLevel(sh, i, l) && SortedLevel(sh, l) && j < |l|
    ensures j + 1 < |l| ==> After(l, j) != 0
  {
  }

  lemma {:induction false} InsertMembers(l: seq<nat>, j: nat, nd: nat)
    requires j < |l|
    ensures forall o :: o in Insert(l, j, nd) <==> o in l || o == nd
  {
  }

  lemma {:induction false} OtherLevel(sh: Shared, sh': Shared, k: nat, l: seq<nat>)
    requires IsLevel(sh, k, l) && SortedLevel(sh, l) && sh' == sh.(links := sh'.links)
    requires forall o :: NextOf(sh', o, k) == NextOf(sh, o, k)
    ensures IsLevel(sh', k, l) && SortedLevel(sh', l)
  {
    hide Less;
    assert forall o :: KeyAt(sh', o) == KeyAt(sh, o);
    LevelFrame(sh, sh', k, l);
  }

  lemma {:induction false} CasFrame(sh: Shared, L: seq<seq<nat>>, th: Thread) returns (L': seq<seq<nat>>)
    requires SharedInv(sh, L) && ThreadInv(sh, L, th) && th.pc.Cas?
    requires NextOf(sh, th.pc.prev, th.pc.i) == th.pc.next
    ensures |L'| == MAX_HEIGHT
    ensures var sh' := SetNext(sh, th.pc.prev, th.pc.i, th.pc.nd);
      SharedInv(sh', L') && Frame(sh, L, sh', L', th.pc.nd)
    ensures forall k :: 0 <= k < MAX_HEIGHT ==> (th.pc.nd in L'[k] <==> k <= th.pc.i)
  {
    hide Less, IsLevel, SortedLevel, Regions, KeyAt, ValueAt;
    var Cas(nd, h, i, prev, next) := th.pc;
    L' := CasLinks(sh, L, th);
    var sh' := SetNext(sh, prev, i, nd);
    SetNextEffect(sh, prev, i, nd);
    hide SetNext, NextOf;
    RegionsUnlinked(sh, sh');
    assert Nested(L');
  }

  lemma {:induction false} CasThread(sh: Shared, L: seq<seq<nat>>, th: Thread, sh': Shared, L': seq<seq<nat>>)
    requires |L| == |L'| == MAX_HEIGHT && ThreadInv(sh, L, th) && th.pc.Cas?
    requires NextOf(sh, th.pc.prev, th.pc.i) == th.pc.next
    requires sh' == SetNext(sh, th.pc.prev, th.pc.i, th.pc.nd) && Splices(sh', L', th, 0)
    requires forall k :: 0 <= k < MAX_HEIGHT ==> (th.pc.nd in L'[k] <==> k <= th.pc.i)
    ensures ThreadInv(sh', L', CasStep(sh, th).1)
  {
  }

  lemma {:induction false} CasSucceeds(sh: Shared, L: seq<seq<nat>>, th: Thread) returns (L': seq<seq<nat>>)
    requires SharedInv(sh, L) && ThreadInv(sh, L, th) && th.pc.Cas?
    requires NextOf(sh, th.pc.prev, th.pc.i) == th.pc.next
    ensures |L'| == MAX_HEIGHT
    ensures var (sh', th') := CasStep(sh, th); Preserved(sh, L, th, sh', L', th')
  {
    assert |L| == MAX_HEIGHT;
    L' := CasFrame(sh, L, th);
    var sh' := SetNext(sh, th.pc.prev, th.pc.i, th.pc.nd);
    SplicesFrame(sh, L, sh', L', th.pc.nd, th, 0);
    CasThread(sh, L, th, sh', L');
    hide SharedInv, Frame, OwnNode, PCInv, SetNext, NextOf;
  }

  lemma {:induction false} CasPreserves(sh: Shared, L: seq<seq<nat>>, th: Thread) returns (L': seq<seq<nat>>)
    requires SharedInv(sh, L) && ThreadInv(sh, L, th) && th.pc.Cas?
    ensures |L'| == MAX_HEIGHT
    ensures var (sh', th') := CasStep(sh, th); Preserved(sh, L, th, sh', L', th')
  {
    assert |L| == MAX_HEIGHT;
    if NextOf(sh, th.pc.prev, th.pc.i) == th.pc.next {
      L' := CasSucceeds(sh, L, th);
    } else {
      L' := L;
      CasFails(sh, L, th);
    }
  }

  lemma {:induction false} CasFails(sh: Shared, L: seq<seq<nat>>, th: Thread)
    requires SharedInv(sh, L) && ThreadInv(sh, L, th) && th.pc.Cas?
    requires NextOf(sh, th.pc.prev, th.pc.i) != th.pc.next
    ensures var (sh', th') := CasStep(sh, th); Preserved(sh, L, th, sh', L, th')
  {
    hide Less, IsLevel, SortedLevel, Regions, Nested, KeyAt, ValueAt, NextOf;
  }

  lemma {:induction false} RegionsUnlinked(sh: Shared, sh': Shared)
    requires Regions(sh) && sh' == sh.(links := sh'.links)
    ensures Regions(sh')
  {
  }

  // ---- one step of the whole system

  lemma {:induction false} ActPreserves(sh: Shared, L: seq<seq<nat>>, th: Thread, h: nat) returns (L': seq<seq<nat>>)
    requires SharedInv(sh, L) && ThreadInv(sh, L, th) && 1 <= h <= MAX_HEIGHT
    ensures |L'| == MAX_HEIGHT
    ensures var (sh', th') := Act(sh, th, h); Preserved(sh, L, th, sh', L', th')
  {
    hide Less, IsLevel, SortedLevel, Regions;
    L' := L;
    match th.pc {
      case Start =>
        HeadOnLevels(sh, L);
        StartWalk(sh, L, th);
      case Search(_, _, _) => SearchPreserves(sh, L, th);
      case Alloc => AllocPreserves(sh, L, th, h);
      case WriteKey(_, _) => WriteKeyPreserves(sh, L, th, h);
      case WriteValue(_, _) => WriteValuePreserves(sh, L, th, h);
      case GrowLoad(_, _) => GrowPreserves(sh, L, th, h);
      case GrowCas(_, _, _) => GrowPreserves(sh, L, th, h);
      case Store(_, _, _) => StorePreserves(sh, L, th);
      case Cas(_, _, _, _, _) => L' := CasPreserves(sh, L, th);
      case Refind(_, _, _, _) => RefindPreserves(sh, L, th);
      case Visit(_, _) => VisitPreserves(sh, L, th, h);
      case Done(_) =>
    }
  }

  /** First: every node is at or above the empty key. */
  lemma {:induction false} StartWalk(sh: Shared, L: seq<seq<nat>>, th: Thread)
    requires SharedInv(sh, L)
    ensures var next := NextOf(sh, HEAD, 0); th.op.key == [] ==> WalkOk(sh, L[0], th.op.key, [], next)
  {
    NextOnLevel(sh, 0, L[0], HEAD);
  }

  /** The next node of the bottom level has a larger key. */
  lemma {:induction false} NextIsAbove(sh: Shared, l: seq<nat>, at: nat)
    requires IsLevel(sh, 0, l) && SortedLevel(sh, l) && at in l && at != HEAD
    ensures var next := NextOf(sh, at, 0); next != 0 ==> next in l && next != HEAD && Less(KeyAt(sh, at), KeyAt(sh, next))
  {
    hide Less;
    var j :| 0 <= j < |l| && l[j] == at;
    assert KeyAt(sh, l[j]) == KeyAt(sh, at);
  }

  lemma {:induction false} VisitPreserves(sh: Shared, L: seq<seq<nat>>, th: Thread, h: nat)
    requires SharedInv(sh, L) && ThreadInv(sh, L, th) && th.pc.Visit?
    ensures var (sh', th') := Act(sh, th, h); Preserved(sh, L, th, sh', L, th')
  {
    hide Less, IsLevel, SortedLevel, Regions;
    var Visit(at, seen) := th.pc;
    if at != 0 {
      NextIsAbove(sh, L[0], at);
      VisitStep(sh, L[0], th.op.key, seen, at, NextOf(sh, at, 0));
    }
  }

  lemma {:induction false} VisitStep(sh: Shared, l: seq<nat>, key: bytes, seen: seq<nat>, at: nat, next: nat)
    requires WalkOk(sh, l, key, seen, at) && at != 0
    requires next != 0 ==> next in l && next != HEAD && Less(KeyAt(sh, at), KeyAt(sh, next))
    ensures WalkOk(sh, l, key, seen + [at], next)
  {
    hide Less;
    if next != 0 {
      StaysAbove(key, KeyAt(sh, at), KeyAt(sh, next));
      forall i | 0 <= i < |seen|
        ensures Less(KeyAt(sh, seen[i]), KeyAt(sh, next))
      {
        LessTransitive(KeyAt(sh, seen[i]), KeyAt(sh, at), KeyAt(sh, next));
      }
    }
  }

  lemma {:induction false} StaysAbove(key: bytes, a: bytes, b: bytes)
    requires !Less(a, key) && Less(a, b)
    ensures !Less(b, key)
  {
    hide Less;
    if Less(b, key) {
      LessTransitive(a, b, key);
    }
  }

  lemma {:induction false} HeadOnLevels(sh: Shared, L: seq<seq<nat>>)
    requires SharedInv(sh, L)
    ensures forall i :: 0 <= i < MAX_HEIGHT ==> HEAD in L[i]
  {
  }

  /** Linked nodes stay linked, with the bytes they had. */
  ghost predicate LinkedKept(sh: Shared, L: seq<seq<nat>>, sh': Shared, L': seq<seq<nat>>)
    requires |L| == |L'| == MAX_HEIGHT
  {
    && (forall i, o :: 0 <= i < MAX_HEIGHT && o in L[i] ==> o in L'[i])
    && (forall o :: o in L[0] ==> KeyAt(sh', o) == KeyAt(sh, o) && ValueAt(sh', o) == ValueAt(sh, o))
  }

  lemma {:induction false} ThreadStepPreserves(s: State, s': State, L: seq<seq<nat>>, t: nat, h: nat)
    returns (L': seq<seq<nat>>)
    requires Inv(s, L) && ThreadStep(s, s', t, h)
    ensures |L'| == MAX_HEIGHT && Inv(s', L') && LinkedKept(s.sh, L, s'.sh, L')
  {
    hide Less, IsLevel, SortedLevel, Regions, Act, KeyAt, ValueAt, NextOf, PCInv, OwnNode, Nested;
    var th := s.threads[t];
    L' := ActPreserves(s.sh, L, th, h);
    var th' := s'.threads[t];
    var x := if Own(th.pc) != 0 then Own(th.pc) else Own(th'.pc);
    forall u | 0 <= u < |s'.threads|
      ensures ThreadInv(s'.sh, L', s'.threads[u])
    {
      if u != t {
        OwnersDiffer(s, L, t, u, x);
        OwnNodeFrame(s.sh, L, s'.sh, L', x, s.threads[u]);
        PCInvFrame(s.sh, L, s'.sh, L', x, s.threads[u]);
      }
    }
    forall u | 0 <= u < |s'.threads| && u != t
      ensures Own(th'.pc) == 0 || Own(th'.pc) != Own(s.threads[u].pc)
    {
      OwnersDiffer(s, L, t, u, x);
    }
    LinkedAreNodes(s.sh, L);
  }

  lemma {:induction false} OwnersDiffer(s: State, L: seq<seq<nat>>, t: nat, u: nat, x: nat)
    requires |L| == MAX_HEIGHT && t < |s.threads| && u < |s.threads| && t != u
    requires ThreadInv(s.sh, L, s.threads[u]) && DistinctOwners(s.threads)
    requires x == Own(s.threads[t].pc) || x !in s.sh.nodes
    ensures Own(s.threads[u].pc) == 0 || Own(s.threads[u].pc) != x
  {
  }

  lemma {:induction false} CallPreserves(s: State, s': State, L: seq<seq<nat>>, op: Op)
    requires Inv(s, L) && Call(s, s', op)
    ensures Inv(s', L)
  {
  }

  lemma {:induction false} StepPreserves(s: State, s': State, L: seq<seq<nat>>) returns (L': seq<seq<nat>>)
    requires Inv(s, L) && Step(s, s')
    ensures |L'| == MAX_HEIGHT && Inv(s', L') && LinkedKept(s.sh, L, s'.sh, L')
  {
    hide Less, IsLevel, SortedLevel, Regions, Act, ThreadInv;
    if op :| Call(s, s', op) {
      CallPreserves(s, s', L, op);
      L' := L;
    } else {
      var t, h :| ThreadStep(s, s', t, h);
      L' := ThreadStepPreserves(s, s', L, t, h);
    }
  }

  lemma {:induction false} InitInv(s: State) returns (L: seq<seq<nat>>)
    requires Init(s)
    ensures Inv(s, L)
  {
    L := seq(MAX_HEIGHT, _ => [HEAD]);
    assert End(s.sh.nodes[HEAD]) == HEAD + NODE_SIZE;
  }

  // ---- runs

  /** The levels of any state of a run. */
  lemma {:induction false} RunInv(tr: seq<State>, k: nat) returns (L: seq<seq<nat>>)
    requires Run(tr) && k < |tr|
    ensures Inv(tr[k], L)
    decreases k
  {
    if k == 0 {
      L := InitInv(tr[0]);
    } else {
      var L0 := RunInv(tr, k - 1);
      assert Step(tr[k - 1], tr[k - 1 + 1]);
      L := StepPreserves(tr[k - 1], tr[k], L0);
    }
  }

  /** Later states keep what earlier states have linked. */
  lemma {:induction false} RunKeeps(tr: seq<State>, i: nat, j: nat, L: seq<seq<nat>>) returns (L': seq<seq<nat>>)
    requires Run(tr) && i <= j < |tr| && Inv(tr[i], L)
    ensures |L'| == MAX_HEIGHT && Inv(tr[j], L') && LinkedKept(tr[i].sh, L, tr[j].sh, L')
    decreases j
  {
    hide Less, IsLevel, SortedLevel, Regions, Act, ThreadInv, Step;
    if i == j {
      L' := L;
    } else {
      var M := RunKeeps(tr, i, j - 1, L);
      assert Step(tr[j - 1], tr[j - 1 + 1]);
      L' := StepPreserves(tr[j - 1], tr[j], M);
    }
  }

  /** A walk along the pointers of a level has only one outcome. */
  lemma {:induction false} LevelUnique(sh: Shared, i: nat, l: seq<nat>, m: seq<nat>, k: nat)
    requires IsLevel(sh, i, l) && IsLevel(sh, i, m) && k <= |l|
    ensures k <= |m| && l[..k] == m[..k]
    decreases k
  {
    if k > 0 {
      LevelUnique(sh, i, l, m, k - 1);
      if k > 1 {
        assert NextOf(sh, l[k - 2], i) == After(l, k - 2) == l[k - 1];
        assert l[k - 2] == l[..k - 1][k - 2] == m[..k - 1][k - 2] == m[k - 2];
        assert NextOf(sh, m[k - 2], i) == After(m, k - 2);
      }
      assert l[..k] == l[..k - 1] + [l[k - 1]];
      assert m[..k] == m[..k - 1] + [m[k - 1]];
    }
  }

  lemma {:induction false} SameLevel(sh: Shared, i: nat, l: seq<nat>, m: seq<nat>)
    requires IsLevel(sh, i, l) && IsLevel(sh, i, m)
    ensures l == m
  {
    LevelUnique(sh, i, l, m, |l|);
    LevelUnique(sh, i, m, l, |m|);
    assert l[..|l|] == l && m[..|m|] == m;
  }

  /** In every reachable state a walk from the head reaches the end of each level, and each level
      is strictly sorted by key. */
  lemma {:induction false} LevelsSorted(tr: seq<State>, k: nat, i: nat)
    requires Run(tr) && k < |tr| && i < MAX_HEIGHT
    ensures exists l :: IsLevel(tr[k].sh, i, l) && SortedLevel(tr[k].sh, l)
  {
    var L := RunInv(tr, k);
    assert IsLevel(tr[k].sh, i, L[i]) && SortedLevel(tr[k].sh, L[i]);
  }

  /** The nodes of a level are among those of every level below. */
  lemma {:induction false} LevelsNested(tr: seq<State>, k: nat, i: nat, j: nat, l: seq<nat>, m: seq<nat>)
    requires Run(tr) && k < |tr| && i <= j < MAX_HEIGHT
    requires IsLevel(tr[k].sh, i, l) && IsLevel(tr[k].sh, j, m)
    ensures forall o :: o in m ==> o in l
  {
    var L := RunInv(tr, k);
    SameLevel(tr[k].sh, i, l, L[i]);
    SameLevel(tr[k].sh, j, m, L[j]);
  }

  /** A node once linked on a level is reachable there for ever, with the same key and value. */
  lemma {:induction false} LinkedForever(tr: seq<State>, k: nat, k': nat, i: nat, l: seq<nat>, l': seq<nat>)
    requires Run(tr) && k <= k' < |tr| && i < MAX_HEIGHT
    requires IsLevel(tr[k].sh, i, l) && IsLevel(tr[k'].sh, i, l')
    ensures forall o :: o in l ==>
      && o in l'
      && KeyAt(tr[k'].sh, o) == KeyAt(tr[k].sh, o)
      && ValueAt(tr[k'].sh, o) == ValueAt(tr[k].sh, o)
  {
    var L := RunInv(tr, k);
    var L' := RunKeeps(tr, k, k', L);
    SameLevel(tr[k].sh, i, l, L[i]);
    SameLevel(tr[k'].sh, i, l', L'[i]);
    assert forall o :: o in L[i] ==> o in L[0];
  }

  /** At most one Add of a key succeeds. */
  lemma {:induction false} OneWinnerPerKey(tr: seq<State>, k: nat, t: nat, u: nat)
    requires Run(tr) && k < |tr| && t < |tr[k].threads| && u < |tr[k].threads|
    requires var s := tr[k];
      && s.threads[t].pc.Done? && s.threads[t].pc.result.Added?
      && s.threads[u].pc.Done? && s.threads[u].pc.result.Added?
      && s.threads[t].op.key == s.threads[u].op.key
    ensures t == u
  {
    var L := RunInv(tr, k);
    var a, b := tr[k].threads[t], tr[k].threads[u];
    assert ThreadInv(tr[k].sh, L, a) && ThreadInv(tr[k].sh, L, b);
    NoSecondNode(tr[k].sh, L, Own(a.pc), Own(b.pc), a.op.key);
  }

  /** "duplicate found at non-base level" never happens. */
  lemma {:induction false} NeverPanics(tr: seq<State>, k: nat, t: nat)
    requires Run(tr) && k < |tr| && t < |tr[k].threads|
    ensures tr[k].threads[t].pc != Done(Panic)
  {
    var L := RunInv(tr, k);
    assert ThreadInv(tr[k].sh, L, tr[k].threads[t]);
  }

  /** Results suit their calls, and who was refused for want of room has moved the counter past the slab. */
  ghost predicate ResultSuits(sh: Shared, th: Thread) {
    th.pc.Done? ==>
      match th.pc.result
      case Added(_, _) => th.op.Add?
      case RecordExists => th.op.Add?
      case ArenaFull => th.op.Add? && sh.n > |sh.mem|
      case Found(_) => th.op.Get?
      case NotFound => th.op.Get?
      case Panic => th.op.Add?
  }

  lemma {:induction false} ResultStep(sh: Shared, th: Thread, h: nat)
    requires WellFormed(th) && ResultSuits(sh, th)
    ensures var (sh', th') := Act(sh, th, h); sh.n <= sh'.n && |sh'.mem| == |sh.mem| && ResultSuits(sh', th')
  {
    hide Less, KeyAt, NextOf;
  }

  lemma {:induction false} ResultsSuit(tr: seq<State>, k: nat)
    requires Run(tr) && k < |tr|
    ensures forall t :: 0 <= t < |tr[k].threads| ==> ResultSuits(tr[k].sh, tr[k].threads[t])
    decreases k
  {
    hide Act, WellFormed;
    if k > 0 {
      ResultsSuit(tr, k - 1);
      var s, s' := tr[k - 1], tr[k];
      assert Step(tr[k - 1], tr[k - 1 + 1]);
      if op :| Call(s, s', op) {
      } else {
        var t: nat, h: nat :| ThreadStep(s, s', t, h);
        ResultStep(s.sh, s.threads[t], h);
      }
    }
  }

  /** What a finished Add means: its node is linked on every level of its tower with the key and
      value that were passed in; a refused one found its key linked, or the counter is past the slab. */
  lemma {:induction false} AddOutcome(tr: seq<State>, k: nat, t: nat, i: nat, l: seq<nat>)
    requires Run(tr) && k < |tr| && t < |tr[k].threads| && tr[k].threads[t].pc.Done?
    requires tr[k].threads[t].op.Add? && i < MAX_HEIGHT && IsLevel(tr[k].sh, i, l)
    ensures var th := tr[k].threads[t];
      match th.pc.result
      case Added(nd, h) =>
        && (nd in l <==> i < h)
        && KeyAt(tr[k].sh, nd) == th.op.key && ValueAt(tr[k].sh, nd) == th.op.value
      case RecordExists => i == 0 ==> KeyLinked(tr[k].sh, l, th.op.key)
      case ArenaFull => tr[k].sh.n > |tr[k].sh.mem|
      case _ => false
  {
    ResultsSuit(tr, k);
    var L := RunInv(tr, k);
    assert ResultSuits(tr[k].sh, tr[k].threads[t]);
    assert ThreadInv(tr[k].sh, L, tr[k].threads[t]);
    SameLevel(tr[k].sh, i, l, L[i]);
  }

  /** The last load of a Get is the moment it takes effect: it reports the key exactly when the
      key is linked on the bottom level in that state. */
  lemma {:induction false} GetDecides(tr: seq<State>, k: nat, t: nat, l: seq<nat>)
    requires Run(tr) && k < |tr| && t < |tr[k].threads| && IsLevel(tr[k].sh, 0, l)
    requires var th := tr[k].threads[t]; WellFormed(th) && th.op.Get? && th.pc.Search? && th.pc.level == 0
    ensures var th := tr[k].threads[t];
      var th' := SearchStep(tr[k].sh, th);
      th'.pc.Done? ==>
        && (th'.pc.result == NotFound || th'.pc.result.Found?)
        && (th'.pc.result.Found? <==> KeyLinked(tr[k].sh, l, th.op.key))
        && (th'.pc.result.Found? ==> th'.pc.result.at in l && KeyAt(tr[k].sh, th'.pc.result.at) == th.op.key)
  {
    hide Less, Regions;
    var L := RunInv(tr, k);
    SameLevel(tr[k].sh, 0, l, L[0]);
    var th := tr[k].threads[t];
    assert ThreadInv(tr[k].sh, L, th);
    var prev := th.pc.prev;
    if !(NextOf(tr[k].sh, prev, 0) != 0 && Less(KeyAt(tr[k].sh, NextOf(tr[k].sh, prev, 0)), th.op.key)) {
      StopDecides(tr[k].sh, 0, l, prev, th.op.key);
      NextOnLevel(tr[k].sh, 0, l, prev);
    }
  }

  /** A thread that has not decided against the key before. */
  ghost predicate MayFind(s: State, u: nat) {
    u < |s.threads| ==> s.threads[u].pc != Done(NotFound)
  }

  /** Once a key is linked, no Get of it that is still under way ends with "not found". */
  lemma {:induction false} GetSeesLinked(tr: seq<State>, i: nat, j: nat, u: nat, L: seq<seq<nat>>, nd: nat)
    returns (L': seq<seq<nat>>)
    requires Run(tr) && i <= j < |tr| && |L| == MAX_HEIGHT && Inv(tr[i], L) && u < |tr[j].threads|
    requires nd in L[0] && nd != HEAD && KeyAt(tr[i].sh, nd) == tr[j].threads[u].op.key
    requires MayFind(tr[i], u)
    ensures |L'| == MAX_HEIGHT && Inv(tr[j], L') && LinkedKept(tr[i].sh, L, tr[j].sh, L')
    ensures MayFind(tr[j], u)
    decreases j
  {
    hide Less, IsLevel, SortedLevel, Regions, Act, ThreadInv, Inv, LinkedKept;
    if i == j {
      L' := L;
      KeptRefl(tr[i].sh, L);
    } else {
      assert Step(tr[j - 1], tr[j - 1 + 1]);
      if u < |tr[j - 1].threads| {
        StepKeepsOps(tr[j - 1], tr[j], u);
        var M := GetSeesLinked(tr, i, j - 1, u, L, nd);
        L' := StepPreserves(tr[j - 1], tr[j], M);
        KeptTrans(tr[i].sh, L, tr[j - 1].sh, M, tr[j].sh, L', nd);
        StepSeesLinked(tr[j - 1], tr[j], u, M, nd);
      } else {
        L' := RunKeeps(tr, i, j, L);
        NewThreadsStart(tr[j - 1], tr[j], u);
      }
    }
  }

  lemma {:induction false} KeptRefl(sh: Shared, L: seq<seq<nat>>)
    requires |L| == MAX_HEIGHT
    ensures LinkedKept(sh, L, sh, L)
  {
  }

  lemma {:induction false} KeptTrans(sh: Shared, L: seq<seq<nat>>, sh1: Shared, M: seq<seq<nat>>, sh2: Shared, N: seq<seq<nat>>, nd: nat)
    requires |L| == |M| == |N| == MAX_HEIGHT
    requires LinkedKept(sh, L, sh1, M) && LinkedKept(sh1, M, sh2, N) && nd in L[0]
    ensures LinkedKept(sh, L, sh2, N)
    ensures nd in M[0] && KeyAt(sh1, nd) == KeyAt(sh, nd)
  {
  }

  lemma {:induction false} StepKeepsOps(s: State, s': State, u: nat)
    requires Step(s, s') && u < |s.threads|
    ensures u < |s'.threads| && s'.threads[u].op == s.threads[u].op
  {
  }

  lemma {:induction false} NewThreadsStart(s: State, s': State, u: nat)
    requires Step(s, s') && |s.threads| <= u < |s'.threads|
    ensures s'.threads[u].pc == Start
  {
  }

  lemma {:induction false} StepSeesLinked(s: State, s': State, u: nat, L: seq<seq<nat>>, nd: nat)
    requires Inv(s, L) && Step(s, s') && u < |s.threads| && MayFind(s, u)
    requires nd in L[0] && nd != HEAD && KeyAt(s.sh, nd) == s.threads[u].op.key
    ensures MayFind(s', u)
  {
    hide Less, Regions, Nested, OwnNode, Splices;
    if t, h :| ThreadStep(s, s', t, h) && t == u && s.threads[u].pc.Search? {
      var th := s.threads[u];
      assert ThreadInv(s.sh, L, th);
      var prev, level := th.pc.prev, th.pc.level;
      var next := NextOf(s.sh, prev, level);
      if level == 0 && !(next != 0 && Less(KeyAt(s.sh, next), th.op.key)) {
        StopDecides(s.sh, 0, L[0], prev, th.op.key);
        var j :| 0 <= j < |L[0]| && L[0][j] == nd;
        assert IsLevel(s.sh, 0, L[0]);
        assert j != 0;
        assert KeyAt(s.sh, L[0][j]) == th.op.key;
      }
    }
  }

  /** Reads follow completed writes: a Get that starts after an Add of its key has succeeded
      finds the key, with the value that Add stored. */
  lemma {:induction false} GetAfterAdd(tr: seq<State>, i: nat, j: nat, t: nat, u: nat)
    requires Run(tr) && i <= j < |tr| && t < |tr[i].threads| && u < |tr[j].threads|
    requires tr[i].threads[t].op.Add? && tr[i].threads[t].pc.Done? && tr[i].threads[t].pc.result.Added?
    requires |tr[i].threads| <= u
    requires var g := tr[j].threads[u];
      g.op.Get? && g.op.key == tr[i].threads[t].op.key && g.pc.Done?
    ensures var g := tr[j].threads[u];
      g.pc.result.Found? && ValueAt(tr[j].sh, g.pc.result.at) == tr[i].threads[t].op.value
  {
    hide Less, Regions;
    var L := RunInv(tr, i);
    var nd := Own(tr[i].threads[t].pc);
    assert ThreadInv(tr[i].sh, L, tr[i].threads[t]);
    var L' := GetSeesLinked(tr, i, j, u, L, nd);
    assert ThreadInv(tr[j].sh, L', tr[j].threads[u]);
    GetResults(tr, j, u);
    assert nd in L'[0] && KeyAt(tr[j].sh, nd) == KeyAt(tr[i].sh, nd);
    var at := tr[j].threads[u].pc.result.at;
    NoSecondNode(tr[j].sh, L', nd, at, tr[j].threads[u].op.key);
  }

  /** A finished Get has one of its two results. */
  lemma {:induction false} GetResults(tr: seq<State>, k: nat, u: nat)
    requires Run(tr) && k < |tr| && u < |tr[k].threads|
    requires tr[k].threads[u].op.Get? && tr[k].threads[u].pc.Done?
    ensures tr[k].threads[u].pc.result.Found? || tr[k].threads[u].pc.result == NotFound
  {
    ResultsSuit(tr, k);
    assert ResultSuits(tr[k].sh, tr[k].threads[u]);
  }

  // ---- iterators

  /** The first node of the level that is not below the key; 0 if all are. */
  ghost predicate FirstFrom(sh: Shared, l: seq<nat>, key: bytes, at: nat) {
    if at == 0 then forall j :: 1 <= j < |l| ==> Less(KeyAt(sh, l[j]), key)
    else exists j {:trigger At(l, j, at)} :: At(l, j, at) && !Less(KeyAt(sh, at), key)
           && forall i :: 1 <= i < j ==> Less(KeyAt(sh, l[i]), key)
  }

  predicate At(l: seq<nat>, j: int, at: nat) {
    1 <= j < |l| && l[j] == at
  }

  /** Where a walk stops, the next node is the first one that is not below the key. */
  lemma {:induction false} StopIsFirst(sh: Shared, l: seq<nat>, prev: nat, key: bytes)
    requires IsLevel(sh, 0, l) && SortedLevel(sh, l) && prev in l && Below(sh, prev, key)
    requires var next := NextOf(sh, prev, 0); next != 0 ==> !Less(KeyAt(sh, next), key)
    ensures FirstFrom(sh, l, key, NextOf(sh, prev, 0))
  {
    hide Less;
    var j :| 0 <= j < |l| && l[j] == prev;
    var next := NextOf(sh, prev, 0);
    assert next == After(l, j);
    forall i | 1 <= i <= j
      ensures Less(KeyAt(sh, l[i]), key)
    {
      if i < j {
        LessTransitive(KeyAt(sh, l[i]), KeyAt(sh, l[j]), key);
      }
    }
    if next != 0 {
      assert At(l, j + 1, next);
    }
  }

  /** First: nothing is below the empty key, which stands for the missing target. */
  lemma {:induction false} HeadIsFirst(sh: Shared, l: seq<nat>)
    requires IsLevel(sh, 0, l) && SortedLevel(sh, l)
    ensures FirstFrom(sh, l, [], NextOf(sh, HEAD, 0))
  {
    assert l[0] == HEAD;
    NothingBelowEmpty(KeyAt(sh, NextOf(sh, HEAD, 0)));
    StopIsFirst(sh, l, HEAD, []);
  }

  lemma {:induction false} NothingBelowEmpty(k: bytes)
    ensures !Less(k, [])
  {
  }

  /** Positioning an iterator takes effect at its last load: it then stands on the first node of the
      bottom level that is not below its target; First on the first node at all. */
  lemma {:induction false} SeekDecides(tr: seq<State>, k: nat, t: nat, h: nat, l: seq<nat>)
    requires Run(tr) && k < |tr| && t < |tr[k].threads| && IsLevel(tr[k].sh, 0, l)
    requires var th := tr[k].threads[t]; WellFormed(th) && th.op.Walk? && !th.pc.Visit?
    ensures var th := tr[k].threads[t]; var th' := Act(tr[k].sh, th, h).1;
      th'.pc.Visit? ==> th'.pc.path == [] && FirstFrom(tr[k].sh, l, th.op.key, th'.pc.at)
  {
    hide Less, Regions;
    var L := RunInv(tr, k);
    SameLevel(tr[k].sh, 0, l, L[0]);
    var sh, th := tr[k].sh, tr[k].threads[t];
    assert ThreadInv(sh, L, th);
    if th.pc.Start? && !th.op.seek {
      HeadIsFirst(sh, l);
    } else if th.pc.Search? && th.pc.level == 0 {
      var next := NextOf(sh, th.pc.prev, 0);
      if !(next != 0 && Less(KeyAt(sh, next), th.op.key)) {
        StopIsFirst(sh, l, th.pc.prev, th.op.key);
      }
    }
  }

  /** An iterator visits linked nodes with strictly increasing keys, none below its target. */
  lemma {:induction false} WalkIncreases(tr: seq<State>, k: nat, u: nat, l: seq<nat>)
    requires Run(tr) && k < |tr| && u < |tr[k].threads| && tr[k].threads[u].pc.Visit? && IsLevel(tr[k].sh, 0, l)
    ensures var th := tr[k].threads[u]; WalkOk(tr[k].sh, l, th.op.key, th.pc.path, th.pc.at)
  {
    var L := RunInv(tr, k);
    SameLevel(tr[k].sh, 0, l, L[0]);
    assert ThreadInv(tr[k].sh, L, tr[k].threads[u]);
  }

  /** The node has been visited, or the iterator has still to come to it. */
  ghost predicate NotMissed(s: State, u: nat, o: nat) {
    u < |s.threads| ==>
      match s.threads[u].pc
      case Start => true
      case Search(_, _, _) => true
      case Visit(at, path) => o in path || (at != 0 && LessEq(KeyAt(s.sh, at), KeyAt(s.sh, o)))
      case _ => false
  }

  lemma {:induction false} FirstNotAbove(sh: Shared, l: seq<nat>, key: bytes, at: nat, o: nat)
    requires SortedLevel(sh, l) && FirstFrom(sh, l, key, at) && o in l && o != HEAD && !Less(KeyAt(sh, o), key)
    requires l != [] && l[0] == HEAD
    ensures at != 0 && LessEq(KeyAt(sh, at), KeyAt(sh, o))
  {
    hide Less;
    var m :| 0 <= m < |l| && l[m] == o;
    if at != 0 {
      var j :| At(l, j, at) && forall i :: 1 <= i < j ==> Less(KeyAt(sh, l[i]), key);
      assert KeyAt(sh, l[j]) == KeyAt(sh, at);
    }
  }

  /** Moving on from a node below o does not pass o. */
  lemma {:induction false} NextNotAbove(sh: Shared, l: seq<nat>, at: nat, o: nat)
    requires IsLevel(sh, 0, l) && SortedLevel(sh, l) && at in l && at != HEAD && o in l && o != HEAD
    requires Less(KeyAt(sh, at), KeyAt(sh, o))
    ensures var next := NextOf(sh, at, 0); next != 0 && LessEq(KeyAt(sh, next), KeyAt(sh, o))
  {
    hide Less;
    var j :| 0 <= j < |l| && l[j] == at;
    var m :| 0 <= m < |l| && l[m] == o;
    LessTotal(KeyAt(sh, at), KeyAt(sh, o));
    LessIrreflexive(KeyAt(sh, at));
    assert KeyAt(sh, l[j]) == KeyAt(sh, at) && KeyAt(sh, l[m]) == KeyAt(sh, o);
    assert m > j;
    assert NextOf(sh, at, 0) == After(l, j) == l[j + 1];
    assert KeyAt(sh, l[j + 1]) == KeyAt(sh, NextOf(sh, at, 0));
  }

  lemma {:induction false} SearchMisses(sh: Shared, L: seq<seq<nat>>, th: Thread, o: nat, h: nat)
    requires SharedInv(sh, L) && ThreadInv(sh, L, th) && th.op.Walk? && !th.pc.Visit?
    requires o in L[0] && o != HEAD && !Less(KeyAt(sh, o), th.op.key)
    ensures var pc := Act(sh, th, h).1.pc;
      pc.Visit? ==> pc.at != 0 && LessEq(KeyAt(sh, pc.at), KeyAt(sh, o))
  {
    hide Less, Regions, Nested, Splices, OwnNode;
    if th.pc.Start? && !th.op.seek {
      HeadIsFirst(sh, L[0]);
      FirstNotAbove(sh, L[0], [], NextOf(sh, HEAD, 0), o);
    } else if th.pc.Search? && th.pc.level == 0 {
      var next := NextOf(sh, th.pc.prev, 0);
      if !(next != 0 && Less(KeyAt(sh, next), th.op.key)) {
        StopIsFirst(sh, L[0], th.pc.prev, th.op.key);
        FirstNotAbove(sh, L[0], th.op.key, next, o);
      }
    }
  }

  lemma {:induction false} VisitMisses(sh: Shared, L: seq<seq<nat>>, th: Thread, o: nat)
    requires SharedInv(sh, L) && ThreadInv(sh, L, th) && th.pc.Visit? && th.pc.at != 0
    requires o in L[0] && o != HEAD && LessEq(KeyAt(sh, th.pc.at), KeyAt(sh, o))
    ensures var next := NextOf(sh, th.pc.at, 0);
      o == th.pc.at || (next != 0 && LessEq(KeyAt(sh, next), KeyAt(sh, o)))
  {
    hide Less, Regions, Nested, Splices, OwnNode, IsLevel, SortedLevel;
    if KeyAt(sh, th.pc.at) == KeyAt(sh, o) {
      NoSecondNode(sh, L, th.pc.at, o, KeyAt(sh, o));
    } else {
      NextNotAbove(sh, L[0], th.pc.at, o);
    }
  }

  lemma {:induction false} StepMisses(s: State, s': State, u: nat, L: seq<seq<nat>>, L': seq<seq<nat>>, o: nat)
    requires Inv(s, L) && Step(s, s') && |L'| == MAX_HEIGHT && LinkedKept(s.sh, L, s'.sh, L')
    requires u < |s.threads| && NotMissed(s, u, o) && s.threads[u].op.Walk?
    requires o in L[0] && o != HEAD && !Less(KeyAt(s.sh, o), s.threads[u].op.key)
    ensures NotMissed(s', u, o)
  {
    hide Less, Regions, Nested, Splices, OwnNode, IsLevel, SortedLevel;
    var th := s.threads[u];
    assert ThreadInv(s.sh, L, th);
    if t, h :| ThreadStep(s, s', t, h) && t == u {
      ActReads(s.sh, th, h);
      if th.pc.Visit? {
        if th.pc.at != 0 && o !in th.pc.path {
          VisitMisses(s.sh, L, th, o);
          NextIn(s.sh, L, th.pc.at);
        }
      } else {
        SearchMisses(s.sh, L, th, o, h);
      }
    }
  }

  lemma {:induction false} NextIn(sh: Shared, L: seq<seq<nat>>, at: nat)
    requires SharedInv(sh, L) && at in L[0]
    ensures var next := NextOf(sh, at, 0); next != 0 ==> next in L[0]
  {
    NextOnLevel(sh, 0, L[0], at);
  }

  /** An iterator changes nothing that is shared. */
  lemma {:induction false} ActReads(sh: Shared, th: Thread, h: nat)
    requires WellFormed(th) && th.op.Walk? && (th.pc.Start? || th.pc.Search? || th.pc.Visit?)
    ensures Act(sh, th, h).0 == sh && Act(sh, th, h).1.op == th.op
    ensures var pc := Act(sh, th, h).1.pc; pc.Start? || pc.Search? || pc.Visit?
  {
  }

  /** Every node linked before an iterator starts is visited unless the iterator has not come to it. */
  lemma {:induction false} WalkMissesNone(tr: seq<State>, i: nat, j: nat, u: nat, L: seq<seq<nat>>, o: nat)
    returns (L': seq<seq<nat>>)
    requires Run(tr) && i <= j < |tr| && |L| == MAX_HEIGHT && Inv(tr[i], L) && |tr[i].threads| <= u < |tr[j].threads|
    requires tr[j].threads[u].op.Walk?
    requires o in L[0] && o != HEAD && !Less(KeyAt(tr[i].sh, o), tr[j].threads[u].op.key)
    ensures |L'| == MAX_HEIGHT && Inv(tr[j], L') && LinkedKept(tr[i].sh, L, tr[j].sh, L') && NotMissed(tr[j], u, o)
    decreases j
  {
    hide Less, IsLevel, SortedLevel, Regions, Act, ThreadInv, Inv, LinkedKept, NotMissed;
    assert Step(tr[j - 1], tr[j - 1 + 1]);
    if u < |tr[j - 1].threads| {
      StepKeepsOps(tr[j - 1], tr[j], u);
      var M := WalkMissesNone(tr, i, j - 1, u, L, o);
      L' := StepPreserves(tr[j - 1], tr[j], M);
      KeptTrans(tr[i].sh, L, tr[j - 1].sh, M, tr[j].sh, L', o);
      StepMisses(tr[j - 1], tr[j], u, M, L', o);
    } else {
      L' := RunKeeps(tr, i, j, L);
      NewThreadsStart(tr[j - 1], tr[j], u);
      StartMisses(tr[j], u, o);
    }
  }

  lemma {:induction false} StartMisses(s: State, u: nat, o: nat)
    requires u < |s.threads| && s.threads[u].pc == Start
    ensures NotMissed(s, u, o)
  {
  }

  /** A walk that runs among other calls visits, up to where it stands, every node from its target on
      that was linked before it started; at its end, all of them. */
  lemma {:induction false} WalkComplete(tr: seq<State>, i: nat, j: nat, u: nat, l: seq<nat>, o: nat)
    requires Run(tr) && i <= j < |tr| && |tr[i].threads| <= u < |tr[j].threads| && IsLevel(tr[i].sh, 0, l)
    requires tr[j].threads[u].op.Walk? && tr[j].threads[u].pc.Visit?
    requires o in l && o != HEAD && !Less(KeyAt(tr[i].sh, o), tr[j].threads[u].op.key)
    ensures KeyAt(tr[j].sh, o) == KeyAt(tr[i].sh, o)
    ensures var pc := tr[j].threads[u].pc;
      o in pc.path || (pc.at != 0 && LessEq(KeyAt(tr[j].sh, pc.at), KeyAt(tr[j].sh, o)))
  {
    hide Less, SortedLevel, Regions, Act, ThreadInv, Run;
    var L := RunInv(tr, i);
    SameLevel(tr[i].sh, 0, l, L[0]);
    var L' := WalkMissesNone(tr, i, j, u, L, o);
  }
}
