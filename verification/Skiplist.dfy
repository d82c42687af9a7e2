/** The lock-free skiplist as a transition system. Every thread is one call of Add or Get, or one
    iterator that is positioned once and then moved on; a step is one atomic load, store,
    compare-and-swap or bump of the arena counter, or the copy of a key or value into the thread's
    own arena region. Steps of different threads interleave freely.

    A comparison with a key is taken in the same step as the load of the pointer to it: the bytes
    of a linked key never change again (SkiplistSafety.LinkedForever). */
module Skiplist {
  import opened Bytes
  import opened Arenas

  const MAX_HEIGHT: nat := 20
  /** sizeof(node): four 32-bit fields and the tower; keys and values follow it. */
  const NODE_SIZE: nat := 96
  /** The head sentinel is the first allocation of a fresh arena. */
  const HEAD: nat := 4

  datatype Splice = Splice(prev: nat, next: nat)

  /** The fields of a node that never change; its tower is in Shared.links. */
  datatype Node = Node(keyOff: nat, keySize: nat, valOff: nat, valSize: nat)

  /** Walk is an iterator: SeekGE(key), or First when seek is off, and then Next again and again. */
  datatype Op = Add(key: bytes, value: bytes) | Get(key: bytes) | Walk(key: bytes, seek: bool)

  datatype Result =
    | Added(nd: nat, h: nat)
    | RecordExists
    | ArenaFull
    | Found(at: nat)
    | NotFound
    | Panic

  /** Where a call is. Add: search, allocate, copy key and value, grow the list height, then link
      level by level; Get: search only; Walk: search, then visit node after node. */
  datatype PC =
    | Start
    | Search(level: nat, prev: nat, found: bool)
    | Alloc
    | WriteKey(nd: nat, h: nat)
    | WriteValue(nd: nat, h: nat)
    | GrowLoad(nd: nat, h: nat)
    | GrowCas(nd: nat, h: nat, seen: nat)
    | Store(nd: nat, h: nat, i: nat)
    | Cas(nd: nat, h: nat, i: nat, prev: nat, next: nat)
    | Refind(nd: nat, h: nat, i: nat, prev: nat)
    | Visit(at: nat, path: seq<nat>)
    | Done(result: Result)

  datatype Thread = Thread(op: Op, spl: seq<Splice>, pc: PC)

  /** What the threads share: the slab, the arena counter, the node headers, the tower entries
      keyed by (node, level) and absent while zero as in fresh memory, and the list height. */
  datatype Shared = Shared(mem: bytes, n: nat, nodes: map<nat, Node>, links: map<(nat, nat), nat>,
                           height: nat)

  datatype State = State(sh: Shared, threads: seq<Thread>)

  function NextOf(sh: Shared, off: nat, level: nat): nat {
    if (off, level) in sh.links then sh.links[(off, level)] else 0
  }

  /** arena.GetBytes; total, so that a step is a function of any state. */
  function Slice(mem: bytes, off: nat, size: nat): bytes {
    if off + size <= |mem| then mem[off..off + size] else []
  }

  function KeyAt(sh: Shared, off: nat): bytes {
    if off in sh.nodes then Slice(sh.mem, sh.nodes[off].keyOff, sh.nodes[off].keySize) else []
  }

  function ValueAt(sh: Shared, off: nat): bytes {
    if off in sh.nodes then Slice(sh.mem, sh.nodes[off].valOff, sh.nodes[off].valSize) else []
  }

  function PutBytes(mem: bytes, off: nat, src: bytes): bytes {
    if off + |src| <= |mem| then mem[..off] + src + mem[off + |src|..] else mem
  }

  function SetNext(sh: Shared, off: nat, level: nat, next: nat): Shared {
    sh.(links := sh.links[(off, level) := next])
  }

  function NewNode(off: nat, key: bytes, value: bytes): Node {
    Node(off + NODE_SIZE, |key|, off + NODE_SIZE + |key|, |value|)
  }

  /** One hop or the end of one level of the search that findSplice and seekGE share. */
  function SearchStep(sh: Shared, th: Thread): Thread
    requires th.pc.Search? && th.pc.level < |th.spl|
  {
    var Search(level, prev, found) := th.pc;
    var next := NextOf(sh, prev, level);
    if next != 0 && Less(KeyAt(sh, next), th.op.key) then
      th.(pc := Search(level, next, found))
    else
      var hit := next != 0 && KeyAt(sh, next) == th.op.key;
      var spl := th.spl[level := Splice(prev, next)];
      if level > 0 then
        th.(spl := spl, pc := Search(level - 1, prev, found || hit))
      else if th.op.Walk? then
        th.(spl := spl, pc := Visit(next, []))
      else if th.op.Get? then
        th.(spl := spl, pc := Done(if hit then Found(next) else NotFound))
      else
        th.(spl := spl, pc := if found || hit then Done(RecordExists) else Alloc)
  }

  function AllocStep(sh: Shared, th: Thread, h: nat): (Shared, Thread)
    requires th.op.Add?
  {
    var size := NODE_SIZE + |th.op.key| + |th.op.value|;
    var n := Bumped(sh.n, size, NODE_ALIGNMENT);
    if n > |sh.mem| then
      (sh.(n := n), th.(pc := Done(ArenaFull)))
    else
      var off := OffsetIn(n, size, NODE_ALIGNMENT);
      (sh.(n := n, nodes := sh.nodes[off := NewNode(off, th.op.key, th.op.value)]),
       th.(pc := WriteKey(off, h)))
  }

  function StoreStep(sh: Shared, th: Thread): (Shared, Thread)
    requires th.pc.Store? && th.pc.i < |th.spl|
  {
    var Store(nd, h, i) := th.pc;
    var s := if th.spl[i].prev == 0 then Splice(HEAD, 0) else th.spl[i];
    (SetNext(sh, nd, i, s.next), th.(pc := Cas(nd, h, i, s.prev, s.next)))
  }

  function CasStep(sh: Shared, th: Thread): (Shared, Thread)
    requires th.pc.Cas?
  {
    var Cas(nd, h, i, prev, next) := th.pc;
    if NextOf(sh, prev, i) == next then
      (SetNext(sh, prev, i, nd),
       th.(pc := if i + 1 < h then Store(nd, h, i + 1) else Done(Added(nd, h))))
    else
      (sh, th.(pc := Refind(nd, h, i, prev)))
  }

  /** findSpliceForLevel, one hop at a time. */
  function RefindStep(sh: Shared, th: Thread): Thread
    requires th.pc.Refind? && th.pc.i < |th.spl|
  {
    var Refind(nd, h, i, prev) := th.pc;
    var next := NextOf(sh, prev, i);
    if next != 0 && Less(KeyAt(sh, next), th.op.key) then
      th.(pc := Refind(nd, h, i, next))
    else if next != 0 && KeyAt(sh, next) == th.op.key then
      th.(pc := Done(if i != 0 then Panic else RecordExists))
    else
      th.(spl := th.spl[i := Splice(prev, next)], pc := Store(nd, h, i))
  }

  predicate WellFormed(th: Thread) {
    && |th.spl| == MAX_HEIGHT
    && (th.pc.Search? ==> th.pc.level < MAX_HEIGHT)
    && (th.pc.Store? || th.pc.Cas? || th.pc.Refind? ==> th.pc.i < th.pc.h <= MAX_HEIGHT)
    && (!th.pc.Start? && !th.pc.Search? && !th.pc.Visit? && !th.pc.Done? ==> th.op.Add?)
    && (th.pc.Visit? ==> th.op.Walk?)
  }

  /** The step a thread takes next; h is the height that randomHeight would draw. */
  function Act(sh: Shared, th: Thread, h: nat): (Shared, Thread)
    requires WellFormed(th)
  {
    match th.pc
    case Start =>
      if th.op.Walk? && !th.op.seek then (sh, th.(pc := Visit(NextOf(sh, HEAD, 0), [])))
      else (sh, if 1 <= sh.height <= MAX_HEIGHT then th.(pc := Search(sh.height - 1, HEAD, false)) else th)
    case Search(_, _, _) => (sh, SearchStep(sh, th))
    case Alloc => AllocStep(sh, th, h)
    case WriteKey(nd, h) =>
      (sh.(mem := PutBytes(sh.mem, nd + NODE_SIZE, th.op.key)), th.(pc := WriteValue(nd, h)))
    case WriteValue(nd, h) =>
      (sh.(mem := PutBytes(sh.mem, nd + NODE_SIZE + |th.op.key|, th.op.value)),
       th.(pc := GrowLoad(nd, h)))
    case GrowLoad(nd, h) =>
      (sh, th.(pc := if h > sh.height then GrowCas(nd, h, sh.height) else Store(nd, h, 0)))
    case GrowCas(nd, h, seen) =>
      if sh.height == seen then (sh.(height := h), th.(pc := Store(nd, h, 0)))
      else (sh, th.(pc := GrowLoad(nd, h)))
    case Store(_, _, _) => StoreStep(sh, th)
    case Cas(_, _, _, _, _) => CasStep(sh, th)
    case Refind(_, _, _, _) => (sh, RefindStep(sh, th))
    case Visit(at, path) => (sh, if at == 0 then th else th.(pc := Visit(NextOf(sh, at, 0), path + [at])))
    case Done(_) => (sh, th)
  }

  /** A fresh arena of the given contents with the head sentinel in it, as New leaves it. */
  ghost predicate Init(s: State) {
    && s.threads == []
    && s.sh.n == Bumped(1, NODE_SIZE, NODE_ALIGNMENT) <= |s.sh.mem| <= MAX_SIZE
    && s.sh.nodes == map[HEAD := NewNode(HEAD, [], [])] && s.sh.links == map[]
    && s.sh.height == 1
  }

  function NewThread(op: Op): Thread {
    Thread(op, seq(MAX_HEIGHT, _ => Splice(0, 0)), Start)
  }

  /** Node, key and value sizes are added in 32 bits; the caller keeps the sum from wrapping. First
      has no target, so the empty key stands for it. */
  predicate SizeFits(op: Op) {
    && (op.Add? ==> NODE_SIZE + |op.key| + |op.value| <= MAX_SIZE)
    && (op.Walk? && !op.seek ==> op.key == [])
  }

  ghost predicate Call(s: State, s': State, op: Op) {
    SizeFits(op) && s' == s.(threads := s.threads + [NewThread(op)])
  }

  ghost predicate ThreadStep(s: State, s': State, t: nat, h: nat) {
    && t < |s.threads| && 1 <= h <= MAX_HEIGHT && WellFormed(s.threads[t])
    && var (sh', th') := Act(s.sh, s.threads[t], h);
       s' == State(sh', s.threads[t := th'])
  }

  ghost predicate Step(s: State, s': State) {
    (exists op :: Call(s, s', op)) || (exists t, h :: ThreadStep(s, s', t, h))
  }

  ghost predicate Run(tr: seq<State>) {
    && tr != [] && Init(tr[0])
    && forall k :: 0 <= k < |tr| - 1 ==> Step(tr[k], tr[k + 1])
  }
}
