/** Calls on the skiplist come to an end: what a call that runs alone does from any reachable state. */
module SkiplistProgress {
  import opened Bytes
  import opened Arenas
  import opened Skiplist
  import opened SkiplistSafety

  /** Levels that the list has not grown to yet are empty. */
  lemma {:induction false} HeightCovers(tr: seq<State>, k: nat, i: nat, l: seq<nat>)
    requires Run(tr) && k < |tr| && i < MAX_HEIGHT && IsLevel(tr[k].sh, i, l)
    ensures 1 <= tr[k].sh.height <= MAX_HEIGHT
    ensures l != [HEAD] ==> i < tr[k].sh.height
  {
    var L := RunInv(tr, k);
    SameLevel(tr[k].sh, i, l, L[i]);
  }

  // ---- how far a call has still to go

  /** The nodes of a level, head first. */
  ghost function LevelOf(sh: Shared, i: nat): seq<nat> {
    if exists l :: IsLevel(sh, i, l) then
      var l :| IsLevel(sh, i, l);
      l
    else []
  }

  /** How many nodes of the level come behind o. */
  function Behind(l: seq<nat>, o: nat): nat {
    if l == [] then 0 else if l[0] == o then |l| - 1 else Behind(l[1..], o)
  }

  lemma {:induction false} LevelIs(sh: Shared, L: seq<seq<nat>>, i: nat)
    requires SharedInv(sh, L) && i < MAX_HEIGHT
    ensures LevelOf(sh, i) == L[i]
  {
    hide Regions, SortedLevel, Nested;
    assert IsLevel(sh, i, L[i]);
    SameLevel(sh, i, LevelOf(sh, i), L[i]);
  }

  lemma {:induction false} BehindAt(l: seq<nat>, j: nat)
    requires j < |l| && forall i :: 0 <= i < j ==> l[i] != l[j]
    ensures Behind(l, l[j]) == |l| - 1 - j
  {
    if j > 0 {
      BehindAt(l[1..], j - 1);
    }
  }

  lemma {:induction false} BehindLess(l: seq<nat>, o: nat)
    ensures Behind(l, o) <= |l|
  {
    if l != [] {
      BehindLess(l[1..], o);
    }
  }

  lemma {:induction false} Distinct(sh: Shared, i: nat, l: seq<nat>, j: nat, k: nat)
    requires IsLevel(sh, i, l) && SortedLevel(sh, l) && j < k < |l|
    ensures l[j] != l[k]
  {
    hide Less;
    if j > 0 {
      LessIrreflexive(KeyAt(sh, l[j]));
      assert Less(KeyAt(sh, l[j]), KeyAt(sh, l[k]));
    }
  }

  /** Each hop along a level leaves fewer nodes ahead. */
  lemma {:induction false} HopForward(sh: Shared, i: nat, l: seq<nat>, prev: nat)
    requires IsLevel(sh, i, l) && SortedLevel(sh, l) && prev in l && NextOf(sh, prev, i) != 0
    ensures Behind(l, NextOf(sh, prev, i)) < Behind(l, prev)
  {
    hide SortedLevel;
    var j := IndexOnLevel(sh, i, l, prev);
    forall k, m | 0 <= k < m < |l|
      ensures l[k] != l[m]
    {
      Distinct(sh, i, l, k, m);
    }
    BehindAt(l, j);
    BehindAt(l, j + 1);
  }

  function Phase(pc: PC): nat {
    match pc
    case Start => 9
    case Search(_, _, _) => 8
    case Alloc => 7
    case WriteKey(_, _) => 6
    case WriteValue(_, _) => 5
    case GrowLoad(_, _) => 4
    case GrowCas(_, _, _) => 4
    case Store(_, _, _) => 3
    case Cas(_, _, _, _, _) => 3
    case Refind(_, _, _, _) => 3
    case Visit(_, _) => 2
    case Done(_) => 0
  }

  function LevelsLeft(pc: PC): int {
    match pc
    case Search(level, _, _) => level
    case Store(_, h, i) => h - i
    case Cas(_, h, i, _, _) => h - i
    case Refind(_, h, i, _) => h - i
    case _ => 0
  }

  /** The splice that Store uses. */
  function Start0(spl: Splice): Splice {
    if spl.prev == 0 then Splice(HEAD, 0) else spl
  }

  /** Steps on one level. A splice that is out of date costs a failed compare-and-swap and a new search. */
  ghost function StepsLeft(sh: Shared, th: Thread): nat
    requires WellFormed(th)
  {
    match th.pc
    case Search(level, prev, _) => Behind(LevelOf(sh, level), prev)
    case GrowLoad(_, _) => 1
    case GrowCas(_, _, seen) => if seen == sh.height then 0 else 2
    case Cas(_, _, i, prev, next) => if NextOf(sh, prev, i) == next then 0 else |LevelOf(sh, i)| + 3
    case Store(_, _, i) =>
      var s := Start0(th.spl[i]);
      if NextOf(sh, s.prev, i) == s.next then 1 else |LevelOf(sh, i)| + 4
    case Refind(_, _, i, prev) => Behind(LevelOf(sh, i), prev) + 2
    case Visit(at, _) => if at == 0 then 0 else Behind(LevelOf(sh, 0), at) + 1
    case _ => 0
  }

  /** Nearer to its end: in a later phase, or with fewer levels left, or with fewer steps left on this one. */
  ghost predicate Nearer(sh': Shared, th': Thread, sh: Shared, th: Thread)
    requires WellFormed(th) && WellFormed(th')
  {
    || Phase(th'.pc) < Phase(th.pc)
    || (Phase(th'.pc) == Phase(th.pc) && LevelsLeft(th'.pc) < LevelsLeft(th.pc))
    || (Phase(th'.pc) == Phase(th.pc) && LevelsLeft(th'.pc) == LevelsLeft(th.pc) && StepsLeft(sh', th') < StepsLeft(sh, th))
  }

  /** A call has returned; an iterator stands behind the last node. */
  predicate Finished(pc: PC) {
    pc.Done? || (pc.Visit? && pc.at == 0)
  }

  lemma {:induction false} SearchNearer(sh: Shared, L: seq<seq<nat>>, th: Thread)
    requires SharedInv(sh, L) && ThreadInv(sh, L, th) && th.pc.Search?
    ensures WellFormed(SearchStep(sh, th)) && Nearer(sh, SearchStep(sh, th), sh, th)
  {
    hide Less, Regions, IsLevel, SortedLevel, Splices, OwnNode;
    var Search(level, prev, found) := th.pc;
    LevelIs(sh, L, level);
    if NextOf(sh, prev, level) != 0 {
      HopForward(sh, level, L[level], prev);
    }
  }

  lemma {:induction false} RefindNearer(sh: Shared, L: seq<seq<nat>>, th: Thread)
    requires SharedInv(sh, L) && ThreadInv(sh, L, th) && th.pc.Refind?
    ensures WellFormed(RefindStep(sh, th)) && Nearer(sh, RefindStep(sh, th), sh, th)
  {
    hide Less, Regions, SortedLevel, Splices, OwnNode;
    var Refind(nd, h, i, prev) := th.pc;
    LevelIs(sh, L, i);
    if NextOf(sh, prev, i) != 0 {
      HopForward(sh, i, L[i], prev);
    }
    assert prev != 0;
  }

  lemma {:induction false} StoreNearer(sh: Shared, L: seq<seq<nat>>, th: Thread)
    requires SharedInv(sh, L) && ThreadInv(sh, L, th) && th.pc.Store?
    ensures var (sh', th') := StoreStep(sh, th); WellFormed(th') && Nearer(sh', th', sh, th)
  {
    hide Less, Regions, IsLevel, SortedLevel;
    var (sh', th') := StoreStep(sh, th);
    var Store(nd, h, i) := th.pc;
    var s := Start0(th.spl[i]);
    HeadOnLevels(sh, L);
    assert SpliceOk(sh, L[i], th.op.key, th.spl[i]);
    assert s.prev in L[i] && nd !in L[i];
    SetNextEffect(sh, nd, i, s.next);
    StoreFrame(sh, L, nd, i, s.next);
    LevelIs(sh, L, i);
    LevelIs(sh', L, i);
  }

  lemma {:induction false} CasNearer(sh: Shared, L: seq<seq<nat>>, th: Thread)
    requires SharedInv(sh, L) && ThreadInv(sh, L, th) && th.pc.Cas?
    ensures var (sh', th') := CasStep(sh, th); WellFormed(th') && Nearer(sh', th', sh, th)
  {
    hide Less, Regions, IsLevel, SortedLevel, LevelOf;
    BehindLess(LevelOf(sh, th.pc.i), th.pc.prev);
  }

  lemma {:induction false} VisitNearer(sh: Shared, L: seq<seq<nat>>, th: Thread, h: nat)
    requires SharedInv(sh, L) && ThreadInv(sh, L, th) && th.pc.Visit? && th.pc.at != 0
    ensures var (sh', th') := Act(sh, th, h); WellFormed(th') && Nearer(sh', th', sh, th)
  {
    hide Less, Regions, IsLevel, SortedLevel;
    LevelIs(sh, L, 0);
    if NextOf(sh, th.pc.at, 0) != 0 {
      HopForward(sh, 0, L[0], th.pc.at);
    }
  }

  /** In any reachable state each step of a call brings it nearer to its end, as that stands afterwards. */
  lemma {:induction false} ActNearer(sh: Shared, L: seq<seq<nat>>, th: Thread, h: nat)
    requires SharedInv(sh, L) && ThreadInv(sh, L, th) && 1 <= h <= MAX_HEIGHT && !Finished(th.pc)
    ensures var (sh', th') := Act(sh, th, h); WellFormed(th') && Nearer(sh', th', sh, th)
  {
    match th.pc {
      case Search(_, _, _) => SearchNearer(sh, L, th);
      case Store(_, _, _) => StoreNearer(sh, L, th);
      case Cas(_, _, _, _, _) => CasNearer(sh, L, th);
      case Refind(_, _, _, _) => RefindNearer(sh, L, th);
      case Visit(_, _) => VisitNearer(sh, L, th, h);
      case _ =>
        hide Less, Regions, IsLevel, SortedLevel, LevelOf;
    }
  }

  // ---- runs in which only one call moves

  /** From state k on only call t takes steps. */
  ghost predicate Alone(tr: seq<State>, k: nat, t: nat, h: nat) {
    k < |tr| && forall j :: k <= j < |tr| - 1 ==> ThreadStep(tr[j], tr[j + 1], t, h)
  }

  ghost function Last(tr: seq<State>): State
    requires tr != []
  {
    tr[|tr| - 1]
  }

  /** Whatever the other calls have left behind, a call that goes on alone ends. */
  lemma {:induction false} EndsAlone(tr: seq<State>, t: nat, h: nat) returns (more: seq<State>)
    requires Run(tr) && t < |Last(tr).threads| && 1 <= h <= MAX_HEIGHT && WellFormed(Last(tr).threads[t])
    ensures Run(tr + more) && Alone(tr + more, |tr| - 1, t, h) && t < |Last(tr + more).threads|
    ensures Finished(Last(tr + more).threads[t].pc)
    decreases Phase(Last(tr).threads[t].pc), LevelsLeft(Last(tr).threads[t].pc),
              StepsLeft(Last(tr).sh, Last(tr).threads[t])
  {
    hide Act, WellFormed, Phase, LevelsLeft, StepsLeft, SharedInv, ThreadInv, Init;
    var s := Last(tr);
    if Finished(s.threads[t].pc) {
      more := [];
      assert tr + more == tr;
    } else {
      var L := RunInv(tr, |tr| - 1);
      ActNearer(s.sh, L, s.threads[t], h);
      var (sh', th') := Act(s.sh, s.threads[t], h);
      var s' := State(sh', s.threads[t := th']);
      assert ThreadStep(s, s', t, h);
      RunOn(tr, s');
      LevelsLeftNat(th');
      var rest := EndsAlone(tr + [s'], t, h);
      more := [s'] + rest;
      AloneMore(tr, s', rest, t, h);
    }
  }

  lemma {:induction false} LevelsLeftNat(th: Thread)
    requires WellFormed(th)
    ensures LevelsLeft(th.pc) >= 0
  {
  }

  lemma {:induction false} RunOn(tr: seq<State>, s: State)
    requires Run(tr) && Step(Last(tr), s)
    ensures Run(tr + [s])
  {
    hide Step, Init;
    var tr' := tr + [s];
    forall k | 0 <= k < |tr'| - 1
      ensures Step(tr'[k], tr'[k + 1])
    {
      if k < |tr| - 1 {
        assert Step(tr[k], tr[k + 1]);
      }
    }
  }

  lemma {:induction false} AloneMore(tr: seq<State>, s: State, rest: seq<State>, t: nat, h: nat)
    requires tr != [] && ThreadStep(Last(tr), s, t, h) && Alone(tr + [s] + rest, |tr|, t, h)
    ensures tr + ([s] + rest) == tr + [s] + rest && Alone(tr + ([s] + rest), |tr| - 1, t, h)
  {
    hide ThreadStep;
    var all := tr + ([s] + rest);
    assert all == tr + [s] + rest && all[|tr| - 1] == Last(tr) && all[|tr|] == s;
  }

  // ---- an Add on its own

  ghost predicate KeyThere(sh: Shared, key: bytes) {
    KeyLinked(sh, LevelOf(sh, 0), key)
  }

  /** The node of an Add fits into what is left of the slab. */
  predicate Fits(sh: Shared, op: Op)
    requires op.Add?
  {
    Bumped(sh.n, NODE_SIZE + |op.key| + |op.value|, NODE_ALIGNMENT) <= |sh.mem|
  }

  /** The splices of these levels still name neighbours. */
  ghost predicate UpToDate(sh: Shared, th: Thread, from: nat)
    requires |th.spl| == MAX_HEIGHT
  {
    forall i :: from <= i < MAX_HEIGHT ==> NextOf(sh, Start0(th.spl[i]).prev, i) == Start0(th.spl[i]).next
  }

  /** What holds of an Add of a new key with room for its node, as long as nobody else moves. What its
      search has found stays true, so it never has to search again. */
  ghost predicate OnItsWay(sh: Shared, th: Thread)
    requires th.op.Add? && |th.spl| == MAX_HEIGHT
  {
    match th.pc
    case Start => Fits(sh, th.op) && !KeyThere(sh, th.op.key) && UpToDate(sh, th, sh.height)
    case Search(level, _, found) => Fits(sh, th.op) && !KeyThere(sh, th.op.key) && !found && UpToDate(sh, th, level + 1)
    case Alloc => Fits(sh, th.op) && !KeyThere(sh, th.op.key) && UpToDate(sh, th, 0)
    case Done(result) => result.Added?
    case Visit(_, _) => false
    case Refind(_, _, _, _) => false
    case Store(_, _, i) => (i > 0 || !KeyThere(sh, th.op.key)) && UpToDate(sh, th, i)
    case Cas(_, _, i, prev, next) =>
      (i > 0 || !KeyThere(sh, th.op.key)) && NextOf(sh, prev, i) == next && UpToDate(sh, th, i + 1)
    case _ => !KeyThere(sh, th.op.key) && UpToDate(sh, th, 0)
  }

  /** Steps that link nothing on the bottom level do not change which keys are there. */
  lemma {:induction false} SameKeys(sh: Shared, L: seq<seq<nat>>, sh': Shared, L': seq<seq<nat>>, x: nat, key: bytes)
    requires SharedInv(sh, L) && SharedInv(sh', L') && Frame(sh, L, sh', L', x) && (x !in L'[0] || x in L[0])
    ensures KeyThere(sh', key) ==> KeyThere(sh, key)
  {
    hide Less, Regions, SortedLevel, Nested;
    LevelIs(sh, L, 0);
    LevelIs(sh', L', 0);
    if KeyThere(sh', key) {
      var j :| 1 <= j < |L'[0]| && KeyAt(sh', L'[0][j]) == key;
      var o := L'[0][j];
      assert o in L'[0] && o in L[0];
      LinkedStays(sh, L, sh', L', x, 0, o);
      var k :| 0 <= k < |L[0]| && L[0][k] == o;
      NotHead(sh', L', j);
      assert k != 0;
      assert KeyAt(sh, L[0][k]) == key;
    }
  }

  lemma {:induction false} NotHead(sh: Shared, L: seq<seq<nat>>, j: nat)
    requires SharedInv(sh, L) && 1 <= j < |L[0]|
    ensures L[0][j] != HEAD
  {
    assert SortedLevel(sh, L[0]);
  }

  lemma {:induction false} NoNodeZero(sh: Shared, L: seq<seq<nat>>)
    requires SharedInv(sh, L)
    ensures 0 !in L[0]
  {
    assert IsLevel(sh, 0, L[0]);
  }

  lemma {:induction false} LinkedKeyThere(sh: Shared, L: seq<seq<nat>>, i: nat, prev: nat, key: bytes)
    requires SharedInv(sh, L) && i < MAX_HEIGHT && prev in L[i]
    requires var next := NextOf(sh, prev, i); next != 0 && KeyAt(sh, next) == key
    ensures KeyThere(sh, key)
  {
    hide Less, Regions;
    var next := NextOf(sh, prev, i);
    NextOnLevel(sh, i, L[i], prev);
    var j :| 0 <= j < |L[i]| && L[i][j] == next;
    assert KeyAt(sh, L[i][j]) == key;
    LowerLevelHasKey(sh, L, i, key);
    LevelIs(sh, L, 0);
  }

  lemma {:induction false} WayStep(sh: Shared, L: seq<seq<nat>>, th: Thread, h: nat)
    requires SharedInv(sh, L) && ThreadInv(sh, L, th) && 1 <= h <= MAX_HEIGHT && th.op.Add? && OnItsWay(sh, th)
    ensures var (sh', th') := Act(sh, th, h); th'.op == th.op && |th'.spl| == MAX_HEIGHT && OnItsWay(sh', th')
  {
    hide Less, Regions, IsLevel, SortedLevel, Nested, Splices, KeyThere, UpToDate, Fits, KeyAt, ValueAt, NextOf;
    var L' := ActPreserves(sh, L, th, h);
    var (sh', th') := Act(sh, th, h);
    WayKeys(sh, L, th, h, L');
    WaySplices(sh, L, th, h);
    WayRoom(sh, th, h);
  }

  /** Room for the node lasts until it is allocated. */
  lemma {:induction false} WayRoom(sh: Shared, th: Thread, h: nat)
    requires WellFormed(th) && th.op.Add?
    ensures th.pc.Start? || th.pc.Search? ==> (Fits(Act(sh, th, h).0, th.op) <==> Fits(sh, th.op))
    ensures th.pc.Alloc? && Fits(sh, th.op) ==> !Act(sh, th, h).1.pc.Done?
  {
    hide Less, KeyAt, NextOf;
  }

  /** The key is not met. */
  lemma {:induction false} WayKeys(sh: Shared, L: seq<seq<nat>>, th: Thread, h: nat, L': seq<seq<nat>>)
    requires SharedInv(sh, L) && ThreadInv(sh, L, th) && 1 <= h <= MAX_HEIGHT && th.op.Add? && OnItsWay(sh, th)
    requires |L'| == MAX_HEIGHT && var (sh', th') := Act(sh, th, h); Preserved(sh, L, th, sh', L', th')
    ensures var (sh', th') := Act(sh, th, h);
      && (th'.pc.Start? || th'.pc.Search? || th'.pc.Alloc? ==> !KeyThere(sh', th.op.key))
      && (HasNode(th'.pc) && Linked(th'.pc) == 0 ==> !KeyThere(sh', th.op.key))
      && (th.pc.Search? && th'.pc.Search? ==> !th'.pc.found) && (th.pc.Search? ==> !th'.pc.Done?)
  {
    hide Less, Regions, IsLevel, SortedLevel, Nested, Splices, UpToDate;
    var (sh', th') := Act(sh, th, h);
    if th.pc.Search? {
      var next := NextOf(sh, th.pc.prev, th.pc.level);
      if next != 0 && KeyAt(sh, next) == th.op.key {
        LinkedKeyThere(sh, L, th.pc.level, th.pc.prev, th.op.key);
      }
    } else if Linked(th'.pc) == 0 && !th.pc.Done? {
      var x := if Own(th.pc) != 0 then Own(th.pc) else Own(th'.pc);
      NoNodeZero(sh', L');
      assert x == 0 || (x == Own(th'.pc) && x !in L'[0]);
      SameKeys(sh, L, sh', L', x, th.op.key);
    }
  }

  /** What the search has found stays true. */
  lemma {:induction false} WaySplices(sh: Shared, L: seq<seq<nat>>, th: Thread, h: nat)
    requires SharedInv(sh, L) && ThreadInv(sh, L, th) && 1 <= h <= MAX_HEIGHT && th.op.Add? && OnItsWay(sh, th)
    ensures var (sh', th') := Act(sh, th, h);
      && WellFormed(th') && !th'.pc.Refind?
      && (th'.pc.Search? ==> UpToDate(sh', th', th'.pc.level + 1)) && (th'.pc.Store? ==> UpToDate(sh', th', th'.pc.i))
      && (th'.pc.Cas? ==> NextOf(sh', th'.pc.prev, th'.pc.i) == th'.pc.next && UpToDate(sh', th', th'.pc.i + 1))
      && (th'.pc.Alloc? || th'.pc.WriteKey? || th'.pc.WriteValue? || th'.pc.GrowLoad? || th'.pc.GrowCas? ==> UpToDate(sh', th', 0))
  {
    hide Less, Regions, IsLevel, SortedLevel, Nested, KeyThere, KeyAt, ValueAt, Fits;
    match th.pc {
      case Store(_, _, _) => StoreSplices(sh, L, th);
      case Cas(_, _, _, _, _) => CasSplices(sh, L, th);
      case Search(_, prev, _) => NoZeroOnLevels(sh, L);
      case _ =>
    }
  }

  lemma {:induction false} NoZeroOnLevels(sh: Shared, L: seq<seq<nat>>)
    requires SharedInv(sh, L)
    ensures forall i :: 0 <= i < MAX_HEIGHT ==> 0 !in L[i]
  {
    forall i | 0 <= i < MAX_HEIGHT
      ensures 0 !in L[i]
    {
      assert IsLevel(sh, i, L[i]);
    }
  }

  /** The tower entry that Store sets is none of those. */
  lemma {:induction false} StoreSplices(sh: Shared, L: seq<seq<nat>>, th: Thread)
    requires SharedInv(sh, L) && ThreadInv(sh, L, th) && th.pc.Store? && UpToDate(sh, th, th.pc.i)
    ensures var (sh', th') := StoreStep(sh, th);
      th'.pc.Cas? && NextOf(sh', th'.pc.prev, th'.pc.i) == th'.pc.next && UpToDate(sh', th', th'.pc.i + 1)
  {
    hide Less, Regions, IsLevel, SortedLevel, Nested, KeyAt, ValueAt, SetNext, NextOf;
    var Store(nd, _, i) := th.pc;
    SetNextEffect(sh, nd, i, Start0(th.spl[i]).next);
    HeadOnLevels(sh, L);
    forall j | i <= j < MAX_HEIGHT
      ensures Start0(th.spl[j]).prev != nd
    {
      assert SpliceOk(sh, L[j], th.op.key, th.spl[j]);
      assert Start0(th.spl[j]).prev in L[j] && nd !in L[j];
    }
  }

  /** Linking on one level leaves the levels above. */
  lemma {:induction false} CasSplices(sh: Shared, L: seq<seq<nat>>, th: Thread)
    requires |L| == MAX_HEIGHT && ThreadInv(sh, L, th) && th.pc.Cas?
    requires NextOf(sh, th.pc.prev, th.pc.i) == th.pc.next && UpToDate(sh, th, th.pc.i + 1)
    ensures var (sh', th') := CasStep(sh, th); !th'.pc.Refind? && UpToDate(sh', th', th.pc.i + 1)
  {
    hide SetNext, NextOf;
    SetNextEffect(sh, th.pc.prev, th.pc.i, th.pc.nd);
  }

  /** An Add of a key that is not there, with room for its node, can only end by having linked it. */
  lemma {:induction false} StaysOnItsWay(tr: seq<State>, k: nat, m: nat, t: nat, h: nat)
    requires Run(tr) && Alone(tr, k, t, h) && k <= m < |tr| && t < |tr[k].threads|
    requires tr[k].threads[t].op.Add? && |tr[k].threads[t].spl| == MAX_HEIGHT && OnItsWay(tr[k].sh, tr[k].threads[t])
    ensures t < |tr[m].threads| && tr[m].threads[t].op == tr[k].threads[t].op
    ensures |tr[m].threads[t].spl| == MAX_HEIGHT && OnItsWay(tr[m].sh, tr[m].threads[t])
    decreases m
  {
    hide Act, WellFormed, OnItsWay, SharedInv, ThreadInv, Init, Step;
    if k < m {
      StaysOnItsWay(tr, k, m - 1, t, h);
      assert ThreadStep(tr[m - 1], tr[m - 1 + 1], t, h);
      var L := RunInv(tr, m - 1);
      WayStep(tr[m - 1].sh, L, tr[m - 1].threads[t], h);
    }
  }

  /** A call that has not started has not searched. */
  ghost predicate Unsearched(th: Thread) {
    th.pc.Start? ==> th.spl == NewThread(th.op).spl
  }

  lemma {:induction false} StartsUnsearched(tr: seq<State>, k: nat)
    requires Run(tr) && k < |tr|
    ensures forall t :: 0 <= t < |tr[k].threads| ==> Unsearched(tr[k].threads[t])
    decreases k
  {
    hide WellFormed, Less, KeyAt, NextOf;
    if k > 0 {
      StartsUnsearched(tr, k - 1);
      var s, s' := tr[k - 1], tr[k];
      assert Step(tr[k - 1], tr[k - 1 + 1]);
      if op :| Call(s, s', op) {
      } else {
        var t: nat, h: nat :| ThreadStep(s, s', t, h);
        ActUnsearched(s.sh, s.threads[t], h);
      }
    }
  }

  lemma {:induction false} ActUnsearched(sh: Shared, th: Thread, h: nat)
    requires WellFormed(th) && Unsearched(th)
    ensures Unsearched(Act(sh, th, h).1)
  {
    hide Less, KeyAt, NextOf;
  }

  /** Above the height of the list there is nothing that a call could have to know. */
  lemma {:induction false} AboveHeight(sh: Shared, L: seq<seq<nat>>, th: Thread)
    requires SharedInv(sh, L) && th.spl == NewThread(th.op).spl
    ensures UpToDate(sh, th, sh.height)
  {
    forall i | sh.height <= i < MAX_HEIGHT
      ensures NextOf(sh, HEAD, i) == 0
    {
      assert IsLevel(sh, i, L[i]) && L[i] == [HEAD];
      assert NextOf(sh, L[i][0], i) == 0;
    }
  }

  /** An Add that runs alone, of a key that is not on the list and with room for its node, ends and has
      added it, without ever searching again: each of its compare-and-swaps succeeds. */
  lemma {:induction false} AddAlone(tr: seq<State>, t: nat, h: nat) returns (more: seq<State>)
    requires Run(tr) && t < |Last(tr).threads| && 1 <= h <= MAX_HEIGHT
    requires var s := Last(tr); var th := s.threads[t];
      th.pc == Start && th.op.Add? && Fits(s.sh, th.op) && !KeyThere(s.sh, th.op.key)
    ensures Run(tr + more) && Alone(tr + more, |tr| - 1, t, h) && t < |Last(tr + more).threads|
    ensures var th := Last(tr + more).threads[t];
      th.op == Last(tr).threads[t].op && th.pc.Done? && th.pc.result.Added?
    ensures forall m :: |tr| - 1 <= m < |tr + more| ==> t < |(tr + more)[m].threads| && !(tr + more)[m].threads[t].pc.Refind?
  {
    hide Act, SharedInv, ThreadInv, Init, KeyThere, Fits, UpToDate, NewThread, Step;
    var L := RunInv(tr, |tr| - 1);
    StartFormed(Last(tr), L, t);
    StartsUnsearched(tr, |tr| - 1);
    assert Unsearched(Last(tr).threads[t]);
    AboveHeight(Last(tr).sh, L, Last(tr).threads[t]);
    more := EndsAlone(tr, t, h);
    forall m: nat | |tr| - 1 <= m < |tr + more|
      ensures t < |(tr + more)[m].threads| && (tr + more)[m].threads[t].op == Last(tr).threads[t].op
      ensures |(tr + more)[m].threads[t].spl| == MAX_HEIGHT && OnItsWay((tr + more)[m].sh, (tr + more)[m].threads[t])
    {
      StaysOnItsWay(tr + more, |tr| - 1, m, t, h);
    }
  }

  lemma {:induction false} StartFormed(s: State, L: seq<seq<nat>>, t: nat)
    requires Inv(s, L) && t < |s.threads|
    ensures WellFormed(s.threads[t]) && SharedInv(s.sh, L)
  {
  }
}
