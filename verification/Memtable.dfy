/** Memtables and the reads that search them, newest first. */
module Memtables {
  import opened Bytes
  import opened Binary
  import opened InternalKey
  import opened Block
  import opened Merge

  /** A completed write. */
  datatype Write = Write(key: bytes, seqNum: nat, kind: byte, value: bytes)

  datatype MaybeWrite = None | Some(w: Write)

  datatype MaybeBytes = Nothing | Just(v: bytes)

  function EntryOf(w: Write): Entry {
    Entry(Make(w.key, w.seqNum, w.kind), w.value)
  }

  /** getFromMemtable: seeks to the newest version the sequence number allows. */
  function Find(es: seq<Entry>, key: bytes, s: nat): MaybeWrite {
    var p := SeekPos(es, Make(key, s, KIND_SET));
    if p == |es| || UserKey(es[p].key) != key then None
    else Some(Write(key, Seq(es[p].key), Kind(es[p].key), es[p].value))
  }

  // ---- the plain map

  /** What a map from keys to last writes holds after the writes numbered up to s. */
  function Replay(log: seq<Write>, s: nat): map<bytes, Write> {
    if log == [] then map[]
    else
      var m, w := Replay(log[..|log| - 1], s), log[|log| - 1];
      if w.seqNum <= s then m[w.key := w] else m
  }

  function Lookup(log: seq<Write>, key: bytes, s: nat): MaybeWrite {
    var m := Replay(log, s);
    if key in m then Some(m[key]) else None
  }

  /** Sequence numbers grow along the log and fit the trailer. */
  ghost predicate Numbered(log: seq<Write>) {
    && (forall i :: 0 <= i < |log| ==> log[i].seqNum <= MAX_SEQ && log[i].kind <= KIND_SET)
    && (forall i, j :: 0 <= i < j < |log| ==> log[i].seqNum < log[j].seqNum)
  }

  /** The lookup key and the written keys are not proper prefixes of each other. */
  ghost predicate Apart(log: seq<Write>, key: bytes) {
    forall i :: 0 <= i < |log| ==> Unrelated(log[i].key, key)
  }

  /** The memtable holds exactly these writes. */
  ghost predicate Holds(es: seq<Entry>, log: seq<Write>) {
    && Sorted(es)
    && (forall w :: w in log ==> EntryOf(w) in es)
    && (forall i :: 0 <= i < |es| ==> exists w :: w in log && es[i] == EntryOf(w))
  }

  lemma {:induction false} LookupIsLatest(log: seq<Write>, key: bytes, s: nat)
    requires Numbered(log)
    ensures Lookup(log, key, s).Some? ==>
      var w := Lookup(log, key, s).w; w in log && w.key == key && w.seqNum <= s
    ensures forall w :: w in log && w.key == key && w.seqNum <= s ==>
      Lookup(log, key, s).Some? && w.seqNum <= Lookup(log, key, s).w.seqNum
  {
    hide Numbered;
    if log != [] {
      var n := |log| - 1;
      NumberedPrefix(log);
      LookupIsLatest(log[..n], key, s);
    }
  }

  lemma {:induction false} NumberedPrefix(log: seq<Write>)
    requires Numbered(log) && log != []
    ensures var n := |log| - 1; Numbered(log[..n]) && log == log[..n] + [log[n]]
    ensures var n := |log| - 1; forall w :: w in log[..n] ==> w.seqNum < log[n].seqNum
  {
  }

  lemma {:induction false} SameNumberSameWrite(log: seq<Write>, v: Write, w: Write)
    requires Numbered(log) && v in log && w in log && v.seqNum == w.seqNum
    ensures v == w
  {
  }

  lemma {:induction false} ParseEntry(w: Write)
    requires w.seqNum <= MAX_SEQ
    ensures UserKey(EntryOf(w).key) == w.key && Seq(EntryOf(w).key) == w.seqNum && Kind(EntryOf(w).key) == w.kind
  {
    ParseOfMake(w.key, w.seqNum, w.kind);
  }

  /** A seek for (key, s) passes exactly the other keys below and the versions above s. */
  lemma {:induction false} SeekPasses(w: Write, key: bytes, s: nat)
    requires w.seqNum <= MAX_SEQ && w.kind <= KIND_SET && s <= MAX_SEQ && Unrelated(w.key, key)
    ensures Less(EntryOf(w).key, Make(key, s, KIND_SET)) <==> Less(w.key, key) || (w.key == key && w.seqNum > s)
  {
    hide Less, Make, Unrelated;
    InternalOrder(w.key, w.seqNum, w.kind, key, s, KIND_SET);
  }

  /** Searching one memtable gives what the plain map of its writes holds. */
  lemma {:induction false} FindIsLookup(es: seq<Entry>, log: seq<Write>, key: bytes, s: nat)
    requires Holds(es, log) && Numbered(log) && Apart(log, key) && s <= MAX_SEQ
    ensures Find(es, key, s) == Lookup(log, key, s)
  {
    hide Less, Make, Unrelated, Lookup, UserKey, Seq, Kind;
    var p := SeekPos(es, Make(key, s, KIND_SET));
    LookupIsLatest(log, key, s);
    if Lookup(log, key, s).Some? {
      var w := Lookup(log, key, s).w;
      VersionFound(es, log, key, s, p, w);
      ParseEntry(w);
    } else if p < |es| {
      var v :| v in log && es[p] == EntryOf(v);
      ParseEntry(v);
      SeekPasses(v, key, s);
    }
  }

  /** The newest version that the sequence number allows is where the seek lands. */
  lemma {:induction false} VersionFound(es: seq<Entry>, log: seq<Write>, key: bytes, s: nat, p: nat, w: Write)
    requires Holds(es, log) && Numbered(log) && Apart(log, key) && s <= MAX_SEQ
    requires p == SeekPos(es, Make(key, s, KIND_SET))
    requires w in log && w.key == key && w.seqNum <= s
    requires forall v :: v in log && v.key == key && v.seqNum <= s ==> v.seqNum <= w.seqNum
    ensures p < |es| && es[p] == EntryOf(w)
  {
    hide Less, Make, Unrelated, UserKey;
    var e := EntryOf(w);
    var q :| 0 <= q < |es| && es[q] == e;
    SeekPasses(w, key, s);
    LessIrreflexive(key);
    assert p <= q;
    if p < q {
      var v :| v in log && es[p] == EntryOf(v);
      SeekPasses(v, key, s);
      InternalOrder(v.key, v.seqNum, v.kind, key, w.seqNum, w.kind);
      assert Less(es[p].key, es[q].key);
      SameNumberSameWrite(log, v, if v.seqNum == w.seqNum then w else v);
      LessIrreflexive(es[q].key);
    }
  }

  // ---- memtables and rotation

  datatype AddResult = Added | ErrFull | ErrRecordExists

  lemma {:induction false} InsertHolds(es: seq<Entry>, log: seq<Write>, w: Write)
    requires Holds(es, log)
    requires var p := SeekPos(es, EntryOf(w).key); p < |es| ==> es[p].key != EntryOf(w).key
    ensures var p := SeekPos(es, EntryOf(w).key); Holds(es[..p] + [EntryOf(w)] + es[p..], log + [w])
  {
    hide Less, EntryOf;
    var e := EntryOf(w);
    var p := SeekPos(es, e.key);
    var fs := es[..p] + [e] + es[p..];
    if p < |es| {
      LessTotal(e.key, es[p].key);
    }
    forall i | p <= i < |es|
      ensures Less(e.key, es[i].key)
    {
      if i > p {
        LessTransitive(e.key, es[p].key, es[i].key);
      }
    }
    InsertSorted(es, e, p);
    InsertElements(es, log, w, p);
  }

  lemma {:induction false} InsertElements(es: seq<Entry>, log: seq<Write>, w: Write, p: nat)
    requires p <= |es| && (forall v :: v in log ==> EntryOf(v) in es)
    requires forall i :: 0 <= i < |es| ==> exists v :: v in log && es[i] == EntryOf(v)
    ensures var fs := es[..p] + [EntryOf(w)] + es[p..]; forall v :: v in log + [w] ==> EntryOf(v) in fs
    ensures var fs := es[..p] + [EntryOf(w)] + es[p..];
      forall i :: 0 <= i < |fs| ==> exists v :: v in log + [w] && fs[i] == EntryOf(v)
  {
  }

  lemma {:induction false} InsertSorted(es: seq<Entry>, e: Entry, p: nat)
    requires Sorted(es) && p <= |es|
    requires forall i :: 0 <= i < p ==> Less(es[i].key, e.key)
    requires forall i :: p <= i < |es| ==> Less(e.key, es[i].key)
    ensures Sorted(es[..p] + [e] + es[p..])
  {
  }

  /** The range is that of the numbers, zero for both ends if there are none. */
  ghost predicate RangeIs(given: set<nat>, least: nat, largest: nat) {
    if given == {} then least == largest == 0
    else 0 < least && least in given && largest in given && forall n :: n in given ==> least <= n <= largest
  }

  class Memtable {
    /** The bottom level of the skiplist, in order. */
    var es: seq<Entry>
    var minSeqNum: nat
    var maxSeqNum: nat
    ghost var writes: seq<Write>
    /** The numbers of all versions it was given, also those it had no room for. */
    ghost var given: set<nat>

    ghost predicate Valid()
      reads this
    {
      && Holds(es, writes) && Numbered(writes) && RangeIs(given, minSeqNum, maxSeqNum)
      && forall w :: w in writes ==> w.seqNum in given
    }

    constructor ()
      ensures Valid() && writes == [] && given == {}
    {
      es, minSeqNum, maxSeqNum, writes, given := [], 0, 0, [], {};
    }

    /** updateSeqRange: zero stands for "no minimum yet", so numbers start at one. */
    method UpdateSeqRange(seqNum: nat)
      requires seqNum > 0 && Valid()
      modifies this`minSeqNum, this`maxSeqNum, this`given
      ensures Valid() && given == old(given) + {seqNum}
    {
      hide Holds, Numbered;
      given := given + {seqNum};
      if minSeqNum == 0 || minSeqNum > seqNum {
        minSeqNum := seqNum;
      }
      if maxSeqNum < seqNum {
        maxSeqNum := seqNum;
      }
    }

    /** Set and Delete: adds one version; room says whether the arena can take it. */
    method Add(w: Write, room: bool) returns (res: AddResult)
      requires Valid() && 0 < w.seqNum <= MAX_SEQ && w.kind <= KIND_SET
      requires forall v :: v in writes ==> 0 < v.seqNum < w.seqNum
      modifies this
      ensures Valid() && res == (if room then Added else ErrFull)
      ensures writes == if room then old(writes) + [w] else old(writes)
      ensures given == old(given) + {w.seqNum}
    {
      hide Less, Holds, Make;
      UpdateSeqRange(w.seqNum);
      var ikey := Make(w.key, w.seqNum, w.kind);
      var p := SeekPos(es, ikey);
      NewVersion(es, writes, w);
      if p < |es| && es[p].key == ikey {
        return ErrRecordExists;
      }
      if !room {
        return ErrFull;
      }
      InsertHolds(es, writes, w);
      NumberedMore(writes, w);
      es := es[..p] + [Entry(ikey, w.value)] + es[p..];
      writes := writes + [w];
      return Added;
    }

    /** Get: the value of the newest version up to the number, unless that is a tombstone. */
    method Get(key: bytes, s: nat) returns (r: MaybeBytes)
      requires Valid() && s <= MAX_SEQ && Apart(writes, key)
      ensures var w := Lookup(writes, key, s);
        r == if w.Some? && w.w.kind != KIND_DELETE then Just(w.w.value) else Nothing
    {
      hide Less, Holds, Make, Lookup, Numbered, UserKey, Seq;
      FindIsLookup(es, writes, key, s);
      var p := SeekPos(es, Make(key, s, KIND_SET));
      if p == |es| || UserKey(es[p].key) != key {
        return Nothing;
      }
      if Kind(es[p].key) == KIND_DELETE {
        return Nothing;
      }
      return Just(es[p].value);
    }
  }

  lemma {:induction false} NumberedBound(log: seq<Write>, v: Write)
    requires Numbered(log) && v in log
    ensures v.seqNum <= MAX_SEQ
  {
  }

  /** A version with a new sequence number is not there yet. */
  lemma {:induction false} NewVersion(es: seq<Entry>, log: seq<Write>, w: Write)
    requires Holds(es, log) && Numbered(log) && w.seqNum <= MAX_SEQ
    requires forall v :: v in log ==> v.seqNum < w.seqNum
    ensures forall i :: 0 <= i < |es| ==> es[i].key != EntryOf(w).key
  {
    hide Less, Make, Seq, UserKey, Numbered;
    forall i | 0 <= i < |es|
      ensures es[i].key != EntryOf(w).key
    {
      var e := es[i];
      var v :| v in log && e == EntryOf(v);
      NumberedBound(log, v);
      ParseEntry(v);
      ParseEntry(w);
    }
  }

  function Flat(parts: seq<seq<Write>>): seq<Write> {
    if parts == [] then [] else Flat(parts[..|parts| - 1]) + parts[|parts| - 1]
  }

  lemma {:induction false} ReplayConcat(a: seq<Write>, b: seq<Write>, s: nat)
    ensures Replay(a + b, s) == Replay(a, s) + Replay(b, s)
  {
    if b == [] {
      assert a + b == a;
    } else {
      ReplayConcat(a, b[..|b| - 1], s);
      assert (a + b)[..|a + b| - 1] == a + b[..|b| - 1];
    }
  }

  /** A key written in the newer part is decided there. */
  lemma {:induction false} LookupConcat(a: seq<Write>, b: seq<Write>, key: bytes, s: nat)
    ensures Lookup(a + b, key, s) == if Lookup(b, key, s).Some? then Lookup(b, key, s) else Lookup(a, key, s)
  {
    hide Replay;
    ReplayConcat(a, b, s);
  }

  /** The write path of the database up to the flush: an active memtable, sealed ones, and the
      sequence number. */
  class DB {
    var mem: Memtable
    /** Sealed memtables, oldest first. */
    var imm: seq<Memtable>
    var seqNum: nat
    /** The writes of each sealed memtable. */
    ghost var parts: seq<seq<Write>>

    ghost predicate Valid()
      reads this, mem, imm
    {
      && mem.Valid() && mem !in imm && |parts| == |imm|
      && (forall i :: 0 <= i < |imm| ==> imm[i].Valid() && imm[i].writes == parts[i])
      && seqNum <= MAX_SEQ && Numbered(Log())
      && forall w :: w in Log() ==> 0 < w.seqNum <= seqNum
    }

    lemma {:induction false} Facts()
      requires Valid()
      ensures Numbered(mem.writes)
      ensures forall w :: w in mem.writes ==> w in Log()
    {
    }

    /** All completed writes, in order. */
    ghost function Log(): seq<Write>
      reads this, mem
    {
      Flat(parts) + mem.writes
    }

    constructor ()
      ensures Valid() && Log() == [] && imm == [] && fresh(mem)
    {
      mem := new Memtable();
      imm, seqNum, parts := [], 0, [];
    }

    /** rotateMemtable */
    method Rotate()
      requires Valid()
      modifies this`mem, this`imm, this`parts
      ensures Valid() && Log() == old(Log()) && fresh(mem) && mem.writes == []
      ensures imm == old(imm) + [old(mem)] && seqNum == old(seqNum)
    {
      hide Numbered, Memtable.Valid;
      imm := imm + [mem];
      parts := parts + [mem.writes];
      assert parts[..|parts| - 1] == old(parts);
      mem := new Memtable();
      assert Log() == old(Log());
    }

    /** One attempt to add a write whose number has just been taken. */
    method TryAdd(w: Write, room: bool) returns (err: AddResult)
      requires Valid() && 0 < w.seqNum == seqNum && w.kind <= KIND_SET
      requires forall v :: v in Log() ==> v.seqNum < w.seqNum
      modifies mem
      ensures Valid() && err == (if room then Added else ErrFull)
      ensures Log() == if room then old(Log()) + [w] else old(Log())
      ensures mem.writes == if room then old(mem.writes) + [w] else old(mem.writes)
    {
      hide Holds, EntryOf, Numbered, Flat;
      NumberedMore(Log(), w);
      Facts();
      err := mem.Add(w, room);
      assert room ==> Log() == old(Log()) + [w];
    }

    /** Set and Delete, without another call in between: takes the next number, and seals the
        memtable when it is full. */
    method SetOrDelete(key: bytes, kind: byte, value: bytes, room: bool, roomInNew: bool) returns (ok: bool)
      requires Valid() && seqNum < MAX_SEQ && kind <= KIND_SET
      modifies this, mem
      ensures Valid() && seqNum == old(seqNum) + 1 && ok == (room || roomInNew)
      ensures Log() == if ok then old(Log()) + [Write(key, seqNum, kind, value)] else old(Log())
      ensures room ==> mem == old(mem) && imm == old(imm)
      ensures room ==> mem.writes == old(mem.writes) + [Write(key, seqNum, kind, value)]
      ensures !room ==> fresh(mem) && imm == old(imm) + [old(mem)] && old(mem).writes == old(mem.writes)
      ensures !room ==> mem.writes == if roomInNew then [Write(key, seqNum, kind, value)] else []
    {
      hide Holds, EntryOf, Numbered, Flat, Memtable.Valid;
      seqNum := seqNum + 1;
      var w := Write(key, seqNum, kind, value);
      var err := TryAdd(w, room);
      if err != Added {
        Rotate();
        err := TryAdd(w, roomInNew);
      }
      ok := err == Added;
    }

    /** The memtable part of Get and Snapshot.Get: active first, then sealed from new to old. */
    method Search(key: bytes, s: nat) returns (r: MaybeWrite)
      requires Valid() && s <= MAX_SEQ && Apart(Log(), key)
      ensures r == Lookup(Log(), key, s)
    {
      hide Holds, Find, Replay, Lookup, Less;
      r := Find(mem.es, key, s);
      LogPart(Flat(parts), mem.writes, key);
      FindIsLookup(mem.es, mem.writes, key, s);
      LookupConcat(Flat(parts), mem.writes, key, s);
      if r.Some? {
        return r;
      }
      var i := |imm|;
      assert parts[..i] == parts;
      while i > 0
        invariant 0 <= i <= |imm| && Lookup(Log(), key, s) == Lookup(Flat(parts[..i]), key, s)
      {
        i := i - 1;
        r := Find(imm[i].es, key, s);
        PartOfLog(parts, i, key);
        FindIsLookup(imm[i].es, imm[i].writes, key, s);
        assert parts[..i + 1][..i] == parts[..i];
        LookupConcat(Flat(parts[..i]), parts[i], key, s);
        if r.Some? {
          return r;
        }
      }
      EmptyLog(key, s);
      return None;
    }
  }

  lemma {:induction false} EmptyLog(key: bytes, s: nat)
    ensures Lookup(Flat([]), key, s) == None
  {
  }

  lemma {:induction false} LogPart(a: seq<Write>, b: seq<Write>, key: bytes)
    requires Apart(a + b, key)
    ensures Apart(a, key) && Apart(b, key)
  {
    hide Unrelated;
    assert forall i :: 0 <= i < |a| ==> (a + b)[i] == a[i];
    assert forall i :: 0 <= i < |b| ==> (a + b)[|a| + i] == b[i];
  }

  lemma {:induction false} NumberedMore(log: seq<Write>, w: Write)
    requires Numbered(log) && w.seqNum <= MAX_SEQ && w.kind <= KIND_SET
    requires forall v :: v in log ==> v.seqNum < w.seqNum
    ensures Numbered(log + [w])
  {
  }

  lemma {:induction false} PartOfLog(parts: seq<seq<Write>>, i: nat, key: bytes)
    requires i < |parts| && Apart(Flat(parts), key)
    ensures Apart(parts[i], key)
  {
    hide Unrelated;
    FlatContains(parts, i);
    forall j | 0 <= j < |parts[i]|
      ensures Unrelated(parts[i][j].key, key)
    {
      assert parts[i][j] in Flat(parts);
    }
  }

  lemma {:induction false} FlatContains(parts: seq<seq<Write>>, i: nat)
    requires i < |parts|
    ensures forall w :: w in parts[i] ==> w in Flat(parts)
  {
    if i < |parts| - 1 {
      FlatContains(parts[..|parts| - 1], i);
    }
  }
}
