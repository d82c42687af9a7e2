/** What a compaction does after the flush of an empty memtable: it overlooks a file of level 1, and what
    it publishes overlaps that file. */
module EmptyTables {
  import opened Bytes
  import opened Binary
  import opened InternalKey
  import opened Block
  import opened Merge
  import opened Versions
  import opened Compactions
  import opened CompactionMerge
  import opened CompactionTree

  /** A merge that leaves out a file of the output level whose range takes in a merged key: the level is
      not in order any more. */
  lemma {:induction false} OverlookedOverlaps(t: Tree, p: Pick, outs: seq<Table>, nums: nat -> nat, next: nat, f: FileMeta,
                                              e: Entry, h: FileMeta)
    requires p.level + 1 < NUM_LEVELS && (forall g :: g in Merging(p) ==> g.fileNum in t.disk)
    requires MergeOf(t, p, outs, nums) && Fresh(t, outs, next)
    requires f in Merging(p) && e in t.disk[f.fileNum]
    requires h in t.v[p.level + 1] && h.fileNum !in Nums(Merging(p))
    requires LessEq(h.smallest, e.key) && LessEq(e.key, h.largest)
    ensures !InOrder(AfterCompaction(t, p, outs, next).v[p.level + 1])
  {
    hide Less, LessEq, Merged, ToMap, AtStart, Cursors, Remaining, Nums, Merging, AfterCompaction, Sorted, InOrder, MetaOf;
    var d := MergedKeeps(Merging(p), t.disk, Flat(outs), f, e);
    InFlat(outs, d);
    var i :| 0 <= i < |outs| && d in outs[i].es;
    var g := outs[i].meta;
    EntryInRange(g, outs[i].es, d);
    assert Metas(outs)[i] == g;
    CompactedExactly(t, p, outs, next, p.level + 1, g);
    CompactedExactly(t, p, outs, next, p.level + 1, h);
    Meet(AfterCompaction(t, p, outs, next).v[p.level + 1], g, h, e.key);
  }

  /** Two files of a level in order share no key. */
  lemma {:induction false} Meet(fs: seq<FileMeta>, g: FileMeta, h: FileMeta, k: bytes)
    requires g in fs && h in fs && g != h
    requires LessEq(g.smallest, k) && LessEq(k, g.largest) && LessEq(h.smallest, k) && LessEq(k, h.largest)
    ensures !InOrder(fs)
  {
    hide Less;
    var i :| 0 <= i < |fs| && fs[i] == g;
    var j :| 0 <= j < |fs| && fs[j] == h;
    if InOrder(fs) {
      if i < j {
        Crossed(g.largest, h.smallest, k);
      } else {
        Crossed(h.largest, g.smallest, k);
      }
    }
  }

  lemma {:induction false} Crossed(largest: bytes, smallest: bytes, k: bytes)
    requires LessEq(smallest, k) && LessEq(k, largest)
    ensures !Less(largest, smallest)
  {
  }

  // ---- a tree in which that happens

  function Ver(u: byte, s: nat): Entry {
    Entry(Make([u], s, KIND_SET), [])
  }

  function FileWith(num: nat, level: int, es: seq<Entry>): FileMeta {
    if es == [] then FileMeta(num, level, 0, [], [])
    else FileMeta(num, level, 0, es[0].key, es[|es| - 1].key)
  }

  /** Six writes: the first two compacted into level 1, two newer versions of the same keys flushed, then
      an empty memtable, and then two more keys one by one. */
  function OldOnes(): seq<Entry> { [Ver(97, 1), Ver(98, 2)] }
  function NewOnes(): seq<Entry> { [Ver(97, 3), Ver(98, 4)] }

  function Level1File(): FileMeta { FileWith(1, 1, OldOnes()) }

  function Level0(): (fs: seq<FileMeta>)
    ensures |fs| == 4
  {
    [FileWith(2, 0, NewOnes()), FileWith(3, 0, []), FileWith(4, 0, [Ver(99, 5)]), FileWith(5, 0, [Ver(100, 6)])]
  }

  function Example(): Tree {
    Tree(EMPTY[0 := Level0()][1 := [Level1File()]],
         map[1 := OldOnes(), 2 := NewOnes(), 3 := [], 4 := [Ver(99, 5)], 5 := [Ver(100, 6)]], 6)
  }

  lemma {:induction false} KeyOrder(u: byte, s: nat, v: byte, t: nat)
    requires s < TWO_56 && t < TWO_56
    ensures Less(Ver(u, s).key, Ver(v, t).key) <==> u < v || (u == v && s > t)
    ensures Ver(u, s).key != []
  {
    hide Less, Make;
    InternalOrder([u], s, KIND_SET, [v], t, KIND_SET);
    if u < v {
      LessAt([u], [v], 0);
    } else if v < u {
      LessAt([v], [u], 0);
      LessTotal([u], [v]);
    } else {
      LessIrreflexive([u]);
    }
  }

  lemma {:induction false} ExampleMeta(i: nat)
    requires i < 4
    ensures var t := Example(); t.v[0] == Level0() && t.v[1] == [Level1File()]
    ensures var t := Example(); i != 1 ==> FileOk(t, 0, Level0()[i])
    ensures var t := Example(); FileOk(t, 1, Level1File()) && RangeOk(Level1File())
    ensures Level0()[i].fileNum == i + 2 && Level1File().fileNum == 1
  {
    hide Less, Make;
    KeyOrder(97, 1, 98, 2);
    KeyOrder(97, 3, 98, 4);
    KeyOrder(98, 2, 97, 1);
    KeyOrder(99, 5, 99, 5);
    KeyOrder(100, 6, 100, 6);
  }

  lemma {:induction false} OtherLevels(l: nat)
    requires 1 < l < NUM_LEVELS
    ensures Example().v[l] == []
  {
  }

  /** The files are told apart by their numbers. */
  lemma {:induction false} Numbered(l: nat, f: FileMeta)
    requires l < NUM_LEVELS && f in Example().v[l]
    ensures 1 <= f.fileNum <= 5 && l == (if f.fileNum == 1 then 1 else 0)
    ensures f == if f.fileNum == 1 then Level1File() else Level0()[f.fileNum - 2]
  {
    hide Example, RangeOk, FileOk, Make;
    if l > 1 {
      OtherLevels(l);
    }
    ExampleMeta(0);
    ExampleMeta(1);
    ExampleMeta(2);
    ExampleMeta(3);
  }

  /** But for the empty table, its tree is in shape: true metadata, unique file numbers, ordered levels. */
  lemma {:induction false} ExampleInShape()
    ensures var t := Example();
      && (forall l, f :: 0 <= l < NUM_LEVELS && f in t.v[l] && f.fileNum != 3 ==> FileOk(t, l, f))
      && Unique(t.v) && NoRepeat(t.v[0]) && Disjoint(t.v)
  {
    hide Example, Level1File, Level0, RangeOk, FileOk;
    var t := Example();
    forall l, f | 0 <= l < NUM_LEVELS && f in t.v[l]
      ensures 1 <= f.fileNum <= 5 && f == (if f.fileNum == 1 then Level1File() else Level0()[f.fileNum - 2])
      ensures f.fileNum != 3 ==> FileOk(t, l, f)
    {
      Numbered(l, f);
      ExampleMeta(if f.fileNum == 1 then 0 else f.fileNum - 2);
    }
    ExampleMeta(0);
    Apart4();
    DeepLevels();
  }

  lemma {:induction false} DeepLevels()
    ensures Disjoint(Example().v)
  {
    hide Example, Level1File, Level0, RangeOk;
    ExampleMeta(0);
    forall l: nat | 1 <= l < NUM_LEVELS
      ensures InOrder(Example().v[l])
    {
      if l > 1 {
        OtherLevels(l);
      }
    }
  }

  lemma {:induction false} Apart4()
    ensures NoRepeat(Level0())
  {
    hide Make;
    ExampleMeta(0);
  }

  /** Level 0 is due, the range computed for it starts at the third table, and the file of level 1 that
      holds older versions of keys of the first is not picked. */
  lemma {:induction false} ExamplePick()
    ensures var v := Example().v; var r := RangeOf(v[0], {});
      && |v[0]| >= L0_COMPACTION_THRESHOLD && r == (Bounded(Ver(99, 5).key), Bounded(Ver(100, 6).key))
      && Touching(v[1], r.0.Bytes(), r.1.Bytes()) == []
  {
    hide Less, Make;
    var fs := Level0();
    KeyOrder(97, 3, 98, 4);
    KeyOrder(98, 4, 99, 5);
    KeyOrder(98, 4, 100, 6);
    KeyOrder(99, 5, 100, 6);
    KeyOrder(100, 6, 99, 5);
    KeyOrder(98, 2, 99, 5);
    assert fs[..3][..2] == fs[..2] && fs[..2][..1] == fs[..1] && fs[..1][..0] == [];
    EmptyAround(Ver(97, 3).key);
    EmptyAround(Ver(98, 4).key);
    EmptyAround(Ver(99, 5).key);
    assert RangeOf(fs[..1], {}) == (Bounded(Ver(97, 3).key), Bounded(Ver(98, 4).key));
    assert RangeOf(fs[..2], {}) == (Nil, Bounded(Ver(98, 4).key));
    assert RangeOf(fs[..3], {}) == (Bounded(Ver(99, 5).key), Bounded(Ver(99, 5).key));
    assert fs == fs[..4];
    assert RangeOf(fs, {}) == (Bounded(Ver(99, 5).key), Bounded(Ver(100, 6).key));
    assert [Level1File()][..0] == [];
  }

  lemma {:induction false} EmptyAround(k: bytes)
    requires k != []
    ensures Less([], k) && !Less(k, [])
  {
  }

  /** Whatever tables the merge of that pick puts out, level 1 is not in order afterwards: one of them
      holds the newer version of "b", inside the range of the file that was overlooked. */
  lemma {:induction false} EmptyTableBreaksLevel(outs: seq<Table>, nums: nat -> nat, next: nat)
    requires var p := Pick(0, Level0(), []);
      (forall f :: f in Merging(p) ==> f.fileNum in Example().disk) && MergeOf(Example(), p, outs, nums)
      && Fresh(Example(), outs, next)
    ensures !Disjoint(AfterCompaction(Example(), Pick(0, Level0(), []), outs, next).v)
  {
    hide Less, Make, MergeOf, AfterCompaction, Fresh, LessEq;
    var t, p := Example(), Pick(0, Level0(), []);
    KeyOrder(97, 1, 98, 4);
    KeyOrder(98, 4, 98, 2);
    Within(Ver(97, 1).key, Ver(98, 4).key, Ver(98, 2).key);
    assert p.inputs[0] in Merging(p) && Ver(98, 4) in t.disk[2];
    OverlookedOverlaps(t, p, outs, nums, next, Level0()[0], Ver(98, 4), Level1File());
  }

  lemma {:induction false} Within(a: bytes, k: bytes, b: bytes)
    requires Less(a, k) && Less(k, b)
    ensures LessEq(a, k) && LessEq(k, b)
  {
  }
}
