/** The merge of a compaction: the input tables become a run of new tables, cut at the target size. */
module CompactionMerge {
  import opened Bytes
  import opened Block
  import opened Merge
  import opened Versions

  /** A table file and the entries in it. */
  datatype Table = Table(meta: FileMeta, es: seq<Entry>)

  /** The entries of each file number. */
  type Disk = map<nat, seq<Entry>>

  /** The metadata tells the truth about a non-empty sorted table. */
  ghost predicate MetaOf(f: FileMeta, es: seq<Entry>) {
    && es != [] && Sorted(es) && es[0].key != []
    && f.smallest == es[0].key && f.largest == es[|es| - 1].key
  }

  function Flat(outs: seq<Table>): seq<Entry> {
    if outs == [] then [] else Flat(outs[..|outs| - 1]) + outs[|outs| - 1].es
  }

  function Metas(outs: seq<Table>): (r: seq<FileMeta>)
    ensures |r| == |outs| && forall i :: 0 <= i < |outs| ==> r[i] == outs[i].meta
  {
    seq(|outs|, i requires 0 <= i < |outs| => outs[i].meta)
  }

  /** The bytes that the output size counts. */
  function Payload(es: seq<Entry>): nat {
    if es == [] then 0 else Payload(es[..|es| - 1]) + |es[|es| - 1].key| + |es[|es| - 1].value|
  }

  /** A table is closed once it has reached the target: with its last entry, not before. */
  ghost predicate CutAt(outs: seq<Table>, target: nat) {
    forall i :: 0 <= i < |outs| ==> Filling(outs[i].es, target) && Payload(outs[i].es) >= target
  }

  /** Still below the target before the last entry. */
  predicate Filling(es: seq<Entry>, target: nat) {
    es != [] && Payload(es[..|es| - 1]) < target
  }

  /** Finished outputs: with the file numbers allocated one after the other, in the output level, in
      order of their ranges. */
  ghost predicate OutputsOk(outs: seq<Table>, level: nat, nums: nat -> nat) {
    && InOrder(Metas(outs))
    && forall i :: 0 <= i < |outs| ==>
         MetaOf(outs[i].meta, outs[i].es) && outs[i].meta.level == level && outs[i].meta.fileNum == nums(i)
  }

  lemma {:induction false} FlatAppend(outs: seq<Table>, t: Table)
    ensures Flat(outs + [t]) == Flat(outs) + t.es
  {
  }

  lemma {:induction false} LastInFlat(outs: seq<Table>, i: nat) returns (k: nat)
    requires i < |outs| && outs[i].es != []
    ensures k < |Flat(outs)| && Flat(outs)[k] == outs[i].es[|outs[i].es| - 1]
  {
    var n := |outs| - 1;
    if i < n {
      k := LastInFlat(outs[..n], i);
    } else {
      k := |Flat(outs)| - 1;
    }
  }

  lemma {:induction false} SortedPart(a: seq<Entry>, b: seq<Entry>)
    requires Sorted(a + b)
    ensures Sorted(b)
    ensures forall i :: 0 <= i < |a| && b != [] ==> Less(a[i].key, b[0].key)
  {
    hide Less;
    var ab := a + b;
    assert forall i :: 0 <= i < |b| ==> b[i] == ab[|a| + i];
    assert forall i :: 0 <= i < |a| ==> a[i] == ab[i];
  }

  /** Closing the current table adds it at the end of the outputs. */
  lemma {:induction false} CloseTable(outs: seq<Table>, t: Table, level: nat, nums: nat -> nat)
    requires OutputsOk(outs, level, nums) && Sorted(Flat(outs) + t.es) && t.es != [] && t.es[0].key != []
    requires t.meta.smallest == t.es[0].key && t.meta.largest == t.es[|t.es| - 1].key
    requires t.meta.level == level && t.meta.fileNum == nums(|outs|)
    ensures OutputsOk(outs + [t], level, nums)
  {
    hide Less, Sorted, RangeOk;
    SortedPart(Flat(outs), t.es);
    TableRange(t);
    forall i | 0 <= i < |outs|
      ensures Less(outs[i].meta.largest, t.meta.smallest)
    {
      var k := LastInFlat(outs, i);
    }
  }

  lemma {:induction false} TableRange(t: Table)
    requires MetaOf(t.meta, t.es)
    ensures RangeOk(t.meta)
  {
  }

  /** The merge loop of runCompaction. Nums are the file numbers it is given, sizes the
      byte sizes that closing a file reports. */
  method MergeTables(iters: seq<Cursor>, level: nat, target: nat, nums: nat -> nat, sizes: nat -> nat)
    returns (outs: seq<Table>)
    requires forall i :: 0 <= i < |iters| ==> Sorted(iters[i].es) && KeysNonEmpty(iters[i].es)
    requires target > 0
    ensures Sorted(Flat(outs)) && ToMap(Flat(outs)) == Merged(AtStart(iters))
    ensures OutputsOk(outs, level, nums)
    ensures outs != [] ==> CutAt(outs[..|outs| - 1], target) && Filling(outs[|outs| - 1].es, target)
    ensures |Flat(outs)| <= Remaining(AtStart(iters))
    ensures forall i :: 0 <= i < |outs| ==> outs[i].meta.size == sizes(outs[i].meta.fileNum)
  {
    hide Merged, ToMap, Sorted, Remaining, MergeIterator.Valid, Flat, Payload, OutputsOk, CutAt, Scanned, Less, AtStart,
         KeysNonEmpty;
    ghost var all := Merged(AtStart(iters));
    ghost var done: seq<Entry> := [];
    EmptyScan();
    NoKeyEmpty(iters);
    outs := [];
    var open, es, size := false, [], 0;
    var m := new MergeIterator(iters);
    var ok := m.First();
    NothingYet(level, nums, target);
    while m.IsValid()
      invariant m.Valid() && ok == m.IsValid() == (m.View() != map[])
      invariant Scanned(done, m.View(), all) && done == Flat(outs) + es && [] !in m.View()
      invariant |done| + Remaining(m.iters) <= Remaining(AtStart(iters))
      invariant OutputsOk(outs, level, nums) && CutAt(outs, target)
      invariant forall i :: 0 <= i < |outs| ==> outs[i].meta.size == sizes(outs[i].meta.fileNum)
      invariant if open then Filling(es, target) && size == Payload(es) && es[0].key != [] else outs == [] && es == []
      decreases Remaining(m.iters)
    {
      m.Current();
      var e := Entry(m.Key(), m.Value());
      ScanStep(done, m.View(), all, e.key, e.value);
      if !open || size >= target {
        if open {
          ghost var before := outs;
          outs := FinishOutput(outs, es, level, nums, sizes, done, m.View(), all);
          CutMore(before, outs, target);
        }
        open, es, size := true, [], 0;
      }
      PayloadMore(es, e);
      es, size := es + [e], size + |e.key| + |e.value|;
      done := done + [e];
      ok := m.Next();
    }
    if open {
      ghost var closed := outs;
      outs := FinishOutput(outs, es, level, nums, sizes, done, m.View(), all);
      assert outs[..|outs| - 1] == closed;
    }
    ScannedAll(done, m.View(), all);
  }

  ghost predicate KeysNonEmpty(es: seq<Entry>) {
    forall i :: 0 <= i < |es| ==> es[i].key != []
  }

  lemma {:induction false} NoKeyEmpty(iters: seq<Cursor>)
    requires forall i :: 0 <= i < |iters| ==> KeysNonEmpty(iters[i].es)
    ensures [] !in Merged(AtStart(iters))
  {
    hide Merged, ToMap;
    if [] in Merged(AtStart(iters)) {
      var i := MergedHas(AtStart(iters), []);
      InToMap(AtStart(iters)[i].Rest(), []);
      assert false;
    }
  }

  lemma {:induction false} NothingYet(level: nat, nums: nat -> nat, target: nat)
    ensures OutputsOk([], level, nums) && CutAt([], target) && Flat([]) == [] && Payload([]) == 0
  {
  }

  lemma {:induction false} PayloadMore(es: seq<Entry>, e: Entry)
    ensures Payload(es + [e]) == Payload(es) + |e.key| + |e.value| && (es + [e])[..|es|] == es
  {
  }

  lemma {:induction false} ScannedAll(es: seq<Entry>, view: map<bytes, bytes>, all: map<bytes, bytes>)
    requires Scanned(es, view, all) && view == map[]
    ensures Sorted(es) && ToMap(es) == all
  {
  }

  lemma {:induction false} ScannedSorted(es: seq<Entry>, view: map<bytes, bytes>, all: map<bytes, bytes>)
    requires Scanned(es, view, all)
    ensures Sorted(es)
  {
  }

  /** finishOutput */
  method FinishOutput(outs: seq<Table>, es: seq<Entry>, level: nat, nums: nat -> nat, sizes: nat -> nat,
                   ghost done: seq<Entry>, ghost view: map<bytes, bytes>, ghost all: map<bytes, bytes>)
    returns (r: seq<Table>)
    requires OutputsOk(outs, level, nums) && es != [] && es[0].key != []
    requires Scanned(done, view, all) && done == Flat(outs) + es
    ensures OutputsOk(r, level, nums) && Flat(r) == done
    ensures |r| == |outs| + 1 && r[..|outs|] == outs && r[|outs|].es == es
    ensures r[|outs|].meta == FileMeta(nums(|outs|), level, sizes(nums(|outs|)), es[0].key, es[|es| - 1].key)
  {
    hide OutputsOk, Scanned, Flat, Sorted;
    var num := nums(|outs|);
    var meta := FileMeta(num, level, sizes(num), es[0].key, es[|es| - 1].key);
    ScannedSorted(done, view, all);
    CloseTable(outs, Table(meta, es), level, nums);
    FlatAppend(outs, Table(meta, es));
    r := outs + [Table(meta, es)];
  }

  /** A full table goes to the finished ones. */
  lemma {:induction false} CutMore(outs: seq<Table>, r: seq<Table>, target: nat)
    requires CutAt(outs, target) && |r| == |outs| + 1 && r[..|outs|] == outs
    requires Filling(r[|outs|].es, target) && Payload(r[|outs|].es) >= target
    ensures CutAt(r, target)
  {
  }
}
