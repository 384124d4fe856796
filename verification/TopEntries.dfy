/** The heap from which the packages with the most dependents are taken. */
module TopEntries {
  import opened Wrappers
  import opened Petgraph
  import opened GraphModel
  import opened GraphQueries

  datatype HeapEntry = HeapEntry(pkgIndex: nat, rdepCount: nat)

  ghost function Entry(st: State, i: nat): HeapEntry
    requires i < |st.names|
  {
    HeapEntry(i, |Dependents(st, st.names[i])|)
  }

  /** The entries carry the numbers of dependents of the packages they stand for. */
  ghost predicate Counted(st: State, heap: set<HeapEntry>) {
    forall h | h in heap :: h.pkgIndex < |st.names| && h == Entry(st, h.pkgIndex)
  }

  lemma {:induction false} GreatestEntry(heap: set<HeapEntry>) returns (he: HeapEntry)
    requires heap != {}
    ensures he in heap && forall h | h in heap :: h.rdepCount <= he.rdepCount
    decreases |heap|
  {
    he :| he in heap;
    if heap != {he} {
      assert heap - {he} != {};
      var other := GreatestEntry(heap - {he});
      if other.rdepCount > he.rdepCount {
        he := other;
      }
    }
  }

  lemma HeapSize(st: State, heap: set<HeapEntry>)
    requires Counted(st, heap)
    requires forall i: nat | i < |st.names| :: Entry(st, i) in heap
    ensures |heap| == |st.names|
  {
    var ids := set h | h in heap :: h.pkgIndex as int;
    forall i | 0 <= i < |st.names|
      ensures i in ids
    {
      assert Entry(st, i) in heap;
    }
    assert ids == Below(|st.names|);
    EntriesPerIndex(st, heap);
  }

  lemma {:induction false} EntriesPerIndex(st: State, heap: set<HeapEntry>)
    requires Counted(st, heap)
    ensures |set h | h in heap :: h.pkgIndex as int| == |heap|
    decreases |heap|
  {
    if heap != {} {
      var he :| he in heap;
      EntriesPerIndex(st, heap - {he});
      var ids := set h | h in heap :: h.pkgIndex as int;
      var rest := set h | h in heap - {he} :: h.pkgIndex as int;
      assert ids == rest + {he.pkgIndex as int};
    }
  }

  function Named(names: seq<string>, hs: seq<HeapEntry>): (r: seq<(string, nat)>)
    requires forall h | h in hs :: h.pkgIndex < |names|
    ensures |r| == |hs| && forall i | 0 <= i < |hs| :: hs[i] in hs && r[i] == (names[hs[i].pkgIndex], hs[i].rdepCount)
  {
    seq(|hs|, i requires 0 <= i < |hs| => assert hs[i] in hs; (names[hs[i].pkgIndex], hs[i].rdepCount))
  }

  lemma NamedAppend(names: seq<string>, hs: seq<HeapEntry>, he: HeapEntry)
    requires (forall h | h in hs :: h.pkgIndex < |names|) && he.pkgIndex < |names|
    ensures forall h | h in hs + [he] :: h.pkgIndex < |names|
    ensures Named(names, hs + [he]) == Named(names, hs) + [(names[he.pkgIndex], he.rdepCount)]
  {
  }

  /** `popped` came off the heap greatest first, and `heap` is what is left. */
  ghost predicate Popped(entries: set<HeapEntry>, heap: set<HeapEntry>, popped: seq<HeapEntry>) {
    && Distinct(popped) && |popped| + |heap| == |entries|
    && (forall h :: h in entries <==> h in popped || h in heap)
    && (forall i, j | 0 <= i < j < |popped| :: popped[i].rdepCount >= popped[j].rdepCount)
    && (forall h, i | h in heap && 0 <= i < |popped| :: popped[i].rdepCount >= h.rdepCount && popped[i] != h)
  }

  lemma PopStep(entries: set<HeapEntry>, heap: set<HeapEntry>, popped: seq<HeapEntry>, he: HeapEntry)
    requires Popped(entries, heap, popped)
    requires he in heap && forall h | h in heap :: h.rdepCount <= he.rdepCount
    ensures Popped(entries, heap - {he}, popped + [he])
  {
    var more := popped + [he];
    assert forall i | 0 <= i < |popped| :: more[i] == popped[i];
    assert forall h :: h in more <==> h in popped || h == he;
  }

  /** Pops entries until there are `max` of them or the heap is empty. */
  method Drain(ghost st: State, names: seq<string>, entries: set<HeapEntry>, max: nat) returns (v: seq<(string, nat)>)
    requires st.names == names && Distinct(names) && Counted(st, entries)
    requires forall i: nat | i < |names| :: Entry(st, i) in entries
    ensures TopList(st, max, v)
  {
    var heap, i := entries, 0;
    v := [];
    ghost var popped: seq<HeapEntry> := [];
    while i < max && heap != {}
      invariant i == |popped| <= max && Popped(entries, heap, popped)
      invariant v == Named(names, popped)
      decreases |heap|
    {
      ghost var best := GreatestEntry(heap);
      var he :| he in heap && forall h | h in heap :: h.rdepCount <= he.rdepCount;
      PopStep(entries, heap, popped, he);
      NamedAppend(names, popped, he);
      heap := heap - {he};
      popped := popped + [he];
      v := v + [(names[he.pkgIndex], he.rdepCount)];
      i := i + 1;
    }
    HeapSize(st, entries);
    DrainedIsTop(st, entries, heap, popped, max);
  }

  lemma PoppedIsListed(names: seq<string>, popped: seq<HeapEntry>, h: HeapEntry)
    requires (forall x | x in popped :: x.pkgIndex < |names|) && h in popped
    ensures names[h.pkgIndex] in Firsts(Named(names, popped))
  {
    var j :| 0 <= j < |popped| && popped[j] == h;
    assert Firsts(Named(names, popped))[j] == names[h.pkgIndex];
  }

  lemma PoppedDistinct(names: seq<string>, popped: seq<HeapEntry>)
    requires Distinct(names) && (forall x | x in popped :: x.pkgIndex < |names|)
    requires forall i, j | 0 <= i < j < |popped| :: popped[i].pkgIndex != popped[j].pkgIndex
    ensures Distinct(Firsts(Named(names, popped)))
  {
  }

  /** What is left in the heap has no more dependents than anything listed. */
  lemma NoneBetter(st: State, entries: set<HeapEntry>, heap: set<HeapEntry>, popped: seq<HeapEntry>, s: Name, i: nat)
    requires Counted(st, entries) && Popped(entries, heap, popped) && forall h | h in popped :: h.pkgIndex < |st.names|
    requires forall i: nat | i < |st.names| :: Entry(st, i) in entries
    requires s in st.names && s !in Firsts(Named(st.names, popped)) && i < |popped|
    ensures |Dependents(st, s)| <= popped[i].rdepCount
  {
    var k: nat :| k < |st.names| && st.names[k] == s;
    var h := Entry(st, k);
    if h in popped {
      PoppedIsListed(st.names, popped, h);
    }
    assert h in heap;
  }

  lemma DrainedIsTop(st: State, entries: set<HeapEntry>, heap: set<HeapEntry>, popped: seq<HeapEntry>, max: nat)
    requires Distinct(st.names) && Counted(st, entries) && |entries| == |st.names|
    requires forall i: nat | i < |st.names| :: Entry(st, i) in entries
    requires Popped(entries, heap, popped) && |popped| <= max && (|popped| == max || heap == {})
    ensures (forall h | h in popped :: h in entries) && TopList(st, max, Named(st.names, popped))
  {
    var v := Named(st.names, popped);
    forall i, j | 0 <= i < j < |popped|
      ensures popped[i].pkgIndex != popped[j].pkgIndex
    {
      assert popped[i] in popped && popped[j] in popped;
    }
    PoppedDistinct(st.names, popped);
    forall s, i | s in st.names && s !in Firsts(v) && 0 <= i < |v|
      ensures |Dependents(st, s)| <= v[i].1
    {
      NoneBetter(st, entries, heap, popped, s, i);
    }
  }
}
