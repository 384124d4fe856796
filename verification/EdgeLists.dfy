/**
 Lists of edges in insertion order, with the queries and removals the graph library
 offers on them.  Its adjacency lists are walked newest edge first, and removing an
 edge leaves the order of the others alone.
 */
module EdgeLists {
  import opened Wrappers
  import opened Digraph

  /** The sources of the edges into `v`, one entry per edge, newest first. */
  function Incoming<V(==)>(es: seq<(V, V)>, v: V): seq<V>
  {
    if es == [] then []
    else
      var front, last := es[..|es| - 1], es[|es| - 1];
      (if last.1 == v then [last.0] else []) + Incoming(front, v)
  }

  /** The edges that do not lead into `v`. */
  function Without<V(==)>(es: seq<(V, V)>, v: V): seq<(V, V)>
  {
    if es == [] then []
    else
      var front, last := es[..|es| - 1], es[|es| - 1];
      Without(front, v) + (if last.1 == v then [] else [last])
  }

  lemma {:induction false} IncomingMembers<V(!new)>(es: seq<(V, V)>, v: V)
    ensures forall u :: u in Incoming(es, v) <==> (u, v) in es
  {
    if es != [] {
      var front := es[..|es| - 1];
      IncomingMembers(front, v);
      assert es == front + [es[|es| - 1]];
    }
  }

  lemma {:induction false} WithoutMembers<V(!new)>(es: seq<(V, V)>, v: V)
    ensures forall e :: e in Without(es, v) <==> e in es && e.1 != v
  {
    if es != [] {
      var front := es[..|es| - 1];
      WithoutMembers(front, v);
      assert es == front + [es[|es| - 1]];
    }
  }

  lemma WithoutSubset<V(!new)>(es: seq<(V, V)>, v: V)
    ensures Rel(Without(es, v)) <= Rel(es)
    ensures forall e | e in Without(es, v) :: e in es && e.1 != v
  {
    WithoutMembers(es, v);
  }

  /** One edge into `v` from each of `us`. */
  function EdgesTo<V>(us: seq<V>, v: V): (r: seq<(V, V)>)
    ensures |r| == |us| && forall i | 0 <= i < |us| :: r[i] == (us[i], v)
  {
    seq(|us|, i requires 0 <= i < |us| => (us[i], v))
  }

  /** The sources of the edges into `v`, oldest first. */
  function Sources<V(==)>(es: seq<(V, V)>, v: V): seq<V> {
    if es == [] then []
    else
      var front, last := es[..|es| - 1], es[|es| - 1];
      Sources(front, v) + (if last.1 == v then [last.0] else [])
  }

  lemma {:induction false} SourcesAppend<V>(es: seq<(V, V)>, fs: seq<(V, V)>, v: V)
    ensures Sources(es + fs, v) == Sources(es, v) + Sources(fs, v)
  {
    if fs == [] {
      assert es + fs == es;
    } else {
      var all, front, last := es + fs, fs[..|fs| - 1], fs[|fs| - 1];
      assert all[..|all| - 1] == es + front && all[|all| - 1] == last;
      SourcesAppend(es, front, v);
      var tail := if last.1 == v then [last.0] else [];
      assert Sources(es, v) + (Sources(front, v) + tail) == (Sources(es, v) + Sources(front, v)) + tail;
    }
  }

  lemma {:induction false} SourcesWithout<V>(es: seq<(V, V)>, u: V, v: V)
    ensures Sources(Without(es, u), v) == if u == v then [] else Sources(es, v)
  {
    if es != [] {
      var front, last := es[..|es| - 1], es[|es| - 1];
      SourcesWithout(front, u, v);
      if last.1 != u {
        assert Without(es, u) == Without(front, u) + [last];
        SourcesAppend(Without(front, u), [last], v);
        assert Sources([last], v) == if last.1 == v then [last.0] else [];
      } else {
        assert Without(es, u) == Without(front, u);
      }
    }
  }

  lemma {:induction false} SourcesEdgesTo<V>(us: seq<V>, u: V, v: V)
    ensures Sources(EdgesTo(us, u), v) == if u == v then us else []
  {
    if us != [] {
      var front := us[..|us| - 1];
      SourcesEdgesTo(front, u, v);
      assert EdgesTo(us, u)[..|us| - 1] == EdgesTo(front, u);
    }
  }

  lemma {:induction false} SourcesMembers<V(!new)>(es: seq<(V, V)>, v: V)
    ensures forall u :: u in Sources(es, v) <==> (u, v) in es
  {
    if es != [] {
      var front := es[..|es| - 1];
      SourcesMembers(front, v);
      assert es == front + [es[|es| - 1]];
    }
  }

  /** The newest edge from `a` to `b`. */
  function FindEdge<V(==)>(es: seq<(V, V)>, a: V, b: V): (r: Option<nat>)
    ensures r.None? ==> (a, b) !in es
    ensures r.Some? ==> r.value < |es| && es[r.value] == (a, b) && (a, b) !in es[r.value + 1..]
  {
    if es == [] then None
    else if es[|es| - 1] == (a, b) then Some(|es| - 1)
    else
      var front := es[..|es| - 1];
      assert es == front + [es[|es| - 1]];
      var r := FindEdge(front, a, b);
      assert r.Some? ==> es[r.value + 1..] == front[r.value + 1..] + [es[|es| - 1]];
      r
  }

  function RemoveEdge<V>(es: seq<(V, V)>, i: nat): (r: seq<(V, V)>)
    requires i < |es|
    ensures multiset(r) == multiset(es) - multiset{es[i]}
  {
    assert es == es[..i] + [es[i]] + es[i + 1..];
    es[..i] + es[i + 1..]
  }

  lemma {:induction false} WithoutAppend<V>(es: seq<(V, V)>, fs: seq<(V, V)>, v: V)
    ensures Without(es + fs, v) == Without(es, v) + Without(fs, v)
  {
    if fs == [] {
      assert es + fs == es;
    } else {
      var all, front, last := es + fs, fs[..|fs| - 1], fs[|fs| - 1];
      assert all[..|all| - 1] == es + front && all[|all| - 1] == last;
      WithoutAppend(es, front, v);
      var tail := if last.1 == v then [] else [last];
      assert Without(es, v) + (Without(front, v) + tail) == (Without(es, v) + Without(front, v)) + tail;
    }
  }

  lemma {:induction false} IncomingAppend<V>(es: seq<(V, V)>, fs: seq<(V, V)>, v: V)
    ensures Incoming(es + fs, v) == Incoming(fs, v) + Incoming(es, v)
  {
    if fs == [] {
      assert es + fs == es;
    } else {
      var all, front, last := es + fs, fs[..|fs| - 1], fs[|fs| - 1];
      assert all[..|all| - 1] == es + front && all[|all| - 1] == last;
      IncomingAppend(es, front, v);
      var head := if last.1 == v then [last.0] else [];
      assert head + (Incoming(front, v) + Incoming(es, v)) == (head + Incoming(front, v)) + Incoming(es, v);
    }
  }

  lemma {:induction false} NothingIncoming<V>(es: seq<(V, V)>, v: V)
    requires Incoming(es, v) == []
    ensures Without(es, v) == es
  {
    if es != [] {
      NothingIncoming(es[..|es| - 1], v);
    }
  }

  lemma {:induction false} NewestIndex<V>(es: seq<(V, V)>, v: V) returns (i: nat)
    requires Incoming(es, v) != []
    ensures i < |es| && es[i] == (Incoming(es, v)[0], v)
    ensures forall j | i < j < |es| :: es[j].1 != v
  {
    if es[|es| - 1].1 == v {
      i := |es| - 1;
    } else {
      i := NewestIndex(es[..|es| - 1], v);
    }
  }

  lemma {:induction false} NoneInto<V>(es: seq<(V, V)>, v: V)
    requires forall j | 0 <= j < |es| :: es[j].1 != v
    ensures Incoming(es, v) == []
  {
    if es != [] {
      NoneInto(es[..|es| - 1], v);
    }
  }

  lemma FindNewest<V>(es: seq<(V, V)>, v: V, i: nat)
    requires i < |es| && es[i].1 == v
    requires forall j | i < j < |es| :: es[j].1 != v
    ensures FindEdge(es, es[i].0, v) == Some(i)
  {
    assert es[i] in es;
  }

  lemma RemoveFromIncoming<V>(pre: seq<(V, V)>, e: (V, V), post: seq<(V, V)>, v: V)
    requires e.1 == v && Incoming(post, v) == []
    ensures Incoming(pre + [e] + post, v) == [e.0] + Incoming(pre + post, v)
  {
    IncomingAppend(pre + [e], post, v);
    IncomingAppend(pre, [e], v);
    IncomingAppend(pre, post, v);
    assert Incoming([e], v) == [e.0];
  }

  lemma RemoveFromWithout<V>(pre: seq<(V, V)>, e: (V, V), post: seq<(V, V)>, v: V)
    requires e.1 == v
    ensures Without(pre + [e] + post, v) == Without(pre + post, v)
  {
    WithoutAppend(pre + [e], post, v);
    WithoutAppend(pre, [e], v);
    WithoutAppend(pre, post, v);
    assert Without([e], v) == [];
  }

  /** Removing the newest edge into `v` takes exactly the head off the incoming list. */
  lemma RemoveNewest<V>(es: seq<(V, V)>, v: V) returns (i: nat)
    requires Incoming(es, v) != []
    ensures FindEdge(es, Incoming(es, v)[0], v) == Some(i) && i < |es|
    ensures Incoming(RemoveEdge(es, i), v) == Incoming(es, v)[1..]
    ensures Without(RemoveEdge(es, i), v) == Without(es, v)
  {
    i := NewestIndex(es, v);
    FindNewest(es, v, i);
    var pre, e, post := es[..i], es[i], es[i + 1..];
    NoneInto(post, v);
    assert es == pre + [e] + post;
    RemoveFromIncoming(pre, e, post, v);
    RemoveFromWithout(pre, e, post, v);
  }

  lemma MultisetBetween<T>(a: seq<T>, x: T, b: seq<T>)
    ensures multiset(a + [x] + b) == multiset(a + b) + multiset{x}
    ensures multiset(a + ([x] + b)) == multiset(a + b) + multiset{x}
  {
    assert a + [x] + b == a + ([x] + b);
  }

  /** The last edge stays where it is, or becomes the first of those put back. */
  lemma SplitLast<V>(es: seq<(V, V)>, v: V)
    requires es != []
    ensures
      var front, last := es[..|es| - 1], es[|es| - 1];
      && Without(es, v) == Without(front, v) + (if last.1 == v then [] else [last])
      && EdgesTo(Incoming(es, v), v) == (if last.1 == v then [last] else []) + EdgesTo(Incoming(front, v), v)
  {
  }

  lemma MultisetSplit<T>(out: seq<T>, into: seq<T>, last: T, first: bool, x: seq<T>, y: seq<T>)
    requires x == out + (if first then [] else [last]) && y == (if first then [last] else []) + into
    ensures multiset(x + y) == multiset(out + into) + multiset{last}
  {
    MultisetBetween(out, last, into);
    if first {
      assert x == out;
    } else {
      assert y == into;
    }
  }

  ghost function MovedBack<V>(es: seq<(V, V)>, v: V): multiset<(V, V)> {
    multiset(Without(es, v) + EdgesTo(Incoming(es, v), v))
  }

  lemma MovedLast<V>(es: seq<(V, V)>, v: V)
    requires es != []
    ensures MovedBack(es, v) == MovedBack(es[..|es| - 1], v) + multiset{es[|es| - 1]}
  {
    var front, last := es[..|es| - 1], es[|es| - 1];
    SplitLast(es, v);
    MultisetSplit(Without(front, v), EdgesTo(Incoming(front, v), v), last, last.1 == v,
                  Without(es, v), EdgesTo(Incoming(es, v), v));
  }

  lemma {:induction false} MovedAll<V>(es: seq<(V, V)>, v: V)
    ensures MovedBack(es, v) == multiset(es)
  {
    if es == [] {
      assert Without(es, v) + EdgesTo(Incoming(es, v), v) == es;
    } else {
      MovedAll(es[..|es| - 1], v);
      MovedLast(es, v);
      assert es == es[..|es| - 1] + [es[|es| - 1]];
    }
  }

  /** Taking the edges into `v` out and putting them back at the end loses nothing. */
  lemma SplitMultiset<V>(es: seq<(V, V)>, v: V)
    ensures multiset(Without(es, v) + EdgesTo(Incoming(es, v), v)) == multiset(es)
  {
    MovedAll(es, v);
  }

  lemma RemoveNext<V>(es: seq<(V, V)>, v: V, ns: seq<V>, k: nat) returns (i: nat)
    requires k < |ns| && Incoming(es, v) == ns[k..]
    ensures FindEdge(es, ns[k], v) == Some(i) && i < |es|
    ensures Incoming(RemoveEdge(es, i), v) == ns[k + 1..]
    ensures Without(RemoveEdge(es, i), v) == Without(es, v)
  {
    assert ns[k..][0] == ns[k] && ns[k..][1..] == ns[k + 1..];
    i := RemoveNewest(es, v);
  }

  /** Removes the edges into `v` one by one and reports where they came from. */
  method Detach<V(==)>(es: seq<(V, V)>, v: V) returns (rest: seq<(V, V)>, saved: seq<V>)
    ensures rest == Without(es, v)
    ensures saved == Incoming(es, v)
  {
    rest, saved := es, Incoming(es, v);
    for k := 0 to |saved|
      invariant Incoming(rest, v) == saved[k..]
      invariant Without(rest, v) == Without(es, v)
    {
      ghost var i := RemoveNext(rest, v, saved, k);
      var e := FindEdge(rest, saved[k], v);
      rest := RemoveEdge(rest, e.value);
    }
    NothingIncoming(rest, v);
  }

  lemma RemoveInTail<V>(base: seq<(V, V)>, tail: seq<(V, V)>, n: nat)
    requires n < |tail|
    ensures RemoveEdge(base + tail, |base| + n) == base + RemoveEdge(tail, n)
  {
    var es, i := base + tail, |base| + n;
    assert es[..i] == base + tail[..n] && es[i + 1..] == tail[n + 1..];
  }

  lemma {:induction false} FoundInTail<V>(base: seq<(V, V)>, tail: seq<(V, V)>, a: V, b: V)
    requires FindEdge(tail, a, b).Some?
    ensures FindEdge(base + tail, a, b) == Some(|base| + FindEdge(tail, a, b).value)
  {
    var es, front := base + tail, tail[..|tail| - 1];
    assert es[|es| - 1] == tail[|tail| - 1] && es[..|es| - 1] == base + front;
    if tail[|tail| - 1] != (a, b) {
      FoundInTail(base, front, a, b);
    }
  }

  /** The newest edge of a kind is found among the edges added last. */
  lemma FindInTail<V>(base: seq<(V, V)>, tail: seq<(V, V)>, a: V, b: V) returns (i: nat)
    requires (a, b) in tail
    ensures FindEdge(base + tail, a, b) == Some(i) && |base| <= i < |base + tail|
    ensures tail[i - |base|] == (a, b)
    ensures RemoveEdge(base + tail, i) == base + RemoveEdge(tail, i - |base|)
  {
    var n := FindEdge(tail, a, b).value;
    FoundInTail(base, tail, a, b);
    RemoveInTail(base, tail, n);
    i := |base| + n;
  }

  /** Takes back edges that were added last, in the order they were added. */
  method Undo<V(==)>(es: seq<(V, V)>, ghost base: seq<(V, V)>, us: seq<V>, v: V) returns (rest: seq<(V, V)>)
    requires es == base + EdgesTo(us, v)
    ensures rest == base
  {
    rest := es;
    ghost var tail := EdgesTo(us, v);
    assert us[0..] == us;
    for k := 0 to |us|
      invariant rest == base + tail
      invariant multiset(tail) == multiset(EdgesTo(us[k..], v))
    {
      assert EdgesTo(us[k..], v) == [(us[k], v)] + EdgesTo(us[k + 1..], v);
      assert (us[k], v) in multiset(tail);
      ghost var i := FindInTail(base, tail, us[k], v);
      var e := FindEdge(rest, us[k], v);
      rest := RemoveEdge(rest, e.value);
      tail := RemoveEdge(tail, i - |base|);
    }
    assert multiset(tail) == multiset{};
    assert tail == [];
  }

  method Attach<V>(es: seq<(V, V)>, us: seq<V>, v: V) returns (r: seq<(V, V)>)
    ensures r == es + EdgesTo(us, v)
  {
    r := es;
    for k := 0 to |us|
      invariant r == es + EdgesTo(us[..k], v)
    {
      assert EdgesTo(us[..k + 1], v) == EdgesTo(us[..k], v) + [(us[k], v)];
      r := r + [(us[k], v)];
    }
    assert us[..|us|] == us;
  }
}
