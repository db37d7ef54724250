/** Index lookups over pending and committed facts together, against a full scan. */
module Lookups {
  import opened Bytes
  import opened Facts
  import opened ValueEncoding
  import opened NetView
  import opened FactStore
  import opened IndexKeys
  import opened PackedPages
  import opened PendingLookups
  import opened CommittedLookups
  import T = BTreeModel

  /** The committed side of a store: fact pages from 1 on, and the roots of its two lookup indexes if there are any. */
  datatype Disk = Disk(pages: T.Pages, factPages: nat, index: Option<(nat, nat)>)

  ghost predicate DiskHolds(y: Formats, d: Disk, layout: seq<seq<Fact>>, et: T.Tree, at: T.Tree) {
    && |layout| == d.factPages && FactsAt(y.facts, d.pages, layout)
    && (forall i :: 0 <= i < |All(layout)| ==> All(layout)[i].txCount > 0)
    && (d.index.Some? ==>
         && Readable(y.eavt, y.facts, d.pages, d.index.value.0, layout, et, EavtKeyOf(y))
         && Readable(y.aevt, y.facts, d.pages, d.index.value.1, layout, at, AevtKeyOf(y)))
  }

  /** What one lookup finds. Without any index both sides are filtered; otherwise each index answers for its side. */
  ghost function FoundOne(committed: seq<Fact>, indexed: bool, pending: seq<Fact>, l: Lookup): set<Fact> {
    if pending == [] && !indexed then set f | f in Elems(committed) && Matches(l, f)
    else Found(pending, l) + if indexed then Elems(InIndexRange(committed, |committed|, l)) else {}
  }

  /** The matches among the first `n` facts, in order. */
  ghost function Filtered(facts: seq<Fact>, n: nat, l: Lookup): seq<Fact>
    requires n <= |facts|
  {
    if n == 0 then []
    else
      var before := Filtered(facts, n - 1, l);
      if Matches(l, facts[n - 1]) then before + [facts[n - 1]] else before
  }

  /** The answer to one lookup, in order: without any index the filtered facts, otherwise pending facts, then committed ones. */
  ghost predicate Answer(committed: seq<Fact>, indexed: bool, pending: seq<Fact>, l: Lookup, r: seq<Fact>) {
    if pending == [] && !indexed then r == Filtered(committed, |committed|, l)
    else exists p, q :: r == p + q && PendingAnswer(pending, l, p) && if indexed then CommittedAnswer(committed, l, q) else q == []
  }

  // ----- without an index -----

  method Filter(facts: seq<Fact>, l: Lookup) returns (r: seq<Fact>)
    ensures r == Filtered(facts, |facts|, l)
  {
    hide Matches;
    r := [];
    for n := 0 to |facts|
      invariant r == Filtered(facts, n, l)
    {
      if Matches(l, facts[n]) { r := r + [facts[n]]; }
    }
  }

  lemma {:induction false} FilteredElems(facts: seq<Fact>, n: nat, l: Lookup, f: Fact)
    requires n <= |facts|
    ensures f in Filtered(facts, n, l) <==> f in facts[..n] && Matches(l, f)
  {
    hide Matches;
    if n > 0 {
      FilteredElems(facts, n - 1, l, f);
      assert facts[..n] == facts[..n - 1] + [facts[n - 1]];
    }
  }

  lemma SameElems(a: seq<Fact>, b: seq<Fact>)
    requires multiset(a) == multiset(b)
    ensures Elems(a) == Elems(b)
  {
    forall f ensures f in Elems(a) <==> f in Elems(b) {
      assert f in Elems(a) <==> f in multiset(a);
      assert f in Elems(b) <==> f in multiset(b);
    }
  }

  /** What an answer holds. */
  lemma AnswerElems(committed: seq<Fact>, indexed: bool, pending: seq<Fact>, l: Lookup, r: seq<Fact>)
    requires Answer(committed, indexed, pending, l, r)
    ensures Elems(r) == FoundOne(committed, indexed, pending, l)
  {
    hide Found, InIndexRange, Filtered, Ascending, NotDescending, Matches;
    if pending == [] && !indexed {
      forall f ensures f in Elems(r) <==> f in Elems(committed) && Matches(l, f) {
        FilteredElems(committed, |committed|, l, f);
        assert committed[..|committed|] == committed;
        ElemsIn(r, f);
        ElemsIn(committed, f);
      }
    } else {
      var p, q :| r == p + q && PendingAnswer(pending, l, p) && if indexed then CommittedAnswer(committed, l, q) else q == [];
      hide Elems;
      ElemsConcat(p, q);
      if indexed { SameElems(q, InIndexRange(committed, |committed|, l)); } else { NoElems(); }
    }
  }

  lemma ElemsConcat(a: seq<Fact>, b: seq<Fact>)
    ensures Elems(a + b) == Elems(a) + Elems(b)
  {
    var all := a + b;
    forall f ensures f in Elems(all) <==> f in Elems(a) + Elems(b) {
      if f in Elems(a) {
        var i :| 0 <= i < |a| && a[i] == f;
        assert all[i] == f;
      }
      if f in Elems(b) {
        var i :| 0 <= i < |b| && b[i] == f;
        assert all[|a| + i] == f;
      }
    }
  }

  /** Stream every committed fact. */
  method StreamAll(y: Formats, d: Disk, ghost layout: seq<seq<Fact>>) returns (r: Option<seq<Fact>>)
    requires y.Valid() && |layout| == d.factPages && FactsAt(y.facts, d.pages, layout)
    ensures r == Some(All(layout))
  {
    var pages: seq<seq<byte>> := [];
    for k := 0 to d.factPages
      invariant |pages| == k && forall j :: 0 <= j < k ==> PackedHolds(y.facts, pages[j], layout[j])
    {
      assert PageAt(y.facts, d.pages, k + 1, layout[k]);
      pages := pages + [d.pages[k + 1]];
    }
    LaidReads(y.facts, pages, layout, |layout|);
    assert layout[..|layout|] == layout;
    var all := ReadAllWithRefs(y.facts, pages, 1);
    r := Some(all.value.0);
  }

  // ----- lookups -----

  method FetchOne(y: Formats, d: Disk, pending: seq<Fact>, eavt: map<EavtKey, nat>, aevt: map<AevtKey, nat>, l: Lookup,
                  ghost layout: seq<seq<Fact>>, ghost et: T.Tree, ghost at: T.Tree)
    returns (r: Option<seq<Fact>>)
    requires y.Valid() && DiskHolds(y, d, layout, et, at)
    requires eavt == Index(pending, |pending|, Eavt) && aevt == Index(pending, |pending|, Aevt)
    ensures r.None? <==> Panics(pending, l)
    ensures r.Some? ==> Answer(All(layout), d.index.Some?, pending, l, r.value)
  {
    hide PendingAnswer, CommittedAnswer, Filtered, Readable, FactsUpto, Index, Reversed;
    EmptyIndex(pending);
    if eavt == map[] && d.index.None? {
      var all := StreamAll(y, d, layout);
      var some := Filter(all.value, l);
      return Some(some);
    }
    var p := FetchPending(pending, eavt, aevt, l);
    if p.None? { return None; }
    var q: seq<Fact> := [];
    if d.index.Some? {
      q := FetchCommitted(y, d.pages, d.index.value.0, d.index.value.1, l, layout, et, at);
    }
    r := Some(p.value + q);
  }

  lemma NoElems()
    ensures Elems([]) == {}
  {}

  ghost function FoundAny(committed: seq<Fact>, indexed: bool, pending: seq<Fact>, ls: seq<Lookup>, n: nat): set<Fact>
    requires n <= |ls|
  {
    if n == 0 then {} else FoundAny(committed, indexed, pending, ls, n - 1) + FoundOne(committed, indexed, pending, ls[n - 1])
  }

  /** The first `n` parts, one after the other. */
  function Joined(parts: seq<seq<Fact>>, n: nat): seq<Fact>
    requires n <= |parts|
  {
    if n == 0 then [] else Joined(parts, n - 1) + parts[n - 1]
  }

  /** One answer for each lookup. */
  ghost predicate Answers(committed: seq<Fact>, indexed: bool, pending: seq<Fact>, ls: seq<Lookup>, parts: seq<seq<Fact>>, n: nat)
    requires n <= |parts| && n <= |ls|
  {
    forall i :: 0 <= i < n ==> Answer(committed, indexed, pending, ls[i], parts[i])
  }

  lemma {:induction false} JoinedPrefix(parts: seq<seq<Fact>>, part: seq<Fact>, n: nat)
    requires n <= |parts|
    ensures Joined(parts + [part], n) == Joined(parts, n)
  {
    if n > 0 { JoinedPrefix(parts, part, n - 1); }
  }

  lemma {:induction false} JoinedElems(committed: seq<Fact>, indexed: bool, pending: seq<Fact>, ls: seq<Lookup>, parts: seq<seq<Fact>>, n: nat)
    requires n <= |parts| && n <= |ls| && Answers(committed, indexed, pending, ls, parts, n)
    ensures Elems(Joined(parts, n)) == FoundAny(committed, indexed, pending, ls, n)
  {
    hide Answer, FoundOne, Elems;
    if n == 0 {
      NoElems();
    } else {
      JoinedElems(committed, indexed, pending, ls, parts, n - 1);
      AnswerElems(committed, indexed, pending, ls[n - 1], parts[n - 1]);
      ElemsConcat(Joined(parts, n - 1), parts[n - 1]);
    }
  }

  /** The facts of several lookups, concatenated in their order. None, the panic, if and only if one of them is for the
      all-ones entity while facts are pending. */
  method GetFactsForLookups(y: Formats, d: Disk, pending: seq<Fact>, eavt: map<EavtKey, nat>, aevt: map<AevtKey, nat>, ls: seq<Lookup>,
                            ghost layout: seq<seq<Fact>>, ghost et: T.Tree, ghost at: T.Tree)
    returns (r: Option<seq<Fact>>, ghost parts: seq<seq<Fact>>)
    requires y.Valid() && DiskHolds(y, d, layout, et, at)
    requires eavt == Index(pending, |pending|, Eavt) && aevt == Index(pending, |pending|, Aevt)
    ensures r.None? <==> exists i :: 0 <= i < |ls| && Panics(pending, ls[i])
    ensures r.Some? ==>
      && |parts| == |ls| && Answers(All(layout), d.index.Some?, pending, ls, parts, |ls|)
      && r.value == Joined(parts, |parts|) && Elems(r.value) == FoundAny(All(layout), d.index.Some?, pending, ls, |ls|)
  {
    hide Answer, FoundAny, Elems, DiskHolds, FactsUpto, Index, Panics;
    var facts: seq<Fact> := [];
    parts := [];
    for i := 0 to |ls|
      invariant |parts| == i && Answers(All(layout), d.index.Some?, pending, ls, parts, i) && facts == Joined(parts, i)
      invariant forall j :: 0 <= j < i ==> !Panics(pending, ls[j])
    {
      var one := FetchOne(y, d, pending, eavt, aevt, ls[i], layout, et, at);
      if one.None? { return None, parts; }
      JoinedPrefix(parts, one.value, i);
      facts, parts := facts + one.value, parts + [one.value];
    }
    JoinedElems(All(layout), d.index.Some?, pending, ls, parts, |ls|);
    r := Some(facts);
  }

  // ----- against a full scan -----

  ghost predicate MatchesAny(ls: seq<Lookup>, n: nat, f: Fact)
    requires n <= |ls|
  {
    exists i :: 0 <= i < n && Matches(ls[i], f)
  }

  ghost predicate AllOnes(l: Lookup) { l.Entity? && l.e == ENTITY_SPACE - 1 }

  /** Lookups find every match, apart from the all-ones entity, when pending keys are distinct and committed facts indexed. */
  lemma {:induction false} FoundOneExact(committed: seq<Fact>, indexed: bool, pending: seq<Fact>, l: Lookup, f: Fact)
    requires DistinctKeys(pending) && (indexed || committed == []) && !AllOnes(l)
    ensures f in FoundOne(committed, indexed, pending, l) <==> f in Elems(committed + pending) && Matches(l, f)
  {
    ElemsConcat(committed, pending);
    NoElems();
    ReversedIff(l);
    FoundIff(pending, l, f);
    CommittedIff(committed, |committed|, l, f);
    assert committed[..|committed|] == committed;
    ElemsIn(InIndexRange(committed, |committed|, l), f);
    ElemsIn(committed, f);
    ElemsIn(pending, f);
    assert forall i :: 0 <= i < |pending| ==> Reachable(pending, i);
    hide Found, InIndexRange, Elems, Matches, Reachable, DistinctKeys;
  }

  lemma ElemsIn(facts: seq<Fact>, f: Fact)
    ensures f in Elems(facts) <==> f in facts
    ensures f in facts <==> exists i :: 0 <= i < |facts| && facts[i] == f
  {}

  /** The all-ones entity: committed facts of it are never found through the index. */
  lemma {:induction false} AllOnesMissed(committed: seq<Fact>, l: Lookup)
    requires AllOnes(l)
    ensures FoundOne(committed, true, [], l) == {}
  {
    forall f ensures f !in Elems(InIndexRange(committed, |committed|, l)) {
      CommittedIff(committed, |committed|, l, f);
      ElemsIn(InIndexRange(committed, |committed|, l), f);
    }
    assert Found([], l) == {};
  }

  lemma {:induction false} FoundAnyExact(committed: seq<Fact>, indexed: bool, pending: seq<Fact>, ls: seq<Lookup>, n: nat, f: Fact)
    requires DistinctKeys(pending) && (indexed || committed == []) && n <= |ls|
    requires forall i :: 0 <= i < |ls| ==> !AllOnes(ls[i])
    ensures f in FoundAny(committed, indexed, pending, ls, n) <==> f in Elems(committed + pending) && MatchesAny(ls, n, f)
  {
    hide FoundOne, Matches, DistinctKeys, Elems;
    if n > 0 {
      FoundAnyExact(committed, indexed, pending, ls, n - 1, f);
      FoundOneExact(committed, indexed, pending, ls[n - 1], f);
    }
  }

  /** Fetching by any list of index lookups and taking the net view gives the same facts as taking the net view of everything
      and keeping what the lookups ask for. Committed facts may share keys; pending ones may not. */
  lemma {:induction false} LookupsAgreeWithScan(committed: seq<Fact>, indexed: bool, pending: seq<Fact>, ls: seq<Lookup>, fetched: seq<Fact>)
    requires DistinctKeys(pending) && TieFree(Elems(committed + pending)) && (indexed || committed == [])
    requires forall i :: 0 <= i < |ls| ==> !AllOnes(ls[i])
    requires Elems(fetched) == FoundAny(committed, indexed, pending, ls, |ls|)
    ensures Elems(Net(fetched)) == Restrict(Elems(Net(committed + pending)), f => MatchesAny(ls, |ls|, f))
  {
    hide Net, NetSet, Elems, FoundAny, DistinctKeys, TieFree, MatchesAny, OnEntityAttribute;
    var all := committed + pending;
    var p := (f: Fact) => MatchesAny(ls, |ls|, f);
    forall f ensures f in Elems(fetched) <==> f in Restrict(Elems(all), p) {
      FoundAnyExact(committed, indexed, pending, ls, |ls|, f);
    }
    assert Elems(fetched) == Restrict(Elems(all), p);
    TieFreeSubset(Elems(all), Elems(fetched));
    NetElems(fetched);
    NetElems(all);
    LookupsAreConditions(ls);
    NetRestricts(Elems(all), p);
  }

  lemma TieFreeSubset(s: set<Fact>, t: set<Fact>)
    requires TieFree(s) && t <= s
    ensures TieFree(t)
  {
    hide Encode;
  }

  lemma LookupsAreConditions(ls: seq<Lookup>)
    ensures OnEntityAttribute(f => MatchesAny(ls, |ls|, f))
  {
  }
}
