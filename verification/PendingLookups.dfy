/** Lookups in the pending facts: the in-memory indexes, last fact first. */
module PendingLookups {
  import opened Bytes
  import opened Facts
  import opened NetView
  import opened FactStore
  import opened IndexKeys
  import opened ValueEncoding
  import opened KeyRanks

  // ----- what an index finds -----

  /** Fact `i` is the one its key leads to: no later fact has its entity, attribute, window and count. */
  ghost predicate Reachable(facts: seq<Fact>, i: nat)
    requires i < |facts|
  {
    forall j :: i < j < |facts| ==> !SamePlace(facts[j], facts[i])
  }

  /** Pending facts that differ pairwise in entity, attribute, window or count: the index leads to each of them. */
  ghost predicate DistinctKeys(facts: seq<Fact>) {
    forall i, j :: 0 <= i < j < |facts| ==> !SamePlace(facts[i], facts[j])
  }

  /** An index entry exists for `i` exactly when `i` is reachable. */
  lemma {:induction false} IndexReaches(facts: seq<Fact>, i: nat)
    requires i < |facts|
    ensures Eavt(facts[i]).value in Index(facts, |facts|, Eavt) && Aevt(facts[i]).value in Index(facts, |facts|, Aevt)
    ensures Index(facts, |facts|, Eavt)[Eavt(facts[i]).value] == i <==> Reachable(facts, i)
    ensures Index(facts, |facts|, Aevt)[Aevt(facts[i]).value] == i <==> Reachable(facts, i)
  {
    IndexPoints(facts, |facts|, Eavt);
    IndexPoints(facts, |facts|, Aevt);
    var p, q := Index(facts, |facts|, Eavt)[Eavt(facts[i]).value], Index(facts, |facts|, Aevt)[Aevt(facts[i]).value];
    assert i <= p < |facts| && Eavt(facts[p]) == Eavt(facts[i]);
    assert i <= q < |facts| && Aevt(facts[q]) == Aevt(facts[i]);
    PlaceIff(facts[p], facts[i]);
    PlaceIff(facts[q], facts[i]);
    if !Reachable(facts, i) {
      var j :| i < j < |facts| && SamePlace(facts[j], facts[i]);
      PlaceIff(facts[j], facts[i]);
      assert Index(facts, |facts|, Eavt)[Eavt(facts[j]).value] >= j;
      assert Index(facts, |facts|, Aevt)[Aevt(facts[j]).value] >= j;
    }
  }

  /** What the lookup's range of the pending index leads to. */
  ghost function Found(facts: seq<Fact>, l: Lookup): set<Fact> {
    set i | 0 <= i < |facts| && InLookup(l, facts[i]) && Reachable(facts, i) :: facts[i]
  }

  function AddFact(r: seq<Fact>, f: Fact): (r': seq<Fact>)
    ensures Elems(r') == Elems(r) + {f} && r' == r + [f]
  {
    var r' := r + [f];
    assert forall i :: 0 <= i < |r| ==> r'[i] == r[i];
    assert r'[|r|] == f;
    r'
  }

  /** The facts that the entries `ks` of an index lead to and that lie in the lookup's range. */
  ghost function Reached<K(!new)>(facts: seq<Fact>, idx: map<K, nat>, ks: set<K>, l: Lookup): set<Fact>
    requires ks <= idx.Keys && forall k :: k in idx ==> idx[k] < |facts|
  {
    set k | k in ks && InLookup(l, facts[idx[k]]) :: facts[idx[k]]
  }

  lemma ReachedStep<K(!new)>(facts: seq<Fact>, idx: map<K, nat>, done: set<K>, k: K, l: Lookup)
    requires done <= idx.Keys && k in idx && k !in done && forall k :: k in idx ==> idx[k] < |facts|
    ensures Reached(facts, idx, done + {k}, l) ==
      Reached(facts, idx, done, l) + (if InLookup(l, facts[idx[k]]) then {facts[idx[k]]} else {})
  {
    hide InLookup;
  }

  /** `less` is a total order, carried by `rank`. */
  ghost predicate Ordered<K(!new)>(less: (K, K) -> bool, rank: K -> real) {
    && (forall x, y :: less(x, y) <==> rank(x) < rank(y))
    && (forall x, y :: rank(x) == rank(y) ==> x == y)
  }

  lemma {:induction false} LeastKey<K(!new)>(ks: set<K>, rank: K -> real) returns (k: K)
    requires ks != {}
    ensures k in ks && forall m :: m in ks ==> rank(k) <= rank(m)
  {
    k :| k in ks;
    if ks != {k} {
      var m := LeastKey(ks - {k}, rank);
      assert ks == (ks - {k}) + {k};
      if rank(m) < rank(k) { k := m; }
    }
  }

  /** The walk so far: the entries visited, in order, all before those to do. */
  ghost predicate Walked<K(!new)>(facts: seq<Fact>, idx: map<K, nat>, rank: K -> real, todo: set<K>, ks: seq<K>, r: seq<Fact>)
    requires forall k :: k in idx ==> idx[k] < |facts|
  {
    && |ks| == |r|
    && (forall i :: 0 <= i < |ks| ==> ks[i] in idx && r[i] == facts[idx[ks[i]]])
    && (forall i, j :: 0 <= i < j < |ks| ==> rank(ks[i]) < rank(ks[j]))
    && (forall i, k :: 0 <= i < |ks| && k in todo ==> rank(ks[i]) < rank(k))
  }

  lemma WalkedStep<K(!new)>(facts: seq<Fact>, idx: map<K, nat>, rank: K -> real, todo: set<K>, ks: seq<K>, r: seq<Fact>, k: K)
    requires forall k :: k in idx ==> idx[k] < |facts|
    requires Walked(facts, idx, rank, todo, ks, r) && k in todo && k in idx
    requires forall m :: m in todo && m != k ==> rank(k) < rank(m)
    ensures Walked(facts, idx, rank, todo - {k}, ks, r)
    ensures Walked(facts, idx, rank, todo - {k}, ks + [k], r + [facts[idx[k]]])
  {}

  /** Walk an index in key order and resolve every entry in range. */
  method Resolve<K(!new, ==)>(facts: seq<Fact>, idx: map<K, nat>, less: (K, K) -> bool, l: Lookup, ghost rank: K -> real)
    returns (r: seq<Fact>, ghost ks: seq<K>)
    requires (forall k :: k in idx ==> idx[k] < |facts|) && Ordered(less, rank)
    ensures Elems(r) == Reached(facts, idx, idx.Keys, l) && Walked(facts, idx, rank, {}, ks, r)
  {
    hide InLookup, Elems, Reached, Walked;
    r, ks := [], [];
    var todo := idx.Keys;
    NothingReached(facts, idx, l);
    NothingWalked(facts, idx, rank);
    ghost var done := {};
    while todo != {}
      invariant todo <= idx.Keys && done == idx.Keys - todo
      invariant Elems(r) == Reached(facts, idx, done, l) && Walked(facts, idx, rank, todo, ks, r)
      decreases todo
    {
      ghost var least := LeastKey(todo, rank);
      var k :| k in todo && forall m :: m in todo ==> !less(m, k);
      ReachedStep(facts, idx, done, k, l);
      WalkedStep(facts, idx, rank, todo, ks, r, k);
      todo, done := todo - {k}, done + {k};
      if InLookup(l, facts[idx[k]]) {
        r := AddFact(r, facts[idx[k]]);
        ks := ks + [k];
      }
    }
    assert done == idx.Keys;
  }

  lemma NothingWalked<K(!new)>(facts: seq<Fact>, idx: map<K, nat>, rank: K -> real)
    requires forall k :: k in idx ==> idx[k] < |facts|
    ensures Walked(facts, idx, rank, idx.Keys, [], [])
  {}

  lemma NothingReached<K(!new)>(facts: seq<Fact>, idx: map<K, nat>, l: Lookup)
    requires forall k :: k in idx ==> idx[k] < |facts|
    ensures Elems([]) == {} && Reached(facts, idx, {}, l) == {}
  {
  }

  lemma FoundByEavt(facts: seq<Fact>, l: Lookup)
    requires forall k :: k in Index(facts, |facts|, Eavt) ==> Index(facts, |facts|, Eavt)[k] < |facts|
    ensures Reached(facts, Index(facts, |facts|, Eavt), Index(facts, |facts|, Eavt).Keys, l) == Found(facts, l)
  {
    hide InLookup, Reachable;
    var eavt := Index(facts, |facts|, Eavt);
    IndexPoints(facts, |facts|, Eavt);
    forall f ensures f in Reached(facts, eavt, eavt.Keys, l) <==> f in Found(facts, l) {
      if f in Reached(facts, eavt, eavt.Keys, l) {
        var k :| k in eavt && facts[eavt[k]] == f && InLookup(l, facts[eavt[k]]);
        IndexReaches(facts, eavt[k]);
      }
      if f in Found(facts, l) {
        var i :| 0 <= i < |facts| && InLookup(l, facts[i]) && Reachable(facts, i) && facts[i] == f;
        IndexReaches(facts, i);
        assert Eavt(facts[i]).value in eavt;
      }
    }
  }

  lemma FoundByAevt(facts: seq<Fact>, l: Lookup)
    requires forall k :: k in Index(facts, |facts|, Aevt) ==> Index(facts, |facts|, Aevt)[k] < |facts|
    ensures Reached(facts, Index(facts, |facts|, Aevt), Index(facts, |facts|, Aevt).Keys, l) == Found(facts, l)
  {
    hide InLookup, Reachable;
    var aevt := Index(facts, |facts|, Aevt);
    IndexPoints(facts, |facts|, Aevt);
    forall f ensures f in Reached(facts, aevt, aevt.Keys, l) <==> f in Found(facts, l) {
      if f in Reached(facts, aevt, aevt.Keys, l) {
        var k :| k in aevt && facts[aevt[k]] == f && InLookup(l, facts[aevt[k]]);
        IndexReaches(facts, aevt[k]);
      }
      if f in Found(facts, l) {
        var i :| 0 <= i < |facts| && InLookup(l, facts[i]) && Reachable(facts, i) && facts[i] == f;
        IndexReaches(facts, i);
        assert Aevt(facts[i]).value in aevt;
      }
    }
  }

  /** The end of the range is below its start: the ordered map panics, unless it is empty. */
  predicate Reversed(l: Lookup) { l.Entity? && EavtLess(EntityEnd(l.e), EntityStart(l.e)) }

  lemma {:induction false} ReversedIff(l: Lookup)
    ensures Reversed(l) <==> l.Entity? && l.e == ENTITY_SPACE - 1
  {
    if l.Entity? {
      if l.e < ENTITY_SPACE - 1 { assert (l.e + 1) % ENTITY_SPACE == l.e + 1; }
      LessIrreflexive([]);
    }
  }

  predicate Panics(facts: seq<Fact>, l: Lookup) { facts != [] && Reversed(l) }

  /** What a lookup answers from the pending facts: those its range leads to, in key order, each once. */
  ghost predicate PendingAnswer(facts: seq<Fact>, l: Lookup, r: seq<Fact>) {
    Ascending(l, r) && Elems(r) == Found(facts, l)
  }

  /** Run one lookup over the pending indexes: attributes use AEVT, the others EAVT. None is the panic. */
  method FetchPending(facts: seq<Fact>, eavt: map<EavtKey, nat>, aevt: map<AevtKey, nat>, l: Lookup) returns (r: Option<seq<Fact>>)
    requires eavt == Index(facts, |facts|, Eavt) && aevt == Index(facts, |facts|, Aevt)
    ensures r.None? <==> Panics(facts, l)
    ensures r.Some? ==> PendingAnswer(facts, l, r.value)
  {
    IndexPoints(facts, |facts|, Eavt);
    IndexPoints(facts, |facts|, Aevt);
    EmptyIndex(facts);
    hide InLookup, Reached, Found, EavtLess, AevtLess, Walked, Index, Ordered;
    if eavt != map[] && Reversed(l) { return None; }
    var found: seq<Fact>;
    if l.Attribute? {
      ghost var rank := AevtOrdered();
      ghost var ks;
      found, ks := Resolve(facts, aevt, (x: AevtKey, y: AevtKey) => AevtLess(x, y), l, rank);
      FoundByAevt(facts, l);
      AevtAscending(facts, l, rank, ks, found);
    } else {
      ghost var rank := EavtOrdered();
      ghost var ks;
      found, ks := Resolve(facts, eavt, (x: EavtKey, y: EavtKey) => EavtLess(x, y), l, rank);
      FoundByEavt(facts, l);
      EavtAscending(facts, l, rank, ks, found);
    }
    r := Some(found);
  }

  lemma EavtOrdered() returns (rank: EavtKey -> real)
    ensures Ordered((x: EavtKey, y: EavtKey) => EavtLess(x, y), rank)
  {
    var keys := EavtRanked();
    rank := (k: EavtKey) => keys(k);
    forall x, y | rank(x) == rank(y) ensures x == y { EavtTotal(x, y); }
  }

  lemma AevtOrdered() returns (rank: AevtKey -> real)
    ensures Ordered((x: AevtKey, y: AevtKey) => AevtLess(x, y), rank)
  {
    var keys := AevtRanked();
    rank := (k: AevtKey) => keys(k);
    forall x, y | rank(x) == rank(y) ensures x == y { AevtTotal(x, y); }
  }

  lemma EavtAscending(facts: seq<Fact>, l: Lookup, rank: EavtKey -> real, ks: seq<EavtKey>, r: seq<Fact>)
    requires !l.Attribute? && Ordered((x: EavtKey, y: EavtKey) => EavtLess(x, y), rank)
    requires forall k :: k in Index(facts, |facts|, Eavt) ==> Index(facts, |facts|, Eavt)[k] < |facts|
    requires Walked(facts, Index(facts, |facts|, Eavt), rank, {}, ks, r)
    ensures Ascending(l, r)
  {
    IndexPoints(facts, |facts|, Eavt);
    hide Index, EavtLess;
    forall i, j | 0 <= i < j < |r| ensures LookupLess(l, r[i], r[j]) {
      assert Eavt(r[i]) == Some(ks[i]) && Eavt(r[j]) == Some(ks[j]);
      assert ((x: EavtKey, y: EavtKey) => EavtLess(x, y))(ks[i], ks[j]);
      KeysOrder(l, r[i], r[j]);
    }
  }

  lemma AevtAscending(facts: seq<Fact>, l: Lookup, rank: AevtKey -> real, ks: seq<AevtKey>, r: seq<Fact>)
    requires l.Attribute? && Ordered((x: AevtKey, y: AevtKey) => AevtLess(x, y), rank)
    requires forall k :: k in Index(facts, |facts|, Aevt) ==> Index(facts, |facts|, Aevt)[k] < |facts|
    requires Walked(facts, Index(facts, |facts|, Aevt), rank, {}, ks, r)
    ensures Ascending(l, r)
  {
    IndexPoints(facts, |facts|, Aevt);
    hide Index, AevtLess;
    forall i, j | 0 <= i < j < |r| ensures LookupLess(l, r[i], r[j]) {
      assert Aevt(r[i]) == Some(ks[i]) && Aevt(r[j]) == Some(ks[j]);
      assert ((x: AevtKey, y: AevtKey) => AevtLess(x, y))(ks[i], ks[j]);
      KeysOrder(l, r[i], r[j]);
    }
  }

  lemma EmptyIndex(facts: seq<Fact>)
    ensures Index(facts, |facts|, Eavt) == map[] <==> facts == []
  {
    if facts != [] {
      IndexPoints(facts, |facts|, Eavt);
      assert Eavt(facts[0]).value in Index(facts, |facts|, Eavt);
    }
  }

  /** A pending fact is found if and only if it matches and no later pending fact has its key. */
  lemma {:induction false} FoundIff(facts: seq<Fact>, l: Lookup, f: Fact)
    requires !Panics(facts, l)
    ensures f in Found(facts, l) <==> exists i :: 0 <= i < |facts| && facts[i] == f && Matches(l, f) && Reachable(facts, i)
  {
    ReversedIff(l);
    hide Matches, Reachable;
    forall i | 0 <= i < |facts| ensures InLookup(l, facts[i]) <==> Matches(l, facts[i]) { RangeExact(l, facts[i]); }
    hide InLookup, Reversed;
  }

  /** Two values of one attribute in one transaction share a key: only the second is found. */
  lemma {:induction false} SharedKeyHidden(f: Fact, v: Value)
    requires v != f.value && f.entity < ENTITY_SPACE - 1
    ensures f !in Found([f, f.(value := v)], Entity(f.entity)) && f.(value := v) in Found([f, f.(value := v)], Entity(f.entity))
  {
    var g := f.(value := v);
    var facts := [f, g];
    ReversedIff(Entity(f.entity));
    FoundIff(facts, Entity(f.entity), f);
    FoundIff(facts, Entity(f.entity), g);
    assert facts[0] == f && facts[1] == g && SamePlace(g, f);
    assert Reachable(facts, 1);
    assert !Reachable(facts, 0);
  }
}
