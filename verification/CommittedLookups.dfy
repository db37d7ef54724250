/** Lookups in the committed facts: a range scan of the stored index, then the packed page of each ref. */
module CommittedLookups {
  import opened Bytes
  import opened Facts
  import opened FactStore
  import opened IndexKeys
  import opened ValueEncoding
  import opened KeyRanks
  import opened PackedPages
  import T = BTreeModel
  import S = BTreeScan

  /** The codecs of the file, and the orders of its index keys. */
  datatype Formats = Formats(facts: FactCodec, eavt: T.Codec, aevt: T.Codec, avet: T.Codec, vaet: T.Codec,
                             eavtRank: EavtKey -> T.Key, aevtRank: AevtKey -> T.Key, avetRank: AvetKey -> T.Key, vaetRank: VaetKey -> T.Key)
  {
    ghost predicate Valid() {
      && facts.Valid() && eavt.Valid() && aevt.Valid() && avet.Valid() && vaet.Valid()
      && RanksEavt(eavtRank) && RanksAevt(aevtRank) && RanksAvet(avetRank) && RanksVaet(vaetRank)
    }
  }

  /** The pages from 1 on hold the facts of `layout`. */
  ghost predicate FactsAt(c: FactCodec, pages: T.Pages, layout: seq<seq<Fact>>) {
    forall k :: 0 <= k < |layout| ==> PageAt(c, pages, k + 1, layout[k])
  }

  ghost predicate PageAt(c: FactCodec, pages: T.Pages, id: nat, fs: seq<Fact>) {
    id in pages && PackedHolds(c, pages[id], fs)
  }

  ghost function All(layout: seq<seq<Fact>>): seq<Fact> { FactsUpto(layout, |layout|) }
  ghost function Refs(layout: seq<seq<Fact>>): seq<T.FactRef> { RefsUpto(layout, |layout|, 1) }

  /** The entry of a fact, if the index lists it. */
  function EntryOf(f: Fact, ref: T.FactRef, key: Fact -> Option<T.Key>): seq<T.Entry> {
    if key(f).Some? then [T.Entry(key(f).value, ref)] else []
  }

  /** The entries of the first `n` facts. */
  function EntriesUpto(facts: seq<Fact>, refs: seq<T.FactRef>, n: nat, key: Fact -> Option<T.Key>): seq<T.Entry>
    requires n <= |facts| == |refs|
  {
    if n == 0 then [] else EntriesUpto(facts, refs, n - 1, key) + EntryOf(facts[n - 1], refs[n - 1], key)
  }

  /** The index has one entry for each fact it lists, its key and where it is, and no other. */
  ghost predicate Catalogs(es: seq<T.Entry>, facts: seq<Fact>, refs: seq<T.FactRef>, key: Fact -> Option<T.Key>) {
    |facts| == |refs| && multiset(es) == multiset(EntriesUpto(facts, refs, |facts|, key))
  }

  /** A stored index over the facts of the file. */
  ghost predicate Readable(c: T.Codec, fc: FactCodec, pages: T.Pages, root: nat, layout: seq<seq<Fact>>, t: T.Tree, key: Fact -> Option<T.Key>) {
    && FactsAt(fc, pages, layout) && T.Stored(c, pages, t) && t.id == root
    && Catalogs(T.Entries(t), All(layout), Refs(layout), key)
  }

  /** Those of the first `n` facts whose key is in range, in order. */
  ghost function InKeyRange(facts: seq<Fact>, n: nat, key: Fact -> Option<T.Key>, start: T.Key, end: T.Key): seq<Fact>
    requires n <= |facts|
  {
    if n == 0 then []
    else
      var before := InKeyRange(facts, n - 1, key, start, end);
      if key(facts[n - 1]).Some? && S.InRange(key(facts[n - 1]).value, start, Some(end)) then before + [facts[n - 1]] else before
  }

  // ----- reading what a scan returns -----

  /** The fact an entry leads to, if its key is in range. */
  ghost function Target(fc: FactCodec, pages: T.Pages, start: T.Key, end: T.Key, e: T.Entry): Option<Fact> {
    if S.InRange(e.key, start, Some(end)) && e.ref.page in pages then ReadFact(fc, pages[e.ref.page], e.ref.slot) else None
  }

  ghost function Targets(fc: FactCodec, pages: T.Pages, start: T.Key, end: T.Key, es: seq<T.Entry>, n: nat): seq<Fact>
    requires n <= |es|
  {
    if n == 0 then []
    else
      match Target(fc, pages, start, end, es[n - 1])
      case None => Targets(fc, pages, start, end, es, n - 1)
      case Some(f) => Targets(fc, pages, start, end, es, n - 1) + [f]
  }

  lemma {:induction false} TargetsConcat(fc: FactCodec, pages: T.Pages, start: T.Key, end: T.Key, a: seq<T.Entry>, b: seq<T.Entry>, n: nat)
    requires n <= |b|
    ensures Targets(fc, pages, start, end, a + b, |a| + n) == Targets(fc, pages, start, end, a, |a|) + Targets(fc, pages, start, end, b, n)
  {
    hide Target;
    if n > 0 {
      TargetsConcat(fc, pages, start, end, a, b, n - 1);
      assert (a + b)[|a| + n - 1] == b[n - 1];
    } else {
      TargetsPrefix(fc, pages, start, end, a, b, |a|);
    }
  }

  lemma {:induction false} TargetsPrefix(fc: FactCodec, pages: T.Pages, start: T.Key, end: T.Key, a: seq<T.Entry>, b: seq<T.Entry>, n: nat)
    requires n <= |a|
    ensures Targets(fc, pages, start, end, a + b, n) == Targets(fc, pages, start, end, a, n)
  {
    hide Target;
    if n > 0 {
      TargetsPrefix(fc, pages, start, end, a, b, n - 1);
      assert (a + b)[n - 1] == a[n - 1];
    }
  }

  ghost function Without(es: seq<T.Entry>, i: nat): seq<T.Entry>
    requires i < |es|
  {
    es[..i] + es[i + 1..]
  }

  lemma WithoutCounts(es: seq<T.Entry>, i: nat)
    requires i < |es|
    ensures multiset(es) == multiset(Without(es, i)) + multiset{es[i]} && |Without(es, i)| == |es| - 1
  {
    assert es == es[..i] + ([es[i]] + es[i + 1..]);
  }

  lemma {:induction false} TargetsWithout(fc: FactCodec, pages: T.Pages, start: T.Key, end: T.Key, es: seq<T.Entry>, i: nat)
    requires i < |es|
    ensures |Without(es, i)| < |es|
    ensures multiset(Targets(fc, pages, start, end, es, |es|)) ==
      multiset(Targets(fc, pages, start, end, Without(es, i), |Without(es, i)|)) + multiset(Targets(fc, pages, start, end, [es[i]], 1))
  {
    hide Target, Targets;
    var a, b := es[..i], es[i + 1..];
    assert es == a + ([es[i]] + b);
    TargetsConcat(fc, pages, start, end, a, [es[i]] + b, |[es[i]] + b|);
    TargetsConcat(fc, pages, start, end, [es[i]], b, |b|);
    TargetsConcat(fc, pages, start, end, a, b, |b|);
  }

  /** What entries lead to does not depend on their order. */
  lemma {:induction false} TargetsPermute(fc: FactCodec, pages: T.Pages, start: T.Key, end: T.Key, es: seq<T.Entry>, fs: seq<T.Entry>)
    requires multiset(es) == multiset(fs)
    ensures multiset(Targets(fc, pages, start, end, es, |es|)) == multiset(Targets(fc, pages, start, end, fs, |fs|))
    decreases |es|
  {
    hide Target, Targets;
    if es == [] {
      SameLength(es, fs);
    } else {
      var i := FoundAt(fs, es[0], es);
      TargetsWithout(fc, pages, start, end, es, 0);
      TargetsWithout(fc, pages, start, end, fs, i);
      RemoveSame(es, fs, i);
      TargetsPermute(fc, pages, start, end, Without(es, 0), Without(fs, i));
    }
  }

  lemma SameLength(es: seq<T.Entry>, fs: seq<T.Entry>)
    requires multiset(es) == multiset(fs)
    ensures |es| == |fs|
  {
    assert |es| == |multiset(es)| && |fs| == |multiset(fs)|;
  }

  lemma FoundAt(fs: seq<T.Entry>, e: T.Entry, es: seq<T.Entry>) returns (i: nat)
    requires multiset(es) == multiset(fs) && e in es
    ensures i < |fs| && fs[i] == e
  {
    assert e in multiset(es);
    assert e in multiset(fs);
    i :| 0 <= i < |fs| && fs[i] == e;
  }

  lemma RemoveSame(es: seq<T.Entry>, fs: seq<T.Entry>, i: nat)
    requires es != [] && i < |fs| && fs[i] == es[0] && multiset(es) == multiset(fs)
    ensures multiset(Without(es, 0)) == multiset(Without(fs, i))
  {
    WithoutCounts(es, 0);
    WithoutCounts(fs, i);
    hide Without;
    assert multiset(Without(es, 0)) == multiset(es) - multiset{es[0]};
    assert multiset(Without(fs, i)) == multiset(fs) - multiset{fs[i]};
  }

  lemma {:induction false} RefReads(fc: FactCodec, pages: T.Pages, layout: seq<seq<Fact>>, j: nat)
    requires fc.Valid() && FactsAt(fc, pages, layout) && j < |All(layout)|
    ensures |Refs(layout)| == |All(layout)| && Refs(layout)[j].page in pages
    ensures ReadFact(fc, pages[Refs(layout)[j].page], Refs(layout)[j].slot) == Some(All(layout)[j])
  {
    var packed := PackedOf(fc, pages, layout);
    hide Laid, FactsAt, FactsUpto, RefsUpto, ReadFact;
    RefResolves(fc, packed, layout, |layout|, 1, j);
    assert packed[Refs(layout)[j].page - 1] == pages[Refs(layout)[j].page];
  }

  /** The fact pages as a run. */
  lemma PackedOf(fc: FactCodec, pages: T.Pages, layout: seq<seq<Fact>>) returns (packed: seq<seq<byte>>)
    requires FactsAt(fc, pages, layout)
    ensures Laid(fc, packed, layout)
    ensures forall id :: 1 <= id <= |layout| ==> id in pages && pages[id] == packed[id - 1]
  {
    hide PackedHolds;
    packed := [];
    for k := 0 to |layout|
      invariant |packed| == k && forall j :: 0 <= j < k ==> PackedHolds(fc, packed[j], layout[j])
      invariant forall id :: 1 <= id <= k ==> id in pages && pages[id] == packed[id - 1]
    {
      assert PageAt(fc, pages, k + 1, layout[k]);
      packed := packed + [pages[k + 1]];
    }
  }

  /** Entries of facts lead to those in range. */
  lemma {:induction false} TargetsOfFacts(fc: FactCodec, pages: T.Pages, layout: seq<seq<Fact>>, key: Fact -> Option<T.Key>, start: T.Key, end: T.Key, n: nat)
    requires fc.Valid() && FactsAt(fc, pages, layout) && n <= |All(layout)| == |Refs(layout)|
    ensures var es := EntriesUpto(All(layout), Refs(layout), n, key);
      Targets(fc, pages, start, end, es, |es|) == InKeyRange(All(layout), n, key, start, end)
  {
    hide FactsAt, FactsUpto, RefsUpto, ReadFact, EntryOf;
    if n > 0 {
      TargetsOfFacts(fc, pages, layout, key, start, end, n - 1);
      RefReads(fc, pages, layout, n - 1);
      TargetsStep(fc, pages, start, end, EntriesUpto(All(layout), Refs(layout), n - 1, key), All(layout)[n - 1], Refs(layout)[n - 1], key);
    }
  }

  /** One more fact: its entry leads to it, if its key is in range. */
  lemma TargetsStep(fc: FactCodec, pages: T.Pages, start: T.Key, end: T.Key, es: seq<T.Entry>, f: Fact, ref: T.FactRef, key: Fact -> Option<T.Key>)
    requires ref.page in pages && ReadFact(fc, pages[ref.page], ref.slot) == Some(f)
    ensures var all, inRange := es + EntryOf(f, ref, key), key(f).Some? && S.InRange(key(f).value, start, Some(end));
      Targets(fc, pages, start, end, all, |all|) == Targets(fc, pages, start, end, es, |es|) + if inRange then [f] else []
  {
    hide ReadFact, Targets;
    if key(f).Some? {
      TargetsConcat(fc, pages, start, end, es, [T.Entry(key(f).value, ref)], 1);
      OneTarget(fc, pages, start, end, T.Entry(key(f).value, ref));
    } else {
      assert es + [] == es;
    }
  }

  lemma OneTarget(fc: FactCodec, pages: T.Pages, start: T.Key, end: T.Key, e: T.Entry)
    ensures Targets(fc, pages, start, end, [e], 1) == match Target(fc, pages, start, end, e) { case None => [] case Some(f) => [f] }
  {
    hide Target;
    assert Targets(fc, pages, start, end, [e], 0) == [];
  }

  /** Every entry of the index leads to a fact with its key. */
  ghost predicate Leads(fc: FactCodec, pages: T.Pages, es: seq<T.Entry>, key: Fact -> Option<T.Key>) {
    forall m :: 0 <= m < |es| ==>
      && es[m].ref.page in pages && ReadFact(fc, pages[es[m].ref.page], es[m].ref.slot).Some?
      && key(ReadFact(fc, pages[es[m].ref.page], es[m].ref.slot).value) == Some(es[m].key)
  }

  lemma {:induction false} ListedAt(facts: seq<Fact>, refs: seq<T.FactRef>, n: nat, key: Fact -> Option<T.Key>, e: T.Entry) returns (i: nat)
    requires n <= |facts| == |refs| && e in EntriesUpto(facts, refs, n, key)
    ensures i < n && key(facts[i]) == Some(e.key) && refs[i] == e.ref
  {
    if key(facts[n - 1]).Some? && e == T.Entry(key(facts[n - 1]).value, refs[n - 1]) {
      i := n - 1;
    } else {
      i := ListedAt(facts, refs, n - 1, key, e);
    }
  }

  lemma IndexLeads(fc: FactCodec, pages: T.Pages, layout: seq<seq<Fact>>, es: seq<T.Entry>, key: Fact -> Option<T.Key>)
    requires fc.Valid() && FactsAt(fc, pages, layout) && Catalogs(es, All(layout), Refs(layout), key)
    ensures Leads(fc, pages, es, key)
  {
    hide FactsAt, FactsUpto, RefsUpto, ReadFact, EntriesUpto;
    forall m | 0 <= m < |es|
      ensures es[m].ref.page in pages && ReadFact(fc, pages[es[m].ref.page], es[m].ref.slot).Some?
      ensures key(ReadFact(fc, pages[es[m].ref.page], es[m].ref.slot).value) == Some(es[m].key)
    {
      assert es[m] in multiset(es);
      assert es[m] in EntriesUpto(All(layout), Refs(layout), |All(layout)|, key);
      var i := ListedAt(All(layout), Refs(layout), |All(layout)|, key, es[m]);
      RefReads(fc, pages, layout, i);
    }
  }

  /** No fact's key is the start of the range, so no entry at it can be missed. */
  lemma StartUnshared(fc: FactCodec, pages: T.Pages, layout: seq<seq<Fact>>, t: T.Tree, key: Fact -> Option<T.Key>, start: T.Key, end: T.Key)
    requires T.Sorted(T.Entries(t)) && Catalogs(T.Entries(t), All(layout), Refs(layout), key)
    requires forall i :: 0 <= i < |All(layout)| ==> key(All(layout)[i]) != Some(start)
    ensures T.AreLeaves(T.Leaves(t)) && !S.Missed(T.Leaves(t), start, Some(end))
  {
    hide FactsUpto, RefsUpto, EntriesUpto, S.Missed;
    T.LeavesAreLeaves(t);
    var es := T.Entries(t);
    forall k | 0 <= k < |es| ensures es[k].key != start {
      assert es[k] in multiset(es);
      assert es[k] in EntriesUpto(All(layout), Refs(layout), |All(layout)|, key);
      var i := ListedAt(All(layout), Refs(layout), |All(layout)|, key, es[k]);
    }
    S.OnceNotMissed(T.Leaves(t), start, Some(end));
  }

  /** Resolve refs through the packed pages. */
  method ReadRefs(fc: FactCodec, pages: T.Pages, refs: seq<T.FactRef>) returns (r: seq<Fact>)
    requires forall m :: 0 <= m < |refs| ==> refs[m].page in pages && ReadFact(fc, pages[refs[m].page], refs[m].slot).Some?
    ensures |r| == |refs| && forall m :: 0 <= m < |refs| ==> ReadFact(fc, pages[refs[m].page], refs[m].slot) == Some(r[m])
  {
    hide ReadFact;
    r := [];
    for n := 0 to |refs|
      invariant |r| == n && forall m :: 0 <= m < n ==> ReadFact(fc, pages[refs[m].page], refs[m].slot) == Some(r[m])
    {
      var f := ReadFact(fc, pages[refs[n].page], refs[n].slot);
      r := r + [f.value];
    }
  }

  /** The refs selected are those that resolve, in entry order. */
  lemma {:induction false} SelectedTargets(fc: FactCodec, pages: T.Pages, start: T.Key, end: T.Key, es: seq<T.Entry>, n: nat, key: Fact -> Option<T.Key>)
    requires n <= |es| && Leads(fc, pages, es, key)
    ensures var refs, fs := S.Select(es, n, start, Some(end)), Targets(fc, pages, start, end, es, n);
      && |refs| == |fs|
      && forall m :: 0 <= m < |refs| ==> refs[m].page in pages && ReadFact(fc, pages[refs[m].page], refs[m].slot) == Some(fs[m])
  {
    hide ReadFact;
    if n > 0 { SelectedTargets(fc, pages, start, end, es, n - 1, key); }
  }

  /** In key order. */
  ghost predicate KeyOrdered(r: seq<Fact>, key: Fact -> Option<T.Key>) {
    && (forall i :: 0 <= i < |r| ==> key(r[i]).Some?)
    && forall i, j :: 0 <= i < j < |r| ==> key(r[i]).value <= key(r[j]).value
  }

  ghost predicate KeysUpto(r: seq<Fact>, key: Fact -> Option<T.Key>, k: T.Key) {
    forall i :: 0 <= i < |r| ==> key(r[i]).Some? && key(r[i]).value <= k
  }

  lemma {:induction false} TargetsOrdered(fc: FactCodec, pages: T.Pages, start: T.Key, end: T.Key, es: seq<T.Entry>, n: nat, key: Fact -> Option<T.Key>)
    requires n <= |es| && Leads(fc, pages, es, key) && T.Sorted(es)
    ensures KeyOrdered(Targets(fc, pages, start, end, es, n), key)
    ensures n > 0 ==> KeysUpto(Targets(fc, pages, start, end, es, n), key, es[n - 1].key)
  {
    hide ReadFact;
    if n > 0 { TargetsOrdered(fc, pages, start, end, es, n - 1, key); }
  }

  /** The facts whose key is in range: scan the index, then read each ref's slot. Each is there as often as in the file, in key order. */
  method ScanFacts(c: T.Codec, fc: FactCodec, pages: T.Pages, root: nat, start: T.Key, end: T.Key,
                   ghost layout: seq<seq<Fact>>, ghost t: T.Tree, ghost key: Fact -> Option<T.Key>)
    returns (r: seq<Fact>)
    requires c.Valid() && fc.Valid() && Readable(c, fc, pages, root, layout, t, key)
    requires forall i :: 0 <= i < |All(layout)| ==> key(All(layout)[i]) != Some(start)
    ensures multiset(r) == multiset(InKeyRange(All(layout), |All(layout)|, key, start, end)) && KeyOrdered(r, key)
  {
    hide S.Missed, S.Select, S.Answers, T.NodeStored, T.Chain, T.Sorted, FactsAt, FactsUpto, RefsUpto, EntriesUpto, InKeyRange, KeyOrdered, Targets, ReadFact;
    ghost var es, n := T.Entries(t), |All(layout)|;
    StartUnshared(fc, pages, layout, t, key, start, end);
    var refs := S.RangeScan(c, pages, root, start, Some(end), t);
    IndexLeads(fc, pages, layout, es, key);
    SelectedTargets(fc, pages, start, end, es, |es|, key);
    TargetsOrdered(fc, pages, start, end, es, |es|, key);
    TargetsPermute(fc, pages, start, end, es, EntriesUpto(All(layout), Refs(layout), n, key));
    TargetsOfFacts(fc, pages, layout, key, start, end, n);
    r := ReadRefs(fc, pages, refs);
    assert r == Targets(fc, pages, start, end, es, |es|);
  }

  // ----- lookups -----

  function EavtKeyOf(y: Formats): Fact -> Option<T.Key> { (f: Fact) => Some(y.eavtRank(Eavt(f).value)) }
  function AevtKeyOf(y: Formats): Fact -> Option<T.Key> { (f: Fact) => Some(y.aevtRank(Aevt(f).value)) }
  function AvetKeyOf(y: Formats): Fact -> Option<T.Key> { (f: Fact) => Some(y.avetRank(Avet(f).value)) }
  function VaetKeyOf(y: Formats): Fact -> Option<T.Key> { (f: Fact) => if Vaet(f).Some? then Some(y.vaetRank(Vaet(f).value)) else None }

  /** The first and the past-the-end key of a lookup in EAVT. */
  function EavtStart(l: Lookup): EavtKey
    requires !l.Attribute?
  {
    match l
    case Entity(e) => EntityStart(e)
    case EntityAttribute(e, a) => EavtKey(e, a, I64_MIN, I64_MIN, 0)
  }

  function EavtEnd(l: Lookup): EavtKey
    requires !l.Attribute?
  {
    match l
    case Entity(e) => EntityEnd(e)
    case EntityAttribute(e, a) => EavtKey(e, a + [0], I64_MIN, I64_MIN, 0)
  }

  function AevtStart(a: Text): AevtKey { AevtKey(a, 0, I64_MIN, I64_MIN, 0) }
  function AevtEnd(a: Text): AevtKey { AevtKey(a + [0], 0, I64_MIN, I64_MIN, 0) }

  /** Those of the first `n` committed facts whose index key lies in the lookup's range, in order. */
  ghost function InIndexRange(facts: seq<Fact>, n: nat, l: Lookup): seq<Fact>
    requires n <= |facts|
  {
    if n == 0 then []
    else
      var before := InIndexRange(facts, n - 1, l);
      if InLookup(l, facts[n - 1]) then before + [facts[n - 1]] else before
  }

  lemma {:induction false} RankedRange(y: Formats, facts: seq<Fact>, n: nat, l: Lookup)
    requires y.Valid() && n <= |facts|
    ensures l.Attribute? ==> InIndexRange(facts, n, l) == InKeyRange(facts, n, AevtKeyOf(y), y.aevtRank(AevtStart(l.a)), y.aevtRank(AevtEnd(l.a)))
    ensures !l.Attribute? ==> InIndexRange(facts, n, l) == InKeyRange(facts, n, EavtKeyOf(y), y.eavtRank(EavtStart(l)), y.eavtRank(EavtEnd(l)))
  {
    hide EavtLess, AevtLess;
    if n > 0 { RankedRange(y, facts, n - 1, l); }
  }

  lemma RankedOrder(y: Formats, l: Lookup, r: seq<Fact>)
    requires y.Valid() && KeyOrdered(r, if l.Attribute? then AevtKeyOf(y) else EavtKeyOf(y))
    ensures NotDescending(l, r)
  {
    forall i, j | 0 <= i < j < |r| ensures !LookupLess(l, r[j], r[i]) { KeysOrder(l, r[j], r[i]); }
    hide EavtLess, AevtLess, LookupLess;
  }

  /** Facts carry a transaction count of at least 1, so no key is the start of a lookup. */
  lemma StartFree(y: Formats, f: Fact, l: Lookup)
    requires y.Valid() && f.txCount > 0
    ensures l.Attribute? ==> AevtKeyOf(y)(f) != Some(y.aevtRank(AevtStart(l.a)))
    ensures !l.Attribute? ==> EavtKeyOf(y)(f) != Some(y.eavtRank(EavtStart(l)))
  {
    if l.Attribute? {
      var x, z := Aevt(f).value, AevtStart(l.a);
      LessTotal(x.attribute, z.attribute);
      assert AevtLess(x, z) || AevtLess(z, x);
    } else {
      var x, z := Eavt(f).value, EavtStart(l);
      LessTotal(x.attribute, z.attribute);
      assert EavtLess(x, z) || EavtLess(z, x);
    }
  }

  /** What a lookup answers from the committed facts: those in its range, as often as they are there, in key order. */
  ghost predicate CommittedAnswer(facts: seq<Fact>, l: Lookup, r: seq<Fact>) {
    NotDescending(l, r) && multiset(r) == multiset(InIndexRange(facts, |facts|, l))
  }

  /** Run one lookup over the committed facts. */
  method FetchCommitted(y: Formats, pages: T.Pages, eavtRoot: nat, aevtRoot: nat, l: Lookup,
                        ghost layout: seq<seq<Fact>>, ghost et: T.Tree, ghost at: T.Tree)
    returns (r: seq<Fact>)
    requires y.Valid() && forall i :: 0 <= i < |All(layout)| ==> All(layout)[i].txCount > 0
    requires Readable(y.eavt, y.facts, pages, eavtRoot, layout, et, EavtKeyOf(y))
    requires Readable(y.aevt, y.facts, pages, aevtRoot, layout, at, AevtKeyOf(y))
    ensures CommittedAnswer(All(layout), l, r)
  {
    hide Readable, InKeyRange, InIndexRange, FactsUpto, KeyOrdered, RanksEavt, RanksAevt, RanksAvet, RanksVaet, FactCodec.Valid, T.Codec.Valid;
    RankedRange(y, All(layout), |All(layout)|, l);
    forall i | 0 <= i < |All(layout)|
      ensures l.Attribute? ==> AevtKeyOf(y)(All(layout)[i]) != Some(y.aevtRank(AevtStart(l.a)))
      ensures !l.Attribute? ==> EavtKeyOf(y)(All(layout)[i]) != Some(y.eavtRank(EavtStart(l)))
    {
      StartFree(y, All(layout)[i], l);
    }
    if l.Attribute? {
      r := ScanFacts(y.aevt, y.facts, pages, aevtRoot, y.aevtRank(AevtStart(l.a)), y.aevtRank(AevtEnd(l.a)), layout, at, AevtKeyOf(y));
    } else {
      r := ScanFacts(y.eavt, y.facts, pages, eavtRoot, y.eavtRank(EavtStart(l)), y.eavtRank(EavtEnd(l)), layout, et, EavtKeyOf(y));
    }
    RankedOrder(y, l, r);
  }

  /** A committed fact is found if and only if it matches, whatever keys others share; the all-ones entity has no range. */
  lemma {:induction false} CommittedIff(facts: seq<Fact>, n: nat, l: Lookup, f: Fact)
    requires n <= |facts|
    ensures f in InIndexRange(facts, n, l) <==> f in facts[..n] && Matches(l, f) && !(l.Entity? && l.e == ENTITY_SPACE - 1)
  {
    hide InLookup, Matches;
    if n > 0 {
      CommittedIff(facts, n - 1, l, f);
      RangeExact(l, facts[n - 1]);
      assert facts[..n] == facts[..n - 1] + [facts[n - 1]];
    }
  }
}
