/** Any number of saves, one after the other: a lookup then answers from the facts of all of them. */
module SaveRuns {
  import opened Bytes
  import opened Facts
  import opened FactStore
  import opened IndexKeys
  import opened PackedPages
  import opened PendingLookups
  import opened CommittedLookups
  import opened SavedLookups
  import opened Lookups
  import T = BTreeModel
  import M = BTreeMerge
  import C = BTreeCheckpoint
  import V = BTreeSave

  // ----- the four indexes -----

  function CodecsOf(y: Formats): seq<T.Codec> { [y.eavt, y.aevt, y.avet, y.vaet] }
  function KeysOf(y: Formats): seq<Fact -> Option<T.Key>> { [EavtKeyOf(y), AevtKeyOf(y), AvetKeyOf(y), VaetKeyOf(y)] }

  /** Wherever the fact is stored, its entry is small enough for a page. */
  ghost predicate FitsIn(c: T.Codec, key: Fact -> Option<T.Key>, f: Fact) {
    key(f).Some? ==> forall ref: T.FactRef :: ref.page < U64_SIZE && ref.slot < 1024 ==> c.Small(T.Entry(key(f).value, ref))
  }

  ghost predicate Fits(y: Formats, f: Fact) {
    forall i :: 0 <= i < 4 ==> FitsIn(CodecsOf(y)[i], KeysOf(y)[i], f)
  }

  ghost predicate AllFit(y: Formats, facts: seq<Fact>) {
    forall j :: 0 <= j < |facts| ==> Fits(y, facts[j])
  }

  ghost predicate RefsBounded(refs: seq<T.FactRef>) {
    forall j :: 0 <= j < |refs| ==> refs[j].page < U64_SIZE && refs[j].slot < 1024
  }

  lemma {:induction false} RefSlots(layout: seq<seq<Fact>>, n: nat, start: nat)
    requires n <= |layout| && start + |layout| < U64_SIZE && forall k :: 0 <= k < |layout| ==> |layout[k]| <= 1021
    ensures RefsBounded(RefsUpto(layout, n, start))
  {
    if n > 0 { RefSlots(layout, n - 1, start); }
  }

  lemma SmallEntries(c: T.Codec, key: Fact -> Option<T.Key>, es: seq<T.Entry>, facts: seq<Fact>, refs: seq<T.FactRef>)
    requires Catalogs(es, facts, refs, key) && RefsBounded(refs) && forall j :: 0 <= j < |facts| ==> FitsIn(c, key, facts[j])
    ensures c.AllSmall(es)
  {
    hide EntriesUpto, T.Codec.Small;
    forall m | 0 <= m < |es| ensures c.Small(es[m]) {
      var j := IndexedAt(es, facts, refs, key, m);
      assert FitsIn(c, key, facts[j]);
    }
  }

  lemma {:induction false} EntriesCount(facts: seq<Fact>, refs: seq<T.FactRef>, n: nat, key: Fact -> Option<T.Key>)
    requires n <= |facts| == |refs|
    ensures |EntriesUpto(facts, refs, n, key)| <= n
  {
    if n > 0 { EntriesCount(facts, refs, n - 1, key); }
  }

  lemma IndexCount(es: seq<T.Entry>, facts: seq<Fact>, refs: seq<T.FactRef>, key: Fact -> Option<T.Key>)
    requires Catalogs(es, facts, refs, key)
    ensures |es| <= |facts|
  {
    hide EntriesUpto;
    EntriesCount(facts, refs, |facts|, key);
    assert |es| == |multiset(es)| && |EntriesUpto(facts, refs, |facts|, key)| == |multiset(EntriesUpto(facts, refs, |facts|, key))|;
  }

  /** The entries of one index over new facts, in key order. */
  method SortEntries(facts: seq<Fact>, refs: seq<T.FactRef>, key: Fact -> Option<T.Key>) returns (es: seq<T.Entry>)
    requires |facts| == |refs|
    ensures T.Sorted(es) && Catalogs(es, facts, refs, key)
  {
    hide EntryOf, M.Merge;
    es := [];
    for n := 0 to |facts|
      invariant T.Sorted(es) && multiset(es) == multiset(EntriesUpto(facts, refs, n, key))
    {
      var one := EntryOf(facts[n], refs[n], key);
      OneSorted(facts[n], refs[n], key);
      M.MergeSorted(es, one);
      M.MergePermutes(es, one);
      es := M.Merge(es, one);
    }
  }

  lemma OneSorted(f: Fact, ref: T.FactRef, key: Fact -> Option<T.Key>)
    ensures T.Sorted(EntryOf(f, ref, key))
  {}

  /** What a save merges into its indexes. */
  ghost predicate Prepared(y: Formats, facts: seq<Fact>, refs: seq<T.FactRef>, pendings: seq<seq<T.Entry>>, n: nat)
    requires n <= |pendings| && n <= 4
  {
    forall i :: 0 <= i < n ==> T.Sorted(pendings[i]) && Catalogs(pendings[i], facts, refs, KeysOf(y)[i])
  }

  method BuildSortedIndexEntries(y: Formats, facts: seq<Fact>, refs: seq<T.FactRef>) returns (pendings: seq<seq<T.Entry>>)
    requires |facts| == |refs|
    ensures |pendings| == 4 && Prepared(y, facts, refs, pendings, 4)
  {
    hide T.Sorted, Catalogs;
    pendings := [];
    for i := 0 to 4
      invariant |pendings| == i && Prepared(y, facts, refs, pendings, i)
    {
      var es := SortEntries(facts, refs, KeysOf(y)[i]);
      pendings := pendings + [es];
    }
  }

  // ----- one save -----

  /** What the header records of the file. */
  datatype Saved = Saved(pageCount: nat, factPages: nat, roots: seq<nat>)

  ghost predicate AllDescribed(y: Formats, ts: seq<Option<T.Tree>>, layout: seq<seq<Fact>>) {
    |ts| == 4 && forall i :: 0 <= i < 4 ==> Described(ts[i], layout, KeysOf(y)[i])
  }

  /** The file holds the facts of `layout` and, once there was a save, all four indexes over them. */
  ghost predicate SavedHolds(y: Formats, pages: T.Pages, s: Saved, layout: seq<seq<Fact>>, ts: seq<Option<T.Tree>>) {
    && |layout| == s.factPages && FactsAt(y.facts, pages, layout) && AllFit(y, All(layout))
    && V.HasTrees(CodecsOf(y), pages, s.roots, ts, 1 + |layout|, s.pageCount) && AllDescribed(y, ts, layout)
    && if layout == [] then ts == [None, None, None, None] else forall i :: 0 <= i < 4 ==> ts[i].Some?
  }

  lemma LayoutFew(fc: FactCodec, pages: seq<seq<byte>>, layout: seq<seq<Fact>>)
    requires Laid(fc, pages, layout)
    ensures forall k :: 0 <= k < |layout| ==> |layout[k]| <= 1021
  {
    hide PackedHolds;
    forall k | 0 <= k < |layout| ensures |layout[k]| <= 1021 { SlotsFew(fc, pages[k], layout[k]); }
  }

  lemma StoredFew(fc: FactCodec, pages: T.Pages, layout: seq<seq<Fact>>)
    requires FactsAt(fc, pages, layout)
    ensures forall k :: 0 <= k < |layout| ==> |layout[k]| <= 1021
  {
    hide PackedHolds;
    forall k | 0 <= k < |layout| ensures |layout[k]| <= 1021 {
      assert PageAt(fc, pages, k + 1, layout[k]);
      SlotsFew(fc, pages[k + 1], layout[k]);
    }
  }

  /** One index of a save can be merged. */
  lemma IndexMergeable(y: Formats, pages: T.Pages, s: Saved, layout: seq<seq<Fact>>, ts: seq<Option<T.Tree>>,
                       added: seq<seq<Fact>>, pending: seq<T.Entry>, i: nat)
    requires i < 4 && y.Valid() && SavedHolds(y, pages, s, layout, ts) && AllFit(y, All(added)) && 1 + |layout| + |added| < U64_SIZE
    requires RefsBounded(Refs(layout)) && RefsBounded(RefsFrom(added, 1 + |layout|))
    requires T.Sorted(pending) && Catalogs(pending, All(added), RefsFrom(added, 1 + |layout|), KeysOf(y)[i])
    ensures V.Mergeable(CodecsOf(y)[i], ts[i], pending)
  {
    hide Catalogs, FactsUpto, RefsUpto, FactsAt, FitsIn, RefsBounded, T.NodeStored, T.Chain, T.Sorted, T.Codec.AllSmall, T.Codec.Valid, M.Later;
    var c, key, es := CodecsOf(y)[i], KeysOf(y)[i], V.OldEntries(ts[i]);
    assert V.HasTree(c, pages, s.roots[i], ts[i], 1 + |layout|, s.pageCount);
    assert Described(ts[i], layout, key);
    EmptySorted();
    SavedLater(es, layout, pending, added, key);
    FitsEach(y, All(layout), i);
    FitsEach(y, All(added), i);
    SmallEntries(c, key, es, All(layout), Refs(layout));
    SmallEntries(c, key, pending, All(added), RefsFrom(added, 1 + |layout|));
  }

  lemma EmptySorted()
    ensures T.Sorted([])
  {}

  lemma FitsEach(y: Formats, facts: seq<Fact>, i: nat)
    requires i < 4 && AllFit(y, facts)
    ensures forall j :: 0 <= j < |facts| ==> FitsIn(CodecsOf(y)[i], KeysOf(y)[i], facts[j])
  {
    hide FitsIn;
    forall j | 0 <= j < |facts| ensures FitsIn(CodecsOf(y)[i], KeysOf(y)[i], facts[j]) { assert Fits(y, facts[j]); }
  }

  lemma NeedBound(ts: seq<Option<T.Tree>>, pendings: seq<seq<T.Entry>>, n: nat)
    requires |ts| == |pendings| == 4 && forall k :: 0 <= k < 4 ==> |V.OldEntries(ts[k])| + |pendings[k]| <= n
    ensures V.Need(ts, pendings, 0) <= 12 * n + 4
  {
    hide V.OldEntries;
    NeedStep(ts, pendings, 3, n);
    NeedStep(ts, pendings, 2, n);
    NeedStep(ts, pendings, 1, n);
    NeedStep(ts, pendings, 0, n);
    assert V.Need(ts, pendings, 4) == 0;
    hide V.Need;
  }

  lemma NeedStep(ts: seq<Option<T.Tree>>, pendings: seq<seq<T.Entry>>, i: nat, n: nat)
    requires i < |ts| == |pendings| && |V.OldEntries(ts[i])| + |pendings[i]| <= n
    ensures V.Need(ts, pendings, i) <= V.Need(ts, pendings, i + 1) + 3 * n + 1
  {
    hide V.OldEntries;
  }

  /** Room for the pages of a save. */
  ghost predicate Room(layout: seq<seq<Fact>>, facts: seq<Fact>) {
    |layout| + 13 * (|All(layout)| + |facts|) + 6 < U64_SIZE
  }

  /** All that the page-level save asks for. */
  lemma SaveReady(y: Formats, pages: T.Pages, s: Saved, layout: seq<seq<Fact>>, ts: seq<Option<T.Tree>>,
                  facts: seq<Fact>, packed: seq<seq<byte>>, added: seq<seq<Fact>>, pendings: seq<seq<T.Entry>>)
    requires y.Valid() && SavedHolds(y, pages, s, layout, ts) && AllFit(y, facts) && Room(layout, facts)
    requires Laid(y.facts, packed, added) && All(added) == facts && |added| <= |facts| + 1
    requires |pendings| == 4 && Prepared(y, facts, RefsFrom(added, 1 + |layout|), pendings, 4)
    ensures |ts| == 4 && forall i :: 0 <= i < 4 ==> V.Mergeable(CodecsOf(y)[i], ts[i], pendings[i])
    ensures 1 + |layout| + |packed| + V.Need(ts, pendings, 0) < U64_SIZE
  {
    hide SavedHolds, Laid, FactsUpto, RefsUpto, AllFit, Prepared, V.Mergeable, RefsBounded, V.Need, Formats.Valid, V.OldEntries;
    LaidLengths(y.facts, packed, added);
    BoundedRefs(y, pages, s, layout, ts, packed, added);
    SavedShape(y, pages, s, layout, ts);
    forall i | 0 <= i < 4
      ensures V.Mergeable(CodecsOf(y)[i], ts[i], pendings[i]) && |V.OldEntries(ts[i])| + |pendings[i]| <= |All(layout)| + |facts|
    {
      IndexReady(y, pages, s, layout, ts, facts, added, pendings, i);
    }
    NeedBound(ts, pendings, |All(layout)| + |facts|);
  }

  lemma BoundedRefs(y: Formats, pages: T.Pages, s: Saved, layout: seq<seq<Fact>>, ts: seq<Option<T.Tree>>, packed: seq<seq<byte>>, added: seq<seq<Fact>>)
    requires SavedHolds(y, pages, s, layout, ts) && Laid(y.facts, packed, added) && 1 + |layout| + |added| < U64_SIZE
    ensures RefsBounded(Refs(layout)) && RefsBounded(RefsFrom(added, 1 + |layout|))
  {
    hide Laid, FactsAt, FactsUpto, RefsUpto, AllFit, RefsBounded, V.HasTrees, AllDescribed;
    LayoutFew(y.facts, packed, added);
    StoredFew(y.facts, pages, layout);
    RefSlots(layout, |layout|, 1);
    RefSlots(added, |added|, 1 + |layout|);
  }

  lemma IndexReady(y: Formats, pages: T.Pages, s: Saved, layout: seq<seq<Fact>>, ts: seq<Option<T.Tree>>,
                   facts: seq<Fact>, added: seq<seq<Fact>>, pendings: seq<seq<T.Entry>>, i: nat)
    requires i < 4 && y.Valid() && SavedHolds(y, pages, s, layout, ts) && AllFit(y, facts) && 1 + |layout| + |added| < U64_SIZE
    requires RefsBounded(Refs(layout)) && RefsBounded(RefsFrom(added, 1 + |layout|)) && All(added) == facts
    requires |pendings| == 4 && Prepared(y, facts, RefsFrom(added, 1 + |layout|), pendings, 4)
    ensures |ts| == 4 && V.Mergeable(CodecsOf(y)[i], ts[i], pendings[i]) && |V.OldEntries(ts[i])| + |pendings[i]| <= |All(layout)| + |facts|
  {
    hide FactsAt, FactsUpto, RefsUpto, Catalogs, AllFit, V.HasTrees, V.Mergeable, T.Sorted, RefsBounded, V.OldEntries, Formats.Valid;
    var key, refs := KeysOf(y)[i], RefsFrom(added, 1 + |layout|);
    assert T.Sorted(pendings[i]) && Catalogs(pendings[i], facts, refs, key);
    assert Described(ts[i], layout, key);
    IndexMergeable(y, pages, s, layout, ts, added, pendings[i], i);
    IndexCount(V.OldEntries(ts[i]), All(layout), Refs(layout), key);
    IndexCount(pendings[i], facts, refs, key);
  }

  lemma LaidLengths(fc: FactCodec, pages: seq<seq<byte>>, layout: seq<seq<Fact>>)
    requires Laid(fc, pages, layout)
    ensures |pages| == |layout|
  {}

  /** All that a save leaves. */
  lemma SaveDone(y: Formats, before: T.Pages, after: T.Pages, s: Saved, layout: seq<seq<Fact>>, ts: seq<Option<T.Tree>>,
                 facts: seq<Fact>, packed: seq<seq<byte>>, added: seq<seq<Fact>>, pendings: seq<seq<T.Entry>>,
                 roots: seq<nat>, next: nat, ts': seq<T.Tree>) returns (all: seq<Option<T.Tree>>)
    requires SavedHolds(y, before, s, layout, ts) && AllFit(y, facts)
    requires Laid(y.facts, packed, added) && All(added) == facts && added != []
    requires |pendings| == 4 && Prepared(y, facts, RefsFrom(added, 1 + |layout|), pendings, 4)
    requires |roots| == |ts'| == |ts| == 4 && T.SameOutside(before, after, 1 + |layout|, next)
    requires V.AllRebuilt(CodecsOf(y), before, after, roots, ts, pendings, ts', 1 + |layout| + |packed|, next)
    requires forall i :: 0 <= i < |packed| ==> C.PageIs(after, 1 + |layout| + i, packed[i])
    ensures SavedHolds(y, after, Saved(next, s.factPages + |packed|, roots), layout + added, all)
    ensures All(layout + added) == All(layout) + facts
  {
    hide Laid, FactsAt, FactsUpto, RefsUpto, AllFit, Prepared, V.HasTrees, V.AllRebuilt, T.SameOutside, C.PageIs, Described;
    LaidLengths(y.facts, packed, added);
    BatchesJoin(layout, added, |added|, 1);
    assert All(layout + added) == All(layout) + facts;
    FitsJoin(y, All(layout), facts);
    SavedPages(y.facts, before, after, layout, packed, added, next);
    all := V.SavedHasTrees(CodecsOf(y), before, after, roots, ts, pendings, ts', 1 + |layout| + |packed|, next);
    forall i | 0 <= i < 4 ensures Described(all[i], layout + added, KeysOf(y)[i]) {
      IndexDone(y, before, after, layout, ts, facts, packed, added, pendings, roots, next, ts', i);
    }
  }

  lemma FitsJoin(y: Formats, fs: seq<Fact>, gs: seq<Fact>)
    requires AllFit(y, fs) && AllFit(y, gs)
    ensures AllFit(y, fs + gs)
  {
    hide Fits;
  }

  lemma IndexDone(y: Formats, before: T.Pages, after: T.Pages, layout: seq<seq<Fact>>, ts: seq<Option<T.Tree>>,
                  facts: seq<Fact>, packed: seq<seq<byte>>, added: seq<seq<Fact>>, pendings: seq<seq<T.Entry>>,
                  roots: seq<nat>, next: nat, ts': seq<T.Tree>, i: nat)
    requires i < 4 && FactsAt(y.facts, before, layout) && AllDescribed(y, ts, layout)
    requires Laid(y.facts, packed, added) && All(added) == facts
    requires |pendings| == 4 && Prepared(y, facts, RefsFrom(added, 1 + |layout|), pendings, 4)
    requires |roots| == |ts'| == |ts| == 4 && T.SameOutside(before, after, 1 + |layout|, next)
    requires V.AllRebuilt(CodecsOf(y), before, after, roots, ts, pendings, ts', 1 + |layout| + |packed|, next)
    requires forall i :: 0 <= i < |packed| ==> C.PageIs(after, 1 + |layout| + i, packed[i])
    ensures Described(Some(ts'[i]), layout + added, KeysOf(y)[i])
  {
    hide Laid, FactsAt, FactsUpto, RefsUpto, T.SameOutside, C.PageIs, V.Rebuilt, Catalogs, T.Sorted;
    assert Described(ts[i], layout, KeysOf(y)[i]);
    assert Catalogs(pendings[i], facts, RefsFrom(added, 1 + |layout|), KeysOf(y)[i]);
    assert V.Rebuilt(CodecsOf(y)[i], before, after, roots[i], ts[i], pendings[i], ts'[i], 1 + |layout| + |packed|, next);
    hide Described, Prepared, V.AllRebuilt, AllDescribed;
    SavedReadable(CodecsOf(y)[i], y.facts, before, after, layout, packed, added, roots[i], ts[i], pendings[i], ts'[i], 1 + |layout| + |packed|, next, KeysOf(y)[i]);
  }

  /** Some fact is too large for a page. */
  ghost predicate Refused(y: Formats, facts: seq<Fact>) {
    exists i :: 0 <= i < |facts| && |y.facts.enc(facts[i])| > MAX_FACT_BYTES
  }

  /** Pack the facts, build their index entries, write both: the file then holds them behind the ones before. A fact too
      large for a page makes it fail before anything is written. */
  method Save(file: T.PageFile, y: Formats, s: Saved, facts: seq<Fact>, ghost layout: seq<seq<Fact>>, ghost ts: seq<Option<T.Tree>>)
    returns (r: Option<Saved>, ghost layout': seq<seq<Fact>>, ghost ts': seq<Option<T.Tree>>)
    requires y.Valid() && SavedHolds(y, file.pages, s, layout, ts) && AllFit(y, facts) && Room(layout, facts)
    modifies file
    ensures r.None? <==> Refused(y, facts)
    ensures r.None? ==> file.pages == old(file.pages) && layout' == layout && ts' == ts
    ensures r.Some? ==> SavedHolds(y, file.pages, r.value, layout', ts') && All(layout') == All(layout) + facts
    ensures r.Some? ==> |layout| < |layout'| <= |layout| + |facts| + 1
  {
    hide SavedHolds, AllFit, Room, Laid, FactsUpto, RefsUpto, Prepared, V.Mergeable, V.Need, V.AllRebuilt, Formats.Valid, FactCodec.Valid;
    layout', ts' := layout, ts;
    FormatsValid(y);
    SavedShape(y, file.pages, s, layout, ts);
    var packed; ghost var added;
    packed, added := PackFacts(y.facts, facts, 1 + s.factPages);
    if packed.None? { return None, layout, ts; }
    var pages, refs := packed.value.0, packed.value.1;
    UptoLengths(added, |added|, 1 + s.factPages);
    var pendings := BuildSortedIndexEntries(y, facts, refs);
    SaveReady(y, file.pages, s, layout, ts, facts, pages, added, pendings);
    var roots, next; ghost var trees;
    roots, next, trees := V.SavePages(file, CodecsOf(y), s.roots, s.pageCount, pages, 1 + s.factPages, pendings, ts, 1 + |layout|);
    ts' := SaveDone(y, old(file.pages), file.pages, s, layout, ts, facts, pages, added, pendings, roots, next, trees);
    layout' := layout + added;
    r := Some(Saved(next, s.factPages + |pages|, roots));
  }

  lemma FormatsValid(y: Formats)
    requires y.Valid()
    ensures y.facts.Valid()
  {}

  lemma SavedShape(y: Formats, pages: T.Pages, s: Saved, layout: seq<seq<Fact>>, ts: seq<Option<T.Tree>>)
    requires SavedHolds(y, pages, s, layout, ts)
    ensures |layout| == s.factPages && V.HasTrees(CodecsOf(y), pages, s.roots, ts, 1 + |layout|, s.pageCount) && |ts| == 4
  {}

  // ----- runs of saves -----

  /** The facts of the batches that were not refused, in order. */
  ghost function Accepted(y: Formats, batches: seq<seq<Fact>>, n: nat): seq<Fact>
    requires n <= |batches|
  {
    if n == 0 then []
    else if Refused(y, batches[n - 1]) then Accepted(y, batches, n - 1)
    else Accepted(y, batches, n - 1) + batches[n - 1]
  }

  ghost function Total(batches: seq<seq<Fact>>, n: nat): nat
    requires n <= |batches|
  {
    if n == 0 then 0 else Total(batches, n - 1) + |batches[n - 1]| + 1
  }

  lemma {:induction false} TotalRises(batches: seq<seq<Fact>>, i: nat, n: nat)
    requires i <= n <= |batches|
    ensures Total(batches, i) <= Total(batches, n)
  {
    if i < n { TotalRises(batches, i, n - 1); }
  }

  lemma NothingDescribed(key: Fact -> Option<T.Key>)
    ensures Described(None, [], key)
  {
    assert EntriesUpto([], [], 0, key) == [];
  }

  lemma NothingSaved(y: Formats)
    ensures SavedHolds(y, map[], Saved(0, 0, [0, 0, 0, 0]), [], [None, None, None, None]) && All([]) == []
  {
    var none: seq<Option<T.Tree>> := [None, None, None, None];
    forall i | 0 <= i < 4 ensures Described(none[i], [], KeysOf(y)[i]) { NothingDescribed(KeysOf(y)[i]); }
    hide Described;
  }

  /** Save batch after batch. */
  method SaveAll(y: Formats, batches: seq<seq<Fact>>)
    returns (file: T.PageFile, s: Saved, ghost layout: seq<seq<Fact>>, ghost ts: seq<Option<T.Tree>>)
    requires y.Valid() && (forall i :: 0 <= i < |batches| ==> AllFit(y, batches[i])) && 14 * Total(batches, |batches|) + 6 < U64_SIZE
    ensures fresh(file) && SavedHolds(y, file.pages, s, layout, ts) && All(layout) == Accepted(y, batches, |batches|)
  {
    hide SavedHolds, AllFit, FactsUpto, Refused;
    file := new T.PageFile();
    NothingSaved(y);
    s, layout, ts := Saved(0, 0, [0, 0, 0, 0]), [], [None, None, None, None];
    for i := 0 to |batches|
      invariant fresh(file) && SavedHolds(y, file.pages, s, layout, ts) && All(layout) == Accepted(y, batches, i)
      invariant |layout| <= Total(batches, i) && |All(layout)| <= Total(batches, i)
    {
      TotalRises(batches, i + 1, |batches|);
      var r;
      r, layout, ts := Save(file, y, s, batches[i], layout, ts);
      if r.Some? { s := r.value; }
    }
  }

  // ----- lookups after them -----

  function DiskOf(pages: T.Pages, s: Saved): Disk {
    Disk(pages, s.factPages, if |s.roots| == 4 && s.roots[0] != 0 then Some((s.roots[0], s.roots[1])) else None)
  }

  /** The trees a lookup goes through. */
  ghost function TreeAt(ts: seq<Option<T.Tree>>, i: nat): T.Tree {
    if i < |ts| && ts[i].Some? then ts[i].value else T.Leaf(0, [])
  }

  lemma SavedServes(y: Formats, pages: T.Pages, s: Saved, layout: seq<seq<Fact>>, ts: seq<Option<T.Tree>>)
    requires SavedHolds(y, pages, s, layout, ts) && forall i :: 0 <= i < |All(layout)| ==> All(layout)[i].txCount > 0
    ensures DiskHolds(y, DiskOf(pages, s), layout, TreeAt(ts, 0), TreeAt(ts, 1)) && (DiskOf(pages, s).index.Some? <==> layout != [])
  {
    hide FactsAt, FactsUpto, RefsUpto, Catalogs, AllFit, T.Stored;
    assert V.HasTree(CodecsOf(y)[0], pages, s.roots[0], ts[0], 1 + |layout|, s.pageCount);
    assert V.HasTree(CodecsOf(y)[1], pages, s.roots[1], ts[1], 1 + |layout|, s.pageCount);
    if layout != [] {
      assert Described(ts[0], layout, KeysOf(y)[0]) && Described(ts[1], layout, KeysOf(y)[1]);
    }
  }

  ghost predicate Counted(facts: seq<Fact>) { forall i :: 0 <= i < |facts| ==> facts[i].txCount > 0 }

  /**
   * After any number of saves, with any facts pending: every lookup answers with the pending facts its range leads to and
   * all facts of the accepted batches in its range, each as often as it was saved, both in key order.
   */
  method LookupsAfterSaves(y: Formats, batches: seq<seq<Fact>>, pending: seq<Fact>, eavt: map<EavtKey, nat>, aevt: map<AevtKey, nat>, ls: seq<Lookup>)
    returns (r: Option<seq<Fact>>, ghost indexed: bool, ghost parts: seq<seq<Fact>>)
    requires y.Valid() && (forall i :: 0 <= i < |batches| ==> AllFit(y, batches[i])) && 14 * Total(batches, |batches|) + 6 < U64_SIZE
    requires Counted(Accepted(y, batches, |batches|))
    requires eavt == Index(pending, |pending|, Eavt) && aevt == Index(pending, |pending|, Aevt)
    ensures r.None? <==> exists i :: 0 <= i < |ls| && Panics(pending, ls[i])
    ensures !indexed ==> Accepted(y, batches, |batches|) == []
    ensures r.Some? ==>
      && |parts| == |ls| && r.value == Joined(parts, |parts|)
      && Answers(Accepted(y, batches, |batches|), indexed, pending, ls, parts, |ls|)
  {
    hide SavedHolds, DiskHolds, Answers, Panics, Index, AllFit, Joined, FactsUpto, Formats.Valid;
    var file, s; ghost var layout, ts;
    file, s, layout, ts := SaveAll(y, batches);
    SavedServes(y, file.pages, s, layout, ts);
    indexed := DiskOf(file.pages, s).index.Some?;
    if !indexed { NothingSaved(y); }
    r, parts := GetFactsForLookups(y, DiskOf(file.pages, s), pending, eavt, aevt, ls, layout, TreeAt(ts, 0), TreeAt(ts, 1));
  }

  /** The facts in a lookup's range are the matching ones, the all-ones entity aside. */
  lemma {:induction false} RangeFilters(facts: seq<Fact>, n: nat, l: Lookup)
    requires n <= |facts| && !AllOnes(l)
    ensures InIndexRange(facts, n, l) == Filtered(facts, n, l)
  {
    hide InLookup, Matches;
    if n > 0 {
      RangeFilters(facts, n - 1, l);
      RangeExact(l, facts[n - 1]);
    }
  }
}
