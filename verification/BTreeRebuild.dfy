/** Checkpoint-time incremental rebuild: untouched leaves are copied, touched ones repacked. */
module BTreeRebuild {
  import opened Bytes
  import opened SlottedPage
  import opened BTreePages
  import opened BTreeModel
  import opened BTreeBuild
  import opened BTreeMerge
  import opened BTreeScan

  /** A leaf page with these entries, whatever its link. */
  ghost predicate HoldsEntries(c: Codec, p: seq<byte>, es: seq<Entry>) {
    |p| == PAGE_SIZE && LeafHolds(p, c.Recs(es), Field(p, 4, 8))
  }

  /** Leaf `l` was handed to the emitter as page `raw`. */
  ghost predicate PushedAt(c: Codec, raw: seq<byte>, l: Tree, id: nat) {
    l.Leaf? && l.id == id && l.entries != [] && c.Small(l.entries[0]) && HoldsEntries(c, raw, l.entries)
  }

  ghost predicate Pushed(c: Codec, raw: seq<seq<byte>>, ls: seq<Tree>, start: nat) {
    |raw| == |ls| && forall i :: 0 <= i < |ls| ==> PushedAt(c, raw[i], ls[i], start + i)
  }

  /** The page at `id` is `raw` with only its link replaced. */
  ghost predicate Rewritten(pages: Pages, raw: seq<byte>, id: nat, next: nat) {
    |raw| == PAGE_SIZE && next < U64_SIZE && id in pages && pages[id] == WithNext(raw, next)
  }

  /** All pushed pages are in the file, linked in a chain. */
  ghost predicate AllRewritten(pages: Pages, raw: seq<seq<byte>>, start: nat) {
    forall i :: 0 <= i < |raw| ==> Rewritten(pages, raw[i], start + i, if i + 1 < |raw| then start + i + 1 else 0)
  }

  /** The first `n` pushed pages are in the file, each linked to the page after it. */
  ghost predicate Released(pages: Pages, raw: seq<seq<byte>>, start: nat, n: nat)
    requires n <= |raw|
  {
    forall i :: 0 <= i < n ==> Rewritten(pages, raw[i], start + i, start + i + 1)
  }

  type Held = Option<(nat, seq<byte>)>

  /** All but the last pushed leaf are in the file; the last is held. */
  ghost predicate Emitting(c: Codec, pages: Pages, start: nat, held: Held, infos: seq<Info>,
                           raw: seq<seq<byte>>, ls: seq<Tree>)
  {
    && AreLeaves(ls) && Pushed(c, raw, ls, start) && InfosOf(c, infos, ls)
    && (if ls == [] then held == None
        else held == Some((start + |ls| - 1, raw[|ls| - 1])) && Released(pages, raw, start, |ls| - 1))
  }

  function Release(pages: Pages, held: Held, next: nat): Pages
    requires next < U64_SIZE && (held.Some? ==> |held.value.1| == PAGE_SIZE)
  {
    if held.None? then pages else pages[held.value.0 := WithNext(held.value.1, next)]
  }

  lemma HeldPage(c: Codec, pages: Pages, start: nat, held: Held, infos: seq<Info>, raw: seq<seq<byte>>, ls: seq<Tree>)
    requires Emitting(c, pages, start, held, infos, raw, ls)
    ensures held.Some? ==> |held.value.1| == PAGE_SIZE
  {
    hide InfosOf, Released;
    if held.Some? { assert PushedAt(c, raw[|ls| - 1], ls[|ls| - 1], start + (|ls| - 1)); }
  }

  lemma EmittingShape(c: Codec, pages: Pages, start: nat, held: Held, infos: seq<Info>, raw: seq<seq<byte>>, ls: seq<Tree>)
    requires Emitting(c, pages, start, held, infos, raw, ls)
    ensures AreLeaves(ls) && |raw| == |ls| == |infos|
  {
  }

  lemma EmittingPush(c: Codec, pages: Pages, start: nat, held: Held, infos: seq<Info>,
                     raw: seq<seq<byte>>, ls: seq<Tree>, page: seq<byte>, es: seq<Entry>,
                     pages': Pages, held': Held, infos': seq<Info>, raw': seq<seq<byte>>, ls': seq<Tree>)
    requires Emitting(c, pages, start, held, infos, raw, ls)
    requires HoldsEntries(c, page, es) && es != [] && c.Small(es[0])
    requires start + |ls| < U64_SIZE && (held.Some? ==> |held.value.1| == PAGE_SIZE)
    requires pages' == Release(pages, held, start + |ls|) && held' == Some((start + |ls|, page))
    requires infos' == infos + [Info(start + |ls|, c.key(es[0].key))]
    requires raw' == raw + [page] && ls' == ls + [Leaf(start + |ls|, es)]
    ensures Emitting(c, pages', start, held', infos', raw', ls')
    ensures AllOf(ls') == AllOf(ls) + es
    ensures SameOutside(pages, pages', start, start + |ls'|)
  {
    hide HoldsEntries, PushedAt, Codec.Small;
    PushedAppend(c, raw, ls, start, page, es);
    AllOfAppend(ls, Leaf(start + |ls|, es));
    ReleasedPush(pages, pages', raw, page, start, held);
    hide Pushed, Released, SameOutside, Release, AllOf;
    assert AreLeaves(ls');
    assert InfosOf(c, infos', ls');
  }

  /** Releasing the held page links all pages pushed so far. */
  lemma ReleasedPush(pages: Pages, pages': Pages, raw: seq<seq<byte>>, page: seq<byte>, start: nat, held: Held)
    requires start + |raw| < U64_SIZE && (held.Some? ==> |held.value.1| == PAGE_SIZE)
    requires if raw == [] then held == None
      else held == Some((start + |raw| - 1, raw[|raw| - 1])) && Released(pages, raw, start, |raw| - 1)
    requires pages' == Release(pages, held, start + |raw|)
    ensures Released(pages', raw + [page], start, |raw|) && SameOutside(pages, pages', start, start + |raw| + 1)
  {
    hide WithNext;
    var raw' := raw + [page];
    forall i | 0 <= i < |raw| ensures Rewritten(pages', raw'[i], start + i, start + i + 1) {
      assert raw'[i] == raw[i];
      if i < |raw| - 1 { assert Rewritten(pages, raw[i], start + i, start + i + 1); }
    }
  }

  /** Releasing the last page with link 0 leaves the whole run written and chained. */
  lemma EmittingFinish(c: Codec, pages: Pages, pages': Pages, start: nat, held: Held, infos: seq<Info>, raw: seq<seq<byte>>, ls: seq<Tree>)
    requires Emitting(c, pages, start, held, infos, raw, ls) && ls != []
    requires held.Some? && |held.value.1| == PAGE_SIZE && pages' == Release(pages, held, 0)
    ensures AllRewritten(pages', raw, start) && Written(c, pages', ls, start, |ls| - 1)
    ensures SameOutside(pages, pages', start, start + |ls|)
  {
    hide WithNext, PushedAt, InfosOf;
    forall i | 0 <= i < |ls| ensures Rewritten(pages', raw[i], start + i, if i + 1 < |ls| then start + i + 1 else 0) {
      if i + 1 < |ls| { assert Rewritten(pages, raw[i], start + i, start + i + 1); }
    }
    forall i | 0 <= i < |ls| ensures WrittenAt(c, pages', ls[i], start + i, if i < |ls| - 1 then start + i + 1 else 0) {
      RewrittenHolds(c, pages', raw[i], ls[i], start + i, if i + 1 < |ls| then start + i + 1 else 0);
    }
  }

  lemma RewrittenHolds(c: Codec, pages: Pages, raw: seq<byte>, l: Tree, id: nat, next: nat)
    requires PushedAt(c, raw, l, id) && Rewritten(pages, raw, id, next)
    ensures WrittenAt(c, pages, l, id, next)
  {
    hide SlotsHold;
    WithNextHolds(raw, c.Recs(l.entries), Field(raw, 4, 8), next);
  }

  /** Writes leaf pages at consecutive ids, holding one back until its link is known. */
  class LeafEmitter {
    const file: PageFile
    const start: nat
    var nextPage: nat
    var held: Held
    var infos: seq<Info>
    ghost var raw: seq<seq<byte>>
    ghost var ls: seq<Tree>

    constructor (file: PageFile, start: nat)
      ensures this.file == file && this.start == start && nextPage == start
      ensures held == None && infos == [] && raw == [] && ls == []
    {
      this.file, this.start, nextPage := file, start, start;
      held, infos, raw, ls := None, [], [], [];
    }

    ghost predicate Valid(c: Codec)
      reads this, file
    {
      nextPage == start + |ls| && Emitting(c, file.pages, start, held, infos, raw, ls)
    }

    /** Write the held page, linked to `next`. */
    method ReleaseHeld(next: nat)
      requires next < U64_SIZE && (held.Some? ==> |held.value.1| == PAGE_SIZE)
      modifies this`held, file
      ensures held == None && file.pages == Release(old(file.pages), old(held), next)
    {
      if held.Some? {
        file.WritePage(held.value.0, WithNext(held.value.1, next));
        held := None;
      }
    }

    /** Take the next leaf: the page before it is written, linked to this one. */
    method Push(page: seq<byte>, firstKey: Record, ghost es: seq<Entry>)
      requires nextPage < U64_SIZE && (held.Some? ==> |held.value.1| == PAGE_SIZE)
      modifies this, file
      ensures nextPage == old(nextPage) + 1 && held == Some((old(nextPage), page))
      ensures file.pages == Release(old(file.pages), old(held), old(nextPage))
      ensures infos == old(infos) + [Info(old(nextPage), firstKey)]
      ensures raw == old(raw) + [page] && ls == old(ls) + [Leaf(old(nextPage), es)]
    {
      var pageId := nextPage;
      nextPage := nextPage + 1;
      ReleaseHeld(pageId);
      held := Some((pageId, page));
      infos := infos + [Info(pageId, firstKey)];
      raw, ls := raw + [page], ls + [Leaf(pageId, es)];
    }

    /** A push keeps the emitter valid and adds the leaf's entries. */
    method PushLeaf(c: Codec, page: seq<byte>, firstKey: Record, ghost es: seq<Entry>)
      requires Valid(c) && HoldsEntries(c, page, es) && es != [] && c.Small(es[0])
      requires firstKey == c.key(es[0].key) && nextPage < U64_SIZE
      modifies this, file
      ensures Valid(c) && raw == old(raw) + [page] && ls == old(ls) + [Leaf(old(nextPage), es)]
      ensures AllOf(ls) == old(AllOf(ls)) + es
      ensures SameOutside(old(file.pages), file.pages, start, start + |ls|)
    {
      HeldPage(c, file.pages, start, held, infos, raw, ls);
      Push(page, firstKey, es);
      EmittingPush(c, old(file.pages), start, old(held), old(infos), old(raw), old(ls), page, es,
                   file.pages, held, infos, raw, ls);
    }

    /** Write the last leaf with link 0: all pushed leaves form a linked run. */
    method Finish(c: Codec) returns (r: seq<Info>, next: nat)
      requires Valid(c) && ls != []
      modifies this`held, file
      ensures r == infos && next == nextPage && InfosOf(c, r, ls)
      ensures Written(c, file.pages, ls, start, |ls| - 1)
      ensures AllRewritten(file.pages, raw, start)
      ensures SameOutside(old(file.pages), file.pages, start, start + |ls|)
    {
      HeldPage(c, file.pages, start, held, infos, raw, ls);
      ghost var before, was := file.pages, held;
      hide AllRewritten, Written, SameOutside, Pushed, Released, Release;
      ReleaseHeld(0);
      r, next := infos, nextPage;
      EmittingFinish(c, before, file.pages, start, was, infos, raw, ls);
    }
  }

  lemma PushedAppend(c: Codec, raw: seq<seq<byte>>, ls: seq<Tree>, start: nat, page: seq<byte>, es: seq<Entry>)
    requires Pushed(c, raw, ls, start) && HoldsEntries(c, page, es) && es != [] && c.Small(es[0])
    ensures Pushed(c, raw + [page], ls + [Leaf(start + |ls|, es)], start)
  {
    var raw', ls' := raw + [page], ls + [Leaf(start + |ls|, es)];
    forall i | 0 <= i < |ls'| ensures PushedAt(c, raw'[i], ls'[i], start + i) {
      if i < |ls| { assert PushedAt(c, raw[i], ls[i], start + i); }
    }
  }

  // ----- emit_packed -----

  /** The leaf being packed fits a page. */
  ghost predicate Packed(c: Codec, cur: seq<Entry>, size: nat) {
    size == Cost(c, cur) && HEADER_SIZE + size <= PAGE_SIZE && c.AllSmall(cur)
  }

  method TotalCost(c: Codec, es: seq<Entry>) returns (total: nat)
    ensures total == Cost(c, es)
  {
    total := 0;
    assert c.Recs(es[..0]) == [];
    for i := 0 to |es|
      invariant total == Cost(c, es[..i])
    {
      CostPrefix(c, es, i);
      total := total + |c.entry(es[i])| + 4;
    }
    assert es[..|es|] == es;
  }

  method FlushLeaf(em: LeafEmitter, c: Codec, cur: seq<Entry>, ghost size: nat)
    requires em.Valid(c) && cur != [] && Packed(c, cur, size) && em.nextPage < U64_SIZE
    modifies em, em.file
    ensures em.Valid(c) && AllOf(em.ls) == old(AllOf(em.ls)) + cur
    ensures |em.ls| == |old(em.ls)| + 1 && old(em.ls) <= em.ls && old(em.raw) <= em.raw
    ensures SameOutside(old(em.file.pages), em.file.pages, em.start, em.start + |em.ls|)
  {
    var page := EncodeLeafPage(c.Recs(cur), 0);
    em.PushLeaf(c, page, c.key(cur[0].key), cur);
  }

  lemma PackMore(c: Codec, cur: seq<Entry>, size: nat, e: Entry, target: nat)
    requires Packed(c, cur, size) && c.Small(e) && target <= PAGE_SIZE - HEADER_SIZE
    requires cur == [] || size + |c.entry(e)| + 4 <= target
    ensures Packed(c, cur + [e], size + |c.entry(e)| + 4)
  {
    CostAppend(c, cur, e);
    if cur == [] { assert c.Recs(cur) == []; }
  }

  lemma PackedNone(c: Codec)
    ensures Packed(c, [], 0)
  {
    assert c.Recs([]) == [];
  }

  lemma CostPrefix(c: Codec, es: seq<Entry>, i: nat)
    requires i < |es|
    ensures es[..i + 1] == es[..i] + [es[i]]
    ensures Cost(c, es[..i + 1]) == Cost(c, es[..i]) + |c.entry(es[i])| + 4
  {
    assert es[..i + 1] == es[..i] + [es[i]];
    CostAppend(c, es[..i], es[i]);
  }

  /** How many leaves were flushed so far, their total cost, and the last one's. */
  datatype Tally = Tally(leaves: nat, emitted: nat, last: nat)

  /** The packing loop's state: leaf in progress and the pairing it keeps. */
  ghost predicate PackState(c: Codec, cur: seq<Entry>, size: nat, target: nat, tally: Tally, done: nat) {
    && Packed(c, cur, size) && target <= PAGE_SIZE - HEADER_SIZE
    && tally.emitted + size == done
    && Pairs(tally.leaves, tally.emitted, tally.last, size, target)
  }

  lemma PackFlushed(c: Codec, cur: seq<Entry>, size: nat, target: nat, tally: Tally, done: nat, e: Entry)
    requires PackState(c, cur, size, target, tally, done) && c.Small(e)
    requires size + |c.entry(e)| + 4 > target
    ensures PackState(c, [e], |c.entry(e)| + 4, target, Tally(tally.leaves + 1, tally.emitted + size, size),
                      done + |c.entry(e)| + 4)
  {
    PairsFlush(tally.leaves, tally.emitted, tally.last, size, target, |c.entry(e)| + 4);
    PackedNone(c);
    PackMore(c, [], 0, e, target);
    assert [] + [e] == [e];
  }

  lemma PackGrown(c: Codec, cur: seq<Entry>, size: nat, target: nat, tally: Tally, done: nat, e: Entry)
    requires PackState(c, cur, size, target, tally, done) && c.Small(e)
    requires cur == [] || size + |c.entry(e)| + 4 <= target
    ensures PackState(c, cur + [e], size + |c.entry(e)| + 4, target, tally, done + |c.entry(e)| + 4)
  {
    PackMore(c, cur, size, e, target);
  }

  /** One entry: flush the leaf if the entry would pass the target, then add the entry. */
  method PackStep(em: LeafEmitter, c: Codec, e: Entry, cur: seq<Entry>, size: nat, target: nat,
                  ghost tally: Tally, ghost done: nat)
    returns (cur': seq<Entry>, size': nat, ghost tally': Tally)
    requires em.Valid(c) && em.nextPage < U64_SIZE && c.Small(e)
    requires PackState(c, cur, size, target, tally, done)
    modifies em, em.file
    ensures em.Valid(c) && AreLeaves(em.ls) && AllOf(em.ls) + cur' == old(AllOf(em.ls)) + cur + [e] && cur' != []
    ensures old(em.ls) <= em.ls && old(em.raw) <= em.raw
    ensures |em.ls| - |old(em.ls)| == tally'.leaves - tally.leaves <= if cur == [] then 0 else 1
    ensures PackState(c, cur', size', target, tally', done + |c.entry(e)| + 4)
    ensures SameOutside(old(em.file.pages), em.file.pages, em.start, em.start + |em.ls|)
  {
    var cost := |c.entry(e)| + 4;
    if cur != [] && size + cost > target {
      PackFlushed(c, cur, size, target, tally, done, e);
      FlushLeaf(em, c, cur, size);
      cur', size', tally' := [e], cost, Tally(tally.leaves + 1, tally.emitted + size, size);
    } else {
      PackGrown(c, cur, size, target, tally, done, e);
      cur', size', tally' := cur + [e], size + cost, tally;
      assert AllOf(em.ls) + cur' == AllOf(em.ls) + cur + [e];
    }
  }

  /** The packing loop over all entries. */
  method PackLoop(em: LeafEmitter, c: Codec, es: seq<Entry>, target: nat)
    returns (cur: seq<Entry>, size: nat, ghost tally: Tally)
    requires em.Valid(c) && es != [] && c.AllSmall(es) && em.nextPage + |es| <= U64_SIZE
    requires target <= PAGE_SIZE - HEADER_SIZE
    modifies em, em.file
    ensures em.Valid(c) && cur != [] && AllOf(em.ls) + cur == old(AllOf(em.ls)) + es
    ensures old(em.ls) <= em.ls && old(em.raw) <= em.raw
    ensures |em.ls| - |old(em.ls)| == tally.leaves < |es|
    ensures PackState(c, cur, size, target, tally, Cost(c, es))
    ensures SameOutside(old(em.file.pages), em.file.pages, em.start, em.start + |em.ls|)
  {
    hide Emitting, PackState, SameOutside, AllOf, Cost, SoFar, Longer;
    EmittingShape(c, em.file.pages, em.start, em.held, em.infos, em.raw, em.ls);
    PackStart(c, es, target, em.file.pages, em.start, em.start + |em.ls|);
    cur, size, tally := [], 0, Tally(0, 0, 0);
    ghost var ls0, raw0, pages0 := em.ls, em.raw, em.file.pages;
    ghost var all0 := AllOf(ls0);
    SoFarStart(all0, es, ls0, raw0);
    for i := 0 to |es|
      invariant em.Valid(c) && AreLeaves(em.ls) && SoFar(AllOf(em.ls), cur, all0, es, i)
      invariant Longer(ls0, raw0, em.ls, em.raw) && (i > 0 ==> cur != [])
      invariant |em.ls| - |ls0| == tally.leaves
      invariant tally.leaves + (if cur == [] then 0 else 1) <= i
      invariant PackState(c, cur, size, target, tally, Cost(c, es[..i]))
      invariant SameOutside(pages0, em.file.pages, em.start, em.start + |em.ls|)
    {
      CostPrefix(c, es, i);
      ghost var ls1, raw1, before, cur1 := em.ls, em.raw, em.file.pages, cur;
      cur, size, tally := PackStep(em, c, es[i], cur, size, target, tally, Cost(c, es[..i]));
      SoFarNext(AllOf(ls1), cur1, all0, es, i, AllOf(em.ls), cur);
      LongerNext(ls0, raw0, ls1, raw1, em.ls, em.raw);
      SameOutsideTrans(pages0, before, em.file.pages, em.start, em.start + |ls1|, em.start + |em.ls|);
    }
    SoFarEnd(AllOf(em.ls), cur, all0, es, ls0, raw0, em.ls, em.raw);
  }

  /** What was emitted and what is in progress are what was there and the first `i` entries. */
  ghost predicate SoFar(all: seq<Entry>, cur: seq<Entry>, all0: seq<Entry>, es: seq<Entry>, i: nat)
    requires i <= |es|
  {
    all + cur == all0 + es[..i]
  }

  ghost predicate Longer(ls0: seq<Tree>, raw0: seq<seq<byte>>, ls: seq<Tree>, raw: seq<seq<byte>>) { ls0 <= ls && raw0 <= raw }

  lemma SoFarStart(all0: seq<Entry>, es: seq<Entry>, ls0: seq<Tree>, raw0: seq<seq<byte>>)
    ensures SoFar(all0, [], all0, es, 0) && Longer(ls0, raw0, ls0, raw0)
  {}

  lemma SoFarNext(all: seq<Entry>, cur: seq<Entry>, all0: seq<Entry>, es: seq<Entry>, i: nat, all': seq<Entry>, cur': seq<Entry>)
    requires i < |es| && SoFar(all, cur, all0, es, i) && all' + cur' == all + cur + [es[i]]
    ensures SoFar(all', cur', all0, es, i + 1)
  {
    AppendPrefix(all0, es, i);
  }

  lemma LongerNext(ls0: seq<Tree>, raw0: seq<seq<byte>>, ls1: seq<Tree>, raw1: seq<seq<byte>>, ls: seq<Tree>, raw: seq<seq<byte>>)
    requires Longer(ls0, raw0, ls1, raw1) && ls1 <= ls && raw1 <= raw
    ensures Longer(ls0, raw0, ls, raw)
  {}

  lemma SoFarEnd(all: seq<Entry>, cur: seq<Entry>, all0: seq<Entry>, es: seq<Entry>, ls0: seq<Tree>, raw0: seq<seq<byte>>, ls: seq<Tree>, raw: seq<seq<byte>>)
    requires SoFar(all, cur, all0, es, |es|) && Longer(ls0, raw0, ls, raw)
    ensures all + cur == all0 + es && ls0 <= ls && raw0 <= raw && es[..|es|] == es
  {
    assert es[..|es|] == es;
  }

  lemma PackStart(c: Codec, es: seq<Entry>, target: nat, pages: Pages, lo: nat, hi: nat)
    requires target <= PAGE_SIZE - HEADER_SIZE
    ensures es[..0] == [] && PackState(c, [], 0, target, Tally(0, 0, 0), Cost(c, es[..0]))
    ensures SameOutside(pages, pages, lo, hi)
  {
    PackedNone(c);
    assert es[..0] == [];
  }

  lemma AppendPrefix(all: seq<Entry>, es: seq<Entry>, i: nat)
    requires i < |es|
    ensures all + es[..i + 1] == all + es[..i] + [es[i]]
  {
  }

  /** Emit merged entries as leaves balanced by size: all entries in order, every leaf within
      a page, one leaf if they fit one, and otherwise fewer than twice as many as usable fills. */
  method EmitPacked(em: LeafEmitter, c: Codec, es: seq<Entry>)
    requires em.Valid(c) && es != [] && c.AllSmall(es) && em.nextPage + |es| <= U64_SIZE
    modifies em, em.file
    ensures em.Valid(c) && AllOf(em.ls) == old(AllOf(em.ls)) + es
    ensures old(em.ls) <= em.ls && old(em.raw) <= em.raw && |em.ls| <= |old(em.ls)| + |es|
    ensures |em.ls| - |old(em.ls)| <= 2 * CeilDiv(Cost(c, es), USABLE_FILL) - 1
    ensures 12 + Cost(c, es) <= 4096 ==> |em.ls| == |old(em.ls)| + 1
    ensures SameOutside(old(em.file.pages), em.file.pages, em.start, em.start + |em.ls|)
  {
    var total := TotalCost(c, es);
    var target := Target(total);
    TargetBounds(total);
    var cur, size; ghost var tally;
    cur, size, tally := PackLoop(em, c, es, target);
    PairsBound(tally.leaves, tally.emitted, tally.last, size, total);
    if 12 + total <= 4096 { PairsOne(tally.leaves, tally.emitted, tally.last, size, total); }
    FlushLeaf(em, c, cur, size);
  }

  // ----- rebuild_btree_incremental -----

  /** The old leaves and their pages, no leaf empty. */
  ghost predicate OldLeaves(c: Codec, pages: seq<seq<byte>>, olds: seq<Tree>) {
    && |pages| == |olds| && AreLeaves(olds)
    && forall i :: 0 <= i < |olds| ==> olds[i].entries != [] && HoldsEntries(c, pages[i], olds[i].entries)
  }

  ghost predicate Splits(pending: seq<Entry>, pos: nat, u: Key)
    requires pos <= |pending|
  {
    Under(pending[..pos], u) && Over(pending[pos..], u)
  }

  /** Pending keys below position `pos` belong before leaf `i`, the others at it or after. */
  ghost predicate Routed(olds: seq<Tree>, i: nat, pending: seq<Entry>, pos: nat)
    requires AreLeaves(olds) && i <= |olds|
  {
    && pos <= |pending|
    && (i == 0 ==> pos == 0)
    && (0 < i == |olds| ==> pos == |pending|)
    && (0 < i < |olds| ==> olds[i].entries != [] && Splits(pending, pos, olds[i].entries[0].key))
  }

  /** Take the pending entries below `upper`, or all of them without one. */
  method TakeBatch(pending: seq<Entry>, pos: nat, upper: Option<Key>) returns (end: nat)
    requires pos <= |pending| && Sorted(pending)
    ensures pos <= end <= |pending|
    ensures upper.None? ==> end == |pending|
    ensures upper.Some? ==> Under(pending[pos..end], upper.value) && Over(pending[end..], upper.value)
  {
    end := pos;
    while end < |pending| && !(upper.Some? && pending[end].key >= upper.value)
      invariant pos <= end <= |pending|
      invariant upper.Some? ==> forall k :: pos <= k < end ==> pending[k].key < upper.value
    {
      end := end + 1;
    }
  }

  lemma RoutedNext(olds: seq<Tree>, i: nat, pending: seq<Entry>, pos: nat, end: nat)
    requires AreLeaves(olds) && i < |olds| && Routed(olds, i, pending, pos) && pos <= end <= |pending|
    requires forall j :: 0 <= j < |olds| ==> olds[j].entries != []
    requires Sorted(AllOf(olds)) && Sorted(pending)
    requires i + 1 == |olds| ==> end == |pending|
    requires i + 1 < |olds| ==> Under(pending[pos..end], olds[i + 1].entries[0].key)
    requires i + 1 < |olds| ==> Over(pending[end..], olds[i + 1].entries[0].key)
    ensures Routed(olds, i + 1, pending, end)
  {
    if i + 1 < |olds| {
      var u := olds[i + 1].entries[0].key;
      EntryAt(olds, i, 0);
      EntryAt(olds, i + 1, 0);
      FirstKeysOrdered(olds, i);
      forall k | 0 <= k < end ensures pending[..end][k].key < u {
        if k < pos {
          if i > 0 { assert pending[..pos][k].key < olds[i].entries[0].key; }
        } else {
          assert pending[pos..end][k - pos].key < u;
        }
      }
    }
  }

  lemma FirstKeysOrdered(olds: seq<Tree>, i: nat)
    requires AreLeaves(olds) && i + 1 < |olds| && Sorted(AllOf(olds))
    requires olds[i].entries != [] && olds[i + 1].entries != []
    ensures olds[i].entries[0].key <= olds[i + 1].entries[0].key
  {
    EntryAt(olds, i, 0);
    EntryAt(olds, i + 1, 0);
  }

  lemma LeafBounds(olds: seq<Tree>, i: nat)
    requires AreLeaves(olds) && i < |olds| && Sorted(AllOf(olds)) && olds[i].entries != []
    ensures UpTo(Upto(olds, i), olds[i].entries[0].key) && Over(olds[i].entries, olds[i].entries[0].key)
  {
    var all := AllOf(olds);
    EntryAt(olds, i, 0);
    UptoPrefix(olds, i, |olds|);
    forall k | 0 <= k < |olds[i].entries| ensures olds[i].entries[0].key <= olds[i].entries[k].key {
      EntryAt(olds, i, k);
    }
  }

  /** Merging leaf `i` with its batch extends the overall merge by exactly that. */
  lemma {:induction false} MergeExtends(olds: seq<Tree>, i: nat, pending: seq<Entry>, pos: nat, end: nat)
    requires AreLeaves(olds) && i < |olds| && olds[i].entries != [] && Sorted(AllOf(olds)) && Later(AllOf(olds), pending)
    requires Routed(olds, i, pending, pos) && pos <= end <= |pending|
    ensures Merge(Upto(olds, i), pending[..pos]) + Merge(olds[i].entries, pending[pos..end])
         == Merge(Upto(olds, i + 1), pending[..end])
  {
    var a, b := Upto(olds, i), pending[..pos];
    var a', b' := olds[i].entries, pending[pos..end];
    assert pending[..end] == b + b';
    if i == 0 {
      assert a == [] && b == [] && a + a' == a' && b + b' == b';
    } else {
      LeafBounds(olds, i);
      var u := olds[i].entries[0].key;
      forall k | 0 <= k < |b'| ensures u <= b'[k].key {
        assert b'[k] == pending[pos..][k];
        assert u <= pending[pos..][k].key;
      }
      LaterParts(olds, i, pending, pos, end);
      MergeSplit(a, a', b, b', u);
    }
  }

  lemma LaterParts(olds: seq<Tree>, i: nat, pending: seq<Entry>, pos: nat, end: nat)
    requires AreLeaves(olds) && i <= |olds| && pos <= end <= |pending| && Later(AllOf(olds), pending)
    ensures Later(Upto(olds, i), pending[pos..end])
  {
    UptoPrefix(olds, i, |olds|);
    var a, b := Upto(olds, i), pending[pos..end];
    forall k, m | 0 <= k < |a| && 0 <= m < |b| && a[k].key == b[m].key ensures LeqEntry(a[k], b[m]) {
      assert a[k] == AllOf(olds)[k] && b[m] == pending[pos + m];
    }
  }

  lemma MergeLength(a: seq<Entry>, b: seq<Entry>)
    ensures |Merge(a, b)| == |a| + |b|
  {
    MergePermutes(a, b);
    assert |multiset(Merge(a, b))| == |multiset(a)| + |multiset(b)|;
  }

  lemma MergeSize(c: Codec, a: seq<Entry>, b: seq<Entry>)
    requires c.AllSmall(a) && c.AllSmall(b)
    ensures |Merge(a, b)| == |a| + |b| && c.AllSmall(Merge(a, b))
  {
    MergeLength(a, b);
    MergePermutes(a, b);
    forall i | 0 <= i < |Merge(a, b)| ensures c.Small(Merge(a, b)[i]) {
      assert Merge(a, b)[i] in multiset(a) + multiset(b);
    }
  }

  /** Emit old leaf `es` merged with its batch: verbatim when the batch is empty, repacked otherwise. */
  method RebuildLeaf(em: LeafEmitter, c: Codec, page: seq<byte>, firstKey: Key, batch: seq<Entry>, ghost es: seq<Entry>)
    requires c.Valid() && em.Valid(c) && HoldsEntries(c, page, es) && es != [] && firstKey == es[0].key
    requires c.AllSmall(es) && c.AllSmall(batch) && em.nextPage + |es| + |batch| <= U64_SIZE
    modifies em, em.file
    ensures em.Valid(c) && AllOf(em.ls) == old(AllOf(em.ls)) + Merge(es, batch)
    ensures old(em.ls) <= em.ls && old(em.raw) <= em.raw && |em.ls| <= |old(em.ls)| + |es| + |batch|
    ensures batch == [] ==> em.raw == old(em.raw) + [page] && em.ls == old(em.ls) + [Leaf(old(em.nextPage), es)]
    ensures SameOutside(old(em.file.pages), em.file.pages, em.start, em.start + |em.ls|)
  {
    if batch == [] {
      em.PushLeaf(c, page, c.key(firstKey), es);
    } else {
      DecodeLeaf(c, page, es, Field(page, 4, 8));
      var oldEntries := ReadLeafEntries(c, page);
      MergeSize(c, es, batch);
      EmitPacked(em, c, Merge(oldEntries.value, batch));
    }
  }

  /** No pending key routes to leaf `i`. */
  ghost predicate Untouched(olds: seq<Tree>, i: nat, pending: seq<Entry>)
    requires i < |olds| && AreLeaves(olds) && forall j :: 0 <= j < |olds| ==> olds[j].entries != []
  {
    forall k :: 0 <= k < |pending| ==>
      || (i > 0 && pending[k].key < olds[i].entries[0].key)
      || (i + 1 < |olds| && olds[i + 1].entries[0].key <= pending[k].key)
  }

  /** Some emitted leaf is exactly this page and these entries. */
  ghost predicate Copied(raw: seq<seq<byte>>, ls: seq<Tree>, page: seq<byte>, es: seq<Entry>) {
    exists j :: 0 <= j < |ls| && |raw| == |ls| && raw[j] == page && ls[j].Leaf? && ls[j].entries == es
  }

  lemma CopiedGrows(raw: seq<seq<byte>>, ls: seq<Tree>, raw': seq<seq<byte>>, ls': seq<Tree>, page: seq<byte>, es: seq<Entry>)
    requires Copied(raw, ls, page, es) && raw <= raw' && ls <= ls' && |raw'| == |ls'|
    ensures Copied(raw', ls', page, es)
  {
    var j :| 0 <= j < |ls| && |raw| == |ls| && raw[j] == page && ls[j].Leaf? && ls[j].entries == es;
    assert raw'[j] == page && ls'[j] == ls[j];
  }

  /** All untouched leaves among the first `i` were copied verbatim. */
  ghost predicate AllCopied(raw: seq<seq<byte>>, ls: seq<Tree>, pages: seq<seq<byte>>, olds: seq<Tree>, i: nat, pending: seq<Entry>)
    requires |pages| == |olds| && i <= |olds| && AreLeaves(olds) && forall j :: 0 <= j < |olds| ==> olds[j].entries != []
  {
    forall j :: 0 <= j < i && Untouched(olds, j, pending) ==> Copied(raw, ls, pages[j], olds[j].entries)
  }

  lemma Touched(olds: seq<Tree>, i: nat, pending: seq<Entry>, pos: nat, end: nat)
    requires i < |olds| && AreLeaves(olds) && forall j :: 0 <= j < |olds| ==> olds[j].entries != []
    requires Routed(olds, i, pending, pos) && pos < end <= |pending|
    requires i + 1 < |olds| ==> Under(pending[pos..end], olds[i + 1].entries[0].key)
    ensures !Untouched(olds, i, pending)
  {
    var k := pending[pos].key;
    if i > 0 { assert pending[pos..][0].key == k; }
    if i + 1 < |olds| { assert pending[pos..end][0].key == k; }
  }

  lemma AllCopiedStep(raw: seq<seq<byte>>, ls: seq<Tree>, raw': seq<seq<byte>>, ls': seq<Tree>,
                      pages: seq<seq<byte>>, olds: seq<Tree>, i: nat, pending: seq<Entry>, pos: nat, end: nat)
    requires |pages| == |olds| && i < |olds| && AreLeaves(olds) && forall j :: 0 <= j < |olds| ==> olds[j].entries != []
    requires AllCopied(raw, ls, pages, olds, i, pending) && raw <= raw' && ls <= ls' && |raw'| == |ls'|
    requires Routed(olds, i, pending, pos) && pos <= end <= |pending|
    requires i + 1 < |olds| ==> Under(pending[pos..end], olds[i + 1].entries[0].key)
    requires pos == end ==> Copied(raw', ls', pages[i], olds[i].entries)
    ensures AllCopied(raw', ls', pages, olds, i + 1, pending)
  {
    if pos < end { Touched(olds, i, pending, pos, end); }
    forall j | 0 <= j < i + 1 && Untouched(olds, j, pending) ensures Copied(raw', ls', pages[j], olds[j].entries) {
      if j < i {
        CopiedGrows(raw, ls, raw', ls', pages[j], olds[j].entries);
      }
    }
  }

  lemma CopiedLast(raw: seq<seq<byte>>, ls: seq<Tree>, page: seq<byte>, l: Tree)
    requires |raw| == |ls| && l.Leaf?
    ensures Copied(raw + [page], ls + [l], page, l.entries)
  {
    assert (raw + [page])[|raw|] == page && (ls + [l])[|ls|] == l;
  }

  ghost predicate NonEmpty(olds: seq<Tree>) {
    AreLeaves(olds) && forall j :: 0 <= j < |olds| ==> olds[j].entries != []
  }

  /** What the rebuild loop has emitted after `i` old leaves and `pos` pending entries. */
  ghost predicate RebuiltUpto(raw: seq<seq<byte>>, ls: seq<Tree>, pages: seq<seq<byte>>, olds: seq<Tree>, i: nat,
                              pending: seq<Entry>, pos: nat)
    requires NonEmpty(olds) && i <= |olds| == |pages|
  {
    && AreLeaves(ls) && |raw| == |ls| && Routed(olds, i, pending, pos)
    && AllOf(ls) == Merge(Upto(olds, i), pending[..pos])
    && |ls| <= |Upto(olds, i)| + pos
    && AllCopied(raw, ls, pages, olds, i, pending)
  }

  /** What one step of the rebuild loop needs of the state before it. */
  lemma StepFacts(c: Codec, raw: seq<seq<byte>>, ls: seq<Tree>, pages: seq<seq<byte>>, olds: seq<Tree>, i: nat,
                  pending: seq<Entry>, pos: nat)
    requires NonEmpty(olds) && i < |olds| == |pages| && OldLeaves(c, pages, olds)
    requires RebuiltUpto(raw, ls, pages, olds, i, pending, pos)
    ensures AreLeaves(ls) && pos <= |pending| && HoldsEntries(c, pages[i], olds[i].entries)
    ensures |ls| + |olds[i].entries| <= |AllOf(olds)| + pos
  {
    UptoPrefix(olds, i + 1, |olds|);
  }

  /** Leaf `i` merged with pending entries `[pos, end)` was added to what was emitted. */
  ghost predicate LeafDone(raw: seq<seq<byte>>, ls: seq<Tree>, raw': seq<seq<byte>>, ls': seq<Tree>,
                           pages: seq<seq<byte>>, olds: seq<Tree>, i: nat, pending: seq<Entry>, pos: nat, end: nat)
    requires NonEmpty(olds) && i < |olds| == |pages| && AreLeaves(ls)
  {
    && pos <= end <= |pending|
    && (i + 1 == |olds| ==> end == |pending|)
    && (i + 1 < |olds| ==> Under(pending[pos..end], olds[i + 1].entries[0].key))
    && (i + 1 < |olds| ==> Over(pending[end..], olds[i + 1].entries[0].key))
    && AreLeaves(ls') && raw <= raw' && ls <= ls' && |raw'| == |ls'|
    && AllOf(ls') == AllOf(ls) + Merge(olds[i].entries, pending[pos..end])
    && |ls'| <= |ls| + |olds[i].entries| + (end - pos)
    && (pos == end ==> Copied(raw', ls', pages[i], olds[i].entries))
  }

  lemma RebuiltNext(raw: seq<seq<byte>>, ls: seq<Tree>, raw': seq<seq<byte>>, ls': seq<Tree>,
                    pages: seq<seq<byte>>, olds: seq<Tree>, i: nat, pending: seq<Entry>, pos: nat, end: nat)
    requires NonEmpty(olds) && i < |olds| == |pages| && RebuiltUpto(raw, ls, pages, olds, i, pending, pos)
    requires Sorted(AllOf(olds)) && Sorted(pending) && Later(AllOf(olds), pending)
    requires AreLeaves(ls) && LeafDone(raw, ls, raw', ls', pages, olds, i, pending, pos, end)
    ensures RebuiltUpto(raw', ls', pages, olds, i + 1, pending, end) && |ls| <= |ls'|
  {
    MergeExtends(olds, i, pending, pos, end);
    RoutedNext(olds, i, pending, pos, end);
    AllCopiedStep(raw, ls, raw', ls', pages, olds, i, pending, pos, end);
  }

  /** Route the batch of leaf `i` and emit the merge. */
  method MergeOldLeaf(em: LeafEmitter, c: Codec, pages: seq<seq<byte>>, keys: seq<Key>, i: nat, pending: seq<Entry>,
                      pos: nat, ghost olds: seq<Tree>)
    returns (end: nat)
    requires c.Valid() && em.Valid(c) && AreLeaves(em.ls) && NonEmpty(olds) && i < |pages| == |keys| == |olds|
    requires HoldsEntries(c, pages[i], olds[i].entries) && keys[i] == olds[i].entries[0].key
    requires i + 1 < |keys| ==> keys[i + 1] == olds[i + 1].entries[0].key
    requires Sorted(pending) && pos <= |pending| && c.AllSmall(olds[i].entries) && c.AllSmall(pending)
    requires em.nextPage + |olds[i].entries| + |pending| - pos <= U64_SIZE
    modifies em, em.file
    ensures em.Valid(c) && LeafDone(old(em.raw), old(em.ls), em.raw, em.ls, pages, olds, i, pending, pos, end)
    ensures SameOutside(old(em.file.pages), em.file.pages, em.start, em.start + |em.ls|)
  {
    EmittingShape(c, em.file.pages, em.start, em.held, em.infos, em.raw, em.ls);
    hide Emitting, Merge, Sorted, SameOutside, HoldsEntries, Copied;
    end := TakeBatch(pending, pos, if i + 1 < |keys| then Some(keys[i + 1]) else None);
    RebuildLeaf(em, c, pages[i], keys[i], pending[pos..end], olds[i].entries);
    EmittingShape(c, em.file.pages, em.start, em.held, em.infos, em.raw, em.ls);
    if pos == end { CopiedLast(old(em.raw), old(em.ls), pages[i], Leaf(old(em.nextPage), olds[i].entries)); }
  }

  /** One old leaf of the rebuild loop. */
  method RebuildStep(em: LeafEmitter, c: Codec, pages: seq<seq<byte>>, keys: seq<Key>, i: nat, pending: seq<Entry>,
                     pos: nat, ghost olds: seq<Tree>)
    returns (end: nat)
    requires c.Valid() && OldLeaves(c, pages, olds) && NonEmpty(olds) && i < |pages| == |keys| == |olds|
    requires forall j :: 0 <= j < |olds| ==> keys[j] == olds[j].entries[0].key
    requires Sorted(AllOf(olds)) && Sorted(pending) && Later(AllOf(olds), pending)
    requires c.AllSmall(olds[i].entries) && c.AllSmall(pending)
    requires em.start + |AllOf(olds)| + |pending| <= U64_SIZE
    requires em.Valid(c) && RebuiltUpto(em.raw, em.ls, pages, olds, i, pending, pos)
    modifies em, em.file
    ensures em.Valid(c) && RebuiltUpto(em.raw, em.ls, pages, olds, i + 1, pending, end)
    ensures |old(em.ls)| <= |em.ls|
    ensures SameOutside(old(em.file.pages), em.file.pages, em.start, em.start + |em.ls|)
  {
    hide Emitting, Sorted, Later, RebuiltUpto, SameOutside, HoldsEntries, LeafDone, OldLeaves, Upto;
    StepFacts(c, em.raw, em.ls, pages, olds, i, pending, pos);
    end := MergeOldLeaf(em, c, pages, keys, i, pending, pos, olds);
    RebuiltNext(old(em.raw), old(em.ls), em.raw, em.ls, pages, olds, i, pending, pos, end);
  }

  lemma KeepLeaf(c: Codec, pages: seq<seq<byte>>, kept: seq<Tree>, page: seq<byte>, l: Tree)
    requires OldLeaves(c, pages, kept) && l.Leaf? && l.entries != [] && HoldsEntries(c, page, l.entries)
    ensures OldLeaves(c, pages + [page], kept + [l]) && AllOf(kept + [l]) == AllOf(kept) + l.entries
  {
    AllOfAppend(kept, l);
  }

  /** The lowest key of a leaf page, if it has entries. */
  method LeafFirstKey(c: Codec, page: seq<byte>, ghost es: seq<Entry>) returns (k: Option<Key>)
    requires c.Valid() && HoldsEntries(c, page, es)
    ensures k == if es == [] then None else Some(es[0].key)
  {
    if U16At(page, 2) == 0 { return None; }
    ReadSlotHeld(page, HEADER_SIZE, c.Recs(es), 0);
    var first := c.unentry(ReadSlot(page, HEADER_SIZE, 0).value);
    k := Some(first.value.key);
  }

  /** `leaves` of the source: the non-empty old leaves with their first keys. */
  method NonEmptyLeaves(c: Codec, oldPages: seq<seq<byte>>, ghost olds: seq<Tree>)
    returns (pages: seq<seq<byte>>, keys: seq<Key>, ghost kept: seq<Tree>)
    requires c.Valid() && |oldPages| == |olds| && AreLeaves(olds)
    requires forall i :: 0 <= i < |olds| ==> HoldsEntries(c, oldPages[i], olds[i].entries)
    ensures OldLeaves(c, pages, kept) && |keys| == |kept| && AllOf(kept) == AllOf(olds)
    ensures forall j :: 0 <= j < |kept| ==> keys[j] == kept[j].entries[0].key
    ensures NonEmpty(olds) ==> kept == olds && pages == oldPages
  {
    pages, keys, kept := [], [], [];
    hide HoldsEntries;
    for i := 0 to |oldPages|
      invariant OldLeaves(c, pages, kept) && |keys| == |kept| && AllOf(kept) == Upto(olds, i)
      invariant forall j :: 0 <= j < |kept| ==> keys[j] == kept[j].entries[0].key
      invariant NonEmpty(olds) ==> |kept| == i && forall j :: 0 <= j < i ==> kept[j] == olds[j] && pages[j] == oldPages[j]
    {
      var k := LeafFirstKey(c, oldPages[i], olds[i].entries);
      if k.Some? {
        KeepLeaf(c, pages, kept, oldPages[i], olds[i]);
        pages, keys, kept := pages + [oldPages[i]], keys + [k.value], kept + [olds[i]];
      }
    }
  }

  /** The tree holds page `page` with only its link changed, as a leaf with entries `es`. */
  ghost predicate CarriedOver(file: Pages, ls: seq<Tree>, page: seq<byte>, es: seq<Entry>) {
    exists j :: 0 <= j < |ls| && CarriedAt(file, ls, page, es, j)
  }

  ghost predicate CarriedAt(file: Pages, ls: seq<Tree>, page: seq<byte>, es: seq<Entry>, j: nat)
    requires j < |ls|
  {
    ls[j].Leaf? && ls[j].entries == es && Rewritten(file, page, ls[j].id, if j + 1 < |ls| then ls[j + 1].id else 0)
  }

  /** Every old leaf no pending key routes to is carried over. */
  ghost predicate AllCarried(file: Pages, ls: seq<Tree>, pages: seq<seq<byte>>, olds: seq<Tree>, pending: seq<Entry>)
    requires NonEmpty(olds) && |pages| == |olds|
  {
    forall i :: 0 <= i < |olds| && Untouched(olds, i, pending) ==> CarriedOver(file, ls, pages[i], olds[i].entries)
  }

  lemma CopiedCarries(c: Codec, a: Pages, b: Pages, raw: seq<seq<byte>>, ls: seq<Tree>, start: nat, page: seq<byte>, es: seq<Entry>)
    requires Pushed(c, raw, ls, start) && Copied(raw, ls, page, es) && SameBelow(a, b, start + |ls|)
    requires AllRewritten(a, raw, start)
    ensures CarriedOver(b, ls, page, es)
  {
    var j :| 0 <= j < |ls| && |raw| == |ls| && raw[j] == page && ls[j].Leaf? && ls[j].entries == es;
    assert PushedAt(c, raw[j], ls[j], start + j);
    if j + 1 < |ls| { assert PushedAt(c, raw[j + 1], ls[j + 1], start + (j + 1)); }
    assert Rewritten(a, raw[j], start + j, if j + 1 < |ls| then start + j + 1 else 0);
    assert CarriedAt(b, ls, page, es, j);
  }

  lemma RebuiltEnd(raw: seq<seq<byte>>, ls: seq<Tree>, pages: seq<seq<byte>>, olds: seq<Tree>, pending: seq<Entry>, pos: nat)
    requires NonEmpty(olds) && |olds| == |pages| > 0 && RebuiltUpto(raw, ls, pages, olds, |olds|, pending, pos)
    ensures pos == |pending|
  {
  }

  lemma RebuiltStart(c: Codec, file: Pages, start: nat, pages: seq<seq<byte>>, olds: seq<Tree>, pending: seq<Entry>)
    requires NonEmpty(olds) && |olds| == |pages| > 0
    ensures Emitting(c, file, start, None, [], [], []) && SameOutside(file, file, start, start)
    ensures RebuiltUpto([], [], pages, olds, 0, pending, 0)
  {
  }

  /** Rebuild over non-empty old leaves. */
  method RebuildLeaves(file: PageFile, c: Codec, pages: seq<seq<byte>>, keys: seq<Key>, pending: seq<Entry>, start: nat,
                       ghost olds: seq<Tree>)
    returns (em: LeafEmitter)
    requires c.Valid() && OldLeaves(c, pages, olds) && NonEmpty(olds) && |pages| == |keys| == |olds| > 0
    requires forall j :: 0 <= j < |olds| ==> keys[j] == olds[j].entries[0].key
    requires Sorted(AllOf(olds)) && Sorted(pending) && Later(AllOf(olds), pending)
    requires c.AllSmall(AllOf(olds)) && c.AllSmall(pending)
    requires start + |AllOf(olds)| + |pending| <= U64_SIZE
    modifies file
    ensures fresh(em) && em.file == file && em.start == start && em.Valid(c)
    ensures RebuiltUpto(em.raw, em.ls, pages, olds, |olds|, pending, |pending|)
    ensures SameOutside(old(file.pages), file.pages, start, start + |em.ls|)
  {
    hide Sorted, Later, RebuiltUpto, OldLeaves, AllOf, Emitting, SameOutside;
    em := new LeafEmitter(file, start);
    var pos: nat := 0;
    RebuiltStart(c, file.pages, start, pages, olds, pending);
    for i := 0 to |pages|
      invariant em.Valid(c) && RebuiltUpto(em.raw, em.ls, pages, olds, i, pending, pos)
      invariant SameOutside(old(file.pages), file.pages, start, start + |em.ls|)
    {
      LeafSmall(c, olds, i);
      ghost var n, before := |em.ls|, file.pages;
      pos := RebuildStep(em, c, pages, keys, i, pending, pos, olds);
      SameOutsideTrans(old(file.pages), before, file.pages, start, start + n, start + |em.ls|);
    }
    RebuiltEnd(em.raw, em.ls, pages, olds, pending, pos);
  }

  lemma LeafSmall(c: Codec, olds: seq<Tree>, i: nat)
    requires AreLeaves(olds) && i < |olds| && c.AllSmall(AllOf(olds))
    ensures c.AllSmall(olds[i].entries)
  {
    forall k | 0 <= k < |olds[i].entries| ensures c.Small(olds[i].entries[k]) {
      EntryAt(olds, i, k);
    }
  }

  /** The finished emission is the sorted merge, never empty, within the size bound. */
  lemma RebuiltMerge(raw: seq<seq<byte>>, ls: seq<Tree>, pages: seq<seq<byte>>, olds: seq<Tree>, pending: seq<Entry>)
    requires NonEmpty(olds) && |olds| == |pages| > 0
    requires RebuiltUpto(raw, ls, pages, olds, |olds|, pending, |pending|)
    requires Sorted(AllOf(olds)) && Sorted(pending) && Later(AllOf(olds), pending)
    ensures AreLeaves(ls) && ls != [] && |ls| <= |AllOf(olds)| + |pending|
    ensures AllOf(ls) == Merge(AllOf(olds), pending) && Sorted(AllOf(ls))
  {
    assert pending[..|pending|] == pending;
    MergeSorted(AllOf(olds), pending);
    MergeLength(AllOf(olds), pending);
    FirstCounts(olds);
  }

  lemma FirstCounts(olds: seq<Tree>)
    requires AreLeaves(olds)
    ensures |olds| > 0 && olds[0].entries != [] ==> |AllOf(olds)| > 0
  {
    if |olds| > 0 {
      UptoPrefix(olds, 1, |olds|);
      assert Upto(olds, 1) == Upto(olds, 0) + olds[0].entries;
    }
  }

  /** Rebuild from the old leaves plus pending entries: the stored tree holds exactly the sorted
      merge, and every old leaf no pending key routes to is carried over with only its link changed. */
  method RebuildBtreeIncremental(file: PageFile, c: Codec, oldPages: seq<seq<byte>>, pending: seq<Entry>, start: nat,
                                 ghost olds: seq<Tree>)
    returns (root: nat, next: nat, ghost t: Tree)
    requires c.Valid() && |oldPages| == |olds| && AreLeaves(olds)
    requires forall i :: 0 <= i < |olds| ==> HoldsEntries(c, oldPages[i], olds[i].entries)
    requires Sorted(AllOf(olds)) && Sorted(pending) && Later(AllOf(olds), pending)
    requires c.AllSmall(AllOf(olds)) && c.AllSmall(pending)
    requires start >= 1 && start + 3 * (|AllOf(olds)| + |pending|) + 1 < U64_SIZE
    modifies file
    ensures Stored(c, file.pages, t) && t.id == root
    ensures Entries(t) == Merge(AllOf(olds), pending)
    ensures SameOutside(old(file.pages), file.pages, start, next)
    ensures start < next <= start + 3 * (|AllOf(olds)| + |pending|) + 1 && root < next && IdsIn(t, start, next)
    ensures NonEmpty(olds) ==> AllCarried(file.pages, Leaves(t), oldPages, olds, pending)
  {
    var pages, keys; ghost var kept;
    pages, keys, kept := NonEmptyLeaves(c, oldPages, olds);
    if pages == [] {
      assert kept == [] && AllOf(olds) == [];
      root, next, t := BuildBtree(file, c, pending, start);
      assert Merge([], pending) == pending;
      NoLeaves(olds);
    } else {
      root, next, t := RebuildNonEmpty(file, c, pages, keys, pending, start, kept);
    }
  }

  lemma NoLeaves(olds: seq<Tree>)
    requires AreLeaves(olds) && AllOf(olds) == []
    ensures NonEmpty(olds) ==> olds == []
  {
    FirstCounts(olds);
  }

  method RebuildNonEmpty(file: PageFile, c: Codec, pages: seq<seq<byte>>, keys: seq<Key>, pending: seq<Entry>, start: nat,
                         ghost olds: seq<Tree>)
    returns (root: nat, next: nat, ghost t: Tree)
    requires c.Valid() && OldLeaves(c, pages, olds) && NonEmpty(olds) && |pages| == |keys| == |olds| > 0
    requires forall j :: 0 <= j < |olds| ==> keys[j] == olds[j].entries[0].key
    requires Sorted(AllOf(olds)) && Sorted(pending) && Later(AllOf(olds), pending)
    requires c.AllSmall(AllOf(olds)) && c.AllSmall(pending)
    requires start >= 1 && start + 3 * (|AllOf(olds)| + |pending|) + 1 < U64_SIZE
    modifies file
    ensures Stored(c, file.pages, t) && t.id == root && Entries(t) == Merge(AllOf(olds), pending)
    ensures SameOutside(old(file.pages), file.pages, start, next)
    ensures start < next <= start + 3 * (|AllOf(olds)| + |pending|) && root < next && IdsIn(t, start, next)
    ensures AllCarried(file.pages, Leaves(t), pages, olds, pending)
  {
    hide RebuiltUpto, Emitting, Sorted, Later, OldLeaves, Stored, Merge, Written, InfosOf, AllCarried, SameOutside, AllRewritten, IdsIn;
    ghost var p0 := file.pages;
    var em := RebuildLeaves(file, c, pages, keys, pending, start, olds);
    RebuiltMerge(em.raw, em.ls, pages, olds, pending);
    ghost var ls, raw, p1 := em.ls, em.raw, file.pages;
    EmittingPushed(c, p1, start, em.held, em.infos, raw, ls);
    hide Pushed, Codec.AllSmall, NonEmpty;
    var infos, n := em.Finish(c);
    ghost var p2 := file.pages;
    assert SameOutside(p1, p2, start, start + |ls|);
    SameOutsideTrans(p0, p1, p2, start, start + |ls|, start + |ls|);
    root, next, t := FinishTree(file, c, infos, start, ls);
    SameOutsideWiden(p0, p2, file.pages, start, start + |ls|, next);
    CarryAll(c, p2, file.pages, raw, ls, start, pages, olds, pending);
  }

  lemma EmittingPushed(c: Codec, pages: Pages, start: nat, held: Held, infos: seq<Info>, raw: seq<seq<byte>>, ls: seq<Tree>)
    requires Emitting(c, pages, start, held, infos, raw, ls)
    ensures Pushed(c, raw, ls, start)
  {
  }

  lemma CarryAll(c: Codec, a: Pages, b: Pages, raw: seq<seq<byte>>, ls: seq<Tree>, start: nat,
                 pages: seq<seq<byte>>, olds: seq<Tree>, pending: seq<Entry>)
    requires NonEmpty(olds) && |olds| == |pages| && RebuiltUpto(raw, ls, pages, olds, |olds|, pending, |pending|)
    requires Pushed(c, raw, ls, start) && SameBelow(a, b, start + |ls|)
    requires AllRewritten(a, raw, start)
    ensures AllCarried(b, ls, pages, olds, pending)
  {
    forall i | 0 <= i < |olds| && Untouched(olds, i, pending)
      ensures CarriedOver(b, ls, pages[i], olds[i].entries)
    {
      RebuiltCopied(raw, ls, pages, olds, pending, i);
      CopiedCarries(c, a, b, raw, ls, start, pages[i], olds[i].entries);
    }
  }

  lemma RebuiltCopied(raw: seq<seq<byte>>, ls: seq<Tree>, pages: seq<seq<byte>>, olds: seq<Tree>, pending: seq<Entry>, i: nat)
    requires NonEmpty(olds) && i < |olds| == |pages| && Untouched(olds, i, pending)
    requires RebuiltUpto(raw, ls, pages, olds, |olds|, pending, |pending|)
    ensures Copied(raw, ls, pages[i], olds[i].entries)
  {
  }
}
