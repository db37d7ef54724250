/** What a checkpoint does with one index: snapshot the old leaves, then rebuild above them. */
module BTreeCheckpoint {
  import opened Bytes
  import opened SlottedPage
  import opened BTreePages
  import opened BTreeModel
  import opened BTreeScan
  import opened BTreeRebuild

  /** The slot directory and every record it names lie inside the page, above the directory. */
  method ValidateLeafSlots(page: seq<byte>) returns (ok: bool)
    requires |page| >= HEADER_SIZE
    ensures ok <==> SlotsInside(page)
  {
    var count := U16At(page, 2);
    var dataStart := HEADER_SIZE + count * 4;
    if dataStart > |page| { return false; }
    for i := 0 to count
      invariant forall j :: 0 <= j < i ==> SlotInside(page, j)
    {
      var offset := U16At(page, HEADER_SIZE + i * 4);
      var length := U16At(page, HEADER_SIZE + i * 4 + 2);
      if offset < dataStart || offset + length > |page| {
        assert !SlotInside(page, i);
        return false;
      }
    }
    return true;
  }

  predicate SlotInside(page: seq<byte>, i: nat)
    requires HEADER_SIZE + 4 * i + 4 <= |page|
  {
    var offset := U16At(page, HEADER_SIZE + i * 4);
    HEADER_SIZE + U16At(page, 2) * 4 <= offset && offset + U16At(page, HEADER_SIZE + i * 4 + 2) <= |page|
  }

  predicate SlotsInside(page: seq<byte>)
    requires |page| >= HEADER_SIZE
  {
    var count := U16At(page, 2);
    && HEADER_SIZE + count * 4 <= |page|
    && forall i :: 0 <= i < count ==> SlotInside(page, i)
  }

  lemma LeafSlotsInside(p: seq<byte>, recs: seq<Record>, next: nat)
    requires LeafHolds(p, recs, next)
    ensures SlotsInside(p)
  {
    forall i | 0 <= i < |recs| ensures SlotInside(p, i) {
      assert SlotHolds(p, HEADER_SIZE, recs, i);
      SumMono(recs, i + 1, |recs|);
    }
  }

  lemma LeftmostKid(c: Codec, page: seq<byte>, kids: seq<Tree>)
    requires kids != [] && AllProper(kids) && InternalHolds(page, Ids(kids), Seps(c, kids))
    ensures kids[0].id == if U16At(page, 2) == 0 then Field(page, 4, 8) else Field(page, HEADER_SIZE, 8)
  {
    assert Ids(kids)[0] == kids[0].id;
    if |kids| > 1 { assert Field(page, HEADER_SIZE + 8 * 0, 8) == Ids(kids)[0]; }
  }

  /** `cur` starts with the first leaf of `t`. */
  ghost predicate Leftmost(t: Tree, cur: Tree) {
    Leaves(t) != [] && Leaves(cur) != [] && Leaves(cur)[0] == Leaves(t)[0]
  }

  lemma LeftmostPage(c: Codec, pages: Pages, t: Tree, cur: Tree)
    requires Stored(c, pages, t) && NodeStored(c, pages, cur) && Leftmost(t, cur)
    ensures cur.id in pages && |pages[cur.id]| == PAGE_SIZE
    ensures cur.Leaf? <==> pages[cur.id][0] == PAGE_TYPE_LEAF
  {
    if cur.Leaf? { assert Linked(c, pages, Leaves(t), 0); }
  }

  lemma LeftmostStep(c: Codec, pages: Pages, t: Tree, cur: Tree)
    requires Leftmost(t, cur) && cur.Inner? && Proper(cur)
    ensures Leftmost(t, cur.kids[0])
  {
    FirstLeaf(cur.kids[0]);
    assert Leaves(cur) == Leaves(cur.kids[0]) + LeavesAll(cur.kids[1..]);
  }

  lemma LeftmostStart(c: Codec, pages: Pages, t: Tree)
    requires NodeStored(c, pages, t)
    ensures Leftmost(t, t)
  {
    if t.Inner? { FirstLeaf(t); }
  }

  /** Follow first children down to the first leaf. */
  method FindLeftmostLeaf(c: Codec, pages: Pages, root: nat, ghost t: Tree) returns (leaf: nat)
    requires Stored(c, pages, t) && t.id == root
    ensures Leaves(t) != [] && leaf == Leaves(t)[0].id
  {
    leaf := root;
    ghost var cur := t;
    LeftmostStart(c, pages, t);
    LeftmostPage(c, pages, t, t);
    while pages[leaf][0] != PAGE_TYPE_LEAF
      invariant leaf in pages && |pages[leaf]| == PAGE_SIZE && cur.id == leaf
      invariant NodeStored(c, pages, cur) && Leftmost(t, cur)
      invariant cur.Leaf? <==> pages[leaf][0] == PAGE_TYPE_LEAF
      decreases cur
    {
      var page := pages[leaf];
      KidsStored(c, pages, cur);
      LeftmostKid(c, page, cur.kids);
      LeftmostStep(c, pages, t, cur);
      leaf := if U16At(page, 2) == 0 then Field(page, 4, 8) else Field(page, HEADER_SIZE, 8);
      cur := cur.kids[0];
      LeftmostPage(c, pages, t, cur);
    }
  }

  ghost predicate LeavesBelow(t: Tree, pageCount: nat) {
    forall i :: 0 <= i < |Leaves(t)| ==> Leaves(t)[i].id < pageCount
  }

  lemma {:induction false} ChainIds(c: Codec, pages: Pages, ls: seq<Tree>, i: nat)
    requires Chain(c, pages, ls) && i < |ls|
    ensures ls[i].id > i
  {
    assert Linked(c, pages, ls, i);
    if i > 0 {
      ChainIds(c, pages, ls, i - 1);
      assert Linked(c, pages, ls, i - 1);
    }
  }

  ghost predicate PageIs(pages: Pages, id: nat, page: seq<byte>) { id in pages && pages[id] == page }

  lemma LeafPage(c: Codec, pages: Pages, ls: seq<Tree>, p: nat)
    requires Chain(c, pages, ls) && p < |ls|
    ensures ls[p].Leaf? && ls[p].id in pages && |pages[ls[p].id]| == PAGE_SIZE
    ensures pages[ls[p].id][0] == PAGE_TYPE_LEAF && HoldsEntries(c, pages[ls[p].id], ls[p].entries) && SlotsInside(pages[ls[p].id])
  {
    assert Linked(c, pages, ls, p);
    var page := pages[ls[p].id];
    hide SlotsHold, SlotsInside;
    LeafSlotsInside(page, c.Recs(ls[p].entries), Field(page, 4, 8));
  }

  /** Snapshot the raw leaf pages in key order; the cycle guard never trips on a stored tree. */
  method CollectLeafPages(c: Codec, pages: Pages, root: nat, pageCount: nat, ghost t: Tree)
    returns (r: Option<seq<seq<byte>>>)
    requires Stored(c, pages, t) && t.id == root && LeavesBelow(t, pageCount)
    ensures r.Some? && |r.value| == |Leaves(t)|
    ensures AreLeaves(Leaves(t))
    ensures forall i :: 0 <= i < |Leaves(t)| ==> HoldsEntries(c, r.value[i], Leaves(t)[i].entries)
    ensures forall i :: 0 <= i < |Leaves(t)| ==> PageIs(pages, Leaves(t)[i].id, r.value[i])
  {
    LeavesAreLeaves(t);
    ghost var ls := Leaves(t);
    StoredChain(c, pages, t);
    var leaf := FindLeftmostLeaf(c, pages, root, t);
    assert forall i :: 0 <= i < |ls| ==> ls[i].id < pageCount;
    var leaves := [];
    assert Collected(c, pages, ls, leaves);
    hide Stored, Chain, HoldsEntries, Field, SlotsInside, Leaves, LeavesBelow, Collected, PageIs;
    while true
      invariant |leaves| < |ls| && leaf == ls[|leaves|].id
      invariant Collected(c, pages, ls, leaves)
      decreases |ls| - |leaves|
    {
      ghost var p := |leaves|;
      NextLink(c, pages, ls, p);
      ChainIds(c, pages, ls, p);
      LeafPage(c, pages, ls, p);
      var page := pages[leaf];
      var ok := ValidateLeafSlots(page);
      if page[0] != PAGE_TYPE_LEAF || |leaves| >= pageCount || !ok { return None; }
      CollectedMore(c, pages, ls, leaves, page);
      leaves := leaves + [page];
      if Field(page, 4, 8) == 0 {
        CollectedAll(c, pages, ls, leaves);
        return Some(leaves);
      }
      leaf := Field(page, 4, 8);
    }
  }

  /** The pages collected are the file's pages of the first leaves. */
  ghost predicate Collected(c: Codec, pages: Pages, ls: seq<Tree>, leaves: seq<seq<byte>>)
    requires AreLeaves(ls)
  {
    && |leaves| <= |ls|
    && (forall i :: 0 <= i < |leaves| ==> HoldsEntries(c, leaves[i], ls[i].entries))
    && (forall i :: 0 <= i < |leaves| ==> PageIs(pages, ls[i].id, leaves[i]))
  }

  lemma CollectedMore(c: Codec, pages: Pages, ls: seq<Tree>, leaves: seq<seq<byte>>, page: seq<byte>)
    requires AreLeaves(ls) && Collected(c, pages, ls, leaves) && |leaves| < |ls| && ls[|leaves|].id in pages
    requires page == pages[ls[|leaves|].id] && HoldsEntries(c, page, ls[|leaves|].entries)
    ensures Collected(c, pages, ls, leaves + [page])
  {
    hide HoldsEntries;
  }

  lemma CollectedAll(c: Codec, pages: Pages, ls: seq<Tree>, leaves: seq<seq<byte>>)
    requires AreLeaves(ls) && Collected(c, pages, ls, leaves)
    ensures |leaves| <= |ls|
    ensures forall i :: 0 <= i < |leaves| ==> HoldsEntries(c, leaves[i], ls[i].entries)
    ensures forall i :: 0 <= i < |leaves| ==> PageIs(pages, ls[i].id, leaves[i])
  {}

  lemma StoredChain(c: Codec, pages: Pages, t: Tree)
    requires Stored(c, pages, t)
    ensures Chain(c, pages, Leaves(t))
  {}

  /** Two stored trees with the same entries answer every scan alike whose start at most one entry has: a
      rebuilt index and a bulk build of the merge cannot be told apart. */
  method ScansAgree(c: Codec, pages: Pages, root: nat, t: Tree, pages': Pages, root': nat, t': Tree, start: Key, end: Option<Key>)
    returns (a: seq<FactRef>, b: seq<FactRef>)
    requires c.Valid() && Stored(c, pages, t) && t.id == root && Stored(c, pages', t') && t'.id == root'
    requires Entries(t) == Entries(t') && Once(Entries(t), start)
    ensures a == b == ScanResult(Entries(t), start, end)
  {
    LeavesAreLeaves(t);
    LeavesAreLeaves(t');
    OnceNotMissed(Leaves(t), start, end);
    OnceNotMissed(Leaves(t'), start, end);
    a := RangeScan(c, pages, root, start, end, t);
    b := RangeScan(c, pages', root', start, end, t');
  }

  /** A scan returns exactly the refs of entries in range: every one of them, and no other. */
  lemma {:induction false} ScanExact(es: seq<Entry>, n: nat, start: Key, end: Option<Key>, r: FactRef)
    requires n <= |es|
    ensures r in Select(es, n, start, end) <==>
      exists i :: 0 <= i < n && es[i].ref == r && start <= es[i].key && (end == None || es[i].key < end.value)
  {
    if n > 0 {
      ScanExact(es, n - 1, start, end, r);
      if InRange(es[n - 1].key, start, end) {
        assert Select(es, n, start, end) == Select(es, n - 1, start, end) + [es[n - 1].ref];
      }
    }
  }
}
