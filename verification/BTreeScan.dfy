/** Descent by separators and range scan along the leaf chain. */
module BTreeScan {
  import opened Bytes
  import opened SlottedPage
  import opened BTreePages
  import opened BTreeModel

  /** Refs of the first `n` entries whose key is in `[start, end)`, in key order. */
  function Select(es: seq<Entry>, n: nat, start: Key, end: Option<Key>): seq<FactRef>
    requires n <= |es|
  {
    if n == 0 then []
    else Select(es, n - 1, start, end) +
         (if InRange(es[n - 1].key, start, end) then [es[n - 1].ref] else [])
  }

  predicate InRange(k: Key, start: Key, end: Option<Key>) {
    start <= k && (end.Some? ==> k < end.value)
  }

  /** The refs of all entries with `start <= key < end`, in order. */
  function ScanResult(es: seq<Entry>, start: Key, end: Option<Key>): seq<FactRef> {
    Select(es, |es|, start, end)
  }

  lemma {:induction false} SelectNone(es: seq<Entry>, m: nat, n: nat, start: Key, end: Option<Key>)
    requires m <= n <= |es|
    requires forall i :: m <= i < n ==> !InRange(es[i].key, start, end)
    ensures Select(es, n, start, end) == Select(es, m, start, end)
    decreases n
  {
    if m < n { SelectNone(es, m, n - 1, start, end); }
  }

  /** Leaf `p` is the only leaf that can hold `key`. */
  ghost predicate Covers(ls: seq<Tree>, p: nat, key: Key)
    requires p < |ls| && AreLeaves(ls)
  {
    && (p > 0 ==> ls[p].entries != [] && ls[p].entries[0].key <= key)
    && (p + 1 < |ls| ==> ls[p + 1].entries != [] && key < ls[p + 1].entries[0].key)
  }

  /** The separators of a page, decoded: the child `find_leaf_for_key` descends to. */
  method ChooseChild(c: Codec, page: seq<byte>, key: Key, ghost kids: seq<Tree>) returns (child: nat, ghost k: nat)
    requires c.Valid() && kids != [] && AllProper(kids)
    requires InternalHolds(page, Ids(kids), Seps(c, kids))
    ensures k < |kids| && child == kids[k].id && child in Ids(kids)
    ensures k > 0 ==> FirstKey(kids[k]) <= key
    ensures k + 1 < |kids| ==> key < FirstKey(kids[k + 1])
  {
    InternalShape(c, page, kids);
    hide InternalHolds, Seps, SlotsHold, ReadSlot, Field, U16At;
    var keyCount := U16At(page, 2);
    var i := 0;
    while i < keyCount
      invariant 0 <= i <= keyCount == |kids| - 1
      invariant i > 0 ==> FirstKey(kids[i]) <= key
    {
      SeparatorAt(c, page, kids, i);
      var slot := ReadSlot(page, HEADER_SIZE + 8 * keyCount, i);
      var sep := c.unkey(slot.value);
      if key < sep.value {
        child := Field(page, HEADER_SIZE + 8 * i, 8);
        k := i;
        return;
      }
      i := i + 1;
    }
    child := Field(page, 4, 8);
    k := i;
  }

  /** The count of an internal page, and its last child in the header. */
  lemma InternalShape(c: Codec, page: seq<byte>, kids: seq<Tree>)
    requires kids != [] && AllProper(kids) && InternalHolds(page, Ids(kids), Seps(c, kids))
    ensures |page| == PAGE_SIZE && U16At(page, 2) == |kids| - 1 && Field(page, 4, 8) == kids[|kids| - 1].id && kids[|kids| - 1].id in Ids(kids)
    ensures HEADER_SIZE + 8 * |kids| <= PAGE_SIZE
  {
    assert Ids(kids)[|kids| - 1] == kids[|kids| - 1].id;
  }

  /** Separator `i` is the first key of child `i + 1`, and child `i` stands at its rank. */
  lemma SeparatorAt(c: Codec, page: seq<byte>, kids: seq<Tree>, i: nat)
    requires c.Valid() && kids != [] && AllProper(kids) && InternalHolds(page, Ids(kids), Seps(c, kids)) && i < |kids| - 1
    ensures |page| == PAGE_SIZE && HEADER_SIZE + 8 * i + 8 <= PAGE_SIZE
    ensures ReadSlot(page, HEADER_SIZE + 8 * (|kids| - 1), i) == Some(c.key(FirstKey(kids[i + 1])))
    ensures c.unkey(c.key(FirstKey(kids[i + 1]))) == Some(FirstKey(kids[i + 1]))
    ensures Field(page, HEADER_SIZE + 8 * i, 8) == kids[i].id && kids[i].id in Ids(kids)
  {
    ReadSlotHeld(page, HEADER_SIZE + 8 * (|kids| - 1), Seps(c, kids), i);
    hide SlotsHold, ReadSlot;
    assert Ids(kids)[i] == kids[i].id;
  }

  lemma SplitKids(kids: seq<Tree>, k: nat)
    requires k < |kids|
    ensures LeavesAll(kids) == LeavesAll(kids[..k]) + Leaves(kids[k]) + LeavesAll(kids[k + 1..])
  {
    assert kids == kids[..k] + kids[k..];
    LeavesAllConcat(kids[..k], kids[k..]);
    assert kids[k..][1..] == kids[k + 1..];
  }

  /** What the descent has settled: `cur` holds the leaf, `pre` lies before it, `post` after. */
  ghost predicate Located(ls: seq<Tree>, pre: seq<Tree>, cur: Tree, post: seq<Tree>, key: Key) {
    && ls == pre + Leaves(cur) + post
    && (pre != [] ==> Proper(cur) && FirstKey(cur) <= key)
    && (post != [] ==> post[0].Leaf? && post[0].entries != [] && key < post[0].entries[0].key)
  }

  lemma Regroup(pre: seq<Tree>, a: seq<Tree>, b: seq<Tree>, z: seq<Tree>, post: seq<Tree>)
    ensures pre + (a + b + z) + post == (pre + a) + b + (z + post)
  {
  }

  lemma FirstLeafAll(ts: seq<Tree>)
    requires ts != [] && Proper(ts[0])
    ensures LeavesAll(ts) != []
    ensures var l := LeavesAll(ts)[0]; l.Leaf? && l.entries != [] && l.entries[0].key == FirstKey(ts[0])
  {
    FirstLeaf(ts[0]);
  }

  lemma DescendOne(ls: seq<Tree>, pre: seq<Tree>, cur: Tree, post: seq<Tree>, key: Key, k: nat)
    requires Proper(cur) && cur.Inner? && Located(ls, pre, cur, post, key) && k < |cur.kids|
    requires k > 0 ==> FirstKey(cur.kids[k]) <= key
    requires k + 1 < |cur.kids| ==> key < FirstKey(cur.kids[k + 1])
    ensures Located(ls, pre + LeavesAll(cur.kids[..k]), cur.kids[k], LeavesAll(cur.kids[k + 1..]) + post, key)
  {
    var kids := cur.kids;
    var before, after := LeavesAll(kids[..k]), LeavesAll(kids[k + 1..]);
    SplitKids(kids, k);
    Regroup(pre, before, Leaves(kids[k]), after, post);
    if k + 1 < |kids| {
      FirstLeafAll(kids[k + 1..]);
      assert (after + post)[0] == after[0];
    } else {
      assert after == [] && after + post == post;
    }
    assert k == 0 ==> before == [] && pre + before == pre;
  }

  /** In a stored tree a page's type byte tells leaf from internal node. */
  lemma TypeByte(c: Codec, pages: Pages, ls: seq<Tree>, pre: seq<Tree>, cur: Tree, post: seq<Tree>, key: Key)
    requires NodeStored(c, pages, cur) && Chain(c, pages, ls) && Located(ls, pre, cur, post, key)
    ensures cur.id in pages && |pages[cur.id]| == PAGE_SIZE
    ensures cur.Leaf? <==> pages[cur.id][0] == PAGE_TYPE_LEAF
  {
    if cur.Leaf? {
      assert ls[|pre|] == cur;
      assert Linked(c, pages, ls, |pre|);
    }
  }

  lemma KidsStored(c: Codec, pages: Pages, cur: Tree)
    requires cur.Inner? && NodeStored(c, pages, cur)
    ensures Proper(cur) && cur.id in pages && cur.kids != [] && AllProper(cur.kids)
    ensures InternalHolds(pages[cur.id], Ids(cur.kids), Seps(c, cur.kids))
    ensures forall i :: 0 <= i < |cur.kids| ==> NodeStored(c, pages, cur.kids[i])
  {
  }

  /** A descent that ends at a leaf ends at the leaf that covers the key. */
  lemma LocatedCovers(ls: seq<Tree>, pre: seq<Tree>, cur: Tree, post: seq<Tree>, key: Key)
    requires AreLeaves(ls) && cur.Leaf? && Located(ls, pre, cur, post, key)
    ensures |pre| < |ls| && ls[|pre|] == cur && Covers(ls, |pre|, key)
  {
    assert post != [] ==> ls[|pre| + 1] == post[0];
  }

  lemma LocatedStart(t: Tree, key: Key)
    ensures Located(Leaves(t), [], t, [], key)
  {
  }

  /** Descend from `root` to the one leaf that can hold `key`. */
  method FindLeafForKey(c: Codec, pages: Pages, root: nat, key: Key, ghost t: Tree)
    returns (leaf: nat, ghost p: nat)
    requires c.Valid() && Stored(c, pages, t) && t.id == root
    ensures p < |Leaves(t)| && leaf == Leaves(t)[p].id
    ensures AreLeaves(Leaves(t)) && Covers(Leaves(t), p, key)
    ensures forall q :: 0 <= q < |Leaves(t)| && Covers(Leaves(t), q, key) ==> leaf == Leaves(t)[q].id
  {
    hide NodeStored, Chain, Covers, Located, InternalHolds, Leaves, FirstKey, Sorted;
    LeavesAreLeaves(t);
    ghost var cur, pre, post := t, [], [];
    leaf := root;
    LocatedStart(t, key);
    TypeByte(c, pages, Leaves(t), [], t, [], key);
    while pages[leaf][0] != PAGE_TYPE_LEAF
      invariant leaf in pages && |pages[leaf]| == PAGE_SIZE && cur.id == leaf
      invariant NodeStored(c, pages, cur) && Located(Leaves(t), pre, cur, post, key)
      invariant cur.Leaf? <==> pages[leaf][0] == PAGE_TYPE_LEAF
      decreases cur
    {
      KidsStored(c, pages, cur);
      var child; ghost var k;
      child, k := ChooseChild(c, pages[leaf], key, cur.kids);
      DescendOne(Leaves(t), pre, cur, post, key, k);
      pre, post := pre + LeavesAll(cur.kids[..k]), LeavesAll(cur.kids[k + 1..]) + post;
      cur, leaf := cur.kids[k], child;
      TypeByte(c, pages, Leaves(t), pre, cur, post, key);
    }
    p := |pre|;
    LocatedCovers(Leaves(t), pre, cur, post, key);
    CoversOnce(Leaves(t), p, key);
  }

  /** Only one leaf covers a key. */
  lemma CoversOnce(ls: seq<Tree>, p: nat, key: Key)
    requires AreLeaves(ls) && p < |ls| && Sorted(AllOf(ls)) && Covers(ls, p, key)
    ensures forall q :: 0 <= q < |ls| && Covers(ls, q, key) ==> q == p
  {
    forall q | 0 <= q < |ls| && Covers(ls, q, key) ensures q == p {
      if q < p { FirstKeysApart(ls, q + 1, p); }
      if p < q { FirstKeysApart(ls, p + 1, q); }
    }
  }

  lemma FirstKeysApart(ls: seq<Tree>, i: nat, j: nat)
    requires AreLeaves(ls) && i <= j < |ls| && Sorted(AllOf(ls)) && ls[i].entries != [] && ls[j].entries != []
    ensures ls[i].entries[0].key <= ls[j].entries[0].key
  {
    if i < j {
      EntryAt(ls, i, 0);
      EntryAt(ls, j, 0);
      UptoPrefix(ls, i + 1, j);
    }
  }

  /** The entries of the first `n` slots, or None on the first slot that does not decode. */
  function DecodeUpto(c: Codec, p: seq<byte>, n: nat): Option<seq<Entry>> {
    if n == 0 then Some([])
    else
      match DecodeUpto(c, p, n - 1)
      case None => None
      case Some(es) =>
        match ReadSlot(p, HEADER_SIZE, n - 1)
        case None => None
        case Some(r) => match c.unentry(r)
          case None => None
          case Some(e) => Some(es + [e])
  }

  lemma {:induction false} DecodeHeld(c: Codec, p: seq<byte>, es: seq<Entry>, n: nat)
    requires c.Valid() && SlotsHold(p, HEADER_SIZE, c.Recs(es)) && n <= |es|
    ensures DecodeUpto(c, p, n) == Some(es[..n])
  {
    if n > 0 {
      DecodeHeld(c, p, es, n - 1);
      ReadSlotHeld(p, HEADER_SIZE, c.Recs(es), n - 1);
      assert es[..n] == es[..n - 1] + [es[n - 1]];
    }
  }

  /** Decoding a leaf page returns exactly the entries encoded in it. */
  lemma {:induction false} DecodeLeaf(c: Codec, p: seq<byte>, es: seq<Entry>, next: nat)
    requires c.Valid() && LeafHolds(p, c.Recs(es), next)
    ensures DecodeUpto(c, p, U16At(p, 2)) == Some(es)
  {
    DecodeHeld(c, p, es, |es|);
    assert es[..|es|] == es;
  }

  /** Read all entries of a leaf, None when a slot is out of bounds or does not decode. */
  method ReadLeafEntries(c: Codec, page: seq<byte>) returns (r: Option<seq<Entry>>)
    requires |page| >= HEADER_SIZE
    ensures r == DecodeUpto(c, page, U16At(page, 2))
  {
    var count := U16At(page, 2);
    var entries := [];
    for i := 0 to count
      invariant DecodeUpto(c, page, i) == Some(entries)
    {
      var slot := ReadSlot(page, HEADER_SIZE, i);
      var e := if slot.None? then None else c.unentry(slot.value);
      if e.None? {
        DecodeStuck(c, page, i + 1, count);
        return None;
      }
      entries := entries + [e.value];
    }
    return Some(entries);
  }

  lemma {:induction false} DecodeStuck(c: Codec, p: seq<byte>, m: nat, n: nat)
    requires m <= n && DecodeUpto(c, p, m).None?
    ensures DecodeUpto(c, p, n).None?
  {
    if m < n { DecodeStuck(c, p, m, n - 1); }
  }

  lemma EntryAt(ls: seq<Tree>, p: nat, j: nat)
    requires AreLeaves(ls) && p < |ls| && j < |ls[p].entries|
    ensures |Upto(ls, p)| + j < |AllOf(ls)|
    ensures AllOf(ls)[|Upto(ls, p)| + j] == ls[p].entries[j]
  {
    UptoPrefix(ls, p + 1, |ls|);
    assert Upto(ls, p + 1)[|Upto(ls, p)| + j] == ls[p].entries[j];
  }

  lemma LeafSlice(ls: seq<Tree>, p: nat)
    requires AreLeaves(ls) && p < |ls|
    ensures |Upto(ls, p + 1)| == |Upto(ls, p)| + |ls[p].entries| <= |AllOf(ls)|
    ensures forall j :: 0 <= j < |ls[p].entries| ==> AllOf(ls)[|Upto(ls, p)| + j] == ls[p].entries[j]
  {
    UptoPrefix(ls, p + 1, |ls|);
    forall j | 0 <= j < |ls[p].entries| ensures AllOf(ls)[|Upto(ls, p)| + j] == ls[p].entries[j] { EntryAt(ls, p, j); }
  }

  /** Nothing before the leaf that covers `start` is above it. */
  lemma BeforeCovered(ls: seq<Tree>, p: nat, start: Key)
    requires AreLeaves(ls) && p < |ls| && Sorted(AllOf(ls)) && Covers(ls, p, start)
    ensures Upto(ls, p) <= AllOf(ls) && forall i :: 0 <= i < |Upto(ls, p)| ==> Upto(ls, p)[i].key <= start
  {
    UptoPrefix(ls, p, |ls|);
    if p > 0 { EntryAt(ls, p, 0); }
  }

  /** Some leaf before the one that covers `start` holds `start` too, so a scan from there misses it. */
  ghost predicate Missed(ls: seq<Tree>, start: Key, end: Option<Key>)
    requires AreLeaves(ls)
  {
    InRange(start, start, end) &&
    exists p, i :: 0 <= p < |ls| && Covers(ls, p, start) && 0 <= i < |Upto(ls, p)| && Upto(ls, p)[i].key == start
  }

  /** At most one entry has this key. */
  ghost predicate Once(es: seq<Entry>, key: Key) {
    forall i, j :: 0 <= i < j < |es| ==> !(es[i].key == key && es[j].key == key)
  }

  lemma {:induction false} OnceNotMissed(ls: seq<Tree>, start: Key, end: Option<Key>)
    requires AreLeaves(ls) && Sorted(AllOf(ls)) && Once(AllOf(ls), start)
    ensures !Missed(ls, start, end)
  {
    if Missed(ls, start, end) {
      var p, i :| 0 <= p < |ls| && Covers(ls, p, start) && 0 <= i < |Upto(ls, p)| && Upto(ls, p)[i].key == start;
      UptoPrefix(ls, p, |ls|);
      EntryAt(ls, p, 0);
    }
  }

  /** A scan answers with all in range but what lies before the leaf that covers `start`. */
  ghost predicate Answers(ls: seq<Tree>, start: Key, end: Option<Key>, refs: seq<FactRef>)
    requires AreLeaves(ls)
  {
    forall p :: 0 <= p < |ls| && Covers(ls, p, start) ==>
      |Upto(ls, p)| <= |AllOf(ls)| && Select(AllOf(ls), |Upto(ls, p)|, start, end) + refs == ScanResult(AllOf(ls), start, end)
  }

  lemma {:induction false} SelectEmpty(es: seq<Entry>, n: nat, start: Key, end: Option<Key>)
    requires n <= |es|
    ensures Select(es, n, start, end) == [] <==> forall i :: 0 <= i < n ==> !InRange(es[i].key, start, end)
  {
    if n > 0 { SelectEmpty(es, n - 1, start, end); }
  }

  /** What precedes the covering leaf has nothing in range exactly when nothing is missed. */
  lemma SkippedIffMissed(ls: seq<Tree>, p: nat, start: Key, end: Option<Key>)
    requires AreLeaves(ls) && p < |ls| && Sorted(AllOf(ls)) && Covers(ls, p, start)
    ensures |Upto(ls, p)| <= |AllOf(ls)|
    ensures Select(AllOf(ls), |Upto(ls, p)|, start, end) == [] <==> !Missed(ls, start, end)
  {
    BeforeCovered(ls, p, start);
    CoversOnce(ls, p, start);
    SelectEmpty(AllOf(ls), |Upto(ls, p)|, start, end);
    hide Sorted;
    assert forall i :: 0 <= i < |Upto(ls, p)| ==> AllOf(ls)[i] == Upto(ls, p)[i];
  }

  /** One leaf of the scan: take its entries in range, and stop at the first at or past `end`. */
  method ScanLeaf(entries: seq<Entry>, start: Key, end: Option<Key>, sofar: seq<FactRef>,
                  ghost all: seq<Entry>, ghost base: nat, ghost skipped: seq<FactRef>)
    returns (refs: seq<FactRef>, done: bool)
    requires Sorted(all) && base + |entries| <= |all|
    requires forall j :: 0 <= j < |entries| ==> all[base + j] == entries[j]
    requires skipped + sofar == Select(all, base, start, end)
    ensures skipped + refs == Select(all, if done then |all| else base + |entries|, start, end)
  {
    refs, done := sofar, false;
    for j := 0 to |entries|
      invariant skipped + refs == Select(all, base + j, start, end)
    {
      var e := entries[j];
      assert e == all[base + j];
      if e.key < start { continue; }
      if end.Some? && e.key >= end.value {
        SelectNone(all, base + j, |all|, start, end);
        done := true;
        return;
      }
      assert skipped + (refs + [e.ref]) == (skipped + refs) + [e.ref];
      refs := refs + [e.ref];
    }
  }

  /** `next_leaf` is 0 exactly on the last leaf, and otherwise the id of the next one. */
  lemma NextLink(c: Codec, pages: Pages, ls: seq<Tree>, p: nat)
    requires Chain(c, pages, ls) && p < |ls|
    ensures ls[p].id in pages && |pages[ls[p].id]| == PAGE_SIZE
    ensures ls[p].Leaf? ==> LeafHolds(pages[ls[p].id], c.Recs(ls[p].entries), Field(pages[ls[p].id], 4, 8))
    ensures Field(pages[ls[p].id], 4, 8) == if p + 1 < |ls| then ls[p + 1].id else 0
    ensures p + 1 < |ls| ==> ls[p + 1].id > 0
  {
    assert Linked(c, pages, ls, p);
    if p + 1 < |ls| { assert Linked(c, pages, ls, p + 1); }
  }

  /** Decode the page of leaf `p` and scan its entries. */
  method ScanPage(c: Codec, page: seq<byte>, start: Key, end: Option<Key>, sofar: seq<FactRef>,
                  ghost ls: seq<Tree>, ghost p: nat, ghost next: nat, ghost skipped: seq<FactRef>)
    returns (refs: seq<FactRef>, done: bool)
    requires c.Valid() && AreLeaves(ls) && p < |ls| && Sorted(AllOf(ls)) && |Upto(ls, p)| <= |AllOf(ls)|
    requires |page| == PAGE_SIZE && LeafHolds(page, c.Recs(ls[p].entries), next)
    requires skipped + sofar == Select(AllOf(ls), |Upto(ls, p)|, start, end)
    ensures |Upto(ls, p + 1)| <= |AllOf(ls)|
    ensures skipped + refs == Select(AllOf(ls), if done then |AllOf(ls)| else |Upto(ls, p + 1)|, start, end)
  {
    hide LeafHolds, Sorted, DecodeUpto, Upto, AllOf, Select;
    DecodeLeaf(c, page, ls[p].entries, next);
    var entries := ReadLeafEntries(c, page);
    LeafSlice(ls, p);
    refs, done := ScanLeaf(entries.value, start, end, sofar, AllOf(ls), |Upto(ls, p)|, skipped);
  }

  /** Scan leaf after leaf along the links, from leaf `p` on. */
  method FollowLeaves(c: Codec, pages: Pages, first: nat, start: Key, end: Option<Key>, ghost ls: seq<Tree>, ghost q: nat)
    returns (refs: seq<FactRef>)
    requires c.Valid() && AreLeaves(ls) && Chain(c, pages, ls) && Sorted(AllOf(ls))
    requires q < |ls| && first == ls[q].id && |Upto(ls, q)| <= |AllOf(ls)|
    ensures Select(AllOf(ls), |Upto(ls, q)|, start, end) + refs == Select(AllOf(ls), |AllOf(ls)|, start, end)
  {
    hide Sorted, Select, AllOf, Upto, Chain, LeafHolds, Field;
    ghost var skipped := Select(AllOf(ls), |Upto(ls, q)|, start, end);
    var leaf := first;
    ghost var p: nat := q;
    refs := [];
    assert skipped + refs == skipped;
    var done := false;
    while !done
      invariant p < |ls| && leaf == ls[p].id
      invariant |Upto(ls, p)| <= |AllOf(ls)|
      invariant skipped + refs == Select(AllOf(ls), if done then |AllOf(ls)| else |Upto(ls, p)|, start, end)
      decreases !done, |ls| - p
    {
      NextLink(c, pages, ls, p);
      var page := pages[leaf];
      var next := Field(page, 4, 8);
      refs, done := ScanPage(c, page, start, end, refs, ls, p, next, skipped);
      if done || next == 0 {
        if !done { UptoAll(ls); }
        done := true;
      } else {
        leaf, p := next, p + 1;
      }
    }
  }

  lemma UptoAll(ls: seq<Tree>)
    requires AreLeaves(ls)
    ensures Upto(ls, |ls|) == AllOf(ls)
  {}

  /** Scan `[start, end)`: on any stored tree, empty ones included, the result is the refs whose key is
      in range, in key order. Entries may share keys: the scan is short exactly when an earlier leaf than the
      one that covers `start` holds `start` too. */
  method RangeScan(c: Codec, pages: Pages, root: nat, start: Key, end: Option<Key>, ghost t: Tree)
    returns (refs: seq<FactRef>)
    requires c.Valid() && Stored(c, pages, t) && t.id == root
    ensures AreLeaves(Leaves(t))
    ensures refs == ScanResult(Entries(t), start, end) <==> !Missed(Leaves(t), start, end)
    ensures Answers(Leaves(t), start, end, refs)
  {
    hide Sorted, Covers, NodeStored, SlotsHold, Select, Missed;
    var leaf: nat; ghost var p: nat;
    leaf, p := FindLeafForKey(c, pages, root, start, t);
    ghost var ls := Leaves(t);
    UptoPrefix(ls, p, |ls|);
    SkippedIffMissed(ls, p, start, end);
    CoversOnce(ls, p, start);
    refs := FollowLeaves(c, pages, leaf, start, end, ls, p);
    EmptyFront(Select(AllOf(ls), |Upto(ls, p)|, start, end), refs);
  }

  lemma EmptyFront(a: seq<FactRef>, b: seq<FactRef>)
    ensures b == a + b <==> a == []
  {
    if a != [] { assert |a + b| > |b|; }
  }

  // ----- a shared key -----

  /** Two leaves of one entry each under one node. */
  ghost function TwoLeaves(e: Entry, f: Entry): Tree { Inner(3, [Leaf(1, [e]), Leaf(2, [f])]) }

  lemma {:induction false} TwoLeavesHold(e: Entry, f: Entry)
    ensures Leaves(TwoLeaves(e, f)) == [Leaf(1, [e]), Leaf(2, [f])] && Proper(TwoLeaves(e, f))
    ensures AllOf([Leaf(1, [e]), Leaf(2, [f])]) == [e, f] && Upto([Leaf(1, [e]), Leaf(2, [f])], 1) == [e]
  {
    var a, b := Leaf(1, [e]), Leaf(2, [f]);
    assert [a, b] == [a] + [b];
    LeavesAllConcat([a], [b]);
    LeavesAllOne(a);
    LeavesAllOne(b);
    assert Upto([a, b], 1) == Upto([a, b], 0) + [e] == [e];
    assert AllOf([a, b]) == Upto([a, b], 1) + [f] == [e, f];
  }

  lemma {:induction false} TwoLeavesStored(c: Codec, pages: Pages, e: Entry, f: Entry)
    requires e.key <= f.key && 1 in pages && 2 in pages && 3 in pages
    requires LeafHolds(pages[1], c.Recs([e]), 2) && LeafHolds(pages[2], c.Recs([f]), 0)
    requires InternalHolds(pages[3], [1, 2], [c.key(f.key)])
    ensures Stored(c, pages, TwoLeaves(e, f))
  {
    hide LeafHolds, InternalHolds;
    TwoLeavesHold(e, f);
    var t := TwoLeaves(e, f);
    assert Ids(t.kids) == [1, 2] && FirstKey(t.kids[1]) == f.key;
    assert Seps(c, t.kids) == [c.key(f.key)];
    assert InnerStored(c, pages, t.kids[0]) && InnerStored(c, pages, t.kids[1]);
    assert InnerStored(c, pages, t);
    assert Linked(c, pages, Leaves(t), 0) && Linked(c, pages, Leaves(t), 1);
    assert Entries(t) == [e, f];
  }

  lemma {:induction false} TwoLeavesMissed(e: Entry, f: Entry)
    requires e.key == f.key
    ensures AreLeaves(Leaves(TwoLeaves(e, f))) && Missed(Leaves(TwoLeaves(e, f)), e.key, None)
    ensures ScanResult(Entries(TwoLeaves(e, f)), e.key, None) == [e.ref, f.ref]
    ensures forall refs :: Answers(Leaves(TwoLeaves(e, f)), e.key, None, refs) ==> refs == [f.ref]
  {
    TwoLeavesHold(e, f);
    var ls := [Leaf(1, [e]), Leaf(2, [f])];
    assert Covers(ls, 1, e.key) && Upto(ls, 1)[0].key == e.key;
    var es := [e, f];
    assert Select(es, 1, e.key, None) == Select(es, 0, e.key, None) + [e.ref] == [e.ref];
    assert Select(es, 2, e.key, None) == Select(es, 1, e.key, None) + [f.ref] == [e.ref, f.ref];
    forall refs | Answers(ls, e.key, None, refs) ensures refs == [f.ref] {
      assert [e.ref] + refs == [e.ref, f.ref];
      assert refs == ([e.ref] + refs)[1..];
    }
  }

  /** A page file on which a scan is short: two entries share a key in two leaves, and the scan from that key finds the second only. */
  method SharedKeyMissed(c: Codec, e: Entry, f: Entry) returns (pages: Pages, refs: seq<FactRef>, ghost t: Tree)
    requires c.Valid() && c.Small(e) && c.Small(f) && e.key == f.key
    ensures Stored(c, pages, t) && t.id == 3 && AreLeaves(Leaves(t)) && Missed(Leaves(t), e.key, None)
    ensures ScanResult(Entries(t), e.key, None) == [e.ref, f.ref] && refs == [f.ref]
  {
    OneFits(HEADER_SIZE, c.entry(e));
    OneFits(HEADER_SIZE, c.entry(f));
    OneFits(HEADER_SIZE + 8, c.key(f.key));
    assert c.Recs([e]) == [c.entry(e)] && c.Recs([f]) == [c.entry(f)];
    hide LeafHolds, InternalHolds, Room, Missed, Answers, Select, Stored;
    var first := EncodeLeafPage([c.entry(e)], 2);
    var second := EncodeLeafPage([c.entry(f)], 0);
    var node := EncodeInternalPage([1, 2], [c.key(f.key)]);
    pages := map[1 := first, 2 := second, 3 := node];
    t := TwoLeaves(e, f);
    TwoLeavesStored(c, pages, e, f);
    TwoLeavesMissed(e, f);
    refs := RangeScan(c, pages, 3, e.key, None, t);
  }

  lemma {:induction false} OneFits(dir: nat, rec: Record)
    requires dir + 4 + |rec| <= PAGE_SIZE
    ensures Room(dir, [rec])
  {
    assert Sum([rec], 1) == Sum([rec], 0) + |rec|;
  }
}
