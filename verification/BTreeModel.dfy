/** The B+tree as a value: entries, leaves, the tree over them, and what it means
    for a page file to store that tree. */
module BTreeModel {
  import opened Bytes
  import opened SlottedPage
  import opened BTreePages

  function Quotient(n: int, d: int): real
    requires d > 0
  {
    n as real / d as real
  }

  ghost predicate Rational(r: real) {
    exists n, d :: d > 0 && r == Quotient(n, d)
  }

  /** Index keys are used only through `Ord`. There are countably many of them, so each of the
      four key orders embeds in the rationals: these stand for any of them. */
  type Key = r: real | Rational(r) witness Quotient(0, 1)

  datatype FactRef = FactRef(page: nat, slot: nat)
  datatype Entry = Entry(key: Key, ref: FactRef)

  type Pages = map<nat, seq<byte>>

  /** postcard, for leaf entries and for separator keys: decoding undoes encoding. */
  datatype Codec = Codec(entry: Entry -> Record, unentry: Record -> Option<Entry>,
                         key: Key -> Record, unkey: Record -> Option<Key>)
  {
    ghost predicate Valid() {
      && (forall e: Entry :: unentry(entry(e)) == Some(e))
      && (forall k: Key :: unkey(key(k)) == Some(k))
    }

    /** The entry fits a leaf of its own, and its key an internal node of one separator. */
    predicate Small(e: Entry) {
      |entry(e)| <= PAGE_SIZE - HEADER_SIZE - 4 && |key(e.key)| <= PAGE_SIZE - HEADER_SIZE - 12
    }

    ghost predicate AllSmall(es: seq<Entry>) {
      forall i :: 0 <= i < |es| ==> Small(es[i])
    }

    function Recs(es: seq<Entry>): (r: seq<Record>)
      ensures |r| == |es| && forall i :: 0 <= i < |es| ==> r[i] == entry(es[i])
    {
      seq(|es|, i requires 0 <= i < |es| => entry(es[i]))
    }

    lemma RecsAppend(es: seq<Entry>, e: Entry)
      ensures Recs(es + [e]) == Recs(es) + [entry(e)]
    {
    }
  }

  /** In key order. Entries may share a key. */
  predicate Sorted(es: seq<Entry>) {
    forall i, j :: 0 <= i < j < |es| ==> es[i].key <= es[j].key
  }

  // ----- trees -----

  datatype Tree = Leaf(id: nat, entries: seq<Entry>) | Inner(id: nat, kids: seq<Tree>)

  function Leaves(t: Tree): seq<Tree>
    decreases t, 1
  {
    match t
    case Leaf(_, _) => [t]
    case Inner(_, kids) => LeavesAll(kids)
  }

  function LeavesAll(ts: seq<Tree>): seq<Tree>
    decreases ts, 0
  {
    if ts == [] then [] else Leaves(ts[0]) + LeavesAll(ts[1..])
  }

  lemma {:induction false} LeavesAllConcat(a: seq<Tree>, b: seq<Tree>)
    ensures LeavesAll(a + b) == LeavesAll(a) + LeavesAll(b)
  {
    if a == [] {
      assert a + b == b;
    } else {
      assert (a + b)[1..] == a[1..] + b;
      LeavesAllConcat(a[1..], b);
    }
  }

  lemma LeavesAllOne(t: Tree)
    ensures LeavesAll([t]) == Leaves(t)
  {
    assert [t][1..] == [];
    assert LeavesAll([]) == [];
  }

  /** Entries of the first `n` leaves, in order. */
  function Upto(ls: seq<Tree>, n: nat): seq<Entry>
    requires n <= |ls| && forall i :: 0 <= i < |ls| ==> ls[i].Leaf?
  {
    if n == 0 then [] else Upto(ls, n - 1) + ls[n - 1].entries
  }

  function AllOf(ls: seq<Tree>): seq<Entry>
    requires forall i :: 0 <= i < |ls| ==> ls[i].Leaf?
  {
    Upto(ls, |ls|)
  }

  lemma {:induction false} UptoPrefix(ls: seq<Tree>, i: nat, n: nat)
    requires i <= n <= |ls| && forall i :: 0 <= i < |ls| ==> ls[i].Leaf?
    ensures Upto(ls, i) <= Upto(ls, n)
  {
    if i < n { UptoPrefix(ls, i, n - 1); }
  }

  ghost predicate AreLeaves(ls: seq<Tree>) {
    forall i :: 0 <= i < |ls| ==> ls[i].Leaf?
  }

  lemma {:induction false} LeavesAreLeaves(t: Tree)
    ensures AreLeaves(Leaves(t))
    decreases t, 1
  {
    if t.Inner? { LeavesAllAreLeaves(t.kids); }
  }

  lemma {:induction false} LeavesAllAreLeaves(ts: seq<Tree>)
    ensures AreLeaves(LeavesAll(ts))
    decreases ts, 0
  {
    if ts != [] {
      LeavesAreLeaves(ts[0]);
      LeavesAllAreLeaves(ts[1..]);
    }
  }

  /** Every entry of the tree, in leaf order. */
  ghost function Entries(t: Tree): seq<Entry> {
    LeavesAreLeaves(t);
    AllOf(Leaves(t))
  }

  /** No empty leaf and no childless node. */
  ghost predicate Proper(t: Tree)
    decreases t
  {
    match t
    case Leaf(_, es) => es != []
    case Inner(_, kids) => kids != [] && forall i :: 0 <= i < |kids| ==> Proper(kids[i])
  }

  ghost predicate AllProper(ts: seq<Tree>) {
    forall i :: 0 <= i < |ts| ==> Proper(ts[i])
  }

  ghost function FirstKey(t: Tree): Key
    requires Proper(t)
    decreases t
  {
    match t
    case Leaf(_, es) => es[0].key
    case Inner(_, kids) => FirstKey(kids[0])
  }

  /** The first key of a subtree is the first key of its first leaf. */
  lemma {:induction false} FirstLeaf(t: Tree)
    requires Proper(t)
    ensures |Leaves(t)| > 0
    ensures var l := Leaves(t)[0]; l.Leaf? && l.entries != [] && l.entries[0].key == FirstKey(t)
    decreases t
  {
    match t
    case Leaf(_, _) =>
    case Inner(_, kids) =>
      FirstLeaf(kids[0]);
      assert Leaves(t) == Leaves(kids[0]) + LeavesAll(kids[1..]);
  }

  // ----- storage -----

  ghost function Ids(ts: seq<Tree>): seq<nat> {
    seq(|ts|, i requires 0 <= i < |ts| => ts[i].id)
  }

  /** Separator `j` of a node is the first key of its child `j + 1`. */
  ghost function Seps(c: Codec, ts: seq<Tree>): seq<Record>
    requires ts != [] && AllProper(ts)
  {
    seq(|ts| - 1, j requires 0 <= j < |ts| - 1 => c.key(FirstKey(ts[j + 1])))
  }

  /** Every internal node of `t` is on its page, above its children's pages. */
  ghost predicate InnerStored(c: Codec, pages: Pages, t: Tree)
    requires Proper(t)
    decreases t
  {
    match t
    case Leaf(_, _) => true
    case Inner(id, kids) =>
      && id in pages
      && InternalHolds(pages[id], Ids(kids), Seps(c, kids))
      && forall i :: 0 <= i < |kids| ==> kids[i].id < id && InnerStored(c, pages, kids[i])
  }

  /** A leaf, possibly empty, or a proper internal node that is stored. */
  ghost predicate NodeStored(c: Codec, pages: Pages, t: Tree) {
    t.Leaf? || (Proper(t) && InnerStored(c, pages, t))
  }

  /** The leaves are on their pages, each linked to the next by a larger id, the last to 0. */
  ghost predicate Chain(c: Codec, pages: Pages, ls: seq<Tree>) {
    forall i :: 0 <= i < |ls| ==> Linked(c, pages, ls, i)
  }

  ghost predicate Linked(c: Codec, pages: Pages, ls: seq<Tree>, i: nat)
    requires i < |ls|
  {
    && ls[i].Leaf? && 1 <= ls[i].id && ls[i].id in pages
    && (i + 1 < |ls| ==> ls[i].id < ls[i + 1].id)
    && LeafHolds(pages[ls[i].id], c.Recs(ls[i].entries), if i + 1 < |ls| then ls[i + 1].id else 0)
  }

  /** A stored index: one empty leaf, or a proper tree over a sorted chain of leaves. */
  ghost predicate Stored(c: Codec, pages: Pages, t: Tree) {
    && NodeStored(c, pages, t)
    && Chain(c, pages, Leaves(t))
    && Sorted(Entries(t))
  }

  lemma {:induction false} ProperLeaves(t: Tree)
    requires Proper(t)
    ensures forall i :: 0 <= i < |Leaves(t)| ==> Leaves(t)[i].Leaf? && Leaves(t)[i].entries != []
    decreases t, 1
  {
    if t.Inner? { ProperLeavesAll(t.kids); }
  }

  lemma {:induction false} ProperLeavesAll(ts: seq<Tree>)
    requires AllProper(ts)
    ensures forall i :: 0 <= i < |LeavesAll(ts)| ==> LeavesAll(ts)[i].Leaf? && LeavesAll(ts)[i].entries != []
    decreases ts, 0
  {
    if ts != [] {
      ProperLeaves(ts[0]);
      ProperLeavesAll(ts[1..]);
    }
  }

  /** All nodes of the tree are on pages of `[lo, hi)`. */
  ghost predicate IdsIn(t: Tree, lo: nat, hi: nat)
    decreases t
  {
    lo <= t.id < hi && (t.Inner? ==> forall i :: 0 <= i < |t.kids| ==> IdsIn(t.kids[i], lo, hi))
  }

  lemma {:induction false} LeavesOfKid(kids: seq<Tree>, i: nat, l: Tree)
    requires i < |kids| && l in Leaves(kids[i])
    ensures l in LeavesAll(kids)
  {
    if i > 0 { LeavesOfKid(kids[1..], i - 1, l); }
  }

  /** Below the root and above the leaves lies everything between. */
  lemma {:induction false} PagesWithin(c: Codec, pages: Pages, t: Tree, lo: nat, hi: nat)
    requires Proper(t) && InnerStored(c, pages, t) && t.id < hi && forall l :: l in Leaves(t) ==> lo <= l.id
    ensures IdsIn(t, lo, hi)
    decreases t
  {
    if t.Inner? {
      forall i | 0 <= i < |t.kids| ensures IdsIn(t.kids[i], lo, hi) {
        forall l | l in Leaves(t.kids[i]) ensures lo <= l.id { LeavesOfKid(t.kids, i, l); }
        PagesWithin(c, pages, t.kids[i], lo, hi);
      }
    } else {
      assert t in Leaves(t);
    }
  }

  lemma {:induction false} LeavesIn(t: Tree, lo: nat, hi: nat)
    requires IdsIn(t, lo, hi)
    ensures forall l :: l in Leaves(t) ==> lo <= l.id < hi
    decreases t, 1
  {
    if t.Inner? { LeavesAllIn(t.kids, lo, hi); }
  }

  lemma {:induction false} LeavesAllIn(ts: seq<Tree>, lo: nat, hi: nat)
    requires forall i :: 0 <= i < |ts| ==> IdsIn(ts[i], lo, hi)
    ensures forall l :: l in LeavesAll(ts) ==> lo <= l.id < hi
    decreases ts, 0
  {
    if ts != [] {
      LeavesIn(ts[0], lo, hi);
      LeavesAllIn(ts[1..], lo, hi);
    }
  }

  /** Both files hold the same pages in `[lo, hi)`. */
  ghost predicate SameWithin(a: Pages, b: Pages, lo: nat, hi: nat) {
    forall id :: lo <= id < hi && id in a ==> id in b && b[id] == a[id]
  }

  lemma {:induction false} InnerStoredWithin(c: Codec, a: Pages, b: Pages, t: Tree, lo: nat, hi: nat)
    requires Proper(t) && InnerStored(c, a, t) && IdsIn(t, lo, hi) && SameWithin(a, b, lo, hi)
    ensures InnerStored(c, b, t)
    decreases t
  {
    if t.Inner? {
      forall i | 0 <= i < |t.kids| ensures InnerStored(c, b, t.kids[i]) { InnerStoredWithin(c, a, b, t.kids[i], lo, hi); }
    }
  }

  /** A tree stays stored while its own pages stay. */
  lemma StoredWithin(c: Codec, a: Pages, b: Pages, t: Tree, lo: nat, hi: nat)
    requires Stored(c, a, t) && IdsIn(t, lo, hi) && SameWithin(a, b, lo, hi)
    ensures Stored(c, b, t)
  {
    if t.Inner? { InnerStoredWithin(c, a, b, t, lo, hi); }
    LeavesIn(t, lo, hi);
    hide LeafHolds;
    forall i | 0 <= i < |Leaves(t)| ensures Linked(c, b, Leaves(t), i) {
      assert Linked(c, a, Leaves(t), i);
      assert Leaves(t)[i] in Leaves(t);
    }
  }

  /** Pages outside `[lo, hi)` are the same in both files. */
  ghost predicate SameOutside(a: Pages, b: Pages, lo: nat, hi: nat) {
    forall id :: !(lo <= id < hi) ==> ((id in a <==> id in b) && (id in a && id in b ==> a[id] == b[id]))
  }

  ghost predicate SameBelow(a: Pages, b: Pages, hi: nat) {
    forall id :: 0 <= id < hi && id in a ==> id in b && b[id] == a[id]
  }

  lemma SameOutsideTrans(x: Pages, y: Pages, z: Pages, lo: nat, mid: nat, hi: nat)
    requires SameOutside(x, y, lo, mid) && SameOutside(y, z, lo, hi) && mid <= hi
    ensures SameOutside(x, z, lo, hi)
  {
  }

  lemma SameOutsideWiden(x: Pages, y: Pages, z: Pages, lo: nat, mid: nat, hi: nat)
    requires SameOutside(x, y, lo, mid) && SameOutside(y, z, mid, hi) && lo <= mid <= hi
    ensures SameOutside(x, z, lo, hi) && SameBelow(y, z, mid)
  {
  }

  /** The file behind the storage backend. */
  class PageFile {
    var pages: Pages

    constructor ()
      ensures pages == map[]
    {
      pages := map[];
    }

    method WritePage(id: nat, page: seq<byte>)
      modifies this
      ensures pages == old(pages)[id := page]
    {
      pages := pages[id := page];
    }
  }
}
