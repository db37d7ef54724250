/** One save: snapshot all indexes, append the fact pages over them, rebuild the indexes behind. */
module BTreeSave {
  import opened Bytes
  import opened BTreePages
  import opened BTreeModel
  import opened BTreeMerge
  import opened BTreeRebuild
  import opened BTreeCheckpoint

  /** The index of a root: none for root 0, otherwise a tree stored on pages of `[lo, hi)`. */
  ghost predicate HasTree(c: Codec, pages: Pages, root: nat, t: Option<Tree>, lo: nat, hi: nat) {
    match t
    case None => root == 0
    case Some(tree) => root != 0 && tree.id == root && Stored(c, pages, tree) && IdsIn(tree, lo, hi)
  }

  ghost predicate HasTrees(cs: seq<Codec>, pages: Pages, roots: seq<nat>, ts: seq<Option<Tree>>, lo: nat, hi: nat) {
    |cs| == |roots| == |ts| && forall i :: 0 <= i < |ts| ==> HasTree(cs[i], pages, roots[i], ts[i], lo, hi)
  }

  ghost function OldEntries(t: Option<Tree>): seq<Entry> {
    match t
    case None => []
    case Some(tree) => Entries(tree)
  }

  ghost function OldLeaves(t: Option<Tree>): (r: seq<Tree>)
    ensures AreLeaves(r) && AllOf(r) == OldEntries(t)
  {
    match t
    case None => []
    case Some(tree) => LeavesAreLeaves(tree); Leaves(tree)
  }

  /** The snapshot holds the file's own leaf pages of the index. */
  ghost predicate Snapshot(c: Codec, was: Pages, t: Option<Tree>, pages: seq<seq<byte>>) {
    && |pages| == |OldLeaves(t)|
    && forall i :: 0 <= i < |pages| ==> HoldsEntries(c, pages[i], OldLeaves(t)[i].entries) && PageIs(was, OldLeaves(t)[i].id, pages[i])
  }

  method SnapshotLeaves(c: Codec, pages: Pages, root: nat, pageCount: nat, ghost t: Option<Tree>, ghost lo: nat)
    returns (r: Option<seq<seq<byte>>>)
    requires HasTree(c, pages, root, t, lo, pageCount)
    ensures r.Some? && Snapshot(c, pages, t, r.value)
  {
    if root == 0 { return Some([]); }
    LeavesIn(t.value, lo, pageCount);
    assert forall i :: 0 <= i < |Leaves(t.value)| ==> Leaves(t.value)[i] in Leaves(t.value);
    r := CollectLeafPages(c, pages, root, pageCount, t.value);
  }

  method SnapshotAll(cs: seq<Codec>, pages: Pages, roots: seq<nat>, pageCount: nat, ghost ts: seq<Option<Tree>>, ghost lo: nat)
    returns (r: seq<seq<seq<byte>>>)
    requires HasTrees(cs, pages, roots, ts, lo, pageCount)
    ensures |r| == |ts| && forall i :: 0 <= i < |ts| ==> Snapshot(cs[i], pages, ts[i], r[i])
  {
    r := [];
    hide HasTree, Snapshot;
    for i := 0 to |roots|
      invariant |r| == i && forall j :: 0 <= j < i ==> Snapshot(cs[j], pages, ts[j], r[j])
    {
      var one := SnapshotLeaves(cs[i], pages, roots[i], pageCount, ts[i], lo);
      r := r + [one.value];
    }
  }

  /** Write the new fact pages one after the other. */
  method WritePages(file: PageFile, added: seq<seq<byte>>, start: nat)
    modifies file
    ensures SameOutside(old(file.pages), file.pages, start, start + |added|)
    ensures forall i :: 0 <= i < |added| ==> PageIs(file.pages, start + i, added[i])
  {
    for i := 0 to |added|
      invariant SameOutside(old(file.pages), file.pages, start, start + i)
      invariant forall j :: 0 <= j < i ==> PageIs(file.pages, start + j, added[j])
    {
      file.WritePage(start + i, added[i]);
    }
  }

  /** What one index may need in pages, and all of them together. */
  ghost function Need(ts: seq<Option<Tree>>, pendings: seq<seq<Entry>>, i: nat): nat
    requires i <= |ts| == |pendings|
    decreases |ts| - i
  {
    if i == |ts| then 0 else 3 * (|OldEntries(ts[i])| + |pendings[i]|) + 1 + Need(ts, pendings, i + 1)
  }

  /** The pending entries of an index can be merged into it. */
  ghost predicate Mergeable(c: Codec, t: Option<Tree>, pending: seq<Entry>) {
    && c.Valid() && Sorted(OldEntries(t)) && Sorted(pending) && Later(OldEntries(t), pending)
    && c.AllSmall(OldEntries(t)) && c.AllSmall(pending)
  }

  /** A leaf of the file before the save is a leaf of the new tree, its page changed in its link only. */
  ghost predicate LeafStays(was: Pages, pages: Pages, l: Tree, t': Tree) {
    l.Leaf? && l.id in was && CarriedOver(pages, Leaves(t'), was[l.id], l.entries)
  }

  /** Every old leaf no pending key routes to stays. */
  ghost predicate Carried(was: Pages, pages: Pages, t: Option<Tree>, pending: seq<Entry>, t': Tree) {
    NonEmpty(OldLeaves(t)) ==>
      forall i :: 0 <= i < |OldLeaves(t)| && Untouched(OldLeaves(t), i, pending) ==> LeafStays(was, pages, OldLeaves(t)[i], t')
  }

  /** The new tree of an index: stored on its own pages, with the sorted merge, the untouched leaves carried over. */
  ghost predicate Rebuilt(c: Codec, was: Pages, pages: Pages, root: nat, t: Option<Tree>, pending: seq<Entry>, t': Tree, lo: nat, hi: nat) {
    && Stored(c, pages, t') && t'.id == root && root != 0 && IdsIn(t', lo, hi)
    && Entries(t') == Merge(OldEntries(t), pending) && Carried(was, pages, t, pending, t')
  }

  lemma RebuiltKept(c: Codec, was: Pages, a: Pages, b: Pages, root: nat, t: Option<Tree>, pending: seq<Entry>, t': Tree, lo: nat, hi: nat, hi': nat)
    requires Rebuilt(c, was, a, root, t, pending, t', lo, hi) && SameOutside(a, b, hi, hi') && hi <= hi'
    ensures Rebuilt(c, was, b, root, t, pending, t', lo, hi')
  {
    hide LeafStays, Untouched;
    StoredWithin(c, a, b, t', lo, hi);
    IdsWiden(t', lo, hi, hi');
    forall l | LeafStays(was, a, l, t') ensures LeafStays(was, b, l, t') { LeafKept(was, a, b, l, t', lo, hi); }
  }

  lemma LeafKept(was: Pages, a: Pages, b: Pages, l: Tree, t': Tree, lo: nat, hi: nat)
    requires LeafStays(was, a, l, t') && IdsIn(t', lo, hi) && SameWithin(a, b, lo, hi)
    ensures LeafStays(was, b, l, t')
  {
    hide WithNext;
    var ls := Leaves(t');
    var j :| 0 <= j < |ls| && CarriedAt(a, ls, was[l.id], l.entries, j);
    LeavesIn(t', lo, hi);
    assert ls[j] in ls;
    assert CarriedAt(b, ls, was[l.id], l.entries, j);
  }

  lemma {:induction false} IdsWiden(t: Tree, lo: nat, hi: nat, hi': nat)
    requires IdsIn(t, lo, hi) && hi <= hi'
    ensures IdsIn(t, lo, hi')
    decreases t
  {
    if t.Inner? {
      forall i | 0 <= i < |t.kids| ensures IdsIn(t.kids[i], lo, hi') { IdsWiden(t.kids[i], lo, hi, hi'); }
    }
  }

  /** Rebuild the index of one snapshot behind the pages written so far. */
  method RebuildOne(file: PageFile, c: Codec, pages: seq<seq<byte>>, pending: seq<Entry>, start: nat, ghost t: Option<Tree>,
                    ghost was: Pages)
    returns (root: nat, next: nat, ghost t': Tree)
    requires Mergeable(c, t, pending) && Snapshot(c, was, t, pages)
    requires start >= 1 && start + 3 * (|OldEntries(t)| + |pending|) + 1 < U64_SIZE
    modifies file
    ensures Rebuilt(c, was, file.pages, root, t, pending, t', start, next)
    ensures start < next <= start + 3 * (|OldEntries(t)| + |pending|) + 1
    ensures SameOutside(old(file.pages), file.pages, start, next)
  {
    root, next, t' := RebuildBtreeIncremental(file, c, pages, pending, start, OldLeaves(t));
    hide Stored, Sorted, Later, Merge, HoldsEntries, CarriedOver, Untouched;
    assert Carried(was, file.pages, t, pending, t');
  }

  /** All indexes rebuilt so far are stored, on pages of `[lo, hi)`. */
  ghost predicate AllRebuilt(cs: seq<Codec>, was: Pages, pages: Pages, roots: seq<nat>, ts: seq<Option<Tree>>, pendings: seq<seq<Entry>>,
                             ts': seq<Tree>, lo: nat, hi: nat)
    requires |cs| == |ts| == |pendings| && |roots| == |ts'| <= |ts|
  {
    forall i :: 0 <= i < |ts'| ==> Rebuilt(cs[i], was, pages, roots[i], ts[i], pendings[i], ts'[i], lo, hi)
  }

  lemma AllRebuiltNext(cs: seq<Codec>, was: Pages, a: Pages, b: Pages, roots: seq<nat>, ts: seq<Option<Tree>>, pendings: seq<seq<Entry>>,
                       ts': seq<Tree>, lo: nat, hi: nat, hi': nat, root: nat, t': Tree)
    requires |cs| == |ts| == |pendings| && |roots| == |ts'| < |ts| && lo <= hi <= hi'
    requires AllRebuilt(cs, was, a, roots, ts, pendings, ts', lo, hi) && SameOutside(a, b, hi, hi')
    requires Rebuilt(cs[|ts'|], was, b, root, ts[|ts'|], pendings[|ts'|], t', hi, hi')
    ensures AllRebuilt(cs, was, b, roots + [root], ts, pendings, ts' + [t'], lo, hi')
  {
    hide Rebuilt, SameOutside;
    RebuiltLower(cs[|ts'|], was, b, root, ts[|ts'|], pendings[|ts'|], t', lo, hi, hi');
    forall i | 0 <= i < |ts'| ensures Rebuilt(cs[i], was, b, roots[i], ts[i], pendings[i], ts'[i], lo, hi') {
      RebuiltKept(cs[i], was, a, b, roots[i], ts[i], pendings[i], ts'[i], lo, hi, hi');
    }
  }

  lemma RebuiltLower(c: Codec, was: Pages, pages: Pages, root: nat, t: Option<Tree>, pending: seq<Entry>, t': Tree, lo: nat, lo': nat, hi: nat)
    requires Rebuilt(c, was, pages, root, t, pending, t', lo', hi) && lo <= lo'
    ensures Rebuilt(c, was, pages, root, t, pending, t', lo, hi)
  {
    hide Stored, Carried, Merge;
    IdsLower(t', lo, lo', hi);
  }

  lemma {:induction false} IdsLower(t: Tree, lo: nat, lo': nat, hi: nat)
    requires IdsIn(t, lo', hi) && lo <= lo'
    ensures IdsIn(t, lo, hi)
    decreases t
  {
    if t.Inner? {
      forall i | 0 <= i < |t.kids| ensures IdsIn(t.kids[i], lo, hi) { IdsLower(t.kids[i], lo, lo', hi); }
    }
  }

  /** Rebuild every index behind the fact pages, each behind the one before. */
  method RebuildAll(file: PageFile, cs: seq<Codec>, snapshots: seq<seq<seq<byte>>>, pendings: seq<seq<Entry>>, start: nat,
                    ghost ts: seq<Option<Tree>>, ghost was: Pages)
    returns (roots: seq<nat>, next: nat, ghost ts': seq<Tree>)
    requires |cs| == |snapshots| == |pendings| == |ts| && start >= 1 && start + Need(ts, pendings, 0) < U64_SIZE
    requires forall i :: 0 <= i < |ts| ==> Mergeable(cs[i], ts[i], pendings[i]) && Snapshot(cs[i], was, ts[i], snapshots[i])
    modifies file
    ensures |roots| == |ts'| == |ts| && start <= next && AllRebuilt(cs, was, file.pages, roots, ts, pendings, ts', start, next)
    ensures SameOutside(old(file.pages), file.pages, start, next)
  {
    hide Mergeable, Snapshot, Rebuilt, SameOutside, AllRebuilt;
    roots, next, ts' := [], start, [];
    NoneRebuilt(cs, was, file.pages, ts, pendings, start);
    for i := 0 to |cs|
      invariant |roots| == |ts'| == i && start <= next && next + Need(ts, pendings, i) < U64_SIZE
      invariant AllRebuilt(cs, was, file.pages, roots, ts, pendings, ts', start, next)
      invariant SameOutside(old(file.pages), file.pages, start, next)
    {
      ghost var before, at := file.pages, next;
      var root; ghost var t';
      root, next, t' := RebuildOne(file, cs[i], snapshots[i], pendings[i], next, ts[i], was);
      AllRebuiltNext(cs, was, before, file.pages, roots, ts, pendings, ts', start, at, next, root, t');
      SameOutsideWiden(old(file.pages), before, file.pages, start, at, next);
      roots, ts' := roots + [root], ts' + [t'];
    }
  }

  lemma NoneRebuilt(cs: seq<Codec>, was: Pages, pages: Pages, ts: seq<Option<Tree>>, pendings: seq<seq<Entry>>, start: nat)
    requires |cs| == |ts| == |pendings|
    ensures AllRebuilt(cs, was, pages, [], ts, pendings, [], start, start) && SameOutside(pages, pages, start, start)
  {}

  /**
   * The pages of one save. All indexes are read before anything is written, because the new fact pages go
   * where the old indexes are. Afterwards every index is stored, on pages of its own behind the facts, and holds
   * the sorted merge of what it held and the pending entries; an old leaf no pending key routes to is carried over with
   * only its link changed, and the pages before are untouched.
   */
  method SavePages(file: PageFile, cs: seq<Codec>, roots: seq<nat>, pageCount: nat, factPages: seq<seq<byte>>, factStart: nat,
                   pendings: seq<seq<Entry>>, ghost ts: seq<Option<Tree>>, ghost lo: nat)
    returns (roots': seq<nat>, next: nat, ghost ts': seq<Tree>)
    requires HasTrees(cs, file.pages, roots, ts, lo, pageCount) && |pendings| == |ts|
    requires forall i :: 0 <= i < |ts| ==> Mergeable(cs[i], ts[i], pendings[i])
    requires factStart >= 1 && factStart + |factPages| + Need(ts, pendings, 0) < U64_SIZE
    modifies file
    ensures |roots'| == |ts'| == |ts| && factStart + |factPages| <= next
    ensures AllRebuilt(cs, old(file.pages), file.pages, roots', ts, pendings, ts', factStart + |factPages|, next)
    ensures forall i :: 0 <= i < |factPages| ==> PageIs(file.pages, factStart + i, factPages[i])
    ensures SameOutside(old(file.pages), file.pages, factStart, next)
  {
    hide Mergeable, Snapshot, AllRebuilt, HasTree, Need;
    var snapshots := SnapshotAll(cs, file.pages, roots, pageCount, ts, lo);
    WritePages(file, factPages, factStart);
    ghost var before := file.pages;
    roots', next, ts' := RebuildAll(file, cs, snapshots, pendings, factStart + |factPages|, ts, old(file.pages));
    SameOutsideWiden(old(file.pages), before, file.pages, factStart, factStart + |factPages|, next);
  }

  /** After a save the file is ready for the next one: all indexes are there, below its new page count. */
  lemma {:induction false} SavedHasTrees(cs: seq<Codec>, was: Pages, pages: Pages, roots: seq<nat>, ts: seq<Option<Tree>>, pendings: seq<seq<Entry>>, ts': seq<Tree>,
                      lo: nat, next: nat) returns (all: seq<Option<Tree>>)
    requires |cs| == |ts| == |pendings| == |roots| == |ts'| && AllRebuilt(cs, was, pages, roots, ts, pendings, ts', lo, next)
    ensures |all| == |ts'| && (forall i :: 0 <= i < |all| ==> all[i] == Some(ts'[i]))
    ensures HasTrees(cs, pages, roots, all, lo, next)
  {
    all := seq(|ts'|, i requires 0 <= i < |ts'| => Some(ts'[i]));
    hide Stored, IdsIn, Carried;
    forall i | 0 <= i < |all| ensures HasTree(cs[i], pages, roots[i], all[i], lo, next) {
      assert Rebuilt(cs[i], was, pages, roots[i], ts[i], pendings[i], ts'[i], lo, next);
    }
  }
}
