/** Bulk build: leaves first, then internal levels bottom-up. */
module BTreeBuild {
  import opened Bytes
  import opened SlottedPage
  import opened BTreePages
  import opened BTreeModel

  /** 75% of a page: the threshold packing stops at. */
  const PAGE_FILL_BYTES := 3072

  /** One node of a level: its page and the encoded first key below it. */
  datatype Info = Info(id: nat, key: Record)

  // ----- internal levels -----

  /** `level` describes the subtrees `forest`, all stored below page `next`. */
  ghost predicate Describes(c: Codec, pages: Pages, level: seq<Info>, forest: seq<Tree>, next: nat) {
    && |level| == |forest| && AllProper(forest)
    && forall i :: 0 <= i < |level| ==> DescribesAt(c, pages, level[i], forest[i], next)
  }

  ghost predicate DescribesAt(c: Codec, pages: Pages, info: Info, t: Tree, next: nat)
    requires Proper(t)
  {
    && info.id == t.id < next
    && info.key == c.key(FirstKey(t)) && |info.key| <= PAGE_SIZE - HEADER_SIZE - 12
    && InnerStored(c, pages, t)
  }

  lemma {:induction false} InnerStoredKept(c: Codec, a: Pages, b: Pages, t: Tree, next: nat)
    requires Proper(t) && InnerStored(c, a, t) && t.id < next && SameBelow(a, b, next)
    ensures InnerStored(c, b, t)
    decreases t
  {
    if t.Inner? {
      forall i | 0 <= i < |t.kids| ensures InnerStored(c, b, t.kids[i]) {
        InnerStoredKept(c, a, b, t.kids[i], next);
      }
    }
  }

  lemma DescribesKept(c: Codec, a: Pages, b: Pages, level: seq<Info>, forest: seq<Tree>, next: nat, next': nat)
    requires Describes(c, a, level, forest, next) && next <= next' && SameBelow(a, b, next)
    ensures Describes(c, b, level, forest, next')
  {
    forall i | 0 <= i < |level| ensures DescribesAt(c, b, level[i], forest[i], next') {
      assert DescribesAt(c, a, level[i], forest[i], next);
      InnerStoredKept(c, a, b, forest[i], next);
    }
  }

  function KeysOf(level: seq<Info>): (r: seq<Record>)
    ensures |r| == |level| && forall i :: 0 <= i < |level| ==> r[i] == level[i].key
  {
    seq(|level|, i requires 0 <= i < |level| => level[i].key)
  }

  function IdsOf(level: seq<Info>): (r: seq<nat>)
    ensures |r| == |level| && forall i :: 0 <= i < |level| ==> r[i] == level[i].id
  {
    seq(|level|, i requires 0 <= i < |level| => level[i].id)
  }

  /** Children for one node: at least two unless the level runs out, and never more than fit,
      although the projected size counts one 8-byte child pointer too few. */
  method TakeGroup(level: seq<Info>, start: nat) returns (i: nat, seps: seq<Record>)
    requires start < |level|
    requires forall j :: 0 <= j < |level| ==> |level[j].key| <= PAGE_SIZE - HEADER_SIZE - 12
    ensures start < i <= |level| && seps == KeysOf(level[start + 1..i])
    ensures i < |level| ==> i - start >= 2 && 12 + 12 * |seps| + 4 + TotalLen(seps) + |level[i].key| > 3072
    ensures |seps| >= 2 ==> 12 + 12 * |seps| + TotalLen(seps) <= 3072 + 8
    ensures Room(HEADER_SIZE + 8 * |seps|, seps)
  {
    i, seps := start + 1, [];
    var sepBytes := 0;
    while i < |level|
      invariant start < i <= |level| && seps == KeysOf(level[start + 1..i])
      invariant sepBytes == TotalLen(seps)
      invariant |seps| == 1 ==> sepBytes <= PAGE_SIZE - HEADER_SIZE - 12
      invariant |seps| >= 2 ==> HEADER_SIZE + 12 * |seps| + sepBytes <= PAGE_FILL_BYTES + 8
    {
      var sep := level[i].key;
      var projected := HEADER_SIZE + |seps| * 8 + (|seps| + 1) * 4 + sepBytes + |sep|;
      if projected > PAGE_FILL_BYTES && seps != [] { break; }
      TotalLenAppend(seps, sep);
      assert KeysOf(level[start + 1..i]) + [sep] == KeysOf(level[start + 1..i + 1]);
      sepBytes := sepBytes + |sep|;
      seps := seps + [sep];
      i := i + 1;
    }
  }

  /** Grouping `forest[a..b]` under a new node at `id`. */
  lemma NewNode(c: Codec, pages: Pages, level: seq<Info>, forest: seq<Tree>, a: nat, b: nat, id: nat, seps: seq<Record>)
    requires Describes(c, pages, level, forest, id) && a < b <= |level| && id in pages
    requires seps == KeysOf(level[a + 1..b])
    requires InternalHolds(pages[id], IdsOf(level[a..b]), seps)
    ensures var n := Inner(id, forest[a..b]);
      Proper(n) && DescribesAt(c, pages, Info(id, level[a].key), n, id + 1)
  {
    hide InternalHolds;
    var kids := forest[a..b];
    forall i | 0 <= i < |kids| ensures DescribesAt(c, pages, level[a + i], kids[i], id) {
      assert DescribesAt(c, pages, level[a + i], forest[a + i], id);
    }
    assert IdsOf(level[a..b]) == Ids(kids);
    forall j | 0 <= j < |kids| - 1 ensures seps[j] == Seps(c, kids)[j] {
      assert DescribesAt(c, pages, level[a + (j + 1)], kids[j + 1], id);
    }
    assert seps == Seps(c, kids);
    assert FirstKey(Inner(id, kids)) == FirstKey(kids[0]);
  }

  lemma GroupLeaves(forest: seq<Tree>, a: nat, b: nat, done: seq<Tree>, id: nat)
    requires a <= b <= |forest| && LeavesAll(done) == LeavesAll(forest[..a])
    ensures LeavesAll(done + [Inner(id, forest[a..b])]) == LeavesAll(forest[..b])
  {
    LeavesAllConcat(done, [Inner(id, forest[a..b])]);
    LeavesAllOne(Inner(id, forest[a..b]));
    assert forest[..b] == forest[..a] + forest[a..b];
    LeavesAllConcat(forest[..a], forest[a..b]);
  }

  /** The state of a level under construction: nodes `up` cover the first `i` of `level`. */
  ghost predicate LevelSoFar(c: Codec, pages: Pages, level: seq<Info>, forest: seq<Tree>, i: nat,
                             up: seq<Info>, upForest: seq<Tree>, next: nat)
  {
    && i <= |level|
    && Describes(c, pages, level, forest, next)
    && Describes(c, pages, up, upForest, next)
    && LeavesAll(upForest) == LeavesAll(forest[..i])
  }

  lemma LevelStep(c: Codec, a: Pages, b: Pages, level: seq<Info>, forest: seq<Tree>, start: nat, i: nat,
                  up: seq<Info>, upForest: seq<Tree>, next: nat, page: seq<byte>, seps: seq<Record>)
    requires LevelSoFar(c, a, level, forest, start, up, upForest, next) && start < i <= |level|
    requires b == a[next := page] && seps == KeysOf(level[start + 1..i])
    requires InternalHolds(page, IdsOf(level[start..i]), seps)
    ensures LevelSoFar(c, b, level, forest, i, up + [Info(next, level[start].key)],
                       upForest + [Inner(next, forest[start..i])], next + 1)
  {
    DescribesKept(c, a, b, level, forest, next, next);
    NewNode(c, b, level, forest, start, i, next, seps);
    DescribesKept(c, b, b, level, forest, next, next + 1);
    GroupLeaves(forest, start, i, upForest, next);
    DescribesKept(c, a, b, up, upForest, next, next + 1);
    DescribesAppend(c, b, up, upForest, next + 1, Info(next, level[start].key), Inner(next, forest[start..i]));
  }

  lemma DescribesAppend(c: Codec, pages: Pages, level: seq<Info>, forest: seq<Tree>, next: nat, info: Info, t: Tree)
    requires Describes(c, pages, level, forest, next) && Proper(t) && DescribesAt(c, pages, info, t, next)
    ensures Describes(c, pages, level + [info], forest + [t], next)
  {
  }

  lemma SameOutsideAdd(a: Pages, b: Pages, lo: nat, hi: nat, page: seq<byte>)
    requires SameOutside(a, b, lo, hi) && lo <= hi
    ensures SameOutside(a, b[hi := page], lo, hi + 1)
  {
  }

  /** Write one internal node over the next group of children. */
  method BuildNode(file: PageFile, level: seq<Info>, start: nat, id: nat)
    returns (i: nat, ghost page: seq<byte>, ghost seps: seq<Record>)
    requires start < |level| && id < U64_SIZE
    requires forall j :: 0 <= j < |level| ==> |level[j].key| <= PAGE_SIZE - HEADER_SIZE - 12 && level[j].id < id
    modifies file
    ensures start < i <= |level| && (i < |level| ==> i - start >= 2) && seps == KeysOf(level[start + 1..i])
    ensures InternalHolds(page, IdsOf(level[start..i]), seps) && file.pages == old(file.pages)[id := page]
  {
    var keys;
    i, keys := TakeGroup(level, start);
    var p := EncodeInternalPage(IdsOf(level[start..i]), keys);
    file.WritePage(id, p);
    page, seps := p, keys;
  }

  /** One level up: half as many nodes, rounded up, over the same leaves. */
  method BuildLevel(file: PageFile, c: Codec, level: seq<Info>, nextPage: nat, ghost forest: seq<Tree>)
    returns (up: seq<Info>, next: nat, ghost upForest: seq<Tree>)
    requires |level| > 1 && Describes(c, file.pages, level, forest, nextPage)
    requires nextPage + |level| < U64_SIZE
    modifies file
    ensures Describes(c, file.pages, up, upForest, next)
    ensures LeavesAll(upForest) == LeavesAll(forest)
    ensures 0 < |up| && 2 * |up| <= |level| + 1
    ensures next == nextPage + |up|
    ensures SameOutside(old(file.pages), file.pages, nextPage, next)
  {
    hide InternalHolds, LevelSoFar, Describes, SameOutside, LeavesAll;
    up, next, upForest := [], nextPage, [];
    var i := 0;
    LevelStart(c, file.pages, level, forest, nextPage);
    KeysFit(c, file.pages, level, forest, nextPage);
    SameOutsideRefl(file.pages, nextPage, nextPage);
    while i < |level|
      invariant 0 <= i <= |level| && next == nextPage + |up|
      invariant 2 * |up| <= if i < |level| then i else i + 1
      invariant i > 0 ==> |up| > 0
      invariant SameOutside(old(file.pages), file.pages, nextPage, next)
      invariant LevelSoFar(c, file.pages, level, forest, i, up, upForest, next)
    {
      var start := i;
      ghost var pages, page, seps := file.pages, [], [];
      i, page, seps := BuildNode(file, level, start, next);
      LevelStep(c, pages, file.pages, level, forest, start, i, up, upForest, next, page, seps);
      SameOutsideAdd(old(file.pages), pages, nextPage, next, page);
      up := up + [Info(next, level[start].key)];
      upForest := upForest + [Inner(next, forest[start..i])];
      next := next + 1;
    }
    LevelDone(c, file.pages, level, forest, up, upForest, next);
  }

  lemma KeysFit(c: Codec, pages: Pages, level: seq<Info>, forest: seq<Tree>, next: nat)
    requires Describes(c, pages, level, forest, next)
    ensures |level| == |forest|
    ensures forall j :: 0 <= j < |level| ==> |level[j].key| <= PAGE_SIZE - HEADER_SIZE - 12 && level[j].id < next
  {
    assert forall j :: 0 <= j < |level| ==> DescribesAt(c, pages, level[j], forest[j], next);
  }

  lemma LevelStart(c: Codec, pages: Pages, level: seq<Info>, forest: seq<Tree>, nextPage: nat)
    requires Describes(c, pages, level, forest, nextPage)
    ensures LevelSoFar(c, pages, level, forest, 0, [], [], nextPage)
  {
    KeysFit(c, pages, level, forest, nextPage);
    assert forest[..0] == [];
  }

  lemma LevelDone(c: Codec, pages: Pages, level: seq<Info>, forest: seq<Tree>, up: seq<Info>, upForest: seq<Tree>, next: nat)
    requires LevelSoFar(c, pages, level, forest, |level|, up, upForest, next)
    ensures Describes(c, pages, up, upForest, next) && LeavesAll(upForest) == LeavesAll(forest)
  {
    assert forest[..|level|] == forest;
  }

  /** Internal levels over `infos` until one root is left. */
  method BuildInternalLevels(file: PageFile, c: Codec, infos: seq<Info>, nextPage: nat, ghost forest: seq<Tree>)
    returns (root: nat, next: nat, ghost t: Tree)
    requires infos != [] && Describes(c, file.pages, infos, forest, nextPage)
    requires nextPage + 2 * |infos| < U64_SIZE
    modifies file
    ensures Proper(t) && t.id == root && InnerStored(c, file.pages, t)
    ensures Leaves(t) == LeavesAll(forest)
    ensures nextPage <= next <= nextPage + 2 * |infos| - 2
    ensures root < next && SameOutside(old(file.pages), file.pages, nextPage, next)
  {
    var level := infos;
    ghost var cur := forest;
    next := nextPage;
    while |level| > 1
      invariant level != [] && Describes(c, file.pages, level, cur, next)
      invariant LeavesAll(cur) == LeavesAll(forest)
      invariant nextPage <= next && next + 2 * |level| - 2 <= nextPage + 2 * |infos| - 2
      invariant SameOutside(old(file.pages), file.pages, nextPage, next)
      decreases |level|
    {
      level, next, cur := BuildLevel(file, c, level, next, cur);
    }
    assert DescribesAt(c, file.pages, level[0], cur[0], next);
    root, t := level[0].id, cur[0];
    assert cur == [cur[0]];
    LeavesAllOne(cur[0]);
  }

  // ----- leaves -----

  /** Leaves `ls` sit at consecutive pages from `start`, the first `k` linked to their successor. */
  ghost predicate Written(c: Codec, pages: Pages, ls: seq<Tree>, start: nat, k: nat) {
    forall i :: 0 <= i < |ls| ==> WrittenAt(c, pages, ls[i], start + i, if i < k then start + i + 1 else 0)
  }

  ghost predicate WrittenAt(c: Codec, pages: Pages, l: Tree, id: nat, next: nat) {
    && l.Leaf? && l.id == id && l.entries != []
    && c.Small(l.entries[0])
    && id in pages && LeafHolds(pages[id], c.Recs(l.entries), next)
  }

  lemma WrittenKept(c: Codec, a: Pages, b: Pages, ls: seq<Tree>, start: nat, k: nat)
    requires Written(c, a, ls, start, k) && SameBelow(a, b, start + |ls|)
    ensures Written(c, b, ls, start, k)
  {
    forall i | 0 <= i < |ls|
      ensures WrittenAt(c, b, ls[i], start + i, if i < k then start + i + 1 else 0)
    {
      assert WrittenAt(c, a, ls[i], start + i, if i < k then start + i + 1 else 0);
    }
  }

  /** Infos the leaf writers collect: page and encoded first key of each leaf. */
  ghost predicate InfosOf(c: Codec, infos: seq<Info>, ls: seq<Tree>) {
    |infos| == |ls| && forall i :: 0 <= i < |ls| ==>
      ls[i].Leaf? && ls[i].entries != [] && infos[i] == Info(ls[i].id, c.key(ls[i].entries[0].key))
  }

  lemma {:induction false} UptoAppend(ls: seq<Tree>, l: Tree, n: nat)
    requires AreLeaves(ls) && l.Leaf? && n <= |ls|
    ensures Upto(ls + [l], n) == Upto(ls, n)
  {
    if n > 0 { UptoAppend(ls, l, n - 1); }
  }

  lemma AllOfAppend(ls: seq<Tree>, l: Tree)
    requires AreLeaves(ls) && l.Leaf?
    ensures AllOf(ls + [l]) == AllOf(ls) + l.entries
  {
    UptoAppend(ls, l, |ls|);
  }

  lemma {:induction false} LeavesAllFlat(ls: seq<Tree>)
    requires AreLeaves(ls)
    ensures LeavesAll(ls) == ls
  {
    if ls != [] { LeavesAllFlat(ls[1..]); }
  }

  lemma WrittenDescribes(c: Codec, pages: Pages, ls: seq<Tree>, start: nat, k: nat, infos: seq<Info>)
    requires Written(c, pages, ls, start, k) && InfosOf(c, infos, ls)
    ensures Describes(c, pages, infos, ls, start + |ls|)
  {
    forall i | 0 <= i < |ls| ensures Proper(ls[i]) && DescribesAt(c, pages, infos[i], ls[i], start + |ls|) {
      assert WrittenAt(c, pages, ls[i], start + i, if i < k then start + i + 1 else 0);
    }
  }

  /** Fully linked leaves stay a chain while pages above them are written. */
  lemma WrittenChain(c: Codec, a: Pages, b: Pages, ls: seq<Tree>, start: nat)
    requires ls != [] && start >= 1 && Written(c, a, ls, start, |ls| - 1) && SameBelow(a, b, start + |ls|)
    ensures Chain(c, b, ls)
  {
    forall i | 0 <= i < |ls| ensures Linked(c, b, ls, i) {
      assert WrittenAt(c, a, ls[i], start + i, if i < |ls| - 1 then start + i + 1 else 0);
      if i + 1 < |ls| {
        assert WrittenAt(c, a, ls[i + 1], start + i + 1, if i + 1 < |ls| - 1 then start + i + 2 else 0);
      }
    }
  }

  /** The internal levels over a linked run of leaves complete a stored tree. */
  method FinishTree(file: PageFile, c: Codec, infos: seq<Info>, start: nat, ghost ls: seq<Tree>)
    returns (root: nat, next: nat, ghost t: Tree)
    requires ls != [] && start >= 1 && Written(c, file.pages, ls, start, |ls| - 1) && InfosOf(c, infos, ls)
    requires AreLeaves(ls) && Sorted(AllOf(ls))
    requires start + 3 * |ls| < U64_SIZE
    modifies file
    ensures Stored(c, file.pages, t) && t.id == root && Leaves(t) == ls && Entries(t) == AllOf(ls)
    ensures start + |ls| <= next <= start + 3 * |ls| && root < next && IdsIn(t, start, next)
    ensures SameOutside(old(file.pages), file.pages, start + |ls|, next)
  {
    ghost var before := file.pages;
    WrittenDescribes(c, file.pages, ls, start, |ls| - 1, infos);
    root, next, t := BuildInternalLevels(file, c, infos, start + |infos|, ls);
    LeavesAllFlat(ls);
    WrittenChain(c, before, file.pages, ls, start);
    WrittenAbove(c, before, ls, start, |ls| - 1);
    PagesWithin(c, file.pages, t, start, next);
  }

  lemma WrittenAbove(c: Codec, pages: Pages, ls: seq<Tree>, start: nat, k: nat)
    requires Written(c, pages, ls, start, k)
    ensures forall l :: l in ls ==> start <= l.id
  {
    forall l | l in ls ensures start <= l.id {
      var i :| 0 <= i < |ls| && ls[i] == l;
      assert WrittenAt(c, pages, ls[i], start + i, if i < k then start + i + 1 else 0);
    }
  }

  /** True when one more entry would push the leaf past the fill threshold. */
  predicate LeafOverflows(n: nat, dataBytes: nat, entryLen: nat) {
    HEADER_SIZE + (n + 1) * 4 + dataBytes + entryLen > PAGE_FILL_BYTES
  }

  /** The leaf being filled: within the threshold, or a single entry of any legal size. */
  ghost predicate Filling(c: Codec, cur: seq<Entry>, bytes: nat) {
    && bytes == TotalLen(c.Recs(cur)) && c.AllSmall(cur)
    && (|cur| >= 2 ==> HEADER_SIZE + 4 * |cur| + bytes <= PAGE_FILL_BYTES)
    && HEADER_SIZE + 4 * |cur| + bytes <= PAGE_SIZE
  }

  /** What a leaf may hold: any one entry, or as many as stay within 3072 bytes with the header and the directory. */
  ghost predicate LeafFits(c: Codec, es: seq<Entry>) { |es| >= 2 ==> 12 + 4 * |es| + TotalLen(c.Recs(es)) <= 3072 }

  /** The first entry of the next leaf would push this one past that. */
  ghost predicate LeafFull(c: Codec, es: seq<Entry>, next: seq<Entry>) {
    next != [] && 12 + 4 * (|es| + 1) + TotalLen(c.Recs(es)) + |c.entry(next[0])| > 3072
  }

  /** Leaves filled one after the other, each until the next entry does not fit. */
  ghost predicate Greedy(c: Codec, ls: seq<Tree>)
    requires AreLeaves(ls)
  {
    && (forall i :: 0 <= i < |ls| ==> LeafFits(c, ls[i].entries))
    && (forall i :: 0 <= i < |ls| - 1 ==> LeafFull(c, ls[i].entries, ls[i + 1].entries))
  }

  ghost predicate GreedyTo(c: Codec, ls: seq<Tree>, cur: seq<Entry>)
    requires AreLeaves(ls)
  {
    Greedy(c, ls) && (ls != [] && cur != [] ==> LeafFull(c, ls[|ls| - 1].entries, cur))
  }

  lemma GreedyClosed(c: Codec, ls: seq<Tree>, cur: seq<Entry>, bytes: nat, l: Tree)
    requires AreLeaves(ls) && GreedyTo(c, ls, cur) && cur != [] && Filling(c, cur, bytes) && l.Leaf? && l.entries == cur
    ensures Greedy(c, ls + [l])
  {
    hide LeafFull;
    var all := ls + [l];
    forall i | 0 <= i < |all| - 1 ensures LeafFull(c, all[i].entries, all[i + 1].entries) {
      if i < |ls| - 1 { assert all[i] == ls[i] && all[i + 1] == ls[i + 1]; }
    }
  }

  /** One more entry: the leaf being filled is closed for it, or takes it. */
  lemma GreedyStep(c: Codec, ls: seq<Tree>, cur: seq<Entry>, bytes: nat, e: Entry, ls': seq<Tree>, cur': seq<Entry>)
    requires AreLeaves(ls) && AreLeaves(ls') && GreedyTo(c, ls, cur) && Filling(c, cur, bytes)
    requires if cur != [] && LeafOverflows(|cur|, bytes, |c.entry(e)|)
             then (exists id :: ls' == ls + [Leaf(id, cur)]) && cur' == [e] else ls' == ls && cur' == cur + [e]
    requires cur == [] ==> ls == []
    ensures GreedyTo(c, ls', cur')
  {
    if cur != [] && LeafOverflows(|cur|, bytes, |c.entry(e)|) {
      var id :| ls' == ls + [Leaf(id, cur)];
      GreedyClosed(c, ls, cur, bytes, Leaf(id, cur));
      assert LeafFull(c, cur, [e]);
    } else if ls != [] {
      assert LeafFull(c, ls[|ls| - 1].entries, cur);
    }
  }

  lemma WrittenAppend(c: Codec, a: Pages, b: Pages, ls: seq<Tree>, start: nat, page: seq<byte>, cur: seq<Entry>)
    requires Written(c, a, ls, start, 0) && b == a[start + |ls| := page]
    requires cur != [] && c.Small(cur[0]) && LeafHolds(page, c.Recs(cur), 0)
    ensures Written(c, b, ls + [Leaf(start + |ls|, cur)], start, 0)
  {
    WrittenKept(c, a, b, ls, start, 0);
    var ls' := ls + [Leaf(start + |ls|, cur)];
    forall i | 0 <= i < |ls'| ensures WrittenAt(c, b, ls'[i], start + i, 0) {
      if i < |ls| { assert WrittenAt(c, b, ls[i], start + i, 0); }
    }
  }

  /** Write the leaf `cur` at the next page, unlinked. */
  method WriteLeaf(file: PageFile, c: Codec, cur: seq<Entry>, bytes: nat, infos: seq<Info>, start: nat,
                   ghost ls: seq<Tree>)
    returns (infos': seq<Info>, ghost ls': seq<Tree>)
    requires cur != [] && Filling(c, cur, bytes)
    requires Written(c, file.pages, ls, start, 0) && InfosOf(c, infos, ls) && AreLeaves(ls)
    modifies file
    ensures ls' == ls + [Leaf(start + |ls|, cur)]
    ensures Written(c, file.pages, ls', start, 0) && InfosOf(c, infos', ls') && AreLeaves(ls')
    ensures AllOf(ls') == AllOf(ls) + cur
    ensures SameOutside(old(file.pages), file.pages, start, start + |ls'|)
  {
    var page := EncodeLeafPage(c.Recs(cur), 0);
    ghost var before := file.pages;
    file.WritePage(start + |infos|, page);
    WrittenAppend(c, before, file.pages, ls, start, page, cur);
    AllOfAppend(ls, Leaf(start + |ls|, cur));
    infos' := infos + [Info(start + |infos|, c.key(cur[0].key))];
    ls' := ls + [Leaf(start + |ls|, cur)];
  }

  lemma FillOne(c: Codec, cur: seq<Entry>, bytes: nat, e: Entry)
    requires Filling(c, cur, bytes) && c.Small(e)
    requires cur == [] || !LeafOverflows(|cur|, bytes, |c.entry(e)|)
    ensures Filling(c, cur + [e], bytes + |c.entry(e)|)
  {
    c.RecsAppend(cur, e);
    TotalLenAppend(c.Recs(cur), c.entry(e));
  }

  lemma WrittenPatch(c: Codec, a: Pages, b: Pages, ls: seq<Tree>, start: nat, i: nat)
    requires Written(c, a, ls, start, i) && i < |ls| && start + i + 1 < U64_SIZE
    requires start + i in a && |a[start + i]| == PAGE_SIZE
    requires b == a[start + i := WithNext(a[start + i], start + i + 1)]
    ensures Written(c, b, ls, start, i + 1)
  {
    forall j | 0 <= j < |ls|
      ensures WrittenAt(c, b, ls[j], start + j, if j < i + 1 then start + j + 1 else 0)
    {
      assert WrittenAt(c, a, ls[j], start + j, if j < i then start + j + 1 else 0);
      if j == i { WithNextHolds(a[start + i], c.Recs(ls[i].entries), 0, start + i + 1); }
    }
  }

  lemma SameOutsideSet(a: Pages, b: Pages, lo: nat, hi: nat, id: nat, page: seq<byte>)
    requires SameOutside(a, b, lo, hi) && lo <= id < hi
    ensures SameOutside(a, b[id := page], lo, hi)
  {}

  lemma SameOutsideRefl(a: Pages, lo: nat, hi: nat)
    ensures SameOutside(a, a, lo, hi)
  {}

  lemma InfosCount(c: Codec, infos: seq<Info>, ls: seq<Tree>)
    requires InfosOf(c, infos, ls)
    ensures |infos| == |ls|
  {}

  lemma WrittenIds(c: Codec, pages: Pages, infos: seq<Info>, ls: seq<Tree>, start: nat, k: nat, i: nat)
    requires InfosOf(c, infos, ls) && Written(c, pages, ls, start, k) && i < |ls| == |infos|
    ensures infos[i].id == start + i && start + i in pages && |pages[start + i]| == PAGE_SIZE
  {
    assert WrittenAt(c, pages, ls[i], start + i, if i < k then start + i + 1 else 0);
  }

  /** Set `leaf[i].next_leaf` to the page of leaf `i + 1`, for all but the last. */
  method PatchLinks(file: PageFile, c: Codec, infos: seq<Info>, start: nat, ghost ls: seq<Tree>)
    requires ls != [] && InfosOf(c, infos, ls) && Written(c, file.pages, ls, start, 0)
    requires start + |ls| < U64_SIZE
    modifies file
    ensures Written(c, file.pages, ls, start, |ls| - 1)
    ensures SameOutside(old(file.pages), file.pages, start, start + |ls|)
  {
    hide Written, InfosOf, WithNext, SameOutside;
    InfosCount(c, infos, ls);
    SameOutsideRefl(file.pages, start, start + |ls|);
    for i := 0 to |infos| - 1
      invariant Written(c, file.pages, ls, start, i)
      invariant SameOutside(old(file.pages), file.pages, start, start + |ls|)
    {
      WrittenIds(c, file.pages, infos, ls, start, i, i);
      WrittenIds(c, file.pages, infos, ls, start, i, i + 1);
      ghost var before := file.pages;
      var page := WithNext(file.pages[infos[i].id], infos[i + 1].id);
      file.WritePage(infos[i].id, page);
      WrittenPatch(c, before, file.pages, ls, start, i);
      SameOutsideSet(old(file.pages), before, start, start + |ls|, start + i, page);
    }
  }

  /** One entry of the packing loop: flush the leaf if the entry would overfill it, then add the entry. */
  method PackOne(file: PageFile, c: Codec, e: Entry, infos: seq<Info>, cur: seq<Entry>, bytes: nat, start: nat,
                 ghost ls: seq<Tree>)
    returns (infos': seq<Info>, cur': seq<Entry>, bytes': nat, ghost ls': seq<Tree>)
    requires Filling(c, cur, bytes) && c.Small(e)
    requires Written(c, file.pages, ls, start, 0) && InfosOf(c, infos, ls) && AreLeaves(ls)
    requires GreedyTo(c, ls, cur) && (cur == [] ==> ls == [])
    modifies file
    ensures Filling(c, cur', bytes') && cur' != [] && AreLeaves(ls') && GreedyTo(c, ls', cur')
    ensures Written(c, file.pages, ls', start, 0) && InfosOf(c, infos', ls') && AreLeaves(ls')
    ensures AllOf(ls') + cur' == AllOf(ls) + cur + [e]
    ensures |ls| <= |ls'| <= |ls| + (if cur == [] then 0 else 1)
    ensures SameOutside(old(file.pages), file.pages, start, start + |ls'|)
  {
    hide GreedyTo;
    infos', cur', bytes', ls' := infos, cur, bytes, ls;
    if cur != [] && LeafOverflows(|cur|, bytes, |c.entry(e)|) {
      infos', ls' := WriteLeaf(file, c, cur, bytes, infos, start, ls);
      cur', bytes' := [], 0;
      assert c.Recs([]) == [];
    }
    FillOne(c, cur', bytes', e);
    cur', bytes' := cur' + [e], bytes' + |c.entry(e)|;
    GreedyStep(c, ls, cur, bytes, e, ls', cur');
  }

  lemma PrefixStep(sofar: seq<Entry>, es: seq<Entry>, n: nat)
    requires n < |es| && sofar == es[..n]
    ensures sofar + [es[n]] == es[..n + 1]
  {
  }

  /** Phase 1: pack all entries but the last batch `cur` into leaf pages. */
  method PackLeaves(file: PageFile, c: Codec, es: seq<Entry>, start: nat)
    returns (infos: seq<Info>, cur: seq<Entry>, bytes: nat, ghost ls: seq<Tree>)
    requires c.AllSmall(es)
    modifies file
    ensures Filling(c, cur, bytes) && (es != [] ==> cur != [])
    ensures Written(c, file.pages, ls, start, 0) && InfosOf(c, infos, ls) && AreLeaves(ls)
    ensures AllOf(ls) + cur == es && (if es == [] then ls == [] else |ls| < |es|) && GreedyTo(c, ls, cur)
    ensures SameOutside(old(file.pages), file.pages, start, start + |ls|)
  {
    infos, cur, bytes, ls := [], [], 0, [];
    assert c.Recs([]) == [];
    assert Filling(c, cur, bytes) && Written(c, file.pages, ls, start, 0) && InfosOf(c, infos, ls);
    assert SameOutside(old(file.pages), file.pages, start, start + |ls|) && AllOf(ls) == [] && GreedyTo(c, ls, cur);
    hide Filling, Written, InfosOf, SameOutside, AllOf, GreedyTo;
    for n := 0 to |es|
      invariant Filling(c, cur, bytes) && (n > 0 ==> cur != [])
      invariant Written(c, file.pages, ls, start, 0) && InfosOf(c, infos, ls) && AreLeaves(ls)
      invariant AllOf(ls) + cur == es[..n] && GreedyTo(c, ls, cur) && (cur == [] ==> ls == [])
      invariant |ls| + (if cur == [] then 0 else 1) <= n
      invariant SameOutside(old(file.pages), file.pages, start, start + |ls|)
    {
      PrefixStep(AllOf(ls) + cur, es, n);
      ghost var k, before := |ls|, file.pages;
      infos, cur, bytes, ls := PackOne(file, c, es[n], infos, cur, bytes, start, ls);
      SameOutsideTrans(old(file.pages), before, file.pages, start, start + k, start + |ls|);
    }
    assert es[..|es|] == es;
  }

  /** Bulk build of sorted entries: the stored tree holds exactly `es`, in order, in leaves filled one after the other. */
  method BuildBtree(file: PageFile, c: Codec, es: seq<Entry>, start: nat)
    returns (root: nat, next: nat, ghost t: Tree)
    requires Sorted(es) && c.AllSmall(es) && start >= 1 && start + 3 * |es| + 1 < U64_SIZE
    modifies file
    ensures Stored(c, file.pages, t) && t.id == root && Entries(t) == es && AreLeaves(Leaves(t)) && Greedy(c, Leaves(t))
    ensures start < next <= start + 3 * |es| + 1 && root < next && IdsIn(t, start, next)
    ensures SameOutside(old(file.pages), file.pages, start, next)
  {
    hide Filling, Written, InfosOf, Stored, Sorted, SameOutside, IdsIn, Greedy;
    var infos, cur, bytes; ghost var ls;
    infos, cur, bytes, ls := PackLeaves(file, c, es, start);
    ghost var p0, p1 := old(file.pages), file.pages;
    if cur == [] {
      root, next, t := EmptyTree(file, c, start);
      GreedyNone(c, t);
      SameOutsideTrans(p0, p1, file.pages, start, start + |ls|, next);
    } else {
      ghost var n := |ls|;
      GreedyClosed(c, ls, cur, bytes, Leaf(start + |ls|, cur));
      infos, ls := WriteLeaf(file, c, cur, bytes, infos, start, ls);
      ghost var p2 := file.pages;
      PatchLinks(file, c, infos, start, ls);
      ghost var p3 := file.pages;
      root, next, t := FinishTree(file, c, infos, start, ls);
      SameOutsideTrans(p0, p1, p2, start, start + n, start + |ls|);
      SameOutsideTrans(p0, p2, p3, start, start + |ls|, start + |ls|);
      SameOutsideWiden(p0, p3, file.pages, start, start + |ls|, next);
    }
  }

  lemma GreedyNone(c: Codec, t: Tree)
    requires t.Leaf? && t.entries == []
    ensures AreLeaves(Leaves(t)) && Greedy(c, Leaves(t))
  {}

  /** An empty index is one empty leaf. */
  method EmptyTree(file: PageFile, c: Codec, start: nat) returns (root: nat, next: nat, ghost t: Tree)
    requires start >= 1
    modifies file
    ensures Stored(c, file.pages, t) && t == Leaf(start, []) && root == start && Entries(t) == [] && next == start + 1 && IdsIn(t, start, next)
    ensures SameOutside(old(file.pages), file.pages, start, next)
  {
    var page := EncodeLeafPage([], 0);
    file.WritePage(start, page);
    t := Leaf(start, []);
    assert Leaves(t) == [t] && Upto([t], 1) == Upto([t], 0) + [];
    assert c.Recs([]) == [];
    assert Linked(c, file.pages, [t], 0);
    root, next := start, start + 1;
  }
}
