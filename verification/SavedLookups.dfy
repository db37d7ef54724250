/** A save keeps the committed facts readable through their indexes, the new ones included. */
module SavedLookups {
  import opened Bytes
  import opened Facts
  import opened PackedPages
  import opened CommittedLookups
  import T = BTreeModel
  import M = BTreeMerge
  import C = BTreeCheckpoint
  import V = BTreeSave

  /** What an index held before the save describes the facts committed so far. */
  ghost predicate Described(t: Option<T.Tree>, layout: seq<seq<Fact>>, key: Fact -> Option<T.Key>) {
    Catalogs(V.OldEntries(t), All(layout), Refs(layout), key)
  }

  /** Refs of facts packed from page `start` on. */
  ghost function RefsFrom(layout: seq<seq<Fact>>, start: nat): seq<T.FactRef> { RefsUpto(layout, |layout|, start) }

  lemma {:induction false} RefPages(layout: seq<seq<Fact>>, n: nat, start: nat)
    requires n <= |layout|
    ensures forall i :: 0 <= i < |RefsUpto(layout, n, start)| ==> start <= RefsUpto(layout, n, start)[i].page < start + n
  {
    if n > 0 { RefPages(layout, n - 1, start); }
  }

  /** Every entry of an index is one of a fact. */
  lemma IndexedAt(es: seq<T.Entry>, facts: seq<Fact>, refs: seq<T.FactRef>, key: Fact -> Option<T.Key>, j: nat) returns (i: nat)
    requires Catalogs(es, facts, refs, key) && j < |es|
    ensures i < |facts| && key(facts[i]) == Some(es[j].key) && refs[i] == es[j].ref
  {
    hide EntriesUpto;
    assert es[j] in multiset(es);
    assert es[j] in EntriesUpto(facts, refs, |facts|, key);
    i := ListedAt(facts, refs, |facts|, key, es[j]);
  }

  /** The refs of a save are later than all before it, whatever keys are shared. */
  lemma {:induction false} SavedLater(old_: seq<T.Entry>, layout: seq<seq<Fact>>, pending: seq<T.Entry>, added: seq<seq<Fact>>, key: Fact -> Option<T.Key>)
    requires Catalogs(old_, All(layout), Refs(layout), key)
    requires Catalogs(pending, All(added), RefsFrom(added, 1 + |layout|), key)
    ensures M.Later(old_, pending)
  {
    hide Catalogs, FactsUpto, RefsUpto;
    UptoLengths(layout, |layout|, 1);
    UptoLengths(added, |added|, 1 + |layout|);
    RefPages(layout, |layout|, 1);
    RefPages(added, |added|, 1 + |layout|);
    forall i, j | 0 <= i < |old_| && 0 <= j < |pending| && old_[i].key == pending[j].key ensures M.LeqEntry(old_[i], pending[j]) {
      var a := IndexedAt(old_, All(layout), Refs(layout), key, i);
      var b := IndexedAt(pending, All(added), RefsFrom(added, 1 + |layout|), key, j);
    }
  }

  lemma {:induction false} EntriesPrefix(fs: seq<Fact>, gs: seq<Fact>, a: seq<T.FactRef>, b: seq<T.FactRef>, n: nat, key: Fact -> Option<T.Key>)
    requires |fs| == |a| && |gs| == |b| && n <= |fs|
    ensures EntriesUpto(fs + gs, a + b, n, key) == EntriesUpto(fs, a, n, key)
  {
    hide EntryOf;
    if n > 0 {
      EntriesPrefix(fs, gs, a, b, n - 1, key);
      assert (fs + gs)[n - 1] == fs[n - 1] && (a + b)[n - 1] == a[n - 1];
    }
  }

  lemma JoinedAt<X>(a: seq<X>, b: seq<X>, i: nat)
    requires i < |b|
    ensures (a + b)[|a| + i] == b[i]
  {}

  lemma EntriesStep(facts: seq<Fact>, refs: seq<T.FactRef>, n: nat, f: Fact, r: T.FactRef, key: Fact -> Option<T.Key>)
    requires n < |facts| == |refs| && facts[n] == f && refs[n] == r
    ensures EntriesUpto(facts, refs, n + 1, key) == EntriesUpto(facts, refs, n, key) + EntryOf(f, r, key)
  {
    hide EntryOf;
  }

  lemma NoEntries(facts: seq<Fact>, refs: seq<T.FactRef>, key: Fact -> Option<T.Key>)
    requires |facts| == |refs|
    ensures EntriesUpto(facts, refs, 0, key) == []
  {}

  lemma {:induction false} EntriesJoin(fs: seq<Fact>, gs: seq<Fact>, a: seq<T.FactRef>, b: seq<T.FactRef>, n: nat, key: Fact -> Option<T.Key>)
    requires |fs| == |a| && |gs| == |b| && n <= |gs|
    ensures EntriesUpto(fs + gs, a + b, |fs| + n, key) == EntriesUpto(fs, a, |fs|, key) + EntriesUpto(gs, b, n, key)
  {
    hide EntryOf, EntriesUpto;
    if n == 0 {
      EntriesPrefix(fs, gs, a, b, |fs|, key);
      NoEntries(gs, b, key);
    } else {
      EntriesJoin(fs, gs, a, b, n - 1, key);
      JoinedAt(fs, gs, n - 1);
      JoinedAt(a, b, n - 1);
      EntriesStep(fs + gs, a + b, |fs| + n - 1, gs[n - 1], b[n - 1], key);
      EntriesStep(gs, b, n - 1, gs[n - 1], b[n - 1], key);
    }
  }

  /** The merged index describes the facts of both. */
  lemma MergedDescribes(old_: seq<T.Entry>, layout: seq<seq<Fact>>, pending: seq<T.Entry>, added: seq<seq<Fact>>, key: Fact -> Option<T.Key>)
    requires Catalogs(old_, All(layout), Refs(layout), key)
    requires Catalogs(pending, All(added), RefsFrom(added, 1 + |layout|), key)
    ensures Catalogs(M.Merge(old_, pending), All(layout + added), Refs(layout + added), key)
  {
    hide FactsUpto, RefsUpto, M.Merge, EntriesUpto;
    BatchesJoin(layout, added, |added|, 1);
    UptoLengths(layout + added, |layout + added|, 1);
    var a, b, fs, gs := Refs(layout), RefsFrom(added, 1 + |layout|), All(layout), All(added);
    assert All(layout + added) == fs + gs && Refs(layout + added) == a + b;
    M.MergePermutes(old_, pending);
    EntriesJoin(fs, gs, a, b, |gs|, key);
  }

  /** Old fact pages stay, new ones follow. */
  lemma SavedPages(fc: FactCodec, before: T.Pages, after: T.Pages, layout: seq<seq<Fact>>, factPages: seq<seq<byte>>,
                   added: seq<seq<Fact>>, next: nat)
    requires FactsAt(fc, before, layout) && Laid(fc, factPages, added) && T.SameOutside(before, after, 1 + |layout|, next)
    requires forall i :: 0 <= i < |factPages| ==> C.PageIs(after, 1 + |layout| + i, factPages[i])
    ensures FactsAt(fc, after, layout + added)
  {
    hide PackedHolds;
    var all := layout + added;
    forall k | 0 <= k < |all| ensures PageAt(fc, after, k + 1, all[k]) {
      if k < |layout| {
        assert PageAt(fc, before, k + 1, layout[k]);
      } else {
        assert C.PageIs(after, 1 + |layout| + (k - |layout|), factPages[k - |layout|]);
      }
    }
  }

  /** After a save of packed facts and their index entries, the index reads old and new facts alike. */
  lemma {:induction false} SavedReadable(c: T.Codec, fc: FactCodec, before: T.Pages, after: T.Pages, layout: seq<seq<Fact>>,
                                         factPages: seq<seq<byte>>, added: seq<seq<Fact>>, root: nat, t: Option<T.Tree>, pending: seq<T.Entry>, t': T.Tree, lo: nat, next: nat,
                                         key: Fact -> Option<T.Key>)
    requires FactsAt(fc, before, layout) && Described(t, layout, key)
    requires Laid(fc, factPages, added) && Catalogs(pending, All(added), RefsFrom(added, 1 + |layout|), key)
    requires T.SameOutside(before, after, 1 + |layout|, next) && V.Rebuilt(c, before, after, root, t, pending, t', lo, next)
    requires forall i :: 0 <= i < |factPages| ==> C.PageIs(after, 1 + |layout| + i, factPages[i])
    ensures Readable(c, fc, after, root, layout + added, t', key) && Described(Some(t'), layout + added, key)
  {
    hide FactsAt, Catalogs, T.Stored, V.Carried, Laid;
    SavedPages(fc, before, after, layout, factPages, added, next);
    MergedDescribes(V.OldEntries(t), layout, pending, added, key);
  }
}
