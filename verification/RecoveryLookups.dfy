/** Lookups in every state a run of the database reaches. */
module RecoveryLookups {
  import opened Facts
  import opened NetView
  import opened Recovery
  import opened RecoveryRuns
  import opened IndexKeys
  import opened Lookups
  import F = FactStore
  import P = PendingLookups

  /** No two facts share the key duplicates are recognised by. */
  ghost predicate NoDuplicates(facts: seq<Fact>) {
    forall i, j :: 0 <= i < j < |facts| ==> F.KeyOf(facts[i]) != F.KeyOf(facts[j])
  }

  lemma {:induction false} NovelNoDuplicates(keys: set<F.PendingKey>, fs: seq<Fact>, n: nat)
    requires n <= |fs|
    ensures NoDuplicates(F.Novel(keys, fs, n))
  {
    hide F.KeyOf;
    if n > 0 { NovelNoDuplicates(keys, fs, n - 1); }
  }

  /** The counts of the named attempts rise. */
  ghost predicate TxRising(hist: seq<Attempt>, ix: seq<nat>)
    requires Bounded(ix, |hist|)
  {
    forall j, k :: 0 <= j < k < |ix| ==> hist[ix[j]].entry.txCount < hist[ix[k]].entry.txCount
  }

  lemma {:induction false} ContentNoDuplicates(hist: seq<Attempt>, ix: seq<nat>, n: nat)
    requires n <= |ix| && Bounded(ix, |hist|) && Stamped(hist) && TxRising(hist, ix)
    ensures NoDuplicates(Content(hist, ix, n))
  {
    if n > 0 {
      ContentNoDuplicates(hist, ix, n - 1);
      var e := hist[ix[n - 1]].entry;
      NovelNoDuplicates({}, e.facts, |e.facts|);
      NovelStamp({}, e.facts, |e.facts|, e.txCount);
      if n > 1 { ContentTx(hist, ix, n - 1, 0, hist[ix[n - 2]].entry.txCount); }
      var before, last := Content(hist, ix, n - 1), Contribution(e);
      forall j | 0 <= j < |before| ensures before[j].txCount < e.txCount {}
      hide Content, Contribution, Stamped, F.Novel, TxRising;
      NoDuplicatesJoin(before, last, e.txCount);
    }
  }

  lemma NoDuplicatesJoin(before: seq<Fact>, last: seq<Fact>, tx: nat)
    requires NoDuplicates(before) && NoDuplicates(last)
    requires forall j :: 0 <= j < |before| ==> before[j].txCount < tx
    requires forall j :: 0 <= j < |last| ==> last[j].txCount == tx
    ensures NoDuplicates(before + last)
  {
    var all := before + last;
    forall i, j | 0 <= i < j < |all| ensures F.KeyOf(all[i]) != F.KeyOf(all[j]) {
      if i < |before| && j >= |before| {
        assert F.KeyOf(all[i]).txCount < tx == F.KeyOf(all[j]).txCount;
      }
    }
  }

  lemma NoDuplicatesTieFree(facts: seq<Fact>)
    requires NoDuplicates(facts)
    ensures TieFree(Elems(facts))
  {
    forall f, g | f in Elems(facts) && g in Elems(facts) && f.asserted && g.asserted && WindowOf(f) == WindowOf(g) && f.txCount == g.txCount ensures f == g {
      var i :| 0 <= i < |facts| && facts[i] == f;
      var j :| 0 <= j < |facts| && facts[j] == g;
      assert F.KeyOf(f) == F.KeyOf(g);
    }
  }

  lemma ShownRises(s: State)
    requires Inv(s) && s.handle.Some?
    ensures var shown := s.saved + s.handle.value.applied; Bounded(shown, |s.hist|) && TxRising(s.hist, shown) && Stamped(s.hist)
  {
    hide Content, Stamped;
    var b, shown := Base(s), s.saved + s.handle.value.applied;
    InSeq(s.saved, s.handle.value.applied);
    forall k | 0 <= k < |shown| ensures shown[k] < |s.hist| && Alive(b, shown[k]) { assert shown[k] in shown; }
    forall j, k | 0 <= j < k < |shown| ensures s.hist[shown[j]].entry.txCount < s.hist[shown[k]].entry.txCount {
      assert Tx(b, shown[j]) < Tx(b, shown[k]);
    }
  }

  /** In every state that keeps the invariant, what is visible has no ties. */
  lemma {:induction false} VisibleTieFree(s: State)
    requires Inv(s) && s.handle.Some?
    ensures TieFree(Elems(Visible(s)))
  {
    hide Inv, Content, TieFree, Elems, TxRising, Stamped, NoDuplicates;
    InvShown(s);
    ShownRises(s);
    var shown := s.saved + s.handle.value.applied;
    ContentNoDuplicates(s.hist, shown, |shown|);
    NoDuplicatesTieFree(Visible(s));
  }

  /** In every state of every run, lookups and a full scan agree: the net view of what they fetch is that of everything
      visible, restricted, as long as pending keys are not shared. */
  lemma {:induction false} RunLookupsAgree(states: seq<State>, events: seq<Event>, n: nat, indexed: bool, ls: seq<Lookup>, fetched: seq<Fact>)
    requires Run(states, events) && n <= |events| && states[n].handle.Some?
    requires P.DistinctKeys(states[n].handle.value.pending) && (indexed || states[n].disk.facts == [])
    requires forall i :: 0 <= i < |ls| ==> !AllOnes(ls[i])
    requires Elems(fetched) == FoundAny(states[n].disk.facts, indexed, states[n].handle.value.pending, ls, |ls|)
    ensures Elems(Net(fetched)) == Restrict(Elems(Net(Visible(states[n]))), f => MatchesAny(ls, |ls|, f))
  {
    hide Inv, TieFree, Elems, Net, FoundAny, P.DistinctKeys, MatchesAny, Restrict;
    RunInv(states, events, n);
    VisibleTieFree(states[n]);
    LookupsAgreeWithScan(states[n].disk.facts, indexed, states[n].handle.value.pending, ls, fetched);
  }
}
