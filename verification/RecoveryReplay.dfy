/** Reopening: rebuild, replay, and what they bring back. */
module RecoveryReplay {
  import opened Bytes
  import opened Facts
  import F = FactStore
  import opened Recovery
  import opened RecoverySteps

  // ----- reopening -----

  /** A replay loads exactly the contributions of the attempts it brings back. */
  lemma {:induction false} ReplayContent(b: State, ckpt: nat, n: nat)
    requires BaseInv(b) && n <= |b.wal|
    requires Replay(EntriesAt(b.hist, b.wal), ckpt, n).Some?
    ensures var ix := Replayed(b.hist, b.wal, ckpt, n);
      && Bounded(ix, |b.hist|)
      && Replay(EntriesAt(b.hist, b.wal), ckpt, n).value == Content(b.hist, ix, |ix|)
  {
    hide Content, BaseInv, F.Novel, F.Keys, F.Loaded, Contribution, Bounded, Replay, Replayed;
    ReplayedBounded(b, ckpt, n);
    if n == 0 {
      ReplayStarts(b, ckpt);
      ContentEmpty(b.hist);
    } else {
      ReplayUnfold(b, ckpt, n);
      ReplayContent(b, ckpt, n - 1);
      if b.hist[b.wal[n - 1]].entry.txCount > ckpt { ReplayOne(b, ckpt, n); }
    }
  }

  lemma ReplayStarts(b: State, ckpt: nat)
    requires Bounded(b.wal, |b.hist|)
    ensures Replay(EntriesAt(b.hist, b.wal), ckpt, 0) == Some([]) && Replayed(b.hist, b.wal, ckpt, 0) == []
  {}

  /** What the last of the first `n` entries does to a replay that succeeds. */
  lemma ReplayUnfold(b: State, ckpt: nat, n: nat)
    requires Bounded(b.wal, |b.hist|) && 0 < n <= |b.wal| && Replay(EntriesAt(b.hist, b.wal), ckpt, n).Some?
    ensures var es, e := EntriesAt(b.hist, b.wal), b.hist[b.wal[n - 1]].entry;
      && Replay(es, ckpt, n - 1).Some?
      && var pending := Replay(es, ckpt, n - 1).value;
        if e.txCount <= ckpt then Replay(es, ckpt, n) == Some(pending) && Replayed(b.hist, b.wal, ckpt, n) == Replayed(b.hist, b.wal, ckpt, n - 1)
        else |pending| + |F.Novel(F.Keys(pending), e.facts, |e.facts|)| <= F.MAX_SLOTS && Replay(es, ckpt, n) == Some(F.Loaded(pending, e.facts))
  {
    hide F.Novel, F.Keys, F.Loaded;
    var ix := Replayed(b.hist, b.wal, ckpt, n - 1);
    assert ix + [] == ix;
  }

  lemma ReplayedBounded(b: State, ckpt: nat, n: nat)
    requires BaseInv(b) && n <= |b.wal|
    ensures Bounded(b.wal, |b.hist|) && Bounded(Replayed(b.hist, b.wal, ckpt, n), |b.hist|)
  {
    ReplayedNames(b, ckpt, n);
  }

  lemma ReplayOne(b: State, ckpt: nat, n: nat)
    requires BaseInv(b) && 0 < n <= |b.wal|
    requires b.hist[b.wal[n - 1]].entry.txCount > ckpt
    ensures var ix := Replayed(b.hist, b.wal, ckpt, n - 1);
      var e := b.hist[b.wal[n - 1]].entry;
      var ix' := Replayed(b.hist, b.wal, ckpt, n);
      && Bounded(ix, |b.hist|) && Bounded(ix', |b.hist|)
      && var pending := Content(b.hist, ix, |ix|);
         |pending| + |F.Novel(F.Keys(pending), e.facts, |e.facts|)| <= F.MAX_SLOTS ==>
           F.Loaded(pending, e.facts) == Content(b.hist, ix', |ix'|)
  {
    ReplayedBounded(b, ckpt, n - 1);
    ReplayedBounded(b, ckpt, n);
    var ix, e := Replayed(b.hist, b.wal, ckpt, n - 1), b.hist[b.wal[n - 1]].entry;
    var pending := Content(b.hist, ix, |ix|);
    if e.facts == [] {
      LoadNothing(pending);
      assert ix + [] == ix;
    } else {
      ReplayedEarlier(b, ckpt, n);
      hide BaseInv, F.Keys, F.Novel, Contribution, F.Loaded;
      LoadContent(b.hist, ix, pending, e);
      ContentPrefix(b.hist, ix, [b.wal[n - 1]], |ix|);
    }
  }

  lemma LoadNothing(pending: seq<Fact>)
    ensures F.Loaded(pending, []) == pending
  {
    assert F.Novel(F.Keys(pending), [], 0) == [];
    assert pending + [] == pending;
  }

  /** What was replayed before an entry has smaller counts. */
  lemma ReplayedEarlier(b: State, ckpt: nat, n: nat)
    requires BaseInv(b) && 0 < n <= |b.wal| && b.hist[b.wal[n - 1]].entry.facts != []
    ensures Stamped(b.hist) && Batch(b.hist[b.wal[n - 1]].entry)
    ensures var ix := Replayed(b.hist, b.wal, ckpt, n - 1);
      Bounded(ix, |b.hist|) && forall k :: 0 <= k < |ix| ==> Tx(b, ix[k]) < Tx(b, b.wal[n - 1])
  {
    hide Content, DiskInv;
    ReplayedNames(b, ckpt, n - 1);
    var ix := Replayed(b.hist, b.wal, ckpt, n - 1);
    assert Alive(b, b.wal[n - 1]);
    forall k | 0 <= k < |ix| ensures Tx(b, ix[k]) < Tx(b, b.wal[n - 1]) {
      assert ix[k] in ix;
      assert Alive(b, ix[k]);
      BeforeLast(b.wal, n, ix[k]);
    }
  }

  lemma BeforeLast(ix: seq<nat>, n: nat, i: nat)
    requires Increasing(ix) && 0 < n <= |ix| && i in ix[..n - 1]
    ensures i < ix[n - 1]
  {}

  lemma {:induction false} ReplayedMembers(hist: seq<Attempt>, wal: seq<nat>, ckpt: nat, n: nat, i: nat)
    requires n <= |wal| && Bounded(wal, |hist|)
    ensures i in Replayed(hist, wal, ckpt, n) <==>
      i in wal[..n] && i < |hist| && hist[i].entry.txCount > ckpt && hist[i].entry.facts != []
  {
    if n > 0 {
      ReplayedMembers(hist, wal, ckpt, n - 1, i);
      assert wal[..n] == wal[..n - 1] + [wal[n - 1]];
    }
  }

  lemma {:induction false} ReplayedIncreasing(hist: seq<Attempt>, wal: seq<nat>, ckpt: nat, n: nat)
    requires n <= |wal| && Bounded(wal, |hist|) && Increasing(wal)
    ensures Increasing(Replayed(hist, wal, ckpt, n))
  {
    if n > 0 {
      ReplayedIncreasing(hist, wal, ckpt, n - 1);
      var before := Replayed(hist, wal, ckpt, n - 1);
      forall k | 0 <= k < |before| ensures before[k] < wal[n - 1] {
        assert before[k] in before;
        ReplayedMembers(hist, wal, ckpt, n - 1, before[k]);
        BeforeLast(wal, n, before[k]);
      }
      hide Increasing, Bounded;
      IncreasingSnoc(before, wal[n - 1]);
      assert before + [] == before;
    }
  }

  /** The attempts brought back are those of the log above the checkpoint, in log order. */
  lemma {:induction false} ReplayedNames(b: State, ckpt: nat, n: nat)
    requires BaseInv(b) && n <= |b.wal|
    ensures var ix := Replayed(b.hist, b.wal, ckpt, n);
      && Bounded(ix, |b.hist|) && Increasing(ix)
      && (forall i :: i in ix <==> i in b.wal[..n] && i < |b.hist| && Tx(b, i) > ckpt && b.hist[i].entry.facts != [])
  {
    hide BaseInv, Increasing, Replayed;
    InvIncreasing(b);
    ReplayedIncreasing(b.hist, b.wal, ckpt, n);
    var ix := Replayed(b.hist, b.wal, ckpt, n);
    forall i: nat ensures i in ix <==> i in b.wal[..n] && i < |b.hist| && Tx(b, i) > ckpt && b.hist[i].entry.facts != [] {
      ReplayedMembers(b.hist, b.wal, ckpt, n, i);
    }
    assert forall k :: 0 <= k < |ix| ==> ix[k] in ix;
  }

  lemma InvIncreasing(b: State)
    requires BaseInv(b)
    ensures Bounded(b.wal, |b.hist|) && Increasing(b.wal)
  {}

  /** A rebuild recovers a checkpoint count between the saved attempts and the recorded one. */
  lemma {:induction false} RebuiltCount(b: State)
    requires BaseInv(b)
    ensures var m := MaxTx(b.disk.facts, |b.disk.facts|);
      m <= b.disk.ckpt && forall i :: i in b.saved ==> Tx(b, i) <= m
  {
    var facts := b.disk.facts;
    MaxTxBounds(facts, |facts|);
    forall k | 0 <= k < |b.saved| ensures b.hist[b.saved[k]].entry.txCount <= b.disk.ckpt {
      assert b.saved[k] in b.saved;
    }
    ContentTx(b.hist, b.saved, |b.saved|, 0, b.disk.ckpt);
    forall i | i in b.saved ensures Tx(b, i) <= MaxTx(facts, |facts|) {
      var k :| 0 <= k < |b.saved| && b.saved[k] == i;
      ContentReaches(b.hist, b.saved, |b.saved|, k);
    }
  }

  /** The main file with a lower checkpoint count that still covers what was saved. */
  lemma BaseRebuilt(b: State, disk: Disk)
    requires BaseInv(b) && disk.facts == b.disk.facts && disk.ckpt <= b.disk.ckpt
    requires forall i :: i in b.saved ==> Tx(b, i) <= disk.ckpt
    ensures BaseInv(b.(disk := disk))
  {
    var t := b.(disk := disk);
    hide Content, Stamped, Increasing;
    forall i: nat ensures Alive(t, i) == Alive(b, i) && Promised(t, i) == Promised(b, i) {}
    assert Named(t) && TxOrdered(t);
    assert DiskInv(t);
  }

  /** What is replayed was attempted after everything that was saved. */
  lemma ReplayAfterSaved(b: State)
    requires BaseInv(b)
    ensures var ix := Replayed(b.hist, b.wal, b.disk.ckpt, |b.wal|);
      && Bounded(ix, |b.hist|) && Increasing(b.saved + ix)
      && (forall i :: i in ix <==> i in b.wal && i < |b.hist| && Tx(b, i) > b.disk.ckpt && b.hist[i].entry.facts != [])
  {
    hide Content, BaseInv, Alive, Increasing;
    InvIncreasing(b);
    ReplayedNames(b, b.disk.ckpt, |b.wal|);
    assert b.wal[..|b.wal|] == b.wal;
    var ix := Replayed(b.hist, b.wal, b.disk.ckpt, |b.wal|);
    forall j, k | 0 <= j < |b.saved| && 0 <= k < |ix| ensures b.saved[j] < ix[k] {
      assert ix[k] in ix;
      SavedBefore(b, j, ix[k]);
    }
    SavedIncreasing(b);
    IncreasingJoin(b.saved, ix);
  }

  lemma SavedIncreasing(b: State)
    requires BaseInv(b)
    ensures Increasing(b.saved)
  {}

  lemma SavedBefore(b: State, j: nat, i: nat)
    requires BaseInv(b) && j < |b.saved| && i in b.wal && i < |b.hist|
    requires b.hist[i].entry.facts != [] && Tx(b, i) > b.disk.ckpt
    ensures b.saved[j] < i
  {
    hide Content;
    assert b.saved[j] in b.saved;
    assert Alive(b, b.saved[j]) && Alive(b, i);
  }

  lemma IncreasingJoin(ix: seq<nat>, more: seq<nat>)
    requires Increasing(ix) && Increasing(more)
    requires forall j, k :: 0 <= j < |ix| && 0 <= k < |more| ==> ix[j] < more[k]
    ensures Increasing(ix + more)
  {}

  /** The counter after a replay is above every attempt that left something. */
  lemma ReplayCounter(b: State, pending: seq<Fact>)
    requires BaseInv(b)
    requires var ix := Replayed(b.hist, b.wal, b.disk.ckpt, |b.wal|);
      Bounded(ix, |b.hist|) && pending == Content(b.hist, ix, |ix|)
    ensures forall i :: Alive(b, i) ==> Tx(b, i) <= Max(b.disk.ckpt, MaxTx(pending, |pending|))
  {
    var ix := Replayed(b.hist, b.wal, b.disk.ckpt, |b.wal|);
    ReplayAfterSaved(b);
    MaxTxBounds(pending, |pending|);
    forall i: nat | Alive(b, i) && Tx(b, i) > b.disk.ckpt ensures Tx(b, i) <= MaxTx(pending, |pending|) {
      assert i in ix;
      var k :| 0 <= k < |ix| && ix[k] == i;
      ContentReaches(b.hist, ix, |ix|, k);
    }
  }

  lemma {:induction false} ReplayCounts(b: State, ckpt: nat, n: nat)
    requires n <= |b.wal| && Bounded(b.wal, |b.hist|) && Replayed(b.hist, b.wal, ckpt, n) != []
    ensures ReplayCount(EntriesAt(b.hist, b.wal), ckpt, n) > 0
  {
    if Replayed(b.hist, b.wal, ckpt, n - 1) != [] { ReplayCounts(b, ckpt, n - 1); }
  }

  /** What a replay loads is pending as the invariant asks. */
  lemma ReplayPending(b: State, h: Handle)
    requires BaseInv(b)
    requires h.applied == Replayed(b.hist, b.wal, b.disk.ckpt, |b.wal|)
    requires Replay(EntriesAt(b.hist, b.wal), b.disk.ckpt, |b.wal|) == Some(h.pending)
    ensures Named(b) && PendingInv(b, h) && ShowsPromised(b, h)
  {
    hide Content, Replay, Replayed, Stamped, TxOrdered, Increasing;
    ReplayContent(b, b.disk.ckpt, |b.wal|);
    ReplayAfterSaved(b);
  }

  lemma HandleReplayed(b: State, h: Handle)
    requires BaseInv(b)
    requires h.applied == Replayed(b.hist, b.wal, b.disk.ckpt, |b.wal|)
    requires Replay(EntriesAt(b.hist, b.wal), b.disk.ckpt, |b.wal|) == Some(h.pending)
    requires h.counter == Max(b.disk.ckpt, MaxTx(h.pending, |h.pending|))
    requires h.walCount == ReplayCount(EntriesAt(b.hist, b.wal), b.disk.ckpt, |b.wal|)
    ensures HandleInv(b, h)
  {
    hide BaseInv, Content, Replay, Replayed, ReplayCount, MaxTx, ShowsPromised;
    ReplayPending(b, h);
    if h.applied != [] { ReplayCounts(b, b.disk.ckpt, |b.wal|); }
    assert Bounded(h.applied, |b.hist|) && h.pending == Content(b.hist, h.applied, |h.applied|);
    hide PendingInv;
    ReplayCounter(b, h.pending);
  }

  lemma {:induction false} InvReopen(s: State, rebuilds: bool, full: bool, logFound: bool)
    requires Inv(s) && Legal(s, Reopen(rebuilds, full, logFound))
    ensures Inv(Step(s, Reopen(rebuilds, full, logFound)))
  {
    hide BaseInv, HandleInv, MaxTx, Replay, ReplayCount;
    var t := Reopened(s, rebuilds, full, logFound);
    assert Base(s) == s;
    if rebuilds {
      RebuiltCount(s);
      BaseRebuilt(s, t.disk);
    }
    var b := s.(disk := t.disk);
    assert Base(t) == b;
    if t.handle.Some? {
      HandleReplayed(b, t.handle.value);
    }
  }
}
