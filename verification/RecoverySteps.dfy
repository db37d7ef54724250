/** Writes, checkpoints and crashes keep the invariant. */
module RecoverySteps {
  import opened Bytes
  import opened Facts
  import F = FactStore
  import opened Wal
  import W = WalWriter
  import opened Recovery

  // ----- every step keeps the invariant -----

  /** A batch with a fresh count adds exactly its contribution. */
  lemma LoadContent(hist: seq<Attempt>, ix: seq<nat>, pending: seq<Fact>, e: Entry)
    requires Bounded(ix, |hist|) && Stamped(hist) && pending == Content(hist, ix, |ix|)
    requires forall k :: 0 <= k < |ix| ==> hist[ix[k]].entry.txCount < e.txCount
    requires forall i :: 0 <= i < |e.facts| ==> e.facts[i].txCount == e.txCount
    ensures F.Novel(F.Keys(pending), e.facts, |e.facts|) == Contribution(e)
    ensures |pending| + |Contribution(e)| <= F.MAX_SLOTS ==> F.Loaded(pending, e.facts) == pending + Contribution(e)
  {
    hide F.Keys, F.Novel;
    if e.txCount > 0 { ContentTx(hist, ix, |ix|, 0, e.txCount - 1); }
    NovelFresh(pending, e.facts, |e.facts|, e.txCount);
  }

  /** Record an attempt: in the history, and in the log where it is whole. */
  ghost function Recorded(b: State, a: Attempt, logged: bool): State {
    b.(hist := b.hist + [a], wal := if logged then b.wal + [|b.hist|] else b.wal)
  }

  ghost predicate Batch(e: Entry) {
    forall i :: 0 <= i < |e.facts| ==> e.facts[i].txCount == e.txCount
  }

  /** Recording an attempt with a count above all others keeps the names and their order. */
  lemma NamedLater(b: State, a: Attempt, logged: bool)
    requires Named(b) && Stamped(b.hist) && TxOrdered(b) && Batch(a.entry)
    requires forall i :: Alive(b, i) ==> Tx(b, i) < a.entry.txCount
    ensures var t := Recorded(b, a, logged);
      && Named(t) && Stamped(t.hist) && TxOrdered(t)
      && (forall i :: Alive(t, i) ==> Tx(t, i) <= a.entry.txCount)
      && (forall i: nat :: Promised(t, i) && i < |b.hist| ==> Promised(b, i))
  {
    var t := Recorded(b, a, logged);
    forall i: nat | Alive(t, i) ensures Tx(t, i) <= a.entry.txCount && (i < |b.hist| ==> Alive(b, i)) {
      if i < |b.hist| { assert Alive(b, i) && Tx(t, i) == Tx(b, i); }
    }
  }

  /** The main file after an attempt that is either not promised or logged with a newer count. */
  lemma DiskInvLater(b: State, a: Attempt, logged: bool)
    requires Named(b) && DiskInv(b) && Named(Recorded(b, a, logged))
    requires (a.acked ==> logged) && a.entry.txCount > b.disk.ckpt
    ensures DiskInv(Recorded(b, a, logged))
  {
    hide Content, Increasing;
    var t := Recorded(b, a, logged);
    ContentLater(b.hist, a, b.saved, |b.saved|);
    forall i: nat | Promised(t, i) ensures i in t.saved || (i in t.wal && Tx(t, i) > t.disk.ckpt) {
      if i < |b.hist| { assert Promised(b, i); }
    }
  }

  lemma DiskLater(b: State, a: Attempt, logged: bool)
    requires BaseInv(b) && Batch(a.entry) && (a.acked ==> logged) && a.entry.txCount > b.disk.ckpt
    requires forall i :: Alive(b, i) ==> Tx(b, i) < a.entry.txCount
    ensures BaseInv(Recorded(b, a, logged))
  {
    hide DiskInv, TxOrdered, Stamped, Named, Alive;
    NamedLater(b, a, logged);
    DiskInvLater(b, a, logged);
  }

  /** An attempt that is not acknowledged leaves the store as it was, whether or not it is whole in the log. */
  lemma InvFailed(s: State, a: Attempt, logged: bool, h: Handle)
    requires Inv(s) && s.handle.Some? && !a.acked && a.entry.txCount == s.handle.value.counter + 1 && Batch(a.entry)
    requires h == s.handle.value.(counter := a.entry.txCount, writer := h.writer, walCount := h.walCount, dirty := h.dirty)
    requires h.walCount >= s.handle.value.walCount && (s.handle.value.dirty ==> h.dirty)
    ensures Inv(Recorded(s, a, logged).(handle := Some(h)))
  {
    var b := Base(s);
    var t := Recorded(b, a, logged);
    NamedLater(b, a, logged);
    DiskLater(b, a, logged);
    ContentLater(b.hist, a, h.applied, |h.applied|);
    hide BaseInv, Content, TxOrdered, Stamped, Increasing;
    assert PendingInv(t, h);
    assert HandleInv(t, h);
    assert Base(Recorded(s, a, logged).(handle := Some(h))) == t;
  }

  /** A logged and applied attempt. */
  lemma InvApplied(s: State, a: Attempt, h: Handle)
    requires Inv(s) && s.handle.Some? && a.acked && a.entry.txCount == s.handle.value.counter + 1 && Batch(a.entry)
    requires var was := s.handle.value;
      && h.counter == a.entry.txCount && h.walCount > 0
      && h.pending == was.pending + Contribution(a.entry)
      && h.applied == if a.entry.facts == [] then was.applied else was.applied + [|s.hist|]
    ensures Inv(Recorded(s, a, true).(handle := Some(h)))
  {
    var b, was := Base(s), s.handle.value;
    var t := Recorded(b, a, true);
    NamedLater(b, a, true);
    DiskLater(b, a, true);
    PendingApplied(b, was, a, h);
    PromisedApplied(b, was, a, h);
    hide BaseInv, PendingInv, ShowsPromised, Contribution, Stamped, TxOrdered, Increasing;
    assert CounterInv(t, h);
    assert Base(Recorded(s, a, true).(handle := Some(h))) == t;
  }

  lemma PendingApplied(b: State, was: Handle, a: Attempt, h: Handle)
    requires Named(b) && PendingInv(b, was) && a.entry.txCount > b.disk.ckpt
    requires h.pending == was.pending + Contribution(a.entry)
    requires h.applied == if a.entry.facts == [] then was.applied else was.applied + [|b.hist|]
    requires Named(Recorded(b, a, true))
    ensures PendingInv(Recorded(b, a, true), h)
  {
    AppliedLater(b, was, a, h);
    hide Increasing, Contribution, Content;
  }

  lemma PromisedApplied(b: State, was: Handle, a: Attempt, h: Handle)
    requires ShowsPromised(b, was)
    requires h.applied == if a.entry.facts == [] then was.applied else was.applied + [|b.hist|]
    ensures ShowsPromised(Recorded(b, a, true), h)
  {
    var t := Recorded(b, a, true);
    forall i: nat | Promised(t, i) ensures i in t.saved || i in h.applied {
      if i < |b.hist| { assert Promised(b, i); }
    }
  }

  lemma AppliedLater(b: State, was: Handle, a: Attempt, h: Handle)
    requires Named(b) && PendingInv(b, was)
    requires h.applied == if a.entry.facts == [] then was.applied else was.applied + [|b.hist|]
    ensures var hist := b.hist + [a];
      && Bounded(h.applied, |hist|) && Increasing(b.saved + h.applied)
      && Content(hist, h.applied, |h.applied|) == Content(b.hist, was.applied, |was.applied|) + Contribution(a.entry)
  {
    hide Content, Contribution, Increasing;
    if a.entry.facts == [] {
      ContentLater(b.hist, a, was.applied, |was.applied|);
      NoContribution(a.entry);
    } else {
      ContentGrows(b.hist, a, was.applied);
      BoundedJoin(b.saved, was.applied, |b.hist|);
      hide Named, Bounded;
      assert b.saved + h.applied == (b.saved + was.applied) + [|b.hist|];
      IncreasingSnoc(b.saved + was.applied, |b.hist|);
    }
  }

  lemma NoContribution(e: Entry)
    requires e.facts == []
    ensures Contribution(e) == []
  {}

  lemma BoundedJoin(ix: seq<nat>, more: seq<nat>, n: nat)
    requires Bounded(ix, n) && Bounded(more, n)
    ensures Bounded(ix + more, n)
  {}

  lemma ContentGrows(hist: seq<Attempt>, a: Attempt, ix: seq<nat>)
    requires Bounded(ix, |hist|)
    ensures Bounded(ix + [|hist|], |hist| + 1)
    ensures Content(hist + [a], ix + [|hist|], |ix| + 1) == Content(hist, ix, |ix|) + Contribution(a.entry)
  {
    hide Contribution;
    ContentLater(hist, a, ix, |ix|);
    ContentPrefix(hist + [a], ix, [|hist|], |ix|);
    assert (ix + [|hist|])[|ix|] == |hist|;
  }

  lemma IncreasingSnoc(ix: seq<nat>, n: nat)
    requires Increasing(ix) && Bounded(ix, n)
    ensures Increasing(ix + [n])
  {}

  lemma {:induction false} InvWrite(s: State, facts: seq<Fact>, full: bool, outcome: Outcome)
    requires Inv(s) && Legal(s, Write(facts, full, outcome))
    ensures Inv(Attempted(s, s.handle.value, facts, full, outcome))
  {
    hide Inv, Contribution, F.Keys, F.Novel;
    var h := s.handle.value;
    var e := Entry(h.counter + 1, facts);
    var mode := if h.writer.Ready? then h.writer.full else full;
    var t := Attempted(s, h, facts, full, outcome);
    var h' := t.handle.value;
    if !h.writer.Failed? && outcome == Written {
      LoadFits(s, e);
      if |h.pending| + |Contribution(e)| <= F.MAX_SLOTS {
        InvApplied(s, Attempt(e, true, mode), h');
      } else {
        InvFailed(s, Attempt(e, false, mode), true, h');
      }
    } else {
      InvFailed(s, Attempt(e, false, mode), !h.writer.Failed? && outcome == Whole, h');
    }
  }

  lemma LoadFits(s: State, e: Entry)
    requires Inv(s) && s.handle.Some? && e.txCount == s.handle.value.counter + 1 && Batch(e)
    ensures var pending := s.handle.value.pending;
      && F.Novel(F.Keys(pending), e.facts, |e.facts|) == Contribution(e)
      && F.Loaded(pending, e.facts) ==
         if |pending| + |Contribution(e)| <= F.MAX_SLOTS then pending + Contribution(e) else pending
  {
    hide Contribution, F.Keys, F.Novel, Content;
    var b, h := Base(s), s.handle.value;
    forall k | 0 <= k < |h.applied| ensures b.hist[h.applied[k]].entry.txCount < e.txCount {
      assert h.applied[k] in h.applied;
      assert Alive(b, h.applied[k]);
    }
    LoadContent(s.hist, h.applied, h.pending, e);
  }

  /** Everything visible moves into the main file. */
  lemma InvSaved(s: State)
    requires Inv(s) && s.handle.Some?
    ensures Inv(SavedState(s, s.handle.value))
  {
    var b, h := Base(s), s.handle.value;
    var t := Base(SavedState(s, h));
    BaseSaved(b, h);
    ContentEmpty(s.hist);
    assert t.saved + [] == t.saved;
    hide Content, Stamped, Increasing, TxOrdered;
    forall i: nat | Alive(t, i) ensures Alive(b, i) {}
    forall i: nat | Promised(t, i) ensures Promised(b, i) {}
    assert HandleInv(t, SavedState(s, h).handle.value);
  }

  lemma SavedContent(b: State, h: Handle)
    requires Named(b) && DiskInv(b) && PendingInv(b, h)
    ensures Bounded(b.saved + h.applied, |b.hist|) && Increasing(b.saved + h.applied)
    ensures b.disk.facts + h.pending == Content(b.hist, b.saved + h.applied, |b.saved + h.applied|)
    ensures forall i :: i in b.saved + h.applied <==> i in b.saved || i in h.applied
  {
    hide Content, Increasing;
    ContentJoin(b.hist, b.saved, h.applied, |h.applied|);
    InSeq(b.saved, h.applied);
  }

  lemma SavedNamed(b: State, h: Handle)
    requires Named(b) && PendingInv(b, h) && Bounded(b.saved + h.applied, |b.hist|)
    requires forall i :: i in b.saved + h.applied <==> i in b.saved || i in h.applied
    ensures Named(Base(SavedState(b, h)))
  {
    hide Content, Increasing;
  }

  lemma SavedOrdered(b: State, h: Handle)
    requires Named(b) && PendingInv(b, h) && TxOrdered(b)
    requires forall i :: i in b.saved + h.applied <==> i in b.saved || i in h.applied
    ensures TxOrdered(Base(SavedState(b, h)))
  {
    hide Content, Increasing;
    var t := Base(SavedState(b, h));
    forall i: nat | Alive(t, i) ensures Alive(b, i) {}
  }

  lemma BaseSaved(b: State, h: Handle)
    requires BaseInv(b) && HandleInv(b, h)
    ensures BaseInv(Base(SavedState(b, h))) && Increasing(b.saved + h.applied)
    ensures forall i :: i in b.saved + h.applied <==> i in b.saved || i in h.applied
  {
    hide Content, Stamped, Increasing, TxOrdered;
    SavedContent(b, h);
    SavedNamed(b, h);
    SavedOrdered(b, h);
    assert DiskInv(Base(SavedState(b, h)));
  }

  lemma {:induction false} InvCheckpoint(s: State, saves: bool, damages: bool, deletes: bool)
    requires Inv(s) && s.handle.Some?
    ensures Inv(Checkpointed(s, s.handle.value, saves, damages, deletes))
  {
    var h := s.handle.value;
    if h.walCount == 0 && !h.dirty {
      InvIdle(s, h.(writer := W.Closed));
      if deletes { InvDeleted(s.(handle := Some(h.(writer := W.Closed)))); }
    } else if saves {
      InvSaved(s);
      var t := SavedState(s, h);
      InvIdle(t, t.handle.value.(writer := W.Closed));
      InvIdle(t, t.handle.value.(writer := W.Closed, walCount := 0));
      if deletes { InvDeleted(t.(handle := Some(t.handle.value.(writer := W.Closed, walCount := 0)))); }
    } else {
      InvDamage(s, damages);
      InvIdle(FailedSave(s, h, damages).(handle := Some(h)), h.(dirty := true));
    }
  }

  /** The writer and the counters that only trigger checkpoints are not part of what is kept. */
  lemma InvIdle(s: State, h: Handle)
    requires Inv(s) && s.handle.Some?
    requires h == s.handle.value.(writer := h.writer, walCount := h.walCount, dirty := h.dirty)
    requires h.applied == [] || h.walCount > 0 || h.dirty
    ensures Inv(s.(handle := Some(h)))
  {
    hide BaseInv;
    assert Named(Base(s)) by { InvNamed(s); }
    assert Base(s.(handle := Some(h))) == Base(s);
  }

  lemma InvNamed(s: State)
    requires Inv(s)
    ensures Named(Base(s))
  {}

  lemma InvDamage(s: State, damages: bool)
    requires Inv(s)
    ensures Inv(s.(disk := s.disk.(damaged := s.disk.damaged || damages)))
  {
    var b, t := Base(s), Base(s.(disk := s.disk.(damaged := s.disk.damaged || damages)));
    hide Content, Stamped, Increasing;
    forall i: nat ensures Alive(t, i) == Alive(b, i) && Promised(t, i) == Promised(b, i) {}
    assert Named(t) && TxOrdered(t);
    assert DiskInv(t);
  }

  /** With nothing pending, the log holds nothing that was promised. */
  lemma InvDeleted(s: State)
    requires Inv(s) && s.handle.Some? && s.handle.value.applied == []
    ensures Inv(s.(wal := []))
  {
    var b, t := Base(s), Base(s.(wal := []));
    hide Content, Stamped;
    forall i: nat | Alive(t, i) ensures Alive(b, i) {}
    forall i: nat | Promised(t, i) ensures Promised(b, i) {}
    assert DiskInv(t);
    assert HandleInv(t, s.handle.value);
  }

  /** What a crash drops from the log is neither saved nor left in the log. */
  lemma DroppedGone(s: State, kept: nat)
    requires Named(Base(s)) && DiskInv(Base(s)) && kept <= |s.wal|
    ensures forall i :: i in Unsaved(s, kept) ==> i < |s.hist| && i !in s.saved && i !in s.wal[..kept]
    ensures forall i :: i in Unsaved(s, kept) ==> exists k :: kept <= k < |s.wal| && s.wal[k] == i
  {
    hide Content;
    forall i | i in Unsaved(s, kept) ensures i < |s.hist| && i !in s.saved && i !in s.wal[..kept] {
      var k :| kept <= k < |s.wal| && s.wal[k] == i && s.hist[s.wal[k]].entry.txCount > s.disk.ckpt;
    }
  }

  lemma CrashNamed(b: State, t: State, kept: nat)
    requires Named(b) && TxOrdered(b) && kept <= |b.wal| && t.hist == b.hist && t.wal == b.wal[..kept] && t.saved == b.saved
    requires forall i :: i in t.dropped ==> i < |b.hist| && !(b.hist[i].acked && b.hist[i].full) && i !in b.saved && i !in t.wal
    ensures Named(t) && TxOrdered(t)
  {
    forall i: nat | Alive(t, i) ensures Alive(b, i) {}
  }

  lemma CrashDisk(b: State, t: State, kept: nat)
    requires Named(b) && DiskInv(b) && Named(t) && kept <= |b.wal| && t.hist == b.hist && t.wal == b.wal[..kept] && t.saved == b.saved
    requires t.dropped == b.dropped + Unsaved(b, kept) && t.disk.facts == b.disk.facts && t.disk.ckpt == b.disk.ckpt
    ensures DiskInv(t)
  {
    hide Content, Increasing;
    forall i: nat | Promised(t, i) ensures i in t.saved || (i in t.wal && Tx(t, i) > t.disk.ckpt) {
      assert Promised(b, i);
      if i !in b.saved {
        var k :| 0 <= k < |b.wal| && b.wal[k] == i;
        if k < kept { assert t.wal[k] == i; }
      }
    }
  }

  lemma {:induction false} InvCrash(s: State, damages: bool, kept: nat)
    requires Inv(s) && Legal(s, Crash(damages, kept))
    ensures Inv(Step(s, Crash(damages, kept)))
  {
    var b, t := Base(s), Step(s, Crash(damages, kept));
    DroppedGone(s, kept);
    hide Stamped, Content, Increasing, TxOrdered;
    CrashNamed(b, t, kept);
    hide Named;
    assert Unsaved(b, kept) == Unsaved(s, kept);
    CrashDisk(b, t, kept);
    assert Base(t) == t;
  }
}
