/** Whole runs of the durability protocol. */
module RecoveryRuns {
  import opened Bytes
  import opened Facts
  import F = FactStore
  import opened Wal
  import opened Recovery
  import opened RecoverySteps
  import opened RecoveryReplay

  lemma {:induction false} InvStep(s: State, ev: Event)
    requires Inv(s) && Legal(s, ev)
    ensures Inv(Step(s, ev))
  {
    hide Inv, Attempted, Checkpointed, SavedState, Reopened;
    match ev
    case Write(facts, full, outcome) => InvWrite(s, facts, full, outcome);
    case Checkpoint(saves, damages, deletes) => InvCheckpoint(s, saves, damages, deletes);
    case Save(saves, damages) => if saves { InvSaved(s); } else { InvFailedSave(s, damages); }
    case Crash(damages, kept) => InvCrash(s, damages, kept);
    case Reopen(rebuilds, full, logFound) => InvReopen(s, rebuilds, full, logFound);
  }

  lemma InvFailedSave(s: State, damages: bool)
    requires Inv(s) && s.handle.Some?
    ensures Inv(FailedSave(s, s.handle.value, damages))
  {
    InvDamage(s, damages);
    InvIdle(FailedSave(s, s.handle.value, damages).(handle := s.handle), s.handle.value.(dirty := true));
  }

  // ----- whole runs -----

  /** A new database: an empty main file and no log. */
  function Fresh(): State { State([], Disk([], 0, false), [], [], None, {}) }

  lemma FreshInv()
    ensures Inv(Fresh())
  {
    ContentEmpty([]);
  }

  ghost predicate Run(states: seq<State>, events: seq<Event>) {
    && |states| == |events| + 1 && states[0] == Fresh()
    && forall i :: 0 <= i < |events| ==> Legal(states[i], events[i]) && states[i + 1] == Step(states[i], events[i])
  }

  lemma {:induction false} RunInv(states: seq<State>, events: seq<Event>, n: nat)
    requires Run(states, events) && n <= |events|
    ensures Inv(states[n])
  {
    hide Inv;
    if n == 0 {
      FreshInv();
    } else {
      RunInv(states, events, n - 1);
      InvStep(states[n - 1], events[n - 1]);
    }
  }

  /** All facts a query of an open database sees. */
  function Visible(s: State): seq<Fact>
    requires s.handle.Some?
  {
    s.disk.facts + s.handle.value.pending
  }

  /** Every one of these facts is visible, up to duplicates. */
  ghost predicate InFull(visible: seq<Fact>, facts: seq<Fact>) {
    forall j :: 0 <= j < |facts| ==> IsVisible(visible, facts[j])
  }

  ghost predicate IsVisible(visible: seq<Fact>, f: Fact) { exists g :: g in visible && F.Duplicate(g, f) }

  /** A transaction contributes its facts in order, each duplicate once. */
  lemma {:induction false} ContributionArrives(e: Entry)
    ensures Contribution(e) == F.Arrivals([], e.facts, |e.facts|) && InFull(Contribution(e), e.facts)
  {
    assert F.Keys([]) == {};
    F.NovelArrives([], e.facts, |e.facts|);
    forall j | 0 <= j < |e.facts| ensures IsVisible(Contribution(e), e.facts[j]) {
      F.NovelCovers([], e.facts, j);
      var g :| g in [] + F.Novel(F.Keys([]), e.facts, |e.facts|) && F.Duplicate(g, e.facts[j]);
    }
  }

  lemma InFullMore(small: seq<Fact>, big: seq<Fact>, facts: seq<Fact>)
    requires InFull(small, facts) && forall g :: g in small ==> g in big
    ensures InFull(big, facts)
  {
    forall j | 0 <= j < |facts| ensures IsVisible(big, facts[j]) {
      assert IsVisible(small, facts[j]);
      var g :| g in small && F.Duplicate(g, facts[j]);
      assert g in big;
    }
  }

  /** The content of named attempts holds each of them in full, and nothing that none of them wrote. */
  lemma {:induction false} ContentInFull(hist: seq<Attempt>, ix: seq<nat>, n: nat)
    requires n <= |ix| && Bounded(ix, |hist|)
    ensures forall k :: 0 <= k < n ==> InFull(Content(hist, ix, n), hist[ix[k]].entry.facts)
    ensures forall g :: g in Content(hist, ix, n) ==> exists k :: 0 <= k < n && g in hist[ix[k]].entry.facts
  {
    hide InFull, Contribution;
    if n > 0 {
      ContentInFull(hist, ix, n - 1);
      var before, e := Content(hist, ix, n - 1), hist[ix[n - 1]].entry;
      ContributionArrives(e);
      ContributionFrom(e);
      forall k | 0 <= k < n ensures InFull(before + Contribution(e), hist[ix[k]].entry.facts) {
        if k < n - 1 {
          InFullMore(before, before + Contribution(e), hist[ix[k]].entry.facts);
        } else {
          InFullMore(Contribution(e), before + Contribution(e), e.facts);
        }
      }
    }
  }

  lemma ContributionFrom(e: Entry)
    ensures forall g :: g in Contribution(e) ==> g in e.facts
  {
    F.NovelFrom({}, e.facts, |e.facts|);
  }

  /** Each shown attempt is visible in full, and whatever is visible was written by one of them. */
  ghost predicate ShowsInFull(s: State, visible: seq<Fact>, shown: seq<nat>) {
    && (forall i :: i in shown && i < |s.hist| ==> InFull(visible, s.hist[i].entry.facts))
    && (forall g :: g in visible ==> exists i :: i in shown && i < |s.hist| && g in s.hist[i].entry.facts)
  }

  /**
   * At every point of every run, an open database shows exactly the contributions of some attempts,
   * each once and in the order they were made: every acknowledged one that no power loss dropped from the
   * log, and of the failed ones each in full or not at all. All facts of a shown attempt are visible, up to
   * duplicates, and none but theirs. Nothing acknowledged in Full mode is ever dropped.
   */
  lemma {:induction false} Durable(states: seq<State>, events: seq<Event>, n: nat)
    requires Run(states, events) && n <= |events| && states[n].handle.Some?
    ensures var s := states[n];
      var shown := s.saved + s.handle.value.applied;
      && Increasing(shown) && Bounded(shown, |s.hist|)
      && Visible(s) == Content(s.hist, shown, |shown|)
      && (forall i :: Promised(s, i) ==> i in shown)
      && (forall i :: i in s.dropped ==> i < |s.hist| && !(s.hist[i].acked && s.hist[i].full) && i !in shown)
      && ShowsInFull(s, Visible(s), shown)
  {
    RunInv(states, events, n);
    InvShown(states[n]);
  }

  lemma InvShown(s: State)
    requires Inv(s) && s.handle.Some?
    ensures var shown := s.saved + s.handle.value.applied;
      && Increasing(shown) && Bounded(shown, |s.hist|)
      && Visible(s) == Content(s.hist, shown, |shown|)
      && (forall i :: Promised(s, i) ==> i in shown)
      && (forall i :: i in s.dropped ==> i < |s.hist| && !(s.hist[i].acked && s.hist[i].full) && i !in shown)
      && ShowsInFull(s, Visible(s), shown)
  {
    hide Content, Increasing, Stamped, TxOrdered, CounterInv;
    var applied := s.handle.value.applied;
    ContentJoin(s.hist, s.saved, applied, |applied|);
    InSeq(s.saved, applied);
    forall i: nat | Promised(s, i) ensures Promised(Base(s), i) {}
    InFullShown(s, s.saved + applied);
  }

  lemma InFullShown(s: State, shown: seq<nat>)
    requires Bounded(shown, |s.hist|)
    ensures ShowsInFull(s, Content(s.hist, shown, |shown|), shown)
  {
    hide Content, InFull;
    ContentInFull(s.hist, shown, |shown|);
    var visible := Content(s.hist, shown, |shown|);
    forall i | i in shown && i < |s.hist| ensures InFull(visible, s.hist[i].entry.facts) {
      var k :| 0 <= k < |shown| && shown[k] == i;
    }
    forall g | g in visible ensures exists i :: i in shown && i < |s.hist| && g in s.hist[i].entry.facts {
      var k :| 0 <= k < |shown| && g in s.hist[shown[k]].entry.facts;
      assert shown[k] in shown;
    }
  }

  /** A process crash drops nothing. */
  lemma {:induction false} CrashDropsNothing(s: State, damages: bool)
    requires Legal(s, Crash(damages, |s.wal|))
    ensures Step(s, Crash(damages, |s.wal|)).dropped == s.dropped
  {
    assert Unsaved(s, |s.wal|) == {};
  }

  /** A process crash at any point, even inside a save, followed by a successful reopen: all that was shown still is. */
  lemma {:induction false} CrashKeepsShown(s: State, damages: bool, rebuilds: bool, full: bool, logFound: bool)
    requires Inv(s) && s.handle.Some? && Legal(s, Crash(damages, |s.wal|))
    requires var c := Step(s, Crash(damages, |s.wal|));
      Legal(c, Reopen(rebuilds, full, logFound)) && Step(c, Reopen(rebuilds, full, logFound)).handle.Some?
    ensures var t := Step(Step(s, Crash(damages, |s.wal|)), Reopen(rebuilds, full, logFound));
      t.saved == s.saved && forall i :: i in s.handle.value.applied ==> i in t.handle.value.applied
  {
    var c := Step(s, Crash(damages, |s.wal|));
    assert c.wal == s.wal;
    InvCrash(s, damages, |s.wal|);
    ReopenBase(c, rebuilds, full, logFound);
    var t := Step(c, Reopen(rebuilds, full, logFound));
    ReplayAfterSaved(Base(t));
    hide BaseInv, Reopened, Content, Replayed;
    forall i | i in s.handle.value.applied ensures i in t.handle.value.applied {
      assert Tx(Base(s), i) == Tx(Base(t), i);
    }
  }

  lemma ReopenBase(c: State, rebuilds: bool, full: bool, logFound: bool)
    requires Inv(c) && Legal(c, Reopen(rebuilds, full, logFound))
    ensures var t := Step(c, Reopen(rebuilds, full, logFound));
      && BaseInv(Base(t)) && t.hist == c.hist && t.saved == c.saved && t.wal == c.wal && t.disk.ckpt <= c.disk.ckpt
      && (t.handle.Some? ==> t.handle.value.applied == Replayed(c.hist, c.wal, t.disk.ckpt, |c.wal|))
  {
    InvReopen(c, rebuilds, full, logFound);
    hide BaseInv, MaxTx, Replay, ReplayCount, Replayed;
    RebuiltCount(Base(c));
  }

  // ----- what a rebuild brings back -----

  ghost function Shown(s: State): seq<nat>
    requires s.handle.Some?
  {
    s.saved + s.handle.value.applied
  }

  /** Whole in the log with facts, between the saved counts and the recorded checkpoint. */
  ghost predicate Shadowed(s: State, i: nat) {
    i < |s.hist| && i in s.wal && s.hist[i].entry.facts != []
    && MaxTx(s.disk.facts, |s.disk.facts|) < s.hist[i].entry.txCount <= s.disk.ckpt
  }

  /**
   * A rebuild shows an attempt that a plain open of the same files does not if and only if it is shadowed. Such an
   * attempt was not acknowledged, and nothing that a plain open shows is lost.
   */
  lemma {:induction false} RebuildBringsBack(s: State, full: bool, logFound: bool, i: nat)
    requires Inv(s) && Legal(s, Reopen(true, full, logFound)) && Legal(s, Reopen(false, full, logFound))
    requires Step(s, Reopen(true, full, logFound)).handle.Some? && Step(s, Reopen(false, full, logFound)).handle.Some?
    ensures var rebuilt, plain := Shown(Step(s, Reopen(true, full, logFound))), Shown(Step(s, Reopen(false, full, logFound)));
      && (i in rebuilt && i !in plain <==> Shadowed(s, i))
      && (i in plain ==> i in rebuilt)
      && (Shadowed(s, i) ==> !Promised(s, i))
  {
    assert Base(s) == s;
    RebuiltCount(s);
    RebuiltDisk(s, full, logFound);
    ReopenShows(s, true, full, logFound, i);
    ReopenShows(s, false, full, logFound, i);
    ShadowedUnpromised(s, i);
    hide Inv, BaseInv, Step, Shown, MaxTx, Promised;
  }

  /** What an open shows: the saved attempts, and those of the log above the checkpoint. */
  lemma ReopenShows(s: State, rebuilds: bool, full: bool, logFound: bool, i: nat)
    requires Inv(s) && Legal(s, Reopen(rebuilds, full, logFound)) && Step(s, Reopen(rebuilds, full, logFound)).handle.Some?
    ensures var t := Step(s, Reopen(rebuilds, full, logFound));
      i in Shown(t) <==>
        i in s.saved || (i in s.wal && i < |s.hist| && s.hist[i].entry.facts != [] && s.hist[i].entry.txCount > t.disk.ckpt)
  {
    var t := Step(s, Reopen(rebuilds, full, logFound));
    ReopenBase(s, rebuilds, full, logFound);
    ReplayAfterSaved(Base(t));
    InSeq(s.saved, t.handle.value.applied);
    hide BaseInv, Reopened, Replayed;
  }

  lemma RebuiltDisk(s: State, full: bool, logFound: bool)
    requires Legal(s, Reopen(true, full, logFound)) && Legal(s, Reopen(false, full, logFound))
    ensures Step(s, Reopen(true, full, logFound)).disk.ckpt == MaxTx(s.disk.facts, |s.disk.facts|)
    ensures Step(s, Reopen(false, full, logFound)).disk == s.disk
  {
    hide MaxTx, Replay;
  }

  lemma ShadowedUnpromised(s: State, i: nat)
    requires Inv(s) && s.handle.None?
    ensures Shadowed(s, i) ==> i !in s.saved && !Promised(s, i)
  {
    assert Base(s) == s;
    RebuiltCount(s);
    hide MaxTx, Content;
  }
}
