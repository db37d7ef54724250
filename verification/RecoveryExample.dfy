/** A run in which a failed transaction comes back after a rebuild. */
module RecoveryExample {
  import opened Bytes
  import opened Facts
  import opened Wal
  import opened Recovery
  import opened RecoveryRuns
  import F = FactStore
  import W = WalWriter

  lemma LoadOne(f: Fact)
    ensures F.Novel(F.Keys([]), [f], 1) == [f] && F.Loaded([], [f]) == [f]
  {
    assert F.Keys([]) == {};
    assert F.Novel({}, [f], 0) == [];
  }

  ghost function First(f: Fact): Attempt { Attempt(Entry(1, [f]), true, true) }
  ghost function Second(g: Fact): Attempt { Attempt(Entry(2, [g]), false, true) }

  ghost function Opened(): State { Fresh().(handle := Some(Handle([], 0, W.Closed, 0, false, []))) }

  /** One acknowledged write. */
  ghost function WrittenOne(f: Fact): State {
    State([First(f)], Disk([], 0, false), [], [0], Some(Handle([f], 1, W.Ready(true), 1, true, [0])), {})
  }

  /** Then one that fails after all its bytes are written. */
  ghost function WrittenTwo(f: Fact, g: Fact): State {
    State([First(f), Second(g)], Disk([], 0, false), [], [0, 1], Some(Handle([f], 2, W.Failed, 1, true, [0])), {})
  }

  /** Then a checkpoint that cannot delete the log. */
  ghost function Checkpointed(f: Fact, g: Fact): State {
    State([First(f), Second(g)], Disk([f], 2, false), [0], [0, 1], Some(Handle([], 2, W.Closed, 1, false, [])), {})
  }

  /** Then a crash that damages an index page. */
  ghost function Crashed(f: Fact, g: Fact): State {
    State([First(f), Second(g)], Disk([f], 2, true), [0], [0, 1], None, {})
  }

  /** Then a rebuild: the failed write is shown. */
  ghost function Rebuilt(f: Fact, g: Fact): State {
    State([First(f), Second(g)], Disk([f], 1, false), [0], [0, 1], Some(Handle([g], 2, W.Ready(true), 1, false, [1])), {})
  }

  ghost predicate Steps(s: State, ev: Event, t: State) { Legal(s, ev) && Step(s, ev) == t }

  lemma Opens()
    ensures Steps(Fresh(), Reopen(false, true, false), Opened())
  {
    assert EntriesAt([], []) == [];
  }

  lemma WritesOne(f: Fact)
    requires f.txCount == 1
    ensures Steps(Opened(), Write([f], true, Written), WrittenOne(f))
  {
    LoadOne(f);
    hide F.Novel, F.Loaded, F.Keys;
    assert Opened().hist + [First(f)] == [First(f)] && Opened().wal + [0] == [0] && [] + [0] == [0];
  }

  lemma WritesTwo(f: Fact, g: Fact)
    requires g.txCount == 2
    ensures Steps(WrittenOne(f), Write([g], true, Whole), WrittenTwo(f, g))
  {
    hide F.Novel, F.Loaded, F.Keys;
    assert [First(f)] + [Second(g)] == [First(f), Second(g)] && [0] + [1] == [0, 1];
  }

  lemma Checkpoints(f: Fact, g: Fact)
    ensures Steps(WrittenTwo(f, g), Checkpoint(true, false, false), Checkpointed(f, g))
  {
    assert [] + [f] == [f] && [] + [0] == [0];
  }

  lemma Crashes(f: Fact, g: Fact)
    ensures Steps(Checkpointed(f, g), Crash(true, 2), Crashed(f, g))
  {
    assert [0, 1][..2] == [0, 1];
    assert Unsaved(Checkpointed(f, g), 2) == {};
  }

  lemma Rebuilds(f: Fact, g: Fact)
    requires f.txCount == 1 && g.txCount == 2
    ensures Steps(Crashed(f, g), Reopen(true, true, true), Rebuilt(f, g))
  {
    var hist, es := [First(f), Second(g)], [Entry(1, [f]), Entry(2, [g])];
    assert Bounded([0, 1], |hist|);
    assert EntriesAt(hist, [0, 1]) == es;
    OneMax(f);
    OneMax(g);
    ReplayTwo(f, g);
    ReplayedTwo(hist, es);
    hide Replay, ReplayCount, Replayed, MaxTx, EntriesAt;
  }

  lemma OneMax(f: Fact)
    ensures MaxTx([f], 1) == f.txCount
  {
    assert MaxTx([f], 0) == 0;
  }

  lemma ReplayedTwo(hist: seq<Attempt>, es: seq<Entry>)
    requires |hist| == |es| == 2 && hist[0].entry == es[0] && hist[1].entry == es[1]
    requires es[0].txCount == 1 && es[1].txCount == 2 && es[1].facts != [] && Bounded([0, 1], 2)
    ensures Replayed(hist, [0, 1], 1, 2) == [1] && ReplayCount(es, 1, 2) == 1
  {
    assert Replayed(hist, [0, 1], 1, 0) == [] && Replayed(hist, [0, 1], 1, 1) == [];
    assert ReplayCount(es, 1, 0) == 0 && ReplayCount(es, 1, 1) == 0;
  }

  lemma ReplayTwo(f: Fact, g: Fact)
    ensures Replay([Entry(1, [f]), Entry(2, [g])], 1, 2) == Some([g])
  {
    LoadOne(g);
    var es := [Entry(1, [f]), Entry(2, [g])];
    assert Replay(es, 1, 0) == Some([]);
    assert Replay(es, 1, 1) == Some([]);
    hide F.Novel, F.Loaded, F.Keys;
  }

  /** In one run, a write that failed is not shown after a checkpoint, and is shown after a crash and a rebuild. */
  lemma {:induction false} FailedWriteReturns(f: Fact, g: Fact) returns (states: seq<State>, events: seq<Event>)
    requires f.txCount == 1 && g.txCount == 2
    ensures Run(states, events) && |events| == 6 && states[4].handle.Some? && states[6].handle.Some?
    ensures |states[6].hist| == 2 && !states[6].hist[1].acked && 1 !in Shown(states[4]) && 1 in Shown(states[6]) && Shadowed(states[5], 1)
  {
    states, events := WholeRun(f, g);
    ThenShown(f, g);
    hide Run, Shadowed, Shown, Step, Legal, MaxTx;
  }

  lemma WholeRun(f: Fact, g: Fact) returns (states: seq<State>, events: seq<Event>)
    requires f.txCount == 1 && g.txCount == 2
    ensures Run(states, events) && |events| == 6
    ensures states[4] == Checkpointed(f, g) && states[5] == Crashed(f, g) && states[6] == Rebuilt(f, g)
  {
    Opens();
    WritesOne(f);
    WritesTwo(f, g);
    Checkpoints(f, g);
    Crashes(f, g);
    Rebuilds(f, g);
    hide Step, Legal, Run, Steps, Fresh, Opened, WrittenOne, WrittenTwo, Checkpointed, Crashed, Rebuilt;
    RunStarts();
    states, events := RunGrows([Fresh()], [], Fresh(), Reopen(false, true, false), Opened());
    states, events := RunGrows(states, events, Opened(), Write([f], true, Written), WrittenOne(f));
    states, events := RunGrows(states, events, WrittenOne(f), Write([g], true, Whole), WrittenTwo(f, g));
    states, events := RunGrows(states, events, WrittenTwo(f, g), Checkpoint(true, false, false), Checkpointed(f, g));
    states, events := RunGrows(states, events, Checkpointed(f, g), Crash(true, 2), Crashed(f, g));
    states, events := RunGrows(states, events, Crashed(f, g), Reopen(true, true, true), Rebuilt(f, g));
  }

  lemma RunStarts()
    ensures Run([Fresh()], [])
  {}

  lemma RunGrows(states: seq<State>, events: seq<Event>, s: State, ev: Event, t: State) returns (states': seq<State>, events': seq<Event>)
    requires |states| == |events| + 1 && Run(states, events) && states[|events|] == s && Steps(s, ev, t)
    ensures Run(states', events') && |events'| == |events| + 1 && |states'| == |states| + 1 && states'[|events'|] == t
    ensures forall i :: 0 <= i < |states| ==> states'[i] == states[i]
  {
    hide Step, Legal;
    states', events' := states + [t], events + [ev];
    forall i | 0 <= i < |events'| ensures Legal(states'[i], events'[i]) && states'[i + 1] == Step(states'[i], events'[i]) {
      if i < |events| { assert states'[i] == states[i] && states'[i + 1] == states[i + 1] && events'[i] == events[i]; }
    }
  }

  lemma ThenShown(f: Fact, g: Fact)
    requires f.txCount == 1
    ensures Shown(Checkpointed(f, g)) == [0] && Shown(Rebuilt(f, g)) == [0, 1] && Shadowed(Crashed(f, g), 1)
  {
    OneMax(f);
    hide MaxTx;
    assert [0] + [1] == [0, 1] && [0] + [] == [0];
    assert Crashed(f, g).wal[1] == 1;
  }
}
