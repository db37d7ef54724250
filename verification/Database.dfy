/** The database object: the write path, checkpoints and recovery over real log bytes, refining the protocol. */
module Database {
  import opened Bytes
  import opened Facts
  import opened Wal
  import W = WalWriter
  import F = FactStore
  import R = Recovery
  import RecoverySteps
  import RecoveryReplay
  import RecoveryRuns

  const VALID_FROM_USE_TX_TIME: i64 := -0x8000_0000_0000_0000

  function CastSigned(n: u64): i64 {
    if n < 0x8000_0000_0000_0000 then n else n - 0x1_0000_0000_0000_0000
  }

  /** One transaction's facts get its id and count; an assertion without a start gets the id as its time, modulo 2^64. */
  function Stamp(batch: seq<Fact>, txId: u64, tx: u64): (r: seq<Fact>)
    ensures |r| == |batch| && forall i :: 0 <= i < |r| ==> r[i].txCount == tx
    ensures forall i :: 0 <= i < |r| ==> r[i] == batch[i].(txId := txId, txCount := tx, validFrom := r[i].validFrom)
    ensures forall i :: 0 <= i < |r| ==>
      if batch[i].asserted && batch[i].validFrom == VALID_FROM_USE_TX_TIME
      then (r[i].validFrom - txId) % 0x1_0000_0000_0000_0000 == 0
      else r[i].validFrom == batch[i].validFrom
  {
    seq(|batch|, i requires 0 <= i < |batch| =>
      batch[i].(txId := txId, txCount := tx,
                validFrom := if batch[i].asserted && batch[i].validFrom == VALID_FROM_USE_TX_TIME then CastSigned(txId)
                             else batch[i].validFrom))
  }

  // ----- the log and the history -----

  /** How the operating system treats one append: the open, the bytes it takes, and whether it reports success. */
  datatype Io = Io(opens: bool, written: nat, succeeds: bool)

  function Taken(f: Format, e: Entry, io: Io): (r: nat)
    ensures f.Writable(e) ==> r <= |f.Serialize(e)|
  {
    if f.Writable(e) && io.written > |f.Serialize(e)| then |f.Serialize(e)| else io.written
  }

  /** The log after one append, opened first when no writer is there. */
  function Appended(f: Format, s: W.Log, e: Entry, full: bool, io: Io): W.Log {
    if s.writer.Closed? && !io.opens then s
    else W.AppendLog(f, if s.writer.Closed? then W.OpenLog(f, s, full) else s, e, Taken(f, e, io), io.succeeds)
  }

  function OutcomeOf(f: Format, s: W.Log, e: Entry, io: Io): R.Outcome {
    if s.writer.Closed? && !io.opens then R.OpenError
    else if !f.Writable(e) then R.TooLarge
    else if io.succeeds then R.Written
    else if Taken(f, e, io) == |f.Serialize(e)| then R.Whole
    else R.Torn
  }

  ghost predicate HeaderOk(b: seq<byte>) {
    |b| >= HEADER_LEN ==> b[..HEADER_LEN] == W.Header()
  }

  /** The log file holds exactly the named attempts, in order, and syncs those acknowledged in Full mode. */
  ghost predicate LogMatches(f: Format, s: W.Log, hist: seq<R.Attempt>, wal: seq<nat>) {
    && W.Inv(f, s) && HeaderOk(s.bytes)
    && R.Bounded(wal, |hist|) && W.Recovered(f, s) == R.EntriesAt(hist, wal)
    && |wal| <= |s.plan|
    && forall k :: 0 <= k < |wal| ==> hist[wal[k]].acked && hist[wal[k]].full ==> s.plan[k].acked && s.plan[k].full
  }

  lemma OpenMatches(f: Format, s: W.Log, full: bool, hist: seq<R.Attempt>, wal: seq<nat>)
    requires f.Valid() && LogMatches(f, s, hist, wal) && s.writer.Closed?
    ensures LogMatches(f, W.OpenLog(f, s, full), hist, wal) && |W.OpenLog(f, s, full).plan| == |wal|
  {
    W.InvOpen(f, s, full);
    W.OpenRecovers(f, s, full);
    hide W.Inv, W.Header;
    var t := W.OpenLog(f, s, full);
    if |s.bytes| >= HEADER_LEN { ScanStarts(f, s.bytes, HEADER_LEN); }
    assert HeaderOk(t.bytes);
  }

  lemma {:induction false} ScanStarts(f: Format, b: seq<byte>, pos: nat)
    ensures f.Scan(b, pos).1 >= pos
    decreases |b| - pos
  {
    match f.ParseEntry(b, pos)
    case None =>
    case Some((e, end)) => ScanStarts(f, b, end);
  }

  /** Attempts that never reach the log leave it matching. */
  lemma HistoryGrows(f: Format, s: W.Log, hist: seq<R.Attempt>, wal: seq<nat>, a: R.Attempt)
    requires LogMatches(f, s, hist, wal)
    ensures LogMatches(f, s, hist + [a], wal)
  {
    hide W.Inv, HeaderOk;
    assert R.EntriesAt(hist + [a], wal) == R.EntriesAt(hist, wal);
  }

  lemma AppendMatches(f: Format, s: W.Log, hist: seq<R.Attempt>, wal: seq<nat>, a: R.Attempt, taken: nat, ok: bool)
    requires f.Valid() && LogMatches(f, s, hist, wal) && s.writer.Ready? && f.Writable(a.entry)
    requires taken <= |f.Serialize(a.entry)| && (a.acked ==> ok && (a.full ==> s.writer.full))
    ensures var logged := ok || taken == |f.Serialize(a.entry)|;
      LogMatches(f, W.AppendLog(f, s, a.entry, taken, ok), hist + [a], if logged then wal + [|hist|] else wal)
  {
    hide W.Inv, W.Header, Format.Serialize, Format.Scan, SerializeAll, Format.Writable, HeaderOk;
    W.InvAppend(f, s, a.entry, taken, ok);
    W.AppendRecovers(f, s, a.entry, taken, ok);
    W.ReadyAtEnd(f, s);
    W.LogEnd(f, s);
    HistoryGrows(f, s, hist, wal, a);
    var t := W.AppendLog(f, s, a.entry, taken, ok);
    HeaderGrows(s.bytes, t.bytes);
    if ok || taken == |f.Serialize(a.entry)| {
      EntriesGrow(hist, wal, a);
    } else {
      assert W.Recovered(f, s) + [] == W.Recovered(f, s);
    }
  }

  lemma HeaderGrows(b: seq<byte>, c: seq<byte>)
    requires HeaderOk(b) && |b| >= HEADER_LEN && b <= c
    ensures HeaderOk(c)
  {
    assert c[..HEADER_LEN] == b[..HEADER_LEN];
  }

  lemma EntriesGrow(hist: seq<R.Attempt>, wal: seq<nat>, a: R.Attempt)
    requires R.Bounded(wal, |hist|)
    ensures R.Bounded(wal + [|hist|], |hist| + 1)
    ensures R.EntriesAt(hist + [a], wal + [|hist|]) == R.EntriesAt(hist, wal) + [a.entry]
  {}

  /** One append, opened or not: the log matches the history with this attempt recorded. */
  lemma AppendedMatches(f: Format, s: W.Log, hist: seq<R.Attempt>, wal: seq<nat>, a: R.Attempt, full: bool, io: Io)
    requires f.Valid() && LogMatches(f, s, hist, wal)
    requires a.full == if s.writer.Ready? then s.writer.full else full
    requires a.acked ==> Logs(f, s, a.entry, io)
    ensures LogMatches(f, Appended(f, s, a.entry, full, io), hist + [a], if Logged(f, s, a.entry, io) then wal + [|hist|] else wal)
  {
    hide W.Inv, W.OpenLog, Format.Serialize, Format.Scan, Format.Writable, LogMatches;
    if s.writer.Closed? && !io.opens {
      HistoryGrows(f, s, hist, wal, a);
    } else {
      if s.writer.Closed? {
        OpenMatches(f, s, full, hist, wal);
        OpenReady(f, s, full);
      }
      var r := if s.writer.Closed? then W.OpenLog(f, s, full) else s;
      if r.writer.Ready? && f.Writable(a.entry) {
        AppendMatches(f, r, hist, wal, a, Taken(f, a.entry, io), io.succeeds);
      } else {
        HistoryGrows(f, r, hist, wal, a);
      }
    }
  }

  lemma OpenReady(f: Format, s: W.Log, full: bool)
    ensures W.OpenLog(f, s, full).writer == W.Ready(full)
  {}

  lemma LossMatches(f: Format, s: W.Log, hist: seq<R.Attempt>, wal: seq<nat>, kept: nat)
    requires f.Valid() && LogMatches(f, s, hist, wal) && s.synced <= kept <= |s.bytes|
    ensures var t := W.Log(s.bytes[..kept], kept, W.Closed, s.plan);
      var n := |W.Recovered(f, t)|;
      && n <= |wal| && LogMatches(f, t, hist, wal[..n])
      && (forall k :: n <= k < |wal| ==> !(hist[wal[k]].acked && hist[wal[k]].full))
  {
    W.InvPowerLoss(f, s, kept);
    W.PowerLossRecovers(f, s, kept);
    hide W.Inv, W.Header, Format.Scan;
    var t := W.Log(s.bytes[..kept], kept, W.Closed, s.plan);
    var n := |W.Recovered(f, t)|;
    assert n <= |wal|;
    EntriesCut(hist, wal, n);
    hide W.Recovered, R.EntriesAt;
    assert HeaderOk(t.bytes);
  }

  lemma EntriesCut(hist: seq<R.Attempt>, wal: seq<nat>, n: nat)
    requires R.Bounded(wal, |hist|) && n <= |wal|
    ensures R.Bounded(wal[..n], |hist|) && R.EntriesAt(hist, wal[..n]) == R.EntriesAt(hist, wal)[..n]
  {}

  lemma NoLogMatches(f: Format, hist: seq<R.Attempt>)
    ensures LogMatches(f, W.NoLog(), hist, [])
  {
    W.ScanNothing(f, []);
  }

  lemma CloseMatches(f: Format, s: W.Log, hist: seq<R.Attempt>, wal: seq<nat>)
    requires LogMatches(f, s, hist, wal)
    ensures LogMatches(f, s.(writer := W.Closed), hist, wal)
  {}

  /** The protocol's event for one append. */
  function WriteEvent(f: Format, l: W.Log, e: Entry, full: bool, io: Io): R.Event {
    R.Write(e.facts, full, OutcomeOf(f, l, e, io))
  }

  /** The append was written and acknowledged by the log. */
  predicate Logs(f: Format, l: W.Log, e: Entry, io: Io) { !l.writer.Failed? && OutcomeOf(f, l, e, io) == R.Written }

  ghost predicate Fits(pending: seq<Fact>, fs: seq<Fact>) {
    |pending| + |F.Novel(F.Keys(pending), fs, |fs|)| <= F.MAX_SLOTS
  }

  /** What a write makes of the handle and the history, in terms of the log's own state. */
  ghost predicate AfterWrite(f: Format, s: R.State, l: W.Log, e: Entry, full: bool, io: Io, t: R.State)
    requires s.handle.Some?
  {
    var h, ok := s.handle.value, Logs(f, l, e, io);
    && t.hist == s.hist + [R.Attempt(e, ok && Fits(h.pending, e.facts), if l.writer.Ready? then l.writer.full else full)]
    && t.disk == s.disk && t.saved == s.saved && t.dropped == s.dropped && t.handle.Some?
    && t.handle.value == R.Handle(if ok then F.Loaded(h.pending, e.facts) else h.pending, e.txCount,
                                  Appended(f, l, e, full, io).writer, h.walCount + (if ok then 1 else 0), ok || h.dirty,
                                  t.handle.value.applied)
  }

  /** Whether an append ends up whole in the log. */
  predicate Logged(f: Format, l: W.Log, e: Entry, io: Io) {
    !l.writer.Failed? && (OutcomeOf(f, l, e, io) == R.Whole || OutcomeOf(f, l, e, io) == R.Written)
  }

  lemma WriteStep(f: Format, s: R.State, l: W.Log, e: Entry, full: bool, io: Io)
    requires s.handle.Some? && s.handle.value.writer == l.writer
    requires e.txCount == s.handle.value.counter + 1 && R.Legal(s, WriteEvent(f, l, e, full, io))
    ensures var t := R.Step(s, WriteEvent(f, l, e, full, io));
      AfterWrite(f, s, l, e, full, io, t) && t.wal == if Logged(f, l, e, io) then s.wal + [|s.hist|] else s.wal
  {
    hide Appended, OutcomeOf, F.Novel, F.Keys, F.Loaded;
    AppendedWriter(f, l, e, full, io);
  }

  /** The writer an append leaves. */
  lemma AppendedWriter(f: Format, l: W.Log, e: Entry, full: bool, io: Io)
    ensures var o := OutcomeOf(f, l, e, io);
      Appended(f, l, e, full, io).writer ==
        if l.writer.Failed? || o == R.OpenError then l.writer
        else if o == R.Torn || o == R.Whole then W.Failed
        else W.Ready(if l.writer.Ready? then l.writer.full else full)
  {
    hide Format.Writable, Format.Serialize, Format.Scan;
  }

  /** `t` follows from `s` by the protocol's write step for this batch, and `ok` is its acknowledgement. */
  ghost predicate WriteOf(f: Format, s: R.State, l: W.Log, batch: seq<Fact>, txId: u64, full: bool, io: Io, t: R.State, ok: bool) {
    && s.handle.Some? && s.handle.value.counter + 1 < 0x1_0000_0000_0000_0000
    && var tx := s.handle.value.counter + 1;
       var e := Entry(tx, Stamp(batch, txId, tx));
       && R.Legal(s, WriteEvent(f, l, e, full, io)) && t == R.Step(s, WriteEvent(f, l, e, full, io))
       && |t.hist| == |s.hist| + 1 && t.hist[|s.hist|].entry == e && t.hist[|s.hist|].acked == ok
  }

  /** A write keeps the invariant, and the log matches the history it leaves. */
  lemma WriteKeeps(f: Format, s: R.State, l: W.Log, e: Entry, full: bool, io: Io)
    requires f.Valid() && R.Inv(s) && LogMatches(f, l, s.hist, s.wal)
    requires s.handle.Some? && s.handle.value.writer == l.writer
    requires e.txCount == s.handle.value.counter + 1 && RecoverySteps.Batch(e)
    ensures R.Legal(s, WriteEvent(f, l, e, full, io))
    ensures var t := R.Step(s, WriteEvent(f, l, e, full, io));
      && R.Inv(t) && LogMatches(f, Appended(f, l, e, full, io), t.hist, t.wal) && AfterWrite(f, s, l, e, full, io, t)
  {
    hide R.Inv, R.Step, R.Legal, F.Novel, F.Keys, F.Loaded, Appended, OutcomeOf, LogMatches;
    HeaderMatches(f, l, s.hist, s.wal);
    LegalWrite(f, s, l, e, full, io);
    RecoveryRuns.InvStep(s, WriteEvent(f, l, e, full, io));
    WriteStep(f, s, l, e, full, io);
    AppendedMatches(f, l, s.hist, s.wal, R.Step(s, WriteEvent(f, l, e, full, io)).hist[|s.hist|], full, io);
  }

  // ----- the object -----

  /** The main file, the log beside it, and the open handle if there is one. */
  class Database {
    const format: Format
    const full: bool
    const threshold: nat
    var disk: R.Disk
    var log: W.LogFile
    var store: F.Store
    var isOpen: bool
    var walCount: nat
    var dirty: bool
    /** The protocol state this object stands for. */
    ghost var state: R.State

    ghost predicate Valid()
      reads this, log, store, store.indexes
    {
      && format.Valid() && store.Valid() && R.Inv(state) && LogMatches(format, log.State(), state.hist, state.wal)
      && state.disk == disk && isOpen == state.handle.Some?
      && if isOpen then Shows(state.handle.value) && store.committed == disk.facts else log.writer.Closed?
    }

    ghost predicate Shows(h: R.Handle)
      reads this, log, store
    {
      h == R.Handle(store.facts, store.counter, log.writer, walCount, dirty, h.applied)
    }

    constructor (format: Format, full: bool, threshold: nat)
      requires format.Valid()
      ensures Valid() && state == RecoveryRuns.Fresh() && this.format == format
    {
      this.format, this.full, this.threshold := format, full, threshold;
      disk, isOpen, walCount, dirty := R.Disk([], 0, false), false, 0, false;
      log := new W.LogFile();
      store := new F.Store();
      state := RecoveryRuns.Fresh();
      new;
      RecoveryRuns.FreshInv();
      NoLogMatches(format, []);
    }

    /** Log a stamped batch; reports whether it is in the log and acknowledged by it. */
    method WalWriteBatch(e: Entry, io: Io) returns (ok: bool)
      requires |e.facts| < U64_SIZE && (log.writer.Closed? ==> HeaderOk(log.bytes))
      modifies log, this`dirty, this`walCount
      ensures log.State() == Appended(format, old(log.State()), e, full, io)
      ensures ok <==> Logs(format, old(log.State()), e, io)
      ensures dirty == (ok || old(dirty)) && walCount == old(walCount) + if ok then 1 else 0
    {
      if log.writer.Closed? {
        if !io.opens { return false; }
        ok := log.OpenOrCreate(format, full);
      }
      ok := log.AppendEntry(format, e, Taken(format, e, io), io.succeeds);
      if ok {
        dirty := true;
        walCount := walCount + 1;
      }
    }

    /** Log an entry, and once it is there apply it. `ok` is what the caller is told. */
    method LogAndApply(e: Entry, io: Io) returns (ok: bool)
      requires |e.facts| < U64_SIZE && (log.writer.Closed? ==> HeaderOk(log.bytes)) && store.Valid()
      modifies log, this`dirty, this`walCount, store`facts, store`keys, store.indexes
      ensures store.Valid() && log.State() == Appended(format, old(log.State()), e, full, io)
      ensures var logged := Logs(format, old(log.State()), e, io);
        && dirty == (logged || old(dirty)) && walCount == old(walCount) + (if logged then 1 else 0)
        && store.facts == (if logged then F.Loaded(old(store.facts), e.facts) else old(store.facts))
        && ok == (logged && Fits(old(store.facts), e.facts))
    {
      hide F.Store.Valid, F.Novel, F.Keys, F.Loaded, Appended, OutcomeOf, Logs;
      ok := WalWriteBatch(e, io);
      if ok { ok := store.LoadFacts(e.facts); }
    }

    /** The write path of one transaction, up to its automatic checkpoint. */
    method WriteBatch(batch: seq<Fact>, txId: u64, io: Io) returns (ok: bool)
      requires Valid() && isOpen && |batch| < U64_SIZE && store.counter + 1 < 0x1_0000_0000_0000_0000
      modifies this, log, store, store.indexes
      ensures Valid() && isOpen && log == old(log) && store == old(store) && store.indexes == old(store.indexes)
      ensures WriteOf(format, old(state), old(log.State()), batch, txId, full, io, state, ok)
      ensures F.BatchOf(old(store.Shown()), store.Shown(), Stamp(batch, txId, old(store.counter) + 1), ok)
    {
      hide R.Inv, R.Step, R.Legal, LogMatches, F.Novel, F.Keys, F.Loaded, F.BatchOf, Appended, F.Store.Valid, Logs, WriteEvent;
      ghost var l, v := log.State(), store.Shown();
      HeaderMatches(format, l, state.hist, state.wal);
      var tx := store.AllocateTxCount();
      var e := Entry(tx, Stamp(batch, txId, tx));
      WriteKeeps(format, state, l, e, full, io);
      ok := LogAndApply(e, io);
      state := R.Step(state, WriteEvent(format, l, e, full, io));
      LoadIsBatch(v, e.facts, Logs(format, l, e, io), ok);
    }

    /** Write back what is pending and remove the log; nothing to do but that when nothing is pending. */
    method SaveAndRemoveLog(saves: bool, damages: bool, deletes: bool) returns (ok: bool)
      requires store.Valid() && store.committed == disk.facts && (|log.bytes| == 0 ==> log.State() == W.NoLog())
      requires state.disk == disk && state.handle.Some? && Shows(state.handle.value)
      modifies this`disk, this`walCount, this`dirty, log, store
      ensures store.Valid() && store.committed == disk.facts
      ensures store.indexes == old(store.indexes) || fresh(store.indexes)
      ensures store.Shown() == old(store.Shown()) || store.Shown() == F.Apply(old(store.Shown()), F.Checkpoint)
      ensures var gone := deletes || |old(log.bytes)| == 0;
        var t := R.Checkpointed(state, state.handle.value, saves, damages, gone);
        && t.disk == disk && t.handle.Some? && Shows(t.handle.value)
        && log.State() == LogLeft(saves || Early(state.handle.value), old(log.State()), gone)
        && ok == (gone && (saves || Early(state.handle.value)))
    {
      hide F.Store.Valid;
      if walCount == 0 && !dirty {
        ok := RemoveLog(deletes);
      } else {
        dirty := true;
        if saves {
          Save();
          ok := RemoveLog(deletes);
          if ok { walCount := 0; }
        } else {
          disk := disk.(damaged := disk.damaged || damages);
          ok := false;
        }
      }
    }

    /** A checkpoint, as the protocol's step. */
    method DoCheckpoint(saves: bool, damages: bool, deletes: bool) returns (ok: bool)
      requires Valid() && isOpen
      modifies this, log, store
      ensures Valid() && isOpen && log == old(log) && store == old(store)
      ensures store.indexes == old(store.indexes) || fresh(store.indexes)
      ensures CheckpointOf(old(state), saves, damages, deletes || |old(log.bytes)| == 0, state, ok)
      ensures store.Shown() == old(store.Shown()) || store.Shown() == F.Apply(old(store.Shown()), F.Checkpoint)
    {
      hide R.Inv, LogMatches, F.Store.Valid, R.Checkpointed, LogLeft, CheckpointOf;
      ghost var l := log.State();
      ghost var t := R.Checkpointed(state, state.handle.value, saves, damages, deletes || |l.bytes| == 0);
      CheckpointKeeps(format, state, l, saves, damages, deletes || |l.bytes| == 0);
      ok := SaveAndRemoveLog(saves, damages, deletes);
      state := t;
    }

    /** `save`: all visible facts and the counter reach the main file together, then the store is told. */
    method Save()
      requires store.Valid() && store.committed == disk.facts
      modifies this`disk, this`dirty, store
      ensures store.Valid() && store.committed == disk.facts && store.facts == [] && store.counter == old(store.counter)
      ensures disk == R.Disk(old(disk.facts) + old(store.facts), store.counter, false) && !dirty && fresh(store.indexes)
      ensures store.Shown() == F.Apply(old(store.Shown()), F.Checkpoint)
    {
      disk, dirty := R.Disk(disk.facts + store.facts, store.counter, false), false;
      store.Publish(disk.facts);
    }

    /** Drop the writer and delete the file if there is one. */
    method RemoveLog(deletes: bool) returns (ok: bool)
      requires |log.bytes| == 0 ==> log.State() == W.NoLog()
      modifies log
      ensures ok == (deletes || |old(log.bytes)| == 0)
      ensures log.State() == if ok then W.NoLog() else old(log.State()).(writer := W.Closed)
    {
      if |log.bytes| == 0 { return true; }
      log.Close();
      if deletes { log.Delete(); }
      ok := deletes;
    }

    /** One command: write, and checkpoint if and only if that was acknowledged and enough entries are now in the log. The command
        succeeds when the checkpoint completes, or, without one, when the write was acknowledged. */
    method Execute(batch: seq<Fact>, txId: u64, io: Io, saves: bool, damages: bool, deletes: bool) returns (ok: bool)
      requires Valid() && isOpen && |batch| < U64_SIZE && store.counter + 1 < 0x1_0000_0000_0000_0000
      modifies this, log, store, store.indexes
      ensures Valid() && isOpen
      ensures exists mid: R.State, acked: bool ::
        && WriteOf(format, old(state), old(log.State()), batch, txId, full, io, mid, acked)
        && mid.handle.Some? && AfterCommand(mid, acked, threshold, saves, damages, deletes, state, ok)
    {
      hide R.Inv, LogMatches, F.Store.Valid, WriteOf, CheckpointOf;
      ok := WriteBatch(batch, txId, io);
      if ok && walCount >= threshold {
        WriteLogs(format, old(state), old(log.State()), batch, txId, full, io, state);
        EmptyLog(format, log.State(), state.hist, state.wal);
        ok := DoCheckpoint(saves, damages, deletes);
      }
    }

    /** Open: rebuild if needed, replay the log, then open it for appending. */
    method Reopen(rebuilds: bool) returns (ok: bool)
      requires Valid() && !isOpen && (rebuilds ==> disk.damaged)
      modifies this, log
      ensures Valid() && isOpen == ok && log == old(log) && fresh(store) && fresh(store.indexes)
      ensures ReopenOf(old(state), rebuilds, full, |old(log.bytes)| > 0, state, ok)
    {
      hide R.Inv, LogMatches, F.Store.Valid, R.Replay, R.ReplayCount, R.MaxTx, R.Max, R.Step, R.Legal, W.OpenLog, DiskFound, Format.Valid, W.Recovered;
      ghost var l := log.State();
      HeaderMatches(format, l, state.hist, state.wal);
      ReopenKeeps(format, state, l, rebuilds, full);
      ghost var t := R.Step(state, R.Reopen(rebuilds, full, |l.bytes| > 0));
      var replayed := LoadStore(rebuilds);
      state := t;
      if replayed.None? { return false; }
      if |log.bytes| > 0 {
        OpenMatches(format, l, full, t.hist, t.wal);
        OpenReady(format, l, full);
        ok := log.OpenOrCreate(format, full);
      }
      isOpen, ok, dirty, walCount := true, true, false, replayed.value;
    }

    /** A new store over the main file, with the log replayed into it. */
    method LoadStore(rebuilds: bool) returns (r: Option<nat>)
      modifies this`disk, this`store
      ensures fresh(store) && fresh(store.indexes) && store.Valid()
      ensures disk == DiskFound(old(disk), rebuilds) && store.committed == disk.facts
      ensures var es := W.Recovered(format, log.State());
        match R.Replay(es, disk.ckpt, |es|)
        case None => r == None
        case Some(pending) =>
          && r == Some(R.ReplayCount(es, disk.ckpt, |es|)) && store.facts == pending
          && store.counter == R.Max(disk.ckpt, R.MaxTx(pending, |pending|))
    {
      hide F.Store.Valid, R.Replay, R.ReplayCount, R.MaxTx, R.Max, DiskFound, W.Recovered;
      disk := DiskFound(disk, rebuilds);
      store := new F.Store();
      store.Attach(disk.facts, disk.ckpt);
      r := ReplayWal();
    }

    /** Replay the log's entries newer than the checkpoint; the number replayed, or None when one does not fit. */
    method ReplayWal() returns (r: Option<nat>)
      requires store.Valid() && store.facts == [] && store.counter == disk.ckpt
      modifies store, store.indexes
      ensures store.Valid() && store.indexes == old(store.indexes) && store.committed == old(store.committed)
      ensures var es := W.Recovered(format, log.State());
        match R.Replay(es, disk.ckpt, |es|)
        case None => r == None
        case Some(pending) =>
          && r == Some(R.ReplayCount(es, disk.ckpt, |es|)) && store.facts == pending
          && store.counter == R.Max(disk.ckpt, R.MaxTx(pending, |pending|))
    {
      hide F.Store.Valid, F.Novel, F.Keys, F.Loaded, F.Arrivals, R.MaxTx, R.Replay, R.ReplayCount, Format.Scan, Lies;
      var entries, _, _ := ScanEntries(format, log.bytes);
      var n := 0;
      ReplayNone(entries, disk.ckpt);
      for i := 0 to |entries|
        invariant store.Valid() && store.indexes == old(store.indexes) && store.committed == old(store.committed)
        invariant store.counter == disk.ckpt
        invariant R.Replay(entries, disk.ckpt, i) == Some(store.facts) && n == R.ReplayCount(entries, disk.ckpt, i)
      {
        ReplayNext(entries, disk.ckpt, i, store.facts);
        if entries[i].txCount > disk.ckpt {
          var ok := store.LoadFacts(entries[i].facts);
          if !ok {
            ReplayStuck(entries, disk.ckpt, i + 1, |entries|);
            return None;
          }
          n := n + 1;
        }
      }
      R.MaxTxBounds(store.facts, |store.facts|);
      store.RestoreTxCounter();
      r := Some(n);
    }

    /** What the object's queries see: whole contributions, in order, with every promise kept. */
    lemma {:induction false} ShowsPromised()
      requires Valid() && isOpen
      ensures var shown := state.saved + state.handle.value.applied;
        && R.Increasing(shown) && R.Bounded(shown, |state.hist|)
        && store.committed + store.facts == R.Content(state.hist, shown, |shown|)
        && (forall i :: R.Promised(state, i) ==> i in shown)
        && RecoveryRuns.ShowsInFull(state, store.committed + store.facts, shown)
    {
      hide R.Inv, LogMatches, F.Store.Valid;
      RecoveryRuns.InvShown(state);
    }

    /** The process dies, perhaps inside a save; `kept` bytes of the log survive. */
    method Crash(damages: bool, kept: nat)
      requires Valid() && log.synced <= kept <= |log.bytes|
      modifies this, log
      ensures Valid() && !isOpen && log == old(log) && store == old(store)
      ensures CrashOf(old(state), damages, kept == |old(log.bytes)|, state)
    {
      hide R.Inv, LogMatches, F.Store.Valid, CrashOf, Lost, Format.Valid, Shows;
      state := Lost(format, state, log.State(), damages, kept);
      log.Lose(kept);
      disk := disk.(damaged := disk.damaged || damages);
      isOpen := false;
    }
  }

  ghost predicate ReopenOf(s: R.State, rebuilds: bool, full: bool, logFound: bool, t: R.State, ok: bool) {
    && R.Legal(s, R.Reopen(rebuilds, full, logFound)) && t == R.Step(s, R.Reopen(rebuilds, full, logFound))
    && ok == t.handle.Some?
  }

  /** The main file as an open finds it, after a rebuild if its checksum did not match. */
  function DiskFound(disk: R.Disk, rebuilds: bool): R.Disk {
    if rebuilds then R.Disk(disk.facts, R.MaxTx(disk.facts, |disk.facts|), false) else disk
  }

  /** Opening, in terms of the entries a scan finds. */
  lemma ReopenKeeps(f: Format, s: R.State, l: W.Log, rebuilds: bool, full: bool)
    requires f.Valid() && R.Inv(s) && s.handle.None? && LogMatches(f, l, s.hist, s.wal) && l.writer.Closed?
    requires rebuilds ==> s.disk.damaged
    ensures var es, disk, found := W.Recovered(f, l), DiskFound(s.disk, rebuilds), |l.bytes| > 0;
      && R.Legal(s, R.Reopen(rebuilds, full, found))
      && var t := R.Step(s, R.Reopen(rebuilds, full, found));
         && R.Inv(t) && t.disk == disk && t.hist == s.hist && t.wal == s.wal
         && (match R.Replay(es, disk.ckpt, |es|)
             case None => t.handle == None
             case Some(pending) =>
               && t.handle.Some?
               && t.handle.value == R.Handle(pending, R.Max(disk.ckpt, R.MaxTx(pending, |pending|)),
                                             if found then W.Ready(full) else W.Closed,
                                             R.ReplayCount(es, disk.ckpt, |es|), false, t.handle.value.applied))
  {
    HeaderMatches(f, l, s.hist, s.wal);
    LogEntries(f, l, s.hist, s.wal);
    hide R.Inv, LogMatches, R.Replay, R.MaxTx, R.ReplayCount, R.Replayed, W.Recovered;
    RecoveryReplay.InvReopen(s, rebuilds, full, |l.bytes| > 0);
  }

  lemma LogEntries(f: Format, l: W.Log, hist: seq<R.Attempt>, wal: seq<nat>)
    requires LogMatches(f, l, hist, wal)
    ensures R.Bounded(wal, |hist|) && W.Recovered(f, l) == R.EntriesAt(hist, wal) && (wal != [] ==> |l.bytes| > 0)
  {
    if |l.bytes| == 0 { W.ScanNothing(f, l.bytes); }
  }

  /** Nothing was logged or marked dirty since the last checkpoint. */
  predicate Early(h: R.Handle) { h.walCount == 0 && !h.dirty }

  /** `t` follows from `s` by the protocol's checkpoint step, and `ok` says whether it was complete. */
  /** An acknowledged write is in the log. */
  lemma WriteLogs(f: Format, s: R.State, l: W.Log, batch: seq<Fact>, txId: u64, full: bool, io: Io, t: R.State)
    requires WriteOf(f, s, l, batch, txId, full, io, t, true)
    ensures t.wal != []
  {
    hide F.Novel, F.Keys, F.Loaded;
  }

  /** What follows a write: a checkpoint if and only if it was acknowledged and left at least `threshold` entries in the log. */
  ghost predicate AfterCommand(mid: R.State, acked: bool, threshold: nat, saves: bool, damages: bool, deletes: bool, t: R.State, ok: bool)
    requires mid.handle.Some?
  {
    if acked && mid.handle.value.walCount >= threshold
    then CheckpointOf(mid, saves, damages, deletes, t, ok)
    else t == mid && ok == acked
  }

  ghost predicate CheckpointOf(s: R.State, saves: bool, damages: bool, deletes: bool, t: R.State, ok: bool) {
    && s.handle.Some? && R.Bounded(s.wal, |s.hist|)
    && var h := s.handle.value;
       t == R.Step(s, R.Checkpoint(saves, damages, deletes))
       && ok == (deletes && (saves || Early(h)))
  }

  /** The log file a checkpoint leaves. */
  function LogLeft(saved: bool, l: W.Log, deletes: bool): W.Log {
    if !saved then l else if deletes then W.NoLog() else l.(writer := W.Closed)
  }

  lemma CheckpointKeeps(f: Format, s: R.State, l: W.Log, saves: bool, damages: bool, deletes: bool)
    requires R.Inv(s) && LogMatches(f, l, s.hist, s.wal) && s.handle.Some?
    ensures |l.bytes| == 0 ==> l == W.NoLog()
    ensures var h := s.handle.value;
      var t := R.Checkpointed(s, h, saves, damages, deletes);
      && R.Inv(t) && LogMatches(f, LogLeft(saves || Early(h), l, deletes), t.hist, t.wal)
      && CheckpointOf(s, saves, damages, deletes, t, deletes && (saves || Early(h)))
  {
    EmptyLog(f, l, s.hist, s.wal);
    hide R.Inv, LogMatches;
    HeaderMatches(f, l, s.hist, s.wal);
    RecoverySteps.InvCheckpoint(s, saves, damages, deletes);
    CloseMatches(f, l, s.hist, s.wal);
    NoLogMatches(f, s.hist);
    CheckpointLog(s, saves, damages, deletes);
    hide R.Checkpointed;
  }

  lemma CheckpointLog(s: R.State, saves: bool, damages: bool, deletes: bool)
    requires s.handle.Some?
    ensures var t := R.Checkpointed(s, s.handle.value, saves, damages, deletes);
      t.hist == s.hist && t.wal == if deletes && (saves || Early(s.handle.value)) then [] else s.wal
  {}

  /** A replay that does not fit once never does. */
  lemma ReplayNone(es: seq<Entry>, ckpt: nat)
    ensures R.Replay(es, ckpt, 0) == Some([]) && R.ReplayCount(es, ckpt, 0) == 0
  {}

  lemma ReplayNext(es: seq<Entry>, ckpt: nat, i: nat, pending: seq<Fact>)
    requires i < |es| && R.Replay(es, ckpt, i) == Some(pending)
    ensures var e := es[i];
      && R.ReplayCount(es, ckpt, i + 1) == R.ReplayCount(es, ckpt, i) + (if e.txCount > ckpt then 1 else 0)
      && R.Replay(es, ckpt, i + 1) ==
         (if e.txCount <= ckpt then Some(pending)
          else if |pending| + |F.Novel(F.Keys(pending), e.facts, |e.facts|)| > F.MAX_SLOTS then None
          else Some(F.Loaded(pending, e.facts)))
  {
    hide F.Novel, F.Keys, F.Loaded;
  }

  lemma {:induction false} ReplayStuck(es: seq<Entry>, ckpt: nat, i: nat, n: nat)
    requires i <= n <= |es| && R.Replay(es, ckpt, i) == None
    ensures R.Replay(es, ckpt, n) == None
  {
    if i < n { ReplayStuck(es, ckpt, i, n - 1); }
  }

  lemma EmptyLog(f: Format, l: W.Log, hist: seq<R.Attempt>, wal: seq<nat>)
    requires LogMatches(f, l, hist, wal)
    ensures |l.bytes| == 0 ==> l == W.NoLog() && wal == []
  {
    hide W.Header;
    if |l.bytes| == 0 { assert |W.Recovered(f, l)| == 0; }
  }

  /** `t` follows from `s` by a crash; a process crash keeps the whole log. */
  ghost predicate CrashOf(s: R.State, damages: bool, whole: bool, t: R.State) {
    exists n :: R.Legal(s, R.Crash(damages, n)) && t == R.Step(s, R.Crash(damages, n)) && (whole ==> n == |s.wal|)
  }

  ghost function Lost(f: Format, s: R.State, l: W.Log, damages: bool, kept: nat): (t: R.State)
    requires f.Valid() && R.Inv(s) && LogMatches(f, l, s.hist, s.wal) && l.synced <= kept <= |l.bytes|
    ensures R.Inv(t) && CrashOf(s, damages, kept == |l.bytes|, t)
    ensures LogMatches(f, W.Log(l.bytes[..kept], kept, W.Closed, l.plan), t.hist, t.wal)
    ensures t == R.State(s.hist, s.disk.(damaged := s.disk.damaged || damages), s.saved, t.wal, None, t.dropped)
  {
    HeaderMatches(f, l, s.hist, s.wal);
    LossMatches(f, l, s.hist, s.wal, kept);
    assert kept == |l.bytes| ==> l.bytes[..kept] == l.bytes;
    var n := |W.Recovered(f, W.Log(l.bytes[..kept], kept, W.Closed, l.plan))|;
    assert kept == |l.bytes| ==> n == |s.wal|;
    hide R.Inv, W.Inv, LogMatches, W.Recovered;
    assert R.Legal(s, R.Crash(damages, n));
    RecoverySteps.InvCrash(s, damages, n);
    R.Step(s, R.Crash(damages, n))
  }

  /** Claiming a count, logging a batch and loading it is one transaction of the store, or none. */
  lemma LoadIsBatch(v: F.View, fs: seq<Fact>, logged: bool, ok: bool)
    requires forall i :: 0 <= i < |fs| ==> fs[i].txCount == v.counter + 1
    requires ok == (logged && Fits(v.pending, fs))
    ensures F.BatchOf(v, F.View(v.committed, if logged then F.Loaded(v.pending, fs) else v.pending, v.counter + 1), fs, ok)
  {
    F.LoadIsBatch(v, fs, ok);
    hide F.Novel, F.Keys, F.BatchOf;
  }

  lemma HeaderMatches(f: Format, s: W.Log, hist: seq<R.Attempt>, wal: seq<nat>)
    requires LogMatches(f, s, hist, wal)
    ensures HeaderOk(s.bytes) && R.Bounded(wal, |hist|)
  {}

  lemma LegalWrite(f: Format, s: R.State, l: W.Log, e: Entry, full: bool, io: Io)
    requires s.handle.Some? && s.handle.value.writer == l.writer && R.Bounded(s.wal, |s.hist|)
    requires e.txCount == s.handle.value.counter + 1 && RecoverySteps.Batch(e)
    ensures R.Legal(s, WriteEvent(f, l, e, full, io))
  {}
}
