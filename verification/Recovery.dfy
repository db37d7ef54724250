/**
 * The durability protocol of one database: log, apply, save, delete the log, crash, reopen.
 * Every run keeps each acknowledged transaction exactly once, each failed one in full or not at all.
 */
module Recovery {
  import opened Bytes
  import opened Facts
  import opened FactStore
  import opened Wal
  import opened WalWriter

  /** A transaction handed to the database, and whether it was acknowledged, in which sync mode. */
  datatype Attempt = Attempt(entry: Entry, acked: bool, full: bool)

  /** The main file: its facts, `last_checkpointed_tx_count`, and whether its checksum may mismatch. */
  datatype Disk = Disk(facts: seq<Fact>, ckpt: nat, damaged: bool)

  /** An open database. `applied` are the attempts its pending facts come from. */
  datatype Handle = Handle(pending: seq<Fact>, counter: nat, writer: Writer, walCount: nat, dirty: bool, applied: seq<nat>)

  /** `saved` and `wal` name the attempts whose facts are in the main file and whose entries are whole in the log;
      `dropped` those whose entries a power loss took from the log before they were saved. */
  datatype State = State(hist: seq<Attempt>, disk: Disk, saved: seq<nat>, wal: seq<nat>, handle: Option<Handle>, dropped: set<nat>)

  /** What the operating system does to one append. */
  datatype Outcome = OpenError | TooLarge | Torn | Whole | Written

  datatype Event =
    | Write(facts: seq<Fact>, full: bool, outcome: Outcome)
    | Checkpoint(saves: bool, damages: bool, deletes: bool)
    | Save(saves: bool, damages: bool)           // the storage's own save when it is dropped dirty
    | Crash(damages: bool, kept: nat)            // `kept` whole log entries survive
    | Reopen(rebuilds: bool, full: bool, logFound: bool)

  // ----- what an attempt contributes -----

  /** A transaction's facts without duplicates within it. */
  function Contribution(e: Entry): seq<Fact> {
    Novel({}, e.facts, |e.facts|)
  }

  ghost predicate Bounded(ix: seq<nat>, n: nat) {
    forall k :: 0 <= k < |ix| ==> ix[k] < n
  }

  ghost predicate Increasing(ix: seq<nat>) {
    forall j, k :: 0 <= j < k < |ix| ==> ix[j] < ix[k]
  }

  /** The contributions of the first `n` named attempts, in order. */
  ghost function Content(hist: seq<Attempt>, ix: seq<nat>, n: nat): seq<Fact>
    requires n <= |ix| && Bounded(ix, |hist|)
  {
    if n == 0 then [] else Content(hist, ix, n - 1) + Contribution(hist[ix[n - 1]].entry)
  }

  function MaxTx(facts: seq<Fact>, n: nat): nat
    requires n <= |facts|
  {
    if n == 0 then 0
    else if facts[n - 1].txCount > MaxTx(facts, n - 1) then facts[n - 1].txCount else MaxTx(facts, n - 1)
  }

  function Max(a: nat, b: nat): nat { if a < b then b else a }

  /** Replay of the first `n` log entries newer than `ckpt`; None when a batch does not fit. */
  ghost function Replay(es: seq<Entry>, ckpt: nat, n: nat): Option<seq<Fact>>
    requires n <= |es|
  {
    if n == 0 then Some([])
    else
      match Replay(es, ckpt, n - 1)
      case None => None
      case Some(pending) =>
        if es[n - 1].txCount <= ckpt then Some(pending)
        else if |pending| + |Novel(Keys(pending), es[n - 1].facts, |es[n - 1].facts|)| > MAX_SLOTS then None
        else Some(Loaded(pending, es[n - 1].facts))
  }

  ghost function ReplayCount(es: seq<Entry>, ckpt: nat, n: nat): nat
    requires n <= |es|
  {
    if n == 0 then 0 else ReplayCount(es, ckpt, n - 1) + if es[n - 1].txCount <= ckpt then 0 else 1
  }

  ghost function EntriesAt(hist: seq<Attempt>, ix: seq<nat>): (r: seq<Entry>)
    requires Bounded(ix, |hist|)
    ensures |r| == |ix| && forall k :: 0 <= k < |ix| ==> r[k] == hist[ix[k]].entry
  {
    seq(|ix|, k requires 0 <= k < |ix| => hist[ix[k]].entry)
  }

  /** The attempts a replay brings back: newer than `ckpt`, and with any facts at all. */
  ghost function Replayed(hist: seq<Attempt>, wal: seq<nat>, ckpt: nat, n: nat): (r: seq<nat>)
    requires n <= |wal| && Bounded(wal, |hist|)
  {
    if n == 0 then []
    else
      var e := hist[wal[n - 1]].entry;
      Replayed(hist, wal, ckpt, n - 1) + if e.txCount > ckpt && e.facts != [] then [wal[n - 1]] else []
  }

  // ----- the steps -----

  ghost predicate Legal(s: State, ev: Event) {
    && Bounded(s.wal, |s.hist|)
    && match ev
       case Write(facts, full, outcome) =>
         && s.handle.Some?
         && var h := s.handle.value;
            && h.counter + 1 < 0x1_0000_0000_0000_0000
            && (forall i :: 0 <= i < |facts| ==> facts[i].txCount == h.counter + 1)
            && (outcome == OpenError ==> h.writer.Closed?)
       case Checkpoint(_, _, _) => s.handle.Some?
       case Save(_, _) => s.handle.Some? && s.handle.value.dirty
       case Crash(_, kept) =>
         kept <= |s.wal| && forall k :: kept <= k < |s.wal| ==> !(s.hist[s.wal[k]].acked && s.hist[s.wal[k]].full)
       case Reopen(rebuilds, _, logFound) =>
         s.handle.None? && (rebuilds ==> s.disk.damaged) && (s.wal != [] ==> logFound)
  }

  /** The write path: allocate a count, log the batch, then apply it. */
  ghost function Attempted(s: State, h: Handle, facts: seq<Fact>, full: bool, outcome: Outcome): State
    requires h.counter + 1 < 0x1_0000_0000_0000_0000
  {
    var e := Entry(h.counter + 1, facts);
    var id := |s.hist|;
    var next := h.(counter := h.counter + 1);
    var mode := if h.writer.Ready? then h.writer.full else full;
    var failed := s.(hist := s.hist + [Attempt(e, false, mode)]);
    if h.writer.Failed? || outcome == OpenError then failed.(handle := Some(next))
    else
      match outcome
      case OpenError => failed
      case TooLarge => failed.(handle := Some(next.(writer := Ready(mode))))
      case Torn => failed.(handle := Some(next.(writer := Failed)))
      case Whole => failed.(wal := s.wal + [id], handle := Some(next.(writer := Failed)))
      case Written =>
        var fits := |h.pending| + |Novel(Keys(h.pending), facts, |facts|)| <= MAX_SLOTS;
        s.(hist := s.hist + [Attempt(e, fits, mode)], wal := s.wal + [id],
           handle := Some(next.(writer := Ready(mode), walCount := h.walCount + 1, dirty := true,
                                pending := Loaded(h.pending, facts),
                                applied := if fits && facts != [] then h.applied + [id] else h.applied)))
  }

  /** Store all visible facts with the transaction counter, atomically by the header write. */
  ghost function SavedState(s: State, h: Handle): State {
    s.(disk := Disk(s.disk.facts + h.pending, h.counter, false), saved := s.saved + h.applied,
       handle := Some(h.(pending := [], applied := [], dirty := false)))
  }

  ghost function FailedSave(s: State, h: Handle, damages: bool): State {
    s.(disk := s.disk.(damaged := s.disk.damaged || damages), handle := Some(h.(dirty := true)))
  }

  ghost function Checkpointed(s: State, h: Handle, saves: bool, damages: bool, deletes: bool): State {
    if h.walCount == 0 && !h.dirty then
      s.(wal := if deletes then [] else s.wal, handle := Some(h.(writer := Closed)))
    else if !saves then FailedSave(s, h, damages)
    else
      var t := SavedState(s, h);
      var h' := t.handle.value.(writer := Closed);
      if deletes then t.(wal := [], handle := Some(h'.(walCount := 0))) else t.(handle := Some(h'))
  }

  /** Open: rebuild after a checksum mismatch, then replay the log. Fails, closed, when a batch does not fit. */
  ghost function Reopened(s: State, rebuilds: bool, full: bool, logFound: bool): State
    requires Bounded(s.wal, |s.hist|)
  {
    var disk := if rebuilds then Disk(s.disk.facts, MaxTx(s.disk.facts, |s.disk.facts|), false) else s.disk;
    var es := EntriesAt(s.hist, s.wal);
    match Replay(es, disk.ckpt, |es|)
    case None => s.(disk := disk)
    case Some(pending) =>
      s.(disk := disk,
         handle := Some(Handle(pending, Max(disk.ckpt, MaxTx(pending, |pending|)), if logFound then Ready(full) else Closed,
                               ReplayCount(es, disk.ckpt, |es|), false, Replayed(s.hist, s.wal, disk.ckpt, |s.wal|))))
  }

  /** The log entries from `kept` on that were not yet saved. */
  ghost function Unsaved(s: State, kept: nat): set<nat>
    requires Bounded(s.wal, |s.hist|)
  {
    set k | kept <= k < |s.wal| && s.hist[s.wal[k]].entry.txCount > s.disk.ckpt :: s.wal[k]
  }

  ghost function Step(s: State, ev: Event): State
    requires Legal(s, ev)
  {
    match ev
    case Write(facts, full, outcome) => Attempted(s, s.handle.value, facts, full, outcome)
    case Checkpoint(saves, damages, deletes) => Checkpointed(s, s.handle.value, saves, damages, deletes)
    case Save(saves, damages) => if saves then SavedState(s, s.handle.value) else FailedSave(s, s.handle.value, damages)
    case Crash(damages, kept) =>
      s.(disk := s.disk.(damaged := s.disk.damaged || damages), wal := s.wal[..kept], handle := None,
         dropped := s.dropped + Unsaved(s, kept))
    case Reopen(rebuilds, full, logFound) => Reopened(s, rebuilds, full, logFound)
  }

  // ----- the invariant -----

  ghost predicate Stamped(hist: seq<Attempt>) {
    forall i, j :: 0 <= i < |hist| && 0 <= j < |hist[i].entry.facts| ==>
      hist[i].entry.facts[j].txCount == hist[i].entry.txCount
  }

  /** An attempt that left something to recover. */
  ghost predicate Alive(s: State, i: nat) {
    i < |s.hist| && s.hist[i].entry.facts != [] && (i in s.saved || i in s.wal)
  }

  function Tx(s: State, i: nat): nat
    requires i < |s.hist|
  {
    s.hist[i].entry.txCount
  }

  ghost predicate Named(s: State) {
    && Bounded(s.saved, |s.hist|) && Increasing(s.saved) && Bounded(s.wal, |s.hist|) && Increasing(s.wal)
    && (forall i :: i in s.saved ==> s.hist[i].entry.facts != [])
    && (forall i :: i in s.dropped ==> i < |s.hist| && !(s.hist[i].acked && s.hist[i].full) && i !in s.saved && i !in s.wal)
  }

  ghost predicate TxOrdered(s: State) {
    forall i, j :: Alive(s, i) && Alive(s, j) && i < j ==> Tx(s, i) < Tx(s, j)
  }

  /** Acknowledged with facts to show for it, and not itself dropped from the log. */
  ghost predicate Promised(s: State, i: nat) {
    i < |s.hist| && s.hist[i].acked && s.hist[i].entry.facts != [] && i !in s.dropped
  }

  ghost predicate DiskInv(s: State)
    requires Named(s)
  {
    && s.disk.facts == Content(s.hist, s.saved, |s.saved|)
    && (forall i :: i in s.saved ==> Tx(s, i) <= s.disk.ckpt)
    && (forall i :: Promised(s, i) ==> i in s.saved || (i in s.wal && Tx(s, i) > s.disk.ckpt))
  }

  /** The pending facts are those of logged attempts made after all saved ones. */
  ghost predicate PendingInv(s: State, h: Handle)
    requires Named(s)
  {
    && Bounded(h.applied, |s.hist|) && Increasing(s.saved + h.applied)
    && (forall i :: i in h.applied ==> i in s.wal && s.hist[i].entry.facts != [] && Tx(s, i) > s.disk.ckpt)
    && h.pending == Content(s.hist, h.applied, |h.applied|)
  }

  ghost predicate CounterInv(s: State, h: Handle) {
    s.disk.ckpt <= h.counter && forall i :: Alive(s, i) ==> Tx(s, i) <= h.counter
  }

  ghost predicate ShowsPromised(s: State, h: Handle) {
    forall i :: Promised(s, i) ==> i in s.saved || i in h.applied
  }

  ghost predicate HandleInv(s: State, h: Handle)
    requires Named(s)
  {
    && PendingInv(s, h) && CounterInv(s, h) && ShowsPromised(s, h)
    && (h.applied != [] ==> h.walCount > 0 || h.dirty)
  }

  /** What is on disk, whatever the handle. */
  ghost function Base(s: State): State { s.(handle := None) }

  ghost predicate BaseInv(b: State) {
    Stamped(b.hist) && Named(b) && TxOrdered(b) && DiskInv(b)
  }

  ghost predicate Inv(s: State) {
    BaseInv(Base(s)) && (s.handle.Some? ==> HandleInv(Base(s), s.handle.value))
  }

  // ----- contributions -----

  lemma {:induction false} NovelStamp(keys: set<PendingKey>, fs: seq<Fact>, n: nat, tx: nat)
    requires n <= |fs| && forall i :: 0 <= i < |fs| ==> fs[i].txCount == tx
    ensures forall i :: 0 <= i < |Novel(keys, fs, n)| ==> Novel(keys, fs, n)[i].txCount == tx
    ensures n > 0 && keys == {} ==> Novel(keys, fs, n) != []
  {
    hide KeyOf;
    if n > 0 { NovelStamp(keys, fs, n - 1, tx); }
  }

  /** No pending fact of another transaction is a duplicate. */
  lemma {:induction false} NovelFresh(pending: seq<Fact>, fs: seq<Fact>, n: nat, tx: nat)
    requires n <= |fs| && forall i :: 0 <= i < |fs| ==> fs[i].txCount == tx
    requires forall i :: 0 <= i < |pending| ==> pending[i].txCount != tx
    ensures Novel(Keys(pending), fs, n) == Novel({}, fs, n)
  {
    if n > 0 {
      NovelFresh(pending, fs, n - 1, tx);
      assert KeyOf(fs[n - 1]).txCount == tx;
      assert KeyOf(fs[n - 1]) !in Keys(pending);
    }
  }

  lemma {:induction false} MaxTxBounds(facts: seq<Fact>, n: nat)
    requires n <= |facts|
    ensures forall i :: 0 <= i < n ==> facts[i].txCount <= MaxTx(facts, n)
    ensures MaxTx(facts, n) == 0 || exists i :: 0 <= i < n && facts[i].txCount == MaxTx(facts, n)
  {
    if n > 0 { MaxTxBounds(facts, n - 1); }
  }

  /** Attempts recorded later change nothing. */
  lemma {:induction false} ContentLater(hist: seq<Attempt>, a: Attempt, ix: seq<nat>, n: nat)
    requires n <= |ix| && Bounded(ix, |hist|)
    ensures Bounded(ix, |hist + [a]|) && Content(hist + [a], ix, n) == Content(hist, ix, n)
  {
    if n > 0 { ContentLater(hist, a, ix, n - 1); }
  }

  lemma {:induction false} ContentJoin(hist: seq<Attempt>, ix: seq<nat>, more: seq<nat>, n: nat)
    requires n <= |more| && Bounded(ix, |hist|) && Bounded(more, |hist|)
    ensures Bounded(ix + more, |hist|)
    ensures Content(hist, ix + more, |ix| + n) == Content(hist, ix, |ix|) + Content(hist, more, n)
  {
    hide Contribution;
    assert Bounded(ix + more, |hist|);
    if n > 0 {
      ContentJoin(hist, ix, more, n - 1);
      assert (ix + more)[|ix| + n - 1] == more[n - 1];
      Assoc(Content(hist, ix, |ix|), Content(hist, more, n - 1), Contribution(hist[more[n - 1]].entry));
    } else {
      ContentPrefix(hist, ix, more, |ix|);
    }
  }

  lemma {:induction false} ContentPrefix(hist: seq<Attempt>, ix: seq<nat>, more: seq<nat>, n: nat)
    requires n <= |ix| && Bounded(ix, |hist|) && Bounded(ix + more, |hist|)
    ensures Content(hist, ix + more, n) == Content(hist, ix, n)
  {
    if n > 0 {
      ContentPrefix(hist, ix, more, n - 1);
      assert (ix + more)[n - 1] == ix[n - 1];
    }
  }

  /** The transaction counts in a content are exactly those of its attempts. */
  lemma {:induction false} ContentTx(hist: seq<Attempt>, ix: seq<nat>, n: nat, lo: nat, hi: nat)
    requires n <= |ix| && Bounded(ix, |hist|) && Stamped(hist)
    requires forall k :: 0 <= k < n ==> lo <= hist[ix[k]].entry.txCount <= hi
    ensures forall j :: 0 <= j < |Content(hist, ix, n)| ==> lo <= Content(hist, ix, n)[j].txCount <= hi
  {
    if n > 0 {
      ContentTx(hist, ix, n - 1, lo, hi);
      var e := hist[ix[n - 1]].entry;
      NovelStamp({}, e.facts, |e.facts|, e.txCount);
    }
  }

  lemma {:induction false} ContentReaches(hist: seq<Attempt>, ix: seq<nat>, n: nat, k: nat)
    requires k < n <= |ix| && Bounded(ix, |hist|) && Stamped(hist) && hist[ix[k]].entry.facts != []
    ensures exists j :: 0 <= j < |Content(hist, ix, n)| && Content(hist, ix, n)[j].txCount == hist[ix[k]].entry.txCount
  {
    var before := Content(hist, ix, n - 1);
    if k < n - 1 {
      ContentReaches(hist, ix, n - 1, k);
      var j :| 0 <= j < |before| && before[j].txCount == hist[ix[k]].entry.txCount;
      assert Content(hist, ix, n)[j] == before[j];
    } else {
      var e := hist[ix[k]].entry;
      NovelStamp({}, e.facts, |e.facts|, e.txCount);
      assert Content(hist, ix, n)[|before|] == Contribution(e)[0];
    }
  }

  lemma InSeq(ix: seq<nat>, more: seq<nat>)
    ensures forall i :: i in ix + more <==> i in ix || i in more
  {}

  lemma Assoc(a: seq<Fact>, b: seq<Fact>, c: seq<Fact>)
    ensures (a + b) + c == a + (b + c)
  {}

  lemma ContentEmpty(hist: seq<Attempt>)
    ensures Content(hist, [], 0) == []
  {}
}
