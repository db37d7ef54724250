/** The WAL writer over every run: opens, appends that succeed or tear, and power losses. */
module WalWriter {
  import opened Bytes
  import opened Wal

  /** `MWAL`, version 1, reserved zeros. */
  function Header(): (r: seq<byte>)
    ensures |r| == HEADER_LEN
  {
    [0x4D, 0x57, 0x41, 0x4C, 1, 0, 0, 0] + seq(24, _ => 0)
  }

  /** An entry handed to the writer: whether the append was acknowledged, and in Full sync mode. */
  datatype Planned = Planned(entry: Entry, acked: bool, full: bool)

  datatype Writer = Closed | Ready(full: bool) | Failed

  /** The file and its writer. `synced` bytes are on stable storage; `plan` is every entry written
      since the start of the file, whole or torn. */
  datatype Log = Log(bytes: seq<byte>, synced: nat, writer: Writer, plan: seq<Planned>)

  datatype Event =
    | Open(full: bool)
    | CrashInCreate(kept: nat)                     // the header write itself is cut short
    | Append(entry: Entry, written: nat, ok: bool) // `written` bytes reach the file before an error
    | PowerLoss(kept: nat)                         // any byte prefix that covers the last sync
    | Close                                        // the writer is dropped
    | Delete                                       // the file is removed

  function EntriesOf(plan: seq<Planned>): (r: seq<Entry>)
    ensures |r| == |plan| && forall i :: 0 <= i < |plan| ==> r[i] == plan[i].entry
  {
    seq(|plan|, i requires 0 <= i < |plan| => plan[i].entry)
  }

  predicate Legal(f: Format, s: Log, ev: Event) {
    match ev
    case Open(_) => s.writer.Closed?
    case CrashInCreate(kept) => s.writer.Closed? && |s.bytes| < HEADER_LEN && kept < HEADER_LEN
    case Append(e, written, ok) => !s.writer.Closed? && |e.facts| < U64_SIZE && (f.Writable(e) ==> written <= |f.Serialize(e)|)
    case PowerLoss(kept) => s.synced <= kept <= |s.bytes|
    case Close => true
    case Delete => s.writer.Closed?
  }

  /** `open_or_create`: a short file is re-initialised, a torn end is cut off and synced. */
  function OpenLog(f: Format, s: Log, full: bool): Log {
    if |s.bytes| < HEADER_LEN then Log(Header(), HEADER_LEN, Ready(full), [])
    else
      var (es, end) := f.Scan(s.bytes, HEADER_LEN);
      var plan := s.plan[..if |es| <= |s.plan| then |es| else |s.plan|];
      if |s.bytes| > end then Log(s.bytes[..end], end, Ready(full), plan)
      else Log(s.bytes, s.synced, Ready(full), plan)
  }

  /** `append_entry`: refused after a failure, unchanged when the entry does not serialise. */
  function AppendLog(f: Format, s: Log, e: Entry, written: nat, ok: bool): Log
    requires f.Writable(e) ==> written <= |f.Serialize(e)|
  {
    if !s.writer.Ready? || !f.Writable(e) then s
    else if ok then
      var bytes := s.bytes + f.Serialize(e);
      Log(bytes, if s.writer.full then |bytes| else s.synced, s.writer, s.plan + [Planned(e, true, s.writer.full)])
    else
      Log(s.bytes + f.Serialize(e)[..written], s.synced, Failed, s.plan + [Planned(e, false, false)])
  }

  function Step(f: Format, s: Log, ev: Event): Log
    requires Legal(f, s, ev)
  {
    match ev
    case Open(full) => OpenLog(f, s, full)
    case CrashInCreate(kept) => Log(Header()[..kept], 0, Closed, [])
    case Append(e, written, ok) => AppendLog(f, s, e, written, ok)
    case PowerLoss(kept) => Log(s.bytes[..kept], kept, Closed, s.plan)
    case Close => s.(writer := Closed)
    case Delete => NoLog()
  }

  // ----- the invariant -----

  ghost predicate PlanWritable(f: Format, plan: seq<Planned>) {
    AllWritable(f, EntriesOf(plan))
  }

  /** Bytes of the first `n` planned entries. */
  ghost function Size(f: Format, plan: seq<Planned>, n: nat): nat
    requires PlanWritable(f, plan) && n <= |plan|
  {
    |SerializeAll(f, EntriesOf(plan)[..n], 0)|
  }

  /** An entry acknowledged in Full mode lies within the synced bytes. */
  ghost predicate Kept(f: Format, plan: seq<Planned>, j: nat, synced: nat)
    requires PlanWritable(f, plan) && j < |plan|
  {
    plan[j].acked && plan[j].full ==> HEADER_LEN + Size(f, plan, j + 1) <= synced
  }

  ghost predicate Inv(f: Format, s: Log) {
    && s.synced <= |s.bytes| && PlanWritable(f, s.plan)
    && (|s.bytes| >= HEADER_LEN ==> s.synced >= HEADER_LEN)
    && (|s.bytes| < HEADER_LEN ==> s.plan == [] && s.writer.Closed?)
    && (|s.bytes| >= HEADER_LEN ==>
         && Agrees(s.bytes, HEADER_LEN, SerializeAll(f, EntriesOf(s.plan), 0))
         && |s.bytes| <= HEADER_LEN + |SerializeAll(f, EntriesOf(s.plan), 0)|
         && (s.writer.Ready? ==> |s.bytes| == HEADER_LEN + |SerializeAll(f, EntriesOf(s.plan), 0)|))
    && (forall j :: 0 <= j < |s.plan| ==> Kept(f, s.plan, j, s.synced))
  }

  /** How many planned entries are whole in the file. */
  function Whole(f: Format, s: Log): nat {
    |f.Scan(s.bytes, HEADER_LEN).0|
  }

  // ----- prefixes of a serialised plan -----

  lemma {:induction false} SerializeSplit(f: Format, es: seq<Entry>, i: nat, n: nat)
    requires AllWritable(f, es) && i <= n <= |es|
    ensures SerializeAll(f, es, i) == SerializeAll(f, es[..n], i) + SerializeAll(f, es, n)
    decreases n - i
  {
    hide Format.Serialize;
    if i < n {
      SerializeSplit(f, es, i + 1, n);
      assert es[..n][i] == es[i];
    } else {
      assert SerializeAll(f, es[..n], n) == [];
    }
  }

  lemma {:induction false} FitSize(f: Format, es: seq<Entry>, i: nat, room: int)
    requires AllWritable(f, es) && i <= |es|
    ensures var (n, len) := Fit(f, es, i, room);
      len == |SerializeAll(f, es[..i + n], i)| && (room >= 0 ==> len <= room)
    decreases |es| - i
  {
    hide Format.Serialize;
    if i < |es| && |f.Serialize(es[i])| <= room {
      FitSize(f, es, i + 1, room - |f.Serialize(es[i])|);
      var n := Fit(f, es, i + 1, room - |f.Serialize(es[i])|).0;
      assert es[..i + 1 + n][i] == es[i];
    }
  }

  lemma {:induction false} FitCovers(f: Format, es: seq<Entry>, i: nat, n: nat, room: int)
    requires AllWritable(f, es) && i <= n <= |es| && |SerializeAll(f, es[..n], i)| <= room
    ensures i + Fit(f, es, i, room).0 >= n
    decreases n - i
  {
    hide Format.Serialize;
    if i < n {
      assert es[..n][i] == es[i];
      FitCovers(f, es, i + 1, n, room - |f.Serialize(es[i])|);
    }
  }

  /** In every state the invariant allows, the scan finds exactly the whole planned entries. */
  lemma {:induction false} InvScan(f: Format, s: Log)
    requires f.Valid() && Inv(f, s) && |s.bytes| >= HEADER_LEN
    ensures PlanWritable(f, s.plan) && Whole(f, s) <= |s.plan|
    ensures f.Scan(s.bytes, HEADER_LEN) == (EntriesOf(s.plan)[..Whole(f, s)], HEADER_LEN + Size(f, s.plan, Whole(f, s)))
    ensures Whole(f, s) == Fit(f, EntriesOf(s.plan), 0, |s.bytes| - HEADER_LEN).0
  {
    hide Agrees, Fit, SerializeAll, Format.Scan;
    var es := EntriesOf(s.plan);
    ScanCut(f, s.bytes, HEADER_LEN, es, 0);
    FitSize(f, es, 0, |s.bytes| - HEADER_LEN);
    Zero(es, Fit(f, es, 0, |s.bytes| - HEADER_LEN).0);
  }

  lemma Zero(es: seq<Entry>, n: nat)
    requires n <= |es|
    ensures es[0..0 + n] == es[..n] && es[..0 + n] == es[..n] && |es[..n]| == n
  {
  }

  /** A writer that has not failed sits at the end of the valid entries. */
  lemma {:induction false} ReadyAtEnd(f: Format, s: Log)
    requires f.Valid() && Inv(f, s) && s.writer.Ready?
    ensures Whole(f, s) == |s.plan| && f.Scan(s.bytes, HEADER_LEN) == (EntriesOf(s.plan), |s.bytes|)
  {
    hide Agrees, SerializeAll, Fit, Format.Scan, Kept;
    InvScan(f, s);
    var es := EntriesOf(s.plan);
    assert es[..|es|] == es;
    FitCovers(f, es, 0, |es|, |s.bytes| - HEADER_LEN);
  }

  lemma AgreesPrefix(b: seq<byte>, pos: nat, x: seq<byte>, k: nat)
    requires Agrees(b, pos, x) && pos <= k <= |b|
    ensures Agrees(b[..k], pos, x)
  {
  }

  lemma InvPowerLoss(f: Format, s: Log, kept: nat)
    requires Inv(f, s) && s.synced <= kept <= |s.bytes|
    ensures Inv(f, Log(s.bytes[..kept], kept, Closed, s.plan))
  {
    if kept >= HEADER_LEN { AgreesPrefix(s.bytes, HEADER_LEN, SerializeAll(f, EntriesOf(s.plan), 0), kept); }
    forall j | 0 <= j < |s.plan| ensures Kept(f, s.plan, j, kept) { assert Kept(f, s.plan, j, s.synced); }
  }

  lemma PlanPrefix(f: Format, plan: seq<Planned>, n: nat)
    requires PlanWritable(f, plan) && n <= |plan|
    ensures EntriesOf(plan[..n]) == EntriesOf(plan)[..n] && PlanWritable(f, plan[..n])
    ensures SerializeAll(f, EntriesOf(plan), 0) == SerializeAll(f, EntriesOf(plan[..n]), 0) + SerializeAll(f, EntriesOf(plan), n)
    ensures forall j :: 0 <= j <= n ==> Size(f, plan[..n], j) == Size(f, plan, j)
  {
    assert EntriesOf(plan[..n]) == EntriesOf(plan)[..n];
    SerializeSplit(f, EntriesOf(plan), 0, n);
    forall j | 0 <= j <= n ensures Size(f, plan[..n], j) == Size(f, plan, j) {
      assert EntriesOf(plan)[..n][..j] == EntriesOf(plan)[..j];
    }
  }

  lemma SizeMono(f: Format, plan: seq<Planned>, i: nat, n: nat)
    requires PlanWritable(f, plan) && i <= n <= |plan|
    ensures Size(f, plan, i) <= Size(f, plan, n)
  {
    var es := EntriesOf(plan);
    SerializeSplit(f, es[..n], 0, i);
    assert es[..n][..i] == es[..i];
  }

  /** Cutting the file after its first `n` entries leaves a file of exactly those. */
  lemma InvCut(f: Format, s: Log, n: nat, synced: nat, full: bool)
    requires Inv(f, s) && |s.bytes| >= HEADER_LEN && n <= |s.plan|
    requires HEADER_LEN + Size(f, s.plan, n) <= |s.bytes|
    requires synced == HEADER_LEN + Size(f, s.plan, n) || (synced == s.synced <= HEADER_LEN + Size(f, s.plan, n))
    ensures Inv(f, Log(s.bytes[..HEADER_LEN + Size(f, s.plan, n)], synced, Ready(full), s.plan[..n]))
  {
    hide Agrees, SerializeAll;
    PlanPrefix(f, s.plan, n);
    var end, plan := HEADER_LEN + Size(f, s.plan, n), s.plan[..n];
    var kept := SerializeAll(f, EntriesOf(plan), 0);
    AgreesSplit(s.bytes, HEADER_LEN, kept, SerializeAll(f, EntriesOf(s.plan), n));
    AgreesPrefix(s.bytes, HEADER_LEN, kept, end);
    forall j | 0 <= j < n ensures Kept(f, plan, j, synced) {
      assert Kept(f, s.plan, j, s.synced);
      assert Size(f, plan, j + 1) == Size(f, s.plan, j + 1);
      SizeMono(f, s.plan, j + 1, n);
    }
  }

  lemma InvOpen(f: Format, s: Log, full: bool)
    requires f.Valid() && Inv(f, s) && s.writer.Closed?
    ensures Inv(f, OpenLog(f, s, full))
  {
    hide Inv, Header, Size, SerializeAll, Fit, Format.Scan;
    if |s.bytes| < HEADER_LEN {
      FreshLog(f, full);
    } else {
      InvScan(f, s);
      var n := Whole(f, s);
      WholeFits(f, s);
      var end := HEADER_LEN + Size(f, s.plan, n);
      if |s.bytes| > end {
        InvCut(f, s, n, end, full);
      } else {
        InvCut(f, s, n, s.synced, full);
        assert s.bytes[..end] == s.bytes;
      }
    }
  }

  lemma FreshLog(f: Format, full: bool)
    ensures Inv(f, Log(Header(), HEADER_LEN, Ready(full), []))
  {
    assert SerializeAll(f, EntriesOf([]), 0) == [];
  }

  lemma WholeFits(f: Format, s: Log)
    requires f.Valid() && Inv(f, s) && |s.bytes| >= HEADER_LEN
    ensures PlanWritable(f, s.plan) && Whole(f, s) <= |s.plan| && s.synced <= |s.bytes|
    ensures HEADER_LEN + Size(f, s.plan, Whole(f, s)) <= |s.bytes|
  {
    hide Agrees, SerializeAll, Fit, Format.Scan, Kept;
    InvScan(f, s);
    FitSize(f, EntriesOf(s.plan), 0, |s.bytes| - HEADER_LEN);
    Zero(EntriesOf(s.plan), Whole(f, s));
  }

  lemma PlanAppend(f: Format, plan: seq<Planned>, p: Planned)
    requires PlanWritable(f, plan) && f.Writable(p.entry)
    ensures EntriesOf(plan + [p]) == EntriesOf(plan) + [p.entry] && PlanWritable(f, plan + [p])
    ensures SerializeAll(f, EntriesOf(plan + [p]), 0) == SerializeAll(f, EntriesOf(plan), 0) + f.Serialize(p.entry)
    ensures forall j :: 0 <= j <= |plan| ==> Size(f, plan + [p], j) == Size(f, plan, j)
    ensures Size(f, plan + [p], |plan| + 1) == |SerializeAll(f, EntriesOf(plan), 0)| + |f.Serialize(p.entry)|
  {
    assert EntriesOf(plan + [p]) == EntriesOf(plan) + [p.entry];
    SerializeAllAppend(f, EntriesOf(plan), p.entry, 0);
    forall j | 0 <= j <= |plan| ensures Size(f, plan + [p], j) == Size(f, plan, j) {
      assert (EntriesOf(plan) + [p.entry])[..j] == EntriesOf(plan)[..j];
    }
    assert (EntriesOf(plan) + [p.entry])[..|plan| + 1] == EntriesOf(plan) + [p.entry];
  }

  lemma AgreesExtend(b: seq<byte>, pos: nat, x: seq<byte>, y: seq<byte>, n: nat)
    requires Agrees(b, pos, x) && |b| == pos + |x| && n <= |y|
    ensures Agrees(b + y[..n], pos, x + y)
  {
    forall k | 0 <= k < |x + y| && pos + k < |b + y[..n]| ensures (b + y[..n])[pos + k] == (x + y)[k] {
      if k < |x| { assert b[pos + k] == x[k]; }
    }
  }

  lemma InvAppend(f: Format, s: Log, e: Entry, written: nat, ok: bool)
    requires f.Valid() && Inv(f, s) && (f.Writable(e) ==> written <= |f.Serialize(e)|)
    ensures Inv(f, AppendLog(f, s, e, written, ok))
  {
    if s.writer.Ready? && f.Writable(e) {
      var p := Planned(e, ok, ok && s.writer.full);
      PlanAppend(f, s.plan, p);
      var x := SerializeAll(f, EntriesOf(s.plan), 0);
      AgreesExtend(s.bytes, HEADER_LEN, x, f.Serialize(e), if ok then |f.Serialize(e)| else written);
      assert f.Serialize(e)[..|f.Serialize(e)|] == f.Serialize(e);
      var t := AppendLog(f, s, e, written, ok);
      forall j | 0 <= j < |t.plan| ensures Kept(f, t.plan, j, t.synced) {
        if j < |s.plan| { assert Kept(f, s.plan, j, s.synced); }
      }
    }
  }

  lemma InvStep(f: Format, s: Log, ev: Event)
    requires f.Valid() && Inv(f, s) && Legal(f, s, ev)
    ensures Inv(f, Step(f, s, ev))
  {
    match ev
    case Open(full) => InvOpen(f, s, full);
    case CrashInCreate(_) =>
    case Append(e, written, ok) => InvAppend(f, s, e, written, ok);
    case PowerLoss(kept) => InvPowerLoss(f, s, kept);
    case Close =>
    case Delete =>
  }

  // ----- whole runs -----

  ghost predicate LegalRun(f: Format, s: Log, evs: seq<Event>)
    decreases |evs|
  {
    evs == [] || (Legal(f, s, evs[0]) && LegalRun(f, Step(f, s, evs[0]), evs[1..]))
  }

  ghost function Run(f: Format, s: Log, evs: seq<Event>): Log
    requires LegalRun(f, s, evs)
    decreases |evs|
  {
    if evs == [] then s else Run(f, Step(f, s, evs[0]), evs[1..])
  }

  /** A file that does not exist yet. */
  function NoLog(): Log { Log([], 0, Closed, []) }

  lemma {:induction false} RunInv(f: Format, s: Log, evs: seq<Event>)
    requires f.Valid() && Inv(f, s) && LegalRun(f, s, evs)
    ensures Inv(f, Run(f, s, evs))
    decreases |evs|
  {
    if evs != [] {
      InvStep(f, s, evs[0]);
      RunInv(f, Step(f, s, evs[0]), evs[1..]);
    }
  }

  /** After any run, an open writer sits at the end of the valid entries, and an acknowledged
      append extends what a scan recovers by exactly that entry. */
  lemma {:induction false} AckedAppendExtends(f: Format, evs: seq<Event>, e: Entry)
    requires f.Valid() && LegalRun(f, NoLog(), evs) && f.Writable(e)
    requires Run(f, NoLog(), evs).writer.Ready?
    ensures var s := Run(f, NoLog(), evs);
      && f.Scan(s.bytes, HEADER_LEN).1 == |s.bytes|
      && f.Scan(AppendLog(f, s, e, 0, true).bytes, HEADER_LEN).0 == f.Scan(s.bytes, HEADER_LEN).0 + [e]
  {
    assert EntriesOf([]) == [];
    RunInv(f, NoLog(), evs);
    var s := Run(f, NoLog(), evs);
    ReadyAtEnd(f, s);
    InvAppend(f, s, e, 0, true);
    ReadyAtEnd(f, AppendLog(f, s, e, 0, true));
    PlanAppend(f, s.plan, Planned(e, true, s.writer.full));
  }

  /** What a power loss that keeps `kept` bytes does to the recoverable entries. */
  lemma CutKeeps(f: Format, s: Log, kept: nat)
    requires f.Valid() && Inv(f, s) && HEADER_LEN <= kept && s.synced <= kept <= |s.bytes|
    ensures var before, after := f.Scan(s.bytes, HEADER_LEN).0, f.Scan(s.bytes[..kept], HEADER_LEN).0;
      && after <= before <= EntriesOf(s.plan)
      && (forall j :: 0 <= j < |s.plan| && s.plan[j].acked && s.plan[j].full ==> j < |after|)
  {
    hide Agrees, SerializeAll, Fit, Format.Scan;
    InvPowerLoss(f, s, kept);
    var t, es := Log(s.bytes[..kept], kept, Closed, s.plan), EntriesOf(s.plan);
    InvScan(f, s);
    InvScan(f, t);
    FitMono(f, es, 0, kept - HEADER_LEN, |s.bytes| - HEADER_LEN);
    Nested(es, Whole(f, t), Whole(f, s));
    forall j | 0 <= j < |s.plan| && s.plan[j].acked && s.plan[j].full ensures j < Whole(f, t) {
      assert Kept(f, s.plan, j, s.synced);
      FitCovers(f, es, 0, j + 1, kept - HEADER_LEN);
    }
  }

  lemma Nested(es: seq<Entry>, m: nat, n: nat)
    requires m <= n <= |es|
    ensures es[..m] <= es[..n] <= es
  {
  }

  /** After any run, a power loss leaves a prefix of the recoverable entries, and never loses one
      acknowledged in Full mode. */
  lemma {:induction false} PowerLossKeeps(f: Format, evs: seq<Event>, kept: nat)
    requires f.Valid() && LegalRun(f, NoLog(), evs)
    requires var s := Run(f, NoLog(), evs); s.synced <= kept <= |s.bytes|
    ensures var s := Run(f, NoLog(), evs);
      var before, after := f.Scan(s.bytes, HEADER_LEN).0, f.Scan(s.bytes[..kept], HEADER_LEN).0;
      && after <= before
      && (forall j :: 0 <= j < |s.plan| && s.plan[j].acked && s.plan[j].full ==> j < |after| && after[j] == s.plan[j].entry)
  {
    assert EntriesOf([]) == [];
    RunInv(f, NoLog(), evs);
    var s := Run(f, NoLog(), evs);
    if kept < HEADER_LEN {
      AtEnd(f, s.bytes, HEADER_LEN);
      AtEnd(f, s.bytes[..kept], HEADER_LEN);
    } else {
      CutKeeps(f, s, kept);
    }
  }

  lemma {:induction false} FitMono(f: Format, es: seq<Entry>, i: nat, room: int, room': int)
    requires AllWritable(f, es) && i <= |es| && room <= room'
    ensures Fit(f, es, i, room).0 <= Fit(f, es, i, room').0
    decreases |es| - i
  {
    if i < |es| && |f.Serialize(es[i])| <= room {
      FitMono(f, es, i + 1, room - |f.Serialize(es[i])|, room' - |f.Serialize(es[i])|);
    }
  }

  // ----- what each step does to the recoverable entries -----

  /** The entries a scan of the file brings back. */
  function Recovered(f: Format, s: Log): seq<Entry> {
    f.Scan(s.bytes, HEADER_LEN).0
  }

  /** Opening the file changes nothing recoverable. */
  lemma {:induction false} OpenRecovers(f: Format, s: Log, full: bool)
    requires f.Valid() && Inv(f, s) && s.writer.Closed?
    ensures Recovered(f, OpenLog(f, s, full)) == Recovered(f, s)
    ensures Whole(f, s) <= |s.plan| && OpenLog(f, s, full).plan == s.plan[..Whole(f, s)]
  {
    InvOpen(f, s, full);
    ReadyAtEnd(f, OpenLog(f, s, full));
    hide Inv, Format.Scan;
    if |s.bytes| < HEADER_LEN {
      AtEnd(f, s.bytes, HEADER_LEN);
      ScanNothing(f, s.bytes);
      NoPlan(f, s);
    } else {
      InvScan(f, s);
      PlanPrefix(f, s.plan, Whole(f, s));
    }
  }

  lemma NoPlan(f: Format, s: Log)
    requires Inv(f, s) && |s.bytes| < HEADER_LEN
    ensures s.plan == []
  {}

  lemma ScanNothing(f: Format, b: seq<byte>)
    requires |b| <= HEADER_LEN
    ensures f.Scan(b, HEADER_LEN) == ([], HEADER_LEN)
  {
    AtEnd(f, b, HEADER_LEN);
  }

  /** An append adds its entry exactly when all its bytes reached the file, acknowledged or not. */
  lemma {:induction false} AppendRecovers(f: Format, s: Log, e: Entry, written: nat, ok: bool)
    requires f.Valid() && Inv(f, s) && s.writer.Ready? && f.Writable(e) && written <= |f.Serialize(e)|
    ensures Recovered(f, AppendLog(f, s, e, written, ok)) ==
      Recovered(f, s) + if ok || written == |f.Serialize(e)| then [e] else []
  {
    hide Inv, Format.Scan, Format.Serialize, SerializeAll, Fit, Format.Writable, Size;
    var t := AppendLog(f, s, e, written, ok);
    LogEnd(f, s);
    InvAppend(f, s, e, written, ok);
    ReadyAtEnd(f, s);
    PlanAppend(f, s.plan, Planned(e, ok, ok && s.writer.full));
    InvScan(f, t);
    AppendFits(f, s, e, |t.bytes| - HEADER_LEN);
  }

  /** All entries fit in the file, the last one exactly when its bytes are all there. */
  lemma AppendFits(f: Format, s: Log, e: Entry, room: nat)
    requires PlanWritable(f, s.plan) && f.Writable(e)
    requires var n := |SerializeAll(f, EntriesOf(s.plan), 0)|; n <= room <= n + |f.Serialize(e)|
    ensures var es := EntriesOf(s.plan) + [e];
      && AllWritable(f, es)
      && var n := Fit(f, es, 0, room).0;
         n <= |es| && es[..n] ==
           if room == |SerializeAll(f, EntriesOf(s.plan), 0)| + |f.Serialize(e)| then es else EntriesOf(s.plan)
  {
    hide Format.Serialize, SerializeAll, Fit, Format.Writable;
    var es := EntriesOf(s.plan);
    SerializeAllAppend(f, es, e, 0);
    if room == |SerializeAll(f, es, 0)| + |f.Serialize(e)| {
      assert (es + [e])[..|es + [e]|] == es + [e];
      FitCovers(f, es + [e], 0, |es + [e]|, room);
    } else {
      FitAll(f, es, e, 0, room);
      FrontOf(es, e);
    }
  }

  lemma LogEnd(f: Format, s: Log)
    requires Inv(f, s) && s.writer.Ready?
    ensures PlanWritable(f, s.plan) && |s.bytes| == HEADER_LEN + |SerializeAll(f, EntriesOf(s.plan), 0)|
  {}

  /** A power loss leaves a prefix of the recoverable entries with all those acknowledged in Full mode. */
  lemma PowerLossRecovers(f: Format, s: Log, kept: nat)
    requires f.Valid() && Inv(f, s) && s.synced <= kept <= |s.bytes|
    ensures var before, after := Recovered(f, s), Recovered(f, Log(s.bytes[..kept], kept, Closed, s.plan));
      && after <= before && |before| <= |s.plan|
      && (forall j :: |after| <= j < |before| ==> !(s.plan[j].acked && s.plan[j].full))
  {
    if kept < HEADER_LEN {
      ScanNothing(f, s.bytes);
      ScanNothing(f, s.bytes[..kept]);
    } else {
      CutKeeps(f, s, kept);
    }
  }

  // ----- the source's objects -----

  /** The WAL file together with the writer that has it open. */
  class LogFile {
    var bytes: seq<byte>
    var writer: Writer
    ghost var synced: nat
    ghost var plan: seq<Planned>

    ghost function State(): Log
      reads this
    {
      Log(bytes, synced, writer, plan)
    }

    constructor ()
      ensures State() == NoLog()
    {
      bytes, writer, synced, plan := [], Closed, 0, [];
    }

    /** Open the log, cutting off a torn end; refused when the header is not ours. */
    method OpenOrCreate(f: Format, full: bool) returns (ok: bool)
      requires writer.Closed?
      modifies this
      ensures ok <==> |old(bytes)| < HEADER_LEN || old(bytes)[..8] == Header()[..8]
      ensures State() == if ok then OpenLog(f, old(State()), full) else old(State())
    {
      if |bytes| < HEADER_LEN {
        bytes := Header();
        synced, plan := HEADER_LEN, [];
      } else {
        if bytes[..8] != Header()[..8] { return false; }
        var entries, validEnd, _ := ScanEntries(f, bytes);
        plan := plan[..if |entries| <= |plan| then |entries| else |plan|];
        if |bytes| > validEnd {
          bytes := bytes[..validEnd];
          synced := validEnd;
        }
      }
      writer := Ready(full);
      ok := true;
    }

    /** Append one entry. `written` and `ioOk` say what the operating system did: all bytes and the
        sync, or only some bytes before an error. */
    method AppendEntry(f: Format, e: Entry, written: nat, ioOk: bool) returns (ok: bool)
      requires !writer.Closed? && |e.facts| < U64_SIZE && (f.Writable(e) ==> written <= |f.Serialize(e)|)
      modifies this
      ensures State() == AppendLog(f, old(State()), e, written, ioOk)
      ensures ok <==> old(writer).Ready? && f.Writable(e) && ioOk
    {
      if writer.Failed? { return false; }
      var entry := SerializeEntry(f, e);
      if entry.None? { return false; }
      if ioOk {
        bytes := bytes + entry.value;
        if writer.full { synced := |bytes|; }
        plan := plan + [Planned(e, true, writer.full)];
      } else {
        bytes := bytes + entry.value[..written];
        plan := plan + [Planned(e, false, false)];
        writer := Failed;
      }
      ok := ioOk;
    }
  
    /** Drop the writer. */
    method Close()
      modifies this
      ensures State() == old(State()).(writer := Closed)
    {
      writer := Closed;
    }

    /** Remove the file. */
    method Delete()
      modifies this
      ensures State() == NoLog()
    {
      bytes, writer, synced, plan := [], Closed, 0, [];
    }
  
    /** The process or the power goes: any prefix that covers the last sync is left. */
    method Lose(kept: nat)
      requires synced <= kept <= |bytes|
      modifies this
      ensures State() == Log(old(bytes)[..kept], kept, Closed, old(plan))
    {
      bytes, writer, synced := bytes[..kept], Closed, kept;
    }
  }
}
