/** Write-ahead log entries on the wire, and the scan that recovers them. */
module Wal {
  import opened Bytes
  import opened Facts

  const HEADER_LEN := 32
  const MAX_FACT_BYTES := 4080
  const MAX_FACT_SIZE := 10 * 1024 * 1024

  type u32 = n: int | 0 <= n < 0x1_0000_0000

  /** One committed transaction. */
  datatype Entry = Entry(txCount: u64, facts: seq<Fact>)

  /** postcard plus an arbitrary 32-bit checksum: nothing is assumed about collisions. */
  datatype Format = Format(codec: FactCodec, crc: seq<byte> -> u32)
  {
    ghost predicate Valid() { codec.Valid() }

    /** What `serialize_entry` accepts. */
    predicate Writable(e: Entry) {
      |e.facts| < U64_SIZE && forall i :: 0 <= i < |e.facts| ==> |codec.enc(e.facts[i])| <= MAX_FACT_BYTES
    }

    /** Length-prefixed facts from index `i` on. */
    function Body(fs: seq<Fact>, i: nat): (r: seq<byte>)
      requires i <= |fs| && forall j :: 0 <= j < |fs| ==> |codec.enc(fs[j])| <= MAX_FACT_BYTES
      ensures |r| >= 4 * (|fs| - i)
      decreases |fs| - i
    {
      Widths();
      if i == |fs| then [] else LE(|codec.enc(fs[i])|, 4) + (codec.enc(fs[i]) + Body(fs, i + 1))
    }

    /** Everything the checksum covers. */
    function Payload(e: Entry): seq<byte>
      requires Writable(e)
    {
      Widths();
      LE(e.txCount, 8) + (LE(|e.facts|, 8) + Body(e.facts, 0))
    }

    function Serialize(e: Entry): (r: seq<byte>)
      requires Writable(e)
      ensures |r| >= 20
    {
      Widths();
      LE(crc(Payload(e)), 4) + Payload(e)
    }

    // ----- parsing -----

    /** `n` length-prefixed facts at `pos`: the facts and where they end, None if truncated or undecodable. */
    function ParseFacts(b: seq<byte>, pos: nat, n: nat): (r: Option<(seq<Fact>, nat)>)
      ensures r.Some? && pos <= |b| ==> pos <= r.value.1 <= |b|
      decreases n
    {
      if n == 0 then Some(([], pos))
      else if pos + 4 > |b| then None
      else
        var len := Field(b, pos, 4);
        if len > MAX_FACT_SIZE || pos + 4 + len > |b| then None
        else
          match codec.dec(b[pos + 4..pos + 4 + len])
          case None => None
          case Some(f) =>
            match ParseFacts(b, pos + 4 + len, n - 1)
            case None => None
            case Some((fs, end)) => Some(([f] + fs, end))
    }

    /** The entry at `pos` and where it ends; None at EOF, on a truncated entry or a bad checksum. */
    function ParseEntry(b: seq<byte>, pos: nat): (r: Option<(Entry, nat)>)
      ensures r.Some? ==> pos + 20 <= r.value.1 <= |b|
    {
      if pos + 20 > |b| then None
      else
        Widths();
        var count := Field(b, pos + 12, 8);
        if count > (|b| - (pos + 20)) / 4 then None
        else
          match ParseFacts(b, pos + 20, count)
          case None => None
          case Some((fs, end)) =>
            if Field(b, pos, 4) != crc(b[pos + 4..end]) then None
            else Some((Entry(Field(b, pos + 4, 8), fs), end))
    }

    /** Entries from `pos` on, up to the first that does not parse, and where they end. */
    function Scan(b: seq<byte>, pos: nat): (r: (seq<Entry>, nat))
      decreases |b| - pos
    {
      match ParseEntry(b, pos)
      case None => ([], pos)
      case Some((e, end)) =>
        var (es, last) := Scan(b, end);
        ([e] + es, last)
    }
  }

  /** `b` from `pos` on agrees with `x` as far as both go. */
  ghost predicate Agrees(b: seq<byte>, pos: nat, x: seq<byte>) {
    pos <= |b| && forall k :: 0 <= k < |x| && pos + k < |b| ==> b[pos + k] == x[k]
  }

  lemma AgreesSplit(b: seq<byte>, pos: nat, x: seq<byte>, y: seq<byte>)
    requires Agrees(b, pos, x + y)
    ensures Agrees(b, pos, x)
    ensures pos + |x| <= |b| ==> Agrees(b, pos + |x|, y)
  {
    forall k | 0 <= k < |x| && pos + k < |b| ensures b[pos + k] == x[k] {
      assert (x + y)[k] == x[k];
    }
    forall k | 0 <= k < |y| && pos + |x| + k < |b| ensures b[pos + |x| + k] == y[k] {
      assert (x + y)[|x| + k] == y[k];
      assert b[pos + (|x| + k)] == (x + y)[|x| + k];
    }
  }

  lemma AgreesWhole(b: seq<byte>, pos: nat, x: seq<byte>)
    requires Agrees(b, pos, x) && pos + |x| <= |b|
    ensures b[pos..pos + |x|] == x
  {
  }

  lemma AgreesField(b: seq<byte>, pos: nat, v: nat, n: nat)
    requires v < Pow256(n) && Agrees(b, pos, LE(v, n)) && pos + n <= |b|
    ensures Field(b, pos, n) == v
  {
    AgreesWhole(b, pos, LE(v, n));
    LERoundTrip(v, n);
  }

  /** The first fact of a body, as far as the bytes go. */
  lemma FactAt(f: Format, b: seq<byte>, pos: nat, fs: seq<Fact>, i: nat)
    requires i < |fs| && forall j :: 0 <= j < |fs| ==> |f.codec.enc(fs[j])| <= MAX_FACT_BYTES
    requires Agrees(b, pos, f.Body(fs, i))
    ensures var enc := f.codec.enc(fs[i]);
      && (pos + 4 <= |b| ==> Field(b, pos, 4) == |enc|)
      && (pos + 4 + |enc| <= |b| ==> b[pos + 4..pos + 4 + |enc|] == enc && Agrees(b, pos + 4 + |enc|, f.Body(fs, i + 1)))
  {
    Widths();
    hide Agrees, LE, FromLE;
    var enc := f.codec.enc(fs[i]);
    AgreesSplit(b, pos, LE(|enc|, 4), enc + f.Body(fs, i + 1));
    if pos + 4 <= |b| {
      AgreesField(b, pos, |enc|, 4);
      AgreesSplit(b, pos + 4, enc, f.Body(fs, i + 1));
      if pos + 4 + |enc| <= |b| { AgreesWhole(b, pos + 4, enc); }
    }
  }

  lemma BodyLength(f: Format, fs: seq<Fact>, i: nat)
    requires i < |fs| && forall j :: 0 <= j < |fs| ==> |f.codec.enc(fs[j])| <= MAX_FACT_BYTES
    ensures |f.Body(fs, i)| == 4 + |f.codec.enc(fs[i])| + |f.Body(fs, i + 1)|
  {
    Widths();
  }

  /** Facts parse back whole, and a cut anywhere inside them is noticed. */
  lemma {:induction false} ParseFactsAgrees(f: Format, b: seq<byte>, pos: nat, fs: seq<Fact>, i: nat)
    requires f.Valid() && i <= |fs| && forall j :: 0 <= j < |fs| ==> |f.codec.enc(fs[j])| <= MAX_FACT_BYTES
    requires Agrees(b, pos, f.Body(fs, i))
    ensures f.ParseFacts(b, pos, |fs| - i) ==
      if pos + |f.Body(fs, i)| <= |b| then Some((fs[i..], pos + |f.Body(fs, i)|)) else None
    decreases |fs| - i
  {
    hide Format.Valid, Format.ParseFacts, Field, LE;
    if i == |fs| {
      ParseNone(f, b, pos, fs);
    } else {
      FactAt(f, b, pos, fs, i);
      BodyLength(f, fs, i);
      ParseOne(f, b, pos, fs[i], |fs| - i);
      hide Agrees, Format.Body;
      var enc := f.codec.enc(fs[i]);
      if pos + 4 + |enc| <= |b| {
        ParseFactsAgrees(f, b, pos + 4 + |enc|, fs, i + 1);
        assert fs[i..] == [fs[i]] + fs[i + 1..];
      }
    }
  }

  lemma ParseNone(f: Format, b: seq<byte>, pos: nat, fs: seq<Fact>)
    requires forall j :: 0 <= j < |fs| ==> |f.codec.enc(fs[j])| <= MAX_FACT_BYTES
    ensures f.ParseFacts(b, pos, 0) == Some((fs[|fs|..], pos)) && f.Body(fs, |fs|) == []
  {
    assert fs[|fs|..] == [];
  }

  /** The first of `n` facts, where it is whole, and what a cut in it gives. */
  lemma ParseOne(f: Format, b: seq<byte>, pos: nat, x: Fact, n: nat)
    requires f.Valid() && 0 < n && |f.codec.enc(x)| <= MAX_FACT_BYTES
    requires pos + 4 <= |b| ==> Field(b, pos, 4) == |f.codec.enc(x)|
    requires pos + 4 + |f.codec.enc(x)| <= |b| ==> b[pos + 4..pos + 4 + |f.codec.enc(x)|] == f.codec.enc(x)
    ensures f.ParseFacts(b, pos, n) ==
      if pos + 4 + |f.codec.enc(x)| > |b| then None
      else match f.ParseFacts(b, pos + 4 + |f.codec.enc(x)|, n - 1) { case None => None case Some((fs, end)) => Some(([x] + fs, end)) }
  {
    hide Field;
  }

  /** A written entry parses back to itself where it is whole, and to nothing where any part of
      its end is missing. The fact-count bound never rejects it, and no checksum property is used. */
  lemma {:induction false} ParseEntryAgrees(f: Format, b: seq<byte>, pos: nat, e: Entry)
    requires f.Valid() && f.Writable(e) && Agrees(b, pos, f.Serialize(e))
    ensures f.ParseEntry(b, pos) ==
      if pos + |f.Serialize(e)| <= |b| then Some((e, pos + |f.Serialize(e)|)) else None
  {
    Widths();
    hide Agrees, LE, FromLE, Format.Body, Format.ParseFacts;
    var payload, body := f.Payload(e), f.Body(e.facts, 0);
    AgreesSplit(b, pos, LE(f.crc(payload), 4), payload);
    if pos + 20 <= |b| {
      AgreesField(b, pos, f.crc(payload), 4);
      AgreesSplit(b, pos + 4, LE(e.txCount, 8), LE(|e.facts|, 8) + body);
      AgreesField(b, pos + 4, e.txCount, 8);
      AgreesSplit(b, pos + 12, LE(|e.facts|, 8), body);
      AgreesField(b, pos + 12, |e.facts|, 8);
      ParseFactsAgrees(f, b, pos + 20, e.facts, 0);
      assert e.facts[0..] == e.facts;
      if pos + 20 + |body| <= |b| {
        AgreesWhole(b, pos + 4, payload);
      }
    }
  }

  // ----- whole logs -----

  ghost predicate AllWritable(f: Format, es: seq<Entry>) {
    forall i :: 0 <= i < |es| ==> f.Writable(es[i])
  }

  /** Entries from `i` on, back to back. */
  function SerializeAll(f: Format, es: seq<Entry>, i: nat): seq<byte>
    requires i <= |es| && forall j :: 0 <= j < |es| ==> f.Writable(es[j])
    decreases |es| - i
  {
    if i == |es| then [] else f.Serialize(es[i]) + SerializeAll(f, es, i + 1)
  }

  /** How many entries from `i` on fit whole in `room` bytes, and how many bytes they take. */
  function Fit(f: Format, es: seq<Entry>, i: nat, room: int): (r: (nat, nat))
    requires i <= |es| && forall j :: 0 <= j < |es| ==> f.Writable(es[j])
    ensures i + r.0 <= |es|
    decreases |es| - i
  {
    if i == |es| || |f.Serialize(es[i])| > room then (0, 0)
    else
      var (n, len) := Fit(f, es, i + 1, room - |f.Serialize(es[i])|);
      (n + 1, |f.Serialize(es[i])| + len)
  }

  /** Cut a log at any byte: the scan returns exactly the entries before the cut, and where they end. */
  lemma {:induction false} ScanCut(f: Format, b: seq<byte>, pos: nat, es: seq<Entry>, i: nat)
    requires f.Valid() && AllWritable(f, es) && i <= |es|
    requires Agrees(b, pos, SerializeAll(f, es, i)) && |b| <= pos + |SerializeAll(f, es, i)|
    ensures var (n, len) := Fit(f, es, i, |b| - pos);
      f.Scan(b, pos) == (es[i..i + n], pos + len)
    decreases |es| - i
  {
    hide Agrees, Format.ParseEntry, Format.Serialize;
    if i < |es| {
      var x := f.Serialize(es[i]);
      AgreesSplit(b, pos, x, SerializeAll(f, es, i + 1));
      ParseEntryAgrees(f, b, pos, es[i]);
      if pos + |x| <= |b| {
        ScanCut(f, b, pos + |x|, es, i + 1);
        var n := Fit(f, es, i + 1, |b| - (pos + |x|)).0;
        assert es[i..i + 1 + n] == [es[i]] + es[i + 1..i + 1 + n];
      } else {
        assert es[i..i] == [];
      }
    } else {
      AtEnd(f, b, pos);
      assert es[i..i] == [];
    }
  }

  lemma AtEnd(f: Format, b: seq<byte>, pos: nat)
    requires |b| <= pos
    ensures f.ParseEntry(b, pos) == None
  {
  }

  lemma {:induction false} SerializeAllAppend(f: Format, es: seq<Entry>, e: Entry, i: nat)
    requires AllWritable(f, es) && f.Writable(e) && i <= |es|
    ensures SerializeAll(f, es + [e], i) == SerializeAll(f, es, i) + f.Serialize(e)
    decreases |es| - i
  {
    if i < |es| {
      SerializeAllAppend(f, es, e, i + 1);
      assert (es + [e])[i] == es[i];
    } else {
      assert SerializeAll(f, es + [e], |es| + 1) == [];
      assert (es + [e])[i] == e;
    }
  }

  lemma {:induction false} FitAll(f: Format, es: seq<Entry>, e: Entry, i: nat, room: int)
    requires AllWritable(f, es) && f.Writable(e) && i <= |es|
    requires |SerializeAll(f, es, i)| <= room < |SerializeAll(f, es, i)| + |f.Serialize(e)|
    ensures Fit(f, es + [e], i, room) == (|es| - i, |SerializeAll(f, es, i)|)
    decreases |es| - i
  {
    hide Format.Serialize;
    if i < |es| {
      assert (es + [e])[i] == es[i];
      FitAll(f, es, e, i + 1, room - |f.Serialize(es[i])|);
    } else {
      assert (es + [e])[i] == e;
    }
  }

  /** A log file: header, whole entries, and a strict prefix of one more. */
  ghost predicate LogFile(f: Format, b: seq<byte>, es: seq<Entry>, tail: seq<byte>, e: Entry)
    requires AllWritable(f, es) && f.Writable(e)
  {
    && tail < f.Serialize(e)
    && |b| == HEADER_LEN + |SerializeAll(f, es, 0)| + |tail|
    && b[HEADER_LEN..] == SerializeAll(f, es, 0) + tail
  }

  lemma LogAgrees(f: Format, b: seq<byte>, es: seq<Entry>, tail: seq<byte>, e: Entry)
    requires AllWritable(f, es) && f.Writable(e) && LogFile(f, b, es, tail, e)
    ensures Agrees(b, HEADER_LEN, SerializeAll(f, es + [e], 0))
  {
    var all, x := SerializeAll(f, es, 0), f.Serialize(e);
    SerializeAllAppend(f, es, e, 0);
    forall k | 0 <= k < |all + x| && HEADER_LEN + k < |b| ensures b[HEADER_LEN + k] == (all + x)[k] {
      assert b[HEADER_LEN + k] == b[HEADER_LEN..][k] == (all + tail)[k];
      if k >= |all| { assert tail[k - |all|] == x[k - |all|]; }
    }
  }

  /** The scan of such a file returns exactly the whole entries and the offset where they end. */
  lemma {:induction false} ScanLog(f: Format, b: seq<byte>, es: seq<Entry>, tail: seq<byte>, e: Entry)
    requires f.Valid() && AllWritable(f, es) && f.Writable(e) && LogFile(f, b, es, tail, e)
    ensures f.Scan(b, HEADER_LEN) == (es, HEADER_LEN + |SerializeAll(f, es, 0)|)
  {
    hide Agrees, SerializeAll, Fit, Format.Scan, Format.Serialize;
    LogAgrees(f, b, es, tail, e);
    SerializeAllAppend(f, es, e, 0);
    FitAll(f, es, e, 0, |b| - HEADER_LEN);
    ScanCut(f, b, HEADER_LEN, es + [e], 0);
    FrontOf(es, e);
  }

  lemma FrontOf(es: seq<Entry>, e: Entry)
    ensures (es + [e])[0..0 + |es|] == es
  {
  }

  // ----- what the bytes of an entry are -----

  /** Length-prefixed records from `pos` to `end` that decode to the facts from index `i` on. */
  ghost predicate Records(f: Format, b: seq<byte>, pos: nat, fs: seq<Fact>, i: nat, end: nat)
    requires i <= |fs|
    decreases |fs| - i
  {
    if i == |fs| then pos == end
    else
      && pos + 4 <= |b| && Field(b, pos, 4) <= MAX_FACT_SIZE && pos + 4 + Field(b, pos, 4) <= |b|
      && f.codec.dec(b[pos + 4..pos + 4 + Field(b, pos, 4)]) == Some(fs[i])
      && Records(f, b, pos + 4 + Field(b, pos, 4), fs, i + 1, end)
  }

  /** Bytes `pos` to `end` are an entry: a checksum of the rest, the transaction count, the number of facts, and the facts. */
  ghost predicate EntryAt(f: Format, b: seq<byte>, pos: nat, e: Entry, end: nat) {
    && pos + 20 <= end <= |b| && Field(b, pos, 4) == f.crc(b[pos + 4..end])
    && Field(b, pos + 4, 8) == e.txCount && Field(b, pos + 12, 8) == |e.facts| && Records(f, b, pos + 20, e.facts, 0, end)
  }

  lemma {:induction false} RecordsFit(f: Format, b: seq<byte>, pos: nat, fs: seq<Fact>, i: nat, end: nat)
    requires i <= |fs| && pos <= |b| && Records(f, b, pos, fs, i, end)
    ensures pos + 4 * (|fs| - i) <= end <= |b|
    decreases |fs| - i
  {
    hide Field;
    if i < |fs| { RecordsFit(f, b, pos + 4 + Field(b, pos, 4), fs, i + 1, end); }
  }

  lemma {:induction false} ParseFinds(f: Format, b: seq<byte>, pos: nat, fs: seq<Fact>, i: nat, end: nat)
    requires i <= |fs| && Records(f, b, pos, fs, i, end)
    ensures f.ParseFacts(b, pos, |fs| - i) == Some((fs[i..], end))
    decreases |fs| - i
  {
    hide Field;
    if i == |fs| {
      assert fs[i..] == [];
    } else {
      ParseFinds(f, b, pos + 4 + Field(b, pos, 4), fs, i + 1, end);
      assert fs[i..] == [fs[i]] + fs[i + 1..];
    }
  }

  lemma {:induction false} FindsRecords(f: Format, b: seq<byte>, pos: nat, fs: seq<Fact>, i: nat, end: nat)
    requires i <= |fs| && f.ParseFacts(b, pos, |fs| - i) == Some((fs[i..], end))
    ensures Records(f, b, pos, fs, i, end)
    decreases |fs| - i
  {
    hide Field;
    if i < |fs| {
      var next := pos + 4 + Field(b, pos, 4);
      var rest := f.ParseFacts(b, next, |fs| - i - 1).value;
      var x := f.codec.dec(b[pos + 4..next]).value;
      assert fs[i..] == [fs[i]] + fs[i + 1..];
      assert [x] + rest.0 == fs[i..];
      assert fs[i] == ([x] + rest.0)[0] && fs[i + 1..] == ([x] + rest.0)[1..] == rest.0;
      FindsRecords(f, b, next, fs, i + 1, end);
    }
  }

  lemma {:induction false} ParsedCount(f: Format, b: seq<byte>, pos: nat, n: nat)
    requires f.ParseFacts(b, pos, n).Some?
    ensures |f.ParseFacts(b, pos, n).value.0| == n
    decreases n
  {
    hide Field;
    if n > 0 { ParsedCount(f, b, pos + 4 + Field(b, pos, 4), n - 1); }
  }

  /** Parsing finds exactly the entries, their checksums checked. */
  lemma {:induction false} ParseEntryExact(f: Format, b: seq<byte>, pos: nat, e: Entry, end: nat)
    ensures f.ParseEntry(b, pos) == Some((e, end)) <==> EntryAt(f, b, pos, e, end)
  {
    Widths();
    hide Field;
    if EntryAt(f, b, pos, e, end) {
      RecordsFit(f, b, pos + 20, e.facts, 0, end);
      ParseFinds(f, b, pos + 20, e.facts, 0, end);
      assert e.facts[0..] == e.facts;
    }
    if f.ParseEntry(b, pos) == Some((e, end)) {
      ParsedCount(f, b, pos + 20, Field(b, pos + 12, 8));
      assert e.facts[0..] == e.facts;
      FindsRecords(f, b, pos + 20, e.facts, 0, end);
    }
  }

  /** What is written is an entry. */
  lemma {:induction false} SerializedEntry(f: Format, e: Entry)
    requires f.Valid() && f.Writable(e)
    ensures EntryAt(f, f.Serialize(e), 0, e, |f.Serialize(e)|)
  {
    hide Format.Serialize, EntryAt;
    ParseEntryAgrees(f, f.Serialize(e), 0, e);
    ParseEntryExact(f, f.Serialize(e), 0, e, |f.Serialize(e)|);
  }

  /** The entries lie back to back from one offset to the next, and no entry follows the last. */
  ghost predicate Lies(f: Format, b: seq<byte>, entries: seq<Entry>, offsets: seq<nat>) {
    && |offsets| == |entries| + 1
    && (forall k :: 0 <= k < |entries| ==> EntryAt(f, b, offsets[k], entries[k], offsets[k + 1]))
    && (forall e, end :: !EntryAt(f, b, offsets[|entries|], e, end))
  }

  lemma {:induction false} ScanLies(f: Format, b: seq<byte>, pos: nat) returns (offsets: seq<nat>)
    ensures Lies(f, b, f.Scan(b, pos).0, offsets) && offsets[0] == pos && offsets[|offsets| - 1] == f.Scan(b, pos).1
    decreases |b| - pos
  {
    hide EntryAt, Format.ParseEntry;
    match f.ParseEntry(b, pos)
    case None =>
      forall e, end ensures !EntryAt(f, b, pos, e, end) { ParseEntryExact(f, b, pos, e, end); }
      offsets := [pos];
    case Some((e, end)) =>
      ParseEntryExact(f, b, pos, e, end);
      var rest := ScanLies(f, b, end);
      offsets := [pos] + rest;
      var entries := f.Scan(b, pos).0;
      forall k | 0 <= k < |entries| ensures EntryAt(f, b, offsets[k], entries[k], offsets[k + 1]) {
        if k > 0 { assert entries[k] == f.Scan(b, end).0[k - 1] && offsets[k] == rest[k - 1] && offsets[k + 1] == rest[k]; }
      }
  }

  /** An entry whose bytes carry another checksum ends the scan at its start. */
  lemma {:induction false} DamagedStops(f: Format, b: seq<byte>, pos: nat, fs: seq<Fact>, end: nat)
    requires pos + 20 <= end <= |b| && Field(b, pos + 12, 8) == |fs| && Records(f, b, pos + 20, fs, 0, end)
    requires Field(b, pos, 4) != f.crc(b[pos + 4..end])
    ensures f.Scan(b, pos) == ([], pos)
  {
    hide Field, Format.ParseEntry;
    if f.ParseEntry(b, pos).Some? {
      var (e, last) := f.ParseEntry(b, pos).value;
      ParseEntryExact(f, b, pos, e, last);
      ParseFinds(f, b, pos + 20, fs, 0, end);
      ParseFinds(f, b, pos + 20, e.facts, 0, last);
      assert false;
    }
  }

  // ----- the source's loops -----

  /** `serialize_entry`: None when a fact is too large. */
  method SerializeEntry(f: Format, e: Entry) returns (r: Option<seq<byte>>)
    requires |e.facts| < U64_SIZE
    ensures r == if f.Writable(e) then Some(f.Serialize(e)) else None
  {
    Widths();
    var payload := LE(e.txCount, 8) + LE(|e.facts|, 8);
    ghost var head := payload;
    for i := 0 to |e.facts|
      invariant forall j :: 0 <= j < i ==> |f.codec.enc(e.facts[j])| <= MAX_FACT_BYTES
      invariant f.Writable(e) ==> head + f.Body(e.facts, 0) == payload + f.Body(e.facts, i)
    {
      var fact := f.codec.enc(e.facts[i]);
      if |fact| > MAX_FACT_BYTES { return None; }
      if f.Writable(e) { BodyStep(f, e, payload, i); }
      payload := payload + LE(|fact|, 4) + fact;
    }
    PayloadDone(f, e, payload, head);
    return Some(LE(f.crc(payload), 4) + payload);
  }

  lemma BodyStep(f: Format, e: Entry, payload: seq<byte>, i: nat)
    requires f.Writable(e) && i < |e.facts|
    ensures |f.codec.enc(e.facts[i])| < Pow256(4)
    ensures payload + f.Body(e.facts, i)
      == payload + LE(|f.codec.enc(e.facts[i])|, 4) + f.codec.enc(e.facts[i]) + f.Body(e.facts, i + 1)
  {
    Widths();
  }

  lemma PayloadDone(f: Format, e: Entry, payload: seq<byte>, head: seq<byte>)
    requires f.Writable(e) && e.txCount < Pow256(8) && |e.facts| < Pow256(8)
    requires head == LE(e.txCount, 8) + LE(|e.facts|, 8)
    requires head + f.Body(e.facts, 0) == payload + f.Body(e.facts, |e.facts|)
    ensures payload == f.Payload(e)
  {
    hide LE;
    assert f.Body(e.facts, |e.facts|) == [];
    hide Format.Body;
    ConcatNil(payload);
    ConcatAssoc(LE(e.txCount, 8), LE(|e.facts|, 8), f.Body(e.facts, 0));
  }

  lemma ConcatNil(a: seq<byte>)
    ensures a + [] == a
  {
  }

  lemma ConcatAssoc(a: seq<byte>, b: seq<byte>, c: seq<byte>)
    ensures a + (b + c) == (a + b) + c
  {
  }

  /** Parsing `n` more facts at `pos` after `facts` is parsing all `count` from `start`. */
  ghost predicate Continues(f: Format, b: seq<byte>, start: nat, count: nat, facts: seq<Fact>, pos: nat, n: nat) {
    match f.ParseFacts(b, pos, n)
    case None => f.ParseFacts(b, start, count) == None
    case Some((fs, end)) => f.ParseFacts(b, start, count) == Some((facts + fs, end))
  }

  lemma SlicesJoin(b: seq<byte>, i: nat, j: nat, k: nat, l: nat)
    requires i <= j <= k <= l <= |b|
    ensures b[i..j] + b[j..k] + b[k..l] == b[i..l]
  {}

  /** The fact loop of one entry: facts, payload bytes, and where they end. */
  method ReadFacts(f: Format, b: seq<byte>, start: nat, count: nat)
    returns (r: Option<(seq<Fact>, nat)>, payload: seq<byte>)
    requires start <= |b|
    ensures r == f.ParseFacts(b, start, count)
    ensures r.Some? ==> payload == b[start..r.value.1]
  {
    hide Field;
    var facts, pos := [], start;
    payload := [];
    ghost var whole := f.ParseFacts(b, start, count);
    if whole.Some? { assert [] + whole.value.0 == whole.value.0; }
    for k := 0 to count
      invariant start <= pos <= |b| && payload == b[start..pos]
      invariant Continues(f, b, start, count, facts, pos, count - k)
    {
      if pos + 4 > |b| { return None, payload; }
      var len := Field(b, pos, 4);
      if len > MAX_FACT_SIZE || pos + 4 + len > |b| { return None, payload; }
      SlicesJoin(b, start, pos, pos + 4, pos + 4 + len);
      payload := payload + b[pos..pos + 4] + b[pos + 4..pos + 4 + len];
      var fact := f.codec.dec(b[pos + 4..pos + 4 + len]);
      if fact.None? { return None, payload; }
      ghost var rest := f.ParseFacts(b, pos + 4 + len, count - k - 1);
      if rest.Some? { assert facts + ([fact.value] + rest.value.0) == (facts + [fact.value]) + rest.value.0; }
      facts, pos := facts + [fact.value], pos + 4 + len;
    }
    assert facts + [] == facts;
    return Some((facts, pos)), payload;
  }

  lemma EntriesExact(f: Format, b: seq<byte>, pos: nat)
    ensures forall e, end: nat :: f.ParseEntry(b, pos) == Some((e, end)) <==> EntryAt(f, b, pos, e, end)
  {
    hide Format.ParseEntry, EntryAt;
    forall e, end: nat ensures f.ParseEntry(b, pos) == Some((e, end)) <==> EntryAt(f, b, pos, e, end) { ParseEntryExact(f, b, pos, e, end); }
  }

  lemma SliceJoin(b: seq<byte>, i: nat, j: nat, k: nat)
    requires i <= j <= k <= |b|
    ensures b[i..j] + b[j..k] == b[i..k]
  {}

  /** The entry at `pos` with the offset behind it, its checksum compared; None where the scan stops. */
  method ReadEntry(f: Format, b: seq<byte>, pos: nat) returns (r: Option<(Entry, nat)>)
    ensures r == f.ParseEntry(b, pos)
    ensures forall e, end: nat :: r == Some((e, end)) <==> EntryAt(f, b, pos, e, end)
  {
    EntriesExact(f, b, pos);
    Widths();
    hide Field, Format.ParseFacts, EntryAt;
    if pos + 20 > |b| { return None; }
    var csum := Field(b, pos, 4);
    var txCount := Field(b, pos + 4, 8);
    var count := Field(b, pos + 12, 8);
    if count > (|b| - (pos + 20)) / 4 { return None; }
    var facts, payload := ReadFacts(f, b, pos + 20, count);
    if facts.None? { return None; }
    var end := facts.value.1;
    var covered := b[pos + 4..pos + 20] + payload;
    SliceJoin(b, pos + 4, pos + 20, end);
    if csum != f.crc(covered) { return None; }
    r := Some((Entry(txCount, facts.value.0), end));
  }

  lemma ScanStep(f: Format, b: seq<byte>, pos: nat)
    ensures var read := f.ParseEntry(b, pos);
      f.Scan(b, pos) == if read == None then ([], pos)
        else ([read.value.0] + f.Scan(b, read.value.1).0, f.Scan(b, read.value.1).1)
  {
    hide Format.ParseEntry;
  }

  /** What was found and what a scan from `pos` would find are what the whole scan finds. */
  ghost predicate Found(f: Format, b: seq<byte>, entries: seq<Entry>, pos: nat) {
    f.Scan(b, HEADER_LEN) == (entries + f.Scan(b, pos).0, f.Scan(b, pos).1)
  }

  lemma FoundNext(f: Format, b: seq<byte>, entries: seq<Entry>, pos: nat)
    requires Found(f, b, entries, pos)
    ensures var read := f.ParseEntry(b, pos);
      if read == None then f.Scan(b, HEADER_LEN) == (entries, pos) else Found(f, b, entries + [read.value.0], read.value.1)
  {
    ScanStep(f, b, pos);
    hide Format.ParseEntry, Format.Scan;
    var read := f.ParseEntry(b, pos);
    if read == None {
      assert entries + [] == entries;
    } else {
      var rest := f.Scan(b, read.value.1).0;
      assert entries + ([read.value.0] + rest) == (entries + [read.value.0]) + rest;
    }
  }

  /** Scan the log entry by entry up to the first that does not parse: the entries lie back to back from the end of the header
      to `validEnd`, each under its checksum, and none follows. */
  method ScanEntries(f: Format, b: seq<byte>) returns (entries: seq<Entry>, validEnd: nat, ghost offsets: seq<nat>)
    ensures entries == f.Scan(b, HEADER_LEN).0 && validEnd == f.Scan(b, HEADER_LEN).1
    ensures Lies(f, b, entries, offsets) && offsets[0] == HEADER_LEN && offsets[|entries|] == validEnd
  {
    offsets := ScanLies(f, b, HEADER_LEN);
    LiesLength(f, b, f.Scan(b, HEADER_LEN).0, offsets);
    entries, validEnd := [], HEADER_LEN;
    assert Found(f, b, entries, validEnd) by { assert [] + f.Scan(b, HEADER_LEN).0 == f.Scan(b, HEADER_LEN).0; }
    hide Lies, Format.ParseEntry, Format.Scan, Found, EntryAt;
    while true
      invariant Found(f, b, entries, validEnd)
      decreases |b| - validEnd
    {
      FoundNext(f, b, entries, validEnd);
      var read := ReadEntry(f, b, validEnd);
      if read.None? { return; }
      entries, validEnd := entries + [read.value.0], read.value.1;
    }
  }

  lemma LiesLength(f: Format, b: seq<byte>, entries: seq<Entry>, offsets: seq<nat>)
    requires Lies(f, b, entries, offsets)
    ensures |offsets| == |entries| + 1
  {}
}
