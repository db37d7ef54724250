/** Packed fact pages: many facts per page, addressed by (page, slot). */
module PackedPages {
  import opened Bytes
  import opened SlottedPage
  import opened Facts
  import opened BTreePages
  import opened BTreeModel

  const PAGE_TYPE_PACKED := 0x02
  const MAX_FACT_BYTES := 4080

  ghost function Encoded(c: FactCodec, fs: seq<Fact>): (r: seq<Record>)
    ensures |r| == |fs| && forall i :: 0 <= i < |fs| ==> r[i] == c.enc(fs[i])
  {
    seq(|fs|, i requires 0 <= i < |fs| => c.enc(fs[i]))
  }

  /** `p` is a packed page of exactly the facts `fs`. */
  ghost predicate PackedHolds(c: FactCodec, p: seq<byte>, fs: seq<Fact>) {
    && SlotsHold(p, HEADER_SIZE, Encoded(c, fs))
    && p[0] == PAGE_TYPE_PACKED && U16At(p, 2) == |fs|
  }

  // ----- reading -----

  /** One fact of a packed page, None where the source reports an error. */
  function ReadFact(c: FactCodec, p: seq<byte>, slot: nat): Option<Fact> {
    if |p| < PAGE_SIZE || p[0] != PAGE_TYPE_PACKED || slot >= U16At(p, 2) then None
    else
      match ReadSlot(p[..PAGE_SIZE], HEADER_SIZE, slot)
      case None => None
      case Some(r) => c.dec(r)
  }

  lemma {:induction false} ReadFactHeld(c: FactCodec, p: seq<byte>, fs: seq<Fact>, slot: nat)
    requires c.Valid() && PackedHolds(c, p, fs) && slot < |fs|
    ensures ReadFact(c, p, slot) == Some(fs[slot])
  {
    assert p[..PAGE_SIZE] == p;
    ReadSlotHeld(p, HEADER_SIZE, Encoded(c, fs), slot);
  }

  /** A slot reads as a fact if and only if the page is a whole packed page with that many slots and its bytes decode to it. */
  lemma {:induction false} ReadFactIff(c: FactCodec, p: seq<byte>, slot: nat, f: Fact)
    ensures ReadFact(c, p, slot) == Some(f) <==>
      && |p| >= 4096 && p[0] == 2 && slot < Field(p, 2, 2)
      && exists r :: ReadSlot(p[..4096], 12, slot) == Some(r) && c.dec(r) == Some(f)
  {
    if |p| >= 4096 { U16IsField(p, 2, 0); }
    hide ReadSlot, Field, U16At;
  }

  /** Facts of the first `n` pages, in order. */
  function FactsUpto(layout: seq<seq<Fact>>, n: nat): seq<Fact>
    requires n <= |layout|
  {
    if n == 0 then [] else FactsUpto(layout, n - 1) + layout[n - 1]
  }

  function PageRefs(page: nat, n: nat): (r: seq<FactRef>)
    ensures |r| == n && forall i :: 0 <= i < n ==> r[i] == FactRef(page, i)
  {
    seq(n, i requires 0 <= i < n => FactRef(page, i))
  }

  /** Where those facts are: page `start + k`, slots from 0. */
  function RefsUpto(layout: seq<seq<Fact>>, n: nat, start: nat): seq<FactRef>
    requires n <= |layout|
  {
    if n == 0 then [] else RefsUpto(layout, n - 1, start) + PageRefs(start + n - 1, |layout[n - 1]|)
  }

  lemma {:induction false} UptoLengths(layout: seq<seq<Fact>>, n: nat, start: nat)
    requires n <= |layout|
    ensures |FactsUpto(layout, n)| == |RefsUpto(layout, n, start)|
  {
    if n > 0 { UptoLengths(layout, n - 1, start); }
  }

  lemma {:induction false} UptoSame(a: seq<seq<Fact>>, b: seq<seq<Fact>>, n: nat, start: nat)
    requires n <= |a| && n <= |b| && forall i :: 0 <= i < n ==> a[i] == b[i]
    ensures FactsUpto(a, n) == FactsUpto(b, n) && RefsUpto(a, n, start) == RefsUpto(b, n, start)
  {
    if n > 0 { UptoSame(a, b, n - 1, start); }
  }

  ghost predicate Laid(c: FactCodec, pages: seq<seq<byte>>, layout: seq<seq<Fact>>) {
    |pages| == |layout| && forall k :: 0 <= k < |pages| ==> PackedHolds(c, pages[k], layout[k])
  }

  /** Each ref leads back to its fact. */
  lemma {:induction false} RefResolves(c: FactCodec, pages: seq<seq<byte>>, layout: seq<seq<Fact>>, n: nat, start: nat, j: nat)
    requires c.Valid() && Laid(c, pages, layout) && n <= |layout| && j < |FactsUpto(layout, n)|
    ensures |RefsUpto(layout, n, start)| == |FactsUpto(layout, n)|
    ensures var r := RefsUpto(layout, n, start)[j];
      && start <= r.page < start + n
      && ReadFact(c, pages[r.page - start], r.slot) == Some(FactsUpto(layout, n)[j])
  {
    hide PackedHolds;
    UptoLengths(layout, n, start);
    UptoLengths(layout, n - 1, start);
    var before := |FactsUpto(layout, n - 1)|;
    if j < before {
      RefResolves(c, pages, layout, n - 1, start, j);
    } else {
      ReadFactHeld(c, pages[n - 1], layout[n - 1], j - before);
    }
  }

  // ----- packing -----

  /** The page under construction: its records, and room figures that match them. */
  ghost predicate Open(c: FactCodec, p: seq<byte>, cur: seq<Fact>, count: nat, dirOffset: nat, dataOffset: nat) {
    && SlotsHold(p, HEADER_SIZE, Encoded(c, cur)) && p[0] == PAGE_TYPE_PACKED
    && count == |cur| && dirOffset == HEADER_SIZE + 4 * count
    && dataOffset == PAGE_SIZE - TotalLen(Encoded(c, cur))
  }

  method NewPackedPage(c: FactCodec) returns (page: array<byte>)
    ensures fresh(page) && page.Length == PAGE_SIZE && Open(c, page[..], [], 0, HEADER_SIZE, PAGE_SIZE)
  {
    page := new byte[PAGE_SIZE](_ => 0);
    page[0] := PAGE_TYPE_PACKED;
    assert Encoded(c, []) == [];
  }

  /** Write the record count and close the page. */
  method ClosePage(c: FactCodec, page: array<byte>, count: nat, ghost cur: seq<Fact>, ghost dir: nat, ghost data: nat)
    returns (p: seq<byte>)
    requires page.Length == PAGE_SIZE && Open(c, page[..], cur, count, dir, data)
    modifies page
    ensures PackedHolds(c, p, cur)
  {
    ghost var before := page[..];
    CopyInto(page, 2, U16(count));
    SlotsHoldBody(before, page[..], HEADER_SIZE, Encoded(c, cur));
    p := page[..];
    assert p[2] == U16(count)[0] && p[3] == U16(count)[1];
  }

  /** Add one record that fits the open page. */
  method AddRecord(c: FactCodec, page: array<byte>, rec: Record, count: nat, dir: nat, data: nat,
                   ghost cur: seq<Fact>, ghost f: Fact)
    requires page.Length == PAGE_SIZE && Open(c, page[..], cur, count, dir, data)
    requires rec == c.enc(f) && dir + 4 + |rec| <= data
    modifies page
    ensures Open(c, page[..], cur + [f], count + 1, dir + 4, data - |rec|)
  {
    assert Encoded(c, cur + [f]) == Encoded(c, cur) + [rec];
    TotalLenAppend(Encoded(c, cur), rec);
    PutRecordHolds(page[..], HEADER_SIZE, Encoded(c, cur), rec);
    AppendRecord(page, HEADER_SIZE, count, data, rec);
  }

  lemma LaidAppend(c: FactCodec, pages: seq<seq<byte>>, layout: seq<seq<Fact>>, p: seq<byte>, fs: seq<Fact>, start: nat)
    requires Laid(c, pages, layout) && PackedHolds(c, p, fs)
    ensures Laid(c, pages + [p], layout + [fs])
    ensures FactsUpto(layout + [fs], |layout| + 1) == FactsUpto(layout, |layout|) + fs
    ensures RefsUpto(layout + [fs], |layout| + 1, start) == RefsUpto(layout, |layout|, start) + PageRefs(start + |layout|, |fs|)
  {
    UptoSame(layout, layout + [fs], |layout|, start);
  }

  /** The first record of the next page does not fit this one. */
  ghost predicate Filled(c: FactCodec, page: seq<Fact>, next: seq<Fact>) {
    next != [] && 12 + 4 * (|page| + 1) + TotalLen(Encoded(c, page)) + |c.enc(next[0])| > 4096
  }

  /** No page is left while the next record fits it. */
  ghost predicate Tight(c: FactCodec, layout: seq<seq<Fact>>) {
    forall k :: 0 <= k < |layout| - 1 ==> Filled(c, layout[k], layout[k + 1])
  }

  /** The pages closed so far are tight, and the open page holds what did not fit the last of them. */
  ghost predicate TightTo(c: FactCodec, layout: seq<seq<Fact>>, cur: seq<Fact>) {
    Tight(c, layout) && (layout != [] ==> Filled(c, layout[|layout| - 1], cur))
  }

  lemma TightClosed(c: FactCodec, layout: seq<seq<Fact>>, cur: seq<Fact>)
    requires TightTo(c, layout, cur)
    ensures Tight(c, layout + [cur])
  {
    hide Filled;
    var all := layout + [cur];
    forall k | 0 <= k < |all| - 1 ensures Filled(c, all[k], all[k + 1]) {
      if k < |layout| - 1 { assert all[k] == layout[k] && all[k + 1] == layout[k + 1]; }
    }
  }

  /** One more record, on a new page when it does not fit. */
  lemma TightStep(c: FactCodec, layout: seq<seq<Fact>>, cur: seq<Fact>, f: Fact, full: bool)
    requires TightTo(c, layout, cur) && (full ==> Filled(c, cur, [f]))
    ensures if full then TightTo(c, layout + [cur], [] + [f]) else TightTo(c, layout, cur + [f])
  {
    if full {
      TightClosed(c, layout, cur);
      assert [] + [f] == [f];
    }
  }

  lemma OpenFilled(c: FactCodec, p: seq<byte>, cur: seq<Fact>, count: nat, dir: nat, data: nat, f: Fact, full: bool)
    requires Open(c, p, cur, count, dir, data) && c.enc(f) != []
    requires full ==> |c.enc(f)| > (if data >= dir + 4 then data - (dir + 4) else 0) || count == 0xFFFF
    ensures full ==> Filled(c, cur, [f]) && (|c.enc(f)| <= MAX_FACT_BYTES ==> cur != [])
    ensures count == |cur|
  {}

  /** Pack facts into pages: the pages hold exactly `facts`, in order, at the returned refs.
      Fails exactly when some fact is too large for a page. */
  method PackFacts(c: FactCodec, facts: seq<Fact>, start: nat)
    returns (r: Option<(seq<seq<byte>>, seq<FactRef>)>, ghost layout: seq<seq<Fact>>)
    requires c.Valid()
    ensures r.None? <==> exists i :: 0 <= i < |facts| && |c.enc(facts[i])| > MAX_FACT_BYTES
    ensures r.Some? ==> Laid(c, r.value.0, layout) && layout != []
    ensures r.Some? ==> FactsUpto(layout, |layout|) == facts && RefsUpto(layout, |layout|, start) == r.value.1
    ensures r.Some? ==> |layout| <= |facts| + 1 && Tight(c, layout)
  {
    hide Open, Packing, Laid, PackedHolds, FactsUpto, RefsUpto, Tight, Filled;
    var pages, refs: seq<FactRef> := [], [];
    layout := [];
    PackingStarts(c, facts, start);
    var page := NewPackedPage(c);
    var count: nat, dir: nat, data: nat := 0, HEADER_SIZE, PAGE_SIZE;
    ghost var cur: seq<Fact> := [];
    for i := 0 to |facts|
      invariant fresh(page) && page.Length == PAGE_SIZE && Open(c, page[..], cur, count, dir, data)
      invariant Packing(c, facts, i, start, pages, layout, cur, refs)
      invariant forall j :: 0 <= j < i ==> |c.enc(facts[j])| <= MAX_FACT_BYTES
    {
      var rec := c.enc(facts[i]);
      if |rec| > MAX_FACT_BYTES { return None, []; }
      var free := if data >= dir + 4 then data - (dir + 4) else 0;
      OpenEmpty(c, page[..], cur, count, dir, data);
      var full := |rec| > free || count == 0xFFFF;
      OpenFilled(c, page[..], cur, count, dir, data, facts[i], full);
      if full {
        var p := ClosePage(c, page, count, cur, dir, data);
        PackingCloses(c, facts, i, start, pages, layout, cur, refs, p);
        pages, layout, cur := pages + [p], layout + [cur], [];
        page := NewPackedPage(c);
        count, dir, data := 0, HEADER_SIZE, PAGE_SIZE;
      } else {
        PackingAdds(c, facts, i, start, pages, layout, cur, refs);
      }
      AddRecord(c, page, rec, count, dir, data, cur, facts[i]);
      refs := refs + [FactRef(start + |pages|, count)];
      cur := cur + [facts[i]];
      count, dir, data := count + 1, dir + 4, data - |rec|;
    }
    var p := ClosePage(c, page, count, cur, dir, data);
    PackingEnds(c, facts, start, pages, layout, cur, refs, p);
    layout := layout + [cur];
    r := Some((pages + [p], refs));
  }

  /** The first `i` facts are packed: in the pages closed so far and the open one, at their refs. */
  ghost predicate Packing(c: FactCodec, facts: seq<Fact>, i: nat, start: nat, pages: seq<seq<byte>>, layout: seq<seq<Fact>>,
                          cur: seq<Fact>, refs: seq<FactRef>) {
    && i <= |facts| && Laid(c, pages, layout) && |layout| + |cur| <= i && TightTo(c, layout, cur)
    && FactsUpto(layout, |layout|) + cur == facts[..i]
    && refs == RefsUpto(layout, |layout|, start) + PageRefs(start + |layout|, |cur|)
  }

  lemma PackingStarts(c: FactCodec, facts: seq<Fact>, start: nat)
    ensures Packing(c, facts, 0, start, [], [], [], [])
  {
    LaidEmpty(c, start);
    TightNone(c);
  }

  lemma PackingAdds(c: FactCodec, facts: seq<Fact>, i: nat, start: nat, pages: seq<seq<byte>>, layout: seq<seq<Fact>>,
                    cur: seq<Fact>, refs: seq<FactRef>)
    requires i < |facts| && Packing(c, facts, i, start, pages, layout, cur, refs)
    ensures Packing(c, facts, i + 1, start, pages, layout, cur + [facts[i]], refs + [FactRef(start + |pages|, |cur|)])
  {
    hide PackedHolds, FactsUpto, RefsUpto, TightTo;
    TightStep(c, layout, cur, facts[i], false);
    PackedStep(layout, cur, facts, i, refs, start);
  }

  lemma PackingCloses(c: FactCodec, facts: seq<Fact>, i: nat, start: nat, pages: seq<seq<byte>>, layout: seq<seq<Fact>>,
                      cur: seq<Fact>, refs: seq<FactRef>, p: seq<byte>)
    requires i < |facts| && Packing(c, facts, i, start, pages, layout, cur, refs) && PackedHolds(c, p, cur) && Filled(c, cur, [facts[i]])
    requires cur != []
    ensures Packing(c, facts, i + 1, start, pages + [p], layout + [cur], [] + [facts[i]], refs + [FactRef(start + |pages + [p]|, 0)])
  {
    hide PackedHolds, FactsUpto, RefsUpto, TightTo, Filled;
    TightStep(c, layout, cur, facts[i], true);
    LaidAppend(c, pages, layout, p, cur, start);
    var layout' := layout + [cur];
    assert FactsUpto(layout', |layout'|) + [] == facts[..i];
    assert refs == RefsUpto(layout', |layout'|, start) + PageRefs(start + |layout'|, 0);
    PackedStep(layout', [], facts, i, refs, start);
  }

  lemma PackingEnds(c: FactCodec, facts: seq<Fact>, start: nat, pages: seq<seq<byte>>, layout: seq<seq<Fact>>,
                    cur: seq<Fact>, refs: seq<FactRef>, p: seq<byte>)
    requires Packing(c, facts, |facts|, start, pages, layout, cur, refs) && PackedHolds(c, p, cur)
    ensures var all := layout + [cur];
      && Laid(c, pages + [p], all) && all != [] && FactsUpto(all, |all|) == facts && RefsUpto(all, |all|, start) == refs
      && |all| <= |facts| + 1 && Tight(c, all)
  {
    hide PackedHolds, FactsUpto, RefsUpto, TightTo;
    LaidAppend(c, pages, layout, p, cur, start);
    TightClosed(c, layout, cur);
    assert facts[..|facts|] == facts;
  }

  lemma TightNone(c: FactCodec)
    ensures TightTo(c, [], [])
  {}

  lemma OpenEmpty(c: FactCodec, p: seq<byte>, cur: seq<Fact>, count: nat, dir: nat, data: nat)
    requires Open(c, p, cur, count, dir, data)
    ensures count == 0 ==> dir == HEADER_SIZE && data == PAGE_SIZE
  {}

  /** A page has at most 1021 slots. */
  lemma SlotsFew(c: FactCodec, p: seq<byte>, fs: seq<Fact>)
    requires PackedHolds(c, p, fs)
    ensures |fs| <= 1021
  {}

  lemma LaidEmpty(c: FactCodec, start: nat)
    ensures Laid(c, [], []) && FactsUpto([], 0) == [] && RefsUpto([], 0, start) == []
  {
  }

  lemma PackedStep(layout: seq<seq<Fact>>, cur: seq<Fact>, facts: seq<Fact>, i: nat, refs: seq<FactRef>, start: nat)
    requires i < |facts| && FactsUpto(layout, |layout|) + cur == facts[..i]
    requires refs == RefsUpto(layout, |layout|, start) + PageRefs(start + |layout|, |cur|)
    ensures FactsUpto(layout, |layout|) + (cur + [facts[i]]) == facts[..i + 1]
    ensures refs + [FactRef(start + |layout|, |cur|)]
         == RefsUpto(layout, |layout|, start) + PageRefs(start + |layout|, |cur| + 1)
  {
  }

  predicate IsPacked(p: seq<byte>) { |p| >= PAGE_SIZE && p[0] == PAGE_TYPE_PACKED }

  /** The first `n` slots of a page, None at the first that does not read. */
  function SlotsUpto(c: FactCodec, p: seq<byte>, n: nat): Option<seq<Fact>> {
    if n == 0 then Some([])
    else
      match (SlotsUpto(c, p, n - 1), ReadFact(c, p, n - 1))
      case (Some(fs), Some(f)) => Some(fs + [f])
      case _ => None
  }

  /** What a page contributes: its slots, or nothing when it is short or of another type. */
  function PageFacts(c: FactCodec, p: seq<byte>): Option<seq<Fact>> {
    if IsPacked(p) then SlotsUpto(c, p, U16At(p, 2)) else Some([])
  }

  /** What the first `n` pages contribute, page by page; None when a slot does not read. */
  function PagesUpto(c: FactCodec, pages: seq<seq<byte>>, n: nat): Option<seq<seq<Fact>>>
    requires n <= |pages|
  {
    if n == 0 then Some([])
    else
      match (PagesUpto(c, pages, n - 1), PageFacts(c, pages[n - 1]))
      case (Some(layout), Some(fs)) => Some(layout + [fs])
      case _ => None
  }

  lemma {:induction false} SlotsStuck(c: FactCodec, p: seq<byte>, m: nat, n: nat)
    requires m <= n && SlotsUpto(c, p, m) == None
    ensures SlotsUpto(c, p, n) == None
  {
    if m < n { SlotsStuck(c, p, m, n - 1); }
  }

  lemma {:induction false} PagesStuck(c: FactCodec, pages: seq<seq<byte>>, m: nat, n: nat)
    requires m <= n <= |pages| && PagesUpto(c, pages, m) == None
    ensures PagesUpto(c, pages, n) == None
  {
    if m < n { PagesStuck(c, pages, m, n - 1); }
  }

  /** What a page reads as: every slot of a packed page, nothing for another. */
  ghost predicate PageReads(c: FactCodec, p: seq<byte>, fs: seq<Fact>) {
    if |p| >= 4096 && p[0] == 2 then |fs| == Field(p, 2, 2) && forall i :: 0 <= i < |fs| ==> ReadFact(c, p, i) == Some(fs[i])
    else fs == []
  }

  lemma {:induction false} SlotsIff(c: FactCodec, p: seq<byte>, n: nat, fs: seq<Fact>)
    ensures SlotsUpto(c, p, n) == Some(fs) <==> |fs| == n && forall i :: 0 <= i < n ==> ReadFact(c, p, i) == Some(fs[i])
  {
    hide ReadFact;
    if n > 0 {
      if |fs| == n {
        SlotsIff(c, p, n - 1, fs[..n - 1]);
        assert fs == fs[..n - 1] + [fs[n - 1]];
      }
      if SlotsUpto(c, p, n).Some? {
        var before := SlotsUpto(c, p, n - 1).value;
        SlotsIff(c, p, n - 1, before);
        if SlotsUpto(c, p, n) == Some(fs) { assert fs[..n - 1] == before; }
      }
    }
  }

  lemma {:induction false} PageReadsIff(c: FactCodec, p: seq<byte>, fs: seq<Fact>)
    ensures PageFacts(c, p) == Some(fs) <==> PageReads(c, p, fs)
  {
    if |p| >= 4096 && p[0] == 2 {
      U16IsField(p, 2, 0);
      SlotsIff(c, p, U16At(p, 2), fs);
    }
    hide ReadFact, SlotsUpto, Field, U16At;
  }

  /** Reading a run of pages gives what every page reads as; it fails if and only if some page has no reading. */
  lemma {:induction false} PagesIff(c: FactCodec, pages: seq<seq<byte>>, n: nat, layout: seq<seq<Fact>>)
    requires n <= |pages|
    ensures PagesUpto(c, pages, n) == Some(layout) <==> |layout| == n && forall k :: 0 <= k < n ==> PageReads(c, pages[k], layout[k])
  {
    hide PageReads, PageFacts;
    if n > 0 {
      if |layout| == n {
        PagesIff(c, pages, n - 1, layout[..n - 1]);
        PageReadsIff(c, pages[n - 1], layout[n - 1]);
        assert layout == layout[..n - 1] + [layout[n - 1]];
      }
      if PagesUpto(c, pages, n).Some? {
        var before := PagesUpto(c, pages, n - 1).value;
        PagesIff(c, pages, n - 1, before);
        if PagesUpto(c, pages, n) == Some(layout) { assert layout[..n - 1] == before; }
      }
    }
  }

  /** The facts of one packed page, in slot order. */
  method ReadPage(c: FactCodec, page: seq<byte>, id: nat) returns (r: Option<seq<Fact>>, refs: seq<FactRef>)
    requires IsPacked(page)
    ensures r == PageFacts(c, page)
    ensures r.Some? ==> refs == PageRefs(id, |r.value|)
  {
    var facts: seq<Fact>;
    facts, refs := [], [];
    for slot := 0 to U16At(page, 2)
      invariant SlotsUpto(c, page, slot) == Some(facts) && |facts| == slot && refs == PageRefs(id, slot)
    {
      var f := ReadFact(c, page, slot);
      if f.None? {
        SlotsStuck(c, page, slot + 1, U16At(page, 2));
        return None, refs;
      }
      facts, refs := facts + [f.value], refs + [FactRef(id, slot)];
    }
    r := Some(facts);
  }

  /** Read every fact of a run of pages with the ref that addresses it: pages that are not packed are skipped,
      a slot that does not read is an error. */
  method ReadAllWithRefs(c: FactCodec, pages: seq<seq<byte>>, first: nat) returns (r: Option<(seq<Fact>, seq<FactRef>)>)
    ensures match PagesUpto(c, pages, |pages|)
      case None => r == None
      case Some(layout) => r == Some((FactsUpto(layout, |layout|), RefsUpto(layout, |layout|, first)))
  {
    hide FactsUpto, RefsUpto, PagesUpto, PageFacts, IsPacked;
    var facts, refs := [], [];
    ghost var layout: seq<seq<Fact>> := [];
    NoPages(c, pages, first);
    for k := 0 to |pages|
      invariant PagesUpto(c, pages, k) == Some(layout) && |layout| == k
      invariant facts == FactsUpto(layout, k) && refs == RefsUpto(layout, k, first)
    {
      PagesNext(c, pages, k, layout);
      if !IsPacked(pages[k]) {
        LayoutGrows(layout, [], first);
        layout := layout + [[]];
        continue;
      }
      var got, more := ReadPage(c, pages[k], first + k);
      if got.None? {
        PagesStuck(c, pages, k + 1, |pages|);
        return None;
      }
      LayoutGrows(layout, got.value, first);
      layout := layout + [got.value];
      facts, refs := facts + got.value, refs + more;
    }
    r := Some((facts, refs));
  }

  lemma NoPages(c: FactCodec, pages: seq<seq<byte>>, first: nat)
    ensures PagesUpto(c, pages, 0) == Some([]) && FactsUpto([], 0) == [] && RefsUpto([], 0, first) == []
  {}

  lemma PagesNext(c: FactCodec, pages: seq<seq<byte>>, k: nat, layout: seq<seq<Fact>>)
    requires k < |pages| && PagesUpto(c, pages, k) == Some(layout)
    ensures !IsPacked(pages[k]) ==> PagesUpto(c, pages, k + 1) == Some(layout + [[]])
    ensures PageFacts(c, pages[k]) == None ==> PagesUpto(c, pages, k + 1) == None
    ensures PageFacts(c, pages[k]).Some? ==> PagesUpto(c, pages, k + 1) == Some(layout + [PageFacts(c, pages[k]).value])
  {
    hide SlotsUpto;
  }

  lemma LayoutGrows(layout: seq<seq<Fact>>, fs: seq<Fact>, first: nat)
    ensures FactsUpto(layout + [fs], |layout| + 1) == FactsUpto(layout, |layout|) + fs
    ensures RefsUpto(layout + [fs], |layout| + 1, first) == RefsUpto(layout, |layout|, first) + PageRefs(first + |layout|, |fs|)
  {
    UptoSame(layout, layout + [fs], |layout|, first);
  }

  lemma {:induction false} SlotsHeld(c: FactCodec, p: seq<byte>, fs: seq<Fact>, n: nat)
    requires c.Valid() && PackedHolds(c, p, fs) && n <= |fs|
    ensures SlotsUpto(c, p, n) == Some(fs[..n])
  {
    if n > 0 {
      SlotsHeld(c, p, fs, n - 1);
      ReadFactHeld(c, p, fs, n - 1);
      assert fs[..n] == fs[..n - 1] + [fs[n - 1]];
    }
  }

  /** Pages that were packed read back as their layout, wherever other pages stand between them. */
  lemma {:induction false} LaidReads(c: FactCodec, pages: seq<seq<byte>>, layout: seq<seq<Fact>>, n: nat)
    requires c.Valid() && n <= |pages| == |layout|
    requires forall k :: 0 <= k < |pages| ==> PackedHolds(c, pages[k], layout[k]) || (layout[k] == [] && !IsPacked(pages[k]))
    ensures PagesUpto(c, pages, n) == Some(layout[..n])
  {
    if n > 0 {
      LaidReads(c, pages, layout, n - 1);
      var p, fs := pages[n - 1], layout[n - 1];
      if PackedHolds(c, p, fs) {
        SlotsHeld(c, p, fs, |fs|);
        assert fs[..|fs|] == fs;
      }
      assert layout[..n] == layout[..n - 1] + [fs];
    }
  }

  /** Refs of batches packed one after another are the refs of the joined layout. */
  lemma {:induction false} BatchesJoin(a: seq<seq<Fact>>, b: seq<seq<Fact>>, n: nat, start: nat)
    requires n <= |b|
    ensures FactsUpto(a + b, |a| + n) == FactsUpto(a, |a|) + FactsUpto(b, n)
    ensures RefsUpto(a + b, |a| + n, start) == RefsUpto(a, |a|, start) + RefsUpto(b, n, start + |a|)
  {
    hide FactsUpto, RefsUpto, PageRefs;
    if n == 0 {
      UptoSame(a, a + b, |a|, start);
      UptoNone(b, start + |a|);
    } else {
      BatchesJoin(a, b, n - 1, start);
      assert (a + b)[|a| + n - 1] == b[n - 1];
      UptoNext(a + b, |a| + n - 1, b[n - 1], start);
      UptoNext(b, n - 1, b[n - 1], start + |a|);
    }
  }

  lemma UptoNone(layout: seq<seq<Fact>>, start: nat)
    ensures FactsUpto(layout, 0) == [] && RefsUpto(layout, 0, start) == []
  {}

  lemma UptoNext(layout: seq<seq<Fact>>, n: nat, fs: seq<Fact>, start: nat)
    requires n < |layout| && layout[n] == fs
    ensures FactsUpto(layout, n + 1) == FactsUpto(layout, n) + fs
    ensures RefsUpto(layout, n + 1, start) == RefsUpto(layout, n, start) + PageRefs(start + n, |fs|)
  {
    hide PageRefs;
  }
}
