/** Leaf and internal pages of the on-disk B+tree, byte for byte. */
module BTreePages {
  import opened Bytes
  import opened SlottedPage

  const PAGE_TYPE_LEAF := 0x21
  const PAGE_TYPE_INTERNAL := 0x22

  /** A leaf: header with entry count and `next_leaf`, then the slotted entries. */
  ghost predicate LeafHolds(p: seq<byte>, recs: seq<Record>, next: nat) {
    && SlotsHold(p, HEADER_SIZE, recs)
    && p[0] == PAGE_TYPE_LEAF
    && U16At(p, 2) == |recs|
    && Field(p, 4, 8) == next
  }

  /** An internal node: key count and rightmost child in the header, the other
      children as an array, then the slotted separators. */
  ghost predicate InternalHolds(p: seq<byte>, kids: seq<nat>, seps: seq<Record>) {
    && |kids| == |seps| + 1
    && SlotsHold(p, HEADER_SIZE + 8 * |seps|, seps)
    && p[0] == PAGE_TYPE_INTERNAL
    && U16At(p, 2) == |seps|
    && Field(p, 4, 8) == kids[|seps|]
    && forall i :: 0 <= i < |seps| ==> Field(p, HEADER_SIZE + 8 * i, 8) == kids[i]
  }

  lemma SlotsHoldBody(p: seq<byte>, q: seq<byte>, dir: nat, recs: seq<Record>)
    requires SlotsHold(p, dir, recs) && Agree(p, q, 0, dir)
    ensures SlotsHold(q, dir, recs)
  {
    forall i | 0 <= i < |recs| ensures SlotHolds(q, dir, recs, i) {
      assert SlotHolds(p, dir, recs, i);
      SumMono(recs, i + 1, |recs|);
    }
  }

  lemma SameField(p: seq<byte>, q: seq<byte>, off: nat, n: nat)
    requires off + n <= |p| == |q|
    requires forall k :: off <= k < off + n ==> q[k] == p[k]
    ensures Field(q, off, n) == Field(p, off, n)
  {
    assert q[off..off + n] == p[off..off + n];
  }

  lemma SplicedField(p: seq<byte>, off: nat, v: nat)
    requires off + 8 <= |p| && v < Pow256(8)
    ensures Field(Splice(p, off, LE(v, 8)), off, 8) == v
  {
    LERoundTrip(v, 8);
    var q := Splice(p, off, LE(v, 8));
    assert q[off..off + 8] == LE(v, 8);
  }

  /** `page[4..12]` overwritten with a new `next_leaf`. */
  function WithNext(p: seq<byte>, next: nat): (q: seq<byte>)
    requires |p| == PAGE_SIZE && next < U64_SIZE
    ensures |q| == PAGE_SIZE
    ensures forall k :: 0 <= k < PAGE_SIZE && !(4 <= k < 12) ==> q[k] == p[k]
  {
    Widths();
    Splice(p, 4, LE(next, 8))
  }

  /** Patching `next_leaf` changes the link and nothing a reader of the entries sees. */
  lemma {:induction false} WithNextHolds(p: seq<byte>, recs: seq<Record>, oldNext: nat, next: nat)
    requires LeafHolds(p, recs, oldNext) && next < U64_SIZE
    ensures LeafHolds(WithNext(p, next), recs, next)
  {
    Widths();
    var q := WithNext(p, next);
    SlotsHoldBody(p, q, HEADER_SIZE, recs);
    SplicedField(p, 4, next);
  }

  /** The type byte, the 16-bit count and the 64-bit link that open both node kinds. */
  method WriteHeader(page: array<byte>, pageType: byte, count: nat, link: nat)
    requires page.Length == PAGE_SIZE && count < 0x1_0000 && link < U64_SIZE
    modifies page
    ensures page[0] == pageType && U16At(page[..], 2) == count && Field(page[..], 4, 8) == link
  {
    Widths();
    page[0] := pageType;
    page[1] := 0;
    CopyInto(page, 2, U16(count));
    SplicedField(page[..], 4, link);
    CopyInto(page, 4, LE(link, 8));
  }

  /** Header fields survive writes at or above the directory. */
  lemma HeaderKept(p: seq<byte>, q: seq<byte>, dir: nat)
    requires |p| == PAGE_SIZE && Agree(p, q, dir, PAGE_SIZE) && HEADER_SIZE <= dir <= PAGE_SIZE
    ensures q[0] == p[0] && U16At(q, 2) == U16At(p, 2) && Field(q, 4, 8) == Field(p, 4, 8)
  {
    SameField(p, q, 4, 8);
  }

  /** The end-to-start record loop common to both page writers. */
  method WriteRecords(page: array<byte>, dir: nat, recs: seq<Record>)
    requires page.Length == PAGE_SIZE && Room(dir, recs)
    modifies page
    ensures SlotsHold(page[..], dir, recs)
    ensures Agree(old(page[..]), page[..], dir, PAGE_SIZE)
  {
    var writePos := PAGE_SIZE;
    ghost var before := page[..];
    NothingWritten(before, dir, recs);
    hide SlotsHold, Room, TotalLen, PutRecord, Agree;
    for i := 0 to |recs|
      invariant writePos == PAGE_SIZE - TotalLen(recs[..i])
      invariant SlotsHold(page[..], dir, recs[..i])
      invariant Agree(before, page[..], dir, PAGE_SIZE)
    {
      ghost var now := page[..];
      assert recs[..i + 1] == recs[..i] + [recs[i]];
      RoomPrefix(dir, recs, i + 1);
      PutRecordHolds(now, dir, recs[..i], recs[i]);
      TotalLenAppend(recs[..i], recs[i]);
      AppendRecord(page, dir, i, writePos, recs[i]);
      AgreeTrans(before, now, page[..], dir);
      writePos := writePos - |recs[i]|;
    }
    assert recs[..|recs|] == recs;
  }

  lemma NothingWritten(p: seq<byte>, dir: nat, recs: seq<Record>)
    requires |p| == PAGE_SIZE && Room(dir, recs)
    ensures TotalLen(recs[..0]) == 0 && SlotsHold(p, dir, recs[..0]) && Agree(p, p, dir, PAGE_SIZE)
  {}

  lemma AgreeTrans(p: seq<byte>, q: seq<byte>, r: seq<byte>, dir: nat)
    requires Agree(p, q, dir, PAGE_SIZE) && Agree(q, r, dir, PAGE_SIZE)
    ensures Agree(p, r, dir, PAGE_SIZE)
  {}

  lemma {:induction false} SumPrefix(recs: seq<Record>, n: nat, i: nat)
    requires i <= n <= |recs|
    ensures Sum(recs[..n], i) == Sum(recs, i)
  {
    if i > 0 { SumPrefix(recs, n, i - 1); }
  }

  lemma RoomPrefix(dir: nat, recs: seq<Record>, i: nat)
    requires Room(dir, recs) && i <= |recs|
    ensures Room(dir, recs[..i])
  {
    SumPrefix(recs, i, i);
    SumMono(recs, i, |recs|);
  }

  /** Encode a leaf: it decodes to exactly `recs`, and everything fits one page. */
  method EncodeLeafPage(recs: seq<Record>, next: nat) returns (p: seq<byte>)
    requires Room(HEADER_SIZE, recs) && next < U64_SIZE
    ensures LeafHolds(p, recs, next)
  {
    var page := new byte[PAGE_SIZE](_ => 0);
    WriteHeader(page, PAGE_TYPE_LEAF, |recs|, next);
    ghost var header := page[..];
    WriteRecords(page, HEADER_SIZE, recs);
    HeaderKept(header, page[..], HEADER_SIZE);
    p := page[..];
  }

  /** Write the child ids after the header, leaving the header alone. */
  method WriteChildren(page: array<byte>, kids: seq<nat>)
    requires page.Length == PAGE_SIZE && HEADER_SIZE + 8 * |kids| <= PAGE_SIZE
    requires forall i :: 0 <= i < |kids| ==> kids[i] < U64_SIZE
    modifies page
    ensures page[..HEADER_SIZE] == old(page[..HEADER_SIZE])
    ensures forall j :: 0 <= j < |kids| ==> Field(page[..], HEADER_SIZE + 8 * j, 8) == kids[j]
  {
    Widths();
    hide Field, LE;
    for i := 0 to |kids|
      invariant page[..HEADER_SIZE] == old(page[..HEADER_SIZE])
      invariant forall j :: 0 <= j < i ==> Field(page[..], HEADER_SIZE + 8 * j, 8) == kids[j]
    {
      ghost var before := page[..];
      CopyInto(page, HEADER_SIZE + 8 * i, LE(kids[i], 8));
      SplicedField(before, HEADER_SIZE + 8 * i, kids[i]);
      forall j | 0 <= j < i ensures Field(page[..], HEADER_SIZE + 8 * j, 8) == kids[j] {
        SameField(before, page[..], HEADER_SIZE + 8 * j, 8);
      }
      assert page[..HEADER_SIZE] == before[..HEADER_SIZE];
    }
  }

  /** Encode an internal node over `kids`, separated by `seps`. */
  method EncodeInternalPage(kids: seq<nat>, seps: seq<Record>) returns (p: seq<byte>)
    requires |kids| == |seps| + 1 && forall i :: 0 <= i < |kids| ==> kids[i] < U64_SIZE
    requires Room(HEADER_SIZE + 8 * |seps|, seps)
    ensures InternalHolds(p, kids, seps)
  {
    Widths();
    var n := |seps|;
    var dir := HEADER_SIZE + 8 * n;
    var page := new byte[PAGE_SIZE](_ => 0);
    WriteHeader(page, PAGE_TYPE_INTERNAL, n, kids[n]);
    ghost var empty := page[..];
    WriteChildren(page, kids[..n]);
    HeaderKept(empty, page[..], HEADER_SIZE);
    ghost var header := page[..];
    hide Field;
    WriteRecords(page, dir, seps);
    HeaderKept(header, page[..], dir);
    forall j | 0 <= j < n ensures Field(page[..], HEADER_SIZE + 8 * j, 8) == kids[j] {
      SameField(header, page[..], HEADER_SIZE + 8 * j, 8);
    }
    p := page[..];
  }
}
