/** The slotted page all three page kinds share: a directory of (offset, length)
    slots growing up from `dir`, and records growing down from the page end. */
module SlottedPage {
  import opened Bytes

  const PAGE_SIZE := 4096
  const HEADER_SIZE := 12

  type Record = seq<byte>

  /** Bytes of the first `i` records. */
  function Sum(recs: seq<Record>, i: nat): nat
    requires i <= |recs|
  {
    if i == 0 then 0 else Sum(recs, i - 1) + |recs[i - 1]|
  }

  function TotalLen(recs: seq<Record>): nat { Sum(recs, |recs|) }

  lemma {:induction false} SumAppend(recs: seq<Record>, r: Record, i: nat)
    requires i <= |recs|
    ensures Sum(recs + [r], i) == Sum(recs, i)
  {
    if i > 0 { SumAppend(recs, r, i - 1); }
  }

  lemma TotalLenAppend(recs: seq<Record>, r: Record)
    ensures TotalLen(recs + [r]) == TotalLen(recs) + |r|
  {
    SumAppend(recs, r, |recs|);
  }

  lemma {:induction false} SumMono(recs: seq<Record>, i: nat, j: nat)
    requires i <= j <= |recs|
    ensures Sum(recs, i) <= Sum(recs, j)
    decreases j
  {
    if i < j { SumMono(recs, i, j - 1); }
  }

  /** Directory and records fit the page together. */
  predicate Room(dir: nat, recs: seq<Record>) {
    dir + 4 * |recs| + TotalLen(recs) <= PAGE_SIZE
  }

  /** Where record `i` starts: records are written end to start, in order. */
  function Offset(recs: seq<Record>, i: nat): int
    requires i < |recs|
  {
    PAGE_SIZE - Sum(recs, i + 1)
  }

  /** The slot at byte `s` names offset `off`, and the bytes there are `rec`. */
  ghost predicate SlotAt(p: seq<byte>, s: nat, off: nat, rec: Record) {
    && |p| == PAGE_SIZE && s + 4 <= PAGE_SIZE && off + |rec| <= PAGE_SIZE
    && U16At(p, s) == off
    && U16At(p, s + 2) == |rec|
    && forall k :: 0 <= k < |rec| ==> p[off + k] == rec[k]
  }

  ghost predicate SlotHolds(p: seq<byte>, dir: nat, recs: seq<Record>, i: nat)
    requires i < |recs|
  {
    0 <= Offset(recs, i) && SlotAt(p, dir + 4 * i, Offset(recs, i), recs[i])
  }

  /** `p` stores exactly `recs`, its directory at `dir`. */
  ghost predicate SlotsHold(p: seq<byte>, dir: nat, recs: seq<Record>) {
    && |p| == PAGE_SIZE
    && Room(dir, recs)
    && forall i :: 0 <= i < |recs| ==> SlotHolds(p, dir, recs, i)
  }

  /** Records never overlap one another, and all lie above the directory. */
  lemma {:induction false} SlotsDisjoint(p: seq<byte>, dir: nat, recs: seq<Record>, i: nat, j: nat)
    requires SlotsHold(p, dir, recs) && i < j < |recs|
    ensures Offset(recs, j) + |recs[j]| <= Offset(recs, i)
    ensures dir + 4 * |recs| <= Offset(recs, j)
  {
    SumMono(recs, i + 1, j);
    SumMono(recs, j + 1, |recs|);
  }

  /** The bytes of slot `i`, or None where the source reports "out of bounds". */
  function ReadSlot(p: seq<byte>, dir: nat, i: nat): Option<Record> {
    if dir + 4 * i + 4 > |p| then None
    else
      var off := U16At(p, dir + 4 * i);
      var len := U16At(p, dir + 4 * i + 2);
      if off + len > |p| then None else Some(p[off..off + len])
  }

  /** On any page a slot reads as `r` if and only if its directory entry lies inside the page and leads to those bytes. */
  lemma {:induction false} ReadSlotIff(p: seq<byte>, dir: nat, i: nat, r: Record)
    ensures ReadSlot(p, dir, i) == Some(r) <==>
      && dir + 4 * i + 4 <= |p| && Field(p, dir + 4 * i + 2, 2) == |r|
      && Field(p, dir + 4 * i, 2) + |r| <= |p| && forall k :: 0 <= k < |r| ==> p[Field(p, dir + 4 * i, 2) + k] == r[k]
  {
    if dir + 4 * i + 4 <= |p| {
      U16IsField(p, dir + 4 * i, 0);
      U16IsField(p, dir + 4 * i + 2, 0);
      var off := U16At(p, dir + 4 * i);
      if off + |r| <= |p| && forall k :: 0 <= k < |r| ==> p[off + k] == r[k] { assert p[off..off + |r|] == r; }
    }
    hide Field, U16At;
  }

  lemma {:induction false} ReadSlotHeld(p: seq<byte>, dir: nat, recs: seq<Record>, i: nat)
    requires SlotsHold(p, dir, recs) && i < |recs|
    ensures ReadSlot(p, dir, i) == Some(recs[i])
  {
    assert SlotHolds(p, dir, recs, i);
    var off := Offset(recs, i);
    assert p[off..off + |recs[i]|] == recs[i];
  }

  /** The page after one more record is written below `data` and named by slot `n`. */
  function PutRecord(p: seq<byte>, dir: nat, n: nat, data: nat, rec: Record): (r: seq<byte>)
    requires |p| == PAGE_SIZE && data <= PAGE_SIZE
    requires dir + 4 * n + 4 + |rec| <= data
    ensures |r| == PAGE_SIZE
  {
    Splice(Splice(Splice(p, data - |rec|, rec), dir + 4 * n, U16(data - |rec|)),
           dir + 4 * n + 2, U16(|rec|))
  }

  /** `p` and `q` agree below `m` and from `top` on. */
  ghost predicate Agree(p: seq<byte>, q: seq<byte>, m: int, top: int) {
    |p| == |q| && forall k :: 0 <= k < |p| && (k < m || top <= k) ==> q[k] == p[k]
  }

  lemma PutRecordParts(p: seq<byte>, dir: nat, n: nat, data: nat, rec: Record)
    requires |p| == PAGE_SIZE && data <= PAGE_SIZE
    requires dir + 4 * n + 4 + |rec| <= data
    ensures var q := PutRecord(p, dir, n, data, rec);
      SlotAt(q, dir + 4 * n, data - |rec|, rec) && Agree(p, q, dir + 4 * n, data)
  {
    var d, s := data - |rec|, dir + 4 * n;
    var p1 := Splice(p, d, rec);
    var p2 := Splice(p1, s, U16(d));
    var q := Splice(p2, s + 2, U16(|rec|));
    assert q[s] == U16(d)[0] && q[s + 1] == U16(d)[1] && q[s + 2] == U16(|rec|)[0] && q[s + 3] == U16(|rec|)[1];
    assert forall k :: 0 <= k < |rec| ==> p1[d + k] == rec[k];
  }

  /** A slot survives in a page that agrees below `m`, where the slot is, and above `top`, where its record is. */
  lemma SlotAtKept(p: seq<byte>, q: seq<byte>, s: nat, off: nat, rec: Record, m: nat, top: nat)
    requires SlotAt(p, s, off, rec) && Agree(p, q, m, top)
    requires s + 4 <= m && top <= off
    ensures SlotAt(q, s, off, rec)
  {
  }

  lemma OffsetAppend(recs: seq<Record>, r: Record, i: nat)
    requires i < |recs|
    ensures Offset(recs + [r], i) == Offset(recs, i) >= PAGE_SIZE - TotalLen(recs)
  {
    SumAppend(recs, r, i + 1);
    SumMono(recs, i + 1, |recs|);
  }

  lemma OffsetLast(recs: seq<Record>, r: Record)
    ensures Offset(recs + [r], |recs|) == PAGE_SIZE - TotalLen(recs) - |r|
  {
    TotalLenAppend(recs, r);
  }

  lemma SlotHoldsIntro(q: seq<byte>, dir: nat, recs: seq<Record>, i: nat, off: nat, rec: Record)
    requires i < |recs| && recs[i] == rec && Offset(recs, i) == off
    requires SlotAt(q, dir + 4 * i, off, rec)
    ensures SlotHolds(q, dir, recs, i)
  {
  }

  lemma SlotHoldsKept(p: seq<byte>, q: seq<byte>, dir: nat, recs: seq<Record>, rec: Record, i: nat)
    requires i < |recs| && SlotHolds(p, dir, recs, i) && Room(dir, recs)
    requires Agree(p, q, dir + 4 * |recs|, PAGE_SIZE - TotalLen(recs))
    ensures SlotHolds(q, dir, recs + [rec], i)
  {
    OffsetAppend(recs, rec, i);
    SlotAtKept(p, q, dir + 4 * i, Offset(recs, i), recs[i], dir + 4 * |recs|, PAGE_SIZE - TotalLen(recs));
    SlotHoldsIntro(q, dir, recs + [rec], i, Offset(recs, i), recs[i]);
  }

  /** One more slot and record, everything below and above them as before. */
  lemma SlotsExtend(p: seq<byte>, q: seq<byte>, dir: nat, recs: seq<Record>, rec: Record)
    requires SlotsHold(p, dir, recs) && Room(dir, recs + [rec])
    requires TotalLen(recs + [rec]) == TotalLen(recs) + |rec|
    requires SlotAt(q, dir + 4 * |recs|, PAGE_SIZE - TotalLen(recs) - |rec|, rec)
    requires Agree(p, q, dir + 4 * |recs|, PAGE_SIZE - TotalLen(recs))
    ensures SlotsHold(q, dir, recs + [rec])
  {
    forall i | 0 <= i < |recs| + 1 ensures SlotHolds(q, dir, recs + [rec], i) {
      if i < |recs| {
        SlotHoldsKept(p, q, dir, recs, rec, i);
      } else {
        OffsetLast(recs, rec);
        SlotHoldsIntro(q, dir, recs + [rec], i, PAGE_SIZE - TotalLen(recs) - |rec|, rec);
      }
    }
  }

  /** Writing a record keeps every earlier one and leaves the bytes before the directory alone. */
  lemma {:induction false} PutRecordHolds(p: seq<byte>, dir: nat, recs: seq<Record>, rec: Record)
    requires SlotsHold(p, dir, recs) && Room(dir, recs + [rec])
    ensures dir + 4 * |recs| + 4 + |rec| <= PAGE_SIZE - TotalLen(recs)
    ensures var q := PutRecord(p, dir, |recs|, PAGE_SIZE - TotalLen(recs), rec);
      SlotsHold(q, dir, recs + [rec]) && Agree(p, q, dir, PAGE_SIZE)
  {
    TotalLenAppend(recs, rec);
    var n, data := |recs|, PAGE_SIZE - TotalLen(recs);
    PutRecordParts(p, dir, n, data, rec);
    var q := PutRecord(p, dir, n, data, rec);
    SlotsExtend(p, q, dir, recs, rec);
  }

  /** Write one record and its slot into the buffer, in place. */
  method AppendRecord(page: array<byte>, dir: nat, n: nat, data: nat, rec: Record)
    requires page.Length == PAGE_SIZE && data <= PAGE_SIZE
    requires dir + 4 * n + 4 + |rec| <= data
    modifies page
    ensures page[..] == PutRecord(old(page[..]), dir, n, data, rec)
  {
    CopyInto(page, data - |rec|, rec);
    CopyInto(page, dir + 4 * n, U16(data - |rec|));
    CopyInto(page, dir + 4 * n + 2, U16(|rec|));
  }
}
