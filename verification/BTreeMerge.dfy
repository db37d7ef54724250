/** Merging sorted entries, and the arithmetic of balanced repacking. */
module BTreeMerge {
  import opened SlottedPage
  import opened BTreeModel

  /** `Ord` on `(K, FactRef)` pairs. */
  predicate LeqEntry(a: Entry, b: Entry) {
    || a.key < b.key
    || (a.key == b.key && (a.ref.page < b.ref.page || (a.ref.page == b.ref.page && a.ref.slot <= b.ref.slot)))
  }

  /** The merge of two sorted lists, taking from `a` on ties. */
  function Merge(a: seq<Entry>, b: seq<Entry>): seq<Entry> {
    if a == [] then b
    else if b == [] then a
    else if LeqEntry(a[0], b[0]) then [a[0]] + Merge(a[1..], b)
    else [b[0]] + Merge(a, b[1..])
  }

  /** No key of `es` is below that of `x`. */
  ghost predicate Below(x: Entry, es: seq<Entry>) {
    forall j :: 0 <= j < |es| ==> x.key <= es[j].key
  }

  /** Where the two share a key, the refs of `b` are the later ones. */
  ghost predicate Later(a: seq<Entry>, b: seq<Entry>) {
    forall i, j :: 0 <= i < |a| && 0 <= j < |b| && a[i].key == b[j].key ==> LeqEntry(a[i], b[j])
  }

  /** The merge is a permutation of its inputs. */
  lemma {:induction false} MergePermutes(a: seq<Entry>, b: seq<Entry>)
    ensures multiset(Merge(a, b)) == multiset(a) + multiset(b)
  {
    if a != [] && b != [] {
      if LeqEntry(a[0], b[0]) {
        MergePermutes(a[1..], b);
        assert a == [a[0]] + a[1..];
      } else {
        MergePermutes(a, b[1..]);
        assert b == [b[0]] + b[1..];
      }
    }
  }

  lemma {:induction false} MergeBelow(x: Entry, a: seq<Entry>, b: seq<Entry>)
    requires Below(x, a) && Below(x, b)
    ensures Below(x, Merge(a, b))
  {
    forall j | 0 <= j < |Merge(a, b)| ensures x.key <= Merge(a, b)[j].key {
      var e := Merge(a, b)[j];
      assert e in multiset(Merge(a, b));
      MergePermutes(a, b);
      if e in multiset(a) {
        var i :| 0 <= i < |a| && a[i] == e;
      } else {
        assert e in multiset(b);
        var i :| 0 <= i < |b| && b[i] == e;
      }
    }
  }

  /** The merge of sorted lists is sorted, whatever keys they share. */
  lemma {:induction false} MergeSorted(a: seq<Entry>, b: seq<Entry>)
    requires Sorted(a) && Sorted(b)
    ensures Sorted(Merge(a, b))
  {
    if a != [] && b != [] {
      if LeqEntry(a[0], b[0]) {
        MergeSorted(a[1..], b);
        MergeBelow(a[0], a[1..], b);
        SortedCons(a[0], Merge(a[1..], b));
      } else {
        MergeSorted(a, b[1..]);
        MergeBelow(b[0], a, b[1..]);
        SortedCons(b[0], Merge(a, b[1..]));
      }
    }
  }

  lemma SortedCons(x: Entry, es: seq<Entry>)
    requires Below(x, es) && Sorted(es)
    ensures Sorted([x] + es)
  {
    forall i, j | 0 <= i < j < |es| + 1 ensures ([x] + es)[i].key <= ([x] + es)[j].key {
      if i == 0 { assert x.key <= es[j - 1].key; }
    }
  }

  lemma MergeLeft(a: seq<Entry>, b: seq<Entry>)
    requires a != [] && (b == [] || LeqEntry(a[0], b[0]))
    ensures Merge(a, b) == [a[0]] + Merge(a[1..], b)
  {
    if b == [] { assert Merge(a[1..], b) == a[1..]; }
  }

  lemma MergeRight(a: seq<Entry>, b: seq<Entry>)
    requires b != [] && (a == [] || !LeqEntry(a[0], b[0]))
    ensures Merge(a, b) == [b[0]] + Merge(a, b[1..])
  {
  }

  lemma ConcatTail(a: seq<Entry>, a': seq<Entry>)
    requires a != []
    ensures (a + a')[0] == a[0] && (a + a')[1..] == a[1..] + a'
  {
  }

  ghost predicate Under(es: seq<Entry>, u: Key) {
    forall i :: 0 <= i < |es| ==> es[i].key < u
  }

  ghost predicate UpTo(es: seq<Entry>, u: Key) {
    forall i :: 0 <= i < |es| ==> es[i].key <= u
  }

  ghost predicate Over(es: seq<Entry>, u: Key) {
    forall i :: 0 <= i < |es| ==> u <= es[i].key
  }

  lemma AppendAssoc(x: Entry, p: seq<Entry>, q: seq<Entry>)
    ensures [x] + (p + q) == ([x] + p) + q
  {
  }

  /** Merging splits at any key that separates both inputs; `a` may hold that key too, in earlier refs. */
  lemma {:induction false} MergeSplit(a: seq<Entry>, a': seq<Entry>, b: seq<Entry>, b': seq<Entry>, u: Key)
    requires UpTo(a, u) && Under(b, u) && Over(a', u) && Over(b', u) && Later(a, b')
    ensures Merge(a + a', b + b') == Merge(a, b) + Merge(a', b')
    decreases |a| + |b|
  {
    if a == [] && b == [] {
      assert a + a' == a' && b + b' == b';
    } else if a != [] && (b == [] || LeqEntry(a[0], b[0])) {
      ConcatTail(a, a');
      MergeSplit(a[1..], a', b, b', u);
      MergeLeft(a, b);
      assert b + b' == [] || LeqEntry(a[0], (b + b')[0]) by {
        if b == [] && b' != [] { assert a[0].key == b'[0].key ==> LeqEntry(a[0], b'[0]); }
      }
      MergeLeft(a + a', b + b');
      AppendAssoc(a[0], Merge(a[1..], b), Merge(a', b'));
    } else {
      ConcatTail(b, b');
      MergeSplit(a, a', b[1..], b', u);
      MergeRight(a, b);
      assert a + a' == [] || !LeqEntry((a + a')[0], b[0]);
      MergeRight(a + a', b + b');
      AppendAssoc(b[0], Merge(a, b[1..]), Merge(a', b'));
    }
  }

  // ----- balanced repacking -----

  const USABLE_FILL := 3060

  function CeilDiv(a: nat, b: nat): nat
    requires b > 0
  {
    (a + b - 1) / b
  }

  /** Bytes plus slots of `es`. */
  function Cost(c: Codec, es: seq<Entry>): nat {
    TotalLen(c.Recs(es)) + 4 * |es|
  }

  lemma CostAppend(c: Codec, es: seq<Entry>, e: Entry)
    ensures Cost(c, es + [e]) == Cost(c, es) + |c.entry(e)| + 4
  {
    c.RecsAppend(es, e);
    TotalLenAppend(c.Recs(es), c.entry(e));
  }

  /** The size `emit_packed` fills leaves to. */
  function Target(total: nat): nat
    requires total > 0
  {
    if HEADER_SIZE + total <= PAGE_SIZE then total
    else CeilDiv(total, CeilDiv(total, USABLE_FILL))
  }

  lemma CeilDivBounds(a: nat, b: nat)
    requires b > 0
    ensures b * CeilDiv(a, b) >= a
    ensures a > 0 ==> CeilDiv(a, b) > 0
    ensures forall m: nat {:trigger b * m} :: b * m >= a ==> CeilDiv(a, b) <= m
  {
    var q := CeilDiv(a, b);
    assert a + b - 1 == b * q + (a + b - 1) % b;
    forall m: nat | b * m >= a ensures q <= m {
      if q > m { MulMono(b, m + 1, q); }
    }
  }

  lemma MulMono(b: nat, x: nat, y: nat)
    requires x <= y
    ensures b * x <= b * y
  {
  }

  /** A full share of the leaves holds everything, and never more than the usable fill. */
  lemma {:induction false} TargetBounds(total: nat)
    requires total > 0
    ensures var n := CeilDiv(total, USABLE_FILL);
      n > 0 && n * Target(total) >= total
    ensures Target(total) <= if HEADER_SIZE + total <= PAGE_SIZE then PAGE_SIZE - HEADER_SIZE else USABLE_FILL
  {
    var n := CeilDiv(total, USABLE_FILL);
    CeilDivBounds(total, USABLE_FILL);
    if HEADER_SIZE + total <= PAGE_SIZE {
      MulMono(total, 1, n);
    } else {
      CeilDivBounds(total, n);
      assert n * USABLE_FILL >= total;
    }
  }

  /** What the greedy split keeps: complete pairs of adjacent leaves each exceed the target. */
  ghost predicate Pairs(m: nat, emitted: nat, last: nat, cur: nat, target: nat) {
    if m % 2 == 0 then emitted >= (m / 2) * (target + 1)
    else last + cur > target && last <= emitted && emitted - last >= (m / 2) * (target + 1)
  }

  /** Flushing a leaf of cost `cur` because the next entry of cost `size` does not fit. */
  lemma PairsFlush(m: nat, emitted: nat, last: nat, cur: nat, target: nat, size: nat)
    requires Pairs(m, emitted, last, cur, target) && cur + size > target
    ensures Pairs(m + 1, emitted + cur, cur, size, target)
  {
    if m % 2 == 1 {
      assert (m + 1) / 2 == m / 2 + 1;
      assert (m / 2 + 1) * (target + 1) == (m / 2) * (target + 1) + (target + 1);
    }
  }

  /** So the leaf count is below twice the number of usable fills the total needs. */
  lemma {:induction false} PairsBound(m: nat, emitted: nat, last: nat, cur: nat, total: nat)
    requires total > 0 && emitted + cur == total && Pairs(m, emitted, last, cur, Target(total))
    ensures m + 1 <= 2 * CeilDiv(total, USABLE_FILL) - 1
  {
    TargetBounds(total);
    var n, target := CeilDiv(total, USABLE_FILL), Target(total);
    var k := if m % 2 == 0 then m / 2 else m / 2 + 1;
    assert k * (target + 1) <= total by {
      if m % 2 == 1 { assert (m / 2 + 1) * (target + 1) == (m / 2) * (target + 1) + (target + 1); }
    }
    assert n * (target + 1) == n * target + n;
    if k >= n {
      MulMono(target + 1, n, k);
      assert false;
    }
  }

  /** What fits one page is never split. */
  lemma {:induction false} PairsOne(m: nat, emitted: nat, last: nat, cur: nat, total: nat)
    requires total > 0 && emitted + cur == total && Pairs(m, emitted, last, cur, Target(total)) && 12 + total <= 4096
    ensures m == 0
  {
    if m > 0 && m % 2 == 0 { MulMono(total + 1, 1, m / 2); }
  }
}
