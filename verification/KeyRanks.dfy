/** The four index orders embed in the rationals, so index keys may stand for them. */
module KeyRanks {
  import opened Facts
  import opened ValueEncoding
  import opened FactStore
  import opened BTreeModel
  import opened IndexKeys

  /** `rank` carries the EAVT order. */
  ghost predicate RanksEavt(rank: EavtKey -> Key) {
    forall x, y :: rank(x) < rank(y) <==> EavtLess(x, y)
  }

  ghost predicate RanksAevt(rank: AevtKey -> Key) {
    forall x, y :: rank(x) < rank(y) <==> AevtLess(x, y)
  }

  ghost predicate RanksAvet(rank: AvetKey -> Key) {
    forall x, y :: rank(x) < rank(y) <==> AvetLess(x, y)
  }

  ghost predicate RanksVaet(rank: VaetKey -> Key) {
    forall x, y :: rank(x) < rank(y) <==> VaetLess(x, y)
  }

  // ----- rationals -----

  lemma DivideSum(a: real, x: real)
    requires x > 0.0
    ensures (a + x) / x == a / x + 1.0
  {
    var p, q := (a + x) / x, a / x + 1.0;
    assert p * x == a + x && q * x == a / x * x + x == a + x;
    assert (p - q) * x == 0.0 && (q - p) * x == 0.0;
    if p > q { Positive(p - q, x); }
    if q > p { Positive(q - p, x); }
  }

  lemma Positive(a: real, x: real)
    requires a > 0.0 && x > 0.0
    ensures a * x > 0.0
  {}

  lemma RationalNext(r: real)
    requires Rational(r)
    ensures Rational(r + 1.0)
  {
    var n, d :| d > 0 && r == Quotient(n, d);
    DivideSum(n as real, d as real);
    assert r + 1.0 == Quotient(n + d, d);
  }

  lemma {:induction false} RationalPlus(r: real, c: nat)
    requires Rational(r)
    ensures Rational(c as real + r)
  {
    if c > 0 {
      RationalPlus(r, c - 1);
      RationalNext((c - 1) as real + r);
    }
  }

  lemma RationalShrink(r: real)
    requires Rational(r)
    ensures Rational(r / 257.0)
  {
    var n, d :| d > 0 && r == Quotient(n, d);
    assert r / 257.0 == Quotient(n, 257 * d);
  }

  // ----- texts -----

  /** A text followed by a fraction, as one number below 1: base 257, a zero digit ends the text. */
  ghost function TextRank(t: Text, w: real): real {
    if t == [] then w / 257.0 else ((t[0] as int + 1) as real + TextRank(t[1..], w)) / 257.0
  }

  lemma {:induction false} TextRankBounds(t: Text, w: real)
    requires 0.0 <= w < 1.0
    ensures 0.0 <= TextRank(t, w) < 1.0 && (t != [] ==> TextRank(t, w) >= 1.0 / 257.0) && (t == [] ==> TextRank(t, w) < 1.0 / 257.0)
  {
    if t != [] { TextRankBounds(t[1..], w); }
  }

  lemma {:induction false} TextRankOrder(t: Text, w: real, u: Text, v: real)
    requires 0.0 <= w < 1.0 && 0.0 <= v < 1.0
    ensures TextRank(t, w) < TextRank(u, v) <==> Less(t, u) || (t == u && w < v)
  {
    TextRankBounds(t, w);
    TextRankBounds(u, v);
    if t != [] && u != [] {
      TextRankBounds(t[1..], w);
      TextRankBounds(u[1..], v);
      TextRankOrder(t[1..], w, u[1..], v);
      assert t == [t[0]] + t[1..] && u == [u[0]] + u[1..];
    }
  }

  lemma {:induction false} TextRankRational(t: Text, w: real)
    requires Rational(w)
    ensures Rational(TextRank(t, w))
  {
    if t == [] {
      RationalShrink(w);
    } else {
      TextRankRational(t[1..], w);
      RationalPlus(TextRank(t[1..], w), t[0] as int + 1);
      RationalShrink((t[0] as int + 1) as real + TextRank(t[1..], w));
    }
  }

  // ----- the rest of a key -----

  const SHIFT := 0x8000_0000_0000_0000
  const WORD := 0x1_0000_0000_0000_0000
  const TAIL_SPACE := WORD * WORD * WORD

  ghost function Tail(vf: i64, vt: i64, tx: u64): nat { ((vf + SHIFT) * WORD + (vt + SHIFT)) * WORD + tx }

  lemma TailOrder(vf: i64, vt: i64, tx: u64, vf': i64, vt': i64, tx': u64)
    ensures Tail(vf, vt, tx) < TAIL_SPACE
    ensures Tail(vf, vt, tx) < Tail(vf', vt', tx') <==> LessTail(vf, vt, tx, vf', vt', tx')
  {}

  ghost function EavtTail(k: EavtKey): real { Quotient(Tail(k.validFrom, k.validTo, k.txCount), TAIL_SPACE) }

  ghost function EavtNumber(k: EavtKey): real { k.entity as real + TextRank(k.attribute, EavtTail(k)) }

  lemma EavtRational(k: EavtKey)
    ensures Rational(EavtNumber(k))
  {
    TextRankRational(k.attribute, EavtTail(k));
    RationalPlus(TextRank(k.attribute, EavtTail(k)), k.entity);
  }

  lemma FractionOrder(a: nat, b: nat, d: nat)
    requires a < d && b < d
    ensures 0.0 <= Quotient(a, d) < 1.0 && (Quotient(a, d) < Quotient(b, d) <==> a < b)
  {}

  lemma EavtNumberOrder(x: EavtKey, y: EavtKey)
    ensures EavtNumber(x) < EavtNumber(y) <==> EavtLess(x, y)
  {
    TailOrder(x.validFrom, x.validTo, x.txCount, y.validFrom, y.validTo, y.txCount);
    TailOrder(y.validFrom, y.validTo, y.txCount, x.validFrom, x.validTo, x.txCount);
    hide Tail, Quotient, TextRank;
    FractionOrder(Tail(x.validFrom, x.validTo, x.txCount), Tail(y.validFrom, y.validTo, y.txCount), TAIL_SPACE);
    FractionOrder(Tail(y.validFrom, y.validTo, y.txCount), Tail(x.validFrom, x.validTo, x.txCount), TAIL_SPACE);
    TextRankBounds(x.attribute, EavtTail(x));
    TextRankBounds(y.attribute, EavtTail(y));
    TextRankOrder(x.attribute, EavtTail(x), y.attribute, EavtTail(y));
  }

  /** The EAVT order embeds in the index keys. */
  lemma {:induction false} EavtRanked() returns (rank: EavtKey -> Key)
    ensures RanksEavt(rank)
  {
    forall k ensures Rational(EavtNumber(k)) { EavtRational(k); }
    rank := (k: EavtKey) => EavtNumber(k);
    forall x, y ensures rank(x) < rank(y) <==> EavtLess(x, y) { EavtNumberOrder(x, y); }
  }

  ghost function AevtTail(k: AevtKey): real {
    Quotient(k.entity * TAIL_SPACE + Tail(k.validFrom, k.validTo, k.txCount), ENTITY_SPACE * TAIL_SPACE)
  }

  ghost function AevtNumber(k: AevtKey): real { TextRank(k.attribute, AevtTail(k)) }

  lemma Nested(e: nat, a: nat, e': nat, a': nat)
    requires a < TAIL_SPACE && a' < TAIL_SPACE && e < ENTITY_SPACE && e' < ENTITY_SPACE
    ensures e * TAIL_SPACE + a < ENTITY_SPACE * TAIL_SPACE
    ensures e * TAIL_SPACE + a < e' * TAIL_SPACE + a' <==> e < e' || (e == e' && a < a')
  {}

  lemma AevtNumberOrder(x: AevtKey, y: AevtKey)
    ensures AevtNumber(x) < AevtNumber(y) <==> AevtLess(x, y)
  {
    TailOrder(x.validFrom, x.validTo, x.txCount, y.validFrom, y.validTo, y.txCount);
    TailOrder(y.validFrom, y.validTo, y.txCount, x.validFrom, x.validTo, x.txCount);
    hide Tail, Quotient, TextRank;
    var a, b := Tail(x.validFrom, x.validTo, x.txCount), Tail(y.validFrom, y.validTo, y.txCount);
    Nested(x.entity, a, y.entity, b);
    Nested(y.entity, b, x.entity, a);
    FractionOrder(x.entity * TAIL_SPACE + a, y.entity * TAIL_SPACE + b, ENTITY_SPACE * TAIL_SPACE);
    FractionOrder(y.entity * TAIL_SPACE + b, x.entity * TAIL_SPACE + a, ENTITY_SPACE * TAIL_SPACE);
    TextRankOrder(x.attribute, AevtTail(x), y.attribute, AevtTail(y));
  }

  /** The AEVT order embeds in the index keys. */
  lemma {:induction false} AevtRanked() returns (rank: AevtKey -> Key)
    ensures RanksAevt(rank)
  {
    forall k ensures Rational(AevtNumber(k)) { TextRankRational(k.attribute, AevtTail(k)); }
    rank := (k: AevtKey) => AevtNumber(k);
    forall x, y ensures rank(x) < rank(y) <==> AevtLess(x, y) { AevtNumberOrder(x, y); }
  }

  // ----- the value indexes -----

  const ENTITY_TAIL_SPACE := WORD * WORD * ENTITY_SPACE * WORD

  ghost function EntityTail(vf: i64, vt: i64, e: EntityId, tx: u64): nat {
    (((vf + SHIFT) * WORD + (vt + SHIFT)) * ENTITY_SPACE + e) * WORD + tx
  }

  lemma EntityTailOrder(vf: i64, vt: i64, e: EntityId, tx: u64, vf': i64, vt': i64, e': EntityId, tx': u64)
    ensures EntityTail(vf, vt, e, tx) < ENTITY_TAIL_SPACE
    ensures EntityTail(vf, vt, e, tx) < EntityTail(vf', vt', e', tx') <==> LessEntityTail(vf, vt, e, tx, vf', vt', e', tx')
  {}

  ghost function EntityFraction(vf: i64, vt: i64, e: EntityId, tx: u64): real {
    Quotient(EntityTail(vf, vt, e, tx), ENTITY_TAIL_SPACE)
  }

  lemma EntityFractionOrder(vf: i64, vt: i64, e: EntityId, tx: u64, vf': i64, vt': i64, e': EntityId, tx': u64)
    ensures 0.0 <= EntityFraction(vf, vt, e, tx) < 1.0
    ensures EntityFraction(vf, vt, e, tx) < EntityFraction(vf', vt', e', tx') <==> LessEntityTail(vf, vt, e, tx, vf', vt', e', tx')
  {
    EntityTailOrder(vf, vt, e, tx, vf', vt', e', tx');
    EntityTailOrder(vf', vt', e', tx', vf, vt, e, tx);
    hide EntityTail, Quotient;
    FractionOrder(EntityTail(vf, vt, e, tx), EntityTail(vf', vt', e', tx'), ENTITY_TAIL_SPACE);
  }

  ghost function AvetTail(k: AvetKey): real { EntityFraction(k.validFrom, k.validTo, k.entity, k.txCount) }
  ghost function AvetNumber(k: AvetKey): real { TextRank(k.attribute, TextRank(k.value, AvetTail(k))) }

  lemma AvetNumberOrder(x: AvetKey, y: AvetKey)
    ensures AvetNumber(x) < AvetNumber(y) <==> AvetLess(x, y)
  {
    EntityFractionOrder(x.validFrom, x.validTo, x.entity, x.txCount, y.validFrom, y.validTo, y.entity, y.txCount);
    EntityFractionOrder(y.validFrom, y.validTo, y.entity, y.txCount, x.validFrom, x.validTo, x.entity, x.txCount);
    hide EntityFraction, TextRank;
    TextRankBounds(x.value, AvetTail(x));
    TextRankBounds(y.value, AvetTail(y));
    TextRankOrder(x.value, AvetTail(x), y.value, AvetTail(y));
    TextRankOrder(x.attribute, TextRank(x.value, AvetTail(x)), y.attribute, TextRank(y.value, AvetTail(y)));
  }

  /** The AVET order embeds in the index keys. */
  lemma {:induction false} AvetRanked() returns (rank: AvetKey -> Key)
    ensures RanksAvet(rank)
  {
    forall k ensures Rational(AvetNumber(k)) {
      TextRankRational(k.value, AvetTail(k));
      TextRankRational(k.attribute, TextRank(k.value, AvetTail(k)));
    }
    rank := (k: AvetKey) => AvetNumber(k);
    forall x, y ensures rank(x) < rank(y) <==> AvetLess(x, y) { AvetNumberOrder(x, y); }
  }

  ghost function VaetTail(k: VaetKey): real { EntityFraction(k.validFrom, k.validTo, k.source, k.txCount) }
  ghost function VaetNumber(k: VaetKey): real { k.target as real + TextRank(k.attribute, VaetTail(k)) }

  lemma VaetNumberOrder(x: VaetKey, y: VaetKey)
    ensures VaetNumber(x) < VaetNumber(y) <==> VaetLess(x, y)
  {
    EntityFractionOrder(x.validFrom, x.validTo, x.source, x.txCount, y.validFrom, y.validTo, y.source, y.txCount);
    EntityFractionOrder(y.validFrom, y.validTo, y.source, y.txCount, x.validFrom, x.validTo, x.source, x.txCount);
    hide EntityFraction, TextRank;
    TextRankBounds(x.attribute, VaetTail(x));
    TextRankBounds(y.attribute, VaetTail(y));
    TextRankOrder(x.attribute, VaetTail(x), y.attribute, VaetTail(y));
  }

  /** The VAET order embeds in the index keys. */
  lemma {:induction false} VaetRanked() returns (rank: VaetKey -> Key)
    ensures RanksVaet(rank)
  {
    forall k ensures Rational(VaetNumber(k)) {
      TextRankRational(k.attribute, VaetTail(k));
      RationalPlus(TextRank(k.attribute, VaetTail(k)), k.target);
    }
    rank := (k: VaetKey) => VaetNumber(k);
    forall x, y ensures rank(x) < rank(y) <==> VaetLess(x, y) { VaetNumberOrder(x, y); }
  }
}
