/** The assumptions on postcard can be met: byte codecs for index keys, entries and facts exist. */
module Codecs {
  import opened Bytes
  import opened SlottedPage
  import opened BTreeModel
  import opened Facts

  ghost function Unary(n: nat): Record { seq(n, _ => 1) + [0] }

  /** A number is read off the front in one way. */
  lemma UnaryFront(a: nat, x: Record, b: nat, y: Record)
    requires Unary(a) + x == Unary(b) + y
    ensures a == b && x == y
  {
    var s := Unary(a) + x;
    assert s[a] == 0 && forall i :: 0 <= i < a ==> s[i] == 1;
    assert s[b] == 0 && forall i :: 0 <= i < b ==> s[i] == 1;
    assert s[a + 1..] == x && s[b + 1..] == y;
  }

  ghost function Fraction(k: Key): (r: (int, int))
    ensures r.1 > 0 && k == Quotient(r.0, r.1)
  {
    assert Rational(k);
    var n, d :| d > 0 && k == Quotient(n, d);
    (n, d)
  }

  ghost function ZigZag(n: int): nat { if n >= 0 then 2 * n else -2 * n - 1 }

  ghost function KeyBytes(k: Key): Record { Unary(ZigZag(Fraction(k).0)) + Unary(Fraction(k).1) }

  ghost function EntryBytes(e: Entry): Record { KeyBytes(e.key) + (Unary(e.ref.page) + Unary(e.ref.slot)) }

  lemma KeyFront(k: Key, x: Record, m: Key, y: Record)
    requires KeyBytes(k) + x == KeyBytes(m) + y
    ensures k == m && x == y
  {
    var (a, b) := Fraction(k);
    var (c, d) := Fraction(m);
    assert KeyBytes(k) + x == Unary(ZigZag(a)) + (Unary(b) + x);
    assert KeyBytes(m) + y == Unary(ZigZag(c)) + (Unary(d) + y);
    UnaryFront(ZigZag(a), Unary(b) + x, ZigZag(c), Unary(d) + y);
    UnaryFront(b, x, d, y);
  }

  lemma EntryInjective(e: Entry, f: Entry)
    requires EntryBytes(e) == EntryBytes(f)
    ensures e == f
  {
    KeyFront(e.key, Unary(e.ref.page) + Unary(e.ref.slot), f.key, Unary(f.ref.page) + Unary(f.ref.slot));
    UnaryFront(e.ref.page, Unary(e.ref.slot), f.ref.page, Unary(f.ref.slot));
    assert Unary(e.ref.slot) + [] == Unary(e.ref.slot) && Unary(f.ref.slot) + [] == Unary(f.ref.slot);
    UnaryFront(e.ref.slot, [], f.ref.slot, []);
  }

  ghost function UnKey(b: Record): Option<Key> {
    if exists k: Key :: KeyBytes(k) == b then var k: Key :| KeyBytes(k) == b; Some(k) else None
  }

  ghost function UnEntry(b: Record): Option<Entry> {
    if exists e: Entry :: EntryBytes(e) == b then var e: Entry :| EntryBytes(e) == b; Some(e) else None
  }

  /** Some index codec is valid. */
  lemma IndexCodecExists() returns (c: Codec)
    ensures c.Valid()
  {
    c := Codec((e: Entry) => EntryBytes(e), (b: Record) => UnEntry(b), (k: Key) => KeyBytes(k), (b: Record) => UnKey(b));
    forall e: Entry ensures c.unentry(c.entry(e)) == Some(e) {
      EntryInjective(UnEntry(EntryBytes(e)).value, e);
    }
    forall k: Key ensures c.unkey(c.key(k)) == Some(k) {
      var m := UnKey(KeyBytes(k)).value;
      assert KeyBytes(k) + [] == KeyBytes(m) + [];
      KeyFront(k, [], m, []);
    }
  }

  // ----- facts -----

  ghost function TextBytes(t: Text): Record { Unary(|t|) + t }

  lemma TextFront(t: Text, x: Record, u: Text, y: Record)
    requires TextBytes(t) + x == TextBytes(u) + y
    ensures t == u && x == y
  {
    assert TextBytes(t) + x == Unary(|t|) + (t + x) && TextBytes(u) + y == Unary(|u|) + (u + y);
    UnaryFront(|t|, t + x, |u|, u + y);
    assert (t + x)[..|t|] == t && (u + y)[..|u|] == u && (t + x)[|t|..] == x && (u + y)[|u|..] == y;
  }

  /** A value as a tag, a number and a text. */
  ghost function ValueParts(v: Value): (nat, nat, Text) {
    match v
    case Null => (0, 0, [])
    case Boolean(b) => (1, if b then 1 else 0, [])
    case Integer(n) => (2, ZigZag(n), [])
    case Float(bits) => (3, bits, [])
    case Str(s) => (4, 0, s)
    case Keyword(k) => (5, 0, k)
    case Ref(id) => (6, id, [])
  }

  lemma PartsInjective(v: Value, w: Value)
    requires ValueParts(v) == ValueParts(w)
    ensures v == w
  {}

  /** The numbers and the texts of a fact. */
  ghost function Numbers(f: Fact): seq<nat> {
    [f.entity, ValueParts(f.value).0, ValueParts(f.value).1, f.txId, f.txCount, ZigZag(f.validFrom), ZigZag(f.validTo),
     if f.asserted then 1 else 0]
  }

  ghost function NumberBytes(ns: seq<nat>): Record {
    if ns == [] then [] else Unary(ns[0]) + NumberBytes(ns[1..])
  }

  lemma {:induction false} NumbersFront(a: seq<nat>, x: Record, b: seq<nat>, y: Record)
    requires |a| == |b| && NumberBytes(a) + x == NumberBytes(b) + y
    ensures a == b && x == y
  {
    if a == [] {
      assert [] + x == x && [] + y == y;
    } else {
      assert NumberBytes(a) + x == Unary(a[0]) + (NumberBytes(a[1..]) + x);
      assert NumberBytes(b) + y == Unary(b[0]) + (NumberBytes(b[1..]) + y);
      UnaryFront(a[0], NumberBytes(a[1..]) + x, b[0], NumberBytes(b[1..]) + y);
      NumbersFront(a[1..], x, b[1..], y);
      assert a == [a[0]] + a[1..] && b == [b[0]] + b[1..];
    }
  }

  ghost function FactBytes(f: Fact): Record {
    NumberBytes(Numbers(f)) + (TextBytes(f.attribute) + TextBytes(ValueParts(f.value).2))
  }

  lemma FactInjective(f: Fact, g: Fact)
    requires FactBytes(f) == FactBytes(g)
    ensures f == g
  {
    var (s, t) := (TextBytes(ValueParts(f.value).2), TextBytes(ValueParts(g.value).2));
    NumbersFront(Numbers(f), TextBytes(f.attribute) + s, Numbers(g), TextBytes(g.attribute) + t);
    TextFront(f.attribute, s, g.attribute, t);
    assert s + [] == s && t + [] == t;
    TextFront(ValueParts(f.value).2, [], ValueParts(g.value).2, []);
    SameNumbers(f, g);
    PartsInjective(f.value, g.value);
  }

  lemma SameNumbers(f: Fact, g: Fact)
    requires Numbers(f) == Numbers(g)
    ensures f.entity == g.entity && f.txId == g.txId && f.txCount == g.txCount && f.asserted == g.asserted
    ensures f.validFrom == g.validFrom && f.validTo == g.validTo
    ensures ValueParts(f.value).0 == ValueParts(g.value).0 && ValueParts(f.value).1 == ValueParts(g.value).1
  {
    var a, b := Numbers(f), Numbers(g);
    assert a[0] == b[0] && a[1] == b[1] && a[2] == b[2] && a[3] == b[3] && a[4] == b[4];
    assert a[5] == b[5] && a[6] == b[6] && a[7] == b[7];
  }

  ghost function UnFact(b: Record): Option<Fact> {
    if exists f: Fact :: FactBytes(f) == b then var f: Fact :| FactBytes(f) == b; Some(f) else None
  }

  /** Some fact codec is valid. */
  lemma FactCodecExists() returns (c: FactCodec)
    ensures c.Valid()
  {
    c := FactCodec((f: Fact) => FactBytes(f), (b: Record) => UnFact(b));
    forall f: Fact ensures c.dec(c.enc(f)) == Some(f) && c.enc(f) != [] {
      FactInjective(UnFact(FactBytes(f)).value, f);
      assert |TextBytes(f.attribute)| > 0;
    }
  }
}
