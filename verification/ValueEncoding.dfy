/** The canonical value encoding of index keys, and the order its bytes induce. */
module ValueEncoding {
  import opened Bytes
  import opened Facts

  const SIGN := 0x8000_0000_0000_0000
  const INFINITY_BITS := 0x7FF0_0000_0000_0000
  const CANONICAL_NAN := 0x7FF8_0000_0000_0000
  /** The one number whose encoding NaN shares: a negative subnormal. */
  const NAN_TWIN := 0x8007_FFFF_FFFF_FFFF

  /** `v` as `n` big-endian bytes. */
  function BE(v: nat, n: nat): (r: seq<byte>)
    requires v < Pow256(n)
    ensures |r| == n
  {
    if n == 0 then [] else BE(v / 256, n - 1) + [v % 256]
  }

  predicate IsNaN(bits: u64) { bits % SIGN > INFINITY_BITS }

  /** Bits after the sign transform: flip the sign of positives, all bits of negatives; every NaN
      becomes one untransformed pattern. */
  function FloatKey(bits: u64): u64 {
    if IsNaN(bits) then CANONICAL_NAN
    else if bits < SIGN then bits + SIGN
    else 0xFFFF_FFFF_FFFF_FFFF - bits
  }

  function Encode(v: Value): seq<byte> {
    Widths();
    match v
    case Null => [0x00]
    case Boolean(b) => [0x01, if b then 1 else 0]
    case Integer(n) => [0x02] + BE(n + SIGN, 8)
    case Float(bits) => [0x03] + BE(FloatKey(bits), 8)
    case Str(s) => [0x04] + s
    case Keyword(k) => [0x05] + k
    case Ref(id) => EntityFits(); [0x06] + BE(id, 16)
  }

  lemma EntityFits()
    ensures ENTITY_SPACE == Pow256(16)
  {
    Widths();
    assert Pow256(9) == 256 * Pow256(8);
    assert Pow256(10) == 256 * Pow256(9);
    assert Pow256(11) == 256 * Pow256(10);
    assert Pow256(12) == 256 * Pow256(11);
    assert Pow256(13) == 256 * Pow256(12);
    assert Pow256(14) == 256 * Pow256(13);
    assert Pow256(15) == 256 * Pow256(14);
  }

  /** Byte-wise order of slices. */
  predicate Less(a: seq<byte>, b: seq<byte>) {
    b != [] && (a == [] || a[0] < b[0] || (a[0] == b[0] && Less(a[1..], b[1..])))
  }

  lemma {:induction false} LessIrreflexive(a: seq<byte>)
    ensures !Less(a, a)
  {
    if a != [] { LessIrreflexive(a[1..]); }
  }

  lemma {:induction false} LessTotal(a: seq<byte>, b: seq<byte>)
    ensures a == b || Less(a, b) || Less(b, a)
  {
    if a != [] && b != [] {
      LessTotal(a[1..], b[1..]);
      assert a == [a[0]] + a[1..] && b == [b[0]] + b[1..];
    }
  }

  lemma LessCons(x: byte, a: seq<byte>, b: seq<byte>)
    ensures Less([x] + a, [x] + b) <==> Less(a, b)
  {
    assert ([x] + a)[1..] == a && ([x] + b)[1..] == b;
  }

  /** Two equally long strings are ordered by their fronts, then by their last bytes. */
  lemma {:induction false} LessSnoc(a: seq<byte>, x: byte, b: seq<byte>, y: byte)
    requires |a| == |b|
    ensures Less(a + [x], b + [y]) <==> Less(a, b) || (a == b && x < y)
  {
    if a == [] {
      assert b == [] && a + [x] == [x] && b + [y] == [y];
    } else {
      assert (a + [x])[1..] == a[1..] + [x] && (b + [y])[1..] == b[1..] + [y];
      LessSnoc(a[1..], x, b[1..], y);
      assert a == [a[0]] + a[1..] && b == [b[0]] + b[1..];
    }
  }

  /** Big-endian bytes are ordered, and equal, as the numbers are. */
  lemma {:induction false} BEOrder(v: nat, w: nat, n: nat)
    requires v < Pow256(n) && w < Pow256(n)
    ensures Less(BE(v, n), BE(w, n)) <==> v < w
    ensures BE(v, n) == BE(w, n) <==> v == w
  {
    if n > 0 {
      BEOrder(v / 256, w / 256, n - 1);
      LessSnoc(BE(v / 256, n - 1), v % 256, BE(w / 256, n - 1), w % 256);
      var a, b := BE(v / 256, n - 1) + [v % 256], BE(w / 256, n - 1) + [w % 256];
      assert a[..n - 1] == BE(v / 256, n - 1) && b[..n - 1] == BE(w / 256, n - 1);
      assert a[n - 1] == v % 256 && b[n - 1] == w % 256;
    }
  }

  // ----- natural order within a variant -----

  /** totalOrder of section 5.10 of IEEE 754-2019 on non-NaN floats: negatives below positives,
      by magnitude within a sign, reversed for negatives; -0 is below +0. */
  predicate TotalOrderLess(x: u64, y: u64) {
    if x < SIGN then y < SIGN && x < y
    else if y < SIGN then true
    else x % SIGN > y % SIGN
  }

  predicate SameVariant(a: Value, b: Value) {
    || (a.Null? && b.Null?) || (a.Boolean? && b.Boolean?) || (a.Integer? && b.Integer?)
    || (a.Float? && b.Float?) || (a.Str? && b.Str?) || (a.Keyword? && b.Keyword?) || (a.Ref? && b.Ref?)
  }

  predicate NaN(v: Value) { v.Float? && IsNaN(v.bits) }

  /** The order of the type itself. */
  predicate NaturalLess(a: Value, b: Value)
    requires SameVariant(a, b)
  {
    match a
    case Null => false
    case Boolean(x) => !x && b.b
    case Integer(x) => x < b.n
    case Float(x) => TotalOrderLess(x, b.bits)
    case Str(x) => Less(x, b.s)
    case Keyword(x) => Less(x, b.k)
    case Ref(x) => x < b.id
  }

  lemma FloatKeyOrder(x: u64, y: u64)
    requires !IsNaN(x) && !IsNaN(y)
    ensures FloatKey(x) < FloatKey(y) <==> TotalOrderLess(x, y)
    ensures FloatKey(x) == FloatKey(y) <==> x == y
  {
  }

  /** Within each variant, byte order of the encoding is the natural order, NaN aside. */
  lemma {:induction false} EncodeOrder(a: Value, b: Value)
    requires SameVariant(a, b) && !NaN(a) && !NaN(b)
    ensures Less(Encode(a), Encode(b)) <==> NaturalLess(a, b)
  {
    Widths();
    match a
    case Null =>
      LessIrreflexive(Encode(a));
    case Boolean(x) =>
      var p, q := if x then 1 else 0, if b.b then 1 else 0;
      assert Encode(a) == [1] + [p] && Encode(b) == [1] + [q];
      LessCons(1, [p], [q]);
    case Integer(x) =>
      LessCons(2, BE(x + SIGN, 8), BE(b.n + SIGN, 8));
      BEOrder(x + SIGN, b.n + SIGN, 8);
    case Float(x) =>
      LessCons(3, BE(FloatKey(x), 8), BE(FloatKey(b.bits), 8));
      BEOrder(FloatKey(x), FloatKey(b.bits), 8);
      FloatKeyOrder(x, b.bits);
    case Str(x) =>
      LessCons(4, x, b.s);
    case Keyword(x) =>
      LessCons(5, x, b.k);
    case Ref(x) =>
      EntityFits();
      LessCons(6, BE(x, 16), BE(b.id, 16));
      BEOrder(x, b.id, 16);
  }

  /** Nulls first, then booleans, integers, floats, strings, keywords and references. */
  ghost predicate EarlierVariant(a: Value, b: Value) {
    || (a.Null? && !b.Null?) || (a.Boolean? && (b.Integer? || b.Float? || b.Str? || b.Keyword? || b.Ref?))
    || (a.Integer? && (b.Float? || b.Str? || b.Keyword? || b.Ref?)) || (a.Float? && (b.Str? || b.Keyword? || b.Ref?))
    || (a.Str? && (b.Keyword? || b.Ref?)) || (a.Keyword? && b.Ref?)
  }

  /** Across variants, byte order of the encoding is the order of the variants. */
  lemma {:induction false} VariantOrder(a: Value, b: Value)
    requires !SameVariant(a, b)
    ensures Less(Encode(a), Encode(b)) <==> EarlierVariant(a, b)
  {
    EncodeTag(a);
    EncodeTag(b);
    hide Encode;
  }

  /** The first byte tells the variant. */
  lemma EncodeTag(v: Value)
    ensures Encode(v) != []
    ensures Encode(v)[0] ==
      if v.Null? then 0 else if v.Boolean? then 1 else if v.Integer? then 2 else if v.Float? then 3 else if v.Str? then 4 else if v.Keyword? then 5 else 6
  {}

  /** NaN collides with every NaN and with exactly one number. */
  lemma {:induction false} FloatKeyCollisions(x: u64, y: u64)
    ensures FloatKey(x) == FloatKey(y) <==>
      || x == y || (IsNaN(x) && IsNaN(y)) || (IsNaN(x) && y == NAN_TWIN) || (x == NAN_TWIN && IsNaN(y))
  {
  }

  /** Two values share an encoding only if they are the same value, both NaN, or NaN and its twin. */
  lemma {:induction false} EncodeInjective(a: Value, b: Value)
    ensures Encode(a) == Encode(b) <==>
      || a == b || (NaN(a) && NaN(b)) || (NaN(a) && b == Float(NAN_TWIN)) || (a == Float(NAN_TWIN) && NaN(b))
  {
    Widths();
    assert Encode(a)[0] == Encode(b)[0] <==> SameVariant(a, b);
    if SameVariant(a, b) {
      Tails(Encode(a), Encode(b));
      match a
      case Null =>
      case Boolean(x) =>
        assert Encode(a)[1] == (if x then 1 else 0) && Encode(b)[1] == (if b.b then 1 else 0);
      case Integer(x) =>
        BEOrder(x + SIGN, b.n + SIGN, 8);
        assert Encode(a)[1..] == BE(x + SIGN, 8) && Encode(b)[1..] == BE(b.n + SIGN, 8);
      case Float(x) =>
        BEOrder(FloatKey(x), FloatKey(b.bits), 8);
        FloatKeyCollisions(x, b.bits);
        assert Encode(a)[1..] == BE(FloatKey(x), 8) && Encode(b)[1..] == BE(FloatKey(b.bits), 8);
      case Str(x) =>
        assert Encode(a)[1..] == x && Encode(b)[1..] == b.s;
      case Keyword(x) =>
        assert Encode(a)[1..] == x && Encode(b)[1..] == b.k;
      case Ref(x) =>
        EntityFits();
        BEOrder(x, b.id, 16);
        assert Encode(a)[1..] == BE(x, 16) && Encode(b)[1..] == BE(b.id, 16);
    }
  }

  lemma Tails(a: seq<byte>, b: seq<byte>)
    requires a != [] && b != [] && a[0] == b[0]
    ensures a == b <==> a[1..] == b[1..]
  {
    assert a == [a[0]] + a[1..] && b == [b[0]] + b[1..];
  }
}
