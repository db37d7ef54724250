/** Index keys in their orders, and the key ranges lookups scan. */
module IndexKeys {
  import opened Facts
  import opened ValueEncoding
  import opened FactStore

  const I64_MIN := -0x8000_0000_0000_0000

  datatype Lookup = Entity(e: EntityId) | EntityAttribute(e: EntityId, a: Text) | Attribute(a: Text)

  predicate Matches(l: Lookup, f: Fact) {
    match l
    case Entity(e) => f.entity == e
    case EntityAttribute(e, a) => f.entity == e && f.attribute == a
    case Attribute(a) => f.attribute == a
  }

  // ----- key order -----

  predicate LessTail(vf: int, vt: int, tx: int, vf': int, vt': int, tx': int) {
    vf < vf' || (vf == vf' && (vt < vt' || (vt == vt' && tx < tx')))
  }

  /** EAVT order: entity, attribute, valid-from, valid-to, transaction. */
  predicate EavtLess(x: EavtKey, y: EavtKey) {
    || x.entity < y.entity
    || (x.entity == y.entity && (Less(x.attribute, y.attribute) || (x.attribute == y.attribute
        && LessTail(x.validFrom, x.validTo, x.txCount, y.validFrom, y.validTo, y.txCount))))
  }

  /** AEVT order: attribute first. */
  predicate AevtLess(x: AevtKey, y: AevtKey) {
    || Less(x.attribute, y.attribute)
    || (x.attribute == y.attribute && (x.entity < y.entity || (x.entity == y.entity
        && LessTail(x.validFrom, x.validTo, x.txCount, y.validFrom, y.validTo, y.txCount))))
  }

  /** The tail of the value indexes: valid-from, valid-to, entity, transaction. */
  predicate LessEntityTail(vf: int, vt: int, e: int, tx: int, vf': int, vt': int, e': int, tx': int) {
    vf < vf' || (vf == vf' && (vt < vt' || (vt == vt' && (e < e' || (e == e' && tx < tx')))))
  }

  /** AVET order: attribute, encoded value, then the tail. */
  predicate AvetLess(x: AvetKey, y: AvetKey) {
    || Less(x.attribute, y.attribute)
    || (x.attribute == y.attribute && (Less(x.value, y.value) || (x.value == y.value
        && LessEntityTail(x.validFrom, x.validTo, x.entity, x.txCount, y.validFrom, y.validTo, y.entity, y.txCount))))
  }

  /** VAET order: target, attribute, then the tail. */
  predicate VaetLess(x: VaetKey, y: VaetKey) {
    || x.target < y.target
    || (x.target == y.target && (Less(x.attribute, y.attribute) || (x.attribute == y.attribute
        && LessEntityTail(x.validFrom, x.validTo, x.source, x.txCount, y.validFrom, y.validTo, y.source, y.txCount))))
  }

  lemma {:induction false} EavtTotal(x: EavtKey, y: EavtKey)
    ensures x == y || EavtLess(x, y) || EavtLess(y, x)
  {
    LessTotal(x.attribute, y.attribute);
  }

  lemma {:induction false} AevtTotal(x: AevtKey, y: AevtKey)
    ensures x == y || AevtLess(x, y) || AevtLess(y, x)
  {
    LessTotal(x.attribute, y.attribute);
  }

  // ----- the orders on facts -----

  /** Valid-from, valid-to, transaction. */
  ghost predicate Before(f: Fact, g: Fact) {
    f.validFrom < g.validFrom || (f.validFrom == g.validFrom
      && (f.validTo < g.validTo || (f.validTo == g.validTo && f.txCount < g.txCount)))
  }

  /** Valid-from, valid-to, entity, transaction. */
  ghost predicate BeforeByEntity(f: Fact, g: Fact) {
    f.validFrom < g.validFrom || (f.validFrom == g.validFrom
      && (f.validTo < g.validTo || (f.validTo == g.validTo
        && (f.entity < g.entity || (f.entity == g.entity && f.txCount < g.txCount)))))
  }

  /** The order of the index a lookup scans: attribute and entity for attributes, entity and attribute for the others. */
  ghost predicate LookupLess(l: Lookup, f: Fact, g: Fact) {
    if l.Attribute? then
      Less(f.attribute, g.attribute) || (f.attribute == g.attribute && (f.entity < g.entity || (f.entity == g.entity && Before(f, g))))
    else
      f.entity < g.entity || (f.entity == g.entity && (Less(f.attribute, g.attribute) || (f.attribute == g.attribute && Before(f, g))))
  }

  /** The key orders are those orders of the facts. */
  lemma {:induction false} KeysOrder(l: Lookup, f: Fact, g: Fact)
    ensures LookupLess(l, f, g) <==>
      if l.Attribute? then AevtLess(Aevt(f).value, Aevt(g).value) else EavtLess(Eavt(f).value, Eavt(g).value)
  {
    hide Less;
  }

  /** AVET sorts by attribute, encoded value, window, entity and count; VAET by target, attribute, window, source and count. */
  lemma {:induction false} ValueKeysOrder(f: Fact, g: Fact)
    ensures AvetLess(Avet(f).value, Avet(g).value) <==>
      || Less(f.attribute, g.attribute)
      || (f.attribute == g.attribute && (Less(Encode(f.value), Encode(g.value))
        || (Encode(f.value) == Encode(g.value) && BeforeByEntity(f, g))))
    ensures f.value.Ref? && g.value.Ref? ==> (VaetLess(Vaet(f).value, Vaet(g).value) <==>
      || f.value.id < g.value.id
      || (f.value.id == g.value.id && (Less(f.attribute, g.attribute) || (f.attribute == g.attribute && BeforeByEntity(f, g)))))
  {
    hide Less, Encode;
  }

  /** In the order of the lookup's index, each key once. */
  ghost predicate Ascending(l: Lookup, r: seq<Fact>) {
    forall i, j :: 0 <= i < j < |r| ==> LookupLess(l, r[i], r[j])
  }

  /** In the order of the lookup's index, keys perhaps shared. */
  ghost predicate NotDescending(l: Lookup, r: seq<Fact>) {
    forall i, j :: 0 <= i < j < |r| ==> !LookupLess(l, r[j], r[i])
  }

  lemma {:induction false} NothingBelowEmpty(t: Text)
    ensures !Less(t, [])
  {
  }

  /** `a + "\\0"` is the exact successor of `a`: the range between them holds `a` alone. */
  lemma {:induction false} TextSuccessor(a: Text, t: Text)
    ensures (!Less(t, a) && Less(t, a + [0])) <==> t == a
  {
    LessIrreflexive(a);
    if a == [] {
      assert a + [0] == [0];
      if t != [] { assert t[0] >= 0; NothingBelowEmpty(t[1..]); assert [0][1..] == []; }
    } else {
      assert (a + [0])[1..] == a[1..] + [0];
      if t != [] {
        TextSuccessor(a[1..], t[1..]);
        assert t == [t[0]] + t[1..] && a == [a[0]] + a[1..];
      }
    }
  }

  // ----- key ranges -----

  function EntityStart(e: EntityId): EavtKey { EavtKey(e, [], I64_MIN, I64_MIN, 0) }
  /** The successor UUID, wrapping past the all-ones one. */
  function EntityEnd(e: EntityId): EavtKey { EavtKey((e + 1) % ENTITY_SPACE, [], I64_MIN, I64_MIN, 0) }

  predicate InEavt(k: EavtKey, start: EavtKey, end: EavtKey) { !EavtLess(k, start) && EavtLess(k, end) }
  predicate InAevt(k: AevtKey, start: AevtKey, end: AevtKey) { !AevtLess(k, start) && AevtLess(k, end) }

  predicate InLookup(l: Lookup, f: Fact)
    requires Eavt(f).Some? && Aevt(f).Some?
  {
    match l
    case Entity(e) => InEavt(Eavt(f).value, EntityStart(e), EntityEnd(e))
    case EntityAttribute(e, a) =>
      InEavt(Eavt(f).value, EavtKey(e, a, I64_MIN, I64_MIN, 0), EavtKey(e, a + [0], I64_MIN, I64_MIN, 0))
    case Attribute(a) =>
      InAevt(Aevt(f).value, AevtKey(a, 0, I64_MIN, I64_MIN, 0), AevtKey(a + [0], 0, I64_MIN, I64_MIN, 0))
  }

  /** The lookup key range holds exactly the matching facts, unless the entity is the all-ones UUID: its
      successor wraps to the smallest key, so no key lies between. */
  lemma {:induction false} RangeExact(l: Lookup, f: Fact)
    ensures InLookup(l, f) <==> Matches(l, f) && !(l.Entity? && l.e == ENTITY_SPACE - 1)
  {
    NothingBelowEmpty(f.attribute);
    match l
    case Entity(e) =>
      if e < ENTITY_SPACE - 1 {
        assert (e + 1) % ENTITY_SPACE == e + 1;
        LessIrreflexive([]);
      } else {
        assert (e + 1) % ENTITY_SPACE == 0;
      }
    case EntityAttribute(e, a) =>
      TextSuccessor(a, f.attribute);
      TextSuccessor(a, a);
      LessIrreflexive(a);
    case Attribute(a) =>
      TextSuccessor(a, f.attribute);
      TextSuccessor(a, a);
      LessIrreflexive(a);
  }
}
