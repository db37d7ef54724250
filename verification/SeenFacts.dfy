/** Derived facts are told apart by the encoding of their values: what a fixpoint up to that is, and exactly when it is the least closed set. */
module SeenFacts {
  import opened Bytes
  import opened Facts
  import opened Datalog
  import opened LeastModel
  import V = ValueEncoding

  type SeenKey = (EntityId, Text, seq<byte>)

  function KeyOf(t: Triple): SeenKey { (t.entity, t.attribute, V.Encode(t.value)) }

  ghost function Keys(facts: set<Triple>): set<SeenKey> { set t | t in facts :: KeyOf(t) }

  /** Whatever the rules derive has the key of a fact that is there. */
  ghost predicate KeyClosed(ids: Ids, rules: seq<Rule>, negated: set<Triple>, facts: set<Triple>) {
    forall t :: DerivedBy(ids, rules, facts, negated, t) ==> KeyOf(t) in Keys(facts)
  }

  /** No added fact shares its key with another. */
  ghost predicate FreshKeys(base: set<Triple>, facts: set<Triple>) {
    forall t, u :: t in facts && t !in base && u in facts && KeyOf(t) == KeyOf(u) ==> t == u
  }

  /** What a fixpoint loop that skips facts with known keys ends in: facts of every closed set, one for each key. */
  ghost predicate Outcome(ids: Ids, rules: seq<Rule>, negated: set<Triple>, base: set<Triple>, facts: set<Triple>) {
    && base <= facts && Forced(ids, rules, negated, base, facts)
    && KeyClosed(ids, rules, negated, facts) && FreshKeys(base, facts)
  }

  /** No two of these values share an encoding. */
  ghost predicate ToldApart(vs: set<Value>) {
    forall v, u :: v in vs && u in vs && V.Encode(v) == V.Encode(u) ==> v == u
  }

  /** Only NaNs and their one subnormal twin are ever confused. */
  lemma {:induction false} ToldApartIff(vs: set<Value>)
    ensures ToldApart(vs) <==> forall v, u :: v in vs && u in vs && V.NaN(v) && (V.NaN(u) || u == Float(V.NAN_TWIN)) ==> v == u
  {
    hide V.Encode;
    forall v, u | v in vs && u in vs
      ensures V.Encode(v) == V.Encode(u) <==>
        v == u || (V.NaN(v) && V.NaN(u)) || (V.NaN(v) && u == Float(V.NAN_TWIN)) || (v == Float(V.NAN_TWIN) && V.NaN(u))
    {
      V.EncodeInjective(v, u);
    }
  }

  lemma LeastWithin(ids: Ids, rules: seq<Rule>, negated: set<Triple>, base: set<Triple>)
    ensures Least(ids, rules, negated, base) <= Universe(ids, rules, base)
  {
    hide Universe, Forced;
  }

  /** Known values that are told apart tell apart the facts over them. */
  lemma SameFact(vs: set<Value>, t: Triple, u: Triple)
    requires ToldApart(vs) && t.value in vs && u.value in vs && KeyOf(t) == KeyOf(u)
    ensures t == u
  {}

  /** Where the values of a program are told apart, the outcome is the least closed set. */
  lemma {:induction false} OutcomeLeast(ids: Ids, rules: seq<Rule>, negated: set<Triple>, base: set<Triple>, facts: set<Triple>)
    requires Outcome(ids, rules, negated, base, facts) && ToldApart(Values(ids, rules, base))
    ensures facts == Least(ids, rules, negated, base)
  {
    hide Values, Universe, DerivedBy, Least, V.Encode;
    ForcedLeast(ids, rules, negated, base, facts);
    LeastWithin(ids, rules, negated, base);
    UniverseOver(ids, rules, base);
    assert Over(Values(ids, rules, base), facts);
    forall t | DerivedBy(ids, rules, facts, negated, t) ensures t in facts {
      DerivedOver(ids, rules, base, facts, negated, t);
      assert KeyOf(t) in Keys(facts);
      var u :| u in facts && KeyOf(u) == KeyOf(t);
      SameFact(Values(ids, rules, base), u, t);
    }
    LeastUnique(ids, rules, negated, base, facts);
  }

  // ----- values of parts of a program -----

  /** Facts over the values of a program, with some of its rules, have no other values. */
  lemma {:induction false} ValuesWithin(ids: Ids, rules: seq<Rule>, base: set<Triple>, some: seq<Rule>, facts: set<Triple>)
    requires Over(Values(ids, rules, base), facts) && forall r :: r in some ==> r in rules
    ensures Values(ids, some, facts) <= Values(ids, rules, base)
  {
    var vs := Values(ids, rules, base);
    hide Values;
    forall v | v in Given(some, facts) ensures v in vs { GivenWithin(ids, rules, base, some, facts, v); }
    forall v | v in Values(ids, some, facts) ensures v in vs { ValuesFrom(ids, rules, base, some, facts, v); }
  }

  lemma GivenWithin(ids: Ids, rules: seq<Rule>, base: set<Triple>, some: seq<Rule>, facts: set<Triple>, v: Value)
    requires Over(Values(ids, rules, base), facts) && (forall r :: r in some ==> r in rules) && v in Given(some, facts)
    ensures v in Values(ids, rules, base)
  {
    hide Values, HeadConstants;
    HeadTrue(ids, rules, base);
    if k :| 0 <= k < |some| && v in HeadConstants(some[k]) {
      assert some[k] in some;
      var j :| 0 <= j < |rules| && rules[j] == some[k];
      HeadConstantsGiven(ids, rules, base, j);
    }
  }

  lemma HeadTrue(ids: Ids, rules: seq<Rule>, base: set<Triple>)
    ensures Boolean(true) in Values(ids, rules, base)
  {}

  lemma ValuesFrom(ids: Ids, rules: seq<Rule>, base: set<Triple>, some: seq<Rule>, facts: set<Triple>, v: Value)
    requires v in Values(ids, some, facts) && forall u :: u in Given(some, facts) ==> u in Values(ids, rules, base)
    ensures v in Values(ids, rules, base)
  {
    if v !in Given(some, facts) {
      var u :| u in Given(some, facts) && u.Keyword? && v == Ref(ids(u.k));
      KeywordGiven(ids, rules, base, u);
    }
  }

  lemma ToldApartWithin(vs: set<Value>, us: set<Value>)
    requires ToldApart(vs) && us <= vs
    ensures ToldApart(us)
  {
    hide V.Encode;
  }

  // ----- when it is not the least closed set -----

  const FROM: Text := [113]
  const TO: Text := [112]
  const X: Text := [120]
  const Y: Text := [121]

  /** `(p ?x ?y)` whenever `[?x :q ?y]`. */
  ghost function CopyRule(): Rule { Rule(TO, Var(X), Some(Var(Y)), [Match(Pattern(Var(X), AttributeOf(FROM), Var(Y)))], []) }

  ghost function CopyBase(e: EntityId, v: Value, u: Value): set<Triple> { {Triple(e, AttributeOf(TO), v), Triple(e, AttributeOf(FROM), u)} }

  lemma {:induction false} CopySat(ids: Ids, e: EntityId, v: Value, u: Value, b: Binding)
    ensures Sat(ids, BodyPatterns(CopyRule()), CopyBase(e, v, u), b) <==> b == map[X := Ref(e), Y := u]
  {
    var p := Pattern(Var(X), AttributeOf(FROM), Var(Y));
    var ps, base, t := BodyPatterns(CopyRule()), CopyBase(e, v, u), Triple(e, AttributeOf(FROM), u);
    assert ps == [p];
    assert VarsUpto(ps, 1) == VarsUpto(ps, 0) + {X, Y} == {X, Y};
    assert AttributeOf(TO)[1] != AttributeOf(FROM)[1];
    if b == map[X := Ref(e), Y := u] {
      assert Fits(ids, p, t, map[], {}, b);
      assert Holds(ids, ps, 0, base, map[], b);
    }
    if Sat(ids, ps, base, b) {
      assert Holds(ids, ps, 0, base, map[], b);
      assert b.Keys == {X, Y};
      assert b == map[X := Ref(e), Y := u];
    }
  }

  lemma {:induction false} CopyDerives(ids: Ids, e: EntityId, v: Value, u: Value, t: Triple)
    requires u != Null
    ensures DerivedBy(ids, [CopyRule()], CopyBase(e, v, u), {}, t) <==> t == Triple(e, AttributeOf(TO), u)
  {
    var r, base, b: Binding := CopyRule(), CopyBase(e, v, u), map[X := Ref(e), Y := u];
    hide Sat, BodyPatterns;
    CopySat(ids, e, v, u, b);
    assert BodyHolds(ids, r, base, {}, b) && HeadOf(ids, r, b) == Some(Triple(e, AttributeOf(TO), u));
    if DerivedBy(ids, [r], base, {}, t) {
      assert Derives(ids, r, base, {}, t);
      var c :| BodyHolds(ids, r, base, {}, c) && HeadOf(ids, r, c) == Some(t);
      CopySat(ids, e, v, u, c);
    }
    if t == Triple(e, AttributeOf(TO), u) {
      assert Derives(ids, [r][0], base, {}, t);
    }
  }

  /** Two values with one encoding: copying one where the other is adds nothing, and the outcome lacks a fact of the least closed set. */
  lemma {:induction false} EncodingHides(ids: Ids, e: EntityId, v: Value, u: Value)
    requires v != u && V.Encode(v) == V.Encode(u)
    ensures var rules, base := [CopyRule()], CopyBase(e, v, u);
      Outcome(ids, rules, {}, base, base) && base != Least(ids, rules, {}, base)
  {
    V.EncodeInjective(v, u);
    hide V.Encode, DerivedBy, Least;
    var rules, base := [CopyRule()], CopyBase(e, v, u);
    var held, derived := Triple(e, AttributeOf(TO), v), Triple(e, AttributeOf(TO), u);
    assert held in base && KeyOf(held) == KeyOf(derived);
    forall t | DerivedBy(ids, rules, base, {}, t) ensures KeyOf(t) in Keys(base) { CopyDerives(ids, e, v, u, t); }
    CopyDerives(ids, e, v, u, derived);
    assert AttributeOf(TO)[1] != AttributeOf(FROM)[1];
    assert derived !in base;
    assert !Closed(ids, rules, {}, base);
    assert IsLeast(ids, rules, {}, base, Least(ids, rules, {}, base));
  }

  /** Over these values every program's outcome is its least closed set. */
  ghost predicate AlwaysLeast(ids: Ids, vs: set<Value>) {
    forall rules, negated, base, facts ::
      Values(ids, rules, base) <= vs && Outcome(ids, rules, negated, base, facts) ==> facts == Least(ids, rules, negated, base)
  }

  lemma CopyValues(ids: Ids, rules: seq<Rule>, base: set<Triple>, t: Triple, v: Value, u: Value)
    requires t in base && v in Values(ids, rules, base) && u in Values(ids, rules, base)
    ensures Values(ids, [CopyRule()], CopyBase(t.entity, v, u)) <= Values(ids, rules, base)
  {
    var vs := Values(ids, rules, base);
    assert Ref(t.entity) in vs && Boolean(true) in vs;
    var given := Given([CopyRule()], CopyBase(t.entity, v, u));
    forall w | w in given ensures w in vs {}
    forall w | w in given && w.Keyword? ensures Ref(ids(w.k)) in vs { KeywordGiven(ids, rules, base, w); }
  }

  /** Over the values of any program with facts, outcomes are least closed sets throughout if and only if those values are told apart. */
  lemma {:induction false} AlwaysLeastIff(ids: Ids, rules: seq<Rule>, base: set<Triple>)
    requires base != {}
    ensures AlwaysLeast(ids, Values(ids, rules, base)) <==> ToldApart(Values(ids, rules, base))
  {
    hide Values, Outcome, V.Encode, Least;
    var vs := Values(ids, rules, base);
    if ToldApart(vs) {
      forall rs, negated, b, facts | Values(ids, rs, b) <= vs && Outcome(ids, rs, negated, b, facts) ensures facts == Least(ids, rs, negated, b) {
        ToldApartWithin(vs, Values(ids, rs, b));
        OutcomeLeast(ids, rs, negated, b, facts);
      }
    } else {
      var v, u :| v in vs && u in vs && V.Encode(v) == V.Encode(u) && v != u;
      var t :| t in base;
      CopyValues(ids, rules, base, t, v, u);
      EncodingHides(ids, t.entity, v, u);
    }
  }
}
