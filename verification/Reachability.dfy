/** The recursive rules that reachability is written in, and what evaluating them gives: exactly the ends of paths. */
module Reachability {
  import opened Bytes
  import opened Facts
  import opened Datalog
  import opened LeastModel
  import opened Invocations
  import N = SeenFacts

  const X: Text := [120]
  const Y: Text := [121]
  const Z: Text := [122]

  /** `(p ?x ?y)` whenever `[?x c ?y]`. */
  ghost function EdgeRule(p: Text, c: Text): Rule {
    Rule(p, Var(X), Some(Var(Y)), [Match(Pattern(Var(X), c, Var(Y)))], [])
  }

  /** `(p ?x ?y)` whenever `[?x c ?z]` and `(p ?z ?y)`. */
  ghost function StepRule(p: Text, c: Text): Rule {
    Rule(p, Var(X), Some(Var(Y)), [Match(Pattern(Var(X), c, Var(Z))), Call(p, Var(Z), Some(Var(Y)))], [])
  }

  ghost function PathRules(p: Text, c: Text): seq<Rule> { [EdgeRule(p, c), StepRule(p, c)] }

  /** After `n` edges from `e` comes an entity with the value `v` under `c`, or already under `:p`. */
  ghost predicate Reaches(ids: Ids, p: Text, c: Text, base: set<Triple>, e: EntityId, v: Value, n: nat)
    decreases n
  {
    if n == 0 then Triple(e, c, v) in base || Has(base, e, p, v)
    else exists d :: Edge(ids, c, base, e, d) && Reaches(ids, p, c, base, d, v, n - 1)
  }

  /** A fact under `c` whose value names the entity `d`. */
  ghost predicate Edge(ids: Ids, c: Text, base: set<Triple>, e: EntityId, d: EntityId) {
    exists w :: Triple(e, c, w) in base && Names(ids, w, d)
  }

  // ----- what each rule derives -----

  lemma {:induction false} EdgeSat(ids: Ids, p: Text, c: Text, facts: set<Triple>, b: Binding)
    ensures SatUpto(ids, Patterns(EdgeRule(p, c).body), 1, facts, map[], b) <==>
      b.Keys == {X, Y} && b[X].Ref? && Triple(b[X].id, c, b[Y]) in facts
  {
    var ls := EdgeRule(p, c).body;
    SatIff(ids, ls, facts, map[], b);
    assert ArgumentVars(ls, 0) == {} && ArgumentVars(ls, 1) == {X, Y};
    hide SatUpto, ArgumentVars;
    if b.Keys == {X, Y} {
      if b[X].Ref? && Triple(b[X].id, c, b[Y]) in facts {
        assert LiteralFits(ids, ls[0], Triple(b[X].id, c, b[Y]), map[], {}, b);
      }
      if LiteralHolds(ids, ls[0], facts, map[], {}, b) {
        var t :| t in facts && LiteralFits(ids, ls[0], t, map[], {}, b);
        assert t == Triple(b[X].id, c, b[Y]);
      }
    }
  }

  lemma {:induction false} EdgeDerives(ids: Ids, p: Text, c: Text, facts: set<Triple>, t: Triple)
    ensures Derives(ids, EdgeRule(p, c), facts, {}, t) <==> t.attribute == [58] + p && t.value != Null && Triple(t.entity, c, t.value) in facts
  {
    hide SatUpto, HeadOf;
    var r := EdgeRule(p, c);
    if Derives(ids, r, facts, {}, t) {
      var b :| BodyHolds(ids, r, facts, {}, b) && HeadOf(ids, r, b) == Some(t);
      EdgeSat(ids, p, c, facts, b);
      HeadIff(ids, r, b, t);
    }
    if t.attribute == [58] + p && t.value != Null && Triple(t.entity, c, t.value) in facts {
      var b: Binding := map[X := Ref(t.entity), Y := t.value];
      EdgeSat(ids, p, c, facts, b);
      HeadIff(ids, r, b, t);
      assert HeadTakes(r.entity, b, Ref(t.entity));
      assert BodyHolds(ids, r, facts, {}, b);
    }
  }

  lemma FirstHolds(ids: Ids, p: Text, c: Text, facts: set<Triple>, b: Binding)
    requires b.Keys == {X, Y, Z}
    ensures LiteralHolds(ids, StepRule(p, c).body[0], facts, map[], {}, b) <==> b[X].Ref? && Triple(b[X].id, c, b[Z]) in facts
  {
    var l := StepRule(p, c).body[0];
    if b[X].Ref? && Triple(b[X].id, c, b[Z]) in facts {
      assert LiteralFits(ids, l, Triple(b[X].id, c, b[Z]), map[], {}, b);
    }
    if LiteralHolds(ids, l, facts, map[], {}, b) {
      var t :| t in facts && LiteralFits(ids, l, t, map[], {}, b);
      assert t == Triple(b[X].id, c, b[Z]);
    }
  }

  lemma SecondHolds(ids: Ids, p: Text, c: Text, facts: set<Triple>, b: Binding)
    requires b.Keys == {X, Y, Z}
    ensures LiteralHolds(ids, StepRule(p, c).body[1], facts, map[], {X, Z}, b) <==> exists d :: Names(ids, b[Z], d) && Has(facts, d, p, b[Y])
  {
    var l := StepRule(p, c).body[1];
    hide Agree;
    if d :| Names(ids, b[Z], d) && Has(facts, d, p, b[Y]) {
      AgreesWithEntity(ids, b[Z], d);
      assert LiteralFits(ids, l, Triple(d, [58] + p, b[Y]), map[], {X, Z}, b);
    }
    if LiteralHolds(ids, l, facts, map[], {X, Z}, b) {
      var t :| t in facts && LiteralFits(ids, l, t, map[], {X, Z}, b);
      AgreesWithEntity(ids, b[Z], t.entity);
      assert t == Triple(t.entity, [58] + p, b[Y]);
    }
  }

  lemma {:induction false} StepSat(ids: Ids, p: Text, c: Text, facts: set<Triple>, b: Binding)
    ensures SatUpto(ids, Patterns(StepRule(p, c).body), 2, facts, map[], b) <==>
      && b.Keys == {X, Y, Z} && b[X].Ref? && Triple(b[X].id, c, b[Z]) in facts
      && exists d :: Names(ids, b[Z], d) && Has(facts, d, p, b[Y])
  {
    var ls := StepRule(p, c).body;
    SatIff(ids, ls, facts, map[], b);
    assert ArgumentVars(ls, 0) == {} && ArgumentVars(ls, 1) == {X, Z} && ArgumentVars(ls, 2) == {X, Y, Z};
    if b.Keys == {X, Y, Z} {
      FirstHolds(ids, p, c, facts, b);
      SecondHolds(ids, p, c, facts, b);
    }
    hide SatUpto, ArgumentVars, LiteralHolds;
  }

  lemma {:induction false} StepDerives(ids: Ids, p: Text, c: Text, facts: set<Triple>, t: Triple)
    ensures Derives(ids, StepRule(p, c), facts, {}, t) <==>
      t.attribute == [58] + p && t.value != Null && exists d :: Edge(ids, c, facts, t.entity, d) && Has(facts, d, p, t.value)
  {
    hide SatUpto, HeadOf;
    var r := StepRule(p, c);
    if Derives(ids, r, facts, {}, t) {
      var b :| BodyHolds(ids, r, facts, {}, b) && HeadOf(ids, r, b) == Some(t);
      StepSat(ids, p, c, facts, b);
      HeadIff(ids, r, b, t);
      var d :| Names(ids, b[Z], d) && Has(facts, d, p, b[Y]);
      assert Edge(ids, c, facts, t.entity, d);
    }
    if d :| t.attribute == [58] + p && t.value != Null && Edge(ids, c, facts, t.entity, d) && Has(facts, d, p, t.value) {
      var w :| Triple(t.entity, c, w) in facts && Names(ids, w, d);
      var b: Binding := map[X := Ref(t.entity), Y := t.value, Z := w];
      StepSat(ids, p, c, facts, b);
      HeadIff(ids, r, b, t);
      assert HeadTakes(r.entity, b, Ref(t.entity));
      assert BodyHolds(ids, r, facts, {}, b);
    }
  }

  /** One application of the two rules. */
  ghost predicate OneMore(ids: Ids, p: Text, c: Text, facts: set<Triple>, t: Triple) {
    && t.attribute == [58] + p && t.value != Null
    && (Triple(t.entity, c, t.value) in facts || exists d :: Edge(ids, c, facts, t.entity, d) && Has(facts, d, p, t.value))
  }

  lemma {:induction false} PathDerives(ids: Ids, p: Text, c: Text, facts: set<Triple>, t: Triple)
    ensures DerivedBy(ids, PathRules(p, c), facts, {}, t) <==> OneMore(ids, p, c, facts, t)
  {
    EdgeDerives(ids, p, c, facts, t);
    StepDerives(ids, p, c, facts, t);
    hide Derives;
    var rules := PathRules(p, c);
    assert rules[0] == EdgeRule(p, c) && rules[1] == StepRule(p, c);
  }

  // ----- the least model -----

  /** The fact is the end of a path. */
  ghost predicate PathEnd(ids: Ids, p: Text, c: Text, base: set<Triple>, t: Triple) {
    t.attribute == [58] + p && t.value != Null && exists n: nat :: Reaches(ids, p, c, base, t.entity, t.value, n)
  }

  lemma EdgeMore(ids: Ids, c: Text, base: set<Triple>, facts: set<Triple>, e: EntityId, d: EntityId)
    requires base <= facts && Edge(ids, c, base, e, d)
    ensures Edge(ids, c, facts, e, d)
  {
    var w :| Triple(e, c, w) in base && Names(ids, w, d);
    assert Triple(e, c, w) in facts;
  }

  /** Every closed set holds the ends of all paths. */
  lemma {:induction false} ReachesForced(ids: Ids, p: Text, c: Text, base: set<Triple>, facts: set<Triple>, e: EntityId, v: Value, n: nat)
    requires base <= facts && Closed(ids, PathRules(p, c), {}, facts) && v != Null && Reaches(ids, p, c, base, e, v, n)
    ensures Has(facts, e, p, v)
    decreases n
  {
    hide DerivedBy, PathRules;
    var t := Triple(e, [58] + p, v);
    PathDerives(ids, p, c, facts, t);
    if n > 0 {
      var d :| Edge(ids, c, base, e, d) && Reaches(ids, p, c, base, d, v, n - 1);
      EdgeMore(ids, c, base, facts, e, d);
      ReachesForced(ids, p, c, base, facts, d, v, n - 1);
    }
  }

  /** Facts that are in the base or the end of a path. */
  ghost predicate Explained(ids: Ids, p: Text, c: Text, base: set<Triple>, t: Triple) { t in base || PathEnd(ids, p, c, base, t) }

  lemma {:induction false} ExplainedStep(ids: Ids, p: Text, c: Text, base: set<Triple>, facts: set<Triple>, t: Triple)
    requires c != [58] + p && OneMore(ids, p, c, facts, t) && forall u :: u in facts ==> Explained(ids, p, c, base, u)
    ensures PathEnd(ids, p, c, base, t)
  {
    if Triple(t.entity, c, t.value) in facts {
      assert Explained(ids, p, c, base, Triple(t.entity, c, t.value));
      assert Reaches(ids, p, c, base, t.entity, t.value, 0);
    } else {
      var d :| Edge(ids, c, facts, t.entity, d) && Has(facts, d, p, t.value);
      var w :| Triple(t.entity, c, w) in facts && Names(ids, w, d);
      assert Explained(ids, p, c, base, Triple(t.entity, c, w));
      assert Edge(ids, c, base, t.entity, d);
      var u := Triple(d, [58] + p, t.value);
      assert Explained(ids, p, c, base, u);
      assert Reaches(ids, p, c, base, d, t.value, 0) || PathEnd(ids, p, c, base, u);
      var n: nat :| Reaches(ids, p, c, base, d, t.value, n);
      assert Reaches(ids, p, c, base, t.entity, t.value, n + 1);
    }
  }

  /** The least model of the two rules adds to the base exactly the ends of its paths. */
  lemma {:induction false} LeastIsReach(ids: Ids, p: Text, c: Text, base: set<Triple>, t: Triple)
    requires c != [58] + p
    ensures t in Least(ids, PathRules(p, c), {}, base) <==> t in base || PathEnd(ids, p, c, base, t)
  {
    hide DerivedBy, PathRules, Reaches, OneMore, PathEnd, Least;
    var rules := PathRules(p, c);
    var m := Least(ids, rules, {}, base);
    var some := set u | u in m && Explained(ids, p, c, base, u);
    forall u | DerivedBy(ids, rules, some, {}, u) ensures u in some {
      PathDerives(ids, p, c, some, u);
      ExplainedStep(ids, p, c, base, some, u);
      DerivedByMore(ids, rules, some, m, {}, u);
      ClosedHas(ids, rules, {}, m, u);
    }
    assert base <= some && Closed(ids, rules, {}, some);
    assert m <= some;
    if PathEnd(ids, p, c, base, t) { EndForced(ids, p, c, base, m, t); }
  }

  lemma EndForced(ids: Ids, p: Text, c: Text, base: set<Triple>, facts: set<Triple>, t: Triple)
    requires base <= facts && Closed(ids, PathRules(p, c), {}, facts) && PathEnd(ids, p, c, base, t)
    ensures t in facts
  {
    hide Closed, Reaches;
    var n: nat :| Reaches(ids, p, c, base, t.entity, t.value, n);
    ReachesForced(ids, p, c, base, facts, t.entity, t.value, n);
    assert t == Triple(t.entity, [58] + p, t.value);
  }

  /** Evaluating the rules gives the base and the ends of its paths, where the encoding tells the base's values apart. */
  lemma {:induction false} EvaluatedIsReach(ids: Ids, p: Text, c: Text, base: set<Triple>, facts: set<Triple>, t: Triple)
    requires c != [58] + p && N.Outcome(ids, PathRules(p, c), {}, base, facts) && N.ToldApart(Values(ids, PathRules(p, c), base))
    ensures t in facts <==> t in base || PathEnd(ids, p, c, base, t)
  {
    hide N.Outcome, N.ToldApart, Values, Least, PathEnd, PathRules;
    N.OutcomeLeast(ids, PathRules(p, c), {}, base, facts);
    LeastIsReach(ids, p, c, base, t);
  }
}
