/** What a rule's body says about facts, literal by literal, and what the simplest rules derive. */
module Invocations {
  import opened Bytes
  import opened Facts
  import opened Datalog
  import V = ValueEncoding

  // ----- values -----

  ghost predicate Zero(v: Value) { v == Float(0) || v == Float(0x8000_0000_0000_0000) }

  /** The entity a value stands for. */
  ghost predicate Names(ids: Ids, v: Value, e: EntityId) { v == Ref(e) || (v.Keyword? && ids(v.k) == e) }

  /** Values agree when they are one value, two zeros, or two names of one entity; NaN agrees with nothing. */
  lemma {:induction false} AgreeIff(ids: Ids, v: Value, w: Value)
    ensures Agree(ids, v, w) <==>
      !V.NaN(v) && (v == w || (Zero(v) && Zero(w)) || exists e :: Names(ids, v, e) && Names(ids, w, e))
  {
    if v.Keyword? { assert Names(ids, v, ids(v.k)); }
    if v.Ref? { assert Names(ids, v, v.id); }
  }

  /** A constant accepts what agrees with it, but no keyword other than itself. */
  lemma {:induction false} AcceptsIff(ids: Ids, c: Value, v: Value)
    ensures Accepts(ids, c, v) <==> Agree(ids, c, v) && (c.Keyword? && v.Keyword? ==> c == v)
  {}

  lemma {:induction false} AgreesWithEntity(ids: Ids, v: Value, e: EntityId)
    ensures Agree(ids, v, Ref(e)) <==> Names(ids, v, e)
  {}

  // ----- literals -----

  /** A fact satisfies a literal: its attribute is the one named, each argument takes its place, and a free variable given twice
      takes one value. The argument of a one-place call takes the entity, whatever the value. */
  ghost predicate LiteralFits(ids: Ids, l: Literal, t: Triple, fixed: Binding, known: set<Text>, b: Binding) {
    match l
    case Match(Pattern(e, a, v)) => t.attribute == a && BothFit(ids, e, v, t, fixed, known, b)
    case Call(pred, e, Some(v)) => t.attribute == [58] + pred && BothFit(ids, e, v, t, fixed, known, b)
    case Call(pred, e, None) => t.attribute == [58] + pred && TermFits(ids, e, Ref(t.entity), fixed, known, b)
  }

  ghost predicate BothFit(ids: Ids, e: Term, v: Term, t: Triple, fixed: Binding, known: set<Text>, b: Binding) {
    && TermFits(ids, e, Ref(t.entity), fixed, known, b) && TermFits(ids, v, t.value, fixed, known, b)
    && (e.Var? && v == e && e.name !in fixed ==> t.value == Ref(t.entity))
  }

  ghost predicate LiteralHolds(ids: Ids, l: Literal, facts: set<Triple>, fixed: Binding, known: set<Text>, b: Binding) {
    exists t :: t in facts && LiteralFits(ids, l, t, fixed, known, b)
  }

  /** The variables of the arguments of the first `n` literals. */
  ghost function ArgumentVars(ls: seq<Literal>, n: nat): set<Text>
    requires n <= |ls|
  {
    if n == 0 then {}
    else
      ArgumentVars(ls, n - 1) +
      match ls[n - 1]
      case Match(p) => TermVars(p.entity) + TermVars(p.value)
      case Call(_, e, Some(v)) => TermVars(e) + TermVars(v)
      case Call(_, e, None) => TermVars(e)
  }

  lemma {:induction false} ArgumentsAre(ls: seq<Literal>, n: nat)
    requires n <= |ls|
    ensures VarsUpto(Patterns(ls), n) == ArgumentVars(ls, n)
  {
    if n > 0 {
      ArgumentsAre(ls, n - 1);
      assert Patterns(ls)[n - 1] == ToPattern(ls[n - 1]);
    }
  }

  lemma {:induction false} HoldsIff(ids: Ids, ls: seq<Literal>, i: nat, facts: set<Triple>, fixed: Binding, b: Binding)
    requires i < |ls|
    ensures Holds(ids, Patterns(ls), i, facts, fixed, b) <==> LiteralHolds(ids, ls[i], facts, fixed, ArgumentVars(ls, i), b)
  {
    ArgumentsAre(ls, i);
    var p, known := Patterns(ls)[i], ArgumentVars(ls, i);
    assert p == ToPattern(ls[i]);
    hide TermFits, ArgumentVars, VarsUpto;
    forall t ensures Fits(ids, p, t, fixed, known, b) <==> LiteralFits(ids, ls[i], t, fixed, known, b) {
      FitsIff(ids, ls[i], t, fixed, known, b);
    }
    hide Fits, LiteralFits;
  }

  /** Matching a literal's pattern is satisfying the literal. */
  lemma {:induction false} FitsIff(ids: Ids, l: Literal, t: Triple, fixed: Binding, known: set<Text>, b: Binding)
    ensures Fits(ids, ToPattern(l), t, fixed, known, b) <==> LiteralFits(ids, l, t, fixed, known, b)
  {
    match l
    case Match(_) => hide TermFits;
    case Call(_, _, Some(_)) => hide TermFits;
    case Call(_, _, None) =>
  }

  /** A binding satisfies a body when it binds exactly the free variables of its arguments and every literal holds, those of
      the literals before it being known. */
  lemma {:induction false} SatIff(ids: Ids, ls: seq<Literal>, facts: set<Triple>, fixed: Binding, b: Binding)
    ensures SatUpto(ids, Patterns(ls), |ls|, facts, fixed, b) <==>
      && b.Keys == ArgumentVars(ls, |ls|) - fixed.Keys
      && forall i :: 0 <= i < |ls| ==> LiteralHolds(ids, ls[i], facts, fixed, ArgumentVars(ls, i), b)
  {
    ArgumentsAre(ls, |ls|);
    forall i | 0 <= i < |ls|
      ensures Holds(ids, Patterns(ls), i, facts, fixed, b) <==> LiteralHolds(ids, ls[i], facts, fixed, ArgumentVars(ls, i), b)
    {
      HoldsIff(ids, ls, i, facts, fixed, b);
    }
    hide Holds, LiteralHolds, ArgumentVars, VarsUpto, Patterns;
    var ps := Patterns(ls);
    assert |ps| == |ls|;
  }

  // ----- heads -----

  /** What a place of a head becomes: a constant is itself, a variable its value; a null is no value. */
  ghost predicate HeadTakes(term: Term, b: Binding, v: Value) {
    term == Const(v) || (term.Var? && term.name in b && b[term.name] == v != Null)
  }

  /** The fact a binding derives: the predicate with a colon, the entity the first place names, and the second place or `true`. */
  lemma {:induction false} HeadIff(ids: Ids, r: Rule, b: Binding, t: Triple)
    ensures HeadOf(ids, r, b) == Some(t) <==>
      && t.attribute == [58] + r.pred
      && (exists v :: HeadTakes(r.entity, b, v) && Names(ids, v, t.entity))
      && match r.value case None => t.value == Boolean(true) case Some(w) => HeadTakes(w, b, t.value)
  {
    if HeadTerm(r.entity, b).Some? { assert HeadTakes(r.entity, b, HeadTerm(r.entity, b).value); }
  }

  // ----- the simplest rules -----

  ghost predicate Has(facts: set<Triple>, e: EntityId, pred: Text, v: Value) { Triple(e, [58] + pred, v) in facts }

  /** The bindings of a body of one two-place call. */
  lemma {:induction false} OneCall(ids: Ids, pred: Text, x: Text, y: Text, facts: set<Triple>, b: Binding)
    requires x != y
    ensures SatUpto(ids, Patterns([Call(pred, Var(x), Some(Var(y)))]), 1, facts, map[], b) <==>
      b.Keys == {x, y} && b[x].Ref? && Has(facts, b[x].id, pred, b[y])
  {
    var l := Call(pred, Var(x), Some(Var(y)));
    SatIff(ids, [l], facts, map[], b);
    assert ArgumentVars([l], 0) == {} && ArgumentVars([l], 1) == {x, y};
    hide SatUpto, ArgumentVars;
    if b.Keys == {x, y} {
      if b[x].Ref? && Has(facts, b[x].id, pred, b[y]) {
        assert LiteralFits(ids, l, Triple(b[x].id, [58] + pred, b[y]), map[], {}, b);
      }
      if LiteralHolds(ids, l, facts, map[], {}, b) {
        var t :| t in facts && LiteralFits(ids, l, t, map[], {}, b);
        assert t == Triple(b[x].id, [58] + pred, b[y]);
      }
    }
  }

  lemma {:induction false} OneCallUnary(ids: Ids, pred: Text, x: Text, facts: set<Triple>, b: Binding)
    ensures SatUpto(ids, Patterns([Call(pred, Var(x), None)]), 1, facts, map[], b) <==>
      b.Keys == {x} && b[x].Ref? && exists v :: Has(facts, b[x].id, pred, v)
  {
    var l := Call(pred, Var(x), None);
    SatIff(ids, [l], facts, map[], b);
    assert ArgumentVars([l], 0) == {} && ArgumentVars([l], 1) == {x};
    hide SatUpto, ArgumentVars;
    if b.Keys == {x} {
      if v :| b[x].Ref? && Has(facts, b[x].id, pred, v) {
        assert LiteralFits(ids, l, Triple(b[x].id, [58] + pred, v), map[], {}, b);
      }
      if LiteralHolds(ids, l, facts, map[], {}, b) {
        var t :| t in facts && LiteralFits(ids, l, t, map[], {}, b);
        assert Has(facts, b[x].id, pred, t.value);
      }
    }
  }

  /** `(q ?x ?y) :- (p ?x ?y)`. */
  ghost function Forward(q: Text, p: Text, x: Text, y: Text): Rule {
    Rule(q, Var(x), Some(Var(y)), [Call(p, Var(x), Some(Var(y)))], [])
  }

  /** It derives exactly `(e :q v)` for each `(e :p v)` whose value is not null. */
  lemma {:induction false} ForwardDerives(ids: Ids, q: Text, p: Text, x: Text, y: Text, facts: set<Triple>, negated: set<Triple>, t: Triple)
    requires x != y
    ensures Derives(ids, Forward(q, p, x, y), facts, negated, t) <==>
      t.attribute == [58] + q && t.value != Null && Has(facts, t.entity, p, t.value)
  {
    hide SatUpto, HeadOf;
    var r := Forward(q, p, x, y);
    if Derives(ids, r, facts, negated, t) {
      var b :| BodyHolds(ids, r, facts, negated, b) && HeadOf(ids, r, b) == Some(t);
      OneCall(ids, p, x, y, facts, b);
      HeadIff(ids, r, b, t);
    }
    if t.attribute == [58] + q && t.value != Null && Has(facts, t.entity, p, t.value) {
      var b: Binding := map[x := Ref(t.entity), y := t.value];
      OneCall(ids, p, x, y, facts, b);
      HeadIff(ids, r, b, t);
      assert HeadTakes(r.entity, b, Ref(t.entity));
      assert BodyHolds(ids, r, facts, negated, b);
    }
  }

  /** `(q ?y ?x) :- (p ?x ?y)` derives exactly `(e :q d)` for each `(d :p v)` whose value names `e`. */
  lemma {:induction false} BackwardDerives(ids: Ids, q: Text, p: Text, x: Text, y: Text, facts: set<Triple>, negated: set<Triple>, t: Triple)
    requires x != y
    ensures Derives(ids, Forward(q, p, x, y).(entity := Var(y), value := Some(Var(x))), facts, negated, t) <==>
      t.attribute == [58] + q && t.value.Ref? && exists v :: Names(ids, v, t.entity) && Has(facts, t.value.id, p, v)
  {
    hide SatUpto, HeadOf;
    var r := Forward(q, p, x, y).(entity := Var(y), value := Some(Var(x)));
    if Derives(ids, r, facts, negated, t) {
      var b :| BodyHolds(ids, r, facts, negated, b) && HeadOf(ids, r, b) == Some(t);
      OneCall(ids, p, x, y, facts, b);
      HeadIff(ids, r, b, t);
    }
    if v :| t.attribute == [58] + q && t.value.Ref? && Names(ids, v, t.entity) && Has(facts, t.value.id, p, v) {
      var b: Binding := map[x := t.value, y := v];
      OneCall(ids, p, x, y, facts, b);
      HeadIff(ids, r, b, t);
      assert HeadTakes(r.entity, b, v);
      assert BodyHolds(ids, r, facts, negated, b);
    }
  }

  /** `(q ?x) :- (p ?x)` derives exactly `(e :q true)` for each entity with a fact under `:p`. */
  lemma {:induction false} UnaryDerives(ids: Ids, q: Text, p: Text, x: Text, facts: set<Triple>, negated: set<Triple>, t: Triple)
    ensures Derives(ids, Rule(q, Var(x), None, [Call(p, Var(x), None)], []), facts, negated, t) <==>
      t.attribute == [58] + q && t.value == Boolean(true) && exists v :: Has(facts, t.entity, p, v)
  {
    hide SatUpto, HeadOf;
    var r := Rule(q, Var(x), None, [Call(p, Var(x), None)], []);
    if Derives(ids, r, facts, negated, t) {
      var b :| BodyHolds(ids, r, facts, negated, b) && HeadOf(ids, r, b) == Some(t);
      OneCallUnary(ids, p, x, facts, b);
      HeadIff(ids, r, b, t);
    }
    if t.attribute == [58] + q && t.value == Boolean(true) && exists v :: Has(facts, t.entity, p, v) {
      var b: Binding := map[x := Ref(t.entity)];
      OneCallUnary(ids, p, x, facts, b);
      HeadIff(ids, r, b, t);
      assert HeadTakes(r.entity, b, Ref(t.entity));
      assert BodyHolds(ids, r, facts, negated, b);
    }
  }

  // ----- negations -----

  lemma {:induction false} PlannedOne(p: Pattern)
    ensures Planned([p]) == [p]
  {
    SelectiveOne(p, 3);
    SelectiveOne(p, 2);
    SelectiveOne(p, 1);
    hide Selective;
  }

  lemma SelectiveOne(p: Pattern, k: nat)
    ensures Selective([p], 1, k) == if Selectivity(p) == k then [p] else []
  {
    hide Selectivity;
    assert Selective([p], 0, k) == [];
  }

  lemma {:induction false} OneLiteral(r: Rule, l: Literal)
    requires r.body == [l]
    ensures BodyPatterns(r) == Patterns([l])
  {
    assert Patterns([l]) == [ToPattern(l)];
    PlannedOne(ToPattern(l));
  }

  /** `not (p ?x ?y)` blocks a binding exactly when the entity of `?x` has a value under `:p` that the value of `?y` accepts. */
  lemma {:induction false} NotBlocks(ids: Ids, p: Text, x: Text, y: Text, negated: set<Triple>, e: EntityId, v: Value)
    requires x != y
    ensures Blocked(ids, Not([Call(p, Var(x), Some(Var(y)))]), negated, map[x := Ref(e), y := v]) <==>
      v != Null && exists w :: Has(negated, e, p, w) && Accepts(ids, v, w)
  {
    var l, b: Binding := Call(p, Var(x), Some(Var(y))), map[x := Ref(e), y := v];
    var n := Not([l]);
    assert ArgumentVars([l], 0) == {} && ArgumentVars([l], 1) == {x, y};
    ArgumentsAre([l], 1);
    assert NullShared(n, b) <==> v == Null by { assert y in Shared(n, b) && b[y] == v && b[x] == Ref(e); }
    hide ArgumentVars, NullShared, SatUpto, VarsUpto, Accepts;
    AcceptsEntity(ids, e);
    if Satisfiable(ids, n, negated, b) {
      var c :| SatUpto(ids, Patterns(n.body), |n.body|, negated, b, c);
      SatIff(ids, [l], negated, b, c);
      var t :| t in negated && LiteralFits(ids, l, t, b, {}, c);
      assert t == Triple(e, [58] + p, t.value);
    }
    if w :| Has(negated, e, p, w) && Accepts(ids, v, w) {
      var c: Binding := map[];
      SatIff(ids, [l], negated, b, c);
      assert LiteralFits(ids, l, Triple(e, [58] + p, w), b, {}, c);
      assert b.Keys == {x, y} && LiteralHolds(ids, l, negated, b, {}, c);
      assert SatUpto(ids, Patterns(n.body), |n.body|, negated, b, c);
    }
  }

  /** An entity accepts itself and no other. */
  lemma AcceptsEntity(ids: Ids, e: EntityId)
    ensures forall d :: Accepts(ids, Ref(e), Ref(d)) <==> e == d
  {}

  /** `not-join [?x] (p ?x ?y)` blocks a binding exactly when the entity of `?x` has any value under `:p`. */
  lemma {:induction false} NotJoinBlocks(ids: Ids, p: Text, x: Text, y: Text, negated: set<Triple>, e: EntityId, v: Value)
    requires x != y
    ensures Blocked(ids, NotJoin([x], [Call(p, Var(x), Some(Var(y)))]), negated, map[x := Ref(e), y := v]) <==>
      exists w :: Has(negated, e, p, w)
  {
    var l, b: Binding := Call(p, Var(x), Some(Var(y))), map[x := Ref(e), y := v];
    var n, shared: Binding := NotJoin([x], [l]), map[x := Ref(e)];
    assert Shared(n, b) == shared;
    assert ArgumentVars([l], 0) == {} && ArgumentVars([l], 1) == {x, y};
    assert !NullShared(n, b);
    hide ArgumentVars, NullShared, SatUpto, Accepts;
    AcceptsEntity(ids, e);
    if Satisfiable(ids, n, negated, b) {
      var c :| SatUpto(ids, Patterns(n.body), |n.body|, negated, shared, c);
      SatIff(ids, [l], negated, shared, c);
      var t :| t in negated && LiteralFits(ids, l, t, shared, {}, c);
      assert Has(negated, e, p, t.value);
    }
    if w :| Has(negated, e, p, w) {
      var c: Binding := map[y := w];
      SatIff(ids, [l], negated, shared, c);
      assert LiteralFits(ids, l, Triple(e, [58] + p, w), shared, {}, c);
      assert {x, y} - shared.Keys == {y} && LiteralHolds(ids, l, negated, shared, {}, c);
      assert SatUpto(ids, Patterns(n.body), |n.body|, negated, shared, c);
    }
  }

  /** `(q ?x ?y) :- (p ?x ?y) (not (s ?x ?y))` derives the facts of `:p` that no fact of `:s` answers. */
  lemma {:induction false} DifferenceDerives(ids: Ids, q: Text, p: Text, s: Text, x: Text, y: Text, facts: set<Triple>, negated: set<Triple>, t: Triple)
    requires x != y
    ensures Derives(ids, Forward(q, p, x, y).(nots := [Not([Call(s, Var(x), Some(Var(y)))])]), facts, negated, t) <==>
      && t.attribute == [58] + q && t.value != Null && Has(facts, t.entity, p, t.value)
      && !exists w :: Has(negated, t.entity, s, w) && Accepts(ids, t.value, w)
  {
    hide SatUpto, HeadOf, Blocked, BodyPatterns, Accepts;
    var n := Not([Call(s, Var(x), Some(Var(y)))]);
    var r := Forward(q, p, x, y).(nots := [n]);
    OneLiteral(r, Call(p, Var(x), Some(Var(y))));
    NotBlocks(ids, s, x, y, negated, t.entity, t.value);
    DerivesUnblocked(ids, r, q, p, x, y, n, facts, negated, t);
  }

  /** `(q ?x ?y) :- (p ?x ?y) (not-join [?x] (s ?x ?y))` derives the facts of `:p` of entities with no fact of `:s`. */
  lemma {:induction false} EntityDifferenceDerives(ids: Ids, q: Text, p: Text, s: Text, x: Text, y: Text, facts: set<Triple>, negated: set<Triple>, t: Triple)
    requires x != y
    ensures Derives(ids, Forward(q, p, x, y).(nots := [NotJoin([x], [Call(s, Var(x), Some(Var(y)))])]), facts, negated, t) <==>
      && t.attribute == [58] + q && t.value != Null && Has(facts, t.entity, p, t.value)
      && !exists w :: Has(negated, t.entity, s, w)
  {
    hide SatUpto, HeadOf, Blocked, BodyPatterns;
    var n := NotJoin([x], [Call(s, Var(x), Some(Var(y)))]);
    var r := Forward(q, p, x, y).(nots := [n]);
    OneLiteral(r, Call(p, Var(x), Some(Var(y))));
    NotJoinBlocks(ids, s, x, y, negated, t.entity, t.value);
    DerivesUnblocked(ids, r, q, p, x, y, n, facts, negated, t);
  }

  lemma DerivesUnblocked(ids: Ids, r: Rule, q: Text, p: Text, x: Text, y: Text, n: Negation, facts: set<Triple>, negated: set<Triple>, t: Triple)
    requires x != y && r == Forward(q, p, x, y).(nots := [n]) && BodyPatterns(r) == Patterns([Call(p, Var(x), Some(Var(y)))])
    ensures Derives(ids, r, facts, negated, t) <==>
      && t.attribute == [58] + q && t.value != Null && Has(facts, t.entity, p, t.value)
      && !Blocked(ids, n, negated, map[x := Ref(t.entity), y := t.value])
  {
    hide SatUpto, HeadOf, Blocked, BodyPatterns;
    if Derives(ids, r, facts, negated, t) {
      var b :| BodyHolds(ids, r, facts, negated, b) && HeadOf(ids, r, b) == Some(t);
      OneCall(ids, p, x, y, facts, b);
      HeadIff(ids, r, b, t);
      assert b == map[x := Ref(t.entity), y := t.value];
      assert !Blocked(ids, r.nots[0], negated, b);
    }
    var b: Binding := map[x := Ref(t.entity), y := t.value];
    if t.attribute == [58] + q && t.value != Null && Has(facts, t.entity, p, t.value) && !Blocked(ids, n, negated, b) {
      OneCall(ids, p, x, y, facts, b);
      HeadIff(ids, r, b, t);
      assert HeadTakes(r.entity, b, Ref(t.entity));
      assert BodyHolds(ids, r, facts, negated, b);
    }
  }
}
