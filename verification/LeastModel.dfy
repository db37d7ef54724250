/** Every set of rules has a least closed set over any base: rules make no new values. */
module LeastModel {
  import opened Bytes
  import opened Facts
  import opened Datalog

  ghost predicate DerivedBy(ids: Ids, rules: seq<Rule>, facts: set<Triple>, negated: set<Triple>, t: Triple) {
    exists k :: 0 <= k < |rules| && Derives(ids, rules[k], facts, negated, t)
  }

  /** Whatever the rules derive is there already; negations are read in `negated`. */
  ghost predicate Closed(ids: Ids, rules: seq<Rule>, negated: set<Triple>, facts: set<Triple>) {
    forall t :: DerivedBy(ids, rules, facts, negated, t) ==> t in facts
  }

  /** Everything in `facts` is in every closed set above `base`. */
  ghost predicate Forced(ids: Ids, rules: seq<Rule>, negated: set<Triple>, base: set<Triple>, facts: set<Triple>) {
    forall c: set<Triple> :: base <= c && Closed(ids, rules, negated, c) ==> facts <= c
  }

  ghost predicate IsLeast(ids: Ids, rules: seq<Rule>, negated: set<Triple>, base: set<Triple>, facts: set<Triple>) {
    base <= facts && Closed(ids, rules, negated, facts) && Forced(ids, rules, negated, base, facts)
  }

  lemma DerivedByMore(ids: Ids, rules: seq<Rule>, facts: set<Triple>, more: set<Triple>, negated: set<Triple>, t: Triple)
    requires facts <= more && DerivedBy(ids, rules, facts, negated, t)
    ensures DerivedBy(ids, rules, more, negated, t)
  {
    var k :| 0 <= k < |rules| && Derives(ids, rules[k], facts, negated, t);
    DerivesMore(ids, rules[k], facts, more, negated, t);
  }

  lemma ClosedHas(ids: Ids, rules: seq<Rule>, negated: set<Triple>, c: set<Triple>, t: Triple)
    requires Closed(ids, rules, negated, c) && DerivedBy(ids, rules, c, negated, t)
    ensures t in c
  {}

  // ----- a finite universe -----

  ghost function Constants(term: Term): set<Value> { if term.Const? then {term.v} else {} }

  ghost function HeadConstants(r: Rule): set<Value> {
    Constants(r.entity) + if r.value.Some? then Constants(r.value.value) else {}
  }

  /** The values of the base and of the heads. */
  ghost function Given(rules: seq<Rule>, base: set<Triple>): set<Value> {
    (set t | t in base :: Ref(t.entity)) + (set t | t in base :: t.value)
    + (set k, v | 0 <= k < |rules| && v in HeadConstants(rules[k]) :: v) + {Boolean(true)}
  }

  /** With the entities that keywords among them stand for. */
  ghost function Values(ids: Ids, rules: seq<Rule>, base: set<Triple>): set<Value> {
    Given(rules, base) + set v | v in Given(rules, base) && v.Keyword? :: Ref(ids(v.k))
  }

  /** Nothing but known values occurs. */
  ghost predicate Over(values: set<Value>, facts: set<Triple>) {
    forall t :: t in facts ==> Ref(t.entity) in values && t.value in values
  }

  ghost function Universe(ids: Ids, rules: seq<Rule>, base: set<Triple>): set<Triple> {
    var values := Values(ids, rules, base);
    base + set v, w, k | v in values && v.Ref? && w in values && 0 <= k < |rules| :: Triple(v.id, AttributeOf(rules[k].pred), w)
  }

  /** A satisfying binding takes its values from the facts. */
  lemma BoundValues(ids: Ids, values: set<Value>, ps: seq<Pattern>, facts: set<Triple>, b: Binding, x: Text)
    requires Over(values, facts) && Sat(ids, ps, facts, b) && x in b
    ensures b[x] in values
  {
    var t := BoundInFacts(ids, ps, facts, b, x);
  }

  lemma HeadValue(values: set<Value>, term: Term, b: Binding)
    requires Constants(term) <= values && forall x :: x in b ==> b[x] in values
    ensures HeadTerm(term, b).Some? ==> HeadTerm(term, b).value in values
  {}

  lemma KeywordGiven(ids: Ids, rules: seq<Rule>, base: set<Triple>, v: Value)
    requires v in Values(ids, rules, base) && v.Keyword?
    ensures Ref(ids(v.k)) in Values(ids, rules, base)
  {
    assert v in Given(rules, base);
  }

  lemma HeadConstantsGiven(ids: Ids, rules: seq<Rule>, base: set<Triple>, k: nat)
    requires k < |rules|
    ensures HeadConstants(rules[k]) <= Values(ids, rules, base) && Boolean(true) in Values(ids, rules, base)
  {}

  /** A head is over the known values when its binding is. */
  lemma HeadOver(ids: Ids, rules: seq<Rule>, base: set<Triple>, k: nat, b: Binding, t: Triple)
    requires k < |rules| && HeadOf(ids, rules[k], b) == Some(t)
    requires forall x :: x in b ==> b[x] in Values(ids, rules, base)
    ensures Ref(t.entity) in Values(ids, rules, base) && t.value in Values(ids, rules, base)
    ensures t.attribute == AttributeOf(rules[k].pred)
  {
    var values, r := Values(ids, rules, base), rules[k];
    HeadConstantsGiven(ids, rules, base, k);
    HeadValue(values, r.entity, b);
    if r.value.Some? { HeadValue(values, r.value.value, b); }
    var e := HeadTerm(r.entity, b).value;
    if e.Keyword? { KeywordGiven(ids, rules, base, e); }
    hide Values;
  }

  lemma DerivedOver(ids: Ids, rules: seq<Rule>, base: set<Triple>, facts: set<Triple>, negated: set<Triple>, t: Triple)
    requires Over(Values(ids, rules, base), facts) && DerivedBy(ids, rules, facts, negated, t)
    ensures t in Universe(ids, rules, base)
  {
    hide Values, Sat;
    var k :| 0 <= k < |rules| && Derives(ids, rules[k], facts, negated, t);
    var b :| BodyHolds(ids, rules[k], facts, negated, b) && HeadOf(ids, rules[k], b) == Some(t);
    forall x | x in b ensures b[x] in Values(ids, rules, base) {
      BoundValues(ids, Values(ids, rules, base), BodyPatterns(rules[k]), facts, b, x);
    }
    HeadOver(ids, rules, base, k, b, t);
    assert t == Triple(Ref(t.entity).id, AttributeOf(rules[k].pred), t.value);
  }

  lemma UniverseOver(ids: Ids, rules: seq<Rule>, base: set<Triple>)
    ensures Over(Values(ids, rules, base), Universe(ids, rules, base))
  {}

  // ----- the least closed set -----

  /** What every closed set above the base holds. */
  ghost function Least(ids: Ids, rules: seq<Rule>, negated: set<Triple>, base: set<Triple>): (m: set<Triple>)
    ensures IsLeast(ids, rules, negated, base, m)
  {
    var m := set t | t in Universe(ids, rules, base) && Forced(ids, rules, negated, base, {t});
    LeastIsLeast(ids, rules, negated, base, m);
    m
  }

  lemma {:induction false} LeastIsLeast(ids: Ids, rules: seq<Rule>, negated: set<Triple>, base: set<Triple>, m: set<Triple>)
    requires m == set t | t in Universe(ids, rules, base) && Forced(ids, rules, negated, base, {t})
    ensures IsLeast(ids, rules, negated, base, m)
  {
    UniverseOver(ids, rules, base);
    hide Values, Universe;
    assert base <= m by { BaseInUniverse(ids, rules, base); }
    hide DerivedBy;
    forall c: set<Triple> | base <= c && Closed(ids, rules, negated, c) ensures m <= c {
      forall t | t in m ensures t in c { assert {t} <= c; }
    }
    forall t | DerivedBy(ids, rules, m, negated, t) ensures t in m {
      DerivedOver(ids, rules, base, m, negated, t);
      forall c: set<Triple> | base <= c && Closed(ids, rules, negated, c) ensures {t} <= c {
        DerivedByMore(ids, rules, m, c, negated, t);
        ClosedHas(ids, rules, negated, c, t);
      }
    }
  }

  lemma BaseInUniverse(ids: Ids, rules: seq<Rule>, base: set<Triple>)
    ensures base <= Universe(ids, rules, base)
  {}

  lemma {:induction false} LeastUnique(ids: Ids, rules: seq<Rule>, negated: set<Triple>, base: set<Triple>, m: set<Triple>)
    requires IsLeast(ids, rules, negated, base, m)
    ensures m == Least(ids, rules, negated, base)
  {
    hide Closed;
    assert IsLeast(ids, rules, negated, base, Least(ids, rules, negated, base));
    hide Least;
  }

  lemma {:induction false} SubsetSize<T>(a: set<T>, b: set<T>)
    requires a <= b
    ensures |a| <= |b|
  {
    if a != {} {
      var t :| t in a;
      SubsetSize(a - {t}, b - {t});
    }
  }

  /** Forced facts are facts of the least closed set. */
  lemma ForcedLeast(ids: Ids, rules: seq<Rule>, negated: set<Triple>, base: set<Triple>, facts: set<Triple>)
    requires Forced(ids, rules, negated, base, facts)
    ensures facts <= Least(ids, rules, negated, base) && |facts| <= |Least(ids, rules, negated, base)|
  {
    var m := Least(ids, rules, negated, base);
    assert base <= m && Closed(ids, rules, negated, m);
    SubsetSize(facts, m);
  }
}
