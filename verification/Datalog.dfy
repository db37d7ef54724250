/** Datalog rules: what a rule body means, and the matching that computes it. */
module Datalog {
  import opened Bytes
  import opened Facts
  import V = ValueEncoding

  /** What matching sees of a fact. */
  datatype Triple = Triple(entity: EntityId, attribute: Text, value: Value)

  /** `Any` is an anonymous variable such as `?_x` and `Blank` the wildcard `_`; `Symbol` is any other symbol, which matches nothing. */
  datatype Term = Var(name: Text) | Const(v: Value) | Any | Blank | Symbol
  datatype Pattern = Pattern(entity: Term, attribute: Text, value: Term)

  /** A pattern over a stored attribute, or the invocation of a rule with one or two arguments. */
  datatype Literal = Match(p: Pattern) | Call(pred: Text, arg: Term, val: Option<Term>)

  /** `not` shares all variables of the binding it filters, `not-join` the listed ones. */
  datatype Negation = Not(body: seq<Literal>) | NotJoin(vars: seq<Text>, body: seq<Literal>)

  datatype Rule = Rule(pred: Text, entity: Term, value: Option<Term>, body: seq<Literal>, nots: seq<Negation>)

  type Binding = map<Text, Value>

  /** Facts derived for a predicate are stored under its name with a colon. */
  function AttributeOf(pred: Text): Text { [58] + pred }

  /** `(p ?x)` matches as `[?x :p _]` and `(p ?x ?y)` as `[?x :p ?y]`. */
  function ToPattern(l: Literal): Pattern {
    match l
    case Match(p) => p
    case Call(pred, arg, None) => Pattern(arg, AttributeOf(pred), Any)
    case Call(pred, arg, Some(val)) => Pattern(arg, AttributeOf(pred), val)
  }

  function Patterns(ls: seq<Literal>): (r: seq<Pattern>)
    ensures |r| == |ls| && forall i :: 0 <= i < |ls| ==> r[i] == ToPattern(ls[i])
  {
    seq(|ls|, i requires 0 <= i < |ls| => ToPattern(ls[i]))
  }

  // ----- planned order -----

  predicate IsVariable(term: Term) { term.Var? || term.Any? }

  /** How many places of a pattern are bound; its attribute always is. */
  function Selectivity(p: Pattern): nat {
    1 + (if IsVariable(p.entity) then 0 else 1) + if IsVariable(p.value) then 0 else 1
  }

  /** Those of the first `n` patterns with this selectivity, in order. */
  function Selective(ps: seq<Pattern>, n: nat, k: nat): seq<Pattern>
    requires n <= |ps|
  {
    if n == 0 then []
    else if Selectivity(ps[n - 1]) == k then Selective(ps, n - 1, k) + [ps[n - 1]]
    else Selective(ps, n - 1, k)
  }

  /** Most selective first, otherwise in the order written. */
  function Planned(ps: seq<Pattern>): seq<Pattern> {
    Selective(ps, |ps|, 3) + Selective(ps, |ps|, 2) + Selective(ps, |ps|, 1)
  }

  lemma {:induction false} SelectiveStep(ps: seq<Pattern>, n: nat, k: nat)
    requires 0 < n <= |ps|
    ensures multiset(Selective(ps, n, k)) ==
      multiset(Selective(ps, n - 1, k)) + if Selectivity(ps[n - 1]) == k then multiset{ps[n - 1]} else multiset{}
  {
    hide Selectivity;
  }

  lemma {:induction false} SelectivePermute(ps: seq<Pattern>, n: nat)
    requires n <= |ps|
    ensures multiset(Selective(ps, n, 3)) + multiset(Selective(ps, n, 2)) + multiset(Selective(ps, n, 1)) == multiset(ps[..n])
  {
    if n > 0 {
      SelectivePermute(ps, n - 1);
      assert ps[..n] == ps[..n - 1] + [ps[n - 1]];
      SelectiveStep(ps, n, 3);
      SelectiveStep(ps, n, 2);
      SelectiveStep(ps, n, 1);
      hide Selective;
    }
  }

  /** Planning only reorders. */
  lemma {:induction false} PlannedPermutes(ps: seq<Pattern>)
    ensures multiset(Planned(ps)) == multiset(ps)
  {
    SelectivePermute(ps, |ps|);
    assert ps[..|ps|] == ps;
  }

  lemma {:induction false} SelectiveOnly(ps: seq<Pattern>, n: nat, k: nat)
    requires n <= |ps|
    ensures forall i :: 0 <= i < |Selective(ps, n, k)| ==> Selectivity(Selective(ps, n, k)[i]) == k
  {
    hide Selectivity;
    if n > 0 { SelectiveOnly(ps, n - 1, k); }
  }

  /** How many places of a pattern are variables. */
  ghost function FreePlaces(p: Pattern): nat {
    (if p.entity.Var? || p.entity.Any? then 1 else 0) + if p.value.Var? || p.value.Any? then 1 else 0
  }

  lemma SelectivityIs(p: Pattern)
    ensures Selectivity(p) == 3 - FreePlaces(p)
  {}

  /** No pattern comes before one with fewer variables. */
  lemma {:induction false} PlannedSorted(ps: seq<Pattern>, i: nat, j: nat)
    requires i < j < |Planned(ps)|
    ensures FreePlaces(Planned(ps)[i]) <= FreePlaces(Planned(ps)[j])
  {
    hide Selective, Selectivity, FreePlaces;
    SelectiveOnly(ps, |ps|, 3);
    SelectiveOnly(ps, |ps|, 2);
    SelectiveOnly(ps, |ps|, 1);
    SelectivityIs(Planned(ps)[i]);
    SelectivityIs(Planned(ps)[j]);
  }

  /** Those of the first `n` patterns with `k` variables, in order. */
  ghost function WithFree(ps: seq<Pattern>, n: nat, k: nat): seq<Pattern>
    requires n <= |ps|
  {
    if n == 0 then [] else WithFree(ps, n - 1, k) + if FreePlaces(ps[n - 1]) == k then [ps[n - 1]] else []
  }

  lemma {:induction false} WithFreeIs(ps: seq<Pattern>, n: nat, k: nat)
    requires n <= |ps| && k <= 2
    ensures WithFree(ps, n, k) == Selective(ps, n, 3 - k)
  {
    hide Selectivity, FreePlaces;
    if n > 0 {
      WithFreeIs(ps, n - 1, k);
      SelectivityIs(ps[n - 1]);
    }
  }

  lemma {:induction false} WithFreeJoin(a: seq<Pattern>, b: seq<Pattern>, n: nat, k: nat)
    requires n <= |b|
    ensures WithFree(a + b, |a| + n, k) == WithFree(a, |a|, k) + WithFree(b, n, k)
  {
    hide FreePlaces;
    if n > 0 {
      WithFreeJoin(a, b, n - 1, k);
      assert (a + b)[|a| + n - 1] == b[n - 1];
    } else {
      WithFreePrefix(a, b, |a|, k);
    }
  }

  lemma {:induction false} WithFreePrefix(a: seq<Pattern>, b: seq<Pattern>, n: nat, k: nat)
    requires n <= |a|
    ensures WithFree(a + b, n, k) == WithFree(a, n, k)
  {
    hide FreePlaces;
    if n > 0 { WithFreePrefix(a, b, n - 1, k); }
  }

  /** Patterns that all have `j` variables. */
  lemma {:induction false} WithFreeAll(ps: seq<Pattern>, n: nat, j: nat, k: nat)
    requires n <= |ps| && forall i :: 0 <= i < |ps| ==> FreePlaces(ps[i]) == j
    ensures WithFree(ps, n, k) == if j == k then ps[..n] else []
  {
    hide FreePlaces;
    if n > 0 {
      WithFreeAll(ps, n - 1, j, k);
      assert ps[..n] == ps[..n - 1] + [ps[n - 1]];
    }
  }

  lemma {:induction false} WithFreePart(ps: seq<Pattern>, j: nat, k: nat)
    requires j <= 2
    ensures var part := Selective(ps, |ps|, 3 - j); WithFree(part, |part|, k) == if j == k then part else []
  {
    hide Selective, Selectivity, FreePlaces;
    var part := Selective(ps, |ps|, 3 - j);
    SelectiveOnly(ps, |ps|, 3 - j);
    forall i | 0 <= i < |part| ensures FreePlaces(part[i]) == j { SelectivityIs(part[i]); }
    WithFreeAll(part, |part|, j, k);
    assert part[..|part|] == part;
  }

  lemma WithFreeTwo(a: seq<Pattern>, b: seq<Pattern>, k: nat)
    ensures WithFree(a + b, |a + b|, k) == WithFree(a, |a|, k) + WithFree(b, |b|, k)
  {
    hide WithFree;
    WithFreeJoin(a, b, |b|, k);
  }

  lemma OneOfThree(a: seq<Pattern>, b: seq<Pattern>, c: seq<Pattern>, k: nat)
    requires k <= 2
    ensures (if k == 0 then a else []) + (if k == 1 then b else []) + (if k == 2 then c else []) == if k == 0 then a else if k == 1 then b else c
  {}

  /** Patterns with equally many variables stay in the order written. */
  lemma {:induction false} PlannedStable(ps: seq<Pattern>, k: nat)
    requires k <= 2
    ensures WithFree(Planned(ps), |Planned(ps)|, k) == WithFree(ps, |ps|, k)
  {
    hide Selective, WithFree;
    var a, b, c := Selective(ps, |ps|, 3), Selective(ps, |ps|, 2), Selective(ps, |ps|, 1);
    WithFreeIs(ps, |ps|, k);
    WithFreePart(ps, 0, k);
    WithFreePart(ps, 1, k);
    WithFreePart(ps, 2, k);
    WithFreeTwo(a + b, c, k);
    WithFreeTwo(a, b, k);
    OneOfThree(a, b, c, k);
  }

  /** The patterns of a body in the order they are joined: as written, or as planned for a rule with negations. */
  function BodyPatterns(r: Rule): seq<Pattern> {
    if r.nots == [] then Patterns(r.body) else Planned(Patterns(r.body))
  }

  // ----- meaning -----

  /** The entity a keyword names: its UUID spelled out, or a hash. */
  type Ids = Text -> EntityId

  /** Negative zero. */
  const NEGATIVE_ZERO: Value := Float(0x8000_0000_0000_0000)

  /** A keyword and the entity it names are one value to a join, and so are the two zeros. */
  function Normal(ids: Ids, v: Value): Value {
    if v.Keyword? then Ref(ids(v.k)) else if v == NEGATIVE_ZERO then Float(0) else v
  }

  /** NaN agrees with nothing. */
  predicate Agree(ids: Ids, v: Value, w: Value) { Normal(ids, v) == Normal(ids, w) && !V.NaN(v) }

  /** What a constant accepts: two keywords must be the same, whatever they name. */
  predicate Accepts(ids: Ids, c: Value, v: Value) {
    if c.Keyword? && v.Keyword? then c == v else Agree(ids, c, v)
  }

  /**
   * What a term accepts: a variable fixed from outside acts as a constant, one known from an earlier pattern agrees
   * with its value, and a new one has exactly the value found.
   */
  predicate TermFits(ids: Ids, term: Term, v: Value, fixed: Binding, known: set<Text>, b: Binding) {
    match term
    case Var(x) => if x in fixed then Accepts(ids, fixed[x], v) else x in b && if x in known then Agree(ids, b[x], v) else b[x] == v
    case Const(c) => Accepts(ids, c, v)
    case Any => true
    case Blank => true
    case Symbol => false
  }

  /** The same free variable in both places takes one value. */
  predicate Repeated(p: Pattern, fixed: Binding) { p.entity.Var? && p.value == p.entity && p.entity.name !in fixed }

  /** The fact is this pattern under this binding. */
  predicate Fits(ids: Ids, p: Pattern, t: Triple, fixed: Binding, known: set<Text>, b: Binding) {
    && t.attribute == p.attribute && (Repeated(p, fixed) ==> t.value == Ref(t.entity))
    && TermFits(ids, p.entity, Ref(t.entity), fixed, known, b) && TermFits(ids, p.value, t.value, fixed, known, b)
  }

  function TermVars(term: Term): set<Text> {
    if term.Var? then {term.name} else {}
  }

  function PatternVars(p: Pattern): set<Text> { TermVars(p.entity) + TermVars(p.value) }

  function VarsUpto(ps: seq<Pattern>, n: nat): set<Text>
    requires n <= |ps|
  {
    if n == 0 then {} else VarsUpto(ps, n - 1) + PatternVars(ps[n - 1])
  }

  ghost predicate Supports(ids: Ids, p: Pattern, facts: set<Triple>, fixed: Binding, known: set<Text>, b: Binding) {
    exists t :: t in facts && Fits(ids, p, t, fixed, known, b)
  }

  /** Pattern `i` is satisfied, the variables of those before it being known. */
  ghost predicate Holds(ids: Ids, ps: seq<Pattern>, i: nat, facts: set<Triple>, fixed: Binding, b: Binding)
    requires i < |ps|
  {
    Supports(ids, ps[i], facts, fixed, VarsUpto(ps, i), b)
  }

  /** The binding covers exactly the free variables of the first `n` patterns and satisfies those patterns in order. */
  ghost predicate SatUpto(ids: Ids, ps: seq<Pattern>, n: nat, facts: set<Triple>, fixed: Binding, b: Binding)
    requires n <= |ps|
  {
    b.Keys == VarsUpto(ps, n) - fixed.Keys && forall i :: 0 <= i < n ==> Holds(ids, ps, i, facts, fixed, b)
  }

  ghost predicate Sat(ids: Ids, ps: seq<Pattern>, facts: set<Triple>, b: Binding) { SatUpto(ids, ps, |ps|, facts, map[], b) }

  /** What a negation takes from the binding it filters. */
  function Shared(n: Negation, b: Binding): Binding {
    match n
    case Not(_) => b
    case NotJoin(vars, _) => map x | x in b && x in vars :: b[x]
  }

  /** A null bound to a shared variable becomes a symbol that matches nothing. */
  ghost predicate NullShared(n: Negation, b: Binding) {
    var ps := Patterns(n.body);
    exists x :: x in Shared(n, b) && x in VarsUpto(ps, |ps|) && b[x] == Null
  }

  /** The negated body can be satisfied with the shared variables at their values. */
  ghost predicate Satisfiable(ids: Ids, n: Negation, facts: set<Triple>, b: Binding) {
    exists c :: SatUpto(ids, Patterns(n.body), |n.body|, facts, Shared(n, b), c)
  }

  ghost predicate Blocked(ids: Ids, n: Negation, facts: set<Triple>, b: Binding) {
    Satisfiable(ids, n, facts, b) && !NullShared(n, b)
  }

  /** The body holds under `b`: its literals in `facts`, none of its negations in `negated`. A body with no
      clause at all derives nothing. */
  ghost predicate BodyHolds(ids: Ids, r: Rule, facts: set<Triple>, negated: set<Triple>, b: Binding) {
    && (r.body != [] || r.nots != []) && Sat(ids, BodyPatterns(r), facts, b)
    && forall i :: 0 <= i < |r.nots| ==> !Blocked(ids, r.nots[i], negated, b)
  }

  /** A keyword in entity position stands for the entity named by its hash. */
  function AsEntity(ids: Ids, v: Value): Option<EntityId> {
    match v
    case Ref(id) => Some(id)
    case Keyword(k) => Some(ids(k))
    case _ => None
  }

  function HeadTerm(term: Term, b: Binding): Option<Value> {
    match term
    case Var(x) => if x in b && b[x] != Null then Some(b[x]) else None
    case Const(v) => Some(v)
    case Any => None
    case Blank => None
    case Symbol => None
  }

  /** The fact a binding derives; None where the head cannot be instantiated. One-argument heads store `true`. */
  function HeadOf(ids: Ids, r: Rule, b: Binding): Option<Triple> {
    match HeadTerm(r.entity, b)
    case None => None
    case Some(e) =>
      match AsEntity(ids, e)
      case None => None
      case Some(id) =>
        match r.value
        case None => Some(Triple(id, AttributeOf(r.pred), Boolean(true)))
        case Some(term) =>
          match HeadTerm(term, b)
          case None => None
          case Some(v) => Some(Triple(id, AttributeOf(r.pred), v))
  }

  ghost predicate Derives(ids: Ids, r: Rule, facts: set<Triple>, negated: set<Triple>, t: Triple) {
    exists b :: BodyHolds(ids, r, facts, negated, b) && HeadOf(ids, r, b) == Some(t)
  }

  // ----- what the meaning depends on -----

  lemma {:induction false} SupportsMore(ids: Ids, p: Pattern, facts: set<Triple>, more: set<Triple>, fixed: Binding, known: set<Text>, b: Binding)
    requires facts <= more && Supports(ids, p, facts, fixed, known, b)
    ensures Supports(ids, p, more, fixed, known, b)
  {
    var t :| t in facts && Fits(ids, p, t, fixed, known, b);
    assert t in more;
  }

  /** More facts never take a derivation away, as long as the negated facts stay. */
  lemma {:induction false} DerivesMore(ids: Ids, r: Rule, facts: set<Triple>, more: set<Triple>, negated: set<Triple>, t: Triple)
    requires facts <= more && Derives(ids, r, facts, negated, t)
    ensures Derives(ids, r, more, negated, t)
  {
    hide Supports, Blocked, VarsUpto;
    var b :| BodyHolds(ids, r, facts, negated, b) && HeadOf(ids, r, b) == Some(t);
    var ps := BodyPatterns(r);
    forall i | 0 <= i < |ps| ensures Holds(ids, ps, i, more, map[], b) {
      assert Holds(ids, ps, i, facts, map[], b);
      SupportsMore(ids, ps[i], facts, more, map[], VarsUpto(ps, i), b);
    }
    assert BodyHolds(ids, r, more, negated, b);
  }

  ghost predicate AgreeOn(facts: set<Triple>, more: set<Triple>, attributes: set<Text>) {
    forall t: Triple :: t.attribute in attributes ==> (t in facts <==> t in more)
  }

  function Reads(ls: seq<Literal>): set<Text> { set i | 0 <= i < |ls| :: ToPattern(ls[i]).attribute }

  ghost predicate OverAttributes(ps: seq<Pattern>, attributes: set<Text>) { forall i :: 0 <= i < |ps| ==> ps[i].attribute in attributes }

  /** Satisfaction only looks at the attributes read. */
  lemma {:induction false} SatReads(ids: Ids, ps: seq<Pattern>, attributes: set<Text>, facts: set<Triple>, more: set<Triple>, fixed: Binding, b: Binding)
    requires OverAttributes(ps, attributes) && AgreeOn(facts, more, attributes) && SatUpto(ids, ps, |ps|, facts, fixed, b)
    ensures SatUpto(ids, ps, |ps|, more, fixed, b)
  {
    hide TermFits;
    forall i | 0 <= i < |ps| ensures Holds(ids, ps, i, more, fixed, b) {
      assert Holds(ids, ps, i, facts, fixed, b);
      var t :| t in facts && Fits(ids, ps[i], t, fixed, VarsUpto(ps, i), b);
      assert t in more;
    }
  }

  /** A body's patterns are over what it reads, in any order. */
  lemma {:induction false} BodyOver(r: Rule)
    ensures OverAttributes(BodyPatterns(r), Reads(r.body)) && OverAttributes(Patterns(r.body), Reads(r.body))
  {
    var ps, qs := Patterns(r.body), BodyPatterns(r);
    forall i | 0 <= i < |ps| ensures ps[i].attribute in Reads(r.body) { assert ps[i].attribute == ToPattern(r.body[i]).attribute; }
    PlannedPermutes(ps);
    hide Planned, Reads;
    forall i | 0 <= i < |qs| ensures qs[i].attribute in Reads(r.body) {
      assert qs[i] in multiset(qs);
      assert qs[i] in ps;
    }
  }

  lemma {:induction false} BlockedReads(ids: Ids, n: Negation, facts: set<Triple>, more: set<Triple>, b: Binding)
    requires AgreeOn(facts, more, Reads(n.body))
    ensures Blocked(ids, n, facts, b) == Blocked(ids, n, more, b)
  {
    forall i | 0 <= i < |n.body| ensures Patterns(n.body)[i].attribute in Reads(n.body) { assert ToPattern(n.body[i]).attribute in Reads(n.body); }
    hide SatUpto, NullShared;
    if Satisfiable(ids, n, facts, b) {
      var c :| SatUpto(ids, Patterns(n.body), |n.body|, facts, Shared(n, b), c);
      SatReads(ids, Patterns(n.body), Reads(n.body), facts, more, Shared(n, b), c);
    }
    if Satisfiable(ids, n, more, b) {
      var c :| SatUpto(ids, Patterns(n.body), |n.body|, more, Shared(n, b), c);
      SatReads(ids, Patterns(n.body), Reads(n.body), more, facts, Shared(n, b), c);
    }
  }

  /** A rule's derivations only look at the attributes its body and its negations read. */
  lemma {:induction false} BodyReads(ids: Ids, r: Rule, facts: set<Triple>, facts': set<Triple>, negated: set<Triple>, negated': set<Triple>, b: Binding)
    requires AgreeOn(facts, facts', Reads(r.body))
    requires forall i :: 0 <= i < |r.nots| ==> AgreeOn(negated, negated', Reads(r.nots[i].body))
    ensures BodyHolds(ids, r, facts, negated, b) <==> BodyHolds(ids, r, facts', negated', b)
  {
    hide Blocked, SatUpto, BodyPatterns;
    BodyOver(r);
    if Sat(ids, BodyPatterns(r), facts, b) { SatReads(ids, BodyPatterns(r), Reads(r.body), facts, facts', map[], b); }
    if Sat(ids, BodyPatterns(r), facts', b) { SatReads(ids, BodyPatterns(r), Reads(r.body), facts', facts, map[], b); }
    forall i | 0 <= i < |r.nots| ensures Blocked(ids, r.nots[i], negated, b) == Blocked(ids, r.nots[i], negated', b) {
      BlockedReads(ids, r.nots[i], negated, negated', b);
    }
  }

  // ----- where values come from -----

  lemma {:induction false} FirstUse(ps: seq<Pattern>, n: nat, x: Text) returns (i: nat)
    requires n <= |ps| && x in VarsUpto(ps, n)
    ensures i < n && x in PatternVars(ps[i]) && x !in VarsUpto(ps, i)
  {
    if x in VarsUpto(ps, n - 1) { i := FirstUse(ps, n - 1, x); } else { i := n - 1; }
  }

  /** The values of a satisfying binding come from the facts. */
  lemma {:induction false} BoundInFacts(ids: Ids, ps: seq<Pattern>, facts: set<Triple>, b: Binding, x: Text) returns (t: Triple)
    requires Sat(ids, ps, facts, b) && x in b
    ensures t in facts && (b[x] == Ref(t.entity) || b[x] == t.value)
  {
    var i := FirstUse(ps, |ps|, x);
    assert Holds(ids, ps, i, facts, map[], b);
    t :| t in facts && Fits(ids, ps[i], t, map[], VarsUpto(ps, i), b);
  }
}
