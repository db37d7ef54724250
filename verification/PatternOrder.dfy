/** The order of the patterns of a body: what it cannot change, and exactly when it changes nothing. */
module PatternOrder {
  import opened Facts
  import opened Datalog
  import opened Matcher
  import V = ValueEncoding

  // ----- what every order keeps -----

  predicate ConstantFits(ids: Ids, term: Term, v: Value) {
    match term
    case Var(_) => true
    case Const(c) => Accepts(ids, c, v)
    case Any => true
    case Blank => true
    case Symbol => false
  }

  /** The part of a fit no order changes: constants, and variables up to the form of their values. */
  ghost predicate Near(ids: Ids, p: Pattern, t: Triple, b: Binding) {
    && t.attribute == p.attribute && (Repeated(p, map[]) ==> t.value == Ref(t.entity))
    && ConstantFits(ids, p.entity, Ref(t.entity)) && ConstantFits(ids, p.value, t.value)
    && forall x :: x in PatternVars(p) ==> x in b && Normal(ids, Taken(p, t)[x]) == Normal(ids, b[x])
  }

  lemma {:induction false} FitsNear(ids: Ids, p: Pattern, t: Triple, known: set<Text>, b: Binding)
    requires Fits(ids, p, t, map[], known, b)
    ensures Near(ids, p, t, b)
  {
    hide Accepts;
  }

  lemma {:induction false} NearFits(ids: Ids, p: Pattern, t: Triple, known: set<Text>, b: Binding, c: Binding)
    requires Near(ids, p, t, b)
    requires forall x :: x in PatternVars(p) ==> x in c && Normal(ids, c[x]) == Normal(ids, b[x])
    requires forall x :: x in PatternVars(p) && x in known ==> !V.NaN(c[x])
    requires forall x :: x in PatternVars(p) && x !in known ==> c[x] == Taken(p, t)[x]
    ensures Fits(ids, p, t, map[], known, c)
  {
    hide Accepts, Normal;
    TermNear(ids, p.entity, Ref(t.entity), p, t, known, c);
    TermNear(ids, p.value, t.value, p, t, known, c);
  }

  lemma {:induction false} TermNear(ids: Ids, term: Term, v: Value, p: Pattern, t: Triple, known: set<Text>, c: Binding)
    requires ConstantFits(ids, term, v) && TermVars(term) <= PatternVars(p)
    requires forall x :: x in TermVars(term) ==> Taken(p, t)[x] == v && x in c && Normal(ids, c[x]) == Normal(ids, v)
    requires forall x :: x in TermVars(term) && x in known ==> !V.NaN(c[x])
    requires forall x :: x in TermVars(term) && x !in known ==> c[x] == v
    ensures TermFits(ids, term, v, map[], known, c)
  {
    hide Accepts, Normal, Taken;
    if term.Var? { assert term.name in TermVars(term); }
  }

  // ----- one fact for each pattern -----

  /** A fact for each of the patterns, near the binding. */
  ghost predicate Witnesses(ids: Ids, ps: seq<Pattern>, n: nat, facts: set<Triple>, b: Binding, w: map<Pattern, Triple>)
    requires n <= |ps|
  {
    forall i :: 0 <= i < n ==> ps[i] in w && w[ps[i]] in facts && Near(ids, ps[i], w[ps[i]], b)
  }

  lemma {:induction false} Witnessed(ids: Ids, ps: seq<Pattern>, n: nat, facts: set<Triple>, b: Binding) returns (w: map<Pattern, Triple>)
    requires n <= |ps| && Sat(ids, ps, facts, b)
    ensures Witnesses(ids, ps, n, facts, b, w)
  {
    hide Fits, Near;
    if n == 0 {
      w := map[];
    } else {
      w := Witnessed(ids, ps, n - 1, facts, b);
      assert Holds(ids, ps, n - 1, facts, map[], b);
      var t :| t in facts && Fits(ids, ps[n - 1], t, map[], VarsUpto(ps, n - 1), b);
      FitsNear(ids, ps[n - 1], t, VarsUpto(ps, n - 1), b);
      w := w[ps[n - 1] := t];
    }
  }

  /** A variable met again is bound to a value that agrees with itself. */
  lemma {:induction false} MetTwice(ids: Ids, ps: seq<Pattern>, facts: set<Triple>, b: Binding, i: nat, j: nat, x: Text)
    requires Sat(ids, ps, facts, b) && i < j < |ps| && x in PatternVars(ps[i]) && x in PatternVars(ps[j])
    ensures x in b && !V.NaN(b[x])
  {
    VarsInclude(ps, j, i);
    assert Holds(ids, ps, j, facts, map[], b);
    var t :| t in facts && Fits(ids, ps[j], t, map[], VarsUpto(ps, j), b);
  }

  // ----- reorderings -----

  ghost predicate Reordered(ps: seq<Pattern>, qs: seq<Pattern>) { multiset(ps) == multiset(qs) }

  lemma {:induction false} FoundAt(ps: seq<Pattern>, p: Pattern) returns (i: nat)
    requires multiset(ps)[p] > 0
    ensures i < |ps| && ps[i] == p
  {
    assert p in multiset(ps);
    i :| 0 <= i < |ps| && ps[i] == p;
  }

  lemma {:induction false} FoundTwice(ps: seq<Pattern>, p: Pattern) returns (i: nat, j: nat)
    requires multiset(ps)[p] > 1
    ensures i < j < |ps| && ps[i] == ps[j] == p
  {
    var front := ps[..|ps| - 1];
    assert ps == front + [ps[|ps| - 1]];
    if ps[|ps| - 1] == p {
      i := FoundAt(front, p);
      j := |ps| - 1;
    } else {
      i, j := FoundTwice(front, p);
    }
  }

  lemma {:induction false} CountTwo(qs: seq<Pattern>, i: nat, j: nat)
    requires i < j < |qs| && qs[i] == qs[j]
    ensures multiset(qs)[qs[i]] > 1
  {
    assert qs == qs[..j] + [qs[j]] + qs[j + 1..];
    assert qs[..j][i] == qs[i];
    assert qs[i] in multiset(qs[..j]);
  }

  /** Two places of one order are two places of the other. */
  lemma {:induction false} TwoPlaces(ps: seq<Pattern>, qs: seq<Pattern>, i: nat, j: nat) returns (k: nat, l: nat)
    requires Reordered(ps, qs) && i < j < |qs|
    ensures k < l < |ps| && ((ps[k] == qs[i] && ps[l] == qs[j]) || (ps[k] == qs[j] && ps[l] == qs[i]))
  {
    if qs[i] == qs[j] {
      CountTwo(qs, i, j);
      k, l := FoundTwice(ps, qs[i]);
    } else {
      assert qs[i] in multiset(qs) && qs[j] in multiset(qs);
      k := FoundAt(ps, qs[i]);
      l := FoundAt(ps, qs[j]);
      if l < k { k, l := l, k; }
    }
  }

  lemma {:induction false} SameVars(ps: seq<Pattern>, qs: seq<Pattern>)
    requires Reordered(ps, qs)
    ensures VarsUpto(qs, |qs|) == VarsUpto(ps, |ps|)
  {
    forall x ensures x in VarsUpto(qs, |qs|) <==> x in VarsUpto(ps, |ps|) {
      if x in VarsUpto(qs, |qs|) { VarsOfOther(qs, ps, x); }
      if x in VarsUpto(ps, |ps|) { VarsOfOther(ps, qs, x); }
    }
  }

  lemma {:induction false} VarsOfOther(ps: seq<Pattern>, qs: seq<Pattern>, x: Text)
    requires Reordered(ps, qs) && x in VarsUpto(ps, |ps|)
    ensures x in VarsUpto(qs, |qs|)
  {
    hide PatternVars;
    var i := FirstUse(ps, |ps|, x);
    assert ps[i] in multiset(ps);
    var j := FoundAt(qs, ps[i]);
    VarsInclude(qs, |qs|, j);
  }

  // ----- the binding of the new order -----

  /** Where a variable is met first. */
  ghost function First(ps: seq<Pattern>, n: nat, x: Text): (i: nat)
    requires n <= |ps| && x in VarsUpto(ps, n)
    ensures i < n && x in PatternVars(ps[i]) && x !in VarsUpto(ps, i)
  {
    if x in VarsUpto(ps, n - 1) then First(ps, n - 1, x) else n - 1
  }

  lemma {:induction false} FirstOnly(ps: seq<Pattern>, x: Text, j: nat)
    requires j < |ps| && x in PatternVars(ps[j]) && x !in VarsUpto(ps, j) && x in VarsUpto(ps, |ps|)
    ensures First(ps, |ps|, x) == j
  {
    hide PatternVars;
    var i := First(ps, |ps|, x);
    if i < j { VarsInclude(ps, j, i); }
    if j < i { VarsInclude(ps, i, j); }
  }

  /** Each variable has the value of its first use, in the fact chosen for that pattern. */
  ghost function Bound(qs: seq<Pattern>, w: map<Pattern, Triple>): Binding
    requires forall i :: 0 <= i < |qs| ==> qs[i] in w
  {
    map x | x in VarsUpto(qs, |qs|) :: var p := qs[First(qs, |qs|, x)]; Taken(p, w[p])[x]
  }

  lemma {:induction false} BoundNear(ids: Ids, qs: seq<Pattern>, facts: set<Triple>, b: Binding, w: map<Pattern, Triple>, x: Text)
    requires Witnesses(ids, qs, |qs|, facts, b, w) && x in VarsUpto(qs, |qs|)
    ensures x in b && Normal(ids, Bound(qs, w)[x]) == Normal(ids, b[x])
  {
    hide Normal, PatternVars, Taken;
    var p := qs[First(qs, |qs|, x)];
    assert Near(ids, p, w[p], b);
  }

  lemma {:induction false} NormalNaN(ids: Ids, v: Value, u: Value)
    requires Normal(ids, v) == Normal(ids, u)
    ensures V.NaN(v) == V.NaN(u) && (V.NaN(v) ==> v == u)
  {}

  /** A pattern of the new order holds there. */
  lemma {:induction false} BoundFits(ids: Ids, ps: seq<Pattern>, qs: seq<Pattern>, facts: set<Triple>, b: Binding, w: map<Pattern, Triple>, j: nat)
    requires Sat(ids, ps, facts, b) && Reordered(ps, qs) && Witnesses(ids, qs, |qs|, facts, b, w) && j < |qs|
    ensures Fits(ids, qs[j], w[qs[j]], map[], VarsUpto(qs, j), Bound(qs, w))
  {
    var c := Bound(qs, w);
    VarsInclude(qs, |qs|, j);
    hide Normal, Taken, PatternVars, Sat;
    forall x | x in PatternVars(qs[j])
      ensures x in c && Normal(ids, c[x]) == Normal(ids, b[x])
      ensures x in VarsUpto(qs, j) ==> !V.NaN(c[x])
      ensures x !in VarsUpto(qs, j) ==> c[x] == Taken(qs[j], w[qs[j]])[x]
    {
      BoundNear(ids, qs, facts, b, w, x);
      if x in VarsUpto(qs, j) {
        var i := FirstUse(qs, j, x);
        var k, l := TwoPlaces(ps, qs, i, j);
        MetTwice(ids, ps, facts, b, k, l, x);
        NormalNaN(ids, c[x], b[x]);
      } else {
        FirstOnly(qs, x, j);
      }
    }
    NearFits(ids, qs[j], w[qs[j]], VarsUpto(qs, j), b, c);
  }

  lemma {:induction false} WitnessesMoved(ids: Ids, ps: seq<Pattern>, qs: seq<Pattern>, facts: set<Triple>, b: Binding, w: map<Pattern, Triple>)
    requires Witnesses(ids, ps, |ps|, facts, b, w) && Reordered(ps, qs)
    ensures Witnesses(ids, qs, |qs|, facts, b, w)
  {
    hide Near;
    forall j | 0 <= j < |qs| ensures qs[j] in w && w[qs[j]] in facts && Near(ids, qs[j], w[qs[j]], b) {
      assert qs[j] in multiset(qs);
      var i := FoundAt(ps, qs[j]);
    }
  }

  /** The same variables, bound to the same values up to their form. */
  ghost predicate Alike(ids: Ids, b: Binding, c: Binding) {
    c.Keys == b.Keys && forall x :: x in b ==> Normal(ids, c[x]) == Normal(ids, b[x])
  }

  /** Every binding of one order has its like in every other: only the form of a value can depend on the order. */
  lemma {:induction false} OrderKeeps(ids: Ids, ps: seq<Pattern>, qs: seq<Pattern>, facts: set<Triple>, b: Binding) returns (c: Binding)
    requires Sat(ids, ps, facts, b) && Reordered(ps, qs)
    ensures Sat(ids, qs, facts, c) && Alike(ids, b, c)
  {
    hide Near, Sat, Alike, Bound;
    var w := Witnessed(ids, ps, |ps|, facts, b);
    WitnessesMoved(ids, ps, qs, facts, b, w);
    BoundSat(ids, ps, qs, facts, b, w);
    c := Bound(qs, w);
  }

  lemma {:induction false} BoundHolds(ids: Ids, ps: seq<Pattern>, qs: seq<Pattern>, facts: set<Triple>, b: Binding, w: map<Pattern, Triple>, j: nat)
    requires Sat(ids, ps, facts, b) && Reordered(ps, qs) && Witnesses(ids, qs, |qs|, facts, b, w) && j < |qs|
    ensures Holds(ids, qs, j, facts, map[], Bound(qs, w))
  {
    hide Near, Fits, Bound, Sat;
    BoundFits(ids, ps, qs, facts, b, w, j);
  }

  lemma {:induction false} BoundKeys(ids: Ids, ps: seq<Pattern>, qs: seq<Pattern>, facts: set<Triple>, b: Binding, w: map<Pattern, Triple>)
    requires Sat(ids, ps, facts, b) && Reordered(ps, qs) && forall i :: 0 <= i < |qs| ==> qs[i] in w
    ensures Bound(qs, w).Keys == VarsUpto(qs, |qs|) == b.Keys
  {
    hide VarsUpto, Holds, Taken, First;
    SameVars(ps, qs);
  }

  lemma {:induction false} BoundAlike(ids: Ids, ps: seq<Pattern>, qs: seq<Pattern>, facts: set<Triple>, b: Binding, w: map<Pattern, Triple>)
    requires Sat(ids, ps, facts, b) && Reordered(ps, qs) && Witnesses(ids, qs, |qs|, facts, b, w)
    ensures Alike(ids, b, Bound(qs, w))
  {
    hide Bound, Near, Normal, Sat, VarsUpto;
    BoundKeys(ids, ps, qs, facts, b, w);
    forall x | x in b ensures Normal(ids, Bound(qs, w)[x]) == Normal(ids, b[x]) { BoundNear(ids, qs, facts, b, w, x); }
  }

  lemma {:induction false} BoundSat(ids: Ids, ps: seq<Pattern>, qs: seq<Pattern>, facts: set<Triple>, b: Binding, w: map<Pattern, Triple>)
    requires Sat(ids, ps, facts, b) && Reordered(ps, qs) && Witnesses(ids, qs, |qs|, facts, b, w)
    ensures Sat(ids, qs, facts, Bound(qs, w)) && Alike(ids, b, Bound(qs, w))
  {
    hide Bound, Near, Holds, VarsUpto, Alike;
    BoundKeys(ids, ps, qs, facts, b, w);
    BoundAlike(ids, ps, qs, facts, b, w);
    forall j | 0 <= j < |qs| ensures Holds(ids, qs, j, facts, map[], Bound(qs, w)) { BoundHolds(ids, ps, qs, facts, b, w, j); }
  }

  /** Whether patterns match at all does not depend on their order. */
  lemma {:induction false} OrderKeepsMatching(ids: Ids, ps: seq<Pattern>, qs: seq<Pattern>, facts: set<Triple>)
    requires Reordered(ps, qs)
    ensures (exists b :: Sat(ids, ps, facts, b)) <==> (exists b :: Sat(ids, qs, facts, b))
  {
    hide Sat, Alike;
    if b :| Sat(ids, ps, facts, b) { var c := OrderKeeps(ids, ps, qs, facts, b); }
    if b :| Sat(ids, qs, facts, b) { var c := OrderKeeps(ids, qs, ps, facts, b); }
  }

  // ----- exactly when nothing changes -----

  /** Facts about these entities with these values. */
  ghost predicate Over(facts: set<Triple>, es: iset<EntityId>, vs: iset<Value>) {
    forall t :: t in facts ==> t.entity in es && t.value in vs
  }

  /** What a variable can be bound to. */
  ghost predicate Bindable(es: iset<EntityId>, vs: iset<Value>, v: Value) { v in vs || (v.Ref? && v.id in es) }

  /** No value has two forms: no keyword with the entity it names or with another name for it, not both zeros. */
  ghost predicate OneForm(ids: Ids, es: iset<EntityId>, vs: iset<Value>) {
    forall v, u :: Bindable(es, vs, v) && Bindable(es, vs, u) && Agree(ids, v, u) ==> v == u
  }

  /** On no facts over these entities and values does the order of patterns show. */
  ghost predicate OrderFree(ids: Ids, es: iset<EntityId>, vs: iset<Value>) {
    forall facts, ps, qs, b :: Over(facts, es, vs) && Reordered(ps, qs) && Sat(ids, ps, facts, b) ==> Sat(ids, qs, facts, b)
  }

  lemma {:induction false} BoundOver(ids: Ids, es: iset<EntityId>, vs: iset<Value>, ps: seq<Pattern>, facts: set<Triple>, b: Binding, x: Text)
    requires Over(facts, es, vs) && Sat(ids, ps, facts, b) && x in b
    ensures Bindable(es, vs, b[x])
  {
    hide Sat;
    var t := BoundInFacts(ids, ps, facts, b, x);
  }

  lemma {:induction false} OneFormOrderFree(ids: Ids, es: iset<EntityId>, vs: iset<Value>, facts: set<Triple>, ps: seq<Pattern>, qs: seq<Pattern>, b: Binding)
    requires OneForm(ids, es, vs) && Over(facts, es, vs) && Reordered(ps, qs) && Sat(ids, ps, facts, b)
    ensures Sat(ids, qs, facts, b)
  {
    hide Sat, Normal, Bindable, Over;
    var c := OrderKeeps(ids, ps, qs, facts, b);
    forall x | x in b ensures c[x] == b[x] {
      BoundOver(ids, es, vs, ps, facts, b, x);
      BoundOver(ids, es, vs, qs, facts, c, x);
      NormalNaN(ids, c[x], b[x]);
      assert !V.NaN(c[x]) ==> Agree(ids, c[x], b[x]);
    }
    assert c == b;
  }

  const VARIABLE: Text := [120]
  const FIRST: Text := [97]
  const SECOND: Text := [98]

  /** Two facts about one entity and a variable for the values of both. */
  lemma {:induction false} TwoForms(ids: Ids, e: EntityId, v: Value, u: Value)
    requires v != u && Agree(ids, v, u)
    ensures var p, q := Pattern(Any, FIRST, Var(VARIABLE)), Pattern(Any, SECOND, Var(VARIABLE));
      var facts, b: Binding := {Triple(e, FIRST, v), Triple(e, SECOND, u)}, map[VARIABLE := v];
      Sat(ids, [p, q], facts, b) && !Sat(ids, [q, p], facts, b)
  {
    var x, p, q := VARIABLE, Pattern(Any, FIRST, Var(VARIABLE)), Pattern(Any, SECOND, Var(VARIABLE));
    var t, s := Triple(e, FIRST, v), Triple(e, SECOND, u);
    var facts, b: Binding := {t, s}, map[x := v];
    hide Agree;
    assert VarsUpto([p, q], 1) == VarsUpto([p, q], 0) + {x} == {x};
    assert VarsUpto([p, q], 2) == VarsUpto([p, q], 1) + {x} == {x};
    assert Fits(ids, p, t, map[], {}, b) && Fits(ids, q, s, map[], {x}, b);
    assert Holds(ids, [p, q], 0, facts, map[], b) && Holds(ids, [p, q], 1, facts, map[], b);
    assert Sat(ids, [p, q], facts, b);
    assert !Holds(ids, [q, p], 0, facts, map[], b);
  }

  /** A keyword held by one fact and the entity it names, described by another. */
  lemma {:induction false} OrderShows(ids: Ids, e: EntityId, k: Text)
    ensures var p, q := Pattern(Any, FIRST, Var(VARIABLE)), Pattern(Var(VARIABLE), SECOND, Any);
      var facts, b: Binding := {Triple(e, FIRST, Keyword(k)), Triple(ids(k), SECOND, Keyword(k))}, map[VARIABLE := Keyword(k)];
      Sat(ids, [p, q], facts, b) && !Sat(ids, [q, p], facts, b)
  {
    var x, p, q := VARIABLE, Pattern(Any, FIRST, Var(VARIABLE)), Pattern(Var(VARIABLE), SECOND, Any);
    var t, s := Triple(e, FIRST, Keyword(k)), Triple(ids(k), SECOND, Keyword(k));
    var facts, b: Binding := {t, s}, map[x := Keyword(k)];
    assert VarsUpto([p, q], 1) == VarsUpto([p, q], 0) + {x} == {x};
    assert VarsUpto([p, q], 2) == VarsUpto([p, q], 1) + {x} == {x};
    assert Fits(ids, p, t, map[], {}, b) && Fits(ids, q, s, map[], {x}, b);
    assert Holds(ids, [p, q], 0, facts, map[], b) && Holds(ids, [p, q], 1, facts, map[], b);
    assert Sat(ids, [p, q], facts, b);
    assert !Holds(ids, [q, p], 0, facts, map[], b);
  }

  lemma {:induction false} SwapReorders(p: Pattern, q: Pattern)
    ensures Reordered([p, q], [q, p])
  {
    assert [p, q] == [p] + [q] && [q, p] == [q] + [p];
  }

  /** Values with two forms make the order show. */
  lemma {:induction false} AgreeingShow(ids: Ids, es: iset<EntityId>, vs: iset<Value>, e: EntityId, v: Value, u: Value)
    requires e in es && Bindable(es, vs, v) && Bindable(es, vs, u) && v != u && Agree(ids, v, u)
    ensures !OrderFree(ids, es, vs)
  {
    hide Sat, OrderFree;
    if v in vs && u in vs {
      TwoForms(ids, e, v, u);
      OrderShown(ids, es, vs, Pattern(Any, FIRST, Var(VARIABLE)), Pattern(Any, SECOND, Var(VARIABLE)),
                 {Triple(e, FIRST, v), Triple(e, SECOND, u)}, map[VARIABLE := v]);
    } else {
      var k := if v.Keyword? then v.k else u.k;
      OrderShows(ids, e, k);
      OrderShown(ids, es, vs, Pattern(Any, FIRST, Var(VARIABLE)), Pattern(Var(VARIABLE), SECOND, Any),
                 {Triple(e, FIRST, Keyword(k)), Triple(ids(k), SECOND, Keyword(k))}, map[VARIABLE := Keyword(k)]);
    }
  }

  lemma {:induction false} OrderShown(ids: Ids, es: iset<EntityId>, vs: iset<Value>, p: Pattern, q: Pattern, facts: set<Triple>, b: Binding)
    requires Over(facts, es, vs) && Sat(ids, [p, q], facts, b) && !Sat(ids, [q, p], facts, b)
    ensures !OrderFree(ids, es, vs)
  {
    hide Sat, Over;
    SwapReorders(p, q);
  }

  /** The order of patterns never shows on facts over given entities and values if and only if no value of theirs has two forms. */
  lemma {:induction false} OrderFreeIff(ids: Ids, es: iset<EntityId>, vs: iset<Value>)
    ensures OrderFree(ids, es, vs) <==> (es == iset{} || OneForm(ids, es, vs))
  {
    hide Sat, Agree;
    if es != iset{} && !OneForm(ids, es, vs) {
      var e :| e in es;
      var v, u :| Bindable(es, vs, v) && Bindable(es, vs, u) && Agree(ids, v, u) && v != u;
      AgreeingShow(ids, es, vs, e, v, u);
    }
    if es == iset{} || OneForm(ids, es, vs) {
      forall facts, ps, qs, b | Over(facts, es, vs) && Reordered(ps, qs) && Sat(ids, ps, facts, b) ensures Sat(ids, qs, facts, b) {
        if es == iset{} {
          NoFactsOrderFree(ids, ps, qs, facts, b);
        } else {
          OneFormOrderFree(ids, es, vs, facts, ps, qs, b);
        }
      }
    }
  }

  lemma {:induction false} NothingMatches(ids: Ids, ps: seq<Pattern>, b: Binding)
    requires ps != []
    ensures !Sat(ids, ps, {}, b)
  {
    assert !Holds(ids, ps, 0, {}, map[], b);
  }

  lemma {:induction false} NoFactsOrderFree(ids: Ids, ps: seq<Pattern>, qs: seq<Pattern>, facts: set<Triple>, b: Binding)
    requires facts == {} && Reordered(ps, qs) && Sat(ids, ps, facts, b)
    ensures Sat(ids, qs, facts, b)
  {
    if ps != [] { NothingMatches(ids, ps, b); }
    assert |qs| == |multiset(qs)| == |multiset(ps)| == |ps|;
    assert qs == ps;
  }

  // ----- the textbook meaning -----

  predicate TermIs(ids: Ids, term: Term, v: Value, b: Binding) {
    match term
    case Var(x) => x in b && b[x] == v
    case Const(c) => Accepts(ids, c, v)
    case Any => true
    case Blank => true
    case Symbol => false
  }

  /** Some fact is an instance of the pattern. */
  ghost predicate Instance(ids: Ids, p: Pattern, facts: set<Triple>, b: Binding) {
    exists t :: t in facts && t.attribute == p.attribute && TermIs(ids, p.entity, Ref(t.entity), b) && TermIs(ids, p.value, t.value, b)
  }

  ghost predicate PlainSat(ids: Ids, ps: seq<Pattern>, facts: set<Triple>, b: Binding) {
    b.Keys == VarsUpto(ps, |ps|) && forall i :: 0 <= i < |ps| ==> Instance(ids, ps[i], facts, b)
  }

  ghost predicate Textbook(ids: Ids, es: iset<EntityId>, vs: iset<Value>) {
    forall facts, ps, b :: Over(facts, es, vs) ==> (Sat(ids, ps, facts, b) <==> PlainSat(ids, ps, facts, b))
  }

  ghost predicate Numbers(vs: iset<Value>) { forall v :: v in vs ==> !V.NaN(v) }

  ghost predicate AllBindable(es: iset<EntityId>, vs: iset<Value>, b: Binding) { forall x :: x in b ==> Bindable(es, vs, b[x]) }

  lemma {:induction false} AgreeIs(ids: Ids, es: iset<EntityId>, vs: iset<Value>, v: Value, u: Value)
    requires OneForm(ids, es, vs) && Numbers(vs) && Bindable(es, vs, v) && Bindable(es, vs, u)
    ensures Agree(ids, v, u) <==> v == u
  {}

  lemma {:induction false} InstanceIff(ids: Ids, es: iset<EntityId>, vs: iset<Value>, p: Pattern, facts: set<Triple>, known: set<Text>, b: Binding)
    requires OneForm(ids, es, vs) && Numbers(vs) && Over(facts, es, vs) && AllBindable(es, vs, b)
    ensures Supports(ids, p, facts, map[], known, b) <==> Instance(ids, p, facts, b)
  {
    hide Accepts, Agree, OneForm, Numbers;
    forall t | t in facts
      ensures Fits(ids, p, t, map[], known, b) <==>
        t.attribute == p.attribute && TermIs(ids, p.entity, Ref(t.entity), b) && TermIs(ids, p.value, t.value, b)
    {
      if p.entity.Var? && p.entity.name in b { AgreeIs(ids, es, vs, b[p.entity.name], Ref(t.entity)); }
      if p.value.Var? && p.value.name in b { AgreeIs(ids, es, vs, b[p.value.name], t.value); }
    }
  }

  lemma {:induction false} PlainBound(ids: Ids, es: iset<EntityId>, vs: iset<Value>, ps: seq<Pattern>, facts: set<Triple>, b: Binding, x: Text)
    requires Over(facts, es, vs) && PlainSat(ids, ps, facts, b) && x in b
    ensures Bindable(es, vs, b[x])
  {
    var i := FirstUse(ps, |ps|, x);
    assert Instance(ids, ps[i], facts, b);
  }

  lemma {:induction false} PlainMeaning(ids: Ids, es: iset<EntityId>, vs: iset<Value>, ps: seq<Pattern>, facts: set<Triple>, b: Binding)
    requires OneForm(ids, es, vs) && Numbers(vs) && Over(facts, es, vs)
    ensures Sat(ids, ps, facts, b) <==> PlainSat(ids, ps, facts, b)
  {
    hide OneForm, Numbers, Over, Bindable;
    if Sat(ids, ps, facts, b) {
      forall x | x in b ensures Bindable(es, vs, b[x]) { BoundOver(ids, es, vs, ps, facts, b, x); }
    }
    if PlainSat(ids, ps, facts, b) {
      forall x | x in b ensures Bindable(es, vs, b[x]) { PlainBound(ids, es, vs, ps, facts, b, x); }
    }
    hide Supports, Instance;
    if AllBindable(es, vs, b) {
      forall i | 0 <= i < |ps| ensures Holds(ids, ps, i, facts, map[], b) == Instance(ids, ps[i], facts, b) {
        InstanceIff(ids, es, vs, ps[i], facts, VarsUpto(ps, i), b);
      }
    }
  }

  /** A NaN in two facts is one value to the textbook and none to a join. */
  lemma {:induction false} NaNParts(ids: Ids, es: iset<EntityId>, vs: iset<Value>, e: EntityId, v: Value)
    requires e in es && v in vs && V.NaN(v)
    ensures !Textbook(ids, es, vs)
  {
    var x, p, q := VARIABLE, Pattern(Any, FIRST, Var(VARIABLE)), Pattern(Any, SECOND, Var(VARIABLE));
    var t, s := Triple(e, FIRST, v), Triple(e, SECOND, v);
    var facts, b: Binding := {t, s}, map[x := v];
    assert VarsUpto([p, q], 1) == VarsUpto([p, q], 0) + {x} == {x};
    assert VarsUpto([p, q], 2) == VarsUpto([p, q], 1) + {x} == {x};
    assert t in facts && s in facts;
    assert Instance(ids, p, facts, b) && Instance(ids, q, facts, b);
    assert PlainSat(ids, [p, q], facts, b);
    hide V.NaN;
    assert !Holds(ids, [p, q], 1, facts, map[], b);
    assert !Sat(ids, [p, q], facts, b);
    assert Over(facts, es, vs);
  }

  lemma {:induction false} TextbookOrderFree(ids: Ids, es: iset<EntityId>, vs: iset<Value>)
    requires Textbook(ids, es, vs)
    ensures OrderFree(ids, es, vs)
  {
    hide Sat, Instance, Over;
    forall facts, ps, qs, b | Over(facts, es, vs) && Reordered(ps, qs) && Sat(ids, ps, facts, b) ensures Sat(ids, qs, facts, b) {
      SameVars(ps, qs);
      assert PlainSat(ids, ps, facts, b);
      forall j | 0 <= j < |qs| ensures Instance(ids, qs[j], facts, b) {
        assert qs[j] in multiset(qs);
        var i := FoundAt(ps, qs[j]);
      }
      assert PlainSat(ids, qs, facts, b);
    }
  }

  /** Matching has its textbook meaning on all facts over given entities and values if and only if no value of theirs has two forms
      and none is NaN. */
  lemma {:induction false} TextbookIff(ids: Ids, es: iset<EntityId>, vs: iset<Value>)
    ensures Textbook(ids, es, vs) <==> (es == iset{} || (OneForm(ids, es, vs) && Numbers(vs)))
  {
    hide Sat, PlainSat, OneForm, OrderFree;
    OrderFreeIff(ids, es, vs);
    if Textbook(ids, es, vs) {
      TextbookOrderFree(ids, es, vs);
      if es != iset{} && !Numbers(vs) {
        var e :| e in es;
        var v :| v in vs && V.NaN(v);
        NaNParts(ids, es, vs, e, v);
      }
    }
    if es == iset{} || (OneForm(ids, es, vs) && Numbers(vs)) {
      forall facts, ps, b | Over(facts, es, vs) ensures Sat(ids, ps, facts, b) <==> PlainSat(ids, ps, facts, b) {
        if es == iset{} {
          NoFactsPlain(ids, ps, facts, b);
        } else {
          PlainMeaning(ids, es, vs, ps, facts, b);
        }
      }
    }
  }

  lemma {:induction false} NoFactsPlain(ids: Ids, ps: seq<Pattern>, facts: set<Triple>, b: Binding)
    requires facts == {}
    ensures Sat(ids, ps, facts, b) <==> PlainSat(ids, ps, facts, b)
  {
    if ps != [] {
      assert !Holds(ids, ps, 0, facts, map[], b) && !Instance(ids, ps[0], facts, b);
    }
  }

  // ----- planning -----

  /** The body holds with its patterns joined as written. */
  ghost predicate WrittenHolds(ids: Ids, r: Rule, facts: set<Triple>, negated: set<Triple>, b: Binding) {
    && (r.body != [] || r.nots != []) && Sat(ids, Patterns(r.body), facts, b)
    && forall i :: 0 <= i < |r.nots| ==> !Blocked(ids, r.nots[i], negated, b)
  }

  lemma {:induction false} BodyReordered(r: Rule)
    ensures Reordered(Patterns(r.body), BodyPatterns(r)) && Reordered(BodyPatterns(r), Patterns(r.body))
  {
    PlannedPermutes(Patterns(r.body));
  }

  /** Planning never changes whether the patterns of a body match, nor their bindings up to the form of values. */
  lemma {:induction false} PlanKeeps(ids: Ids, r: Rule, facts: set<Triple>, b: Binding) returns (c: Binding)
    requires Sat(ids, Patterns(r.body), facts, b)
    ensures Sat(ids, BodyPatterns(r), facts, c) && Alike(ids, b, c)
  {
    hide Sat, BodyPatterns, Alike;
    BodyReordered(r);
    c := OrderKeeps(ids, Patterns(r.body), BodyPatterns(r), facts, b);
  }

  /** Where no value has two forms, planning changes nothing at all. */
  lemma {:induction false} PlanChangesNothing(ids: Ids, es: iset<EntityId>, vs: iset<Value>, r: Rule, facts: set<Triple>, negated: set<Triple>, b: Binding)
    requires OneForm(ids, es, vs) && Over(facts, es, vs)
    ensures BodyHolds(ids, r, facts, negated, b) <==> WrittenHolds(ids, r, facts, negated, b)
  {
    hide Sat, BodyPatterns, Blocked, OneForm, Over;
    BodyReordered(r);
    if Sat(ids, Patterns(r.body), facts, b) { OneFormOrderFree(ids, es, vs, facts, Patterns(r.body), BodyPatterns(r), b); }
    if Sat(ids, BodyPatterns(r), facts, b) { OneFormOrderFree(ids, es, vs, facts, BodyPatterns(r), Patterns(r.body), b); }
  }
}
