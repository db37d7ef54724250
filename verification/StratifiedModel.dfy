/** The stratum-by-stratum model of a program: what it is, that it exists, and that there is only one. */
module StratifiedModel {
  import opened Facts
  import opened Datalog
  import opened LeastModel

  // ----- programs -----

  type Strata = map<Text, nat>

  function StratumOf(strata: Strata, pred: Text): nat { if pred in strata then strata[pred] else 0 }

  /** The predicates a list of literals invokes, in order. */
  function Invoked(ls: seq<Literal>): seq<Text> {
    if ls == [] then [] else (if ls[0].Call? then [ls[0].pred] else []) + Invoked(ls[1..])
  }

  function InvokedByNots(nots: seq<Negation>): seq<Text> {
    if nots == [] then [] else Invoked(nots[0].body) + InvokedByNots(nots[1..])
  }

  function InvokedBy(r: Rule): seq<Text> { Invoked(r.body) + InvokedByNots(r.nots) }

  lemma {:induction false} InvokedHas(ls: seq<Literal>, i: nat)
    requires i < |ls| && ls[i].Call?
    ensures ls[i].pred in Invoked(ls)
  {
    if i > 0 { InvokedHas(ls[1..], i - 1); }
  }

  /** Some literal of the list is a call of `p`. */
  ghost predicate CallsPred(ls: seq<Literal>, p: Text) { exists l :: l in ls && l.Call? && l.pred == p }

  /** A rule invokes a predicate in its body, or in one of its negations. */
  ghost predicate Invokes(r: Rule, p: Text) { CallsPred(r.body, p) || NegatesPred(r.nots, p) }

  ghost predicate NegatesPred(nots: seq<Negation>, p: Text) { exists n :: n in nots && CallsPred(n.body, p) }

  lemma {:induction false} InvokedIff(ls: seq<Literal>, p: Text)
    ensures p in Invoked(ls) <==> CallsPred(ls, p)
  {
    if ls != [] {
      InvokedIff(ls[1..], p);
      assert ls == [ls[0]] + ls[1..];
      assert forall l :: l in ls <==> l == ls[0] || l in ls[1..];
    }
  }

  lemma {:induction false} InvokedByNotsIff(nots: seq<Negation>, p: Text)
    ensures p in InvokedByNots(nots) <==> NegatesPred(nots, p)
  {
    hide Invoked, CallsPred;
    if nots != [] {
      InvokedIff(nots[0].body, p);
      InvokedByNotsIff(nots[1..], p);
      assert nots == [nots[0]] + nots[1..];
      assert forall n :: n in nots <==> n == nots[0] || n in nots[1..];
    }
  }

  /** The listed predicates are exactly those invoked. */
  lemma {:induction false} InvokesIff(r: Rule, p: Text)
    ensures p in InvokedBy(r) <==> Invokes(r, p)
  {
    InvokedIff(r.body, p);
    InvokedByNotsIff(r.nots, p);
    hide Invoked, InvokedByNots, CallsPred, NegatesPred;
  }

  /** Invocations stay at or below the rule's stratum, negated ones strictly below. */
  ghost predicate Stratifies(strata: Strata, rules: seq<Rule>) {
    forall r :: r in rules ==>
      && (forall l :: l in r.body && l.Call? ==> StratumOf(strata, l.pred) <= StratumOf(strata, r.pred))
      && (forall n, l :: n in r.nots && l in n.body && l.Call? ==> StratumOf(strata, l.pred) < StratumOf(strata, r.pred))
  }

  ghost predicate OverStored(ls: seq<Literal>, rules: seq<Rule>) {
    forall l, r :: l in ls && l.Match? && r in rules ==> l.p.attribute != AttributeOf(r.pred)
  }

  /** Patterns in bodies are over stored attributes, never over derived ones. */
  ghost predicate StoredOnly(rules: seq<Rule>) {
    forall r :: r in rules ==> OverStored(r.body, rules) && forall n :: n in r.nots ==> OverStored(n.body, rules)
  }

  // ----- the stratified model -----

  predicate Selected(rules: seq<Rule>, preds: set<Text>, strata: Strata, s: nat, r: Rule) {
    r in rules && r.pred in preds && StratumOf(strata, r.pred) == s
  }

  /** Closed under the rules of stratum `s`, their negations read in `below`. */
  ghost predicate StratumClosed(ids: Ids, rules: seq<Rule>, preds: set<Text>, strata: Strata, s: nat,
                                below: set<Triple>, facts: set<Triple>) {
    forall r, t :: Selected(rules, preds, strata, s, r) && Derives(ids, r, facts, below, t) ==> t in facts
  }

  /** The least set over `below` closed under the rules of stratum `s`. */
  ghost predicate StratumModel(ids: Ids, rules: seq<Rule>, preds: set<Text>, strata: Strata, s: nat,
                               below: set<Triple>, model: set<Triple>) {
    && below <= model && StratumClosed(ids, rules, preds, strata, s, below, model)
    && forall c: set<Triple> :: below <= c && StratumClosed(ids, rules, preds, strata, s, below, c) ==> model <= c
  }

  /** The models of strata 0, 1, ... over the base facts, each over the one before. */
  ghost predicate Chain(ids: Ids, rules: seq<Rule>, preds: set<Text>, strata: Strata, base: set<Triple>, ms: seq<set<Triple>>) {
    && |ms| > 0 && ms[0] == base
    && forall s :: 0 <= s < |ms| - 1 ==> StratumModel(ids, rules, preds, strata, s, ms[s], ms[s + 1])
  }

  /** The stratum-by-stratum least model of all rules for these predicates. */
  ghost predicate IsStratifiedModel(ids: Ids, rules: seq<Rule>, preds: set<Text>, strata: Strata, base: set<Triple>, model: set<Triple>) {
    exists ms :: Chain(ids, rules, preds, strata, base, ms) && ms[|ms| - 1] == model
      && forall p :: p in preds ==> StratumOf(strata, p) < |ms| - 1
  }

  lemma {:induction false} ChainGrows(ids: Ids, rules: seq<Rule>, preds: set<Text>, strata: Strata, base: set<Triple>,
                                      ms: seq<set<Triple>>, next: set<Triple>)
    requires Chain(ids, rules, preds, strata, base, ms)
    requires StratumModel(ids, rules, preds, strata, |ms| - 1, ms[|ms| - 1], next)
    ensures Chain(ids, rules, preds, strata, base, ms + [next])
  {
    hide StratumModel;
    var all := ms + [next];
    forall s | 0 <= s < |all| - 1 ensures StratumModel(ids, rules, preds, strata, s, all[s], all[s + 1]) {
      if s < |ms| - 1 { assert all[s] == ms[s] && all[s + 1] == ms[s + 1]; }
    }
  }

  // ----- there is only one such model -----

  lemma {:induction false} ChainsAgree(ids: Ids, rules: seq<Rule>, preds: set<Text>, strata: Strata, base: set<Triple>,
                                       ms: seq<set<Triple>>, ms': seq<set<Triple>>, n: nat)
    requires Chain(ids, rules, preds, strata, base, ms) && Chain(ids, rules, preds, strata, base, ms')
    requires n < |ms| && n < |ms'|
    ensures ms[n] == ms'[n]
  {
    if n > 0 {
      hide StratumClosed;
      ChainsAgree(ids, rules, preds, strata, base, ms, ms', n - 1);
      assert StratumModel(ids, rules, preds, strata, n - 1, ms[n - 1], ms[n - 1 + 1]);
      assert StratumModel(ids, rules, preds, strata, n - 1, ms'[n - 1], ms'[n - 1 + 1]);
    }
  }

  /** Above the highest stratum nothing is added. */
  lemma {:induction false} ChainEnds(ids: Ids, rules: seq<Rule>, preds: set<Text>, strata: Strata, base: set<Triple>,
                                     ms: seq<set<Triple>>, top: nat, n: nat)
    requires Chain(ids, rules, preds, strata, base, ms) && top <= n < |ms|
    requires forall p :: p in preds ==> StratumOf(strata, p) < top
    ensures ms[n] == ms[top]
  {
    if n > top {
      ChainEnds(ids, rules, preds, strata, base, ms, top, n - 1);
      assert StratumModel(ids, rules, preds, strata, n - 1, ms[n - 1], ms[n - 1 + 1]);
      assert StratumClosed(ids, rules, preds, strata, n - 1, ms[n - 1], ms[n - 1]);
    }
  }

  /** A program, its strata and the base facts determine the stratified model. */
  lemma {:induction false} StratifiedModelUnique(ids: Ids, rules: seq<Rule>, preds: set<Text>, strata: Strata, base: set<Triple>,
                              a: set<Triple>, b: set<Triple>)
    requires IsStratifiedModel(ids, rules, preds, strata, base, a) && IsStratifiedModel(ids, rules, preds, strata, base, b)
    ensures a == b
  {
    var ms :| Chain(ids, rules, preds, strata, base, ms) && ms[|ms| - 1] == a
      && forall p :: p in preds ==> StratumOf(strata, p) < |ms| - 1;
    var ms' :| Chain(ids, rules, preds, strata, base, ms') && ms'[|ms'| - 1] == b
      && forall p :: p in preds ==> StratumOf(strata, p) < |ms'| - 1;
    var top := if |ms| < |ms'| then |ms| - 1 else |ms'| - 1;
    ChainsAgree(ids, rules, preds, strata, base, ms, ms', top);
    ChainEnds(ids, rules, preds, strata, base, ms, top, |ms| - 1);
    ChainEnds(ids, rules, preds, strata, base, ms', top, |ms'| - 1);
  }

  // ----- and there is one -----

  /** The rules of a stratum, as a list. */
  ghost function RulesIn(rules: seq<Rule>, preds: set<Text>, strata: Strata, s: nat, n: nat): (r: seq<Rule>)
    requires n <= |rules|
  {
    if n == 0 then []
    else RulesIn(rules, preds, strata, s, n - 1) + if Selected(rules, preds, strata, s, rules[n - 1]) then [rules[n - 1]] else []
  }

  lemma {:induction false} RulesInExact(rules: seq<Rule>, preds: set<Text>, strata: Strata, s: nat, n: nat, r: Rule)
    requires n <= |rules|
    ensures r in RulesIn(rules, preds, strata, s, n) <==> r in rules[..n] && Selected(rules, preds, strata, s, r)
  {
    if n > 0 {
      RulesInExact(rules, preds, strata, s, n - 1, r);
      assert rules[..n] == rules[..n - 1] + [rules[n - 1]];
    }
  }

  /** A list has exactly the rules of the stratum. */
  ghost predicate Lists(rules: seq<Rule>, preds: set<Text>, strata: Strata, s: nat, all: seq<Rule>) {
    forall r :: r in all <==> Selected(rules, preds, strata, s, r)
  }

  lemma ListsClosed(ids: Ids, rules: seq<Rule>, preds: set<Text>, strata: Strata, s: nat, all: seq<Rule>, below: set<Triple>, facts: set<Triple>)
    requires Lists(rules, preds, strata, s, all)
    ensures Closed(ids, all, below, facts) <==> StratumClosed(ids, rules, preds, strata, s, below, facts)
  {
    hide Derives, Selected;
    if Closed(ids, all, below, facts) {
      forall r, t | Selected(rules, preds, strata, s, r) && Derives(ids, r, facts, below, t) ensures t in facts {
        var k :| 0 <= k < |all| && all[k] == r;
        assert DerivedBy(ids, all, facts, below, t);
      }
    }
    if StratumClosed(ids, rules, preds, strata, s, below, facts) {
      forall t | DerivedBy(ids, all, facts, below, t) ensures t in facts {
        var k :| 0 <= k < |all| && Derives(ids, all[k], facts, below, t);
        assert all[k] in all;
      }
    }
  }

  /** The least closed set of such a list is the model of the stratum. */
  lemma ListsModel(ids: Ids, rules: seq<Rule>, preds: set<Text>, strata: Strata, s: nat, all: seq<Rule>, below: set<Triple>)
    requires Lists(rules, preds, strata, s, all)
    ensures StratumModel(ids, rules, preds, strata, s, below, Least(ids, all, below, below))
  {
    var m := Least(ids, all, below, below);
    assert IsLeast(ids, all, below, below, m);
    hide Closed, StratumClosed, Lists, Least;
    forall c: set<Triple> ensures Closed(ids, all, below, c) <==> StratumClosed(ids, rules, preds, strata, s, below, c) {
      ListsClosed(ids, rules, preds, strata, s, all, below, c);
    }
  }

  lemma StratumModelExists(ids: Ids, rules: seq<Rule>, preds: set<Text>, strata: Strata, s: nat, below: set<Triple>) returns (m: set<Triple>)
    ensures StratumModel(ids, rules, preds, strata, s, below, m)
  {
    var all := RulesIn(rules, preds, strata, s, |rules|);
    forall r ensures r in all <==> Selected(rules, preds, strata, s, r) {
      RulesInExact(rules, preds, strata, s, |rules|, r);
      assert rules[..|rules|] == rules;
    }
    ListsModel(ids, rules, preds, strata, s, all, below);
    m := Least(ids, all, below, below);
  }

  lemma {:induction false} ChainExists(ids: Ids, rules: seq<Rule>, preds: set<Text>, strata: Strata, base: set<Triple>, n: nat)
    returns (ms: seq<set<Triple>>)
    ensures Chain(ids, rules, preds, strata, base, ms) && |ms| == n + 1
  {
    if n == 0 {
      ms := [base];
    } else {
      ms := ChainExists(ids, rules, preds, strata, base, n - 1);
      var m := StratumModelExists(ids, rules, preds, strata, n - 1, ms[n - 1]);
      ChainGrows(ids, rules, preds, strata, base, ms, m);
      ms := ms + [m];
    }
  }

  /** Every program has a stratified model over any base. */
  lemma {:induction false} StratifiedModelExists(ids: Ids, rules: seq<Rule>, preds: set<Text>, strata: Strata, base: set<Triple>, top: nat)
    returns (model: set<Triple>)
    requires forall p :: p in preds ==> StratumOf(strata, p) <= top
    ensures IsStratifiedModel(ids, rules, preds, strata, base, model)
  {
    var ms := ChainExists(ids, rules, preds, strata, base, top + 1);
    model := ms[|ms| - 1];
  }

  // ----- partial chains lie below it -----

  lemma {:induction false} ChainRises(ids: Ids, rules: seq<Rule>, preds: set<Text>, strata: Strata, base: set<Triple>,
                                      ms: seq<set<Triple>>, i: nat, n: nat)
    requires Chain(ids, rules, preds, strata, base, ms) && i <= n < |ms|
    ensures ms[i] <= ms[n]
  {
    if i < n {
      ChainRises(ids, rules, preds, strata, base, ms, i, n - 1);
      assert StratumModel(ids, rules, preds, strata, n - 1, ms[n - 1], ms[n - 1 + 1]);
    }
  }

  /** The models of the first strata are part of the whole model. */
  lemma {:induction false} ChainBelow(ids: Ids, rules: seq<Rule>, preds: set<Text>, strata: Strata, base: set<Triple>,
                                      ms: seq<set<Triple>>, model: set<Triple>)
    requires Chain(ids, rules, preds, strata, base, ms) && IsStratifiedModel(ids, rules, preds, strata, base, model)
    ensures ms[|ms| - 1] <= model
  {
    var all :| Chain(ids, rules, preds, strata, base, all) && all[|all| - 1] == model
      && forall p :: p in preds ==> StratumOf(strata, p) < |all| - 1;
    hide StratumModel;
    ChainNonEmpty(ids, rules, preds, strata, base, ms);
    var top := if |ms| < |all| then |ms| - 1 else |all| - 1;
    ChainsAgree(ids, rules, preds, strata, base, ms, all, top);
    if |ms| < |all| {
      ChainRises(ids, rules, preds, strata, base, all, top, |all| - 1);
    } else {
      ChainEnds(ids, rules, preds, strata, base, ms, top, |ms| - 1);
    }
  }

  lemma ChainNonEmpty(ids: Ids, rules: seq<Rule>, preds: set<Text>, strata: Strata, base: set<Triple>, ms: seq<set<Triple>>)
    requires Chain(ids, rules, preds, strata, base, ms)
    ensures |ms| > 0
  {}
}
