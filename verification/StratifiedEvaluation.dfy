/** Evaluating a program: the predicates it needs, its strata in order. */
module StratifiedEvaluation {
  import opened Facts
  import opened Datalog
  import opened Matcher
  import opened LeastModel
  import opened SeenFacts
  import opened Evaluator
  import opened Stratified
  import opened Stratum
  import opened StratifiedModel

  // ----- the predicates needed -----

  /** Closed under what the rules of its members invoke. */
  ghost predicate Complete(rules: seq<Rule>, preds: set<Text>) {
    forall r, p :: r in rules && r.pred in preds && Invokes(r, p) ==> p in preds
  }

  function PredSet(preds: seq<Text>): set<Text> { set p | p in preds }

  /** Everything any rule invokes. */
  ghost function Universe(rules: seq<Rule>, preds: seq<Text>): set<Text> {
    PredSet(preds) + set k, p | 0 <= k < |rules| && p in InvokedBy(rules[k]) :: p
  }

  /** Add what is not yet listed. */
  method AddMissing(all: seq<Text>, deps: seq<Text>) returns (r: seq<Text>)
    ensures all <= r && forall p :: p in r <==> p in all || p in deps
    ensures r == all || exists p :: p in r && p !in all
  {
    r := all;
    for i := 0 to |deps|
      invariant all <= r && forall p :: p in r <==> p in all || p in deps[..i]
      invariant r == all || exists p :: p in r && p !in all
    {
      if deps[i] !in r { r := r + [deps[i]]; }
    }
  }

  /** Some rule of this predicate invokes `p`. */
  ghost predicate Calls(rules: seq<Rule>, n: nat, pred: Text, p: Text)
    requires n <= |rules|
  {
    exists k :: 0 <= k < n && rules[k].pred == pred && p in InvokedBy(rules[k])
  }

  method AddCallees(rules: seq<Rule>, all: seq<Text>, pred: Text) returns (r: seq<Text>)
    ensures all <= r && forall p :: p in r <==> p in all || Calls(rules, |rules|, pred, p)
    ensures r == all || exists p :: p in r && p !in all
  {
    hide InvokedBy;
    r := all;
    for k := 0 to |rules|
      invariant all <= r && forall p :: p in r <==> p in all || Calls(rules, k, pred, p)
      invariant r == all || exists p :: p in r && p !in all
    {
      ghost var before := r;
      if rules[k].pred == pred { r := AddMissing(r, InvokedBy(rules[k])); }
      forall p ensures Calls(rules, k + 1, pred, p) <==> Calls(rules, k, pred, p) || (rules[k].pred == pred && p in InvokedBy(rules[k])) {}
    }
  }

  /** The requested predicates with all they depend on: the least complete set. */
  method CollectPredicates(rules: seq<Rule>, requested: seq<Text>) returns (all: seq<Text>)
    ensures requested <= all && Complete(rules, PredSet(all))
    ensures forall q: set<Text> :: PredSet(requested) <= q && Complete(rules, q) ==> PredSet(all) <= q
  {
    hide InvokedBy, Invokes;
    all := requested;
    var i := 0;
    ghost var universe := Universe(rules, requested);
    while i < |all|
      invariant i <= |all| && requested <= all && PredSet(all) <= universe
      invariant forall j, p :: 0 <= j < i && Calls(rules, |rules|, all[j], p) ==> p in all
      invariant forall q: set<Text> :: PredSet(requested) <= q && Complete(rules, q) ==> PredSet(all) <= q
      decreases universe - PredSet(all), |all| - i
    {
      var next := AddCallees(rules, all, all[i]);
      Collected(rules, requested, all, all[i], next);
      assert forall j :: 0 <= j < |all| ==> next[j] == all[j];
      if next != all {
        var p :| p in next && p !in all;
        assert p in PredSet(next) && p !in PredSet(all);
      }
      all := next;
      i := i + 1;
    }
    CollectedAll(rules, all);
  }

  lemma Collected(rules: seq<Rule>, requested: seq<Text>, all: seq<Text>, pred: Text, next: seq<Text>)
    requires pred in all && PredSet(all) <= Universe(rules, requested)
    requires forall p :: p in next <==> p in all || Calls(rules, |rules|, pred, p)
    requires forall q: set<Text> :: PredSet(requested) <= q && Complete(rules, q) ==> PredSet(all) <= q
    ensures PredSet(all) <= PredSet(next) <= Universe(rules, requested)
    ensures forall q: set<Text> :: PredSet(requested) <= q && Complete(rules, q) ==> PredSet(next) <= q
  {
    forall k, p | 0 <= k < |rules| ensures p in InvokedBy(rules[k]) <==> Invokes(rules[k], p) { InvokesIff(rules[k], p); }
    hide InvokedBy, Invokes;
    forall p | p in next && p !in all ensures p in Universe(rules, requested) {
      var k :| 0 <= k < |rules| && rules[k].pred == pred && p in InvokedBy(rules[k]);
    }
    forall q: set<Text> | PredSet(requested) <= q && Complete(rules, q) ensures PredSet(next) <= q {
      forall p | p in next ensures p in q {
        assert pred in PredSet(all);
        if p in all {
          assert p in PredSet(all);
        } else {
          var k :| 0 <= k < |rules| && rules[k].pred == pred && p in InvokedBy(rules[k]);
        }
      }
    }
  }

  lemma CollectedAll(rules: seq<Rule>, all: seq<Text>)
    requires forall j, p :: 0 <= j < |all| && Calls(rules, |rules|, all[j], p) ==> p in all
    ensures Complete(rules, PredSet(all))
  {
    hide InvokedBy, Invokes;
    forall r, p | r in rules && r.pred in PredSet(all) && Invokes(r, p) ensures p in PredSet(all) {
      InvokesIff(r, p);
      var j :| 0 <= j < |all| && all[j] == r.pred;
      var k :| 0 <= k < |rules| && rules[k] == r;
      assert Calls(rules, |rules|, all[j], p);
    }
  }

  // ----- the rules of one stratum -----

  /** The rules for a predicate, in order: with negations, or without. */
  function RulesFor(rules: seq<Rule>, n: nat, pred: Text, negated: bool): seq<Rule>
    requires n <= |rules|
  {
    if n == 0 then []
    else RulesFor(rules, n - 1, pred, negated) + if rules[n - 1].pred == pred && (rules[n - 1].nots != []) == negated then [rules[n - 1]] else []
  }

  /** The rules of a stratum, predicate by predicate. */
  function RulesOf(rules: seq<Rule>, preds: seq<Text>, n: nat, strata: Strata, s: nat, negated: bool): seq<Rule>
    requires n <= |preds|
  {
    if n == 0 then []
    else
      var earlier := RulesOf(rules, preds, n - 1, strata, s, negated);
      if StratumOf(strata, preds[n - 1]) == s then earlier + RulesFor(rules, |rules|, preds[n - 1], negated) else earlier
  }

  lemma {:induction false} RulesForExact(rules: seq<Rule>, n: nat, pred: Text, negated: bool, r: Rule)
    requires n <= |rules|
    ensures r in RulesFor(rules, n, pred, negated) <==> r in rules[..n] && r.pred == pred && (r.nots != []) == negated
  {
    if n > 0 {
      RulesForExact(rules, n - 1, pred, negated, r);
      assert rules[..n] == rules[..n - 1] + [rules[n - 1]];
    }
  }

  lemma {:induction false} RulesOfExact(rules: seq<Rule>, preds: seq<Text>, n: nat, strata: Strata, s: nat, negated: bool, r: Rule)
    requires n <= |preds|
    ensures r in RulesOf(rules, preds, n, strata, s, negated) <==>
      r in rules && r.pred in preds[..n] && StratumOf(strata, r.pred) == s && (r.nots != []) == negated
  {
    if n > 0 {
      hide RulesFor;
      RulesOfExact(rules, preds, n - 1, strata, s, negated, r);
      RulesForExact(rules, |rules|, preds[n - 1], negated, r);
      assert rules[..|rules|] == rules && preds[..n] == preds[..n - 1] + [preds[n - 1]];
    }
  }

  /** Partition the rules of a stratum into those without negations and those with. */
  method Partition(rules: seq<Rule>, preds: seq<Text>, strata: Strata, s: nat) returns (positive: seq<Rule>, mixed: seq<Rule>)
    ensures positive == RulesOf(rules, preds, |preds|, strata, s, false) && mixed == RulesOf(rules, preds, |preds|, strata, s, true)
  {
    positive, mixed := [], [];
    for i := 0 to |preds|
      invariant positive == RulesOf(rules, preds, i, strata, s, false) && mixed == RulesOf(rules, preds, i, strata, s, true)
    {
      if StratumOf(strata, preds[i]) == s {
        var p, m := [], [];
        for k := 0 to |rules|
          invariant p == RulesFor(rules, k, preds[i], false) && m == RulesFor(rules, k, preds[i], true)
        {
          if rules[k].pred == preds[i] {
            if rules[k].nots == [] { p := p + [rules[k]]; } else { m := m + [rules[k]]; }
          }
        }
        positive, mixed := positive + p, mixed + m;
      }
    }
  }

  /** Some rule of the stratum invokes a predicate that a mixed rule of the stratum derives. */
  predicate Repeats(positive: seq<Rule>, mixed: seq<Rule>) {
    exists r :: r in positive + mixed && exists p :: p in InvokedBy(r) && exists m :: m in mixed && m.pred == p
  }

  /** That is: some rule of the stratum has a call of it in its body or in a negation. */
  lemma {:induction false} RepeatsIff(positive: seq<Rule>, mixed: seq<Rule>)
    ensures Repeats(positive, mixed) <==> exists r, m :: (r in positive || r in mixed) && m in mixed && Invokes(r, m.pred)
  {
    forall r, p ensures p in InvokedBy(r) <==> Invokes(r, p) { InvokesIff(r, p); }
    hide InvokedBy, Invokes;
  }

  ghost predicate Split(rules: seq<Rule>, preds: set<Text>, strata: Strata, s: nat, positive: seq<Rule>, mixed: seq<Rule>) {
    && (forall r :: r in positive <==> Selected(rules, preds, strata, s, r) && r.nots == [])
    && (forall r :: r in mixed <==> Selected(rules, preds, strata, s, r) && r.nots != [])
  }

  /** A negated literal never reads what its own stratum derives. */
  lemma {:induction false} SplitNegatesLower(rules: seq<Rule>, preds: set<Text>, strata: Strata, s: nat, positive: seq<Rule>, mixed: seq<Rule>)
    requires Split(rules, preds, strata, s, positive, mixed) && Stratifies(strata, rules) && StoredOnly(rules)
    ensures NegatesLower(positive + mixed)
  {
    var all := positive + mixed;
    forall k, i | 0 <= k < |all| && 0 <= i < |all[k].nots| ensures Reads(all[k].nots[i].body) !! HeadAttributes(all) {
      var r, n := all[k], all[k].nots[i];
      assert r in all && n in r.nots;
      forall j, m | 0 <= j < |n.body| && 0 <= m < |all| ensures ToPattern(n.body[j]).attribute != AttributeOf(all[m].pred) {
        assert all[m] in all && n.body[j] in n.body;
        OtherAttribute(rules, n.body, n.body[j], all[m]);
      }
    }
  }

  /** A literal over a stored attribute or another predicate does not read this rule's head. */
  lemma OtherAttribute(rules: seq<Rule>, ls: seq<Literal>, l: Literal, r: Rule)
    requires l in ls && OverStored(ls, rules) && r in rules && (l.Call? ==> l.pred != r.pred)
    ensures ToPattern(l).attribute != AttributeOf(r.pred)
  {
    if l.Call? { assert AttributeOf(l.pred)[1..] == l.pred && AttributeOf(r.pred)[1..] == r.pred; }
  }

  lemma NotRepeated(positive: seq<Rule>, mixed: seq<Rule>, r: Rule, p: Text, m: Rule)
    requires !Repeats(positive, mixed) && r in positive + mixed && p in InvokedBy(r) && m in mixed
    ensures m.pred != p
  {}

  lemma SplitReadsNoMixed(rules: seq<Rule>, preds: set<Text>, strata: Strata, s: nat, positive: seq<Rule>, mixed: seq<Rule>)
    requires Split(rules, preds, strata, s, positive, mixed) && StoredOnly(rules) && !Repeats(positive, mixed)
    ensures ReadsNoMixed(positive + mixed, mixed)
  {
    var all := positive + mixed;
    forall k | 0 <= k < |all| ensures Reads(all[k].body) !! HeadAttributes(mixed) {
      var r := all[k];
      assert r in all;
      forall j, m | 0 <= j < |r.body| && 0 <= m < |mixed| ensures ToPattern(r.body[j]).attribute != AttributeOf(mixed[m].pred) {
        assert mixed[m] in mixed && r.body[j] in r.body;
        if r.body[j].Call? {
          InvokedHas(r.body, j);
          NotRepeated(positive, mixed, r, r.body[j].pred, mixed[m]);
        }
        OtherAttribute(rules, r.body, r.body[j], mixed[m]);
      }
    }
  }

  lemma PartitionSplits(rules: seq<Rule>, preds: seq<Text>, strata: Strata, s: nat)
    ensures Split(rules, PredSet(preds), strata, s, RulesOf(rules, preds, |preds|, strata, s, false), RulesOf(rules, preds, |preds|, strata, s, true))
  {
    assert preds[..|preds|] == preds;
    forall r ensures r in RulesOf(rules, preds, |preds|, strata, s, false) <==> Selected(rules, PredSet(preds), strata, s, r) && r.nots == [] {
      RulesOfExact(rules, preds, |preds|, strata, s, false, r);
    }
    forall r ensures r in RulesOf(rules, preds, |preds|, strata, s, true) <==> Selected(rules, PredSet(preds), strata, s, r) && r.nots != [] {
      RulesOfExact(rules, preds, |preds|, strata, s, true, r);
    }
  }

  lemma SplitKinds(rules: seq<Rule>, preds: set<Text>, strata: Strata, s: nat, positive: seq<Rule>, mixed: seq<Rule>)
    requires Split(rules, preds, strata, s, positive, mixed)
    ensures Positive(positive) && Mixed(mixed) && Lists(rules, preds, strata, s, positive + mixed)
  {
    hide Selected;
    forall k | 0 <= k < |positive| ensures positive[k].nots == [] { assert positive[k] in positive; }
    forall k | 0 <= k < |mixed| ensures mixed[k].nots != [] { assert mixed[k] in mixed; }
  }

  // ----- what is computed -----

  ghost function RulesAt(rules: seq<Rule>, preds: seq<Text>, strata: Strata, s: nat): seq<Rule> {
    RulesOf(rules, preds, |preds|, strata, s, false) + RulesOf(rules, preds, |preds|, strata, s, true)
  }

  /** A stratum was evaluated over the facts below it: an outcome of its rules, every positive body with a head. */
  ghost predicate StratumPassed(ids: Ids, rules: seq<Rule>, preds: seq<Text>, strata: Strata, s: nat, below: set<Triple>, facts: set<Triple>) {
    && Outcome(ids, RulesAt(rules, preds, strata, s), below, below, facts)
    && !AnyHeadless(ids, RulesOf(rules, preds, |preds|, strata, s, false), facts, {})
  }

  /** The outcomes of strata 0, 1, ... over the base facts, each over the one before. */
  ghost predicate Passed(ids: Ids, rules: seq<Rule>, preds: seq<Text>, strata: Strata, base: set<Triple>, ms: seq<set<Triple>>) {
    && |ms| > 0 && ms[0] == base
    && forall s :: 0 <= s < |ms| - 1 ==> StratumPassed(ids, rules, preds, strata, s, ms[s], ms[s + 1])
  }

  /** These facts are the outcome of the last stratum. */
  ghost predicate Computed(ids: Ids, rules: seq<Rule>, preds: seq<Text>, strata: Strata, base: set<Triple>, facts: set<Triple>) {
    exists ms :: Passed(ids, rules, preds, strata, base, ms) && ms[|ms| - 1] == facts
      && forall p :: p in preds ==> StratumOf(strata, p) < |ms| - 1
  }

  lemma {:induction false} PassedGrows(ids: Ids, rules: seq<Rule>, preds: seq<Text>, strata: Strata, base: set<Triple>, ms: seq<set<Triple>>, next: set<Triple>)
    requires Passed(ids, rules, preds, strata, base, ms)
    requires StratumPassed(ids, rules, preds, strata, |ms| - 1, ms[|ms| - 1], next)
    ensures Passed(ids, rules, preds, strata, base, ms + [next])
  {
    hide StratumPassed;
    var all := ms + [next];
    forall s | 0 <= s < |all| - 1 ensures StratumPassed(ids, rules, preds, strata, s, all[s], all[s + 1]) {
      if s < |ms| - 1 { assert all[s] == ms[s] && all[s + 1] == ms[s + 1]; }
    }
  }

  lemma RulesAtListed(rules: seq<Rule>, preds: seq<Text>, strata: Strata, s: nat)
    ensures Lists(rules, PredSet(preds), strata, s, RulesAt(rules, preds, strata, s)) && forall r :: r in RulesAt(rules, preds, strata, s) ==> r in rules
  {
    hide RulesOf, PredSet;
    PartitionSplits(rules, preds, strata, s);
    SplitKinds(rules, PredSet(preds), strata, s, RulesOf(rules, preds, |preds|, strata, s, false), RulesOf(rules, preds, |preds|, strata, s, true));
    hide Split, RulesAt;
  }

  /** Where the values of the program are told apart, the outcome of a stratum is its model. */
  lemma {:induction false} ToldStratum(ids: Ids, rules: seq<Rule>, preds: seq<Text>, strata: Strata, base: set<Triple>, s: nat, below: set<Triple>, facts: set<Triple>)
    requires ToldApart(Values(ids, rules, base)) && Over(Values(ids, rules, base), below)
    requires StratumPassed(ids, rules, preds, strata, s, below, facts)
    ensures StratumModel(ids, rules, PredSet(preds), strata, s, below, facts) && Over(Values(ids, rules, base), facts)
  {
    var all := RulesAt(rules, preds, strata, s);
    hide Values, ToldApart, Outcome, Least, Lists, RulesAt, StratumModel, PredSet, AnyHeadless, Universe;
    RulesAtListed(rules, preds, strata, s);
    ValuesWithin(ids, rules, base, all, below);
    ToldApartWithin(Values(ids, rules, base), Values(ids, all, below));
    OutcomeLeast(ids, all, below, below, facts);
    ListsModel(ids, rules, PredSet(preds), strata, s, all, below);
    LeastWithin(ids, all, below, below);
    UniverseOver(ids, all, below);
  }

  /** And what is computed is the stratum-by-stratum model. */
  lemma {:induction false} ToldChain(ids: Ids, rules: seq<Rule>, preds: seq<Text>, strata: Strata, base: set<Triple>, ms: seq<set<Triple>>)
    requires ToldApart(Values(ids, rules, base)) && Passed(ids, rules, preds, strata, base, ms)
    ensures Chain(ids, rules, PredSet(preds), strata, base, ms) && Over(Values(ids, rules, base), ms[|ms| - 1])
    decreases |ms|
  {
    hide Values, ToldApart, StratumPassed, StratumModel, PredSet;
    if |ms| == 1 {
      BaseOver(ids, rules, base);
    } else {
      var before, last := ms[..|ms| - 1], ms[|ms| - 1];
      PassedFront(ids, rules, preds, strata, base, ms);
      ToldChain(ids, rules, preds, strata, base, before);
      assert StratumPassed(ids, rules, preds, strata, |ms| - 2, ms[|ms| - 2], ms[|ms| - 2 + 1]);
      ToldStratum(ids, rules, preds, strata, base, |ms| - 2, ms[|ms| - 2], last);
      ChainGrows(ids, rules, PredSet(preds), strata, base, before, last);
      assert before + [last] == ms;
    }
  }

  lemma BaseOver(ids: Ids, rules: seq<Rule>, base: set<Triple>)
    ensures Over(Values(ids, rules, base), base)
  {}

  lemma PassedFront(ids: Ids, rules: seq<Rule>, preds: seq<Text>, strata: Strata, base: set<Triple>, ms: seq<set<Triple>>)
    requires Passed(ids, rules, preds, strata, base, ms) && |ms| > 1
    ensures Passed(ids, rules, preds, strata, base, ms[..|ms| - 1])
  {
    hide StratumPassed;
    var before := ms[..|ms| - 1];
    forall s | 0 <= s < |before| - 1 ensures StratumPassed(ids, rules, preds, strata, s, before[s], before[s + 1]) {
      assert before[s] == ms[s] && before[s + 1] == ms[s + 1];
    }
  }

  lemma {:induction false} ToldModel(ids: Ids, rules: seq<Rule>, preds: seq<Text>, strata: Strata, base: set<Triple>, facts: set<Triple>)
    requires ToldApart(Values(ids, rules, base)) && Computed(ids, rules, preds, strata, base, facts)
    ensures IsStratifiedModel(ids, rules, PredSet(preds), strata, base, facts)
  {
    hide Values, ToldApart, StratumPassed, Chain;
    var ms :| Passed(ids, rules, preds, strata, base, ms) && ms[|ms| - 1] == facts && forall p :: p in preds ==> StratumOf(strata, p) < |ms| - 1;
    ToldChain(ids, rules, preds, strata, base, ms);
  }

  // ----- what failures mean -----

  /** `start` are the base facts followed by the outcomes of the completed strata, the last of `ms`; the next stratum fails for cause. */
  ghost predicate TopFails(ids: Ids, rules: seq<Rule>, preds: seq<Text>, strata: Strata, base: seq<Triple>,
                           ms: seq<set<Triple>>, start: seq<Triple>, limits: Limits, why: Failure)
  {
    && |ms| > 0 && Adds(base, start) && ToSet(start) == ms[|ms| - 1]
    && Rightly(ids, RulesOf(rules, preds, |preds|, strata, |ms| - 1, false), RulesOf(rules, preds, |preds|, strata, |ms| - 1, true),
               start, limits, limits.results - (|start| - |base|), why)
  }

  ghost predicate Fails(ids: Ids, rules: seq<Rule>, preds: seq<Text>, strata: Strata, base: seq<Triple>, limits: Limits, why: Failure) {
    exists ms, start ::
      Passed(ids, rules, preds, strata, ToSet(base), ms) && TopFails(ids, rules, preds, strata, base, ms, start, limits, why)
  }

  /** The stratified model has more than `n` derived facts. */
  ghost predicate ModelExceeds(ids: Ids, rules: seq<Rule>, preds: set<Text>, strata: Strata, base: set<Triple>, n: nat) {
    exists model :: IsStratifiedModel(ids, rules, preds, strata, base, model) && |model| - |base| > n
  }

  /** A stratum whose model is too large makes the whole model too large. */
  lemma TopExceeds(ids: Ids, rules: seq<Rule>, preds: seq<Text>, strata: Strata, base: seq<Triple>, ms: seq<set<Triple>>,
                   start: seq<Triple>, limits: Limits, top: nat)
    requires Chain(ids, rules, PredSet(preds), strata, ToSet(base), ms) && TopFails(ids, rules, preds, strata, base, ms, start, limits, MaxResults)
    requires forall p :: p in preds ==> StratumOf(strata, p) <= top
    ensures ModelExceeds(ids, rules, PredSet(preds), strata, ToSet(base), limits.results)
  {
    var s := |ms| - 1;
    var positive, mixed := RulesOf(rules, preds, |preds|, strata, s, false), RulesOf(rules, preds, |preds|, strata, s, true);
    PartitionSplits(rules, preds, strata, s);
    SplitKinds(rules, PredSet(preds), strata, s, positive, mixed);
    ListsModel(ids, rules, PredSet(preds), strata, s, positive + mixed, ms[s]);
    var m := Least(ids, positive + mixed, ms[s], ms[s]);
    hide Least, ToSet, Chain, StratumModel, IsStratifiedModel, Split, RulesOf, Lists;
    ChainGrows(ids, rules, PredSet(preds), strata, ToSet(base), ms, m);
    var model := StratifiedModelExists(ids, rules, PredSet(preds), strata, ToSet(base), top);
    ChainBelow(ids, rules, PredSet(preds), strata, ToSet(base), ms + [m], model);
    SubsetSize(m, model);
  }

  // ----- evaluation -----

  method MaxStratum(strata: Strata, preds: seq<Text>) returns (m: nat)
    ensures forall p :: p in preds ==> StratumOf(strata, p) <= m
  {
    m := 0;
    for i := 0 to |preds|
      invariant forall p :: p in preds[..i] ==> StratumOf(strata, p) <= m
    {
      if StratumOf(strata, preds[i]) > m { m := StratumOf(strata, preds[i]); }
    }
    assert preds[..|preds|] == preds;
  }

  /** Evaluate one stratum over the facts below it. */
  method EvaluateOne(ids: Ids, rules: seq<Rule>, preds: seq<Text>, strata: Strata, s: nat, base: seq<Triple>, facts: seq<Triple>,
                     limits: Limits, ghost ms: seq<set<Triple>>)
    returns (e: Evaluation)
    requires Stratifies(strata, rules) && StoredOnly(rules) && |facts| - |base| <= limits.results
    requires |ms| == s + 1 && ms[s] == ToSet(facts) && Grown(base, facts)
    ensures e.Done? ==>
      && Grown(facts, e.facts) && StratumPassed(ids, rules, preds, strata, s, ToSet(facts), ToSet(e.facts))
      && |e.facts| - |base| <= limits.results
    ensures e.Failed? ==> TopFails(ids, rules, preds, strata, base, ms, facts, limits, e.why)
  {
    hide ToSet, Stratifies, StoredOnly, Selected, Rightly, RulesOf, Least, Values, ToldApart, Keys, FreshKeys, AnyHeadless;
    if !(exists p :: p in preds && StratumOf(strata, p) == s) {
      NothingPassed(ids, rules, preds, strata, s, ToSet(facts));
      GrownNone(facts);
      return Done(facts);
    }
    var positive, mixed := Partition(rules, preds, strata, s);
    PartitionSplits(rules, preds, strata, s);
    SplitNegatesLower(rules, PredSet(preds), strata, s, positive, mixed);
    var repeats := Repeats(positive, mixed);
    if !repeats { SplitReadsNoMixed(rules, PredSet(preds), strata, s, positive, mixed); }
    SplitKinds(rules, PredSet(preds), strata, s, positive, mixed);
    hide Positive, Mixed, NegatesLower, ReadsNoMixed, Repeats, Split, Lists, Outcome;
    e := EvaluateStratum(ids, positive, mixed, repeats, facts, limits, |facts| - |base|);
  }

  lemma NothingPassed(ids: Ids, rules: seq<Rule>, preds: seq<Text>, strata: Strata, s: nat, facts: set<Triple>)
    requires forall p :: p in preds ==> StratumOf(strata, p) != s
    ensures StratumPassed(ids, rules, preds, strata, s, facts, facts)
  {
    NoRules(rules, preds, |preds|, strata, s, false);
    NoRules(rules, preds, |preds|, strata, s, true);
    hide RulesOf;
  }

  lemma {:induction false} NoRules(rules: seq<Rule>, preds: seq<Text>, n: nat, strata: Strata, s: nat, negated: bool)
    requires n <= |preds| && forall p :: p in preds ==> StratumOf(strata, p) != s
    ensures RulesOf(rules, preds, n, strata, s, negated) == []
  {
    if n > 0 {
      NoRules(rules, preds, n - 1, strata, s, negated);
      assert preds[n - 1] in preds;
    }
  }

  /**
   * Evaluate the requested predicates with all they depend on. On success the facts are computed stratum by stratum, each
   * an outcome over the one before, with at most `results` derived facts. Where the values of the program are told apart
   * they are exactly the stratum-by-stratum least model, and it fails on `results` only when that model has more. It fails
   * on anything else only for cause at some stratum over the completed lower ones.
   */
  method Evaluate(ids: Ids, rules: seq<Rule>, strata: Strata, requested: seq<Text>, base: seq<Triple>, limits: Limits)
    returns (e: Evaluation, preds: seq<Text>)
    requires Stratifies(strata, rules) && StoredOnly(rules)
    ensures requested <= preds && Complete(rules, PredSet(preds))
    ensures forall q: set<Text> :: PredSet(requested) <= q && Complete(rules, q) ==> PredSet(preds) <= q
    ensures e.Done? ==>
      && Grown(base, e.facts) && |e.facts| - |base| <= limits.results
      && Computed(ids, rules, preds, strata, ToSet(base), ToSet(e.facts))
    ensures e.Done? && ToldApart(Values(ids, rules, ToSet(base))) ==>
      IsStratifiedModel(ids, rules, PredSet(preds), strata, ToSet(base), ToSet(e.facts))
    ensures e.Failed? ==> Fails(ids, rules, preds, strata, base, limits, e.why)
    ensures e == Failed(MaxResults) && ToldApart(Values(ids, rules, ToSet(base))) ==>
      ModelExceeds(ids, rules, PredSet(preds), strata, ToSet(base), limits.results)
  {
    preds := CollectPredicates(rules, requested);
    var top := MaxStratum(strata, preds);
    hide ToSet, Stratifies, StoredOnly, StratumPassed, TopFails, Complete, ModelExceeds, Values, ToldApart, Grown, IsStratifiedModel;
    var facts := base;
    ghost var ms := [ToSet(base)];
    GrownNone(base);
    for s := 0 to top + 1
      invariant Passed(ids, rules, preds, strata, ToSet(base), ms) && |ms| == s + 1 && ms[s] == ToSet(facts)
      invariant Grown(base, facts) && |facts| - |base| <= limits.results
    {
      var one := EvaluateOne(ids, rules, preds, strata, s, base, facts, limits, ms);
      if one.Failed? {
        if one.why == MaxResults && ToldApart(Values(ids, rules, ToSet(base))) {
          ToldChain(ids, rules, preds, strata, ToSet(base), ms);
          TopExceeds(ids, rules, preds, strata, base, ms, facts, limits, top);
        }
        return one, preds;
      }
      PassedGrows(ids, rules, preds, strata, ToSet(base), ms, ToSet(one.facts));
      GrownTrans(base, facts, one.facts);
      facts := one.facts;
      ms := ms + [ToSet(facts)];
    }
    e := Done(facts);
    if ToldApart(Values(ids, rules, ToSet(base))) { ToldModel(ids, rules, preds, strata, ToSet(base), ToSet(facts)); }
  }
}
