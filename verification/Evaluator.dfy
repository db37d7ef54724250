/** Recursive rule evaluation: the loop to a fixpoint, proved to compute the least closed set. */
module Evaluator {
  import opened Bytes
  import opened Datalog
  import opened Matcher
  import opened LeastModel
  import opened SeenFacts

  datatype Failure = BadHead | NegatedClause | MaxIterations | MaxDerivedFacts | MaxResults
  datatype Evaluation = Done(facts: seq<Triple>) | Failed(why: Failure)
  datatype Limits = Limits(iterations: nat, derivedFacts: nat, results: nat)

  // ----- least closed sets -----

  /** One round of derivations from forced facts is forced. */
  lemma {:induction false} ForcedRound(ids: Ids, rules: seq<Rule>, negated: set<Triple>, base: set<Triple>, facts: set<Triple>, next: set<Triple>)
    requires Forced(ids, rules, negated, base, facts)
    requires forall t :: t in next ==> t in facts || DerivedBy(ids, rules, facts, negated, t)
    ensures Forced(ids, rules, negated, base, next)
  {
    hide DerivedBy, Closed;
    forall c: set<Triple> | base <= c && Closed(ids, rules, negated, c) ensures next <= c {
      forall t | t in next ensures t in c {
        assert facts <= c;
        if t !in facts {
          DerivedByMore(ids, rules, facts, c, negated, t);
          ClosedHas(ids, rules, negated, c, t);
        }
      }
    }
  }

  // ----- one round -----

  lemma ToSetAppend(facts: seq<Triple>, more: seq<Triple>)
    ensures ToSet(facts + more) == ToSet(facts) + ToSet(more)
  {
    var all := facts + more;
    forall t | t in ToSet(facts) + ToSet(more) ensures t in ToSet(all) {
      if t in ToSet(facts) {
        var i :| 0 <= i < |facts| && facts[i] == t;
        assert all[i] == t;
      } else {
        var i :| 0 <= i < |more| && more[i] == t;
        assert all[|facts| + i] == t;
      }
    }
  }

  lemma ToSetSnoc(facts: seq<Triple>, t: Triple)
    ensures ToSet(facts + [t]) == ToSet(facts) + {t}
  {
    ToSetAppend(facts, [t]);
    assert [t][0] == t;
    assert ToSet([t]) == {t};
  }

  lemma InToSet(facts: seq<Triple>)
    ensures forall t :: t in facts <==> t in ToSet(facts)
  {}

  /** Some satisfied body of a rule has no head to derive. */
  ghost predicate Headless(ids: Ids, r: Rule, facts: set<Triple>, negated: set<Triple>) {
    exists b :: BodyHolds(ids, r, facts, negated, b) && HeadOf(ids, r, b) == None
  }

  /** The heads of the first `n` bindings, or None when one cannot be instantiated. */
  function HeadsUpto(ids: Ids, r: Rule, bs: seq<Binding>, n: nat): Option<seq<Triple>>
    requires n <= |bs|
  {
    if n == 0 then Some([])
    else
      match (HeadsUpto(ids, r, bs, n - 1), HeadOf(ids, r, bs[n - 1]))
      case (Some(ts), Some(t)) => Some(ts + [t])
      case _ => None
  }

  /** What a positive rule yields, as often as the facts support it. */
  function RuleYield(ids: Ids, r: Rule, facts: seq<Triple>): Evaluation {
    if r.nots != [] then Failed(NegatedClause)
    else if r.body == [] then Done([])
    else
      var ps := Patterns(r.body);
      var bs := AllMatches(ids, ps, |ps|, facts);
      match HeadsUpto(ids, r, bs, |bs|)
      case None => Failed(BadHead)
      case Some(ts) => Done(ts)
  }

  /** What a round over the first `n` rules yields. */
  function RoundYield(ids: Ids, rules: seq<Rule>, n: nat, facts: seq<Triple>): Evaluation
    requires n <= |rules|
  {
    if n == 0 then Done([])
    else
      match RoundYield(ids, rules, n - 1, facts)
      case Failed(why) => Failed(why)
      case Done(ts) =>
        match RuleYield(ids, rules[n - 1], facts)
        case Failed(why) => Failed(why)
        case Done(more) => Done(ts + more)
  }

  lemma {:induction false} HeadsStuck(ids: Ids, r: Rule, bs: seq<Binding>, i: nat, n: nat)
    requires i <= n <= |bs| && HeadsUpto(ids, r, bs, i) == None
    ensures HeadsUpto(ids, r, bs, n) == None
  {
    hide HeadOf;
    if i < n { HeadsStuck(ids, r, bs, i, n - 1); }
  }

  lemma {:induction false} RoundStuck(ids: Ids, rules: seq<Rule>, facts: seq<Triple>, i: nat, n: nat)
    requires i <= n <= |rules| && RoundYield(ids, rules, i, facts).Failed?
    ensures RoundYield(ids, rules, n, facts) == RoundYield(ids, rules, i, facts)
  {
    hide RuleYield;
    if i < n { RoundStuck(ids, rules, facts, i, n - 1); }
  }

  lemma {:induction false} HeadsExact(ids: Ids, r: Rule, bs: seq<Binding>, n: nat, t: Triple)
    requires n <= |bs| && HeadsUpto(ids, r, bs, n).Some?
    ensures t in HeadsUpto(ids, r, bs, n).value <==> exists i :: 0 <= i < n && HeadOf(ids, r, bs[i]) == Some(t)
  {
    hide HeadOf;
    if n > 0 { HeadsExact(ids, r, bs, n - 1, t); }
  }

  /** Instantiate the head for every binding; None at the first that cannot be. */
  method InstantiateHeads(ids: Ids, r: Rule, bs: seq<Binding>) returns (derived: Option<seq<Triple>>)
    ensures derived == HeadsUpto(ids, r, bs, |bs|)
    ensures derived.None? <==> exists i :: 0 <= i < |bs| && HeadOf(ids, r, bs[i]) == None
  {
    hide HeadOf;
    var ts: seq<Triple> := [];
    for n := 0 to |bs|
      invariant HeadsUpto(ids, r, bs, n) == Some(ts) && forall i :: 0 <= i < n ==> HeadOf(ids, r, bs[i]).Some?
    {
      var head := HeadOf(ids, r, bs[n]);
      if head.None? {
        HeadsStuck(ids, r, bs, n + 1, |bs|);
        return None;
      }
      ts := ts + [head.value];
    }
    derived := Some(ts);
  }

  /** Everything a positive rule derives from the facts, or the error of a head it cannot instantiate. */
  method EvaluateRule(ids: Ids, r: Rule, facts: seq<Triple>) returns (e: Evaluation)
    ensures e.Done? ==> (forall t :: t in e.facts <==> Derives(ids, r, ToSet(facts), {}, t)) && !Headless(ids, r, ToSet(facts), {})
    ensures e.Failed? ==> e.why == (if r.nots != [] then NegatedClause else BadHead)
    ensures e == Failed(BadHead) ==> Headless(ids, r, ToSet(facts), {})
    ensures r.nots != [] ==> e.Failed?
    ensures e == RuleYield(ids, r, facts)
  {
    hide Sat, HeadOf, HeadsUpto, AllMatches, ToSet;
    if r.nots != [] { return Failed(NegatedClause); }
    if r.body == [] { return Done([]); }
    var bs := MatchPatterns(ids, Patterns(r.body), facts);
    assert BodyPatterns(r) == Patterns(r.body);
    var derived := InstantiateHeads(ids, r, bs);
    if derived.None? {
      ghost var i :| 0 <= i < |bs| && HeadOf(ids, r, bs[i]) == None;
      assert bs[i] in bs;
      assert BodyHolds(ids, r, ToSet(facts), {}, bs[i]);
      return Failed(BadHead);
    }
    forall t ensures t in derived.value <==> Derives(ids, r, ToSet(facts), {}, t) {
      HeadsExact(ids, r, bs, |bs|, t);
      AllHeads(ids, r, ToSet(facts), bs, derived.value, t);
    }
    forall b | BodyHolds(ids, r, ToSet(facts), {}, b) ensures HeadOf(ids, r, b).Some? { assert b in bs; }
    return Done(derived.value);
  }

  lemma AllHeads(ids: Ids, r: Rule, facts: set<Triple>, bs: seq<Binding>, derived: seq<Triple>, t: Triple)
    requires r.nots == [] && r.body != [] && forall b :: b in bs <==> Sat(ids, Patterns(r.body), facts, b)
    requires t in derived <==> exists i :: 0 <= i < |bs| && HeadOf(ids, r, bs[i]) == Some(t)
    ensures t in derived <==> Derives(ids, r, facts, {}, t)
  {
    hide Sat;
    if t in derived {
      var i :| 0 <= i < |bs| && HeadOf(ids, r, bs[i]) == Some(t);
      assert bs[i] in bs;
      assert BodyHolds(ids, r, facts, {}, bs[i]);
    }
    if Derives(ids, r, facts, {}, t) {
      var b :| BodyHolds(ids, r, facts, {}, b) && HeadOf(ids, r, b) == Some(t);
      assert b in bs;
    }
  }

  ghost predicate AnyHeadless(ids: Ids, rules: seq<Rule>, facts: set<Triple>, negated: set<Triple>) {
    exists k :: 0 <= k < |rules| && Headless(ids, rules[k], facts, negated)
  }

  /** All rules once. */
  method EvaluateIteration(ids: Ids, rules: seq<Rule>, facts: seq<Triple>) returns (e: Evaluation)
    ensures e.Done? ==> (forall t :: t in e.facts <==> DerivedBy(ids, rules, ToSet(facts), {}, t)) && !AnyHeadless(ids, rules, ToSet(facts), {})
    ensures e.Failed? ==> e.why == NegatedClause || e.why == BadHead
    ensures e == Failed(NegatedClause) ==> exists k :: 0 <= k < |rules| && rules[k].nots != []
    ensures e == Failed(BadHead) ==> AnyHeadless(ids, rules, ToSet(facts), {})
    ensures e == RoundYield(ids, rules, |rules|, facts)
  {
    hide Derives, Headless, RuleYield;
    var derived: seq<Triple> := [];
    for n := 0 to |rules|
      invariant RoundYield(ids, rules, n, facts) == Done(derived)
      invariant forall t :: t in derived <==> exists k :: 0 <= k < n && Derives(ids, rules[k], ToSet(facts), {}, t)
      invariant forall k :: 0 <= k < n ==> !Headless(ids, rules[k], ToSet(facts), {})
    {
      var one := EvaluateRule(ids, rules[n], facts);
      if one.Failed? {
        RoundStuck(ids, rules, facts, n + 1, |rules|);
        return one;
      }
      derived := derived + one.facts;
    }
    return Done(derived);
  }

  // ----- the fixpoint loop -----

  /** `facts` are the base facts followed by new ones, once each. */
  ghost predicate Adds(base: seq<Triple>, facts: seq<Triple>) {
    base <= facts && |facts| - |base| == |ToSet(facts)| - |ToSet(base)|
  }

  /** And no new one shares its key with another fact. */
  ghost predicate Grown(base: seq<Triple>, facts: seq<Triple>) {
    && Adds(base, facts) && ToSet(base) <= ToSet(facts) && FreshKeys(ToSet(base), ToSet(facts))
    && |facts| - |base| == |Keys(ToSet(facts))| - |Keys(ToSet(base))|
  }

  lemma GrownNone(base: seq<Triple>)
    ensures Grown(base, base)
  {}

  lemma KeysAdd(facts: set<Triple>, t: Triple)
    ensures Keys(facts + {t}) == Keys(facts) + {KeyOf(t)}
  {
    hide KeyOf;
    forall k | k in Keys(facts) + {KeyOf(t)} ensures k in Keys(facts + {t}) {
      if k in Keys(facts) {
        var u :| u in facts && KeyOf(u) == k;
        assert u in facts + {t};
      } else {
        assert t in facts + {t};
      }
    }
  }

  lemma FreshAdd(base: set<Triple>, facts: set<Triple>, t: Triple)
    requires FreshKeys(base, facts) && KeyOf(t) !in Keys(facts)
    ensures t !in facts && FreshKeys(base, facts + {t})
  {
    hide KeyOf;
    forall v, u | v in facts + {t} && v !in base && u in facts + {t} && KeyOf(v) == KeyOf(u) ensures v == u {
      if v in facts { assert KeyOf(v) in Keys(facts); }
      if u in facts { assert KeyOf(u) in Keys(facts); }
    }
  }

  /** One more fact with a new key. */
  lemma GrownOne(base: seq<Triple>, facts: seq<Triple>, t: Triple)
    requires Grown(base, facts) && KeyOf(t) !in Keys(ToSet(facts))
    ensures Grown(base, facts + [t]) && Keys(ToSet(facts + [t])) == Keys(ToSet(facts)) + {KeyOf(t)} && ToSet(facts + [t]) == ToSet(facts) + {t}
  {
    hide ToSet, Keys, KeyOf, FreshKeys;
    ToSetSnoc(facts, t);
    KeysAdd(ToSet(facts), t);
    FreshAdd(ToSet(base), ToSet(facts), t);
  }

  lemma GrownTrans(a: seq<Triple>, b: seq<Triple>, c: seq<Triple>)
    requires Grown(a, b) && Grown(b, c)
    ensures Grown(a, c)
  {
    hide ToSet, Keys, KeyOf;
  }

  /** Every fact found has a key that is there by now. */
  ghost predicate Covered(found: seq<Triple>, n: nat, facts: seq<Triple>)
    requires n <= |found|
  {
    forall i :: 0 <= i < n ==> KeyOf(found[i]) in Keys(ToSet(facts))
  }

  /** Some of the facts found, with new keys. */
  ghost predicate Picked(found: seq<Triple>, facts: seq<Triple>, picked: seq<Triple>) {
    Grown(facts, facts + picked) && forall t :: t in picked ==> t in found
  }

  lemma PickOne(found: seq<Triple>, facts: seq<Triple>, picked: seq<Triple>, n: nat)
    requires n < |found| && Picked(found, facts, picked) && Covered(found, n, facts + picked)
    ensures KeyOf(found[n]) in Keys(ToSet(facts + picked)) ==> Covered(found, n + 1, facts + picked)
    ensures KeyOf(found[n]) !in Keys(ToSet(facts + picked)) ==>
      && Picked(found, facts, picked + [found[n]]) && Covered(found, n + 1, facts + (picked + [found[n]]))
      && Keys(ToSet(facts + (picked + [found[n]]))) == Keys(ToSet(facts + picked)) + {KeyOf(found[n])}
  {
    hide ToSet, Keys, KeyOf, Grown;
    if KeyOf(found[n]) !in Keys(ToSet(facts + picked)) {
      GrownOne(facts, facts + picked, found[n]);
      assert facts + (picked + [found[n]]) == (facts + picked) + [found[n]];
    }
  }

  /** The facts of a round whose keys are not yet seen, one for each, unless that makes too many results. */
  method NewFacts(found: seq<Triple>, seen: set<SeenKey>, room: int, ghost facts: seq<Triple>) returns (delta: Option<seq<Triple>>)
    requires seen == Keys(ToSet(facts))
    ensures delta.Some? ==>
      && Picked(found, facts, delta.value) && Covered(found, |found|, facts + delta.value)
      && (|delta.value| > 0 ==> |delta.value| <= room)
    ensures delta.None? ==> exists picked :: Picked(found, facts, picked) && |picked| > room
  {
    hide Picked, Covered, ToSet, Keys, KeyOf;
    var picked: seq<Triple>, all := [], seen;
    PickNone(found, facts);
    for n := 0 to |found|
      invariant Picked(found, facts, picked) && Covered(found, n, facts + picked) && all == Keys(ToSet(facts + picked))
      invariant |picked| > 0 ==> |picked| <= room
    {
      PickOne(found, facts, picked, n);
      if KeyOf(found[n]) !in all {
        if |picked| >= room {
          assert |picked + [found[n]]| > room;
          return None;
        }
        all := all + {KeyOf(found[n])};
        picked := picked + [found[n]];
      }
    }
    return Some(picked);
  }

  lemma PickNone(found: seq<Triple>, facts: seq<Triple>)
    ensures Picked(found, facts, []) && Covered(found, 0, facts + []) && facts + [] == facts
  {
    assert facts + [] == facts;
    GrownNone(facts);
  }

  /** The least closed set above the base has more than `n` further facts. */
  ghost predicate MoreThan(ids: Ids, rules: seq<Rule>, negated: set<Triple>, base: set<Triple>, n: int) {
    |Least(ids, rules, negated, base)| - |base| > n
  }

  /** Some round, over the base facts and others of the least closed set once each, yields more than `n` facts,
      repetitions included. */
  ghost predicate LongRound(ids: Ids, rules: seq<Rule>, base: seq<Triple>, n: nat) {
    exists facts: seq<Triple> ::
      && Adds(base, facts) && Forced(ids, rules, {}, ToSet(base), ToSet(facts)) && RoundYield(ids, rules, |rules|, facts).Done?
      && |RoundYield(ids, rules, |rules|, facts).facts| > n
  }

  /** A round over these facts yields at most `n`, repetitions included. */
  ghost predicate ShortRound(ids: Ids, rules: seq<Rule>, facts: seq<Triple>, n: nat) {
    RoundYield(ids, rules, |rules|, facts).Done? && |RoundYield(ids, rules, |rules|, facts).facts| <= n
  }

  /** What each failure means. */
  ghost predicate Cause(ids: Ids, rules: seq<Rule>, base: seq<Triple>, limits: Limits, why: Failure) {
    match why
    case MaxResults => MoreThan(ids, rules, {}, ToSet(base), limits.results)
    case MaxIterations => MoreThan(ids, rules, {}, ToSet(base), limits.iterations - 1)
    case MaxDerivedFacts => LongRound(ids, rules, base, limits.derivedFacts)
    case NegatedClause => exists k :: 0 <= k < |rules| && rules[k].nots != []
    case BadHead => exists facts :: Forced(ids, rules, {}, ToSet(base), facts) && AnyHeadless(ids, rules, facts, {})
  }

  /** The base facts and others of the least closed set, with keys of their own. */
  ghost predicate Partial(ids: Ids, rules: seq<Rule>, base: seq<Triple>, facts: seq<Triple>) {
    Grown(base, facts) && Forced(ids, rules, {}, ToSet(base), ToSet(facts))
  }

  /** The facts picked from a round over partial facts, with them, are partial too. */
  lemma PartialGrows(ids: Ids, rules: seq<Rule>, base: seq<Triple>, facts: seq<Triple>, round: seq<Triple>, picked: seq<Triple>)
    requires Partial(ids, rules, base, facts) && Picked(round, facts, picked)
    requires forall t :: t in round ==> DerivedBy(ids, rules, ToSet(facts), {}, t)
    ensures Partial(ids, rules, base, facts + picked)
  {
    hide DerivedBy, Forced;
    GrownTrans(base, facts, facts + picked);
    ToSetAppend(facts, picked);
    InToSet(picked);
    hide ToSet, Grown;
    ForcedRound(ids, rules, {}, ToSet(base), ToSet(facts), ToSet(facts + picked));
  }

  lemma PartialMore(ids: Ids, rules: seq<Rule>, base: seq<Triple>, facts: seq<Triple>, n: int)
    requires Partial(ids, rules, base, facts) && |facts| - |base| > n
    ensures MoreThan(ids, rules, {}, ToSet(base), n)
  {
    hide Forced, FreshKeys, Least;
    ForcedLeast(ids, rules, {}, ToSet(base), ToSet(facts));
  }

  lemma LongCause(ids: Ids, rules: seq<Rule>, base: seq<Triple>, facts: seq<Triple>, limits: Limits)
    requires Partial(ids, rules, base, facts) && RoundYield(ids, rules, |rules|, facts).Done?
    requires |RoundYield(ids, rules, |rules|, facts).facts| > limits.derivedFacts
    ensures Cause(ids, rules, base, limits, MaxDerivedFacts)
  {
    hide Forced, FreshKeys, RoundYield, ToSet;
  }

  lemma RoundCause(ids: Ids, rules: seq<Rule>, base: seq<Triple>, facts: seq<Triple>, limits: Limits, why: Failure)
    requires Partial(ids, rules, base, facts) && (why == NegatedClause || why == BadHead)
    requires why == NegatedClause ==> exists k :: 0 <= k < |rules| && rules[k].nots != []
    requires why == BadHead ==> AnyHeadless(ids, rules, ToSet(facts), {})
    ensures Cause(ids, rules, base, limits, why)
  {
    hide Forced, FreshKeys, AnyHeadless, ToSet;
  }

  /** When nothing new is found the facts are closed, up to keys. */
  lemma NothingNew(ids: Ids, rules: seq<Rule>, facts: seq<Triple>, round: seq<Triple>)
    requires Covered(round, |round|, facts) && forall t :: t in round <==> DerivedBy(ids, rules, ToSet(facts), {}, t)
    ensures KeyClosed(ids, rules, {}, ToSet(facts))
  {
    hide DerivedBy, KeyOf, Keys, ToSet;
    forall t | DerivedBy(ids, rules, ToSet(facts), {}, t) ensures KeyOf(t) in Keys(ToSet(facts)) {
      assert t in round;
      var i :| 0 <= i < |round| && round[i] == t;
    }
  }

  /** One round: what it finds that is new is added, unless that is too much. */
  method OneRound(ids: Ids, rules: seq<Rule>, base: seq<Triple>, facts: seq<Triple>, seen: set<SeenKey>, baseCount: nat, limits: Limits)
    returns (e: Evaluation)
    requires Partial(ids, rules, base, facts) && seen == Keys(ToSet(facts)) && baseCount == |Keys(ToSet(base))|
    requires |facts| - |base| <= limits.results
    ensures e.Done? ==>
      && facts <= e.facts && Partial(ids, rules, base, e.facts) && |e.facts| - |base| <= limits.results
      && (e.facts == facts ==> KeyClosed(ids, rules, {}, ToSet(facts)) && !AnyHeadless(ids, rules, ToSet(facts), {}))
      && ShortRound(ids, rules, facts, limits.derivedFacts)
    ensures e.Failed? ==> e.why != MaxIterations && Cause(ids, rules, base, limits, e.why)
  {
    hide DerivedBy, AnyHeadless, KeyClosed, RoundYield, ToSet, Keys, KeyOf, FreshKeys, Forced, Cause, Picked, Covered;
    assert |seen| - baseCount == |facts| - |base|;
    hide Partial;
    var round := EvaluateIteration(ids, rules, facts);
    if round.Failed? {
      RoundCause(ids, rules, base, facts, limits, round.why);
      return round;
    }
    if |round.facts| > limits.derivedFacts {
      LongCause(ids, rules, base, facts, limits);
      return Failed(MaxDerivedFacts);
    }
    var delta := NewFacts(round.facts, seen, limits.results - (|seen| - baseCount), facts);
    if delta.None? {
      ghost var picked :| Picked(round.facts, facts, picked) && |picked| > limits.results - (|seen| - baseCount);
      PartialGrows(ids, rules, base, facts, round.facts, picked);
      PartialMore(ids, rules, base, facts + picked, limits.results);
      ResultsCause(ids, rules, base, limits);
      return Failed(MaxResults);
    }
    PartialGrows(ids, rules, base, facts, round.facts, delta.value);
    if delta.value == [] {
      assert facts + delta.value == facts;
      NothingNew(ids, rules, facts, round.facts);
    }
    return Done(facts + delta.value);
  }

  lemma ResultsCause(ids: Ids, rules: seq<Rule>, base: seq<Triple>, limits: Limits)
    requires MoreThan(ids, rules, {}, ToSet(base), limits.results)
    ensures Cause(ids, rules, base, limits, MaxResults)
  {}

  /** What a finished evaluation is: an outcome with no satisfied body left without a head. */
  ghost predicate Finished(ids: Ids, rules: seq<Rule>, base: seq<Triple>, facts: seq<Triple>) {
    Grown(base, facts) && Outcome(ids, rules, {}, ToSet(base), ToSet(facts)) && !AnyHeadless(ids, rules, ToSet(facts), {})
  }

  /**
   * Apply the rules until nothing new comes. On success the result is the base facts followed by facts of the least closed
   * set with new keys, closed up to keys and with no head that failed, at most `results` of them; where the program's values
   * are told apart it is the least closed set. It fails on `results` only when that set has more, on `iterations` only
   * when it has at least that many, and on `derivedFacts` only when a round yields more; on success
   * the last round, over all the facts, does not.
   */
  method EvaluateRecursiveRules(ids: Ids, rules: seq<Rule>, base: seq<Triple>, limits: Limits) returns (e: Evaluation)
    ensures e.Done? ==>
      && Finished(ids, rules, base, e.facts) && |e.facts| - |base| <= limits.results
      && ShortRound(ids, rules, e.facts, limits.derivedFacts)
    ensures e.Done? && ToldApart(Values(ids, rules, ToSet(base))) ==> ToSet(e.facts) == Least(ids, rules, {}, ToSet(base))
    ensures e.Failed? ==> Cause(ids, rules, base, limits, e.why)
  {
    hide DerivedBy, AnyHeadless, KeyClosed, ShortRound, Least, ToSet, Keys, Cause, Forced, FreshKeys, Values, ToldApart, KeyOf;
    var facts := base;
    var seen := set t | t in base :: KeyOf(t);
    KeysOfSeq(base, seen);
    StartsForced(ids, rules, ToSet(base));
    GrownNone(base);
    var baseCount := |seen|;
    var iteration := 0;
    while true
      invariant Partial(ids, rules, base, facts) && seen == Keys(ToSet(facts)) && iteration <= limits.iterations
      invariant iteration <= |facts| - |base| <= limits.results
      decreases limits.iterations - iteration
    {
      iteration := iteration + 1;
      if iteration > limits.iterations {
        PartialMore(ids, rules, base, facts, limits.iterations - 1);
        IterationsCause(ids, rules, base, limits);
        return Failed(MaxIterations);
      }
      var round := OneRound(ids, rules, base, facts, seen, baseCount, limits);
      if round.Failed? { return round; }
      if round.facts == facts {
        if ToldApart(Values(ids, rules, ToSet(base))) { OutcomeLeast(ids, rules, {}, ToSet(base), ToSet(facts)); }
        return Done(facts);
      }
      LongerPrefix(facts, round.facts);
      facts := round.facts;
      seen := set t | t in facts :: KeyOf(t);
      KeysOfSeq(facts, seen);
    }
  }

  lemma KeysOfSeq(facts: seq<Triple>, seen: set<SeenKey>)
    requires seen == set t | t in facts :: KeyOf(t)
    ensures seen == Keys(ToSet(facts))
  {
    hide KeyOf;
    InToSet(facts);
  }

  lemma StartsForced(ids: Ids, rules: seq<Rule>, base: set<Triple>)
    ensures Forced(ids, rules, {}, base, base)
  {}

  lemma LongerPrefix(a: seq<Triple>, b: seq<Triple>)
    requires a <= b && a != b
    ensures |a| < |b|
  {
    assert a == b[..|a|] && b[..|b|] == b;
  }

  lemma IterationsCause(ids: Ids, rules: seq<Rule>, base: seq<Triple>, limits: Limits)
    requires MoreThan(ids, rules, {}, ToSet(base), limits.iterations - 1)
    ensures Cause(ids, rules, base, limits, MaxIterations)
  {}
}
