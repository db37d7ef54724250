/** One stratum: positive rules to their fixpoint, then the mixed rules, repeated while that adds something. */
module Stratum {
  import opened Bytes
  import opened Datalog
  import opened Matcher
  import opened LeastModel
  import opened SeenFacts
  import opened Evaluator
  import opened Stratified

  ghost predicate Mixed(rules: seq<Rule>) { forall k :: 0 <= k < |rules| ==> rules[k].nots != [] }

  // ----- what failures mean -----

  /** The least model of the stratum has more than `n` facts above `lower`. */
  ghost predicate OverLimit(ids: Ids, rules: seq<Rule>, lower: set<Triple>, n: int) {
    |Least(ids, rules, lower, lower)| - |lower| > n
  }

  /** A round of the positive rules, over the facts below and others of the stratum's model once each, yields more than `n`. */
  ghost predicate Heavy(ids: Ids, positive: seq<Rule>, mixed: seq<Rule>, start: seq<Triple>, n: nat) {
    exists facts: seq<Triple> ::
      && Adds(start, facts) && Forced(ids, positive + mixed, ToSet(start), ToSet(start), ToSet(facts))
      && RoundYield(ids, positive, |positive|, facts).Done? && |RoundYield(ids, positive, |positive|, facts).facts| > n
  }

  /** A round of the positive rules over these facts, in some order, yields at most `n`; without rules there is none. */
  ghost predicate Short(ids: Ids, positive: seq<Rule>, facts: set<Triple>, n: nat) {
    positive == [] || exists found :: ToSet(found) == facts && ShortRound(ids, positive, found, n)
  }

  /** The last pass kept to the limit: a round of the positive rules, and then the mixed rules together. */
  ghost predicate LastPass(ids: Ids, positive: seq<Rule>, mixed: seq<Rule>, facts: seq<Triple>, n: nat) {
    exists known ::
      && known <= facts && RanAll(ids, mixed, |mixed|, ToSet(known), ToSet(facts))
      && Short(ids, positive, ToSet(known), n) && |facts| - |known| <= n
  }

  /** The rule was run in state `before`: a fact for every new key it derives there was added, and nothing else. */
  ghost predicate Ran(ids: Ids, r: Rule, before: set<Triple>, after: set<Triple>) {
    OnlyDerived(ids, r, before, after) && Yielded(ids, r, before, after) && FreshKeys(before, after)
  }

  /** Each state follows from the one before by the mixed rule of that position. */
  ghost predicate States(ids: Ids, mixed: seq<Rule>, ms: seq<set<Triple>>) {
    0 < |ms| <= |mixed| + 1 && forall k :: 0 <= k < |ms| - 1 ==> Ran(ids, mixed[k], ms[k], ms[k + 1])
  }

  /** The first `n` mixed rules were run one after the other. */
  ghost predicate RanAll(ids: Ids, mixed: seq<Rule>, n: nat, before: set<Triple>, after: set<Triple>) {
    exists ms :: States(ids, mixed, ms) && |ms| == n + 1 && ms[0] == before && ms[n] == after
  }

  /** From a state closed under the positive rules, up to keys, running mixed rules in turn adds more than `n` facts. */
  ghost predicate Bulky(ids: Ids, positive: seq<Rule>, mixed: seq<Rule>, lower: set<Triple>, n: nat) {
    exists before: set<Triple>, k, mid: set<Triple>, after: set<Triple> ::
      && Sound(ids, positive + mixed, lower, before) && KeyClosed(ids, positive, {}, before)
      && 0 <= k < |mixed| && RanAll(ids, mixed, k, before, mid) && OnlyDerived(ids, mixed[k], mid, after)
      && |after| - |before| > n
  }

  /**
   * What each failure of a stratum means. Its model is too large for `results`, of which `room` is left, or has at least
   * `iterations` facts; a round of the positive rules or a pass of the mixed ones yields more than `derivedFacts`; or a
   * positive rule has a satisfied body without a head.
   */
  ghost predicate Rightly(ids: Ids, positive: seq<Rule>, mixed: seq<Rule>, start: seq<Triple>, limits: Limits, room: int, why: Failure) {
    var all, lower := positive + mixed, ToSet(start);
    match why
    case MaxResults => OverLimit(ids, all, lower, room)
    case MaxIterations => OverLimit(ids, all, lower, limits.iterations - 1)
    case MaxDerivedFacts => Heavy(ids, positive, mixed, start, limits.derivedFacts) || Bulky(ids, positive, mixed, lower, limits.derivedFacts)
    case BadHead => exists facts :: Forced(ids, all, lower, lower, facts) && AnyHeadless(ids, positive, facts, {})
    case NegatedClause => false
  }

  lemma SoundOver(ids: Ids, rules: seq<Rule>, lower: set<Triple>, facts: set<Triple>, n: int)
    requires Sound(ids, rules, lower, facts) && |facts| - |lower| > n
    ensures OverLimit(ids, rules, lower, n)
  {
    hide Forced, Least;
    ForcedLeast(ids, rules, lower, lower, facts);
  }

  lemma GrownAdds(a: seq<Triple>, b: seq<Triple>)
    requires Grown(a, b)
    ensures Adds(a, b) && ToSet(a) <= ToSet(b) && FreshKeys(ToSet(a), ToSet(b)) && |a| <= |b|
  {
    hide ToSet, Keys, FreshKeys;
  }

  lemma GrownPrefix(a: seq<Triple>, b: seq<Triple>)
    requires Grown(a, b)
    ensures a <= b
  {
    hide ToSet, Keys, FreshKeys;
  }

  lemma AddsTrans(a: seq<Triple>, b: seq<Triple>, c: seq<Triple>)
    requires Adds(a, b) && Adds(b, c)
    ensures Adds(a, c)
  {}

  // ----- mixed rules -----

  /** Running a rule of the stratum in a sound state. */
  lemma SoundOne(ids: Ids, positive: seq<Rule>, mixed: seq<Rule>, k: nat, lower: set<Triple>, facts: set<Triple>, after: set<Triple>)
    requires NegatesLower(positive + mixed) && Sound(ids, positive + mixed, lower, facts) && k < |mixed|
    requires OnlyDerived(ids, mixed[k], facts, after)
    ensures Sound(ids, positive + mixed, lower, after) && AddsHeads(mixed, facts, after)
  {
    assert (positive + mixed)[|positive| + k] == mixed[k];
    SoundMixed(ids, positive + mixed, |positive| + k, lower, facts, facts, after);
    forall t: Triple | t in after && t !in facts ensures t.attribute in HeadAttributes(mixed) {
      HeadAttribute(ids, mixed[k], facts, facts, t);
    }
  }

  /** Running mixed rules in turn keeps the state sound, adds only their heads, and leaves each of them applied. */
  lemma RanAllSound(ids: Ids, positive: seq<Rule>, mixed: seq<Rule>, n: nat, lower: set<Triple>, before: set<Triple>, after: set<Triple>)
    requires NegatesLower(positive + mixed) && Sound(ids, positive + mixed, lower, before) && RanAll(ids, mixed, n, before, after)
    ensures n <= |mixed| && Sound(ids, positive + mixed, lower, after) && AddsHeads(mixed, before, after)
    ensures forall k :: 0 <= k < n ==> Applied(ids, mixed[k], before, after)
  {
    hide States, Sound, AddsHeads, Applied, NegatesLower;
    var ms :| States(ids, mixed, ms) && |ms| == n + 1 && ms[0] == before && ms[n] == after;
    StatesShort(ids, mixed, ms);
    StatesSound(ids, positive, mixed, lower, ms, n);
  }

  lemma StatesShort(ids: Ids, mixed: seq<Rule>, ms: seq<set<Triple>>)
    requires States(ids, mixed, ms)
    ensures 0 < |ms| <= |mixed| + 1
  {}

  lemma {:induction false} StatesSound(ids: Ids, positive: seq<Rule>, mixed: seq<Rule>, lower: set<Triple>, ms: seq<set<Triple>>, n: nat)
    requires NegatesLower(positive + mixed) && States(ids, mixed, ms) && n < |ms| && Sound(ids, positive + mixed, lower, ms[0])
    ensures Sound(ids, positive + mixed, lower, ms[n]) && AddsHeads(mixed, ms[0], ms[n])
    ensures forall k :: 0 <= k < n ==> Applied(ids, mixed[k], ms[0], ms[n])
  {
    hide Sound, Derives, NegatesLower, HeadAttributes, Yielded, FreshKeys;
    if n > 0 {
      var before, mid, after := ms[0], ms[n - 1], ms[n];
      assert Ran(ids, mixed[n - 1], ms[n - 1], ms[n - 1 + 1]);
      StatesSound(ids, positive, mixed, lower, ms, n - 1);
      SoundOne(ids, positive, mixed, n - 1, lower, mid, after);
      assert Applied(ids, mixed[n - 1], before, after) by { assert before <= mid <= after; }
      hide Applied;
      forall k | 0 <= k < n ensures Applied(ids, mixed[k], before, after) {
        if k < n - 1 { AppliedLater(ids, mixed[k], before, mid, after); }
      }
    }
  }

  lemma AppliedLater(ids: Ids, r: Rule, before: set<Triple>, after: set<Triple>, later: set<Triple>)
    requires Applied(ids, r, before, after) && after <= later
    ensures Applied(ids, r, before, later)
  {
    hide Derives, KeyOf, Keys;
    KeysRise(after, later);
    var mid: set<Triple> :| before <= mid <= after && Yielded(ids, r, mid, after);
    assert Yielded(ids, r, mid, later);
  }

  lemma RanNext(ids: Ids, mixed: seq<Rule>, n: nat, before: set<Triple>, mid: set<Triple>, after: set<Triple>)
    requires n < |mixed| && RanAll(ids, mixed, n, before, mid) && Ran(ids, mixed[n], mid, after)
    ensures RanAll(ids, mixed, n + 1, before, after)
  {
    var ms :| States(ids, mixed, ms) && |ms| == n + 1 && ms[0] == before && ms[n] == mid;
    var all := ms + [after];
    forall k | 0 <= k < |all| - 1 ensures Ran(ids, mixed[k], all[k], all[k + 1]) {
      if k < n { assert all[k] == ms[k] && all[k + 1] == ms[k + 1]; }
    }
    assert States(ids, mixed, all);
  }

  lemma RanNone(ids: Ids, mixed: seq<Rule>, before: set<Triple>)
    ensures RanAll(ids, mixed, 0, before, before)
  {
    assert States(ids, mixed, [before]);
  }

  /** All mixed rules of the stratum once, one after the other. */
  method EvaluateMixedRules(ids: Ids, ghost positive: seq<Rule>, mixed: seq<Rule>, base: seq<Triple>, limits: Limits, total: nat,
                            ghost start: seq<Triple>)
    returns (e: Evaluation)
    requires Mixed(mixed) && NegatesLower(positive + mixed) && total <= limits.results
    requires Sound(ids, positive + mixed, ToSet(start), ToSet(base)) && KeyClosed(ids, positive, {}, ToSet(base))
    ensures e.Done? ==>
      && Grown(base, e.facts) && RanAll(ids, mixed, |mixed|, ToSet(base), ToSet(e.facts))
      && total + (|e.facts| - |base|) <= limits.results && |e.facts| - |base| <= limits.derivedFacts
    ensures e.Failed? ==>
      Rightly(ids, positive, mixed, start, limits, limits.results - total + |ToSet(base)| - |ToSet(start)|, e.why)
  {
    var facts := base;
    hide Sound, KeyClosed, ToSet, NegatesLower, Rightly, Ran, RanAll, OnlyDerived, Derives, Yielded, Grown;
    RanNone(ids, mixed, ToSet(base));
    GrownNone(base);
    for n := 0 to |mixed|
      invariant Grown(base, facts) && |base| <= |facts| && RanAll(ids, mixed, n, ToSet(base), ToSet(facts))
      invariant total + (|facts| - |base|) <= limits.results && |facts| - |base| <= limits.derivedFacts
    {
      var one := EvaluateMixedRule(ids, mixed[n], facts, limits, |facts| - |base|, total + (|facts| - |base|));
      GrownAdds(base, facts);
      if one.Failed? {
        MixedFails(ids, positive, mixed, n, start, base, facts, limits, total, one.why);
        return one;
      }
      GrownAdds(facts, one.facts);
      RanHere(ids, mixed[n], ToSet(facts), ToSet(one.facts));
      RanNext(ids, mixed, n, ToSet(base), ToSet(facts), ToSet(one.facts));
      GrownTrans(base, facts, one.facts);
      facts := one.facts;
    }
    return Done(facts);
  }

  lemma RanHere(ids: Ids, r: Rule, before: set<Triple>, after: set<Triple>)
    requires OnlyDerived(ids, r, before, after) && Yielded(ids, r, before, after) && FreshKeys(before, after)
    ensures Ran(ids, r, before, after)
  {}

  ghost predicate TooMuch(base: seq<Triple>, facts: seq<Triple>, after: set<Triple>, limits: Limits, total: nat, why: Failure) {
    var added := |after| - |ToSet(facts)| + (|facts| - |base|);
    if why == MaxResults then added + total > limits.results else added > limits.derivedFacts
  }

  /** A mixed rule that yields too much is a failure of the stratum. */
  lemma MixedFails(ids: Ids, positive: seq<Rule>, mixed: seq<Rule>, n: nat, start: seq<Triple>, base: seq<Triple>, facts: seq<Triple>,
                   limits: Limits, total: nat, why: Failure)
    requires NegatesLower(positive + mixed) && n < |mixed|
    requires Sound(ids, positive + mixed, ToSet(start), ToSet(base)) && KeyClosed(ids, positive, {}, ToSet(base))
    requires Adds(base, facts) && RanAll(ids, mixed, n, ToSet(base), ToSet(facts))
    requires why == MaxResults || why == MaxDerivedFacts
    requires exists after :: OnlyDerived(ids, mixed[n], ToSet(facts), after) && TooMuch(base, facts, after, limits, total, why)
    ensures Rightly(ids, positive, mixed, start, limits, limits.results - total + |ToSet(base)| - |ToSet(start)|, why)
  {
    hide Sound, KeyClosed, ToSet, NegatesLower, OnlyDerived, RanAll, OverLimit, Bulky, Heavy;
    var after :| OnlyDerived(ids, mixed[n], ToSet(facts), after) && TooMuch(base, facts, after, limits, total, why);
    var room := limits.results - total + |ToSet(base)| - |ToSet(start)|;
    if why == MaxResults {
      RanAllSound(ids, positive, mixed, n, ToSet(start), ToSet(base), ToSet(facts));
      SoundOne(ids, positive, mixed, n, ToSet(start), ToSet(facts), after);
      SoundOver(ids, positive + mixed, ToSet(start), after, room);
    } else {
      BulkyRun(ids, positive, mixed, n, ToSet(start), ToSet(base), ToSet(facts), after, limits.derivedFacts);
    }
  }

  lemma BulkyRun(ids: Ids, positive: seq<Rule>, mixed: seq<Rule>, k: nat, lower: set<Triple>, before: set<Triple>, mid: set<Triple>,
                 after: set<Triple>, n: nat)
    requires Sound(ids, positive + mixed, lower, before) && KeyClosed(ids, positive, {}, before)
    requires k < |mixed| && RanAll(ids, mixed, k, before, mid) && OnlyDerived(ids, mixed[k], mid, after) && |after| - |before| > n
    ensures Bulky(ids, positive, mixed, lower, n)
  {
    hide Sound, KeyClosed, RanAll, OnlyDerived;
  }

  // ----- positive rules -----

  /** What the positive rules force over a sound state is forced over the stratum's base. */
  lemma ForcedAll(ids: Ids, positive: seq<Rule>, mixed: seq<Rule>, lower: set<Triple>, facts: set<Triple>, more: set<Triple>)
    requires Positive(positive) && Sound(ids, positive + mixed, lower, facts) && Forced(ids, positive, {}, facts, more)
    ensures Forced(ids, positive + mixed, lower, lower, more)
  {
    hide Closed;
    forall c: set<Triple> | lower <= c && Closed(ids, positive + mixed, lower, c) ensures more <= c {
      ClosedPositive(ids, positive, mixed, lower, c);
      assert facts <= c;
    }
  }

  /** What is too much above a state is too much above the stratum's base. */
  lemma MoreOver(ids: Ids, positive: seq<Rule>, mixed: seq<Rule>, lower: set<Triple>, facts: set<Triple>, n: int)
    requires Positive(positive) && Sound(ids, positive + mixed, lower, facts) && MoreThan(ids, positive, {}, facts, n)
    ensures OverLimit(ids, positive + mixed, lower, n + |facts| - |lower|)
  {
    var more := Least(ids, positive, {}, facts);
    assert IsLeast(ids, positive, {}, facts, more);
    hide Least, Sound, Closed;
    ForcedAll(ids, positive, mixed, lower, facts, more);
    ForcedLeast(ids, positive + mixed, lower, lower, more);
  }

  lemma LongHeavy(ids: Ids, positive: seq<Rule>, mixed: seq<Rule>, start: seq<Triple>, base: seq<Triple>, n: nat)
    requires Positive(positive) && Sound(ids, positive + mixed, ToSet(start), ToSet(base)) && Adds(start, base)
    requires LongRound(ids, positive, base, n)
    ensures Heavy(ids, positive, mixed, start, n)
  {
    hide Sound, Forced, RoundYield, ToSet;
    var facts: seq<Triple> :|
      && Adds(base, facts) && Forced(ids, positive, {}, ToSet(base), ToSet(facts)) && RoundYield(ids, positive, |positive|, facts).Done?
      && |RoundYield(ids, positive, |positive|, facts).facts| > n;
    ForcedAll(ids, positive, mixed, ToSet(start), ToSet(base), ToSet(facts));
    AddsTrans(start, base, facts);
  }

  /** A failure of the positive rules is one of the stratum. */
  lemma PositiveFails(ids: Ids, positive: seq<Rule>, mixed: seq<Rule>, start: seq<Triple>, base: seq<Triple>, limits: Limits,
                      total: nat, why: Failure)
    requires Positive(positive) && Sound(ids, positive + mixed, ToSet(start), ToSet(base)) && Adds(start, base)
    requires Cause(ids, positive, base, limits, why)
    ensures Rightly(ids, positive, mixed, start, limits, limits.results - total + |ToSet(base)| - |ToSet(start)|, why)
  {
    var lower, facts := ToSet(start), ToSet(base);
    hide ToSet, Least, Heavy, LongRound, RoundYield;
    match why
    case MaxResults => MoreOver(ids, positive, mixed, lower, facts, limits.results);
    case MaxIterations =>
      MoreOver(ids, positive, mixed, lower, facts, limits.iterations - 1);
      SubsetSize(lower, facts);
    case MaxDerivedFacts => LongHeavy(ids, positive, mixed, start, base, limits.derivedFacts);
    case BadHead =>
      hide Sound, Forced, AnyHeadless;
      var more :| Forced(ids, positive, {}, facts, more) && AnyHeadless(ids, positive, more, {});
      ForcedAll(ids, positive, mixed, lower, facts, more);
    case NegatedClause =>
  }

  /** The positive rules to their fixpoint, as the first half of a pass. */
  method EvaluatePositiveRules(ids: Ids, positive: seq<Rule>, ghost mixed: seq<Rule>, base: seq<Triple>, limits: Limits, total: nat,
                               ghost start: seq<Triple>)
    returns (e: Evaluation)
    requires Positive(positive) && total <= limits.results && Sound(ids, positive + mixed, ToSet(start), ToSet(base)) && Adds(start, base)
    ensures e.Done? ==>
      && Grown(base, e.facts) && Sound(ids, positive + mixed, ToSet(start), ToSet(e.facts)) && KeyClosed(ids, positive, {}, ToSet(e.facts))
      && !AnyHeadless(ids, positive, ToSet(e.facts), {}) && total + (|e.facts| - |base|) <= limits.results
      && Short(ids, positive, ToSet(e.facts), limits.derivedFacts)
    ensures e.Failed? ==>
      Rightly(ids, positive, mixed, start, limits, limits.results - total + |ToSet(base)| - |ToSet(start)|, e.why)
  {
    hide Sound, KeyClosed, ToSet, Forced, Positive, Rightly, Cause, Least, Grown, AnyHeadless, Outcome, Keys, FreshKeys, ToldApart, Values, ShortRound;
    if positive == [] {
      NothingClosed(ids, ToSet(base));
      GrownNone(base);
      return Done(base);
    }
    var sub := EvaluateRecursiveRules(ids, positive, base, limits);
    if sub.Failed? {
      PositiveFails(ids, positive, mixed, start, base, limits, total, sub.why);
      return sub;
    }
    PositiveSound(ids, positive, mixed, ToSet(start), ToSet(base), ToSet(sub.facts));
    var all := LoadNew(base, sub.facts, limits.results - total);
    if all.None? {
      GrownAdds(base, sub.facts);
      ResultsRightly(ids, positive, mixed, start, ToSet(sub.facts), limits, limits.results - total + |ToSet(base)| - |ToSet(start)|);
      return Failed(MaxResults);
    }
    return Done(all.value);
  }

  lemma PositiveSound(ids: Ids, positive: seq<Rule>, mixed: seq<Rule>, lower: set<Triple>, base: set<Triple>, facts: set<Triple>)
    requires Positive(positive) && Sound(ids, positive + mixed, lower, base) && Outcome(ids, positive, {}, base, facts)
    ensures base <= facts && Sound(ids, positive + mixed, lower, facts) && KeyClosed(ids, positive, {}, facts)
  {
    SoundPositive(ids, positive, mixed, lower, base, facts);
  }

  /** Append the facts whose keys are not yet there, unless they are more than `room`. */
  method LoadNew(base: seq<Triple>, found: seq<Triple>, room: nat) returns (r: Option<seq<Triple>>)
    requires Grown(base, found)
    ensures r.Some? ==> Grown(base, r.value) && ToSet(r.value) == ToSet(found) && |r.value| - |base| <= room
    ensures r.None? ==> |found| - |base| > room
  {
    hide ToSet, Keys, KeyOf, Grown, Picked, Covered;
    var existing := set t | t in base :: KeyOf(t);
    KeysOfSeq(base, existing);
    var delta := NewFacts(found, existing, room, base);
    if delta.None? {
      ghost var picked :| Picked(found, base, picked) && |picked| > room;
      PickedFew(base, found, picked);
      return None;
    }
    PickedAll(base, found, delta.value);
    return Some(base + delta.value);
  }

  /** What can be picked is no more than what was found beyond the base. */
  lemma PickedFew(base: seq<Triple>, found: seq<Triple>, picked: seq<Triple>)
    requires Grown(base, found) && Picked(found, base, picked)
    ensures |picked| <= |found| - |base|
  {
    ToSetAppend(base, picked);
    InToSet(picked);
    InToSet(found);
    assert ToSet(base + picked) <= ToSet(found);
    SubsetSize(ToSet(base + picked), ToSet(found));
  }

  /** Picking a fact for every key picks all that was found. */
  lemma PickedAll(base: seq<Triple>, found: seq<Triple>, picked: seq<Triple>)
    requires Grown(base, found) && Picked(found, base, picked) && Covered(found, |found|, base + picked)
    ensures Grown(base, base + picked) && ToSet(base + picked) == ToSet(found)
  {
    hide KeyOf;
    ToSetAppend(base, picked);
    InToSet(picked);
    InToSet(found);
    assert ToSet(base + picked) <= ToSet(found);
    forall t | t in ToSet(found) ensures t in ToSet(base + picked) {
      var i :| 0 <= i < |found| && found[i] == t;
      assert KeyOf(t) in Keys(ToSet(base + picked));
      var u :| u in ToSet(base + picked) && KeyOf(u) == KeyOf(t);
    }
  }

  lemma NothingClosed(ids: Ids, facts: set<Triple>)
    ensures KeyClosed(ids, [], {}, facts) && !AnyHeadless(ids, [], facts, {})
  {}

  lemma ResultsRightly(ids: Ids, positive: seq<Rule>, mixed: seq<Rule>, start: seq<Triple>, facts: set<Triple>, limits: Limits, room: int)
    requires Sound(ids, positive + mixed, ToSet(start), facts) && |facts| - |ToSet(start)| > room
    ensures Rightly(ids, positive, mixed, start, limits, room, MaxResults)
  {
    hide Sound, ToSet, Least;
    SoundOver(ids, positive + mixed, ToSet(start), facts, room);
  }

  // ----- the stratum -----

  /** The facts of a stratum under evaluation. */
  ghost predicate Evaluating(ids: Ids, rules: seq<Rule>, start: seq<Triple>, facts: seq<Triple>) {
    Grown(start, facts) && Sound(ids, rules, ToSet(start), ToSet(facts))
  }

  /** What a finished stratum is: an outcome over the facts below it, with no positive body left without a head. */
  ghost predicate StratumDone(ids: Ids, positive: seq<Rule>, mixed: seq<Rule>, base: seq<Triple>, facts: seq<Triple>) {
    && Grown(base, facts) && Outcome(ids, positive + mixed, ToSet(base), ToSet(base), ToSet(facts))
    && !AnyHeadless(ids, positive, ToSet(facts), {})
  }

  /**
   * One stratum: positive rules to their fixpoint, then the mixed rules, repeated while a pass adds something
   * and some rule reads it. On success the facts are an outcome of the stratum over the base, its least model where the
   * values are told apart; it fails on `results` only when that model, with what was derived before, has more, and on
   * anything else only for cause.
   */
  method EvaluateStratum(ids: Ids, positive: seq<Rule>, mixed: seq<Rule>, repeats: bool, base: seq<Triple>, limits: Limits, total: nat)
    returns (e: Evaluation)
    requires Positive(positive) && Mixed(mixed) && NegatesLower(positive + mixed) && total <= limits.results
    requires !repeats ==> ReadsNoMixed(positive + mixed, mixed)
    ensures e.Done? ==>
      && StratumDone(ids, positive, mixed, base, e.facts) && total + (|e.facts| - |base|) <= limits.results
      && LastPass(ids, positive, mixed, e.facts, limits.derivedFacts)
    ensures e.Done? && ToldApart(Values(ids, positive + mixed, ToSet(base))) ==>
      ToSet(e.facts) == Least(ids, positive + mixed, ToSet(base), ToSet(base))
    ensures e.Failed? ==> Rightly(ids, positive, mixed, base, limits, limits.results - total, e.why)
  {
    ghost var all := positive + mixed;
    EvaluationStarts(ids, all, base);
    hide KeyClosed, ToSet, RanAll, NegatesLower, ReadsNoMixed, Positive, Mixed, Rightly, Sound, Least, Grown, AnyHeadless, ToldApart, Values, Outcome, Short;
    var facts, pass := base, 0;
    while true
      invariant Evaluating(ids, all, base, facts) && |base| <= |facts| && total + (|facts| - |base|) <= limits.results
      invariant pass <= limits.iterations && pass <= |facts| - |base|
      decreases limits.iterations - pass
    {
      pass := pass + 1;
      GrownAdds(base, facts);
      if pass > limits.iterations {
        PassesRightly(ids, positive, mixed, base, facts, limits, limits.results - total);
        return Failed(MaxIterations);
      }
      var first := EvaluatePositiveRules(ids, positive, mixed, facts, limits, total + (|facts| - |base|), base);
      if first.Failed? { return first; }
      var known := first.facts;
      GrownAdds(facts, known);
      GrownTrans(base, facts, known);
      GrownAdds(base, known);
      var second := EvaluateMixedRules(ids, positive, mixed, known, limits, total + (|known| - |base|), base);
      if second.Failed? { return second; }
      GrownAdds(known, second.facts);
      GrownTrans(base, known, second.facts);
      GrownAdds(base, second.facts);
      RanAllSound(ids, positive, mixed, |mixed|, ToSet(base), ToSet(known), ToSet(second.facts));
      facts := second.facts;
      if !repeats || |facts| == |known| {
        if |facts| == |known| { assert facts == known; }
        PassDone(ids, positive, mixed, base, known, facts);
        GrownPrefix(known, facts);
        if ToldApart(Values(ids, all, ToSet(base))) { OutcomeLeast(ids, all, ToSet(base), ToSet(base), ToSet(facts)); }
        return Done(facts);
      }
    }
  }

  lemma EvaluationStarts(ids: Ids, rules: seq<Rule>, base: seq<Triple>)
    ensures Evaluating(ids, rules, base, base)
  {
    GrownNone(base);
  }

  lemma PassesRightly(ids: Ids, positive: seq<Rule>, mixed: seq<Rule>, start: seq<Triple>, facts: seq<Triple>, limits: Limits, room: int)
    requires Evaluating(ids, positive + mixed, start, facts) && |facts| - |start| >= limits.iterations
    ensures Rightly(ids, positive, mixed, start, limits, room, MaxIterations)
  {
    hide Sound, ToSet, Least, FreshKeys;
    SoundOver(ids, positive + mixed, ToSet(start), ToSet(facts), limits.iterations - 1);
  }

  /** A last pass leaves an outcome of the stratum. */
  lemma PassDone(ids: Ids, positive: seq<Rule>, mixed: seq<Rule>, base: seq<Triple>, known: seq<Triple>, facts: seq<Triple>)
    requires Positive(positive) && NegatesLower(positive + mixed) && Grown(base, facts) && Grown(known, facts)
    requires Sound(ids, positive + mixed, ToSet(base), ToSet(known)) && Sound(ids, positive + mixed, ToSet(base), ToSet(facts))
    requires AddsHeads(mixed, ToSet(known), ToSet(facts)) && KeyClosed(ids, positive, {}, ToSet(known))
    requires forall k :: 0 <= k < |mixed| ==> Applied(ids, mixed[k], ToSet(known), ToSet(facts))
    requires ToSet(known) == ToSet(facts) || ReadsNoMixed(positive + mixed, mixed)
    requires !AnyHeadless(ids, positive, ToSet(known), {})
    ensures StratumDone(ids, positive, mixed, base, facts)
  {
    hide ToSet, Keys, KeyOf, FreshKeys, KeyClosed, Applied, NegatesLower, ReadsNoMixed, AddsHeads, Forced, AnyHeadless;
    PassCloses(ids, positive, mixed, ToSet(base), ToSet(known), ToSet(facts));
    HeadlessUnread(ids, positive, mixed, ToSet(known), ToSet(facts));
  }
}
