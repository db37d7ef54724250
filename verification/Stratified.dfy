/** Stratified evaluation: each stratum's least model, with positive and mixed rules run in turn. */
module Stratified {
  import opened Bytes
  import opened Facts
  import opened Datalog
  import opened Matcher
  import opened LeastModel
  import opened SeenFacts
  import opened Evaluator

  // ----- what a stratum may read -----

  function HeadAttributes(rules: seq<Rule>): set<Text> { set k | 0 <= k < |rules| :: AttributeOf(rules[k].pred) }

  /** The negations of these rules read nothing that the rules themselves derive. */
  ghost predicate NegatesLower(rules: seq<Rule>) {
    forall k, i :: 0 <= k < |rules| && 0 <= i < |rules[k].nots| ==> Reads(rules[k].nots[i].body) !! HeadAttributes(rules)
  }

  /** Only facts under the rules' own heads have been added. */
  ghost predicate AddsHeads(rules: seq<Rule>, before: set<Triple>, after: set<Triple>) {
    before <= after && forall t: Triple :: t in after && t !in before ==> t.attribute in HeadAttributes(rules)
  }

  /** A state reached while the stratum over `lower` is evaluated. */
  ghost predicate Sound(ids: Ids, rules: seq<Rule>, lower: set<Triple>, facts: set<Triple>) {
    Forced(ids, rules, lower, lower, facts) && AddsHeads(rules, lower, facts)
  }

  lemma AddsAgree(rules: seq<Rule>, before: set<Triple>, after: set<Triple>, attributes: set<Text>)
    requires AddsHeads(rules, before, after) && attributes !! HeadAttributes(rules)
    ensures AgreeOn(before, after, attributes)
  {}

  lemma HeadAttribute(ids: Ids, r: Rule, facts: set<Triple>, negated: set<Triple>, t: Triple)
    requires Derives(ids, r, facts, negated, t)
    ensures t.attribute == AttributeOf(r.pred)
  {}

  /** Negations read the same in any state of the stratum as below it. */
  lemma {:induction false} DerivesLower(ids: Ids, rules: seq<Rule>, k: nat, lower: set<Triple>, now: set<Triple>, facts: set<Triple>, t: Triple)
    requires NegatesLower(rules) && AddsHeads(rules, lower, now) && k < |rules|
    ensures Derives(ids, rules[k], facts, now, t) <==> Derives(ids, rules[k], facts, lower, t)
  {
    var r := rules[k];
    forall b ensures BodyHolds(ids, r, facts, now, b) <==> BodyHolds(ids, r, facts, lower, b) {
      forall i | 0 <= i < |r.nots| ensures AgreeOn(now, lower, Reads(r.nots[i].body)) {
        AddsAgree(rules, lower, now, Reads(r.nots[i].body));
      }
      BodyReads(ids, r, facts, facts, now, lower, b);
    }
  }

  /** Positive rules do not care where negations are read. */
  lemma DerivesPositive(ids: Ids, r: Rule, facts: set<Triple>, negated: set<Triple>, t: Triple)
    requires r.nots == []
    ensures Derives(ids, r, facts, {}, t) <==> Derives(ids, r, facts, negated, t)
  {
    forall b ensures BodyHolds(ids, r, facts, {}, b) <==> BodyHolds(ids, r, facts, negated, b) {}
  }

  ghost predicate Positive(rules: seq<Rule>) { forall k :: 0 <= k < |rules| ==> rules[k].nots == [] }

  lemma ClosedPositive(ids: Ids, positive: seq<Rule>, mixed: seq<Rule>, lower: set<Triple>, c: set<Triple>)
    requires Positive(positive) && Closed(ids, positive + mixed, lower, c)
    ensures Closed(ids, positive, {}, c)
  {
    var all := positive + mixed;
    forall t | DerivedBy(ids, positive, c, {}, t) ensures t in c {
      var k :| 0 <= k < |positive| && Derives(ids, positive[k], c, {}, t);
      DerivesPositive(ids, positive[k], c, lower, t);
      assert all[k] == positive[k];
      assert DerivedBy(ids, all, c, lower, t);
    }
  }

  // ----- each step of a pass stays sound -----

  /** The positive fixpoint only adds facts that some positive rule heads. */
  lemma LeastAddsHeads(ids: Ids, positive: seq<Rule>, facts: set<Triple>, after: set<Triple>)
    requires IsLeast(ids, positive, {}, facts, after)
    ensures AddsHeads(positive, facts, after)
  {
    var c := set t | t in after && (t in facts || t.attribute in HeadAttributes(positive));
    forall t | DerivedBy(ids, positive, c, {}, t) ensures t in c {
      DerivedByMore(ids, positive, c, after, {}, t);
      var k :| 0 <= k < |positive| && Derives(ids, positive[k], c, {}, t);
      HeadAttribute(ids, positive[k], c, {}, t);
    }
    assert Closed(ids, positive, {}, c);
    assert after <= c;
  }

  lemma HeadsOfAll(positive: seq<Rule>, mixed: seq<Rule>)
    ensures HeadAttributes(positive + mixed) == HeadAttributes(positive) + HeadAttributes(mixed)
  {
    var all := positive + mixed;
    forall k | 0 <= k < |positive| ensures AttributeOf(positive[k].pred) in HeadAttributes(all) { assert all[k] == positive[k]; }
    forall k | 0 <= k < |mixed| ensures AttributeOf(mixed[k].pred) in HeadAttributes(all) { assert all[|positive| + k] == mixed[k]; }
  }

  lemma SoundPositive(ids: Ids, positive: seq<Rule>, mixed: seq<Rule>, lower: set<Triple>, facts: set<Triple>, after: set<Triple>)
    requires Positive(positive) && Sound(ids, positive + mixed, lower, facts) && facts <= after && Forced(ids, positive, {}, facts, after)
    ensures Sound(ids, positive + mixed, lower, after)
  {
    var all := positive + mixed;
    ForcedLeast(ids, positive, {}, facts, after);
    LeastAddsHeads(ids, positive, facts, Least(ids, positive, {}, facts));
    HeadsOfAll(positive, mixed);
    hide Closed, Least;
    forall c: set<Triple> | lower <= c && Closed(ids, all, lower, c) ensures after <= c {
      ClosedPositive(ids, positive, mixed, lower, c);
      assert facts <= c;
    }
  }

  /** So does whatever one rule derives, its negations read in the current state. */
  lemma SoundMixed(ids: Ids, rules: seq<Rule>, k: nat, lower: set<Triple>, facts: set<Triple>, more: set<Triple>, after: set<Triple>)
    requires NegatesLower(rules) && Sound(ids, rules, lower, facts) && Sound(ids, rules, lower, more) && k < |rules|
    requires more <= after && forall t :: t in after ==> t in more || Derives(ids, rules[k], facts, facts, t)
    requires facts <= more
    ensures Sound(ids, rules, lower, after)
  {
    forall t | t in after ensures t in more || (DerivedBy(ids, rules, more, lower, t) && t.attribute in HeadAttributes(rules)) {
      if t !in more {
        DerivesLower(ids, rules, k, lower, facts, facts, t);
        DerivesMore(ids, rules[k], facts, more, lower, t);
        HeadAttribute(ids, rules[k], facts, facts, t);
      }
    }
    hide DerivedBy;
    ForcedRound(ids, rules, lower, lower, more, after);
  }

  // ----- when a pass may stop -----

  /** The rule was run in some state between the two, and the keys of all it derived are there. */
  ghost predicate Applied(ids: Ids, r: Rule, before: set<Triple>, after: set<Triple>) {
    exists mid: set<Triple> :: before <= mid <= after && Yielded(ids, r, mid, after)
  }

  /** Whatever the rule derives in state `mid` has a key that is there after. */
  ghost predicate Yielded(ids: Ids, r: Rule, mid: set<Triple>, after: set<Triple>) {
    forall t :: Derives(ids, r, mid, mid, t) ==> KeyOf(t) in Keys(after)
  }

  lemma KeysRise(before: set<Triple>, after: set<Triple>)
    requires before <= after
    ensures Keys(before) <= Keys(after)
  {
    hide KeyOf;
  }

  /** No body of the stratum reads what its mixed rules derive. */
  ghost predicate ReadsNoMixed(rules: seq<Rule>, mixed: seq<Rule>) {
    forall k :: 0 <= k < |rules| ==> Reads(rules[k].body) !! HeadAttributes(mixed)
  }

  /** A pass is a joint fixpoint when it added nothing after the positive rules, or when nothing reads what it added. */
  lemma {:induction false} PassCloses(ids: Ids, positive: seq<Rule>, mixed: seq<Rule>, lower: set<Triple>, before: set<Triple>, after: set<Triple>)
    requires Positive(positive) && NegatesLower(positive + mixed)
    requires AddsHeads(positive + mixed, lower, before) && AddsHeads(mixed, before, after)
    requires KeyClosed(ids, positive, {}, before) && forall k :: 0 <= k < |mixed| ==> Applied(ids, mixed[k], before, after)
    requires before == after || ReadsNoMixed(positive + mixed, mixed)
    ensures KeyClosed(ids, positive + mixed, lower, after)
  {
    hide KeyOf, Keys;
    var all := positive + mixed;
    KeysRise(before, after);
    forall t | DerivedBy(ids, all, after, lower, t) ensures KeyOf(t) in Keys(after) {
      var k :| 0 <= k < |all| && Derives(ids, all[k], after, lower, t);
      if k < |positive| {
        DerivesUnread(ids, all, mixed, k, before, after, lower, t);
        DerivesPositive(ids, all[k], before, lower, t);
        assert DerivedBy(ids, positive, before, {}, t) by { assert positive[k] == all[k]; }
      } else {
        var r := mixed[k - |positive|];
        var mid: set<Triple> :| before <= mid <= after && Yielded(ids, r, mid, after);
        DerivesUnread(ids, all, mixed, k, mid, after, lower, t);
        HeadsOfAll(positive, mixed);
        DerivesLower(ids, all, k, lower, mid, mid, t);
        assert all[k] == r;
      }
    }
  }

  /** A rule derives the same before and after facts it does not read were added. */
  lemma DerivesUnread(ids: Ids, rules: seq<Rule>, mixed: seq<Rule>, k: nat, mid: set<Triple>, after: set<Triple>,
                      lower: set<Triple>, t: Triple)
    requires k < |rules| && AddsHeads(mixed, mid, after) && (mid == after || ReadsNoMixed(rules, mixed))
    requires Derives(ids, rules[k], after, lower, t)
    ensures Derives(ids, rules[k], mid, lower, t)
  {
    if mid != after {
      var r := rules[k];
      AddsAgree(mixed, mid, after, Reads(r.body));
      var b :| BodyHolds(ids, r, after, lower, b) && HeadOf(ids, r, b) == Some(t);
      BodyReads(ids, r, after, mid, lower, lower, b);
    }
  }

  /** Facts that no positive body reads give none of them a new binding. */
  lemma HeadlessUnread(ids: Ids, positive: seq<Rule>, mixed: seq<Rule>, before: set<Triple>, after: set<Triple>)
    requires AddsHeads(mixed, before, after) && (before == after || ReadsNoMixed(positive + mixed, mixed)) && Positive(positive)
    requires !AnyHeadless(ids, positive, before, {})
    ensures !AnyHeadless(ids, positive, after, {})
  {
    if before != after {
      forall k | 0 <= k < |positive| ensures !Headless(ids, positive[k], after, {}) {
        var r := positive[k];
        assert (positive + mixed)[k] == r;
        AddsAgree(mixed, before, after, Reads(r.body));
        forall b ensures BodyHolds(ids, r, after, {}, b) <==> BodyHolds(ids, r, before, {}, b) { BodyReads(ids, r, after, before, {}, {}, b); }
        assert !Headless(ids, r, before, {});
      }
    }
  }

  // ----- mixed rules -----

  ghost predicate Passes(ids: Ids, r: Rule, facts: set<Triple>, b: Binding) {
    forall i :: 0 <= i < |r.nots| ==> !Blocked(ids, r.nots[i], facts, b)
  }

  /** Whether no negation of the rule rejects the binding. */
  method CheckNegations(ids: Ids, r: Rule, facts: seq<Triple>, b: Binding) returns (passes: bool)
    ensures passes == Passes(ids, r, ToSet(facts), b)
  {
    for i := 0 to |r.nots|
      invariant forall j :: 0 <= j < i ==> !Blocked(ids, r.nots[j], ToSet(facts), b)
    {
      var blocked := EvaluateNegation(ids, r.nots[i], facts, b);
      if blocked { return false; }
    }
    return true;
  }

  /** One of the first `n` bindings survives the negations and has this head. */
  ghost predicate Heads(ids: Ids, r: Rule, facts: set<Triple>, bs: seq<Binding>, n: nat, t: Triple)
    requires n <= |bs|
  {
    exists i :: 0 <= i < n && Passes(ids, r, facts, bs[i]) && HeadOf(ids, r, bs[i]) == Some(t)
  }

  lemma HeadsStep(ids: Ids, r: Rule, facts: set<Triple>, bs: seq<Binding>, n: nat, t: Triple)
    requires n < |bs|
    ensures Heads(ids, r, facts, bs, n + 1, t) <==>
      Heads(ids, r, facts, bs, n, t) || (Passes(ids, r, facts, bs[n]) && HeadOf(ids, r, bs[n]) == Some(t))
  {
    hide Passes;
  }

  lemma AllMixedHeads(ids: Ids, r: Rule, facts: set<Triple>, bs: seq<Binding>, t: Triple)
    requires r.nots != [] && forall b :: b in bs <==> Sat(ids, BodyPatterns(r), facts, b)
    ensures Heads(ids, r, facts, bs, |bs|, t) <==> Derives(ids, r, facts, facts, t)
  {
    hide Sat, Blocked;
    if Derives(ids, r, facts, facts, t) {
      var b :| BodyHolds(ids, r, facts, facts, b) && HeadOf(ids, r, b) == Some(t);
      assert b in bs;
    }
    if Heads(ids, r, facts, bs, |bs|, t) {
      var i :| 0 <= i < |bs| && Passes(ids, r, facts, bs[i]) && HeadOf(ids, r, bs[i]) == Some(t);
      assert bs[i] in bs;
      assert BodyHolds(ids, r, facts, facts, bs[i]);
    }
  }

  /** The facts found so far by a mixed rule run in state `base`. */
  ghost predicate Found(ids: Ids, r: Rule, base: seq<Triple>, bs: seq<Binding>, n: nat, facts: seq<Triple>)
    requires n <= |bs|
  {
    && Grown(base, facts)
    && (forall t :: t in ToSet(facts) ==> t in ToSet(base) || Heads(ids, r, ToSet(base), bs, n, t))
    && (forall t :: Heads(ids, r, ToSet(base), bs, n, t) ==> KeyOf(t) in Keys(ToSet(facts)))
  }

  lemma HeadsAll(ids: Ids, r: Rule, facts: set<Triple>, bs: seq<Binding>, n: nat)
    requires n < |bs|
    ensures forall t :: Heads(ids, r, facts, bs, n + 1, t) <==>
      Heads(ids, r, facts, bs, n, t) || (Passes(ids, r, facts, bs[n]) && HeadOf(ids, r, bs[n]) == Some(t))
  {
    hide Heads, Passes, HeadOf;
    forall t ensures Heads(ids, r, facts, bs, n + 1, t) <==>
      (Heads(ids, r, facts, bs, n, t) || (Passes(ids, r, facts, bs[n]) && HeadOf(ids, r, bs[n]) == Some(t)))
    {
      HeadsStep(ids, r, facts, bs, n, t);
    }
  }

  /** One more binding that is blocked, has no head, or whose head has a known key. */
  lemma FoundKnown(ids: Ids, r: Rule, base: seq<Triple>, bs: seq<Binding>, n: nat, facts: seq<Triple>)
    requires n < |bs| && Found(ids, r, base, bs, n, facts)
    requires Passes(ids, r, ToSet(base), bs[n]) && HeadOf(ids, r, bs[n]).Some? ==> KeyOf(HeadOf(ids, r, bs[n]).value) in Keys(ToSet(facts))
    ensures Found(ids, r, base, bs, n + 1, facts)
  {
    hide Heads, Passes, ToSet, HeadOf, KeyOf, Keys, Grown;
    HeadsAll(ids, r, ToSet(base), bs, n);
  }

  /** One more binding whose head has a new key. */
  lemma FoundNew(ids: Ids, r: Rule, base: seq<Triple>, bs: seq<Binding>, n: nat, facts: seq<Triple>, t: Triple)
    requires n < |bs| && Found(ids, r, base, bs, n, facts)
    requires Passes(ids, r, ToSet(base), bs[n]) && HeadOf(ids, r, bs[n]) == Some(t) && KeyOf(t) !in Keys(ToSet(facts))
    ensures Found(ids, r, base, bs, n + 1, facts + [t]) && Keys(ToSet(facts + [t])) == Keys(ToSet(facts)) + {KeyOf(t)}
  {
    hide Heads, Passes, ToSet, HeadOf, KeyOf, Keys, Grown;
    HeadsAll(ids, r, ToSet(base), bs, n);
    GrownOne(base, facts, t);
  }

  /** `after` holds nothing but facts of `before` and facts the rule derives there. */
  ghost predicate OnlyDerived(ids: Ids, r: Rule, before: set<Triple>, after: set<Triple>) {
    before <= after && forall t :: t in after ==> t in before || Derives(ids, r, before, before, t)
  }

  /**
   * Run a mixed rule once: a fact for every new key it derives is added, within the pass limit and the total limit.
   * It fails on a limit only when what it derives is too much for it.
   */
  method EvaluateMixedRule(ids: Ids, r: Rule, base: seq<Triple>, limits: Limits, newInPass: nat, total: nat)
    returns (e: Evaluation)
    requires r.nots != [] && total <= limits.results
    ensures e.Done? ==>
      && Grown(base, e.facts) && OnlyDerived(ids, r, ToSet(base), ToSet(e.facts)) && Yielded(ids, r, ToSet(base), ToSet(e.facts))
      && total + (|e.facts| - |base|) <= limits.results
      && (e.facts == base || newInPass + (|e.facts| - |base|) <= limits.derivedFacts)
    ensures e.Failed? ==> e.why == MaxResults || e.why == MaxDerivedFacts
    ensures e == Failed(MaxResults) ==> exists after ::
      OnlyDerived(ids, r, ToSet(base), after) && |after| - |ToSet(base)| + total > limits.results
    ensures e == Failed(MaxDerivedFacts) ==> exists after ::
      OnlyDerived(ids, r, ToSet(base), after) && |after| - |ToSet(base)| + newInPass > limits.derivedFacts
  {
    hide Sat, Derives, Passes, OnlyDerived, Yielded, Found, ToSet, AllMatches, HeadOf, AllDerived, Keys, KeyOf, Grown, Planned;
    var bs := MatchPatterns(ids, Planned(Patterns(r.body)), base);
    MatchesDerive(ids, r, ToSet(base), bs);
    var facts, known := base, set t | t in base :: KeyOf(t);
    KeysOfSeq(base, known);
    FoundNothing(ids, r, base, bs);
    for n := 0 to |bs|
      invariant Found(ids, r, base, bs, n, facts) && known == Keys(ToSet(facts)) && |base| <= |facts|
      invariant total + (|facts| - |base|) <= limits.results && (facts == base || newInPass + (|facts| - |base|) <= limits.derivedFacts)
    {
      var passes := CheckNegations(ids, r, base, bs[n]);
      var head := HeadOf(ids, r, bs[n]);
      if passes && head.Some? && KeyOf(head.value) !in known {
        FoundNew(ids, r, base, bs, n, facts, head.value);
        facts := facts + [head.value];
        known := known + {KeyOf(head.value)};
        FoundDerived(ids, r, base, bs, n + 1, facts);
        if newInPass + (|facts| - |base|) > limits.derivedFacts { return Failed(MaxDerivedFacts); }
        if total + (|facts| - |base|) > limits.results { return Failed(MaxResults); }
      } else {
        FoundKnown(ids, r, base, bs, n, facts);
      }
    }
    FoundDerived(ids, r, base, bs, |bs|, facts);
    FoundAll(ids, r, base, bs, facts);
    return Done(facts);
  }

  /** The surviving bindings have exactly the rule's derivations as heads. */
  ghost predicate AllDerived(ids: Ids, r: Rule, facts: set<Triple>, bs: seq<Binding>) {
    forall t :: Heads(ids, r, facts, bs, |bs|, t) <==> Derives(ids, r, facts, facts, t)
  }

  lemma MatchesDerive(ids: Ids, r: Rule, facts: set<Triple>, bs: seq<Binding>)
    requires r.nots != [] && forall b :: b in bs <==> Sat(ids, BodyPatterns(r), facts, b)
    ensures AllDerived(ids, r, facts, bs)
  {
    hide Sat, Heads, Derives;
    forall t ensures Heads(ids, r, facts, bs, |bs|, t) <==> Derives(ids, r, facts, facts, t) { AllMixedHeads(ids, r, facts, bs, t); }
  }

  lemma FoundNothing(ids: Ids, r: Rule, base: seq<Triple>, bs: seq<Binding>)
    ensures Found(ids, r, base, bs, 0, base)
  {
    GrownNone(base);
  }

  lemma FoundAll(ids: Ids, r: Rule, base: seq<Triple>, bs: seq<Binding>, facts: seq<Triple>)
    requires Found(ids, r, base, bs, |bs|, facts) && AllDerived(ids, r, ToSet(base), bs)
    ensures Yielded(ids, r, ToSet(base), ToSet(facts))
  {
    hide Heads, Derives, ToSet, Keys, KeyOf, Grown;
  }

  lemma {:induction false} HeadsMore(ids: Ids, r: Rule, facts: set<Triple>, bs: seq<Binding>, n: nat, t: Triple)
    requires n <= |bs| && Heads(ids, r, facts, bs, n, t)
    ensures Heads(ids, r, facts, bs, |bs|, t)
  {}

  lemma FoundDerived(ids: Ids, r: Rule, base: seq<Triple>, bs: seq<Binding>, n: nat, facts: seq<Triple>)
    requires n <= |bs| && Found(ids, r, base, bs, n, facts) && AllDerived(ids, r, ToSet(base), bs)
    ensures OnlyDerived(ids, r, ToSet(base), ToSet(facts)) && Grown(base, facts)
    ensures |facts| - |base| == |ToSet(facts)| - |ToSet(base)| && |base| <= |facts|
  {
    hide Heads, ToSet, Derives, Keys, KeyOf, FreshKeys;
    forall t | t in ToSet(facts) && t !in ToSet(base) ensures Derives(ids, r, ToSet(base), ToSet(base), t) {
      HeadsMore(ids, r, ToSet(base), bs, n, t);
    }
  }
}
