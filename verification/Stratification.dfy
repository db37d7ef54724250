/** Assigning strata to predicates: constraint propagation, proved to find the least stratification or a cycle through a negation. */
module Stratification {
  import opened Bytes
  import opened Facts
  import opened Datalog
  import opened Matcher
  import opened LeastModel
  import opened SeenFacts
  import opened Evaluator
  import opened StratifiedModel
  import opened StratifiedEvaluation
  import opened DependencyGraph

  function Required(strata: Strata, e: Edge): nat
    requires e.dep in strata
  {
    strata[e.dep] + if e.strict then 1 else 0
  }

  ghost predicate Over(strata: Strata, names: seq<Text>) {
    forall p :: p in strata <==> p in names
  }

  /** Every edge is met. */
  ghost predicate Respects(strata: Strata, edges: seq<Edge>, names: seq<Text>)
    requires Within(edges, names)
  {
    Over(strata, names) && forall k :: 0 <= k < |edges| ==> Required(strata, edges[k]) <= strata[edges[k].head]
  }

  /** Nothing is higher than in any stratification. */
  ghost predicate Lowest(strata: Strata, edges: seq<Edge>, names: seq<Text>)
    requires Within(edges, names) && Over(strata, names)
  {
    forall other :: Respects(other, edges, names) ==> forall p :: p in names ==> strata[p] <= other[p]
  }

  // ----- ranks -----

  ghost function Below(strata: Strata, names: seq<Text>, v: nat): set<nat>
    requires Over(strata, names)
  {
    set p | p in names && strata[p] < v :: strata[p]
  }

  /** Renumber the strata without gaps. */
  ghost function Ranked(strata: Strata, names: seq<Text>): Strata
    requires Over(strata, names)
  {
    map p | p in strata :: |Below(strata, names, strata[p])|
  }

  lemma {:induction false} ImageCount(strata: Strata, ps: set<Text>)
    requires forall p :: p in ps ==> p in strata
    ensures |set p | p in ps :: strata[p]| <= |ps|
  {
    if ps != {} {
      var x :| x in ps;
      ImageCount(strata, ps - {x});
      assert (set p | p in ps :: strata[p]) == (set p | p in ps - {x} :: strata[p]) + {strata[x]};
    } else {
      assert (set p | p in ps :: strata[p]) == {};
    }
  }

  /** Ranks are below the number of predicates. */
  lemma RankBound(strata: Strata, names: seq<Text>, p: Text)
    requires Over(strata, names) && p in names
    ensures Ranked(strata, names)[p] < |PredSet(names)|
  {
    var others := PredSet(names) - {p};
    ImageCount(strata, others);
    SubsetSize(Below(strata, names, strata[p]), set q | q in others :: strata[q]);
    assert PredSet(names) == others + {p};
  }

  /** Renumbering keeps every edge met. */
  lemma RankRespects(strata: Strata, edges: seq<Edge>, names: seq<Text>)
    requires Within(edges, names) && Respects(strata, edges, names)
    ensures Respects(Ranked(strata, names), edges, names)
  {
    var ranked := Ranked(strata, names);
    forall k | 0 <= k < |edges| ensures Required(ranked, edges[k]) <= ranked[edges[k].head] {
      var e := edges[k];
      assert Required(strata, e) <= strata[e.head];
      var low, high := Below(strata, names, strata[e.dep]), Below(strata, names, strata[e.head]);
      if e.strict {
        assert strata[e.dep] in high;
        SubsetSize(low + {strata[e.dep]}, high);
      } else {
        SubsetSize(low, high);
      }
    }
  }

  /** A stratum as high as the number of predicates shows that there is no stratification. */
  lemma {:induction false} TooHigh(strata: Strata, edges: seq<Edge>, names: seq<Text>, p: Text)
    requires Within(edges, names) && Over(strata, names) && Lowest(strata, edges, names)
    requires p in names && strata[p] >= |PredSet(names)|
    ensures forall other :: !Respects(other, edges, names)
  {
    forall other ensures !Respects(other, edges, names) {
      if Respects(other, edges, names) {
        RankRespects(other, edges, names);
        RankBound(other, names, p);
        assert false;
      }
    }
  }

  // ----- propagation -----

  /** How far the strata can still rise below `limit`, over the first `n` names. */
  ghost function Slack(strata: Strata, names: seq<Text>, limit: nat, n: nat): nat
    requires Over(strata, names) && n <= |names|
  {
    if n == 0 then 0
    else Slack(strata, names, limit, n - 1) + if strata[names[n - 1]] < limit then limit - strata[names[n - 1]] else 0
  }

  lemma {:induction false} SlackDrops(strata: Strata, names: seq<Text>, limit: nat, n: nat, p: Text, v: nat)
    requires Over(strata, names) && n <= |names| && p in names && strata[p] < v < limit
    ensures Over(strata[p := v], names)
    ensures Slack(strata[p := v], names, limit, n) <= Slack(strata, names, limit, n)
    ensures p in names[..n] ==> Slack(strata[p := v], names, limit, n) < Slack(strata, names, limit, n)
  {
    if n > 0 {
      SlackDrops(strata, names, limit, n - 1, p, v);
      assert names[..n] == names[..n - 1] + [names[n - 1]];
    }
  }

  /** Raising a head to what an edge requires keeps the strata lowest. */
  lemma LowestRaised(strata: Strata, edges: seq<Edge>, names: seq<Text>, k: nat)
    requires Within(edges, names) && Over(strata, names) && Lowest(strata, edges, names) && k < |edges|
    ensures Over(strata[edges[k].head := Required(strata, edges[k])], names)
    ensures Lowest(strata[edges[k].head := Required(strata, edges[k])], edges, names)
  {
    var e := edges[k];
    var raised := strata[e.head := Required(strata, e)];
    forall other, p | Respects(other, edges, names) && p in names ensures raised[p] <= other[p] {
      assert Required(other, e) <= other[e.head];
    }
  }

  /** One sweep over the edges; None when a stratum gets too high. */
  method Sweep(edges: seq<Edge>, names: seq<Text>, start: Strata) returns (r: Option<Strata>, changed: bool)
    requires Within(edges, names) && Over(start, names) && Lowest(start, edges, names)
    ensures r.Some? ==> Over(r.value, names) && Lowest(r.value, edges, names)
    ensures r.Some? && changed ==> Slack(r.value, names, |PredSet(names)|, |names|) < Slack(start, names, |PredSet(names)|, |names|)
    ensures r.Some? && !changed ==> r.value == start && Respects(start, edges, names)
    ensures r.None? ==> forall other :: !Respects(other, edges, names)
  {
    hide Lowest, Slack;
    var strata: Strata := start;
    var limit := |PredSet(names)|;
    changed := false;
    for k := 0 to |edges|
      invariant Over(strata, names) && Lowest(strata, edges, names)
      invariant changed ==> Slack(strata, names, limit, |names|) < Slack(start, names, limit, |names|)
      invariant !changed ==> strata == start && forall j :: 0 <= j < k ==> Required(start, edges[j]) <= start[edges[j].head]
    {
      var e := edges[k];
      var required: nat := Required(strata, e);
      if required > strata[e.head] {
        LowestRaised(strata, edges, names, k);
        if required < limit {
          SlackDrops(strata, names, limit, |names|, e.head, required);
          assert names[..|names|] == names;
        }
        strata := strata[e.head := required];
        changed := true;
      }
      if strata[e.head] >= limit {
        TooHigh(strata, edges, names, e.head);
        return None, changed;
      }
    }
    r := Some(strata);
  }

  /** The least stratification, or None when there is none. */
  method Stratify(edges: seq<Edge>, names: seq<Text>) returns (r: Option<Strata>)
    requires Within(edges, names)
    ensures r.Some? ==> Respects(r.value, edges, names) && Lowest(r.value, edges, names)
    ensures r.None? <==> forall other :: !Respects(other, edges, names)
  {
    hide Lowest, Slack, Respects;
    var strata: Strata := map p | p in names :: 0;
    AllZero(edges, names, strata);
    var changed := true;
    while changed
      invariant Over(strata, names) && Lowest(strata, edges, names) && (!changed ==> Respects(strata, edges, names))
      decreases if changed then 1 + Slack(strata, names, |PredSet(names)|, |names|) else 0
    {
      var next, again := Sweep(edges, names, strata);
      if next.None? { return None; }
      strata, changed := next.value, again;
    }
    r := Some(strata);
  }

  lemma AllZero(edges: seq<Edge>, names: seq<Text>, strata: Strata)
    requires Within(edges, names) && strata == map p | p in names :: 0
    ensures Over(strata, names) && Lowest(strata, edges, names)
  {}

  // ----- raised edges -----

  /** Some rule of this predicate has a negation. */
  ghost predicate HasMixed(rules: seq<Rule>, p: Text) {
    exists r :: r in rules && r.pred == p && r.nots != []
  }

  /** The edges with those to a mixed predicate raised, unless they lie on a cycle. */
  ghost predicate IsRaised(rules: seq<Rule>, edges: seq<Edge>, n: nat, raised: seq<Edge>)
    requires n <= |edges|
  {
    && |raised| == n
    && forall k :: 0 <= k < n ==> raised[k] == Edge(edges[k].head, edges[k].dep,
      edges[k].strict || (HasMixed(rules, edges[k].dep) && !Reaches(edges, edges[k].dep, edges[k].head)))
  }

  method Raise(rules: seq<Rule>, edges: seq<Edge>) returns (raised: seq<Edge>)
    ensures IsRaised(rules, edges, |edges|, raised)
  {
    hide Reaches;
    raised := [];
    for k := 0 to |edges|
      invariant IsRaised(rules, edges, k, raised)
    {
      var strict := edges[k].strict;
      if !strict && exists r :: r in rules && r.pred == edges[k].dep && r.nots != [] {
        var cyclic := Search(edges, edges[k].dep, edges[k].head);
        strict := !cyclic;
      }
      raised := raised + [Edge(edges[k].head, edges[k].dep, strict)];
    }
  }

  lemma RaisedWithin(rules: seq<Rule>, edges: seq<Edge>, raised: seq<Edge>, names: seq<Text>)
    requires IsRaised(rules, edges, |edges|, raised) && Within(edges, names)
    ensures Within(raised, names)
  {
    hide Reaches, HasMixed;
  }

  // ----- cycles through negations -----

  /** Some negated invocation leads back to its own head. */
  ghost predicate NegativeCycle(edges: seq<Edge>) {
    exists k :: 0 <= k < |edges| && edges[k].strict && Reaches(edges, edges[k].dep, edges[k].head)
  }

  /** What `p` reaches and is not reached by. */
  ghost function StrictlyBelow(edges: seq<Edge>, names: seq<Text>, p: Text): set<Text> {
    set q | q in names && Reaches(edges, p, q) && !Reaches(edges, q, p)
  }

  ghost function Depths(edges: seq<Edge>, names: seq<Text>): Strata {
    map p | p in names :: |StrictlyBelow(edges, names, p)|
  }

  /** Along an edge the set below does not shrink, and grows unless the edge is on a cycle. */
  lemma EdgeDeepens(edges: seq<Edge>, names: seq<Text>, k: nat)
    requires Within(edges, names) && k < |edges|
    ensures StrictlyBelow(edges, names, edges[k].dep) <= StrictlyBelow(edges, names, edges[k].head)
    ensures !Reaches(edges, edges[k].dep, edges[k].head) ==>
      edges[k].dep in StrictlyBelow(edges, names, edges[k].head) && edges[k].dep !in StrictlyBelow(edges, names, edges[k].dep)
  {
    hide Reaches;
    var p, q := edges[k].head, edges[k].dep;
    LinkReaches(edges, k);
    forall x | x in StrictlyBelow(edges, names, q) ensures x in StrictlyBelow(edges, names, p) {
      ReachesTrans(edges, p, q, x);
      if Reaches(edges, x, p) { ReachesTrans(edges, x, p, q); }
    }
  }

  /** Without a cycle through a negation the depths meet every edge, the raised ones too. */
  lemma DepthsRespect(rules: seq<Rule>, edges: seq<Edge>, raised: seq<Edge>, names: seq<Text>)
    requires IsRaised(rules, edges, |edges|, raised) && Within(edges, names) && Within(raised, names) && !NegativeCycle(edges)
    ensures Respects(Depths(edges, names), raised, names)
  {
    hide Reaches, HasMixed;
    var depths := Depths(edges, names);
    forall k | 0 <= k < |raised| ensures Required(depths, raised[k]) <= depths[raised[k].head] {
      var low, high := StrictlyBelow(edges, names, edges[k].dep), StrictlyBelow(edges, names, edges[k].head);
      EdgeDeepens(edges, names, k);
      hide StrictlyBelow;
      SubsetSize(low, high);
      if raised[k].strict { SubsetSize(low + {edges[k].dep}, high); }
    }
  }

  /** Strata do not rise along a walk. */
  lemma {:induction false} WalkDescends(rules: seq<Rule>, edges: seq<Edge>, raised: seq<Edge>, names: seq<Text>, strata: Strata, ps: seq<Text>, n: nat)
    requires IsRaised(rules, edges, |edges|, raised) && Within(raised, names) && Respects(strata, raised, names)
    requires Walk(edges, ps) && 0 < n < |ps|
    ensures ps[0] in strata && ps[n] in strata && strata[ps[n]] <= strata[ps[0]]
  {
    hide Reaches, HasMixed;
    if n > 1 { WalkDescends(rules, edges, raised, names, strata, ps, n - 1); }
    assert Links(edges, ps[n - 1], ps[n - 1 + 1]);
    var k :| 0 <= k < |edges| && edges[k].head == ps[n - 1] && edges[k].dep == ps[n];
    assert Required(strata, raised[k]) <= strata[raised[k].head];
  }

  /** A cycle through a negation refutes every assignment. */
  lemma CycleRefutes(rules: seq<Rule>, edges: seq<Edge>, raised: seq<Edge>, names: seq<Text>, strata: Strata)
    requires IsRaised(rules, edges, |edges|, raised) && Within(raised, names) && NegativeCycle(edges)
    ensures !Respects(strata, raised, names)
  {
    if Respects(strata, raised, names) {
      var k :| 0 <= k < |edges| && edges[k].strict && Reaches(edges, edges[k].dep, edges[k].head);
      var ps :| Walk(edges, ps) && ps[0] == edges[k].dep && ps[|ps| - 1] == edges[k].head;
      WalkDescends(rules, edges, raised, names, strata, ps, |ps| - 1);
      hide Reaches, HasMixed;
      assert false;
    }
  }

  /** There are strata for the raised edges exactly when no negated invocation lies on a cycle: raising rules out no program. */
  lemma {:induction false} StratifiableIff(rules: seq<Rule>, edges: seq<Edge>, raised: seq<Edge>, names: seq<Text>)
    requires IsRaised(rules, edges, |edges|, raised) && Within(edges, names) && Within(raised, names)
    ensures (exists strata :: Respects(strata, raised, names)) <==> !NegativeCycle(edges)
  {
    hide Respects, IsRaised, NegativeCycle;
    if NegativeCycle(edges) {
      forall strata ensures !Respects(strata, raised, names) { CycleRefutes(rules, edges, raised, names, strata); }
    } else {
      DepthsRespect(rules, edges, raised, names);
    }
  }

  // ----- programs -----

  /** Strata that respect all edges stratify the program. */
  lemma {:induction false} RespectsStratifies(rules: seq<Rule>, edges: seq<Edge>, raised: seq<Edge>, names: seq<Text>, strata: Strata)
    requires edges == AllEdges(rules, |rules|) && IsRaised(rules, edges, |edges|, raised)
    requires Within(raised, names) && Respects(strata, raised, names)
    ensures Stratifies(strata, rules)
  {
    hide Respects, AllEdges, IsRaised;
    forall r, l | r in rules && l in r.body && l.Call? ensures StratumOf(strata, l.pred) <= StratumOf(strata, r.pred) {
      var i :| 0 <= i < |r.body| && r.body[i] == l;
      InvokedHas(r.body, i);
      var j :| 0 <= j < |Invoked(r.body)| && Invoked(r.body)[j] == l.pred;
      var k :| 0 <= k < |rules| && rules[k] == r;
      EdgesListed(rules, |rules|, k, EdgesOf(r)[j]);
      EdgeMet(rules, edges, raised, names, strata, EdgesOf(r)[j]);
    }
    forall r, n, l | r in rules && n in r.nots && l in n.body && l.Call? ensures StratumOf(strata, l.pred) < StratumOf(strata, r.pred) {
      var i :| 0 <= i < |n.body| && n.body[i] == l;
      NegatedInvoked(r.nots, n, i);
      var j :| 0 <= j < |InvokedByNots(r.nots)| && InvokedByNots(r.nots)[j] == l.pred;
      var k :| 0 <= k < |rules| && rules[k] == r;
      var e := EdgesOf(r)[|Invoked(r.body)| + j];
      EdgesListed(rules, |rules|, k, e);
      EdgeMet(rules, edges, raised, names, strata, e);
    }
  }

  lemma EdgeMet(rules: seq<Rule>, edges: seq<Edge>, raised: seq<Edge>, names: seq<Text>, strata: Strata, e: Edge)
    requires IsRaised(rules, edges, |edges|, raised) && Within(raised, names) && Respects(strata, raised, names) && e in edges
    ensures e.dep in strata && e.head in strata && strata[e.dep] + (if e.strict then 1 else 0) <= strata[e.head]
  {
    hide Reaches, HasMixed;
    var k :| 0 <= k < |edges| && edges[k] == e;
    assert Required(strata, raised[k]) <= strata[raised[k].head];
  }

  /** A mixed predicate called from its own stratum calls its caller back. */
  ghost predicate MixedBelow(rules: seq<Rule>, edges: seq<Edge>, strata: Strata) {
    forall k :: 0 <= k < |edges| && HasMixed(rules, edges[k].dep) && StratumOf(strata, edges[k].dep) == StratumOf(strata, edges[k].head)
      ==> Reaches(edges, edges[k].dep, edges[k].head)
  }

  lemma RaisedMixedBelow(rules: seq<Rule>, edges: seq<Edge>, raised: seq<Edge>, names: seq<Text>, strata: Strata)
    requires IsRaised(rules, edges, |edges|, raised) && Within(raised, names) && Respects(strata, raised, names)
    ensures MixedBelow(rules, edges, strata)
  {
    hide Reaches, HasMixed;
    forall k | 0 <= k < |edges| && HasMixed(rules, edges[k].dep) && !Reaches(edges, edges[k].dep, edges[k].head)
      ensures StratumOf(strata, edges[k].dep) != StratumOf(strata, edges[k].head)
    {
      assert Required(strata, raised[k]) <= strata[raised[k].head];
    }
  }

  /** The least strata of a program: None exactly when a negated invocation lies on a cycle. */
  method StratifyProgram(rules: seq<Rule>) returns (r: Option<Strata>, ghost raised: seq<Edge>)
    ensures r.None? <==> NegativeCycle(AllEdges(rules, |rules|))
    ensures var edges, names := AllEdges(rules, |rules|), AllNames(rules, |rules|);
      && IsRaised(rules, edges, |edges|, raised) && Within(raised, names)
      && (r.Some? ==> Respects(r.value, raised, names) && Lowest(r.value, raised, names))
    ensures r.Some? ==> Stratifies(r.value, rules) && MixedBelow(rules, AllEdges(rules, |rules|), r.value)
  {
    hide AllEdges, AllNames, Respects, Stratifies, NegativeCycle, IsRaised, Lowest, MixedBelow, Within;
    var edges, names := AllEdges(rules, |rules|), AllNames(rules, |rules|);
    EdgesWithin(rules, |rules|);
    var higher := Raise(rules, edges);
    raised := higher;
    RaisedWithin(rules, edges, raised, names);
    StratifiableIff(rules, edges, raised, names);
    r := Stratify(higher, names);
    if r.Some? {
      RespectsStratifies(rules, edges, raised, names, r.value);
      RaisedMixedBelow(rules, edges, raised, names, r.value);
    }
  }

  /**
   * Stratify a program and evaluate the requested predicates: None exactly when a negated invocation lies on
   * a cycle, otherwise the evaluation over the strata found.
   */
  method EvaluateProgram(ids: Ids, rules: seq<Rule>, requested: seq<Text>, base: seq<Triple>, limits: Limits)
    returns (r: Option<Evaluation>, strata: Strata, preds: seq<Text>)
    requires StoredOnly(rules)
    ensures r.None? <==> NegativeCycle(AllEdges(rules, |rules|))
    ensures r.Some? ==> Stratifies(strata, rules) && requested <= preds && Complete(rules, PredSet(preds))
    ensures r.Some? ==> forall q: set<Text> :: PredSet(requested) <= q && Complete(rules, q) ==> PredSet(preds) <= q
    ensures r.Some? && r.value.Done? ==>
      && Grown(base, r.value.facts) && |r.value.facts| - |base| <= limits.results
      && Computed(ids, rules, preds, strata, ToSet(base), ToSet(r.value.facts))
    ensures r.Some? && r.value.Done? && ToldApart(Values(ids, rules, ToSet(base))) ==>
      IsStratifiedModel(ids, rules, PredSet(preds), strata, ToSet(base), ToSet(r.value.facts))
    ensures r.Some? && r.value.Failed? ==> Fails(ids, rules, preds, strata, base, limits, r.value.why)
    ensures r == Some(Failed(MaxResults)) && ToldApart(Values(ids, rules, ToSet(base))) ==>
      ModelExceeds(ids, rules, PredSet(preds), strata, ToSet(base), limits.results)
  {
    hide AllEdges, MixedBelow, NegativeCycle, Stratifies, StoredOnly, Complete, IsStratifiedModel, ModelExceeds, Fails, ToSet, Grown, Computed, ToldApart, Values;
    var found, _ := StratifyProgram(rules);
    if found.None? { return None, map[], []; }
    strata := found.value;
    var e: Evaluation;
    e, preds := Evaluate(ids, rules, strata, requested, base, limits);
    r := Some(e);
  }
}
