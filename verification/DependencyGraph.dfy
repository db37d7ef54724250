/** The dependency graph of a program, and which predicates reach which. */
module DependencyGraph {
  import opened Facts
  import opened Datalog
  import opened StratifiedModel

  /** `head` depends on `dep`; a strict edge needs a higher stratum. */
  datatype Edge = Edge(head: Text, dep: Text, strict: bool)

  ghost predicate Within(edges: seq<Edge>, names: seq<Text>) {
    forall k :: 0 <= k < |edges| ==> edges[k].head in names && edges[k].dep in names
  }

  // ----- programs -----

  /** The edges of a list of invocations. */
  function EdgesTo(head: Text, deps: seq<Text>, strict: bool): (r: seq<Edge>)
    ensures |r| == |deps| && forall i :: 0 <= i < |deps| ==> r[i] == Edge(head, deps[i], strict)
  {
    seq(|deps|, i requires 0 <= i < |deps| => Edge(head, deps[i], strict))
  }

  /** One rule's edges: those of negated invocations are strict. */
  function EdgesOf(r: Rule): seq<Edge> {
    EdgesTo(r.pred, Invoked(r.body), false) + EdgesTo(r.pred, InvokedByNots(r.nots), true)
  }

  function AllEdges(rules: seq<Rule>, n: nat): seq<Edge>
    requires n <= |rules|
  {
    if n == 0 then [] else AllEdges(rules, n - 1) + EdgesOf(rules[n - 1])
  }

  function AllNames(rules: seq<Rule>, n: nat): seq<Text>
    requires n <= |rules|
  {
    if n == 0 then [] else AllNames(rules, n - 1) + [rules[n - 1].pred] + InvokedBy(rules[n - 1])
  }

  lemma {:induction false} EdgesWithin(rules: seq<Rule>, n: nat)
    requires n <= |rules|
    ensures Within(AllEdges(rules, n), AllNames(rules, n))
  {
    if n > 0 {
      hide EdgesOf, InvokedBy, AllNames;
      NamesLast(rules, n);
      EdgesWithin(rules, n - 1);
      var before, last := AllEdges(rules, n - 1), EdgesOf(rules[n - 1]);
      var all: seq<Edge> := before + last;
      forall k | 0 <= k < |all| ensures all[k].head in AllNames(rules, n) && all[k].dep in AllNames(rules, n) {
        if k >= |before| { EdgeNames(rules[n - 1], k - |before|); }
      }
    }
  }

  lemma NamesLast(rules: seq<Rule>, n: nat)
    requires 0 < n <= |rules|
    ensures forall p :: p in AllNames(rules, n) <==>
      p in AllNames(rules, n - 1) || p == rules[n - 1].pred || p in InvokedBy(rules[n - 1])
  {
    hide InvokedBy;
  }

  lemma {:induction false} EdgesListed(rules: seq<Rule>, n: nat, k: nat, e: Edge)
    requires k < n <= |rules| && e in EdgesOf(rules[k])
    ensures e in AllEdges(rules, n)
  {
    hide EdgesOf;
    if k < n - 1 { EdgesListed(rules, n - 1, k, e); }
  }

  lemma EdgeOfIff(r: Rule, e: Edge)
    ensures e in EdgesOf(r) <==> e.head == r.pred && if e.strict then NegatesPred(r.nots, e.dep) else CallsPred(r.body, e.dep)
  {
    InvokedIff(r.body, e.dep);
    InvokedByNotsIff(r.nots, e.dep);
    hide Invoked, InvokedByNots, CallsPred, NegatesPred;
    var positive, negated := Invoked(r.body), InvokedByNots(r.nots);
    if e.dep in positive {
      var i :| 0 <= i < |positive| && positive[i] == e.dep;
      assert EdgesTo(r.pred, positive, false)[i] == Edge(r.pred, e.dep, false);
    }
    if e.dep in negated {
      var i :| 0 <= i < |negated| && negated[i] == e.dep;
      assert EdgesTo(r.pred, negated, true)[i] == Edge(r.pred, e.dep, true);
    }
  }

  /** The edges are exactly the invocations of the rules, those in negations strict. */
  lemma {:induction false} EdgeIff(rules: seq<Rule>, n: nat, e: Edge)
    requires n <= |rules|
    ensures e in AllEdges(rules, n) <==> exists r ::
      r in rules[..n] && e.head == r.pred && if e.strict then NegatesPred(r.nots, e.dep) else CallsPred(r.body, e.dep)
  {
    hide EdgesOf, CallsPred, NegatesPred;
    if n > 0 {
      EdgeIff(rules, n - 1, e);
      EdgeOfIff(rules[n - 1], e);
      assert rules[..n] == rules[..n - 1] + [rules[n - 1]];
    }
  }

  lemma EdgeNames(r: Rule, k: nat)
    requires k < |EdgesOf(r)|
    ensures EdgesOf(r)[k].head == r.pred && EdgesOf(r)[k].dep in InvokedBy(r)
  {
    var positive := Invoked(r.body);
    if k >= |positive| { assert EdgesOf(r)[k].dep == InvokedByNots(r.nots)[k - |positive|]; }
  }

  lemma {:induction false} NegatedInvoked(nots: seq<Negation>, n: Negation, i: nat)
    requires n in nots && i < |n.body| && n.body[i].Call?
    ensures n.body[i].pred in InvokedByNots(nots)
  {
    if nots[0] == n { InvokedHas(n.body, i); } else { NegatedInvoked(nots[1..], n, i); }
  }

  // ----- reachability -----

  ghost predicate Links(edges: seq<Edge>, p: Text, q: Text) {
    exists k :: 0 <= k < |edges| && edges[k].head == p && edges[k].dep == q
  }

  /** A walk along one or more edges. */
  ghost predicate Walk(edges: seq<Edge>, ps: seq<Text>) {
    |ps| >= 2 && forall i :: 0 <= i < |ps| - 1 ==> Links(edges, ps[i], ps[i + 1])
  }

  ghost predicate Reaches(edges: seq<Edge>, p: Text, q: Text) {
    exists ps :: Walk(edges, ps) && ps[0] == p && ps[|ps| - 1] == q
  }

  lemma LinkReaches(edges: seq<Edge>, k: nat)
    requires k < |edges|
    ensures Reaches(edges, edges[k].head, edges[k].dep)
  {
    var ps := [edges[k].head, edges[k].dep];
    assert Walk(edges, ps) && ps[|ps| - 1] == edges[k].dep;
  }

  lemma ReachesTrans(edges: seq<Edge>, p: Text, q: Text, r: Text)
    requires Reaches(edges, p, q) && Reaches(edges, q, r)
    ensures Reaches(edges, p, r)
  {
    hide Links;
    var ps :| Walk(edges, ps) && ps[0] == p && ps[|ps| - 1] == q;
    var qs :| Walk(edges, qs) && qs[0] == q && qs[|qs| - 1] == r;
    var all := ps + qs[1..];
    forall i | 0 <= i < |all| - 1 ensures Links(edges, all[i], all[i + 1]) {
      if i < |ps| - 1 {
        assert Links(edges, ps[i], ps[i + 1]);
      } else {
        var j := i - (|ps| - 1);
        assert all[i] == qs[j] && all[i + 1] == qs[j + 1];
        assert Links(edges, qs[j], qs[j + 1]);
      }
    }
    assert Walk(edges, all) && all[0] == p && all[|all| - 1] == r;
  }

  /** The predicates some edge leads to. */
  ghost function Targets(edges: seq<Edge>): set<Text> { set k | 0 <= k < |edges| :: edges[k].dep }

  /** Every edge out of `p` among the first `n` leads into `seen`, and none to `to`. */
  ghost predicate Followed(edges: seq<Edge>, n: nat, p: Text, seen: set<Text>, to: Text)
    requires n <= |edges|
  {
    forall k :: 0 <= k < n && edges[k].head == p ==> edges[k].dep in seen && edges[k].dep != to
  }

  /** What the search holds: all on the stack or seen is reached, all seen is on the stack or followed. */
  ghost predicate Searching(edges: seq<Edge>, from: Text, to: Text, seen: set<Text>, stack: seq<Text>, active: set<Text>) {
    && seen <= Targets(edges)
    && (forall p :: p in seen || p in stack ==> p == from || Reaches(edges, from, p))
    && (forall p :: p in seen || p == from ==> p in stack || p in active || Followed(edges, |edges|, p, seen, to))
  }

  /** Depth-first search with a stack and a set of seen predicates: it decides reachability. */
  method Search(edges: seq<Edge>, from: Text, to: Text) returns (r: bool)
    ensures r <==> Reaches(edges, from, to)
  {
    hide Reaches;
    var seen: set<Text> := {};
    var stack := [from];
    while stack != []
      invariant Searching(edges, from, to, seen, stack, {})
      decreases Targets(edges) - seen, |stack|
    {
      var p := stack[|stack| - 1];
      stack := stack[..|stack| - 1];
      r, seen, stack := Follow(edges, from, to, p, seen, stack);
      if r { return true; }
    }
    SearchedAll(edges, from, to, seen);
    r := false;
  }

  /** Follow the edges out of `p`. */
  method Follow(edges: seq<Edge>, from: Text, to: Text, p: Text, before: set<Text>, rest: seq<Text>)
    returns (r: bool, seen: set<Text>, stack: seq<Text>)
    requires Searching(edges, from, to, before, rest, {p}) && (p == from || Reaches(edges, from, p))
    ensures r ==> Reaches(edges, from, to)
    ensures !r ==> Searching(edges, from, to, seen, stack, {})
    ensures before <= seen && (seen == before ==> stack == rest)
  {
    hide Reaches;
    r, seen, stack := false, before, rest;
    for k := 0 to |edges|
      invariant before <= seen && (seen == before ==> stack == rest)
      invariant Searching(edges, from, to, seen, stack, {p}) && Followed(edges, k, p, seen, to)
    {
      if edges[k].head == p {
        LinkReaches(edges, k);
        if p != from { ReachesTrans(edges, from, p, edges[k].dep); }
        if edges[k].dep == to { return true, seen, stack; }
        if edges[k].dep !in seen {
          seen := seen + {edges[k].dep};
          stack := stack + [edges[k].dep];
        }
      }
    }
  }

  lemma {:induction false} SearchedAll(edges: seq<Edge>, from: Text, to: Text, seen: set<Text>)
    requires Searching(edges, from, to, seen, [], {})
    ensures !Reaches(edges, from, to)
  {
    if Reaches(edges, from, to) {
      var ps :| Walk(edges, ps) && ps[0] == from && ps[|ps| - 1] == to;
      WalkSeen(edges, from, to, seen, ps, |ps| - 1);
      assert false;
    }
  }

  lemma {:induction false} WalkSeen(edges: seq<Edge>, from: Text, to: Text, seen: set<Text>, ps: seq<Text>, n: nat)
    requires Searching(edges, from, to, seen, [], {}) && Walk(edges, ps) && ps[0] == from && 0 < n < |ps|
    ensures ps[n] in seen && ps[n] != to
  {
    hide Reaches;
    if n > 1 { WalkSeen(edges, from, to, seen, ps, n - 1); }
    assert Links(edges, ps[n - 1], ps[n - 1 + 1]);
    assert Followed(edges, |edges|, ps[n - 1], seen, to);
  }
}
