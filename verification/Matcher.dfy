/** Matching rule bodies: nested-loop joins over the facts, proved to find exactly the satisfying bindings. */
module Matcher {
  import opened Bytes
  import opened Facts
  import opened Datalog

  ghost function ToSet(facts: seq<Triple>): set<Triple> { set i | 0 <= i < |facts| :: facts[i] }

  ghost predicate Extends(c: Binding, b: Binding) {
    forall x :: x in b ==> x in c && c[x] == b[x]
  }

  // ----- one fact, one pattern -----

  /** Match one fact against one pattern, from no bindings. */
  function Candidate(ids: Ids, p: Pattern, t: Triple): Option<Binding> {
    if t.attribute != p.attribute then None
    else
      match MatchComponent(ids, p.entity, Ref(t.entity), map[])
      case None => None
      case Some(c) => MatchComponent(ids, p.value, t.value, c)
  }

  function MatchComponent(ids: Ids, term: Term, v: Value, b: Binding): Option<Binding> {
    match term
    case Var(x) => if x in b then (if b[x] == v then Some(b) else None) else Some(b[x := v])
    case Const(c) => if Accepts(ids, c, v) then Some(b) else None
    case Any => Some(b)
    case Blank => Some(b)
    case Symbol => None
  }

  predicate Consistent(ids: Ids, b: Binding, c: Binding) {
    forall x :: x in c && x in b ==> Agree(ids, b[x], c[x])
  }

  /** Join a binding with a candidate: values already bound stay. */
  function Merge(ids: Ids, b: Binding, c: Binding): Option<Binding> {
    if Consistent(ids, b, c) then Some(c + b) else None
  }

  /** What one fact makes of a binding. */
  function BindPattern(ids: Ids, p: Pattern, t: Triple, b: Binding): Option<Binding> {
    match Candidate(ids, p, t)
    case None => None
    case Some(c) => Merge(ids, b, c)
  }

  /** A fact yields at most one candidate, which binds exactly the pattern's variables to what stands in their places. */
  lemma {:induction false} CandidateExact(ids: Ids, p: Pattern, t: Triple, c: Binding)
    ensures Candidate(ids, p, t) == Some(c) <==> c.Keys == PatternVars(p) && Fits(ids, p, t, map[], {}, c)
  {
    hide Accepts;
    var f := Candidate(ids, p, t);
    if c.Keys == PatternVars(p) && Fits(ids, p, t, map[], {}, c) {
      assert f.Some?;
      assert f.value.Keys == c.Keys;
      assert f.value == c;
    }
  }

  lemma {:induction false} TermMerged(ids: Ids, term: Term, v: Value, b: Binding, c: Binding, d: Binding)
    requires TermFits(ids, term, v, map[], {}, c) && c.Keys >= TermVars(term)
    requires d == c + b && Consistent(ids, b, c)
    ensures TermFits(ids, term, v, map[], b.Keys, d)
  {
    hide Accepts;
  }

  lemma {:induction false} BindPatternSound(ids: Ids, p: Pattern, t: Triple, b: Binding, d: Binding)
    requires BindPattern(ids, p, t, b) == Some(d)
    ensures d.Keys == b.Keys + PatternVars(p) && Extends(d, b) && Fits(ids, p, t, map[], b.Keys, d)
  {
    var c := Candidate(ids, p, t).value;
    CandidateExact(ids, p, t, c);
    TermMerged(ids, p.entity, Ref(t.entity), b, c, d);
    TermMerged(ids, p.value, t.value, b, c, d);
  }

  /** The values a fact gives the variables of a pattern. */
  ghost function Taken(p: Pattern, t: Triple): Binding {
    map x | x in PatternVars(p) :: if p.entity == Var(x) then Ref(t.entity) else t.value
  }

  lemma {:induction false} TermTaken(ids: Ids, p: Pattern, t: Triple, b: Binding, d: Binding)
    requires Extends(d, b) && Fits(ids, p, t, map[], b.Keys, d)
    ensures Fits(ids, p, t, map[], {}, Taken(p, t)) && Consistent(ids, b, Taken(p, t))
    ensures forall x :: x in PatternVars(p) && x !in b ==> d[x] == Taken(p, t)[x]
  {
    hide Accepts;
  }

  lemma {:induction false} BindPatternComplete(ids: Ids, p: Pattern, t: Triple, b: Binding, d: Binding)
    requires d.Keys == b.Keys + PatternVars(p) && Extends(d, b) && Fits(ids, p, t, map[], b.Keys, d)
    ensures BindPattern(ids, p, t, b) == Some(d)
  {
    var c := Taken(p, t);
    TermTaken(ids, p, t, b, d);
    CandidateExact(ids, p, t, c);
    hide Fits, Candidate;
    assert c + b == d;
  }

  // ----- one more pattern -----

  /** `c` is what some fact among the first `n` makes of `b` for this pattern. */
  ghost predicate Reached(ids: Ids, p: Pattern, facts: seq<Triple>, n: nat, b: Binding, c: Binding)
    requires n <= |facts|
  {
    exists j :: 0 <= j < n && BindPattern(ids, p, facts[j], b) == Some(c)
  }

  lemma {:induction false} VarsInclude(ps: seq<Pattern>, n: nat, i: nat)
    requires i < n <= |ps|
    ensures PatternVars(ps[i]) <= VarsUpto(ps, n)
  {
    if i < n - 1 { VarsInclude(ps, n - 1, i); }
  }

  lemma {:induction false} SupportsExtended(ids: Ids, p: Pattern, facts: set<Triple>, known: set<Text>, b: Binding, c: Binding)
    requires PatternVars(p) <= b.Keys && Extends(c, b)
    ensures Supports(ids, p, facts, map[], known, b) == Supports(ids, p, facts, map[], known, c)
  {
    hide Accepts, Agree;
    forall t ensures Fits(ids, p, t, map[], known, b) == Fits(ids, p, t, map[], known, c) {}
  }

  lemma {:induction false} SatGrows(ids: Ids, ps: seq<Pattern>, n: nat, facts: set<Triple>, b: Binding, c: Binding)
    requires n < |ps| && SatUpto(ids, ps, n, facts, map[], b) && Extends(c, b) && c.Keys == b.Keys + PatternVars(ps[n])
    requires Holds(ids, ps, n, facts, map[], c)
    ensures SatUpto(ids, ps, n + 1, facts, map[], c)
  {
    hide Supports, PatternVars;
    assert c.Keys == VarsUpto(ps, n + 1);
    forall i | 0 <= i < n ensures Holds(ids, ps, i, facts, map[], c) {
      assert Holds(ids, ps, i, facts, map[], b);
      VarsInclude(ps, n, i);
      SupportsExtended(ids, ps[i], facts, VarsUpto(ps, i), b, c);
    }
  }

  /** Joining with the next pattern: the extensions of satisfying bindings satisfy one pattern more. */
  lemma {:induction false} JoinSound(ids: Ids, ps: seq<Pattern>, n: nat, facts: seq<Triple>, b: Binding, c: Binding)
    requires n < |ps| && SatUpto(ids, ps, n, ToSet(facts), map[], b) && Reached(ids, ps[n], facts, |facts|, b, c)
    ensures SatUpto(ids, ps, n + 1, ToSet(facts), map[], c)
  {
    hide Fits, BindPattern, Extends, PatternVars;
    var j :| 0 <= j < |facts| && BindPattern(ids, ps[n], facts[j], b) == Some(c);
    assert b.Keys == VarsUpto(ps, n);
    BindPatternSound(ids, ps[n], facts[j], b, c);
    assert facts[j] in ToSet(facts);
    SatGrows(ids, ps, n, ToSet(facts), b, c);
  }

  /** And every such binding extends one that satisfies the patterns before. */
  lemma {:induction false} JoinComplete(ids: Ids, ps: seq<Pattern>, n: nat, facts: seq<Triple>, c: Binding) returns (b: Binding)
    requires n < |ps| && SatUpto(ids, ps, n + 1, ToSet(facts), map[], c)
    ensures SatUpto(ids, ps, n, ToSet(facts), map[], b) && Reached(ids, ps[n], facts, |facts|, b, c)
  {
    hide Fits, BindPattern, PatternVars;
    b := map x | x in c && x in VarsUpto(ps, n) :: c[x];
    assert b.Keys == VarsUpto(ps, n);
    forall i | 0 <= i < n ensures Holds(ids, ps, i, ToSet(facts), map[], b) {
      VarsInclude(ps, n, i);
      SupportsExtended(ids, ps[i], ToSet(facts), VarsUpto(ps, i), b, c);
      assert Holds(ids, ps, i, ToSet(facts), map[], c);
    }
    assert Holds(ids, ps, n, ToSet(facts), map[], c);
    var t :| t in ToSet(facts) && Fits(ids, ps[n], t, map[], VarsUpto(ps, n), c);
    BindPatternComplete(ids, ps[n], t, b, c);
    var j :| 0 <= j < |facts| && facts[j] == t;
  }

  // ----- joins -----

  /** The candidates of a pattern among the first `n` facts. */
  function Candidates(ids: Ids, p: Pattern, facts: seq<Triple>, n: nat): seq<Binding>
    requires n <= |facts|
  {
    if n == 0 then []
    else
      match Candidate(ids, p, facts[n - 1])
      case None => Candidates(ids, p, facts, n - 1)
      case Some(c) => Candidates(ids, p, facts, n - 1) + [c]
  }

  /** The first `n` candidates joined with one binding. */
  function Merged(ids: Ids, b: Binding, cs: seq<Binding>, n: nat): seq<Binding>
    requires n <= |cs|
  {
    if n == 0 then []
    else
      match Merge(ids, b, cs[n - 1])
      case None => Merged(ids, b, cs, n - 1)
      case Some(d) => Merged(ids, b, cs, n - 1) + [d]
  }

  /** The nested-loop join of the first `n` bindings with a pattern. */
  function Joined(ids: Ids, bs: seq<Binding>, n: nat, cs: seq<Binding>): seq<Binding>
    requires n <= |bs|
  {
    if n == 0 then [] else Joined(ids, bs, n - 1, cs) + Merged(ids, bs[n - 1], cs, |cs|)
  }

  /** All matches of the first `n` patterns, as often as the facts support them. */
  function AllMatches(ids: Ids, ps: seq<Pattern>, n: nat, facts: seq<Triple>): seq<Binding>
    requires n <= |ps|
  {
    if n == 0 then [map[]]
    else
      var bs := AllMatches(ids, ps, n - 1, facts);
      Joined(ids, bs, |bs|, Candidates(ids, ps[n - 1], facts, |facts|))
  }

  lemma {:induction false} CandidatesFrom(ids: Ids, p: Pattern, facts: seq<Triple>, n: nat, c: Binding)
    requires n <= |facts|
    ensures c in Candidates(ids, p, facts, n) <==> exists j :: 0 <= j < n && Candidate(ids, p, facts[j]) == Some(c)
  {
    hide Candidate;
    if n > 0 { CandidatesFrom(ids, p, facts, n - 1, c); }
  }

  lemma {:induction false} MergedFrom(ids: Ids, b: Binding, cs: seq<Binding>, n: nat, d: Binding)
    requires n <= |cs|
    ensures d in Merged(ids, b, cs, n) <==> exists k :: 0 <= k < n && Merge(ids, b, cs[k]) == Some(d)
  {
    hide Merge;
    if n > 0 { MergedFrom(ids, b, cs, n - 1, d); }
  }

  lemma {:induction false} MergedReached(ids: Ids, p: Pattern, facts: seq<Triple>, b: Binding, d: Binding)
    ensures var cs := Candidates(ids, p, facts, |facts|);
      d in Merged(ids, b, cs, |cs|) <==> Reached(ids, p, facts, |facts|, b, d)
  {
    hide Candidate, Merge, Candidates, Merged;
    var cs := Candidates(ids, p, facts, |facts|);
    MergedFrom(ids, b, cs, |cs|, d);
    if d in Merged(ids, b, cs, |cs|) {
      var k :| 0 <= k < |cs| && Merge(ids, b, cs[k]) == Some(d);
      CandidatesFrom(ids, p, facts, |facts|, cs[k]);
    }
    if Reached(ids, p, facts, |facts|, b, d) {
      var j :| 0 <= j < |facts| && BindPattern(ids, p, facts[j], b) == Some(d);
      CandidatesFrom(ids, p, facts, |facts|, Candidate(ids, p, facts[j]).value);
    }
  }

  lemma {:induction false} JoinedReached(ids: Ids, bs: seq<Binding>, n: nat, p: Pattern, facts: seq<Triple>, c: Binding)
    requires n <= |bs|
    ensures c in Joined(ids, bs, n, Candidates(ids, p, facts, |facts|)) <==>
      exists i :: 0 <= i < n && Reached(ids, p, facts, |facts|, bs[i], c)
  {
    hide Reached, Candidates, Merged;
    if n > 0 {
      JoinedReached(ids, bs, n - 1, p, facts, c);
      MergedReached(ids, p, facts, bs[n - 1], c);
    }
  }

  /** The joins find exactly the bindings that satisfy the patterns. */
  lemma {:induction false} AllMatchesSat(ids: Ids, ps: seq<Pattern>, n: nat, facts: seq<Triple>, c: Binding)
    requires n <= |ps|
    ensures c in AllMatches(ids, ps, n, facts) <==> SatUpto(ids, ps, n, ToSet(facts), map[], c)
  {
    hide SatUpto, Reached, Joined, ToSet, Candidates;
    if n == 0 {
      NoPatterns(ids, ps, ToSet(facts), c);
      return;
    }
    var bs := AllMatches(ids, ps, n - 1, facts);
    JoinedReached(ids, bs, |bs|, ps[n - 1], facts, c);
    if c in AllMatches(ids, ps, n, facts) {
      var i :| 0 <= i < |bs| && Reached(ids, ps[n - 1], facts, |facts|, bs[i], c);
      AllMatchesSat(ids, ps, n - 1, facts, bs[i]);
      JoinSound(ids, ps, n - 1, facts, bs[i], c);
    }
    if SatUpto(ids, ps, n, ToSet(facts), map[], c) {
      var b := JoinComplete(ids, ps, n - 1, facts, c);
      AllMatchesSat(ids, ps, n - 1, facts, b);
    }
  }

  lemma {:induction false} NoPatterns(ids: Ids, ps: seq<Pattern>, facts: set<Triple>, c: Binding)
    ensures c == map[] <==> SatUpto(ids, ps, 0, facts, map[], c)
  {
    assert c.Keys == {} ==> c == map[];
  }

  // ----- hash joins -----

  method MatchPattern(ids: Ids, p: Pattern, facts: seq<Triple>) returns (cs: seq<Binding>)
    ensures cs == Candidates(ids, p, facts, |facts|)
  {
    cs := [];
    for j := 0 to |facts|
      invariant cs == Candidates(ids, p, facts, j)
    {
      var c := Candidate(ids, p, facts[j]);
      if c.Some? { cs := cs + [c.value]; }
    }
  }

  /** The candidates whose join variable has this normal value. */
  function Keyed(ids: Ids, cs: seq<Binding>, n: nat, x: Text, key: Value): seq<Binding>
    requires n <= |cs|
  {
    if n == 0 then []
    else if x in cs[n - 1] && Normal(ids, cs[n - 1][x]) == key then Keyed(ids, cs, n - 1, x, key) + [cs[n - 1]]
    else Keyed(ids, cs, n - 1, x, key)
  }

  type Buckets = map<Value, seq<Binding>>

  function Bucket(side: Buckets, key: Value): seq<Binding> { if key in side then side[key] else [] }

  method BuildSide(ids: Ids, cs: seq<Binding>, x: Text) returns (side: Buckets)
    ensures forall key :: Bucket(side, key) == Keyed(ids, cs, |cs|, x, key)
  {
    side := map[];
    for n := 0 to |cs|
      invariant forall key :: Bucket(side, key) == Keyed(ids, cs, n, x, key)
    {
      if x in cs[n] {
        var key := Normal(ids, cs[n][x]);
        side := side[key := Bucket(side, key) + [cs[n]]];
      }
    }
  }

  /** A bucket holds every candidate that can join, in order. */
  lemma {:induction false} BucketSuffices(ids: Ids, b: Binding, cs: seq<Binding>, n: nat, x: Text)
    requires n <= |cs| && x in b && forall i :: 0 <= i < |cs| ==> x in cs[i]
    ensures var few := Keyed(ids, cs, n, x, Normal(ids, b[x])); Merged(ids, b, few, |few|) == Merged(ids, b, cs, n)
  {
    hide Normal, Merge;
    if n > 0 {
      BucketSuffices(ids, b, cs, n - 1, x);
      var before := Keyed(ids, cs, n - 1, x, Normal(ids, b[x]));
      if Normal(ids, cs[n - 1][x]) == Normal(ids, b[x]) {
        MergedOneMore(ids, b, before, cs[n - 1]);
      } else {
        MergeApart(ids, b, cs[n - 1], x);
      }
    }
  }

  lemma {:induction false} MergedOneMore(ids: Ids, b: Binding, cs: seq<Binding>, c: Binding)
    ensures Merged(ids, b, cs + [c], |cs| + 1) ==
      match Merge(ids, b, c) { case None => Merged(ids, b, cs, |cs|) case Some(d) => Merged(ids, b, cs, |cs|) + [d] }
  {
    hide Merge;
    MergedPrefix(ids, b, cs, cs + [c], |cs|);
  }

  lemma {:induction false} MergeApart(ids: Ids, b: Binding, c: Binding, x: Text)
    requires x in b && x in c && Normal(ids, c[x]) != Normal(ids, b[x])
    ensures Merge(ids, b, c).None?
  {}

  lemma {:induction false} MergedPrefix(ids: Ids, b: Binding, cs: seq<Binding>, more: seq<Binding>, n: nat)
    requires cs <= more && n <= |cs|
    ensures Merged(ids, b, cs, n) == Merged(ids, b, more, n)
  {
    if n > 0 { MergedPrefix(ids, b, cs, more, n - 1); }
  }

  method MergeAll(ids: Ids, b: Binding, cs: seq<Binding>) returns (ds: seq<Binding>)
    ensures ds == Merged(ids, b, cs, |cs|)
  {
    ds := [];
    for k := 0 to |cs|
      invariant ds == Merged(ids, b, cs, k)
    {
      var d := Merge(ids, b, cs[k]);
      if d.Some? { ds := ds + [d.value]; }
    }
  }

  /** The variable to join on: the entity's, else the value's, when bound so far. */
  function JoinVar(p: Pattern, b: Binding): (x: Option<Text>)
    ensures x.Some? ==> x.value in b && x.value in PatternVars(p)
  {
    if p.entity.Var? && p.entity.name in b then Some(p.entity.name)
    else if p.value.Var? && p.value.name in b then Some(p.value.name)
    else None
  }

  /** Join the bindings found so far with one more pattern, by hashing on a shared variable where there is one. */
  method JoinWithPattern(ids: Ids, bs: seq<Binding>, p: Pattern, facts: seq<Triple>) returns (ds: seq<Binding>)
    requires forall i :: 0 <= i < |bs| ==> bs[i].Keys == bs[0].Keys
    ensures ds == Joined(ids, bs, |bs|, Candidates(ids, p, facts, |facts|))
  {
    hide Merged, Candidates, Keyed;
    if bs == [] { return []; }
    var cs := MatchPattern(ids, p, facts);
    var x := JoinVar(p, bs[0]);
    ds := [];
    if x.None? {
      for n := 0 to |bs|
        invariant ds == Joined(ids, bs, n, cs)
      {
        var more := MergeAll(ids, bs[n], cs);
        ds := ds + more;
      }
    } else {
      CandidatesBind(ids, p, facts, |facts|);
      var side := BuildSide(ids, cs, x.value);
      for n := 0 to |bs|
        invariant ds == Joined(ids, bs, n, cs)
      {
        var few := Bucket(side, Normal(ids, bs[n][x.value]));
        var more := MergeAll(ids, bs[n], few);
        BucketSuffices(ids, bs[n], cs, |cs|, x.value);
        ds := ds + more;
      }
    }
  }

  lemma {:induction false} CandidatesBind(ids: Ids, p: Pattern, facts: seq<Triple>, n: nat)
    requires n <= |facts|
    ensures forall i :: 0 <= i < |Candidates(ids, p, facts, n)| ==> Candidates(ids, p, facts, n)[i].Keys == PatternVars(p)
  {
    hide Candidate, PatternVars;
    if n > 0 {
      CandidatesBind(ids, p, facts, n - 1);
      var c := Candidate(ids, p, facts[n - 1]);
      if c.Some? { CandidateExact(ids, p, facts[n - 1], c.value); }
    }
  }

  /** All bindings that satisfy every pattern, and no others. */
  method MatchPatterns(ids: Ids, ps: seq<Pattern>, facts: seq<Triple>) returns (bs: seq<Binding>)
    ensures bs == AllMatches(ids, ps, |ps|, facts)
    ensures forall b :: b in bs <==> Sat(ids, ps, ToSet(facts), b)
  {
    bs := [map[]];
    for n := 0 to |ps|
      invariant bs == AllMatches(ids, ps, n, facts)
    {
      SameKeys(ids, ps, n, facts);
      bs := JoinWithPattern(ids, bs, ps[n], facts);
    }
    hide AllMatches, SatUpto;
    forall b ensures b in bs <==> Sat(ids, ps, ToSet(facts), b) { AllMatchesSat(ids, ps, |ps|, facts, b); }
  }

  lemma {:induction false} SameKeys(ids: Ids, ps: seq<Pattern>, n: nat, facts: seq<Triple>)
    requires n <= |ps|
    ensures var bs := AllMatches(ids, ps, n, facts); forall i :: 0 <= i < |bs| ==> bs[i].Keys == VarsUpto(ps, n)
  {
    hide AllMatches;
    var bs := AllMatches(ids, ps, n, facts);
    forall i | 0 <= i < |bs| ensures bs[i].Keys == VarsUpto(ps, n) { AllMatchesSat(ids, ps, n, facts, bs[i]); }
  }

  // ----- negations -----

  /** Replace a bound variable by its value; null becomes a symbol. */
  function Substitute(term: Term, b: Binding): Term {
    if term.Var? && term.name in b then (if b[term.name] == Null then Symbol else Const(b[term.name])) else term
  }

  function SubstitutePattern(p: Pattern, b: Binding): Pattern {
    Pattern(Substitute(p.entity, b), p.attribute, Substitute(p.value, b))
  }

  function SubstituteAll(ps: seq<Pattern>, b: Binding): (r: seq<Pattern>)
    ensures |r| == |ps| && forall i :: 0 <= i < |ps| ==> r[i] == SubstitutePattern(ps[i], b)
  {
    seq(|ps|, i requires 0 <= i < |ps| => SubstitutePattern(ps[i], b))
  }

  lemma {:induction false} PatternSubstitutedVars(p: Pattern, b: Binding)
    ensures PatternVars(SubstitutePattern(p, b)) == PatternVars(p) - b.Keys
  {}

  lemma {:induction false} SubstitutedVars(ps: seq<Pattern>, b: Binding, n: nat)
    requires n <= |ps|
    ensures VarsUpto(SubstituteAll(ps, b), n) == VarsUpto(ps, n) - b.Keys
  {
    hide PatternVars, SubstitutePattern;
    if n > 0 {
      SubstitutedVars(ps, b, n - 1);
      PatternSubstitutedVars(ps[n - 1], b);
    }
  }

  /** A substituted term accepts what the term accepts with those variables fixed. */
  lemma {:induction false} TermSubstituted(ids: Ids, term: Term, v: Value, fixed: Binding, known: set<Text>, d: Binding)
    requires forall x :: x in TermVars(term) && x in fixed ==> fixed[x] != Null
    ensures TermFits(ids, Substitute(term, fixed), v, map[], known - fixed.Keys, d) == TermFits(ids, term, v, fixed, known, d)
  {
    hide Accepts;
    if term.Var? { assert term.name in TermVars(term); }
  }

  lemma {:induction false} SupportsSubstituted(ids: Ids, p: Pattern, facts: set<Triple>, fixed: Binding, known: set<Text>, d: Binding)
    requires forall x :: x in PatternVars(p) && x in fixed ==> fixed[x] != Null
    ensures Supports(ids, SubstitutePattern(p, fixed), facts, map[], known - fixed.Keys, d) == Supports(ids, p, facts, fixed, known, d)
  {
    var q := SubstitutePattern(p, fixed);
    forall t ensures Fits(ids, q, t, map[], known - fixed.Keys, d) == Fits(ids, p, t, fixed, known, d) {
      TermSubstituted(ids, p.entity, Ref(t.entity), fixed, known, d);
      TermSubstituted(ids, p.value, t.value, fixed, known, d);
      hide TermFits;
      assert Repeated(q, map[]) == Repeated(p, fixed);
    }
  }

  lemma {:induction false} SatSubstituted(ids: Ids, ps: seq<Pattern>, facts: set<Triple>, fixed: Binding, d: Binding)
    requires forall x :: x in VarsUpto(ps, |ps|) && x in fixed ==> fixed[x] != Null
    ensures Sat(ids, SubstituteAll(ps, fixed), facts, d) <==> SatUpto(ids, ps, |ps|, facts, fixed, d)
  {
    hide Supports, SubstitutePattern, PatternVars;
    var qs := SubstituteAll(ps, fixed);
    SubstitutedVars(ps, fixed, |ps|);
    forall i | 0 <= i < |ps|
      ensures Holds(ids, qs, i, facts, map[], d) == Holds(ids, ps, i, facts, fixed, d)
    {
      VarsInclude(ps, |ps|, i);
      SubstitutedVars(ps, fixed, i);
      SupportsSubstituted(ids, ps[i], facts, fixed, VarsUpto(ps, i), d);
    }
  }

  /** A shared null leaves a pattern that matches nothing. */
  lemma {:induction false} NullNeverMatches(ids: Ids, ps: seq<Pattern>, facts: set<Triple>, fixed: Binding, x: Text, d: Binding)
    requires x in fixed && fixed[x] == Null && x in VarsUpto(ps, |ps|)
    ensures !Sat(ids, SubstituteAll(ps, fixed), facts, d)
  {
    var i := FirstUse(ps, |ps|, x);
    var qs := SubstituteAll(ps, fixed);
    assert !Holds(ids, qs, i, facts, map[], d);
  }

  /** Matching the substituted body decides exactly whether the negation blocks the binding. */
  lemma {:induction false} SubstitutionDecides(ids: Ids, n: Negation, facts: set<Triple>, b: Binding)
    ensures Blocked(ids, n, facts, b) <==> exists d :: Sat(ids, SubstituteAll(Patterns(n.body), Shared(n, b)), facts, d)
  {
    hide SatUpto;
    var ps, shared := Patterns(n.body), Shared(n, b);
    if NullShared(n, b) {
      var x :| x in shared && x in VarsUpto(ps, |ps|) && b[x] == Null;
      forall d ensures !Sat(ids, SubstituteAll(ps, shared), facts, d) { NullNeverMatches(ids, ps, facts, shared, x, d); }
    } else {
      forall d ensures Sat(ids, SubstituteAll(ps, shared), facts, d) <==> SatUpto(ids, ps, |ps|, facts, shared, d) {
        SatSubstituted(ids, ps, facts, shared, d);
      }
    }
  }

  /** Whether a negation rejects a binding. */
  method EvaluateNegation(ids: Ids, n: Negation, facts: seq<Triple>, b: Binding) returns (blocked: bool)
    ensures blocked == Blocked(ids, n, ToSet(facts), b)
  {
    hide Sat, Blocked;
    SubstitutionDecides(ids, n, ToSet(facts), b);
    var found := MatchPatterns(ids, SubstituteAll(Patterns(n.body), Shared(n, b)), facts);
    blocked := found != [];
    assert blocked ==> found[0] in found;
  }

  /** A shared null can make a negation miss a match: `(not [?x :a ?v])` under `?v = nil` never blocks. */
  lemma {:induction false} NullEscapesNegation(ids: Ids)
    ensures exists n, facts, b :: Satisfiable(ids, n, facts, b) && !Blocked(ids, n, facts, b)
  {
    var v: Text := [118];
    var p := Pattern(Const(Ref(1)), [97], Var(v));
    var n, facts: set<Triple>, b: Binding := Not([Match(p)]), {Triple(1, [97], Null)}, map[v := Null];
    var ps := Patterns(n.body);
    assert ps == [p];
    assert VarsUpto(ps, 1) == VarsUpto(ps, 0) + {v} == {v};
    assert Supports(ids, p, facts, b, {}, map[]) by { assert Fits(ids, p, Triple(1, [97], Null), b, {}, map[]); }
    assert Holds(ids, ps, 0, facts, b, map[]);
    assert SatUpto(ids, ps, 1, facts, b, map[]);
    assert Shared(n, b) == b && |n.body| == 1;
    assert SatUpto(ids, Patterns(n.body), |n.body|, facts, Shared(n, b), map[]);
    assert Satisfiable(ids, n, facts, b);
    assert v in Shared(n, b);
    assert NullShared(n, b);
  }
}
