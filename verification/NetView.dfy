/** The net-asserted view: which assertions survive retraction and re-assertion. */
module NetView {
  import opened Bytes
  import opened Facts
  import opened ValueEncoding

  /** (entity, attribute, encoded value). */
  datatype Eav = Eav(entity: EntityId, attribute: Text, value: seq<byte>)
  /** A triple in one validity window. */
  datatype Window = Window(eav: Eav, validFrom: i64, validTo: i64)

  function EavOf(f: Fact): Eav { Eav(f.entity, f.attribute, Encode(f.value)) }
  function WindowOf(f: Fact): Window { Window(EavOf(f), f.validFrom, f.validTo) }

  // ----- what the view keeps -----

  /** `i` is the first assertion of highest `tx_count` of its window among the first `n` facts. */
  ghost predicate Wins(facts: seq<Fact>, n: nat, i: nat)
    requires i < n <= |facts|
  {
    && facts[i].asserted
    && (forall j :: 0 <= j < n && facts[j].asserted && WindowOf(facts[j]) == WindowOf(facts[i]) ==>
          facts[j].txCount < facts[i].txCount || (facts[j].txCount == facts[i].txCount && i <= j))
  }

  /** No retraction of the triple among the first `n` facts is as recent as `tx`, and `tx` is not 0. */
  ghost predicate Outlives(facts: seq<Fact>, n: nat, eav: Eav, tx: nat)
    requires n <= |facts|
  {
    tx > 0 && forall j :: 0 <= j < n && !facts[j].asserted && EavOf(facts[j]) == eav ==> facts[j].txCount < tx
  }

  ghost predicate IsKept(facts: seq<Fact>, i: nat)
    requires i < |facts|
  {
    Wins(facts, |facts|, i) && Outlives(facts, |facts|, EavOf(facts[i]), facts[i].txCount)
  }

  /** The kept facts among the first `n`, in input order. */
  ghost function NetUpto(facts: seq<Fact>, n: nat): seq<Fact>
    requires n <= |facts|
  {
    if n == 0 then [] else NetUpto(facts, n - 1) + (if IsKept(facts, n - 1) then [facts[n - 1]] else [])
  }

  ghost function Net(facts: seq<Fact>): seq<Fact> { NetUpto(facts, |facts|) }

  /** Two facts are about one triple: the same entity and attribute, and values of one encoding. */
  ghost predicate SameTriple(f: Fact, g: Fact) {
    f.entity == g.entity && f.attribute == g.attribute && Encode(f.value) == Encode(g.value)
  }

  ghost predicate SameWindow(f: Fact, g: Fact) { SameTriple(f, g) && f.validFrom == g.validFrom && f.validTo == g.validTo }

  /**
   * A fact is kept if and only if it is an assertion with a count, no assertion of its triple and window has a higher count
   * or comes first with the same, and no retraction of its triple has one as high.
   */
  lemma {:induction false} KeptIff(facts: seq<Fact>, i: nat)
    requires i < |facts|
    ensures IsKept(facts, i) <==>
      && facts[i].asserted && facts[i].txCount > 0
      && (forall j :: 0 <= j < |facts| && facts[j].asserted && SameWindow(facts[j], facts[i]) ==>
            facts[j].txCount < facts[i].txCount || (facts[j].txCount == facts[i].txCount && i <= j))
      && forall j :: 0 <= j < |facts| && !facts[j].asserted && SameTriple(facts[j], facts[i]) ==> facts[j].txCount < facts[i].txCount
  {
    forall j | 0 <= j < |facts|
      ensures SameTriple(facts[j], facts[i]) <==> EavOf(facts[j]) == EavOf(facts[i])
      ensures SameWindow(facts[j], facts[i]) <==> WindowOf(facts[j]) == WindowOf(facts[i])
    {}
    hide SameTriple, SameWindow, EavOf, WindowOf, Encode;
  }

  // ----- net_asserted_facts -----

  /** The two group maps after the first `n` facts. */
  ghost predicate Grouped(facts: seq<Fact>, n: nat, retract: map<Eav, nat>, win: map<Window, (nat, nat)>)
    requires n <= |facts|
  {
    && (forall j :: 0 <= j < n && !facts[j].asserted ==> EavOf(facts[j]) in retract && facts[j].txCount <= retract[EavOf(facts[j])])
    && (forall k :: k in retract ==> RetractedAt(facts, n, k, retract[k]))
    && (forall j :: 0 <= j < n && facts[j].asserted ==> WindowOf(facts[j]) in win)
    && (forall w :: w in win ==> WonAt(facts, n, w, win[w].0, win[w].1))
  }

  ghost predicate RetractedAt(facts: seq<Fact>, n: nat, k: Eav, tx: nat)
    requires n <= |facts|
  {
    exists j :: 0 <= j < n && !facts[j].asserted && EavOf(facts[j]) == k && facts[j].txCount == tx
  }

  ghost predicate WonAt(facts: seq<Fact>, n: nat, w: Window, i: nat, tx: nat)
    requires n <= |facts|
  {
    i < n && WindowOf(facts[i]) == w && facts[i].txCount == tx && Wins(facts, n, i)
  }

  lemma GroupedRetraction(facts: seq<Fact>, n: nat, retract: map<Eav, nat>, win: map<Window, (nat, nat)>)
    requires n < |facts| && Grouped(facts, n, retract, win) && !facts[n].asserted
    ensures var k := EavOf(facts[n]);
      var tx := if k in retract && retract[k] >= facts[n].txCount then retract[k] else facts[n].txCount;
      Grouped(facts, n + 1, retract[k := tx], win)
  {
    hide Encode;
    var k := EavOf(facts[n]);
    var tx := if k in retract && retract[k] >= facts[n].txCount then retract[k] else facts[n].txCount;
    var r := retract[k := tx];
    forall k' | k' in r ensures RetractedAt(facts, n + 1, k', r[k']) {
      if k' in retract {
        assert RetractedAt(facts, n, k', retract[k']);
      }
    }
    forall w | w in win ensures WonAt(facts, n + 1, w, win[w].0, win[w].1) {
      assert WonAt(facts, n, w, win[w].0, win[w].1);
    }
  }

  lemma GroupedAssertion(facts: seq<Fact>, n: nat, retract: map<Eav, nat>, win: map<Window, (nat, nat)>)
    requires n < |facts| && Grouped(facts, n, retract, win) && facts[n].asserted
    ensures var w := WindowOf(facts[n]);
      Grouped(facts, n + 1, retract,
              if w in win && facts[n].txCount <= win[w].1 then win else win[w := (n, facts[n].txCount)])
  {
    hide Encode;
    var w := WindowOf(facts[n]);
    var win' := if w in win && facts[n].txCount <= win[w].1 then win else win[w := (n, facts[n].txCount)];
    forall k | k in retract ensures RetractedAt(facts, n + 1, k, retract[k]) {
      assert RetractedAt(facts, n, k, retract[k]);
    }
    forall v | v in win' ensures WonAt(facts, n + 1, v, win'[v].0, win'[v].1) {
      if v in win { assert WonAt(facts, n, v, win[v].0, win[v].1); }
    }
  }

  /** With the maps complete, a window's winner survives exactly when the fact is kept. */
  lemma WinnerKept(facts: seq<Fact>, retract: map<Eav, nat>, win: map<Window, (nat, nat)>, i: nat)
    requires Grouped(facts, |facts|, retract, win) && i < |facts|
    ensures IsKept(facts, i) <==>
      && facts[i].asserted && win[WindowOf(facts[i])].0 == i
      && win[WindowOf(facts[i])].1 > (if EavOf(facts[i]) in retract then retract[EavOf(facts[i])] else 0)
  {
    if facts[i].asserted {
      var w, k := WindowOf(facts[i]), EavOf(facts[i]);
      assert WonAt(facts, |facts|, w, win[w].0, win[w].1);
      if k in retract { assert RetractedAt(facts, |facts|, k, retract[k]); }
    }
  }

  lemma GroupedStart(facts: seq<Fact>)
    ensures Grouped(facts, 0, map[], map[])
  {
  }

  /** Group by triple and by window in one pass. */
  method Group(facts: seq<Fact>) returns (retract: map<Eav, nat>, win: map<Window, (nat, nat)>)
    ensures Grouped(facts, |facts|, retract, win)
  {
    hide Grouped, Encode;
    retract, win := map[], map[];
    GroupedStart(facts);
    for n := 0 to |facts|
      invariant Grouped(facts, n, retract, win)
    {
      var fact := facts[n];
      if fact.asserted {
        GroupedAssertion(facts, n, retract, win);
        var w := WindowOf(fact);
        if !(w in win && fact.txCount <= win[w].1) {
          win := win[w := (n, fact.txCount)];
        }
      } else {
        GroupedRetraction(facts, n, retract, win);
        var k := EavOf(fact);
        retract := retract[k := if k in retract && retract[k] >= fact.txCount then retract[k] else fact.txCount];
      }
    }
  }

  /** Mark each window's winner unless a retraction of its triple is as recent. */
  method MarkKept(facts: seq<Fact>, retract: map<Eav, nat>, win: map<Window, (nat, nat)>, keep: array<bool>)
    requires Grouped(facts, |facts|, retract, win) && keep.Length == |facts|
    requires forall i :: 0 <= i < keep.Length ==> !keep[i]
    modifies keep
    ensures forall i :: 0 <= i < keep.Length ==> (keep[i] <==> IsKept(facts, i))
  {
    hide Encode;
    var todo := win.Keys;
    while todo != {}
      invariant todo <= win.Keys
      invariant forall i :: 0 <= i < keep.Length ==> (keep[i] <==> IsKept(facts, i) && WindowOf(facts[i]) !in todo)
      decreases todo
    {
      var w :| w in todo;
      todo := todo - {w};
      var (idx, tx) := win[w];
      assert WonAt(facts, |facts|, w, idx, tx);
      WinnerKept(facts, retract, win, idx);
      var bar := if w.eav in retract then retract[w.eav] else 0;
      if tx > bar { keep[idx] := true; }
      forall i | 0 <= i < keep.Length ensures keep[i] <==> IsKept(facts, i) && WindowOf(facts[i]) !in todo {
        WinnerKept(facts, retract, win, i);
      }
    }
    forall i | 0 <= i < keep.Length ensures keep[i] <==> IsKept(facts, i) { WinnerKept(facts, retract, win, i); }
  }

  /** The net view: group by window, mark the winners, keep them in order. */
  method NetAssertedFacts(facts: seq<Fact>) returns (r: seq<Fact>)
    ensures r == Net(facts)
  {
    hide Grouped, IsKept, Encode;
    var retract, win := Group(facts);
    var keep := new bool[|facts|](_ => false);
    MarkKept(facts, retract, win, keep);
    r := [];
    for n := 0 to |facts|
      invariant r == NetUpto(facts, n)
    {
      if keep[n] { r := r + [facts[n]]; }
    }
  }

  // ----- the view as a set -----

  ghost function Elems(facts: seq<Fact>): set<Fact> {
    set i | 0 <= i < |facts| :: facts[i]
  }

  /** Assertions of one window with one `tx_count` are one fact, as distinct index keys guarantee. */
  ghost predicate TieFree(s: set<Fact>) {
    forall f, g :: f in s && g in s && f.asserted && g.asserted && WindowOf(f) == WindowOf(g) && f.txCount == g.txCount ==> f == g
  }

  ghost predicate SurvivesIn(s: set<Fact>, f: Fact) {
    && f in s && f.asserted && f.txCount > 0
    && (forall g :: g in s && g.asserted && WindowOf(g) == WindowOf(f) ==> g.txCount <= f.txCount)
    && (forall g :: g in s && !g.asserted && EavOf(g) == EavOf(f) ==> g.txCount < f.txCount)
  }

  /** The net view of a fact set, without any order. */
  ghost function NetSet(s: set<Fact>): set<Fact> {
    set f | f in s && SurvivesIn(s, f)
  }

  lemma KeptSurvives(facts: seq<Fact>, i: nat)
    requires i < |facts| && IsKept(facts, i)
    ensures SurvivesIn(Elems(facts), facts[i])
  {
    forall g | g in Elems(facts) && g.asserted && WindowOf(g) == WindowOf(facts[i]) ensures g.txCount <= facts[i].txCount {
      var j :| 0 <= j < |facts| && facts[j] == g;
    }
    forall g | g in Elems(facts) && !g.asserted && EavOf(g) == EavOf(facts[i]) ensures g.txCount < facts[i].txCount {
      var j :| 0 <= j < |facts| && facts[j] == g;
    }
  }

  lemma {:induction false} FirstAt(facts: seq<Fact>, f: Fact, n: nat) returns (i: nat)
    requires n <= |facts| && exists j :: 0 <= j < n && facts[j] == f
    ensures i < n && facts[i] == f && forall j :: 0 <= j < i ==> facts[j] != f
  {
    if exists j :: 0 <= j < n - 1 && facts[j] == f {
      i := FirstAt(facts, f, n - 1);
    } else {
      i := n - 1;
    }
  }

  /** Among equal survivors the first is kept. */
  lemma SurvivorKept(facts: seq<Fact>, f: Fact) returns (i: nat)
    requires TieFree(Elems(facts)) && SurvivesIn(Elems(facts), f)
    ensures i < |facts| && facts[i] == f && IsKept(facts, i)
  {
    hide Encode;
    i := FirstAt(facts, f, |facts|);
    forall j | 0 <= j < |facts| && facts[j].asserted && WindowOf(facts[j]) == WindowOf(f)
      ensures facts[j].txCount < f.txCount || (facts[j].txCount == f.txCount && i <= j)
    {
      assert facts[j] in Elems(facts);
    }
    forall j | 0 <= j < |facts| && !facts[j].asserted && EavOf(facts[j]) == EavOf(f) ensures facts[j].txCount < f.txCount {
      assert facts[j] in Elems(facts);
    }
  }

  lemma {:induction false} NetUptoElems(facts: seq<Fact>, n: nat, f: Fact)
    requires n <= |facts|
    ensures f in NetUpto(facts, n) <==> exists i :: 0 <= i < n && facts[i] == f && IsKept(facts, i)
  {
    hide IsKept;
    if n > 0 { NetUptoElems(facts, n - 1, f); }
  }

  /** Where ties are equal facts, the view depends only on which facts there are. */
  lemma {:induction false} NetElems(facts: seq<Fact>)
    requires TieFree(Elems(facts))
    ensures Elems(Net(facts)) == NetSet(Elems(facts))
  {
    hide IsKept, SurvivesIn, TieFree;
    forall f ensures f in Elems(Net(facts)) <==> f in NetSet(Elems(facts)) {
      NetUptoElems(facts, |facts|, f);
      if f in Elems(Net(facts)) {
        var i :| 0 <= i < |facts| && facts[i] == f && IsKept(facts, i);
        KeptSurvives(facts, i);
      }
      if f in NetSet(Elems(facts)) {
        var i := SurvivorKept(facts, f);
        assert f in Net(facts);
      }
    }
  }

  /** A condition on entity and attribute only. */
  ghost predicate OnEntityAttribute(p: Fact -> bool) {
    forall f: Fact, g: Fact :: f.entity == g.entity && f.attribute == g.attribute ==> p(f) == p(g)
  }

  ghost function Restrict(s: set<Fact>, p: Fact -> bool): set<Fact> {
    set f | f in s && p(f)
  }

  /** The net view commutes with restriction to entities and attributes. */
  lemma {:induction false} NetRestricts(s: set<Fact>, p: Fact -> bool)
    requires OnEntityAttribute(p)
    ensures NetSet(Restrict(s, p)) == Restrict(NetSet(s), p)
  {
    hide Encode;
    forall f ensures f in NetSet(Restrict(s, p)) <==> f in Restrict(NetSet(s), p) {
      if f in s && p(f) && SurvivesIn(Restrict(s, p), f) {
        forall g | g in s && EavOf(g) == EavOf(f) ensures g in Restrict(s, p) { assert p(g) == p(f); }
        assert SurvivesIn(s, f);
      }
    }
  }

  // ----- repeated input -----

  /** No two facts of the view share a window, and none is a retraction. */
  lemma {:induction false} NetDistinct(facts: seq<Fact>, n: nat)
    requires n <= |facts|
    ensures forall k :: 0 <= k < |NetUpto(facts, n)| ==> NetUpto(facts, n)[k].asserted && NetUpto(facts, n)[k].txCount > 0
    ensures forall j, k :: 0 <= j < k < |NetUpto(facts, n)| ==> WindowOf(NetUpto(facts, n)[j]) != WindowOf(NetUpto(facts, n)[k])
  {
    hide Encode;
    if n > 0 {
      NetDistinct(facts, n - 1);
      if IsKept(facts, n - 1) {
        var net := NetUpto(facts, n - 1);
        forall j | 0 <= j < |net| ensures WindowOf(net[j]) != WindowOf(facts[n - 1]) {
          NetUptoElems(facts, n - 1, net[j]);
          var i :| 0 <= i < n - 1 && facts[i] == net[j] && IsKept(facts, i);
        }
      }
    }
  }

  lemma {:induction false} AllKept(facts: seq<Fact>, n: nat)
    requires n <= |facts| && forall i :: 0 <= i < |facts| ==> IsKept(facts, i)
    ensures NetUpto(facts, n) == facts[..n]
  {
    hide IsKept;
    if n > 0 {
      AllKept(facts, n - 1);
      assert facts[..n] == facts[..n - 1] + [facts[n - 1]];
    }
  }

  /** The net view of a net view is itself. */
  lemma {:induction false} NetIdempotent(facts: seq<Fact>)
    ensures Net(Net(facts)) == Net(facts)
  {
    hide Encode;
    var net := Net(facts);
    NetDistinct(facts, |facts|);
    forall i | 0 <= i < |net| ensures IsKept(net, i) {
      forall j | 0 <= j < |net| && WindowOf(net[j]) == WindowOf(net[i]) ensures j == i {
        assert !(j < i) && !(i < j);
      }
    }
    AllKept(net, |net|);
    assert net[..|net|] == net;
  }

  lemma DoubledKept(facts: seq<Fact>, i: nat)
    requires i < 2 * |facts|
    ensures IsKept(facts + facts, i) <==> i < |facts| && IsKept(facts, i)
  {
    hide Encode;
    var n, two := |facts|, facts + facts;
    assert forall j :: 0 <= j < n ==> two[j] == facts[j] && two[j + n] == facts[j];
    if i < n {
      if IsKept(two, i) {
        assert forall j :: 0 <= j < n ==> facts[j] == two[j];
        assert IsKept(facts, i);
      }
      if IsKept(facts, i) {
        forall j | 0 <= j < 2 * n && two[j].asserted && WindowOf(two[j]) == WindowOf(two[i])
          ensures two[j].txCount < two[i].txCount || (two[j].txCount == two[i].txCount && i <= j)
        {
          var m := if j < n then j else j - n;
          assert two[j] == facts[m];
        }
        forall j | 0 <= j < 2 * n && !two[j].asserted && EavOf(two[j]) == EavOf(two[i]) ensures two[j].txCount < two[i].txCount {
          var m := if j < n then j else j - n;
          assert two[j] == facts[m];
        }
      }
    } else {
      assert two[i - n] == two[i];
    }
  }

  lemma {:induction false} NetDoubledUpto(facts: seq<Fact>, n: nat)
    requires n <= 2 * |facts|
    ensures NetUpto(facts + facts, n) == NetUpto(facts, if n <= |facts| then n else |facts|)
  {
    hide IsKept;
    if n > 0 {
      NetDoubledUpto(facts, n - 1);
      DoubledKept(facts, n - 1);
    }
  }

  /** Repeating the input after itself changes nothing. */
  lemma {:induction false} NetDoubled(facts: seq<Fact>)
    ensures Net(facts + facts) == Net(facts)
  {
    NetDoubledUpto(facts, 2 * |facts|);
  }
}
