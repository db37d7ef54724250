/** The in-memory fact store: pending facts, their duplicate keys and their four indexes. */
module FactStore {
  import opened Bytes
  import opened Facts
  import opened ValueEncoding

  /** The key `load_fact` recognises duplicates by; the wall-clock `tx_id` is not part of it. */
  datatype PendingKey = PendingKey(entity: EntityId, attribute: Text, value: seq<byte>, validFrom: i64, validTo: i64,
                                   txCount: u64, asserted: bool)

  function KeyOf(f: Fact): PendingKey {
    PendingKey(f.entity, f.attribute, Encode(f.value), f.validFrom, f.validTo, f.txCount, f.asserted)
  }

  /** Two facts are duplicates: the same but for the wall-clock id and for values of one encoding. */
  ghost predicate Duplicate(f: Fact, g: Fact) {
    && f.entity == g.entity && f.attribute == g.attribute && Encode(f.value) == Encode(g.value)
    && f.validFrom == g.validFrom && f.validTo == g.validTo && f.txCount == g.txCount && f.asserted == g.asserted
  }

  lemma {:induction false} DuplicateIff(f: Fact, g: Fact)
    ensures KeyOf(f) == KeyOf(g) <==> Duplicate(f, g)
  {
    hide Encode;
  }

  datatype EavtKey = EavtKey(entity: EntityId, attribute: Text, validFrom: i64, validTo: i64, txCount: u64)
  datatype AevtKey = AevtKey(attribute: Text, entity: EntityId, validFrom: i64, validTo: i64, txCount: u64)
  datatype AvetKey = AvetKey(attribute: Text, value: seq<byte>, validFrom: i64, validTo: i64, entity: EntityId, txCount: u64)
  datatype VaetKey = VaetKey(target: EntityId, attribute: Text, validFrom: i64, validTo: i64, source: EntityId, txCount: u64)

  function Eavt(f: Fact): Option<EavtKey> { Some(EavtKey(f.entity, f.attribute, f.validFrom, f.validTo, f.txCount)) }
  function Aevt(f: Fact): Option<AevtKey> { Some(AevtKey(f.attribute, f.entity, f.validFrom, f.validTo, f.txCount)) }
  function Avet(f: Fact): Option<AvetKey> {
    Some(AvetKey(f.attribute, Encode(f.value), f.validFrom, f.validTo, f.entity, f.txCount))
  }
  /** Only references are in the reverse index. */
  function Vaet(f: Fact): Option<VaetKey> {
    if f.value.Ref? then Some(VaetKey(f.value.id, f.attribute, f.validFrom, f.validTo, f.entity, f.txCount)) else None
  }

  /** Two facts take one place in the entity and attribute indexes. */
  ghost predicate SamePlace(f: Fact, g: Fact) {
    f.entity == g.entity && f.attribute == g.attribute && f.validFrom == g.validFrom && f.validTo == g.validTo && f.txCount == g.txCount
  }

  lemma {:induction false} PlaceIff(f: Fact, g: Fact)
    ensures Eavt(f) == Eavt(g) <==> SamePlace(f, g)
    ensures Aevt(f) == Aevt(g) <==> SamePlace(f, g)
  {}

  /** The value index tells facts apart by their encoded values too; the reverse index lists references by their targets. */
  lemma {:induction false} ValuePlaceIff(f: Fact, g: Fact)
    ensures Avet(f) == Avet(g) <==> SamePlace(f, g) && Encode(f.value) == Encode(g.value)
    ensures Vaet(f).Some? <==> f.value.Ref?
    ensures f.value.Ref? ==> (Vaet(f) == Vaet(g) <==> SamePlace(f, g) && f.value == g.value)
  {
    hide Encode;
  }

  // ----- what the derived structures are -----

  ghost function Keys(facts: seq<Fact>): set<PendingKey> {
    set i | 0 <= i < |facts| :: KeyOf(facts[i])
  }

  /** An index over the first `n` facts: each key to the last fact inserted under it. */
  ghost function Index<K(!new)>(facts: seq<Fact>, n: nat, key: Fact -> Option<K>): map<K, nat>
    requires n <= |facts|
  {
    if n == 0 then map[]
    else
      var before := Index(facts, n - 1, key);
      match key(facts[n - 1])
      case None => before
      case Some(k) => before[k := n - 1]
  }

  /** Every index entry points to a fact with that key, and every fact's key is in the index. */
  lemma {:induction false} IndexPoints<K(!new)>(facts: seq<Fact>, n: nat, key: Fact -> Option<K>)
    requires n <= |facts|
    ensures forall k :: k in Index(facts, n, key) ==> Index(facts, n, key)[k] < n && key(facts[Index(facts, n, key)[k]]) == Some(k)
    ensures forall i :: 0 <= i < n && key(facts[i]).Some? ==>
      key(facts[i]).value in Index(facts, n, key) && Index(facts, n, key)[key(facts[i]).value] >= i
  {
    if n > 0 { IndexPoints(facts, n - 1, key); }
  }

  lemma {:induction false} IndexPrefix<K(!new)>(facts: seq<Fact>, more: seq<Fact>, n: nat, key: Fact -> Option<K>)
    requires n <= |facts|
    ensures Index(facts + more, n, key) == Index(facts, n, key)
  {
    if n > 0 {
      IndexPrefix(facts, more, n - 1, key);
      assert (facts + more)[n - 1] == facts[n - 1];
    }
  }

  lemma IndexAppend<K(!new)>(facts: seq<Fact>, f: Fact, key: Fact -> Option<K>)
    ensures Index(facts + [f], |facts| + 1, key) ==
      match key(f) case None => Index(facts, |facts|, key) case Some(k) => Index(facts, |facts|, key)[k := |facts|]
  {
    IndexPrefix(facts, [f], |facts|, key);
    assert (facts + [f])[|facts|] == f;
  }

  predicate Met(facts: seq<Fact>, k: PendingKey) { exists i :: 0 <= i < |facts| && KeyOf(facts[i]) == k }

  /** The facts of `fs[..n]` whose key is not in `keys` and not met before, in order. */
  function Novel(keys: set<PendingKey>, fs: seq<Fact>, n: nat): seq<Fact>
    requires n <= |fs|
  {
    if n == 0 then []
    else
      var before := Novel(keys, fs, n - 1);
      if KeyOf(fs[n - 1]) in keys || Met(before, KeyOf(fs[n - 1])) then before
      else before + [fs[n - 1]]
  }

  const MAX_SLOTS := 0x1_0000_0000

  /** What a batch load makes of the pending facts: all novel facts, or none when a slot would not fit. */
  ghost function Loaded(facts: seq<Fact>, fs: seq<Fact>): seq<Fact> {
    var novel := Novel(Keys(facts), fs, |fs|);
    if |facts| + |novel| <= MAX_SLOTS then facts + novel else facts
  }

  ghost predicate Held(facts: seq<Fact>, f: Fact) { exists g :: g in facts && Duplicate(g, f) }

  ghost predicate Earlier(fs: seq<Fact>, n: nat, f: Fact)
    requires n <= |fs|
  {
    exists j :: 0 <= j < n && Duplicate(fs[j], f)
  }

  /** The facts of `fs[..n]` that are no duplicates of a fact of `facts` or of an earlier one of `fs`, in order of arrival. */
  ghost function Arrivals(facts: seq<Fact>, fs: seq<Fact>, n: nat): seq<Fact>
    requires n <= |fs|
  {
    if n == 0 then []
    else
      var before := Arrivals(facts, fs, n - 1);
      if Held(facts, fs[n - 1]) || Earlier(fs, n - 1, fs[n - 1]) then before
      else before + [fs[n - 1]]
  }

  lemma {:induction false} KeyCovers(keys: set<PendingKey>, fs: seq<Fact>, n: nat, i: nat)
    requires i < n <= |fs| && KeyOf(fs[i]) !in keys
    ensures Met(Novel(keys, fs, n), KeyOf(fs[i]))
  {
    hide KeyOf;
    var before := Novel(keys, fs, n - 1);
    if i < n - 1 { KeyCovers(keys, fs, n - 1, i); }
    if Met(before, KeyOf(fs[i])) {
      var j :| 0 <= j < |before| && KeyOf(before[j]) == KeyOf(fs[i]);
      assert Novel(keys, fs, n)[j] == before[j];
    } else {
      assert Novel(keys, fs, n)[|before|] == fs[i];
    }
  }

  lemma {:induction false} NovelMet(keys: set<PendingKey>, fs: seq<Fact>, n: nat, j: nat) returns (i: nat)
    requires n <= |fs| && j < |Novel(keys, fs, n)|
    ensures i < n && fs[i] == Novel(keys, fs, n)[j] && KeyOf(fs[i]) !in keys
  {
    hide KeyOf, Met;
    if j < |Novel(keys, fs, n - 1)| { i := NovelMet(keys, fs, n - 1, j); } else { i := n - 1; }
  }

  lemma KeyIn(facts: seq<Fact>, f: Fact)
    ensures KeyOf(f) in Keys(facts) <==> Held(facts, f)
  {
    forall g ensures KeyOf(g) == KeyOf(f) <==> Duplicate(g, f) { DuplicateIff(g, f); }
    hide KeyOf, Duplicate;
    if KeyOf(f) in Keys(facts) {
      var i :| 0 <= i < |facts| && KeyOf(facts[i]) == KeyOf(f);
      assert facts[i] in facts;
    }
  }

  lemma MetEarlier(keys: set<PendingKey>, fs: seq<Fact>, n: nat, f: Fact)
    requires n <= |fs| && KeyOf(f) !in keys
    ensures Met(Novel(keys, fs, n), KeyOf(f)) <==> Earlier(fs, n, f)
  {
    forall g ensures KeyOf(g) == KeyOf(f) <==> Duplicate(g, f) { DuplicateIff(g, f); }
    hide KeyOf, Duplicate, Novel;
    var novel := Novel(keys, fs, n);
    if Met(novel, KeyOf(f)) {
      var j :| 0 <= j < |novel| && KeyOf(novel[j]) == KeyOf(f);
      var i := NovelMet(keys, fs, n, j);
      assert Duplicate(fs[i], f);
    }
    if Earlier(fs, n, f) {
      var j :| 0 <= j < n && Duplicate(fs[j], f);
      KeyCovers(keys, fs, n, j);
    }
  }

  /** What a load adds is what arrives first, in order. */
  lemma {:induction false} NovelArrives(facts: seq<Fact>, fs: seq<Fact>, n: nat)
    requires n <= |fs|
    ensures Novel(Keys(facts), fs, n) == Arrivals(facts, fs, n)
  {
    hide KeyOf, Keys, Met, Held, Earlier;
    if n > 0 {
      NovelArrives(facts, fs, n - 1);
      KeyIn(facts, fs[n - 1]);
      if KeyOf(fs[n - 1]) !in Keys(facts) { MetEarlier(Keys(facts), fs, n - 1, fs[n - 1]); }
    }
  }

  /** After a load every fact of the batch is there, up to duplicates. */
  lemma {:induction false} NovelCovers(facts: seq<Fact>, fs: seq<Fact>, i: nat)
    requires i < |fs|
    ensures Held(facts + Novel(Keys(facts), fs, |fs|), fs[i])
  {
    var novel := Novel(Keys(facts), fs, |fs|);
    KeyIn(facts, fs[i]);
    if KeyOf(fs[i]) !in Keys(facts) {
      KeyCovers(Keys(facts), fs, |fs|, i);
      var j :| 0 <= j < |novel| && KeyOf(novel[j]) == KeyOf(fs[i]);
      DuplicateIff(novel[j], fs[i]);
      assert novel[j] in facts + novel;
    }
  }

  lemma {:induction false} NovelNone(keys: set<PendingKey>, fs: seq<Fact>, n: nat)
    requires n <= |fs| && forall i :: 0 <= i < |fs| ==> KeyOf(fs[i]) in keys
    ensures Novel(keys, fs, n) == []
  {
    if n > 0 { NovelNone(keys, fs, n - 1); }
  }

  /** Loading a batch again changes nothing. */
  lemma {:induction false} LoadTwice(facts: seq<Fact>, fs: seq<Fact>)
    ensures Loaded(Loaded(facts, fs), fs) == Loaded(facts, fs)
  {
    hide Encode;
    var novel := Novel(Keys(facts), fs, |fs|);
    if |facts| + |novel| <= MAX_SLOTS {
      var after := facts + novel;
      forall i | 0 <= i < |fs| ensures KeyOf(fs[i]) in Keys(after) {
        if KeyOf(fs[i]) in Keys(facts) {
          var j :| 0 <= j < |facts| && KeyOf(facts[j]) == KeyOf(fs[i]);
          assert after[j] == facts[j];
        } else {
          KeyCovers(Keys(facts), fs, |fs|, i);
          var j :| 0 <= j < |novel| && KeyOf(novel[j]) == KeyOf(fs[i]);
          assert after[|facts| + j] == novel[j];
        }
      }
      NovelNone(Keys(after), fs, |fs|);
      assert after + [] == after;
    }
  }

  // ----- the store -----

  class Indexes {
    var eavt: map<EavtKey, nat>
    var aevt: map<AevtKey, nat>
    var avet: map<AvetKey, nat>
    var vaet: map<VaetKey, nat>

    constructor ()
      ensures eavt == map[] && aevt == map[] && avet == map[] && vaet == map[]
    {
      eavt, aevt, avet, vaet := map[], map[], map[], map[];
    }

    ghost predicate Over(facts: seq<Fact>)
      reads this
    {
      && eavt == Index(facts, |facts|, Eavt) && aevt == Index(facts, |facts|, Aevt)
      && avet == Index(facts, |facts|, Avet) && vaet == Index(facts, |facts|, Vaet)
    }

    /** One more pending fact: its slot under its key in three indexes, and in the reverse index when it is a reference. */
    method Insert(f: Fact, slot: nat, ghost facts: seq<Fact>)
      requires Over(facts) && slot == |facts|
      modifies this
      ensures Over(facts + [f])
    {
      IndexAppend(facts, f, Eavt);
      IndexAppend(facts, f, Aevt);
      IndexAppend(facts, f, Avet);
      IndexAppend(facts, f, Vaet);
      hide Index, Encode;
      eavt := eavt[Eavt(f).value := slot];
      aevt := aevt[Aevt(f).value := slot];
      avet := avet[Avet(f).value := slot];
      if f.value.Ref? { vaet := vaet[Vaet(f).value := slot]; }
    }
  }

  lemma KeysAppend(facts: seq<Fact>, f: Fact)
    ensures Keys(facts + [f]) == Keys(facts) + {KeyOf(f)}
  {
    var all := facts + [f];
    forall k ensures k in Keys(all) <==> k in Keys(facts) + {KeyOf(f)} {
      if k in Keys(facts) {
        var i :| 0 <= i < |facts| && KeyOf(facts[i]) == k;
        assert all[i] == facts[i];
      }
      if k == KeyOf(f) { assert all[|facts|] == f; }
    }
  }

  class Store {
    var facts: seq<Fact>
    var keys: set<PendingKey>
    var indexes: Indexes
    var committed: seq<Fact>
    var counter: nat

    /** The duplicate keys and the indexes describe exactly the pending facts. */
    ghost predicate Valid()
      reads this, indexes
    {
      keys == Keys(facts) && indexes.Over(facts) && |facts| <= MAX_SLOTS
    }

    /** The store as a reader of all facts sees it. */
    ghost function Shown(): View
      reads this
    {
      View(committed, facts, counter)
    }

    constructor ()
      ensures Valid() && fresh(indexes) && facts == [] && committed == [] && counter == 0
    {
      facts, keys, committed, counter := [], {}, [], 0;
      indexes := new Indexes();
    }

    /** Attach the main file's facts and its transaction count to a new store. */
    method Attach(reader: seq<Fact>, count: nat)
      requires Valid()
      modifies this`committed, this`counter
      ensures Valid() && committed == reader && counter == count
    {
      committed, counter := reader, count;
    }

    /** Claim the next transaction count. */
    method AllocateTxCount() returns (n: nat)
      requires Valid()
      modifies this`counter
      ensures Valid() && counter == n == old(counter) + 1
    {
      counter := counter + 1;
      n := counter;
    }

    /** Raise the counter to the highest pending count; it never moves backwards. */
    method RestoreTxCounter()
      requires Valid()
      modifies this`counter
      ensures Valid() && counter >= old(counter) && (forall i :: 0 <= i < |facts| ==> facts[i].txCount <= counter)
      ensures counter == old(counter) || exists i :: 0 <= i < |facts| && facts[i].txCount == counter
    {
      for i := 0 to |facts|
        invariant Valid() && counter >= old(counter) && (forall j :: 0 <= j < i ==> facts[j].txCount <= counter)
        invariant counter == old(counter) || exists j :: 0 <= j < i && facts[j].txCount == counter
      {
        if facts[i].txCount > counter { counter := facts[i].txCount; }
      }
    }

    /** Append facts with their keys and index entries; refused as a whole when a slot would not fit. */
    method Append(fs: seq<Fact>) returns (ok: bool)
      requires Valid()
      modifies this`facts, this`keys, indexes
      ensures Valid() && ok == (|old(facts)| + |fs| <= MAX_SLOTS)
      ensures facts == if ok then old(facts) + fs else old(facts)
    {
      if |facts| + |fs| > MAX_SLOTS { return false; }
      for i := 0 to |fs|
        invariant Valid() && facts == old(facts) + fs[..i] && indexes == old(indexes)
      {
        KeysAppend(facts, fs[i]);
        indexes.Insert(fs[i], |facts|, facts);
        keys := keys + {KeyOf(fs[i])};
        facts := facts + [fs[i]];
      }
      ok := true;
    }

    /** Assert a batch: one new `tx_count` for all of it. */
    method Transact(tuples: seq<(EntityId, Text, Value)>, txId: u64, validFrom: i64, validTo: i64) returns (ok: bool)
      requires Valid() && counter + 1 < 0x1_0000_0000_0000_0000
      modifies this, indexes
      ensures Valid() && indexes == old(indexes) && ok == (|old(facts)| + |tuples| <= MAX_SLOTS)
      ensures var batch := Batch(if ok then Stamped(tuples, txId, old(counter) + 1, validFrom, validTo, true) else []);
        Legal(old(Shown()), batch) && Shown() == Apply(old(Shown()), batch)
    {
      counter := counter + 1;
      ok := Append(Stamped(tuples, txId, counter, validFrom, validTo, true));
    }

    /** Retract a batch: retractions are facts too. */
    method Retract(tuples: seq<(EntityId, Text, Value)>, txId: u64, validFrom: i64, validTo: i64) returns (ok: bool)
      requires Valid() && counter + 1 < 0x1_0000_0000_0000_0000
      modifies this, indexes
      ensures Valid() && indexes == old(indexes) && ok == (|old(facts)| + |tuples| <= MAX_SLOTS)
      ensures var batch := Batch(if ok then Stamped(tuples, txId, old(counter) + 1, validFrom, validTo, false) else []);
        Legal(old(Shown()), batch) && Shown() == Apply(old(Shown()), batch)
    {
      counter := counter + 1;
      ok := Append(Stamped(tuples, txId, counter, validFrom, validTo, false));
    }

    /** Load a batch with its stamps: the facts not yet there, all of them or none. */
    method LoadFacts(fs: seq<Fact>) returns (ok: bool)
      requires Valid()
      modifies this`facts, this`keys, indexes
      ensures Valid() && facts == Loaded(old(facts), fs)
      ensures facts == if ok then old(facts) + Novel(Keys(old(facts)), fs, |fs|) else old(facts)
      ensures ok <==> |old(facts)| + |Novel(Keys(old(facts)), fs, |fs|)| <= MAX_SLOTS
      ensures ok ==> facts == old(facts) + Arrivals(old(facts), fs, |fs|)
    {
      NovelArrives(facts, fs, |fs|);
      hide KeyOf, Keys, Arrivals, Index, Met;
      var novel: seq<Fact> := [];
      for i := 0 to |fs|
        invariant novel == Novel(keys, fs, i)
      {
        if KeyOf(fs[i]) !in keys && !Met(novel, KeyOf(fs[i])) {
          novel := novel + [fs[i]];
        }
      }
      ok := Append(novel);
    }

    /** Install a checkpoint: what was pending is committed, and nothing is pending. */
    method Publish(reader: seq<Fact>)
      requires Valid()
      modifies this
      ensures Valid() && committed == reader && facts == [] && counter == old(counter) && fresh(indexes)
      ensures reader == old(committed) + old(facts) ==> Shown() == Apply(old(Shown()), Checkpoint)
    {
      committed, facts, keys := reader, [], {};
      indexes := new Indexes();
    }
  }

  /** A batch stamped with its transaction. */
  function Stamped(tuples: seq<(EntityId, Text, Value)>, txId: u64, txCount: u64, validFrom: i64, validTo: i64, asserted: bool): (r: seq<Fact>)
    ensures |r| == |tuples| && forall i :: 0 <= i < |r| ==> r[i].txCount == txCount
    ensures forall i :: 0 <= i < |r| ==> r[i].entity == tuples[i].0 && r[i].attribute == tuples[i].1 && r[i].value == tuples[i].2
    ensures forall i :: 0 <= i < |r| ==>
      r[i].txId == txId && r[i].validFrom == validFrom && r[i].validTo == validTo && r[i].asserted == asserted
  {
    seq(|tuples|, i requires 0 <= i < |tuples| =>
      Fact(tuples[i].0, tuples[i].1, tuples[i].2, txId, txCount, validFrom, validTo, asserted))
  }

  // ----- as-of views -----

  /** The facts visible as of transaction `n`, in order. */
  function AsOf(facts: seq<Fact>, n: nat): seq<Fact> {
    if facts == [] then []
    else AsOf(facts[..|facts| - 1], n) + (if facts[|facts| - 1].txCount <= n then [facts[|facts| - 1]] else [])
  }

  /** A view of two runs of facts is the views of both, and a fact is in the view of itself if and only if its count is at most `n`. */
  lemma {:induction false} AsOfExact(facts: seq<Fact>, more: seq<Fact>, f: Fact, n: nat)
    ensures AsOf(facts + more, n) == AsOf(facts, n) + AsOf(more, n) && AsOf([], n) == []
    ensures AsOf([f], n) == if f.txCount <= n then [f] else []
  {
    if more == [] {
      assert facts + more == facts;
    } else {
      assert (facts + more)[..|facts + more| - 1] == facts + more[..|more| - 1];
      AsOfExact(facts, more[..|more| - 1], f, n);
    }
    assert [f][..0] == [];
  }

  lemma {:induction false} AsOfLater(facts: seq<Fact>, more: seq<Fact>, n: nat)
    requires forall i :: 0 <= i < |more| ==> more[i].txCount > n
    ensures AsOf(facts + more, n) == AsOf(facts, n)
  {
    if more == [] {
      assert facts + more == facts;
    } else {
      assert (facts + more)[..|facts + more| - 1] == facts + more[..|more| - 1];
      AsOfLater(facts, more[..|more| - 1], n);
    }
  }

  /** Store steps as seen by a reader of all facts. */
  datatype View = View(committed: seq<Fact>, pending: seq<Fact>, counter: nat)
  datatype Change = Batch(facts: seq<Fact>) | Checkpoint

  ghost predicate Legal(v: View, ch: Change) {
    ch.Batch? ==> forall i :: 0 <= i < |ch.facts| ==> ch.facts[i].txCount == v.counter + 1
  }

  function Apply(v: View, ch: Change): View {
    match ch
    case Batch(fs) => View(v.committed, v.pending + fs, v.counter + 1)
    case Checkpoint => View(v.committed + v.pending, [], v.counter)
  }

  /** `w` follows from `v` by one transaction of the novel facts of `fs`, or of none where it was refused. */
  ghost predicate BatchOf(v: View, w: View, fs: seq<Fact>, ok: bool) {
    var batch := Batch(if ok then Novel(Keys(v.pending), fs, |fs|) else []);
    Legal(v, batch) && w == Apply(v, batch)
  }

  lemma {:induction false} NovelFrom(keys: set<PendingKey>, fs: seq<Fact>, n: nat)
    requires n <= |fs|
    ensures forall i :: 0 <= i < |Novel(keys, fs, n)| ==> Novel(keys, fs, n)[i] in fs
  {
    hide KeyOf;
    if n > 0 { NovelFrom(keys, fs, n - 1); }
  }

  /** Claiming a count and loading a batch stamped with it is one transaction. */
  lemma {:induction false} LoadIsBatch(v: View, fs: seq<Fact>, ok: bool)
    requires forall i :: 0 <= i < |fs| ==> fs[i].txCount == v.counter + 1
    requires ok ==> |v.pending| + |Novel(Keys(v.pending), fs, |fs|)| <= MAX_SLOTS
    ensures BatchOf(v, View(v.committed, if ok then Loaded(v.pending, fs) else v.pending, v.counter + 1), fs, ok)
  {
    var novel := Novel(Keys(v.pending), fs, |fs|);
    NovelFrom(Keys(v.pending), fs, |fs|);
    forall i | 0 <= i < |novel| ensures novel[i].txCount == v.counter + 1 { assert novel[i] in fs; }
    hide Novel, Keys;
    assert v.pending + [] == v.pending;
  }

  ghost predicate LegalRun(v: View, chs: seq<Change>)
    decreases |chs|
  {
    chs == [] || (Legal(v, chs[0]) && LegalRun(Apply(v, chs[0]), chs[1..]))
  }

  function ApplyAll(v: View, chs: seq<Change>): View
    decreases |chs|
  {
    if chs == [] then v else ApplyAll(Apply(v, chs[0]), chs[1..])
  }

  /** No later transaction, retraction or checkpoint changes what is visible as of an earlier count. */
  lemma {:induction false} AsOfStable(v: View, chs: seq<Change>, n: nat)
    requires LegalRun(v, chs) && n <= v.counter
    ensures var w := ApplyAll(v, chs); AsOf(w.committed + w.pending, n) == AsOf(v.committed + v.pending, n)
    decreases |chs|
  {
    if chs != [] {
      var w := Apply(v, chs[0]);
      match chs[0] {
        case Batch(fs) =>
          assert w.committed + w.pending == (v.committed + v.pending) + fs;
          AsOfLater(v.committed + v.pending, fs, n);
        case Checkpoint =>
          assert w.committed + w.pending == v.committed + v.pending;
      }
      AsOfStable(w, chs[1..], n);
    }
  }
}
