/** The LRU page cache: its operations in place, specified on values. */
module PageCache {
  import opened Bytes

  type Page = seq<byte>
  type PageId = nat

  datatype CacheEntry = CacheEntry(data: Page, dirty: bool)

  /** Cached pages and their LRU order (front is evicted first). */
  datatype Cache = Cache(entries: map<PageId, CacheEntry>, order: seq<PageId>, capacity: nat)

  ghost predicate NoDuplicates(s: seq<PageId>) {
    forall i, j :: 0 <= i < j < |s| ==> s[i] != s[j]
  }

  ghost function Elements(s: seq<PageId>): set<PageId> {
    set i | 0 <= i < |s| :: s[i]
  }

  /** The LRU order is a duplicate-free permutation of the cached pages, never more than the capacity. */
  ghost predicate Valid(c: Cache) {
    NoDuplicates(c.order) && Elements(c.order) == c.entries.Keys && |c.order| <= c.capacity
  }

  // ----- what the operations do -----

  function Only(entries: map<PageId, CacheEntry>, ids: seq<PageId>): map<PageId, CacheEntry> {
    map id | id in entries && id in ids :: entries[id]
  }

  /** Room for one more page: the most recently used `capacity - 1` pages stay. */
  function Evicted(c: Cache): Cache
    requires c.capacity > 0
  {
    if |c.order| < c.capacity then c
    else
      var kept := c.order[|c.order| - c.capacity + 1..];
      Cache(Only(c.entries, kept), kept, c.capacity)
  }

  function Inserted(c: Cache, id: PageId, entry: CacheEntry): Cache
    requires c.capacity > 0
  {
    var e := Evicted(c);
    Cache(e.entries[id := entry], e.order + [id], e.capacity)
  }

  function Without(s: seq<PageId>, id: PageId): seq<PageId> {
    if s == [] then [] else (if s[0] == id then [] else [s[0]]) + Without(s[1..], id)
  }

  /** The second half of `get_or_load`: keep a page read from the backend unless it is there by now. */
  function Loaded(c: Cache, id: PageId, page: Page): Cache {
    if c.capacity == 0 || id in c.entries then c else Inserted(c, id, CacheEntry(page, false))
  }

  /** A written page is kept, dirty and most recently used, unless the cache is disabled. */
  function PutDirty(c: Cache, id: PageId, page: Page): Cache {
    if c.capacity == 0 then c
    else if id in c.entries then
      Cache(c.entries[id := CacheEntry(page, true)], Without(c.order, id) + [id], c.capacity)
    else Inserted(c, id, CacheEntry(page, true))
  }

  function Invalidated(c: Cache, id: PageId): Cache {
    Cache(c.entries - {id}, Without(c.order, id), c.capacity)
  }

  function Below(s: seq<PageId>, from: PageId): seq<PageId> {
    if s == [] then [] else (if s[0] < from then [s[0]] else []) + Below(s[1..], from)
  }

  function InvalidatedFrom(c: Cache, from: PageId): Cache {
    Cache(map id | id in c.entries && id < from :: c.entries[id], Below(c.order, from), c.capacity)
  }

  /** The backend once the dirty pages among `ids` have been written to it. */
  ghost function FlushedPages(c: Cache, pages: map<PageId, Page>, ids: set<PageId>): map<PageId, Page> {
    pages + map id | id in c.entries && id in ids && c.entries[id].dirty :: c.entries[id].data
  }

  /** The pages of `ids` marked clean. */
  ghost function Cleaned(c: Cache, ids: set<PageId>): Cache {
    c.(entries := map id | id in c.entries :: CacheEntry(c.entries[id].data, c.entries[id].dirty && id !in ids))
  }

  // ----- the LRU order -----

  lemma ElementsTail(s: seq<PageId>)
    requires s != [] && NoDuplicates(s)
    ensures NoDuplicates(s[1..]) && Elements(s[1..]) == Elements(s) - {s[0]}
  {
    forall x | x in Elements(s) - {s[0]} ensures x in Elements(s[1..]) {
      var i :| 0 <= i < |s| && s[i] == x;
      assert s[1..][i - 1] == x;
    }
  }

  lemma ElementsSnoc(s: seq<PageId>, x: PageId)
    ensures Elements(s + [x]) == Elements(s) + {x}
    ensures NoDuplicates(s) && x !in Elements(s) ==> NoDuplicates(s + [x])
  {
    var t := s + [x];
    assert forall i :: 0 <= i < |s| ==> t[i] == s[i];
    assert t[|s|] == x;
  }

  lemma ElementsCons(x: PageId, s: seq<PageId>)
    ensures Elements([x] + s) == {x} + Elements(s)
    ensures NoDuplicates(s) && x !in Elements(s) ==> NoDuplicates([x] + s)
  {
    var t := [x] + s;
    assert forall i :: 0 <= i < |s| ==> t[i + 1] == s[i];
    assert t[0] == x;
  }

  lemma {:induction false} ElementsCount(s: seq<PageId>)
    requires NoDuplicates(s)
    ensures |Elements(s)| == |s|
  {
    if s != [] {
      ElementsTail(s);
      ElementsCount(s[1..]);
      assert Elements(s) == Elements(s[1..]) + {s[0]};
    } else {
      assert Elements(s) == {};
    }
  }

  lemma {:induction false} WithoutElements(s: seq<PageId>, id: PageId)
    requires NoDuplicates(s)
    ensures NoDuplicates(Without(s, id)) && Elements(Without(s, id)) == Elements(s) - {id}
    ensures |Without(s, id)| == if id in Elements(s) then |s| - 1 else |s|
  {
    if s == [] { return; }
    hide Elements, NoDuplicates;
    var tail := s[1..];
    var rest := Without(tail, id);
    ElementsTail(s);
    WithoutElements(tail, id);
    assert s == [s[0]] + tail;
    ElementsCons(s[0], tail);
    if s[0] != id {
      assert Without(s, id) == [s[0]] + rest;
      ElementsCons(s[0], rest);
    } else {
      assert Without(s, id) == rest;
    }
  }

  lemma {:induction false} BelowElements(s: seq<PageId>, from: PageId)
    requires NoDuplicates(s)
    ensures NoDuplicates(Below(s, from)) && Elements(Below(s, from)) == (set x | x in Elements(s) && x < from)
    ensures |Below(s, from)| <= |s|
  {
    if s == [] { return; }
    hide Elements, NoDuplicates;
    var tail := s[1..];
    var rest := Below(tail, from);
    ElementsTail(s);
    BelowElements(tail, from);
    assert s == [s[0]] + tail;
    ElementsCons(s[0], tail);
    if s[0] < from {
      assert Below(s, from) == [s[0]] + rest;
      ElementsCons(s[0], rest);
    } else {
      assert Below(s, from) == rest;
    }
  }

  /** Dropping the page at a position of a duplicate-free order drops that page only. */
  lemma {:induction false} WithoutAt(s: seq<PageId>, pos: nat)
    requires NoDuplicates(s) && pos < |s|
    ensures Without(s, s[pos]) == s[..pos] + s[pos + 1..]
  {
    if pos == 0 {
      WithoutAbsent(s[1..], s[0]);
    } else {
      ElementsTail(s);
      WithoutAt(s[1..], pos - 1);
      assert s[..pos] == [s[0]] + s[1..][..pos - 1];
    }
  }

  lemma {:induction false} WithoutAbsent(s: seq<PageId>, id: PageId)
    requires id !in s
    ensures Without(s, id) == s
  {
    if s != [] {
      WithoutAbsent(s[1..], id);
      assert s == [s[0]] + s[1..];
    }
  }

  /** What lies below a page number keeps its order: of two runs, what lies below in each. */
  lemma {:induction false} BelowExact(s: seq<PageId>, t: seq<PageId>, id: PageId, from: PageId)
    ensures Below(s + t, from) == Below(s, from) + Below(t, from) && Below([], from) == []
    ensures Below([id], from) == if id < from then [id] else []
  {
    if s == [] {
      assert s + t == t;
    } else {
      assert (s + t)[0] == s[0] && (s + t)[1..] == s[1..] + t;
      BelowExact(s[1..], t, id, from);
    }
    assert [id][1..] == [];
  }

  lemma EntryCount(c: Cache)
    requires Valid(c)
    ensures |c.entries| == |c.order|
  {
    ElementsCount(c.order);
  }

  lemma ElementsIn(s: seq<PageId>)
    ensures forall x :: x in s <==> x in Elements(s)
  {}

  /** Evicting from a full cache drops exactly the page at the front. */
  lemma DropFirst(c: Cache)
    requires Valid(c) && c.capacity > 0 && |c.order| == c.capacity
    ensures Evicted(c) == Cache(c.entries - {c.order[0]}, c.order[1..], c.capacity)
    ensures |Evicted(c).entries| == |Evicted(c).order|
  {
    hide Elements, NoDuplicates;
    var kept := c.order[1..];
    ElementsTail(c.order);
    ElementsCount(kept);
    ElementsIn(kept);
    assert Only(c.entries, kept) == c.entries - {c.order[0]};
    assert Only(c.entries, kept).Keys == Elements(kept);
  }

  // ----- every operation keeps the cache valid -----

  /** A cache holds nothing but pages of another, bar one. */
  ghost predicate Within(r: Cache, c: Cache, bar: set<PageId>) {
    && r.capacity == c.capacity
    && forall id :: id in r.entries && id !in bar ==> id in c.entries && r.entries[id].data == c.entries[id].data
  }

  lemma EvictedValid(c: Cache)
    requires Valid(c) && c.capacity > 0
    ensures Valid(Evicted(c)) && |Evicted(c).order| < c.capacity && Within(Evicted(c), c, {})
  {
    hide Elements, NoDuplicates, Only;
    if |c.order| == c.capacity {
      DropFirst(c);
      ElementsTail(c.order);
    }
  }

  lemma {:induction false} InsertedValid(c: Cache, id: PageId, entry: CacheEntry)
    requires Valid(c) && c.capacity > 0 && id !in c.entries
    ensures var r := Inserted(c, id, entry);
      Valid(r) && Within(r, c, {id}) && id in r.entries && r.entries[id] == entry
  {
    EvictedValid(c);
    ElementsSnoc(Evicted(c).order, id);
  }

  /** The cache without the page it gives up for a new one: the one at the front, when it is full. */
  ghost predicate MadeRoom(c: Cache, entries: map<PageId, CacheEntry>, order: seq<PageId>) {
    if |c.order| < c.capacity then entries == c.entries && order == c.order
    else c.order != [] && entries == c.entries - {c.order[0]} && order == c.order[1..]
  }

  /** A new page comes last, and every other page but the one given up stays, in order. */
  lemma {:induction false} InsertedExact(c: Cache, id: PageId, entry: CacheEntry) returns (entries: map<PageId, CacheEntry>, order: seq<PageId>)
    requires Valid(c) && c.capacity > 0
    ensures MadeRoom(c, entries, order) && Inserted(c, id, entry) == Cache(entries[id := entry], order + [id], c.capacity)
  {
    hide Elements, NoDuplicates, Only;
    entries, order := c.entries, c.order;
    if |c.order| == c.capacity {
      DropFirst(c);
      entries, order := c.entries - {c.order[0]}, c.order[1..];
    }
  }

  /** A load adds a clean page, unless the cache is disabled or has it. */
  lemma {:induction false} LoadedExact(c: Cache, id: PageId, page: Page)
    requires Valid(c)
    ensures c.capacity == 0 || id in c.entries ==> Loaded(c, id, page) == c
    ensures c.capacity > 0 && id !in c.entries ==> exists entries, order ::
      MadeRoom(c, entries, order) && Loaded(c, id, page) == Cache(entries[id := CacheEntry(page, false)], order + [id], c.capacity)
  {
    hide MadeRoom, Inserted;
    if c.capacity > 0 && id !in c.entries {
      var entries, order := InsertedExact(c, id, CacheEntry(page, false));
    }
  }

  /** A write keeps the page dirty and puts it last; a page already there leaves its old place, and nothing is given up for it. */
  lemma {:induction false} PutDirtyExact(c: Cache, id: PageId, page: Page)
    requires Valid(c)
    ensures c.capacity == 0 ==> PutDirty(c, id, page) == c
    ensures c.capacity > 0 && id in c.entries ==> exists i ::
      && 0 <= i < |c.order| && c.order[i] == id
      && PutDirty(c, id, page) == Cache(c.entries[id := CacheEntry(page, true)], c.order[..i] + c.order[i + 1..] + [id], c.capacity)
    ensures c.capacity > 0 && id !in c.entries ==> exists entries, order ::
      MadeRoom(c, entries, order) && PutDirty(c, id, page) == Cache(entries[id := CacheEntry(page, true)], order + [id], c.capacity)
  {
    hide MadeRoom, Inserted;
    if c.capacity > 0 && id !in c.entries {
      var entries, order := InsertedExact(c, id, CacheEntry(page, true));
    } else if c.capacity > 0 {
      assert id in Elements(c.order);
      var i :| 0 <= i < |c.order| && c.order[i] == id;
      WithoutAt(c.order, i);
    }
  }

  lemma LoadedValid(c: Cache, id: PageId, page: Page)
    requires Valid(c)
    ensures var r := Loaded(c, id, page);
      && Valid(r) && Within(r, c, {id})
      && (c.capacity > 0 ==> id in r.entries && r.entries[id].data == if id in c.entries then c.entries[id].data else page)
      && (c.capacity == 0 ==> r.entries == map[])
  {
    if c.capacity == 0 {
      assert Elements(c.order) == {};
    } else if id !in c.entries {
      InsertedValid(c, id, CacheEntry(page, false));
    }
  }

  lemma {:induction false} PutDirtyValid(c: Cache, id: PageId, page: Page)
    requires Valid(c)
    ensures var r := PutDirty(c, id, page);
      && Valid(r) && Within(r, c, {id})
      && (c.capacity > 0 ==> id in r.entries && r.entries[id] == CacheEntry(page, true) && r.order[|r.order| - 1] == id)
      && (c.capacity == 0 ==> r.entries == map[])
  {
    if c.capacity > 0 {
      if id in c.entries {
        WithoutElements(c.order, id);
        ElementsSnoc(Without(c.order, id), id);
      } else {
        InsertedValid(c, id, CacheEntry(page, true));
      }
    } else {
      assert Elements(c.order) == {};
    }
  }

  lemma InvalidatedValid(c: Cache, id: PageId)
    requires Valid(c)
    ensures Valid(Invalidated(c, id)) && Within(Invalidated(c, id), c, {})
  {
    WithoutElements(c.order, id);
  }

  lemma InvalidatedFromValid(c: Cache, from: PageId)
    requires Valid(c)
    ensures Valid(InvalidatedFrom(c, from)) && Within(InvalidatedFrom(c, from), c, {})
    ensures forall id :: id in InvalidatedFrom(c, from).entries ==> id < from
  {
    BelowElements(c.order, from);
  }

  /** What flushing one more page does. */
  lemma FlushOne(c: Cache, pages: map<PageId, Page>, done: set<PageId>, id: PageId)
    requires id !in done
    ensures FlushedPages(c, pages, {}) == pages
    ensures id in c.entries ==>
      var was := Cleaned(c, done).entries;
      && id in was && was[id] == c.entries[id]
      && Cleaned(c, done + {id}) == c.(entries := if was[id].dirty then was[id := CacheEntry(was[id].data, false)] else was)
      && FlushedPages(c, pages, done + {id}) ==
         if was[id].dirty then FlushedPages(c, pages, done)[id := was[id].data] else FlushedPages(c, pages, done)
  {}

  lemma CleanedValid(c: Cache, ids: set<PageId>)
    requires Valid(c)
    ensures Valid(Cleaned(c, ids))
  {
    assert Cleaned(c, ids).entries.Keys == c.entries.Keys;
  }

  // ----- the object -----

  /** The page store under the cache. */
  class Backend {
    var pages: map<PageId, Page>

    constructor ()
      ensures pages == map[]
    {
      pages := map[];
    }

    method ReadPage(id: PageId) returns (r: Option<Page>)
      ensures r == if id in pages then Some(pages[id]) else None
    {
      if id in pages { return Some(pages[id]); }
      return None;
    }

    method WritePage(id: PageId, page: Page)
      modifies this
      ensures pages == old(pages)[id := page]
    {
      pages := pages[id := page];
    }
  }

  class PageCache {
    var entries: map<PageId, CacheEntry>
    var order: seq<PageId>
    const capacity: nat

    function State(): Cache
      reads this
    {
      Cache(entries, order, capacity)
    }

    constructor (capacity: nat)
      ensures State() == Cache(map[], [], capacity) && Valid(State())
    {
      this.capacity := capacity;
      entries, order := map[], [];
    }

    /** Move `id` to the most recently used position. */
    method Touch(id: PageId)
      requires Valid(State())
      modifies this
      ensures entries == old(entries) && order == Without(old(order), id) + [id]
    {
      var pos := 0;
      while pos < |order| && order[pos] != id
        invariant 0 <= pos <= |order| && order == old(order) && entries == old(entries)
        invariant id !in order[..pos]
      {
        pos := pos + 1;
      }
      if pos < |order| {
        WithoutAt(order, pos);
        if order[|order| - 1] == id { return; }
        order := order[..pos] + order[pos + 1..];
      } else {
        WithoutAbsent(order, id);
      }
      order := order + [id];
    }

    /** Drop least recently used pages until one more fits. */
    method Evict()
      requires Valid(State()) && capacity > 0
      modifies this
      ensures State() == Evicted(old(State()))
    {
      ghost var c := State();
      EntryCount(c);
      hide Elements, NoDuplicates, Only;
      while |entries| >= capacity && capacity > 0
        invariant State() == c || (|c.order| == capacity && State() == Evicted(c))
        invariant |entries| == |order|
        decreases |order|
      {
        if order == [] { break; }
        DropFirst(c);
        entries := entries - {order[0]};
        order := order[1..];
      }
    }

    /** Serve a page from the cache, or read it from the backend and keep it. */
    method GetOrLoad(id: PageId, backend: Backend) returns (r: Option<Page>)
      requires Valid(State())
      modifies this
      ensures Valid(State())
      ensures r == if capacity > 0 && id in old(entries) then Some(old(entries[id].data))
                   else if id in backend.pages then Some(backend.pages[id]) else None
      ensures State() == if r == None then old(State()) else Loaded(old(State()), id, r.value)
    {
      if capacity == 0 {
        r := backend.ReadPage(id);
        return;
      }
      if id in entries { return Some(entries[id].data); }
      r := backend.ReadPage(id);
      if r == None { return; }
      LoadedValid(State(), id, r.value);
      FinishLoad(id, r.value);
    }

    /** The part of a load that runs under the cache's write lock. */
    method FinishLoad(id: PageId, page: Page)
      requires Valid(State()) && capacity > 0
      modifies this
      ensures State() == Loaded(old(State()), id, page)
    {
      if id in entries { return; }
      Evict();
      entries := entries[id := CacheEntry(page, false)];
      order := order + [id];
    }

    method PutDirtyPage(id: PageId, page: Page)
      requires Valid(State())
      modifies this
      ensures Valid(State()) && State() == PutDirty(old(State()), id, page)
    {
      PutDirtyValid(State(), id, page);
      if capacity == 0 { return; }
      if id in entries {
        entries := entries[id := CacheEntry(page, true)];
        Touch(id);
      } else {
        Evict();
        entries := entries[id := CacheEntry(page, true)];
        order := order + [id];
      }
    }

    method Invalidate(id: PageId)
      requires Valid(State())
      modifies this
      ensures Valid(State()) && State() == Invalidated(old(State()), id)
    {
      InvalidatedValid(State(), id);
      entries := entries - {id};
      order := Without(order, id);
    }

    method InvalidateFrom(from: PageId)
      requires Valid(State())
      modifies this
      ensures Valid(State()) && State() == InvalidatedFrom(old(State()), from)
    {
      InvalidatedFromValid(State(), from);
      entries := map id | id in entries && id < from :: entries[id];
      order := Below(order, from);
    }

    /** Write every dirty page back and mark it clean. */
    method Flush(backend: Backend)
      requires Valid(State())
      modifies this, backend
      ensures Valid(State()) && State() == Cleaned(old(State()), old(entries.Keys))
      ensures backend.pages == FlushedPages(old(State()), old(backend.pages), old(entries.Keys))
    {
      ghost var c, pages := State(), backend.pages;
      ghost var done: set<PageId> := {};
      var left := entries.Keys;
      assert Cleaned(c, {}).entries == c.entries;
      hide Elements, NoDuplicates, Cleaned, FlushedPages;
      FlushOne(c, pages, {}, 0);
      while left != {}
        invariant done + left == c.entries.Keys && done !! left
        invariant State() == Cleaned(c, done) && backend.pages == FlushedPages(c, pages, done)
        decreases left
      {
        var id :| id in left;
        FlushOne(c, pages, done, id);
        if entries[id].dirty {
          backend.WritePage(id, entries[id].data);
          entries := entries[id := CacheEntry(entries[id].data, false)];
        }
        left := left - {id};
        done := done + {id};
      }
      assert done == c.entries.Keys;
      CleanedValid(c, done);
    }
  }
}
