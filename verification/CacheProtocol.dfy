/** Queries and checkpoints sharing the page cache: every interleaving keeps it equal to the backend. */
module CacheProtocol {
  import opened Bytes
  import opened PageCache

  type Thread = nat

  /** A page a query has read from the backend and not yet put into the cache. */
  datatype Load = Load(id: PageId, page: Page)

  /**
   * Where the checkpoint is. It holds the store's write lock in every phase but `Idle`:
   * `Collect` reads the old leaves, `Facts` has dropped the cached pages from `from` on and overwrites
   * pages behind the cache's back, `Index` writes each page to the backend and then to the cache.
   */
  datatype Phase = Idle | Collect | Facts(from: PageId) | Index(written: Option<Load>)

  /** `loads` are the queries between their backend read and their insertion, under the store's read lock. */
  datatype State = State(pages: map<PageId, Page>, cache: Cache, loads: map<Thread, Load>, phase: Phase)

  datatype Event =
    | BeginLoad(thread: Thread, id: PageId)
    | EndLoad(thread: Thread)
    | Lock
    | ReadThrough(id: PageId)
    | Invalidate(from: PageId)
    | WriteFacts(id: PageId, page: Page)
    | BeginIndex
    | WriteIndex(id: PageId, page: Page)
    | PutWritten
    | WriteHeader(page: Page)
    | Unlock

  predicate Hit(s: State, id: PageId) {
    s.cache.capacity > 0 && id in s.cache.entries
  }

  predicate Legal(s: State, e: Event) {
    match e
    case BeginLoad(t, id) => s.phase == Idle && t !in s.loads && id != 0 && id in s.pages
    case EndLoad(t) => t in s.loads
    case Lock => s.phase == Idle && s.loads == map[]
    case ReadThrough(id) => s.phase in {Collect, Index(None)} && id != 0 && id in s.pages
    case Invalidate(from) => s.phase == Collect && from > 0
    case WriteFacts(id, page) => s.phase.Facts? && id >= s.phase.from
    case BeginIndex => s.phase.Facts?
    case WriteIndex(id, page) => s.phase == Index(None) && id != 0
    case PutWritten => s.phase.Index? && s.phase.written.Some?
    case WriteHeader(page) => s.phase == Index(None)
    case Unlock => s.phase.Collect? || s.phase.Facts? || s.phase == Index(None)
  }

  function Step(s: State, e: Event): State
    requires Legal(s, e)
  {
    match e
    case BeginLoad(t, id) => if Hit(s, id) then s else s.(loads := s.loads[t := Load(id, s.pages[id])])
    case EndLoad(t) => s.(loads := s.loads - {t}, cache := Loaded(s.cache, s.loads[t].id, s.loads[t].page))
    case Lock => s.(phase := Collect)
    case ReadThrough(id) => s.(cache := Loaded(s.cache, id, s.pages[id]))
    case Invalidate(from) => s.(cache := InvalidatedFrom(s.cache, from), phase := Facts(from))
    case WriteFacts(id, page) => s.(pages := s.pages[id := page])
    case BeginIndex => s.(phase := Index(None))
    case WriteIndex(id, page) => s.(pages := s.pages[id := page], phase := Index(Some(Load(id, page))))
    case PutWritten =>
      s.(cache := PutDirty(s.cache, s.phase.written.value.id, s.phase.written.value.page), phase := Index(None))
    case WriteHeader(page) => s.(pages := s.pages[0 := page])
    case Unlock => s.(phase := Idle)
  }

  /** The page a load hands to its query. */
  function Answer(s: State, e: Event): Page
    requires Legal(s, e) && (e.EndLoad? || ((e.BeginLoad? || e.ReadThrough?) && Hit(s, e.id)))
  {
    match e
    case EndLoad(t) =>
      if Hit(s, s.loads[t].id) then s.cache.entries[s.loads[t].id].data else s.loads[t].page
    case BeginLoad(_, id) => s.cache.entries[id].data
    case ReadThrough(id) => s.cache.entries[id].data
  }

  // ----- the invariant -----

  ghost predicate Holds(pages: map<PageId, Page>, load: Load) {
    load.id != 0 && load.id in pages && pages[load.id] == load.page
  }

  /** Every cached page but those in `bar` is the backend's page; the header page is never cached. */
  ghost predicate Coherent(c: Cache, pages: map<PageId, Page>, bar: set<PageId>) {
    0 !in c.entries && forall id :: id in c.entries && id !in bar ==> id in pages && pages[id] == c.entries[id].data
  }

  ghost predicate Inv(s: State) {
    && Valid(s.cache)
    && (s.loads != map[] ==> s.phase == Idle)
    && (forall t :: t in s.loads ==> Holds(s.pages, s.loads[t]))
    && match s.phase
       case Idle => Coherent(s.cache, s.pages, {})
       case Collect => Coherent(s.cache, s.pages, {})
       case Facts(from) => from > 0 && Coherent(s.cache, s.pages, {}) && forall id :: id in s.cache.entries ==> id < from
       case Index(None) => Coherent(s.cache, s.pages, {})
       case Index(Some(w)) => Holds(s.pages, w) && Coherent(s.cache, s.pages, {w.id})
  }

  lemma {:induction false} InvStep(s: State, e: Event)
    requires Inv(s) && Legal(s, e)
    ensures Inv(Step(s, e))
  {
    hide Valid, Loaded, PutDirty, InvalidatedFrom;
    match e
    case BeginLoad(t, id) =>
    case EndLoad(t) => LoadedValid(s.cache, s.loads[t].id, s.loads[t].page);
    case Lock =>
    case ReadThrough(id) => LoadedValid(s.cache, id, s.pages[id]);
    case Invalidate(from) => InvalidatedFromValid(s.cache, from);
    case WriteFacts(id, page) =>
    case BeginIndex =>
    case WriteIndex(id, page) =>
    case PutWritten => PutDirtyValid(s.cache, s.phase.written.value.id, s.phase.written.value.page);
    case WriteHeader(page) =>
    case Unlock =>
  }

  // ----- runs -----

  /** `states` is a run of `events` from a backend with an empty cache. */
  ghost predicate Run(states: seq<State>, events: seq<Event>) {
    && |states| == |events| + 1
    && states[0].cache.entries == map[] && states[0].cache.order == [] && states[0].loads == map[] && states[0].phase == Idle
    && forall i :: 0 <= i < |events| ==> Legal(states[i], events[i]) && states[i + 1] == Step(states[i], events[i])
  }

  lemma {:induction false} RunInv(states: seq<State>, events: seq<Event>, n: nat)
    requires Run(states, events) && n <= |events|
    ensures Inv(states[n])
  {
    if n > 0 {
      RunInv(states, events, n - 1);
      InvStep(states[n - 1], events[n - 1]);
    }
  }

  /**
   * At every point of every run: while no checkpoint is active each cached page is the backend's page,
   * the LRU order is a duplicate-free permutation of the cached pages, and there are at most `capacity`.
   */
  lemma {:induction false} CacheMirrorsBackend(states: seq<State>, events: seq<Event>, n: nat)
    requires Run(states, events) && n <= |events|
    ensures var s := states[n];
      && (s.phase == Idle ==>
           forall id :: id in s.cache.entries ==> id in s.pages && s.cache.entries[id].data == s.pages[id])
      && NoDuplicates(s.cache.order) && Elements(s.cache.order) == s.cache.entries.Keys
      && |s.cache.entries| <= s.cache.capacity
  {
    RunInv(states, events, n);
    EntryCount(states[n].cache);
  }

  /** Every page handed to a reader, whenever its load began, is the backend's page at that moment. */
  lemma {:induction false} LoadsAreCurrent(states: seq<State>, events: seq<Event>, n: nat, id: PageId)
    requires Run(states, events) && n < |events|
    requires var s, e := states[n], events[n];
      match e
      case EndLoad(t) => t in s.loads && s.loads[t].id == id
      case BeginLoad(_, i) => i == id && Hit(s, i)
      case ReadThrough(i) => i == id && Hit(s, i)
      case _ => false
    ensures id in states[n].pages && Answer(states[n], events[n]) == states[n].pages[id]
  {
    RunInv(states, events, n);
  }

  /** Since index pages are written through, flushing the cache between checkpoints changes no page. */
  lemma {:induction false} FlushChangesNothing(states: seq<State>, events: seq<Event>, n: nat)
    requires Run(states, events) && n <= |events| && states[n].phase == Idle
    ensures FlushedPages(states[n].cache, states[n].pages, states[n].cache.entries.Keys) == states[n].pages
  {
    RunInv(states, events, n);
  }
}
