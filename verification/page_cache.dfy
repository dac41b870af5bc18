/** A small cache of serialized pages, cleared whenever what it depends on is seen to change, and
    shared by threads that compute outside its lock. */
module PageCaches {
  import opened Bytes

  const MAX_BYTES := 4 * 1024 * 1024

  const MAX_PAGE_BYTES := 256 * 1024

  const MAX_ENTRIES := 32

  /** A canonical query. */
  type Query = nat

  /** What a query answers: whether it succeeded, whether it may be reused, and its text. */
  datatype Result = Result(ok: bool, reusable: bool, text: seq<byte>)

  datatype Page = Page(key: Query, result: Result)

  /** The signature of the files a page depends on, when they can be read. */
  type Signature = Option<nat>

  /** The pages, least recently used first. */
  datatype Cache = Cache(identity: Signature, pages: seq<Page>, used: nat)

  // ---------------------------------------------------------------------------------------
  // The two locked steps
  // ---------------------------------------------------------------------------------------

  function Find(pages: seq<Page>, key: Query): (r: nat)
    ensures r <= |pages| && (r < |pages| ==> pages[r].key == key)
    ensures forall i :: 0 <= i < r ==> pages[i].key != key
  {
    if pages == [] || pages[0].key == key then 0 else 1 + Find(pages[1..], key)
  }

  function Removed(pages: seq<Page>, key: Query): seq<Page> {
    var i := Find(pages, key);
    if i == |pages| then pages else pages[..i] + pages[i + 1..]
  }

  function Current(cache: Cache, signature: Signature): Cache {
    if signature != cache.identity then Cache(signature, [], 0) else cache
  }

  /** Look a page up under a signature; a hit becomes the most recently used. */
  function Get(cache: Cache, signature: Signature, key: Query): (Cache, Option<Result>) {
    var current := Current(cache, signature);
    var i := Find(current.pages, key);
    if signature == None || i == |current.pages| then (current, None)
    else (current.(pages := Removed(current.pages, key) + [current.pages[i]]), Some(current.pages[i].result))
  }

  /** The account less what is dropped, which is never more. */
  function Minus(used: nat, size: nat): nat {
    if size <= used then used - size else 0
  }

  function Evicted(cache: Cache, size: nat): Cache
    decreases |cache.pages|
  {
    if cache.pages != [] && (cache.used + size > MAX_BYTES || |cache.pages| >= MAX_ENTRIES)
    then
      var first := |cache.pages[0].result.text|;
      Evicted(cache.(pages := cache.pages[1..], used := Minus(cache.used, first)), size)
    else cache
  }

  predicate Stores(signature: Signature, identity: Signature, result: Result, allowed: nat) {
    && identity != None && result.ok && result.reusable && identity == signature
    && |result.text| <= MAX_PAGE_BYTES && |result.text| <= allowed
  }

  /** Keep a result computed under `identity`, if the signature is still the same. */
  function Put(cache: Cache, signature: Signature, identity: Signature, key: Query, result: Result, allowed: nat): Cache {
    if !Stores(signature, identity, result, allowed) then cache
    else
      var i, size := Find(cache.pages, key), |result.text|;
      var former := if i == |cache.pages| then 0 else |cache.pages[i].result.text|;
      var room := Evicted(cache.(pages := Removed(cache.pages, key), used := Minus(cache.used, former)),
                          size);
      room.(pages := room.pages + [Page(key, result)], used := room.used + size)
  }

  // ---------------------------------------------------------------------------------------
  // What both keep
  // ---------------------------------------------------------------------------------------

  function Total(pages: seq<Page>): nat {
    if pages == [] then 0 else |pages[0].result.text| + Total(pages[1..])
  }

  ghost predicate OneEach(pages: seq<Page>) {
    forall i, j :: 0 <= i < j < |pages| ==> pages[i].key != pages[j].key
  }

  /** The account is the sum of the pages, within both limits, one page a query. */
  ghost predicate Valid(cache: Cache) {
    && cache.used == Total(cache.pages) <= MAX_BYTES && |cache.pages| <= MAX_ENTRIES && OneEach(cache.pages)
    && forall i :: 0 <= i < |cache.pages| ==> |cache.pages[i].result.text| <= MAX_PAGE_BYTES
  }

  lemma {:induction false} TotalAppend(a: seq<Page>, b: seq<Page>)
    ensures Total(a + b) == Total(a) + Total(b)
  {
    if a == [] {
      assert a + b == b;
    } else {
      TotalAppend(a[1..], b);
      assert (a + b)[1..] == a[1..] + b;
    }
  }

  lemma TotalOne(page: Page)
    ensures Total([page]) == |page.result.text|
  {
  }

  lemma RemovedTotal(pages: seq<Page>, key: Query)
    ensures var i := Find(pages, key);
            Total(pages) == Total(Removed(pages, key)) + if i == |pages| then 0 else |pages[i].result.text|
  {
    var i := Find(pages, key);
    if i < |pages| {
      hide Find, Total;
      assert pages == pages[..i] + ([pages[i]] + pages[i + 1..]);
      TotalAppend(pages[..i], [pages[i]] + pages[i + 1..]);
      TotalAppend([pages[i]], pages[i + 1..]);
      TotalOne(pages[i]);
      TotalAppend(pages[..i], pages[i + 1..]);
    }
  }

  lemma RemovedKeeps(pages: seq<Page>, key: Query)
    requires OneEach(pages)
    ensures var i := Find(pages, key); var after := Removed(pages, key);
            && OneEach(after) && (forall k :: 0 <= k < |after| ==> after[k] in pages && after[k].key != key)
            && |after| == if i == |pages| then |pages| else |pages| - 1
  {
    hide Find;
    var i, after := Find(pages, key), Removed(pages, key);
    forall k | 0 <= k < |after|
      ensures after[k] == pages[if k < i then k else k + 1] && after[k].key != key
    {
    }
  }

  lemma GetKeeps(cache: Cache, signature: Signature, key: Query)
    requires Valid(cache)
    ensures Valid(Get(cache, signature, key).0)
  {
    hide Find, Removed, Total;
    var current := Current(cache, signature);
    assert Valid(current) by {
      NothingCached();
    }
    var i := Find(current.pages, key);
    if signature != None && i < |current.pages| {
      RemovedKeeps(current.pages, key);
      RemovedTotal(current.pages, key);
      TotalAppend(Removed(current.pages, key), [current.pages[i]]);
      TotalOne(current.pages[i]);
    }
  }

  lemma NothingCached()
    ensures Total([]) == 0
  {
  }

  /** Pages are dropped from the least recently used on, and no more than needed. */
  ghost predicate Makes(cache: Cache, size: nat, after: Cache, dropped: nat) {
    && dropped <= |cache.pages| && after == cache.(pages := cache.pages[dropped..], used := Total(cache.pages[dropped..]))
    && (after.pages == [] || (after.used + size <= MAX_BYTES && |after.pages| < MAX_ENTRIES))
    && forall k :: 0 <= k < dropped ==> Total(cache.pages[k..]) + size > MAX_BYTES || |cache.pages| - k >= MAX_ENTRIES
  }

  lemma MakesOneMore(cache: Cache, size: nat, after: Cache, rest: nat)
    requires cache.pages != [] && (Total(cache.pages) + size > MAX_BYTES || |cache.pages| >= MAX_ENTRIES)
    requires Makes(cache.(pages := cache.pages[1..], used := Total(cache.pages[1..])), size, after, rest)
    ensures Makes(cache, size, after, rest + 1)
  {
    hide Total;
    assert cache.pages[1..][rest..] == cache.pages[rest + 1..];
    forall k | 0 <= k < rest + 1
      ensures Total(cache.pages[k..]) + size > MAX_BYTES || |cache.pages| - k >= MAX_ENTRIES
    {
      if k > 0 {
        assert cache.pages[1..][k - 1..] == cache.pages[k..];
      } else {
        assert cache.pages[0..] == cache.pages;
      }
    }
  }

  lemma {:induction false} EvictedMakesRoom(cache: Cache, size: nat) returns (dropped: nat)
    requires cache.used == Total(cache.pages)
    ensures Makes(cache, size, Evicted(cache, size), dropped)
    decreases |cache.pages|
  {
    if cache.pages != [] && (cache.used + size > MAX_BYTES || |cache.pages| >= MAX_ENTRIES) {
      var next := cache.(pages := cache.pages[1..], used := Total(cache.pages[1..]));
      assert Evicted(cache, size) == Evicted(next, size);
      var rest := EvictedMakesRoom(next, size);
      MakesOneMore(cache, size, Evicted(cache, size), rest);
      dropped := rest + 1;
      hide Makes;
    } else {
      dropped := 0;
      assert cache.pages[0..] == cache.pages;
    }
  }

  lemma PutKeeps(cache: Cache, signature: Signature, identity: Signature, key: Query, result: Result, allowed: nat)
    requires Valid(cache)
    ensures Valid(Put(cache, signature, identity, key, result, allowed))
  {
    hide Find, Removed, Total, Evicted;
    if Stores(signature, identity, result, allowed) {
      RemovedKeeps(cache.pages, key);
      RemovedTotal(cache.pages, key);
      var i, size := Find(cache.pages, key), |result.text|;
      var former := if i == |cache.pages| then 0 else |cache.pages[i].result.text|;
      var without := cache.(pages := Removed(cache.pages, key), used := cache.used - former);
      var dropped := EvictedMakesRoom(without, size);
      var room := Evicted(without, size);
      NothingCached();
      TotalAppend(room.pages, [Page(key, result)]);
      TotalOne(Page(key, result));
    }
  }

  // ---------------------------------------------------------------------------------------
  // Threads
  // ---------------------------------------------------------------------------------------

  /** A query that missed, with the signature it was looked up under. */
  datatype Pending = Pending(key: Query, identity: Signature)

  /** The version of the files, the cache, and the queries being computed outside the lock. */
  datatype World = World(version: nat, cache: Cache, threads: map<nat, Pending>)

  /** A signature read may fail for a while; a version that has been replaced never returns. */
  datatype Action =
    | Lookup(thread: nat, key: Query, readable: bool)
    | Keep(thread: nat, result: Result, readable: bool)
    | Change

  /** What each query computes under each version. */
  type Compute = (nat, Query) -> Result

  function Seen(w: World, readable: bool): Signature {
    if readable then Some(w.version) else None
  }

  /** A computation that began and ends under one version computes what that version says; one that
      did not may answer anything. */
  predicate Enabled(compute: Compute, w: World, a: Action) {
    match a
    case Lookup(thread, _, _) => thread !in w.threads
    case Keep(thread, result, _) =>
      && thread in w.threads
      && (w.threads[thread].identity == Some(w.version) ==> result == compute(w.version, w.threads[thread].key))
    case Change => true
  }

  function Step(compute: Compute, allowed: nat, w: World, a: Action): World
    requires Enabled(compute, w, a)
  {
    match a
    case Lookup(thread, key, readable) =>
      var (cache, hit) := Get(w.cache, Seen(w, readable), key);
      World(w.version, cache, if hit.Some? then w.threads else w.threads[thread := Pending(key, Seen(w, readable))])
    case Keep(thread, result, readable) =>
      var pending := w.threads[thread];
      World(w.version, Put(w.cache, Seen(w, readable), pending.identity, pending.key, result, allowed), w.threads - {thread})
    case Change => w.(version := w.version + 1)
  }

  /** Every page under a signature is what its query computes under that version. */
  ghost predicate Right(compute: Compute, cache: Cache) {
    cache.identity.Some? ==> forall i :: 0 <= i < |cache.pages| ==>
      cache.pages[i].result == compute(cache.identity.value, cache.pages[i].key)
  }

  /** No signature is ahead of the version; while a query looked up under the present version is
      computed, the cache has been cleared for no other. */
  ghost predicate Timely(w: World) {
    && (w.cache.identity.Some? ==> w.cache.identity.value <= w.version)
    && forall t :: t in w.threads && w.threads[t].identity.Some? ==>
         && w.threads[t].identity.value <= w.version
         && (w.threads[t].identity.value == w.version ==> w.cache.identity in {None, Some(w.version)})
  }

  ghost predicate Holds(compute: Compute, w: World) {
    Valid(w.cache) && Right(compute, w.cache) && Timely(w)
  }

  lemma RemovedMembers(pages: seq<Page>, key: Query, page: Page)
    requires page in Removed(pages, key)
    ensures page in pages
  {
    hide Find;
  }

  lemma {:induction false} EvictedMembers(cache: Cache, size: nat, page: Page)
    requires page in Evicted(cache, size).pages
    ensures page in cache.pages
    decreases |cache.pages|
  {
    if cache.pages != [] && (cache.used + size > MAX_BYTES || |cache.pages| >= MAX_ENTRIES) {
      var first := |cache.pages[0].result.text|;
      EvictedMembers(cache.(pages := cache.pages[1..], used := Minus(cache.used, first)), size, page);
    }
  }

  lemma {:induction false} EvictedIdentity(cache: Cache, size: nat)
    ensures Evicted(cache, size).identity == cache.identity
    decreases |cache.pages|
  {
    if cache.pages != [] && (cache.used + size > MAX_BYTES || |cache.pages| >= MAX_ENTRIES) {
      var first := |cache.pages[0].result.text|;
      EvictedIdentity(cache.(pages := cache.pages[1..], used := Minus(cache.used, first)), size);
    }
  }

  lemma GetRight(compute: Compute, cache: Cache, signature: Signature, key: Query)
    requires Right(compute, cache)
    ensures var (after, hit) := Get(cache, signature, key);
            && Right(compute, after) && after.identity == signature
            && (hit.Some? ==> signature.Some? && hit.value == compute(signature.value, key))
  {
    hide Find, Removed;
    var current := Current(cache, signature);
    var i := Find(current.pages, key);
    var after := Get(cache, signature, key).0;
    if signature != None && i < |current.pages| {
      forall k | 0 <= k < |after.pages| ensures after.pages[k].result == compute(signature.value, after.pages[k].key) {
        if k < |after.pages| - 1 {
          RemovedMembers(current.pages, key, after.pages[k]);
        }
      }
    }
  }

  lemma PutRight(compute: Compute, cache: Cache, signature: Signature, identity: Signature, key: Query, result: Result,
                 allowed: nat)
    requires Right(compute, cache)
    requires Stores(signature, identity, result, allowed) && cache.identity.Some? ==>
               cache.identity == identity && result == compute(identity.value, key)
    ensures Right(compute, Put(cache, signature, identity, key, result, allowed))
    ensures Put(cache, signature, identity, key, result, allowed).identity == cache.identity
  {
    if Stores(signature, identity, result, allowed) {
      var i, size := Find(cache.pages, key), |result.text|;
      var former := if i == |cache.pages| then 0 else |cache.pages[i].result.text|;
      var without := cache.(pages := Removed(cache.pages, key),
                            used := Minus(cache.used, former));
      EvictedIdentity(without, size);
      hide Find, Removed, Evicted, Stores;
      var room, after := Evicted(without, size), Put(cache, signature, identity, key, result, allowed);
      if cache.identity.Some? {
        forall k | 0 <= k < |after.pages|
          ensures after.pages[k].result == compute(cache.identity.value, after.pages[k].key)
        {
          if k < |room.pages| {
            EvictedMembers(without, size, room.pages[k]);
            RemovedMembers(cache.pages, key, room.pages[k]);
          }
        }
      }
    }
  }

  /** Every step of every thread keeps it. */
  lemma StepHolds(compute: Compute, allowed: nat, w: World, a: Action)
    requires Holds(compute, w) && Enabled(compute, w, a)
    ensures Holds(compute, Step(compute, allowed, w, a))
  {
    hide Valid, Right, Get, Put;
    match a
    case Lookup(thread, key, readable) =>
      GetKeeps(w.cache, Seen(w, readable), key);
      GetRight(compute, w.cache, Seen(w, readable), key);
    case Keep(thread, result, readable) =>
      var p := w.threads[thread];
      PutKeeps(w.cache, Seen(w, readable), p.identity, p.key, result, allowed);
      PutRight(compute, w.cache, Seen(w, readable), p.identity, p.key, result, allowed);
    case Change =>
  }

  function Run(compute: Compute, allowed: nat, w: World, actions: seq<Action>): Option<World>
    decreases |actions|
  {
    if actions == [] then Some(w)
    else if Enabled(compute, w, actions[0]) then Run(compute, allowed, Step(compute, allowed, w, actions[0]), actions[1..])
    else None
  }

  lemma {:induction false} RunHolds(compute: Compute, allowed: nat, w: World, actions: seq<Action>)
    requires Holds(compute, w) && Run(compute, allowed, w, actions).Some?
    ensures Holds(compute, Run(compute, allowed, w, actions).value)
    decreases |actions|
  {
    hide Holds, Step, Enabled;
    if actions != [] {
      StepHolds(compute, allowed, w, actions[0]);
      RunHolds(compute, allowed, Step(compute, allowed, w, actions[0]), actions[1..]);
    }
  }

  /** In every interleaving of lookups, computations and changes, a hit is what the query computes
      under the present version, and the cache stays within its limits. */
  lemma HitsAreCurrent(compute: Compute, allowed: nat, version: nat, actions: seq<Action>, key: Query, readable: bool)
    requires Run(compute, allowed, World(version, Cache(None, [], 0), map[]), actions).Some?
    ensures var w := Run(compute, allowed, World(version, Cache(None, [], 0), map[]), actions).value;
            && Valid(w.cache)
            && var hit := Get(w.cache, Seen(w, readable), key).1;
               hit.Some? ==> readable && hit.value == compute(w.version, key)
  {
    var start := World(version, Cache(None, [], 0), map[]);
    NothingCached();
    RunHolds(compute, allowed, start, actions);
    hide Run, Get, Valid, Right;
    var w := Run(compute, allowed, start, actions).value;
    GetRight(compute, w.cache, Seen(w, readable), key);
  }

  // ---------------------------------------------------------------------------------------
  // The cache object
  // ---------------------------------------------------------------------------------------

  class PageCache {
    var identity: Signature
    var pages: seq<Page>
    var used: nat

    constructor ()
      ensures Value() == Cache(None, [], 0)
    {
      identity, pages, used := None, [], 0;
    }

    ghost function Value(): Cache
      reads this
    {
      Cache(identity, pages, used)
    }

    /** The first locked step: clear the pages of another signature, then look the query up. */
    method Lookup(signature: Signature, key: Query) returns (hit: Option<Result>)
      modifies this
      ensures (Value(), hit) == Get(old(Value()), signature, key)
    {
      hide Find, Removed;
      if signature != identity {
        pages, used, identity := [], 0, signature;
      }
      var i := Find(pages, key);
      if signature != None && i < |pages| {
        var page := pages[i];
        pages := Removed(pages, key) + [page];
        return Some(page.result);
      }
      hit := None;
    }

    /** The second: keep the result, dropping the least recently used pages to make room. */
    method Keep(signature: Signature, under: Signature, key: Query, result: Result, allowed: nat)
      requires Valid(Value())
      modifies this
      ensures Value() == Put(old(Value()), signature, under, key, result, allowed) && Valid(Value())
    {
      PutKeeps(Value(), signature, under, key, result, allowed);
      RemovedTotal(pages, key);
      hide Find, Removed, Total, Valid;
      if !Stores(signature, under, result, allowed) {
        return;
      }
      var i, size := Find(pages, key), |result.text|;
      if i < |pages| {
        used := used - |pages[i].result.text|;
      }
      pages := Removed(pages, key);
      MakeRoom(size);
      pages, used := pages + [Page(key, result)], used + size;
    }

    method MakeRoom(size: nat)
      requires used == Total(pages)
      modifies this`pages, this`used
      ensures Value() == Evicted(old(Value()), size)
    {
      while pages != [] && (used + size > MAX_BYTES || |pages| >= MAX_ENTRIES)
        invariant used == Total(pages)
        invariant Evicted(Value(), size) == Evicted(old(Value()), size)
        decreases |pages|
      {
        used := used - |pages[0].result.text|;
        pages := pages[1..];
      }
    }
  }
}
