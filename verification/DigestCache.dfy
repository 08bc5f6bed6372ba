/** The per-digest cache of pipeline names: its heap form, its value form, and all interleavings of its users. */
module DigestCache {
  import opened Prelude
  import opened LayerScan
  import opened Manifest

  /** Ten minutes, in nanoseconds. */
  const CACHE_TTL: int := 600_000_000_000

  // ------------------------------------------------------------ value semantics

  datatype Cached = Cached(names: NameFlags, fetchedAt: int)
  type Entries = map<string, Cached>

  predicate Expired(c: Cached, now: int) {
    now - c.fetchedAt > CACHE_TTL
  }

  function Prune(c: Entries, now: int): Entries {
    map d | d in c && !Expired(c[d], now) :: c[d]
  }

  function Put(c: Entries, digest: string, names: NameFlags, now: int): Entries {
    Prune(c, now)[digest := Cached(names, now)]
  }

  function Lookup(c: Entries, digest: string, now: int): Option<NameFlags> {
    if digest in c && !Expired(c[digest], now) then Some(c[digest].names) else None
  }

  function AfterLookup(c: Entries, digest: string, now: int): Entries {
    if digest in c && Expired(c[digest], now) then c - {digest} else c
  }

  // ------------------------------------------------------------------- the heap

  /** A mutable Go map[string]bool. */
  class NameMap {
    var flags: NameFlags

    constructor (flags: NameFlags)
      ensures this.flags == flags
    {
      this.flags := flags;
    }
  }

  datatype CacheEntry = CacheEntry(names: NameMap, fetchedAt: int)

  method CopyStringBoolMap(m: NameMap) returns (cp: NameMap)
    ensures fresh(cp) && cp.flags == m.flags
  {
    cp := new NameMap(map[]);
    var pending := m.flags.Keys;
    while pending != {}
      invariant pending <= m.flags.Keys
      invariant cp.flags == map k | k in m.flags && k !in pending :: m.flags[k]
    {
      var k :| k in pending;
      pending := pending - {k};
      cp.flags := cp.flags[k := m.flags[k]];
    }
  }

  class OCIManifestFetcher {
    var cache: map<string, CacheEntry>
    /** The name maps the cache owns; no client ever holds one of them. */
    ghost var Owned: set<NameMap>

    ghost predicate Valid()
      reads this
    {
      forall d <- cache :: cache[d].names in Owned
    }

    ghost function Contents(): Entries
      reads this, Owned
      requires Valid()
    {
      map d | d in cache :: Cached(cache[d].names.flags, cache[d].fetchedAt)
    }

    constructor ()
      ensures Valid() && fresh(Owned) && Contents() == map[]
    {
      cache := map[];
      Owned := {};
    }

    method GetCached(digest: string, now: int) returns (r: NameMap?)
      requires Valid()
      modifies this`cache
      ensures Valid() && (r != null ==> fresh(r))
      ensures Contents() == AfterLookup(old(Contents()), digest, now)
      ensures match Lookup(old(Contents()), digest, now)
              case None => r == null
              case Some(names) => r != null && r.flags == names
    {
      if digest !in cache {
        return null;
      }
      var entry := cache[digest];
      if now - entry.fetchedAt > CACHE_TTL {
        cache := cache - {digest};
        return null;
      }
      r := CopyStringBoolMap(entry.names);
    }

    method PruneExpiredLocked(now: int)
      requires Valid()
      modifies this`cache
      ensures Valid() && Contents() == Prune(old(Contents()), now)
    {
      var pending := cache.Keys;
      while pending != {}
        invariant Valid() && pending <= cache.Keys
        invariant forall d ::
          d in cache <==> d in old(cache) && (d in pending || now - old(cache)[d].fetchedAt <= CACHE_TTL)
        invariant forall d <- cache :: cache[d] == old(cache)[d]
      {
        var d :| d in pending;
        pending := pending - {d};
        if now - cache[d].fetchedAt > CACHE_TTL {
          cache := cache - {d};
        }
      }
    }

    method PutCache(digest: string, names: NameMap, now: int)
      requires Valid()
      modifies this
      ensures Valid() && fresh(Owned - old(Owned)) && old(Owned) <= Owned
      ensures Contents() == Put(old(Contents()), digest, old(names.flags), now)
    {
      PruneExpiredLocked(now);
      var copy := CopyStringBoolMap(names);
      Owned := Owned + {copy};
      cache := cache[digest := CacheEntry(copy, now)];
    }

    /** The handed-out result carries these flags, in a map the cache does not own. */
    ghost predicate Delivers(r: Fetch<NameMap>, f: Fetch<NameFlags>)
      reads this, if r.Fetched? then {r.value} else {}
    {
      match r
      case Fetched(m) => f == Fetched(m.flags) && m !in Owned
      case Permanent(c) => f == Permanent(c)
      case Transient => f == Transient
    }

    /** Remember what was read, and hand out a copy. */
    method Keep(digest: string, flags: NameFlags, now: int) returns (m: NameMap)
      requires Valid()
      modifies this
      ensures Valid() && fresh(Owned - old(Owned)) && old(Owned) <= Owned
      ensures fresh(m) && m !in Owned && m.flags == flags
      ensures Contents() == Put(old(Contents()), digest, flags, now)
    {
      var names := new NameMap(flags);
      PutCache(digest, names, now);
      m := CopyStringBoolMap(names);
    }

    /** The part of a fetch after a cache miss. */
    method FetchMissing(digest: string, layers: Option<seq<Layer>>, decode: Decoder, now: int)
      returns (r: Fetch<NameMap>)
      requires Valid()
      modifies this
      ensures Valid() && fresh(Owned - old(Owned)) && old(Owned) <= Owned
      ensures Delivers(r, ReadNames(layers, decode)) && (r.Fetched? ==> fresh(r.value))
      ensures Contents() == Remember(old(Contents()), digest, ReadNames(layers, decode), now)
    {
      var read := ExtractAndParse(layers, decode);
      if !read.Fetched? {
        return if read.Transient? then Transient else Permanent(read.cause);
      }
      var copy := Keep(digest, read.value, now);
      return Fetched(copy);
    }

    /** One undisturbed fetch; `checkedAt` and `storedAt` are the two clock readings. */
    method FetchPipelineNames(q: Request, decode: Decoder, checkedAt: int, storedAt: int)
      returns (r: Fetch<NameMap>)
      requires Valid()
      modifies this
      ensures Valid() && fresh(Owned - old(Owned)) && old(Owned) <= Owned
      ensures Delivers(r, FetchThrough(old(Contents()), q, decode, checkedAt, storedAt).0)
      ensures r.Fetched? ==> fresh(r.value)
      ensures Contents() == FetchThrough(old(Contents()), q, decode, checkedAt, storedAt).1
    {
      var img := ResolveImageDigest(q);
      if !img.Fetched? {
        return if img.Transient? then Transient else Permanent(img.cause);
      }
      var Image(digest, layers) := img.value;
      var cached := GetCached(digest, checkedAt);
      if cached != null {
        return Fetched(cached);
      }
      r := FetchMissing(digest, layers, decode, storedAt);
    }

    /** Whatever a client does to a map it was handed or passed in, the cached contents stay. */
    method ClientMutation(m: NameMap, flags: NameFlags)
      requires Valid() && m !in Owned
      modifies m
      ensures Valid() && Contents() == old(Contents())
    {
      m.flags := flags;
    }
  }

  /** A fetch as a function of the cache: its result and the cache it leaves. */
  function FetchThrough(c: Entries, q: Request, decode: Decoder, checkedAt: int, storedAt: int)
    : (Fetch<NameFlags>, Entries)
  {
    match Resolve(q)
    case Permanent(cause) => (Permanent(cause), c)
    case Transient => (Transient, c)
    case Fetched(img) =>
      var c' := AfterLookup(c, img.digest, checkedAt);
      match Lookup(c, img.digest, checkedAt)
      case Some(names) => (Fetched(names), c')
      case None =>
        var names := ReadNames(img.layers, decode);
        (names, Remember(c', img.digest, names, storedAt))
  }

  /** Only successes are stored. */
  function Remember(c: Entries, digest: string, names: Fetch<NameFlags>, now: int): Entries {
    if names.Fetched? then Put(c, digest, names.value, now) else c
  }

  // ------------------------------------------------------------- interleavings

  /** What extracting and parsing the image of a digest gives. */
  type Truth = string -> Fetch<NameFlags>

  /** A caller between the two locked sections, holding the digest it missed on. */
  datatype State = State(cache: Entries, missed: map<nat, string>, served: seq<Hit>)

  /** Names served from the cache at a clock reading. */
  datatype Hit = Hit(digest: string, names: NameFlags, now: int)

  /** One locked section of one caller at some clock reading; a failed read stores nothing. */
  datatype Action =
    | Get(caller: nat, digest: string, now: int)
    | Store(caller: nat, now: int)

  function Do(s: State, a: Action, truth: Truth): State {
    match a
    case Get(caller, digest, now) =>
      var s' := s.(cache := AfterLookup(s.cache, digest, now));
      (match Lookup(s.cache, digest, now)
       case Some(names) => s'.(served := s.served + [Hit(digest, names, now)])
       case None => s'.(missed := s.missed[caller := digest]))
    case Store(caller, now) =>
      if caller !in s.missed then s
      else
        var digest := s.missed[caller];
        s.(missed := s.missed - {caller}, cache := Remember(s.cache, digest, truth(digest), now))
  }

  function Run(actions: seq<Action>, truth: Truth): State {
    if actions == [] then State(map[], map[], [])
    else Do(Run(Init(actions), truth), Last(actions), truth)
  }

  predicate Truthful(c: Entries, truth: Truth) {
    forall d <- c :: truth(d) == Fetched(c[d].names)
  }

  /**
   Whatever the interleaving of callers and however clocks jump, every hit equals what uncached
   extraction of that digest gives.
   */
  lemma {:induction false} HitsAgreeWithUncachedFetch(actions: seq<Action>, truth: Truth)
    ensures Truthful(Run(actions, truth).cache, truth)
    ensures forall hit <- Run(actions, truth).served :: truth(hit.digest) == Fetched(hit.names)
  {
    if actions != [] {
      HitsAgreeWithUncachedFetch(Init(actions), truth);
    }
  }

  /** With a truthful cache, a whole fetch gives the uncached result and leaves the cache truthful. */
  lemma FetchRefinesUncached(c: Entries, q: Request, decode: Decoder, checkedAt: int, storedAt: int, truth: Truth)
    requires Truthful(c, truth)
    requires Resolve(q).Fetched? ==> truth(Resolve(q).value.digest) == ReadNames(Resolve(q).value.layers, decode)
    ensures var (r, c') := FetchThrough(c, q, decode, checkedAt, storedAt);
      r == FetchUncached(q, decode) && Truthful(c', truth)
  {
  }

  /** Storing drops exactly the expired entries other than its own, and a hit is never older than the TTL. */
  lemma TtlIsExact(c: Entries, digest: string, names: NameFlags, now: int, d: string)
    ensures d in Put(c, digest, names, now) <==> d == digest || (d in c && now - c[d].fetchedAt <= CACHE_TTL)
    ensures d in Put(c, digest, names, now) ==> !Expired(Put(c, digest, names, now)[d], now)
    ensures d != digest && d in Put(c, digest, names, now) ==> Put(c, digest, names, now)[d] == c[d]
    ensures Lookup(c, d, now).Some? <==> d in c && now <= c[d].fetchedAt + CACHE_TTL
  {
  }

  /** What was stored at one clock reading is found exactly up to ten minutes later. */
  lemma StoredIsFoundForTheTtl(c: Entries, d: string, names: NameFlags, at: int, now: int)
    ensures Lookup(Put(c, d, names, at), d, now) == if now - at <= 600_000_000_000 then Some(names) else None
  {
  }

  /** An entry that a lookup finds too old is gone after it; nothing else changes. */
  lemma LookupDropsOnlyExpired(c: Entries, digest: string, now: int, d: string)
    ensures var after := AfterLookup(c, digest, now);
      && (d in after <==> d in c && (d == digest ==> now - c[d].fetchedAt <= 600_000_000_000))
      && (d in after ==> after[d] == c[d])
  {
  }

  /** After a store no entry is older than ten minutes, and the other entries that are not are still there. */
  lemma PutDropsOnlyExpired(c: Entries, digest: string, names: NameFlags, now: int, d: string)
    requires d != digest
    ensures var after := Put(c, digest, names, now);
      && (d in after <==> d in c && now - c[d].fetchedAt <= 600_000_000_000)
      && (d in after ==> after[d] == c[d])
  {
  }

  /** A store of the digest, by a caller that had missed on it and read it successfully, at this clock reading. */
  predicate StoresAt(actions: seq<Action>, i: int, digest: string, names: NameFlags, at: int, truth: Truth) {
    && 0 <= i < |actions| && actions[i].Store? && actions[i].now == at
    && var s := Run(actions[..i], truth);
       actions[i].caller in s.missed && s.missed[actions[i].caller] == digest && truth(digest) == Fetched(names)
  }

  /** The entry was stored, earlier in the run, at the time it carries. */
  ghost predicate Dated(actions: seq<Action>, digest: string, e: Cached, truth: Truth) {
    exists i :: StoresAt(actions, i, digest, e.names, e.fetchedAt, truth)
  }

  /** Some store of these names is no more than ten minutes before the hit. */
  ghost predicate Fresh(actions: seq<Action>, h: Hit, truth: Truth) {
    exists i, at :: StoresAt(actions, i, h.digest, h.names, at, truth) && h.now - at <= 600_000_000_000
  }

  lemma StoresAtGrows(actions: seq<Action>, x: Action, i: int, d: string, names: NameFlags, at: int, truth: Truth)
    requires StoresAt(actions, i, d, names, at, truth)
    ensures StoresAt(actions + [x], i, d, names, at, truth)
  {
    assert (actions + [x])[..i] == actions[..i];
  }

  lemma EntryStaysDated(actions: seq<Action>, x: Action, d: string, truth: Truth)
    requires forall e <- Run(actions, truth).cache :: Dated(actions, e, Run(actions, truth).cache[e], truth)
    requires d in Do(Run(actions, truth), x, truth).cache
    ensures Dated(actions + [x], d, Do(Run(actions, truth), x, truth).cache[d], truth)
  {
    var s, e := Run(actions, truth), Do(Run(actions, truth), x, truth).cache[d];
    if d in s.cache && s.cache[d] == e {
      var i :| StoresAt(actions, i, d, e.names, e.fetchedAt, truth);
      StoresAtGrows(actions, x, i, d, e.names, e.fetchedAt, truth);
    } else {
      assert (actions + [x])[..|actions|] == actions;
      assert StoresAt(actions + [x], |actions|, d, e.names, e.fetchedAt, truth);
    }
  }

  lemma HitStaysFresh(actions: seq<Action>, x: Action, h: Hit, truth: Truth)
    requires forall d <- Run(actions, truth).cache :: Dated(actions, d, Run(actions, truth).cache[d], truth)
    requires h in Run(actions, truth).served ==> Fresh(actions, h, truth)
    requires h in Do(Run(actions, truth), x, truth).served
    ensures Fresh(actions + [x], h, truth)
  {
    var s := Run(actions, truth);
    var i, at;
    if h in s.served {
      i, at :| StoresAt(actions, i, h.digest, h.names, at, truth) && h.now - at <= 600_000_000_000;
    } else {
      assert x.Get? && x.digest == h.digest && x.now == h.now && s.cache[h.digest].names == h.names;
      at := s.cache[h.digest].fetchedAt;
      i :| StoresAt(actions, i, h.digest, h.names, at, truth);
    }
    StoresAtGrows(actions, x, i, h.digest, h.names, at, truth);
  }

  /**
   Over all interleavings and clocks, every hit serves what a caller stored, after a successful read, no more
   than ten minutes before by the clock; nothing older is ever served.
   */
  lemma {:induction false} HitsAreFresh(actions: seq<Action>, truth: Truth)
    ensures forall d <- Run(actions, truth).cache :: Dated(actions, d, Run(actions, truth).cache[d], truth)
    ensures forall h <- Run(actions, truth).served :: Fresh(actions, h, truth)
  {
    if actions != [] {
      var before, x := Init(actions), Last(actions);
      assert before + [x] == actions;
      HitsAreFresh(before, truth);
      forall d | d in Run(actions, truth).cache {
        EntryStaysDated(before, x, d, truth);
      }
      forall h | h in Run(actions, truth).served ensures Fresh(actions, h, truth) {
        HitStaysFresh(before, x, h, truth);
      }
    }
  }

  /** A fetch that misses and succeeds makes the next one within the TTL a hit, whatever the image's layers do then. */
  lemma FetchThenHit(c: Entries, q: Request, q': Request, decode: Decoder, first: int, at: int, next: int, later: int)
    requires Resolve(q).Fetched? && Resolve(q').Fetched? && Resolve(q').value.digest == Resolve(q).value.digest
    requires Lookup(c, Resolve(q).value.digest, first).None? && FetchThrough(c, q, decode, first, at).0.Fetched?
    requires next <= at + 600_000_000_000
    ensures var (r, c') := FetchThrough(c, q, decode, first, at);
      FetchThrough(c', q', decode, next, later) == (r, c')
  {
  }

  /** From any state a caller that misses and then stores makes the next lookup a hit, for ten minutes and no longer. */
  lemma MissThenStoreThenHit(s: State, c: nat, d: nat, digest: string, at: int, stored: int, now: int, truth: Truth)
    requires Lookup(s.cache, digest, at).None? && truth(digest).Fetched?
    ensures var t := Do(Do(Do(s, Get(c, digest, at), truth), Store(c, stored), truth), Get(d, digest, now), truth);
      t.served == s.served + if now - stored <= 600_000_000_000 then [Hit(digest, truth(digest).value, now)] else []
  {
    StoredIsFoundForTheTtl(AfterLookup(s.cache, digest, at), digest, truth(digest).value, stored, now);
  }

  /** No step removes an entry at most ten minutes old by its clock; only a store of its digest replaces it. */
  lemma FreshEntriesStay(s: State, a: Action, truth: Truth, digest: string)
    requires digest in s.cache && a.now - s.cache[digest].fetchedAt <= 600_000_000_000
    ensures var c := Do(s, a, truth).cache;
      && digest in c
      && (c[digest] == s.cache[digest] ||
          (a.Store? && a.caller in s.missed && s.missed[a.caller] == digest && truth(digest).Fetched?))
  {
    if a.Get? {
      LookupDropsOnlyExpired(s.cache, a.digest, a.now, digest);
    }
  }
}
