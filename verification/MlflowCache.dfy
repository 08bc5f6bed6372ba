/** The MLflow endpoint cache: its locked sections on the heap, and every interleaving of its callers. */
module MlflowCache {
  import opened Prelude

  /** 45 seconds, in nanoseconds. */
  const DEFAULT_TTL: int := 45_000_000_000

  datatype Entry = Entry(endpoint: string, expires: int)

  /** By namespace. */
  type Cache = map<string, Entry>

  function EffectiveTtl(configured: int): int {
    if configured <= 0 then DEFAULT_TTL else configured
  }

  predicate Expired(e: Entry, now: int) {
    !(now < e.expires)
  }

  // ------------------------------------------------------------ locked sections

  function DropIfExpired(c: Cache, ns: string, now: int): Cache {
    if ns in c && Expired(c[ns], now) then c - {ns} else c
  }

  function RemoveExpired(c: Cache, now: int): Cache {
    map ns | ns in c && !Expired(c[ns], now) :: c[ns]
  }

  function Store(c: Cache, ns: string, endpoint: string, now: int, ttl: int): Cache {
    RemoveExpired(c, now)[ns := Entry(endpoint, now + ttl)]
  }

  /** The API server's answer for the MLflow resource: unreadable, or its status address (empty when unset). */
  datatype Reply = Unreadable | Address(url: string)

  /** The endpoint the operator accepts from a reply, if any; `valid` is the URL check. */
  function LookupMLflowEndpoint(ns: string, reply: Reply, valid: string -> bool): Option<string> {
    if ns == "" || reply.Unreadable? || reply.url == "" || !valid(reply.url) then None else Some(reply.url)
  }

  class EndpointCache {
    var entries: Cache

    constructor ()
      ensures entries == map[]
    {
      entries := map[];
    }

    method RemoveExpiredMLflowCacheLocked(now: int)
      modifies this
      ensures entries == RemoveExpired(old(entries), now)
    {
      var pending := entries.Keys;
      while pending != {}
        invariant pending <= entries.Keys
        invariant entries ==
          map ns | ns in old(entries) && (ns in pending || !Expired(old(entries)[ns], now)) :: old(entries)[ns]
      {
        var ns :| ns in pending;
        pending := pending - {ns};
        if !(now < entries[ns].expires) {
          entries := entries - {ns};
        }
      }
    }

    /** One undisturbed call: `reply` is what the API server answers if asked. */
    method RetrieveMLflowEndpointCached(configuredTtl: int, ns: string, now: int, reply: Reply, valid: string -> bool)
      returns (r: Option<string>)
      modifies this
      ensures ns in old(entries) && now < old(entries)[ns].expires ==>
                r == Some(old(entries)[ns].endpoint) && entries == old(entries)
      ensures !(ns in old(entries) && now < old(entries)[ns].expires) ==>
                && r == LookupMLflowEndpoint(ns, reply, valid)
                && entries == if r.None? then DropIfExpired(old(entries), ns, now)
                              else Store(old(entries), ns, r.value, now, EffectiveTtl(configuredTtl))
    {
      var ttl := configuredTtl;
      if ttl <= 0 {
        ttl := DEFAULT_TTL;
      }
      var found := ns in entries;
      if found && now < entries[ns].expires {
        return Some(entries[ns].endpoint);
      }
      if found {
        if ns in entries && !(now < entries[ns].expires) {
          entries := entries - {ns};
        }
      }
      r := LookupMLflowEndpoint(ns, reply, valid);
      if r.None? {
        return;
      }
      RemoveExpiredMLflowCacheLocked(now);
      entries := entries[ns := Entry(r.value, now + ttl)];
    }
  }

  // ------------------------------------------------------------- interleavings

  /** Where a caller stands; `now` is the clock reading it took on entry. */
  datatype Pc =
    | Entered(ns: string, now: int)
    | FoundExpired(ns: string, now: int)
    | LookingUp(ns: string, now: int)
    | Writing(ns: string, now: int, endpoint: string)

  /** A successful read of the MLflow resource. */
  datatype Reading = Reading(ns: string, endpoint: string, at: int)

  /** A result served from the cache to a caller that entered at `now`. */
  datatype Hit = Hit(ns: string, endpoint: string, now: int)

  datatype State = State(clock: int, cache: Cache, callers: map<nat, Pc>, readings: seq<Reading>, hits: seq<Hit>)

  datatype Action =
    | Tick(elapsed: nat)
    | Enter(c: nat, ns: string)
    | Read(c: nat)
    | Purge(c: nat)
    | Lookup(c: nat, reply: Reply)
    | Write(c: nat)

  datatype Setting = Setting(ttl: int, valid: string -> bool)

  function Do(s: State, a: Action, g: Setting): State {
    match a
    case Tick(elapsed) => s.(clock := s.clock + elapsed)
    case Enter(c, ns) =>
      if c in s.callers then s else s.(callers := s.callers[c := Entered(ns, s.clock)])
    case Read(c) =>
      if c !in s.callers || !s.callers[c].Entered? then s
      else
        var Entered(ns, now) := s.callers[c];
        if ns !in s.cache then s.(callers := s.callers[c := LookingUp(ns, now)])
        else if Expired(s.cache[ns], now) then s.(callers := s.callers[c := FoundExpired(ns, now)])
        else s.(callers := s.callers - {c}, hits := s.hits + [Hit(ns, s.cache[ns].endpoint, now)])
    case Purge(c) =>
      if c !in s.callers || !s.callers[c].FoundExpired? then s
      else
        var FoundExpired(ns, now) := s.callers[c];
        s.(callers := s.callers[c := LookingUp(ns, now)], cache := DropIfExpired(s.cache, ns, now))
    case Lookup(c, reply) =>
      if c !in s.callers || !s.callers[c].LookingUp? then s
      else
        var LookingUp(ns, now) := s.callers[c];
        (match LookupMLflowEndpoint(ns, reply, g.valid)
         case None => s.(callers := s.callers - {c})
         case Some(endpoint) =>
           s.(callers := s.callers[c := Writing(ns, now, endpoint)],
              readings := s.readings + [Reading(ns, endpoint, s.clock)]))
    case Write(c) =>
      if c !in s.callers || !s.callers[c].Writing? then s
      else
        var Writing(ns, now, endpoint) := s.callers[c];
        s.(callers := s.callers - {c}, cache := Store(s.cache, ns, endpoint, now, EffectiveTtl(g.ttl)))
  }

  /** The state after any callers have taken any steps in any order. */
  function Run(actions: seq<Action>, g: Setting): State {
    if actions == [] then State(0, map[], map[], [], []) else Do(Run(Init(actions), g), Last(actions), g)
  }

  /** Some successful lookup for this namespace returned this endpoint no earlier than `since`. */
  predicate Backed(readings: seq<Reading>, ns: string, endpoint: string, since: int) {
    exists r <- readings :: r.ns == ns && r.endpoint == endpoint && r.at >= since
  }

  ghost predicate Inv(s: State, g: Setting) {
    && (forall c <- s.callers :: s.callers[c].now <= s.clock)
    && (forall c <- s.callers | s.callers[c].Writing? ::
          Backed(s.readings, s.callers[c].ns, s.callers[c].endpoint, s.callers[c].now))
    && (forall ns <- s.cache ::
          Backed(s.readings, ns, s.cache[ns].endpoint, s.cache[ns].expires - EffectiveTtl(g.ttl)))
    && (forall h <- s.hits :: Backed(s.readings, h.ns, h.endpoint, h.now - EffectiveTtl(g.ttl) + 1))
    && (forall r <- s.readings :: r.ns != "" && r.endpoint != "" && g.valid(r.endpoint) && r.at <= s.clock)
  }

  lemma BackedGrows(readings: seq<Reading>, r: Reading, ns: string, endpoint: string, since: int)
    ensures Backed(readings, ns, endpoint, since) ==> Backed(readings + [r], ns, endpoint, since)
    ensures r.ns == ns && r.endpoint == endpoint && r.at >= since ==> Backed(readings + [r], ns, endpoint, since)
  {
    assert r in readings + [r];
    assert forall x <- readings :: x in readings + [r];
  }

  lemma LookupKeepsInv(s: State, c: nat, reply: Reply, g: Setting)
    requires Inv(s, g)
    ensures Inv(Do(s, Lookup(c, reply), g), g)
  {
    var s' := Do(s, Lookup(c, reply), g);
    if |s'.readings| > |s.readings| {
      forall ns, endpoint, since { BackedGrows(s.readings, Last(s'.readings), ns, endpoint, since); }
    }
  }

  lemma WriteKeepsInv(s: State, c: nat, g: Setting)
    requires Inv(s, g)
    ensures Inv(Do(s, Write(c), g), g)
  {
  }

  lemma StepKeepsInv(s: State, a: Action, g: Setting)
    requires Inv(s, g)
    ensures Inv(Do(s, a, g), g)
  {
    match a
    case Lookup(c, reply) => LookupKeepsInv(s, c, reply, g);
    case Write(c) => WriteKeepsInv(s, c, g);
    case _ =>
  }

  lemma {:induction false} EveryRunKeepsInv(actions: seq<Action>, g: Setting)
    ensures Inv(Run(actions, g), g)
  {
    if actions != [] {
      EveryRunKeepsInv(Init(actions), g);
      StepKeepsInv(Run(Init(actions), g), Last(actions), g);
    }
  }

  /** The configured time to live if it is positive, 45 seconds otherwise. */
  predicate IsTtl(ttl: int, configured: int) {
    (configured > 0 ==> ttl == configured) && (configured <= 0 ==> ttl == 45_000_000_000)
  }

  /**
   A hit by a caller that entered at `now` returns an endpoint that a successful lookup for the same
   namespace read later than `now` minus the TTL; what is read, and so what is served, is always valid.
   */
  lemma HitsAreRecent(actions: seq<Action>, g: Setting, ttl: int)
    requires IsTtl(ttl, g.ttl)
    ensures var s := Run(actions, g);
      forall h <- s.hits :: exists r <- s.readings ::
        r.ns == h.ns && r.endpoint == h.endpoint && r.at > h.now - ttl && g.valid(h.endpoint)
  {
    EveryRunKeepsInv(actions, g);
    var s := Run(actions, g);
    forall h <- s.hits
      ensures exists r <- s.readings ::
        r.ns == h.ns && r.endpoint == h.endpoint && r.at > h.now - ttl && g.valid(h.endpoint)
    {
      assert Backed(s.readings, h.ns, h.endpoint, h.now - EffectiveTtl(g.ttl) + 1);
    }
  }

  /** A lookup gives an endpoint exactly when the resource has a valid address; the operator adds nothing to it. */
  lemma LookupExactly(ns: string, reply: Reply, valid: string -> bool, endpoint: string)
    ensures LookupMLflowEndpoint(ns, reply, valid) == Some(endpoint) <==>
      ns != "" && reply == Address(endpoint) && endpoint != "" && valid(endpoint)
  {
  }

  /** A store drops every expired entry, and changes no other namespace's entry that is still live. */
  lemma StoreDropsOnlyExpired(c: Cache, ns: string, endpoint: string, now: int, ttl: int, n: string)
    requires n != ns
    ensures var after := Store(c, ns, endpoint, now, ttl);
      && (n in after <==> n in c && now < c[n].expires)
      && (n in after ==> after[n] == c[n])
  {
  }

  /** A purge removes its own namespace's entry, if that has expired, and no other. */
  lemma PurgeDropsOnlyExpired(c: Cache, ns: string, now: int, n: string)
    ensures var after := DropIfExpired(c, ns, now);
      && (n in after <==> n in c && (n == ns ==> now < c[n].expires))
      && (n in after ==> after[n] == c[n])
  {
  }

  /** Two steps of a caller that nothing disturbs: it enters and reads the cache. */
  function Ask(s: State, c: nat, ns: string, g: Setting): State {
    Do(Do(s, Enter(c, ns), g), Read(c), g)
  }

  /** The caller is answered from the cache exactly while the entry has not expired. */
  lemma LiveIsServed(s: State, c: nat, ns: string, g: Setting)
    requires c !in s.callers
    ensures var t := Ask(s, c, ns, g);
      && t.cache == s.cache
      && (if ns in s.cache && s.clock < s.cache[ns].expires
          then c !in t.callers && t.hits == s.hits + [Hit(ns, s.cache[ns].endpoint, s.clock)]
          else c in t.callers && t.hits == s.hits)
  {
  }

  /** A caller that finds nothing, looks up `url` and writes it, in one undisturbed session. */
  function AskAndStore(s: State, c: nat, ns: string, url: string, g: Setting): State {
    Do(Do(Ask(s, c, ns, g), Lookup(c, Address(url)), g), Write(c), g)
  }

  /**
   What a caller found out and stored is what the next caller is served, for as long as the time to live and
   no longer.
   */
  lemma StoredIsServedForTheTtl(s: State, c: nat, d: nat, ns: string, url: string, elapsed: nat, g: Setting, ttl: int)
    requires IsTtl(ttl, g.ttl) && c !in s.callers && d !in s.callers && ns !in s.cache
    requires ns != "" && url != "" && g.valid(url)
    ensures var t := Do(AskAndStore(s, c, ns, url, g), Tick(elapsed), g);
      Ask(t, d, ns, g).hits == s.hits + if elapsed < ttl then [Hit(ns, url, s.clock + elapsed)] else []
  {
    var t := Do(AskAndStore(s, c, ns, url, g), Tick(elapsed), g);
    assert t.cache[ns] == Entry(url, s.clock + ttl) && d !in t.callers;
    LiveIsServed(t, d, ns, g);
  }

  /**
   Although every caller works with a stale clock reading, an entry that has not expired by the real
   clock is never removed: it stays, or a caller for the same namespace overwrites it.
   */
  lemma LiveEntriesSurvive(actions: seq<Action>, a: Action, g: Setting, ns: string)
    requires var s := Run(actions, g); ns in s.cache && s.clock < s.cache[ns].expires
    ensures var s, s' := Run(actions, g), Do(Run(actions, g), a, g);
      && ns in s'.cache
      && (s'.cache[ns] == s.cache[ns] ||
          (a.Write? && a.c in s.callers && s.callers[a.c].Writing? && s.callers[a.c].ns == ns))
  {
    EveryRunKeepsInv(actions, g);
  }

  // ---------------------------------------------------- errors are never cached

  /**
   The caller's session lies within `more`: it entered there, and if it is about to write, a lookup succeeded after
   that.
   */
  ghost predicate SessionWithin(more: seq<Action>, c: nat, pc: Pc, g: Setting) {
    exists i | 0 <= i < |more| :: more[i] == Enter(c, pc.ns) && (pc.Writing? ==> SucceededAfter(more, i, c, pc, g))
  }

  ghost predicate SucceededAfter(more: seq<Action>, i: nat, c: nat, pc: Pc, g: Setting)
    requires pc.Writing?
  {
    exists j | i < j < |more| :: IsSuccessOf(more[j], c, pc, g)
  }

  /** The caller's lookup that gave the endpoint it is about to write. */
  predicate IsSuccessOf(a: Action, c: nat, pc: Pc, g: Setting)
    requires pc.Writing?
  {
    a.Lookup? && a.c == c && LookupMLflowEndpoint(pc.ns, a.reply, g.valid) == Some(pc.endpoint)
  }

  /** More actions of the same session. */
  lemma SessionGoesOn(more: seq<Action>, c: nat, pc: Pc, x: Action, pc': Pc, g: Setting)
    requires SessionWithin(more, c, pc, g) && pc'.ns == pc.ns
    requires pc'.Writing? ==> pc' == pc || IsSuccessOf(x, c, pc', g)
    ensures SessionWithin(more + [x], c, pc', g)
  {
    var all := more + [x];
    var i :| 0 <= i < |more| && more[i] == Enter(c, pc.ns) && (pc.Writing? ==> SucceededAfter(more, i, c, pc, g));
    assert all[i] == Enter(c, pc'.ns);
    if pc'.Writing? {
      if pc' == pc {
        var j :| i < j < |more| && IsSuccessOf(more[j], c, pc, g);
        assert IsSuccessOf(all[j], c, pc', g);
      } else {
        assert IsSuccessOf(all[|more|], c, pc', g);
      }
      assert SucceededAfter(all, i, c, pc', g);
    }
  }

  lemma {:induction false} SessionsOfNewCallers(a: seq<Action>, more: seq<Action>, c: nat, g: Setting)
    requires c !in Run(a, g).callers
    ensures c in Run(a + more, g).callers ==> SessionWithin(more, c, Run(a + more, g).callers[c], g)
  {
    if more == [] {
      assert a + more == a;
    } else {
      var before, x := Init(more), Last(more);
      SessionsOfNewCallers(a, before, c, g);
      assert Init(a + more) == a + before && before + [x] == more;
      var s, t := Run(a + before, g), Run(a + more, g);
      if c in t.callers {
        if c in s.callers {
          SessionGoesOn(before, c, s.callers[c], x, t.callers[c], g);
        } else {
          assert more[|more| - 1] == Enter(c, t.callers[c].ns);
        }
      }
    }
  }

  /** A successful lookup for the namespace gave this endpoint. */
  predicate WasRead(s: State, ns: string, endpoint: string, g: Setting) {
    exists r <- s.readings :: r.ns == ns && r.endpoint == endpoint && g.valid(r.endpoint)
  }

  /**
   However a run goes on, a caller whose lookup failed comes to write only by entering anew and then looking
   up successfully; and every cached endpoint of every run was read successfully for its namespace.
   */
  lemma ErrorsAreNotCached(actions: seq<Action>, c: nat, reply: Reply, more: seq<Action>, g: Setting)
    requires c in Run(actions, g).callers && Run(actions, g).callers[c].LookingUp?
    requires LookupMLflowEndpoint(Run(actions, g).callers[c].ns, reply, g.valid).None?
    ensures var s := Run(actions + [Lookup(c, reply)] + more, g);
      && (c in s.callers ==> SessionWithin(more, c, s.callers[c], g))
      && forall ns <- s.cache :: WasRead(s, ns, s.cache[ns].endpoint, g)
  {
    var a := Extend(actions, Lookup(c, reply), g);
    SessionsOfNewCallers(a, more, c, g);
    EveryRunKeepsInv(a + more, g);
    CachedWasRead(Run(a + more, g), g);
  }

  lemma CachedWasRead(s: State, g: Setting)
    requires Inv(s, g)
    ensures forall ns <- s.cache :: WasRead(s, ns, s.cache[ns].endpoint, g)
  {
    forall ns <- s.cache
      ensures WasRead(s, ns, s.cache[ns].endpoint, g)
    {
      assert Backed(s.readings, ns, s.cache[ns].endpoint, s.cache[ns].expires - EffectiveTtl(g.ttl));
    }
  }

  // ---------------------------------------------------------- when expiry falls

  /** The writer would replace the entry by one that expires earlier. */
  predicate WritesOlder(s: State, c: nat, ns: string, g: Setting) {
    && ns in s.cache && c in s.callers && s.callers[c].Writing? && s.callers[c].ns == ns
    && s.callers[c].now + EffectiveTtl(g.ttl) < s.cache[ns].expires
  }

  /** From any state, an entry's expiry falls in exactly these steps. */
  lemma ExpiryFallsExactlyWhen(s: State, a: Action, g: Setting, ns: string)
    requires ns in s.cache && ns in Do(s, a, g).cache
    ensures Do(s, a, g).cache[ns].expires < s.cache[ns].expires <==> a.Write? && WritesOlder(s, a.c, ns, g)
  {
  }

  /** At position `i` a caller really entered for the namespace, reading the clock at `now`. */
  predicate EntersAt(actions: seq<Action>, i: nat, c: nat, ns: string, now: int, g: Setting) {
    && i < |actions| && actions[i] == Enter(c, ns)
    && c !in Run(actions[..i], g).callers && Run(actions[..i], g).clock == now
  }

  ghost predicate SomeoneEntered(actions: seq<Action>, ns: string, now: int, g: Setting) {
    exists i: nat, c :: EntersAt(actions, i, c, ns, now, g)
  }

  /** The caller entered when it says. */
  ghost predicate CallerDated(actions: seq<Action>, c: nat, pc: Pc, g: Setting) {
    exists i: nat :: EntersAt(actions, i, c, pc.ns, pc.now, g)
  }

  /** The entry's writer entered one TTL before the entry expires. */
  ghost predicate EntryDated(actions: seq<Action>, ns: string, e: Entry, g: Setting) {
    SomeoneEntered(actions, ns, e.expires - EffectiveTtl(g.ttl), g)
  }

  ghost predicate Dated(actions: seq<Action>, g: Setting) {
    var s := Run(actions, g);
    && (forall c <- s.callers :: CallerDated(actions, c, s.callers[c], g))
    && (forall ns <- s.cache :: EntryDated(actions, ns, s.cache[ns], g))
  }

  lemma EntersAtGrows(actions: seq<Action>, x: Action, i: nat, c: nat, ns: string, now: int, g: Setting)
    requires EntersAt(actions, i, c, ns, now, g)
    ensures EntersAt(actions + [x], i, c, ns, now, g)
  {
    assert (actions + [x])[..i] == actions[..i];
  }

  lemma CallerAfterStep(s: State, a: Action, g: Setting, c: nat)
    requires c in Do(s, a, g).callers
    ensures var pc := Do(s, a, g).callers[c];
      || (c in s.callers && s.callers[c].ns == pc.ns && s.callers[c].now == pc.now)
      || (a == Enter(c, pc.ns) && c !in s.callers && s.clock == pc.now)
  {
  }

  lemma EntryAfterStep(s: State, a: Action, g: Setting, ns: string)
    requires ns in Do(s, a, g).cache
    ensures var e := Do(s, a, g).cache[ns];
      || (ns in s.cache && s.cache[ns] == e)
      || (a.Write? && a.c in s.callers && s.callers[a.c].ns == ns
          && s.callers[a.c].now == e.expires - EffectiveTtl(g.ttl))
  {
  }

  lemma CallerStaysDated(actions: seq<Action>, x: Action, g: Setting, c: nat)
    requires Dated(actions, g) && c in Do(Run(actions, g), x, g).callers
    ensures CallerDated(actions + [x], c, Do(Run(actions, g), x, g).callers[c], g)
  {
    var s, pc := Run(actions, g), Do(Run(actions, g), x, g).callers[c];
    CallerAfterStep(s, x, g, c);
    if c in s.callers && s.callers[c].ns == pc.ns && s.callers[c].now == pc.now {
      assert CallerDated(actions, c, s.callers[c], g);
      var i: nat :| EntersAt(actions, i, c, pc.ns, pc.now, g);
      EntersAtGrows(actions, x, i, c, pc.ns, pc.now, g);
    } else {
      assert (actions + [x])[..|actions|] == actions;
      assert EntersAt(actions + [x], |actions|, c, pc.ns, pc.now, g);
    }
  }

  lemma EntryStaysDated(actions: seq<Action>, x: Action, g: Setting, ns: string)
    requires Dated(actions, g) && ns in Do(Run(actions, g), x, g).cache
    ensures EntryDated(actions + [x], ns, Do(Run(actions, g), x, g).cache[ns], g)
  {
    var s, now := Run(actions, g), Do(Run(actions, g), x, g).cache[ns].expires - EffectiveTtl(g.ttl);
    EntryAfterStep(s, x, g, ns);
    var i: nat, c: nat;
    if ns in s.cache && s.cache[ns] == Do(s, x, g).cache[ns] {
      assert EntryDated(actions, ns, s.cache[ns], g);
      i, c :| EntersAt(actions, i, c, ns, now, g);
    } else {
      assert CallerDated(actions, x.c, s.callers[x.c], g);
      c := x.c;
      i :| EntersAt(actions, i, c, ns, now, g);
    }
    EntersAtGrows(actions, x, i, c, ns, now, g);
  }

  lemma {:induction false} EveryRunIsDated(actions: seq<Action>, g: Setting)
    ensures Dated(actions, g)
  {
    if actions != [] {
      var before, x := Init(actions), Last(actions);
      assert before + [x] == actions;
      EveryRunIsDated(before, g);
      forall c | c in Run(actions, g).callers {
        CallerStaysDated(before, x, g, c);
      }
      forall ns | ns in Run(actions, g).cache {
        EntryStaysDated(before, x, g, ns);
      }
    }
  }

  lemma {:induction false} ClockNeverFalls(actions: seq<Action>, i: nat, j: nat, g: Setting)
    requires i <= j <= |actions|
    ensures Run(actions[..i], g).clock <= Run(actions[..j], g).clock
  {
    if i < j {
      ClockNeverFalls(actions, i, j - 1, g);
      assert Init(actions[..j]) == actions[..j - 1];
    }
  }

  lemma EarlierByTheClock(actions: seq<Action>, i: nat, c: nat, j: nat, d: nat, ns: string, early: int, late: int,
                          g: Setting)
    requires EntersAt(actions, i, c, ns, early, g) && EntersAt(actions, j, d, ns, late, g) && early < late
    ensures i < j
  {
    if j <= i {
      ClockNeverFalls(actions, j, i, g);
    }
  }

  /**
   Over runs: expiry falls only when a caller writes after it was overtaken, that is, when it entered, at
   position `i`, before the writer of the entry did, at position `j`.
   */
  lemma ExpiryFallsOnlyByOvertaken(actions: seq<Action>, x: Action, g: Setting, ns: string)
    returns (i: nat, j: nat, other: nat)
    requires var s, t := Run(actions, g), Do(Run(actions, g), x, g);
      ns in s.cache && ns in t.cache && t.cache[ns].expires < s.cache[ns].expires
    ensures var s := Run(actions, g);
      && x.Write? && WritesOlder(s, x.c, ns, g) && i < j
      && EntersAt(actions, i, x.c, ns, s.callers[x.c].now, g)
      && EntersAt(actions, j, other, ns, s.cache[ns].expires - EffectiveTtl(g.ttl), g)
  {
    var s := Run(actions, g);
    ExpiryFallsExactlyWhen(s, x, g, ns);
    EveryRunIsDated(actions, g);
    var early, late := s.callers[x.c].now, s.cache[ns].expires - EffectiveTtl(g.ttl);
    assert CallerDated(actions, x.c, s.callers[x.c], g) && EntryDated(actions, ns, s.cache[ns], g);
    i :| EntersAt(actions, i, x.c, ns, early, g);
    j, other :| EntersAt(actions, j, other, ns, late, g);
    EarlierByTheClock(actions, i, x.c, j, other, ns, early, late, g);
  }

  // -------------------------------------------------------------- a run in which it does

  lemma Extend(a: seq<Action>, x: Action, g: Setting) returns (b: seq<Action>)
    ensures b == a + [x] && Run(b, g) == Do(Run(a, g), x, g)
  {
    b := a + [x];
    assert Init(b) == a;
  }

  /** A caller that finds nothing cached goes from entering to being about to write. */
  lemma ReachWriting(a: seq<Action>, c: nat, ns: string, url: string, g: Setting) returns (b: seq<Action>)
    requires ns != "" && url != "" && g.valid(url)
    requires c !in Run(a, g).callers && ns !in Run(a, g).cache
    ensures var s, t := Run(a, g), Run(b, g);
      && t.callers == s.callers[c := Writing(ns, s.clock, url)]
      && t.cache == s.cache && t.clock == s.clock
  {
    b := Extend(a, Enter(c, ns), g);
    b := Extend(b, Read(c), g);
    b := Extend(b, Lookup(c, Address(url)), g);
  }

  /**
   Expiry is not monotone: in some run, a caller that entered first but writes last moves the entry's
   expiry back by as long as it was delayed.
   */
  lemma SlowWriterMovesExpiryBack(g: Setting, ns: string, url: string, delay: nat) returns (a: seq<Action>)
    requires ns != "" && url != "" && g.valid(url) && delay > 0
    ensures var s, s' := Run(a, g), Do(Run(a, g), Write(0), g);
      ns in s.cache && ns in s'.cache && s'.cache[ns].expires == s.cache[ns].expires - delay
  {
    a := ReachWriting([], 0, ns, url, g);
    a := Extend(a, Tick(delay), g);
    a := ReachWriting(a, 1, ns, url, g);
    a := Extend(a, Write(1), g);
  }
}
