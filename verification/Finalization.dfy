/**
 The cleanup code as it runs for one DSPA while nothing else touches the cluster: ordered API calls with
 early return. `Lifecycle` interleaves the same calls.
 */
module Finalization {
  import opened Lifecycle

  /** How one API call ends; a failed call may still have taken effect. */
  datatype Call = Succeeds | Fails | FailsAfterEffect

  /** The API server's behaviour during one pass. */
  datatype Faults = Faults(
    unbind: Call,
    list: bool,
    get: WebhookResource -> bool,
    delete: WebhookResource -> Call,
    update: Call)

  /** Removing `r` succeeds: it can be read, and it is absent or can be deleted. */
  predicate Removable(r: WebhookResource, webhook: set<WebhookResource>, f: Faults) {
    f.get(r) && (r in webhook ==> f.delete(r).Succeeds?)
  }

  /** The resources before position `n` of the cleanup order. */
  function Before(n: nat): set<WebhookResource>
    requires n <= |CLEANUP_ORDER|
  {
    set r | r in CLEANUP_ORDER[..n]
  }

  /** Cleanup stopped at position `n`: everything before is gone, everything after is untouched. */
  predicate StoppedAt(n: nat, was: set<WebhookResource>, now: set<WebhookResource>, f: Faults) {
    && n < |CLEANUP_ORDER|
    && !Removable(CLEANUP_ORDER[n], was, f)
    && (forall i | 0 <= i < n :: Removable(CLEANUP_ORDER[i], was, f))
    && (now == was - Before(n) ||
        (now == was - Before(n + 1) && f.get(CLEANUP_ORDER[n]) && f.delete(CLEANUP_ORDER[n]).FailsAfterEffect?))
  }

  lemma BeforeSnoc(n: nat)
    requires n < |CLEANUP_ORDER|
    ensures Before(n + 1) == Before(n) + {CLEANUP_ORDER[n]} && CLEANUP_ORDER[n] !in Before(n)
  {
  }

  lemma BeforeAll(webhook: set<WebhookResource>)
    ensures webhook - Before(|CLEANUP_ORDER|) == {}
  {
    forall j | 0 <= j < |CLEANUP_ORDER| ensures CLEANUP_ORDER[j] !in webhook - Before(|CLEANUP_ORDER|) {
      assert CLEANUP_ORDER[..|CLEANUP_ORDER|][j] == CLEANUP_ORDER[j];
    }
    CleanupCoversWebhook(webhook - Before(|CLEANUP_ORDER|));
  }

  datatype Contents = Contents(dspas: map<Key, Dspa>, bindings: map<string, Key>, webhook: set<WebhookResource>)

  /** How the webhook part of a finalization ends. */
  ghost predicate WebhookHandled(was: Contents, now: Contents, k: Key, f: Faults, ok: bool) {
    && now.bindings == was.bindings && now.dspas == was.dspas
    && (if !f.list then !ok && now.webhook == was.webhook
        else if OtherKubernetes(was.dspas, k) then ok && now.webhook == was.webhook
        else if ok then now.webhook == {} && forall r <- CLEANUP_ORDER :: Removable(r, was.webhook, f)
        else exists n | 0 <= n < |CLEANUP_ORDER| :: StoppedAt(n, was.webhook, now.webhook, f))
  }

  function Unbound(c: Contents, k: Key, f: Faults): Contents {
    if f.unbind.Fails? then c else c.(bindings := c.bindings - {BindingName(k)})
  }

  function Released(c: Contents, k: Key, f: Faults): Contents {
    if f.update.Fails? then c else c.(dspas := c.dspas - {k})
  }

  /** How a finalization ends: at the first call that fails, or with the DSPA released. */
  ghost predicate Finalized(was: Contents, now: Contents, k: Key, f: Faults, ok: bool) {
    var unbound := Unbound(was, k, f);
    if !f.unbind.Succeeds? then !ok && now == unbound
    else exists cleaned, done ::
      && WebhookHandled(unbound, cleaned, k, f, done)
      && (if done then now == Released(cleaned, k, f) && ok == f.update.Succeeds? else !ok && now == cleaned)
  }

  class Cluster {
    var dspas: map<Key, Dspa>
    var bindings: map<string, Key>
    var webhook: set<WebhookResource>

    constructor (dspas: map<Key, Dspa>, bindings: map<string, Key>, webhook: set<WebhookResource>)
      ensures this.dspas == dspas && this.bindings == bindings && this.webhook == webhook
    {
      this.dspas, this.bindings, this.webhook := dspas, bindings, webhook;
    }

    function Value(): Contents
      reads this
    {
      Contents(dspas, bindings, webhook)
    }

    method DeleteResourceIfItExists(r: WebhookResource, f: Faults) returns (ok: bool)
      modifies this`webhook
      ensures ok <==> Removable(r, old(webhook), f)
      ensures webhook == old(webhook) - {r} ||
              (!ok && webhook == old(webhook) && !(f.get(r) && f.delete(r).FailsAfterEffect?))
      ensures !ok && webhook != old(webhook) ==> f.get(r) && f.delete(r).FailsAfterEffect?
    {
      if !f.get(r) {
        return false;
      }
      if r !in webhook {
        return true;
      }
      var call := f.delete(r);
      if !call.Fails? {
        webhook := webhook - {r};
      }
      return call.Succeeds?;
    }

    method CleanupWebhookResources(f: Faults) returns (ok: bool)
      modifies this`webhook
      ensures ok <==> forall r <- CLEANUP_ORDER :: Removable(r, old(webhook), f)
      ensures ok ==> webhook == {}
      ensures !ok ==> exists n | 0 <= n < |CLEANUP_ORDER| :: StoppedAt(n, old(webhook), webhook, f)
    {
      var i := 0;
      while i < |CLEANUP_ORDER|
        invariant 0 <= i <= |CLEANUP_ORDER|
        invariant webhook == old(webhook) - Before(i)
        invariant forall j | 0 <= j < i :: Removable(CLEANUP_ORDER[j], old(webhook), f)
      {
        BeforeSnoc(i);
        ok := DeleteResourceIfItExists(CLEANUP_ORDER[i], f);
        if !ok {
          assert !Removable(CLEANUP_ORDER[i], old(webhook), f);
          assert StoppedAt(i, old(webhook), webhook, f);
          assert CLEANUP_ORDER[i] in CLEANUP_ORDER;
          return;
        }
        i := i + 1;
      }
      BeforeAll(old(webhook));
      ok := true;
    }

    /** Does another DSPA use the kubernetes store? `items` is the listing, in any order. */
    method CheckAvailableKubernetesDSPAs(items: seq<Key>, exclude: Key) returns (r: bool)
      requires forall j :: j in items <==> j in dspas
      ensures r <==> OtherKubernetes(dspas, exclude)
    {
      for i := 0 to |items|
        invariant forall j <- items[..i] :: !(j != exclude && j in dspas && dspas[j].kubernetes)
      {
        assert items[i] in items;
        if items[i] == exclude {
          continue;
        }
        if dspas[items[i]].kubernetes {
          return true;
        }
      }
      assert items[..|items|] == items;
      return false;
    }

    method CleanUpWebhookIfUnused(k: Key, items: seq<Key>, f: Faults) returns (ok: bool)
      requires forall j :: j in items <==> j in dspas
      modifies this`webhook
      ensures OtherKubernetes(dspas, k) ==> webhook == old(webhook) && ok == f.list
      ensures !f.list ==> !ok && webhook == old(webhook)
      ensures !OtherKubernetes(dspas, k) && ok ==>
                webhook == {} && forall r <- CLEANUP_ORDER :: Removable(r, old(webhook), f)
      ensures !OtherKubernetes(dspas, k) && f.list && !ok ==>
                exists n | 0 <= n < |CLEANUP_ORDER| :: StoppedAt(n, old(webhook), webhook, f)
      ensures WebhookHandled(old(Value()), Value(), k, f, ok)
    {
      if !f.list {
        return false;
      }
      var hasK8sDspas := CheckAvailableKubernetesDSPAs(items, k);
      if !hasK8sDspas {
        ok := CleanupWebhookResources(f);
        return;
      }
      return true;
    }

    method CleanUpCommon(k: Key, f: Faults) returns (ok: bool)
      modifies this`bindings
      ensures ok == f.unbind.Succeeds?
      ensures bindings == if f.unbind.Fails? then old(bindings) else old(bindings) - {BindingName(k)}
    {
      if !f.unbind.Fails? {
        bindings := bindings - {BindingName(k)};
      }
      return f.unbind.Succeeds?;
    }

    /**
     Reconciling a DSPA that is being deleted. The DSPA is let go only after its binding is gone and the
     webhook is gone or still needed; any failure before that leaves it in place with its finalizer.
     */
    method Finalize(k: Key, items: seq<Key>, f: Faults) returns (ok: bool)
      requires k in dspas && dspas[k].deleting && dspas[k].finalizer
      requires forall j :: j in items <==> j in dspas
      modifies this
      ensures dspas == old(dspas) || dspas == old(dspas) - {k}
      ensures k !in dspas ==>
                && BindingName(k) !in bindings
                && (webhook == {} || (OtherKubernetes(old(dspas), k) && webhook == old(webhook)))
      ensures OtherKubernetes(old(dspas), k) ==> webhook == old(webhook)
      ensures ok ==> k !in dspas
      ensures Finalized(old(Value()), Value(), k, f, ok)
      ensures ok <==> && f.unbind.Succeeds? && f.list && f.update.Succeeds?
                      && (OtherKubernetes(old(dspas), k) || forall r <- CLEANUP_ORDER :: Removable(r, old(webhook), f))
    {
      ok := CleanUpCommon(k, f);
      if !ok {
        return;
      }
      ghost var unbound := Value();
      ok := CleanUpWebhookIfUnused(k, items, f);
      ghost var cleaned := Value();
      ghost var done := ok;
      assert unbound == Unbound(old(Value()), k, f) && WebhookHandled(unbound, cleaned, k, f, done);
      if !ok {
        if f.list && !OtherKubernetes(old(dspas), k) {
          var n :| 0 <= n < |CLEANUP_ORDER| && StoppedAt(n, old(webhook), webhook, f);
          assert CLEANUP_ORDER[n] in CLEANUP_ORDER;
        }
        return;
      }
      if !f.update.Fails? {
        dspas := dspas - {k};
      }
      ok := f.update.Succeeds?;
      assert WebhookHandled(unbound, cleaned, k, f, done) && Value() == Released(cleaned, k, f);
    }
  }

  // ------------------------------------------------- the same as steps of a worker

  ghost predicate Holds(a: seq<Action>, c: Contents) {
    Run(a).dspas == c.dspas && Run(a).bindings == c.bindings && Run(a).webhook == c.webhook
  }

  /** The worker for `k` stands at `pc`; the others are as given. */
  ghost predicate StandsAt(a: seq<Action>, k: Key, pc: Pc, others: map<Key, Pc>) {
    k !in others && Run(a).workers == others[k := pc]
  }

  /** Wherever it stands, the worker can end with an error. */
  lemma StopRun(a: seq<Action>, k: Key, pc: Pc, others: map<Key, Pc>) returns (b: seq<Action>)
    requires StandsAt(a, k, pc, others)
    ensures OwnSteps(a, b, k) && Run(b).workers == others
    ensures forall c :: Holds(a, c) ==> Holds(b, c)
  {
    b := Extend(a, Return(k));
    assert others[k := pc] - {k} == others;
  }

  lemma UnbindRun(a: seq<Action>, k: Key, d: Dspa, c: Contents, others: map<Key, Pc>) returns (b: seq<Action>)
    requires StandsAt(a, k, Unbinding(d), others) && Holds(a, c)
    ensures OwnSteps(a, b, k) && StandsAt(b, k, Checking(d), others)
    ensures Holds(b, c.(bindings := c.bindings - {BindingName(k)}))
  {
    b := Extend(a, Advance(k));
  }

  lemma CheckRun(a: seq<Action>, k: Key, d: Dspa, c: Contents, others: map<Key, Pc>) returns (b: seq<Action>)
    requires StandsAt(a, k, Checking(d), others) && Holds(a, c)
    ensures OwnSteps(a, b, k) && Holds(b, c)
    ensures StandsAt(b, k, if OtherKubernetes(c.dspas, k) then Releasing(d, true) else Removing(d, 0, false), others)
  {
    b := Extend(a, Advance(k));
  }

  /** One resource: read, and deleted if it is there. */
  lemma RemoveRun(a: seq<Action>, k: Key, d: Dspa, i: nat, c: Contents, others: map<Key, Pc>) returns (b: seq<Action>)
    requires StandsAt(a, k, Removing(d, i, false), others) && Holds(a, c) && i < |CLEANUP_ORDER|
    ensures OwnSteps(a, b, k) && StandsAt(b, k, Removing(d, i + 1, false), others)
    ensures Holds(b, c.(webhook := c.webhook - {CLEANUP_ORDER[i]}))
  {
    b := Extend(a, Advance(k));
    if CLEANUP_ORDER[i] in c.webhook {
      b := Extend(b, Advance(k));
    }
  }

  /** The first `n` resources of the cleanup order. */
  lemma {:induction false} RemoveFirstRun(a: seq<Action>, k: Key, d: Dspa, n: nat, c: Contents, others: map<Key, Pc>)
    returns (b: seq<Action>)
    requires StandsAt(a, k, Removing(d, 0, false), others) && Holds(a, c) && n <= |CLEANUP_ORDER|
    ensures OwnSteps(a, b, k) && StandsAt(b, k, Removing(d, n, false), others)
    ensures Holds(b, c.(webhook := c.webhook - Before(n)))
  {
    if n == 0 {
      b := a;
      assert c.webhook - Before(0) == c.webhook;
    } else {
      var m := RemoveFirstRun(a, k, d, n - 1, c, others);
      b := RemoveRun(m, k, d, n - 1, c.(webhook := c.webhook - Before(n - 1)), others);
      BeforeSnoc(n - 1);
      assert c.webhook - Before(n - 1) - {CLEANUP_ORDER[n - 1]} == c.webhook - Before(n);
    }
  }

  /** All seven resources, and on to the release. */
  lemma RemoveAllRun(a: seq<Action>, k: Key, d: Dspa, c: Contents, others: map<Key, Pc>) returns (b: seq<Action>)
    requires StandsAt(a, k, Removing(d, 0, false), others) && Holds(a, c)
    ensures OwnSteps(a, b, k) && StandsAt(b, k, Releasing(d, false), others) && Holds(b, c.(webhook := {}))
  {
    b := RemoveFirstRun(a, k, d, |CLEANUP_ORDER|, c, others);
    BeforeAll(c.webhook);
    b := Extend(b, Advance(k));
  }

  /** The first `n` resources, and then an error. */
  lemma RemoveSomeRun(a: seq<Action>, k: Key, d: Dspa, n: nat, c: Contents, others: map<Key, Pc>)
    returns (b: seq<Action>)
    requires StandsAt(a, k, Removing(d, 0, false), others) && Holds(a, c) && n <= |CLEANUP_ORDER|
    ensures OwnSteps(a, b, k) && Run(b).workers == others && Holds(b, c.(webhook := c.webhook - Before(n)))
  {
    b := RemoveFirstRun(a, k, d, n, c, others);
    b := StopRun(b, k, Removing(d, n, false), others);
  }

  /** From the check on, up to the release of the DSPA or the call that failed. */
  lemma WebhookRun(a: seq<Action>, k: Key, d: Dspa, was: Contents, now: Contents, f: Faults, ok: bool,
                   others: map<Key, Pc>)
    returns (b: seq<Action>, skipped: bool)
    requires StandsAt(a, k, Checking(d), others) && Holds(a, was) && WebhookHandled(was, now, k, f, ok)
    ensures OwnSteps(a, b, k) && Holds(b, now)
    ensures if ok then StandsAt(b, k, Releasing(d, skipped), others) else Run(b).workers == others
  {
    skipped := OtherKubernetes(was.dspas, k);
    if !f.list {
      b := StopRun(a, k, Checking(d), others);
      assert Holds(a, now);
      return;
    }
    b := CheckRun(a, k, d, was, others);
    if skipped {
      assert now == was;
      return;
    }
    if ok {
      b := RemoveAllRun(b, k, d, was, others);
      return;
    }
    var n :| 0 <= n < |CLEANUP_ORDER| && StoppedAt(n, was.webhook, now.webhook, f);
    b := RemoveSomeRun(b, k, d, if now.webhook == was.webhook - Before(n) then n else n + 1, was, others);
  }

  lemma ReleaseRun(a: seq<Action>, k: Key, d: Dspa, skipped: bool, c: Contents, f: Faults, others: map<Key, Pc>)
    returns (b: seq<Action>)
    requires StandsAt(a, k, Releasing(d, skipped), others) && Holds(a, c) && k in c.dspas && c.dspas[k] == d
    ensures OwnSteps(a, b, k) && Holds(b, Released(c, k, f)) && Run(b).workers == others
  {
    if f.update.Fails? {
      b := StopRun(a, k, Releasing(d, skipped), others);
      assert Holds(a, Released(c, k, f));
    } else {
      b := Extend(a, Advance(k));
      assert others[k := Releasing(d, skipped)] - {k} == others;
    }
  }

  /** Every way a finalization can end is a run of the worker's own steps. */
  lemma FinalizedIsRun(a: seq<Action>, k: Key, was: Contents, now: Contents, f: Faults, ok: bool, others: map<Key, Pc>)
    returns (b: seq<Action>)
    requires k in was.dspas && StandsAt(a, k, Finalizing(was.dspas[k]), others) && Holds(a, was)
    requires Finalized(was, now, k, f, ok)
    ensures OwnSteps(a, b, k) && Holds(b, now) && Run(b).workers == others
  {
    var d := was.dspas[k];
    b := Extend(a, Advance(k));
    assert StandsAt(b, k, Unbinding(d), others) && Holds(b, was);
    if f.unbind.Fails? {
      b := StopRun(b, k, Unbinding(d), others);
      assert Holds(b, now);
      return;
    }
    b := UnbindRun(b, k, d, was, others);
    var unbound := Unbound(was, k, f);
    if !f.unbind.Succeeds? {
      b := StopRun(b, k, Checking(d), others);
      assert Holds(b, now);
      return;
    }
    var cleaned, done :| WebhookHandled(unbound, cleaned, k, f, done)
      && (if done then now == Released(cleaned, k, f) && ok == f.update.Succeeds? else !ok && now == cleaned);
    var skipped;
    b, skipped := WebhookRun(b, k, d, unbound, cleaned, f, done, others);
    if done {
      b := ReleaseRun(b, k, d, skipped, cleaned, f, others);
    }
  }

  /**
   The cleanup code and the worker of `Lifecycle` agree: whatever calls fail, running the code from where the
   worker starts to finalize leaves the cluster as some run of that worker's steps does.
   */
  method FinalizeAsRun(c: Cluster, k: Key, items: seq<Key>, f: Faults, ghost a: seq<Action>, ghost others: map<Key, Pc>)
    returns (ok: bool, ghost b: seq<Action>)
    requires k in c.dspas && c.dspas[k].deleting && c.dspas[k].finalizer
    requires forall j :: j in items <==> j in c.dspas
    requires Holds(a, c.Value()) && StandsAt(a, k, Finalizing(c.dspas[k]), others)
    modifies c
    ensures OwnSteps(a, b, k) && Holds(b, c.Value()) && Run(b).workers == others
    ensures ok ==> k !in Run(b).dspas
  {
    ghost var was := c.Value();
    ok := c.Finalize(k, items, f);
    b := FinalizedIsRun(a, k, was, c.Value(), f, ok, others);
  }
}
