/** The webhook that all DSPAs share: when a run leaves it behind, and when it loses one that is needed. */
module WebhookRuns {
  import opened Prelude
  import opened Lifecycle

  // --------------------------------------------------------- orphaned webhooks

  /** Webhook resources exist although no DSPA does. */
  predicate Orphaned(s: State) {
    s.webhook != {} && s.dspas == map[]
  }

  /** The last DSPA goes while the webhook is there: deleted without a finalizer, or released by its own worker. */
  predicate Orphans(s: State, a: Action) {
    && s.webhook != {}
    && (a.Delete? || a.Advance?) && s.dspas.Keys == {a.k}
    && (if a.Delete? then !s.dspas[a.k].finalizer
        else a.k in s.workers && s.workers[a.k].Releasing? && Current(s, a.k, s.workers[a.k].d))
  }

  lemma LastOneGone(m: map<Key, Dspa>, k: Key)
    requires k in m
    ensures m - {k} == map[] <==> m.Keys == {k}
  {
    if m.Keys == {k} {
      assert (m - {k}).Keys == {};
    }
    if m - {k} == map[] {
      forall j | j in m ensures j == k {
        assert j != k ==> j in m - {k};
      }
    }
  }

  lemma AdvanceOrphansExactlyWhen(s: State, k: Key)
    requires FinalizersHold(s) && !Orphaned(s)
    ensures Orphaned(Do(s, Advance(k))) <==> Orphans(s, Advance(k))
  {
    if k in s.workers {
      if s.workers[k].Releasing? && k in s.dspas {
        LastOneGone(s.dspas, k);
      } else if s.workers[k].Installing? {
        assert k in s.dspas;
      }
    }
  }

  lemma OrphanedByExactly(s: State, a: Action)
    requires FinalizersHold(s) && !Orphaned(s)
    ensures Orphaned(Do(s, a)) <==> Orphans(s, a)
  {
    match a
    case Advance(k) => AdvanceOrphansExactlyWhen(s, k);
    case Delete(k) => if k in s.dspas { LastOneGone(s.dspas, k); }
    case _ =>
  }

  /** A run never leaves the webhook without a DSPA exactly when none of its steps is of those two kinds. */
  lemma NeverOrphanedExactlyWhen(actions: seq<Action>)
    ensures (forall i | 0 <= i <= |actions| :: !Orphaned(Run(actions[..i]))) <==>
            (forall i | 0 <= i < |actions| :: !Orphans(Run(actions[..i]), actions[i]))
  {
    if forall i | 0 <= i <= |actions| :: !Orphaned(Run(actions[..i])) {
      forall i | 0 <= i < |actions| ensures !Orphans(Run(actions[..i]), actions[i]) {
        RunStep(actions, i);
        EveryRunKeepsInv(actions[..i]);
        OrphanedByExactly(Run(actions[..i]), actions[i]);
      }
    }
    if forall i | 0 <= i < |actions| :: !Orphans(Run(actions[..i]), actions[i]) {
      forall i | 0 <= i <= |actions| ensures !Orphaned(Run(actions[..i])) {
        NotOrphanedSoFar(actions, i);
      }
    }
  }

  lemma {:induction false} NotOrphanedSoFar(actions: seq<Action>, n: nat)
    requires n <= |actions| && forall i | 0 <= i < n :: !Orphans(Run(actions[..i]), actions[i])
    ensures !Orphaned(Run(actions[..n]))
  {
    if n > 0 {
      NotOrphanedSoFar(actions, n - 1);
      RunStep(actions, n - 1);
      EveryRunKeepsInv(actions[..n - 1]);
      OrphanedByExactly(Run(actions[..n - 1]), actions[n - 1]);
    }
  }

  // ------------------------------------------- a discipline that prevents them

  /** No two finalizations overlap; any other reconciles may. */
  predicate Exclusive(s: State) {
    forall j, k | j in s.workers && k in s.workers && FinalizingPc(s.workers[j]) && FinalizingPc(s.workers[k]) :: j == k
  }

  /** Finalizations stay exclusive, and a DSPA is deleted only once its finalizer is stored. */
  predicate Disciplined(actions: seq<Action>) {
    actions == [] ||
    var s, a := Run(Init(actions)), Last(actions);
    && Disciplined(Init(actions))
    && Exclusive(Do(s, a))
    && (a.Delete? && a.k in s.dspas ==> s.dspas[a.k].finalizer)
  }

  predicate Other(dspas: map<Key, Dspa>, k: Key) {
    exists j <- dspas :: j != k
  }

  /** A finalization that has passed a resource has removed it, unless another DSPA exists to care for it. */
  ghost predicate WebhookAttended(s: State) {
    && !Orphaned(s)
    && (forall k <- s.workers ::
          match s.workers[k]
          case Removing(d, i, _) =>
            Other(s.dspas, k) || forall j | 0 <= j < i && j < |CLEANUP_ORDER| :: CLEANUP_ORDER[j] !in s.webhook
          case Releasing(d, _) => Other(s.dspas, k) || s.webhook == {}
          case _ => true)
  }

  /** While `k` is finalized under the discipline, another DSPA that exists stays. */
  lemma OtherStays(s: State, a: Action, k: Key)
    requires FinalizersHold(s) && Exclusive(s)
    requires a.Delete? && a.k in s.dspas ==> s.dspas[a.k].finalizer
    requires k in s.workers && FinalizingPc(s.workers[k]) && Other(s.dspas, k)
    ensures Other(Do(s, a).dspas, k)
  {
    var j :| j in s.dspas && j != k;
    assert j in Do(s, a).dspas by {
      if a.Advance? && a.k in s.workers && s.workers[a.k].Releasing? {
        assert a.k == k;
      }
    }
  }

  lemma ReconcileKeepsAttended(s: State, k: Key)
    requires k in s.workers && !FinalizingPc(s.workers[k])
    requires FinalizersHold(s) && Exclusive(s) && WebhookAttended(s)
    ensures WebhookAttended(ReconcileStep(s, k))
  {
    var t := ReconcileStep(s, k);
    if s.workers[k].Installing? {
      assert k in s.dspas;
    }
    forall j | j in t.workers && FinalizingPc(t.workers[j]) && Other(s.dspas, j) ensures Other(t.dspas, j) {
      var i :| i in s.dspas && i != j;
      assert i in t.dspas;
    }
  }

  lemma FinalizeKeepsAttended(s: State, k: Key)
    requires k in s.workers && FinalizingPc(s.workers[k])
    requires FinalizersHold(s) && Exclusive(s) && WebhookAttended(s)
    ensures WebhookAttended(FinalizeStep(s, k))
  {
    match s.workers[k]
    case Removing(d, i, seen) =>
      if i >= |CLEANUP_ORDER| && !Other(s.dspas, k) {
        CleanupCoversWebhook(s.webhook);
      }
    case Releasing(d, skipped) =>
      if j :| j in s.dspas && j != k {
        assert j in s.dspas - {k};
      }
    case _ =>
  }

  lemma DoKeepsAttended(s: State, a: Action)
    requires FinalizersHold(s) && Exclusive(s) && WebhookAttended(s)
    requires a.Delete? && a.k in s.dspas ==> s.dspas[a.k].finalizer
    ensures WebhookAttended(Do(s, a))
  {
    match a
    case Advance(k) =>
      if k in s.workers {
        if FinalizingPc(s.workers[k]) { FinalizeKeepsAttended(s, k); } else { ReconcileKeepsAttended(s, k); }
      }
    case _ =>
      forall k | k in s.workers && FinalizingPc(s.workers[k]) && Other(s.dspas, k) {
        OtherStays(s, a, k);
      }
      OrphanedByExactly(s, a);
  }

  /**
   In a disciplined run any of the seven shared resources exists only while some DSPA does, however many
   live reconciles run beside the finalizations.
   */
  lemma {:induction false} WebhookNeverOrphaned(actions: seq<Action>)
    requires Disciplined(actions)
    ensures WebhookAttended(Run(actions)) && Exclusive(Run(actions))
    ensures Run(actions).webhook != {} ==> exists k :: k in Run(actions).dspas
  {
    if actions != [] {
      WebhookNeverOrphaned(Init(actions));
      EveryRunKeepsInv(Init(actions));
      DoKeepsAttended(Run(Init(actions)), Last(actions));
    }
  }

  // ------------------------------------------------ runs that leave it behind

  /** A bound worker installs the first of the resources and stops. */
  lemma ReachFirstInstalled(a: seq<Action>, k: Key, d: Dspa) returns (b: seq<Action>)
    requires k in Run(a).workers && Run(a).workers[k] == Bound(d) && d.kubernetes
    ensures Run(b).dspas == Run(a).dspas && Run(b).workers == Run(a).workers - {k}
    ensures Run(b).webhook == Run(a).webhook + {WebhookDeployment}
  {
    b := Extend(a, Advance(k));
    b := Extend(b, Advance(k));
    b := Extend(b, Return(k));
  }

  /** A kubernetes-store DSPA has been reconciled, and the webhook is (partly) installed. */
  lemma ReachInstalled(k: Key) returns (a: seq<Action>)
    ensures var s := Run(a);
      && s.workers == map[] && s.webhook == {WebhookDeployment} && s.dspas.Keys == {k}
      && s.dspas[k].finalizer && s.dspas[k].supported && s.dspas[k].kubernetes && !s.dspas[k].deleting
  {
    a := ReachBound([], k, true);
    a := ReachFirstInstalled(a, k, Run(a).workers[k].d);
  }

  /** Two such DSPAs, both being deleted. */
  lemma ReachTwoDeleted(k: Key, j: Key) returns (a: seq<Action>)
    requires k != j
    ensures var s := Run(a);
      && s.workers == map[] && s.webhook != {} && s.dspas.Keys == {k, j}
      && AwaitsFinalization(s, k) && AwaitsFinalization(s, j)
      && OtherKubernetes(s.dspas, k) && OtherKubernetes(s.dspas, j)
  {
    a := ReachInstalled(k);
    a := ReachBound(a, j, true);
    a := Extend(a, Return(j));
    a := Extend(a, Delete(k));
    a := Extend(a, Delete(j));
    assert j in Run(a).dspas && k in Run(a).dspas;
  }

  /**
   Exclusivity is needed: two DSPAs that finalize together each see the other, both skip the cleanup, and
   the webhook outlives every DSPA.
   */
  lemma ConcurrentFinalizersOrphanWebhook(k: Key, j: Key) returns (a: seq<Action>)
    requires k != j
    ensures Run(a).webhook != {} && Run(a).dspas == map[] && Run(a).workers == map[]
  {
    a := ReachTwoDeleted(k, j);
    a := ReachChecked(a, k);
    a := ReachChecked(a, j);
    a := Extend(a, Advance(k));
    a := Extend(a, Advance(j));
  }

  /**
   Storing the finalizer before deletion is needed as well: a DSPA that is created and deleted without a
   reconcile can make the only finalization skip the cleanup.
   */
  lemma UnfinalizedDspaOrphansWebhook(k: Key, j: Key) returns (a: seq<Action>)
    requires k != j
    ensures Run(a).webhook != {} && Run(a).dspas == map[] && Run(a).workers == map[]
  {
    a := ReachInstalled(k);
    a := Extend(a, Create(j, true, true));
    a := Extend(a, Delete(k));
    assert OtherKubernetes(Run(a).dspas, k) by { assert j in Run(a).dspas; }
    a := UndisturbedRetryFinishes(a, k);
    a := Extend(a, Delete(j));
  }

  // ---------------------------------------------------------- needed webhooks

  /** No worker is in its removal phase while another kubernetes-store DSPA exists. */
  ghost predicate PhasesClear(s: State) {
    forall k <- s.workers | s.workers[k].Removing? :: !OtherKubernetes(s.dspas, k)
  }

  /** The action takes effect and gives its DSPA the kubernetes store. */
  predicate MakesKubernetes(s: State, a: Action) {
    (a.Create? && a.k !in s.dspas && a.kubernetes) || (a.Edit? && a.k in s.dspas && a.kubernetes)
  }

  /** It does so while the worker of another DSPA is in its removal phase. */
  predicate Disturbs(s: State, a: Action) {
    MakesKubernetes(s, a) && exists k <- s.workers :: s.workers[k].Removing? && k != a.k
  }

  lemma AdvanceKeepsStores(s: State, k: Key, j: Key)
    requires VersionsIdentify(s) && j in Do(s, Advance(k)).dspas
    ensures j in s.dspas && s.dspas[j].kubernetes == Do(s, Advance(k)).dspas[j].kubernetes
  {
    if k in s.workers && Current(s, k, s.workers[k].d) {
      assert s.workers[k].d == s.dspas[k];
    }
  }

  lemma NewKubernetesOnly(s: State, a: Action, j: Key)
    requires VersionsIdentify(s)
    requires j in Do(s, a).dspas && Do(s, a).dspas[j].kubernetes
    ensures (MakesKubernetes(s, a) && j == a.k) || (j in s.dspas && s.dspas[j].kubernetes)
  {
    match a
    case Advance(k) => AdvanceKeepsStores(s, k, j);
    case _ =>
  }

  /** A worker starts removing only from a check that found no other kubernetes-store DSPA. */
  lemma RemovalFollowsCheck(s: State, a: Action, k: Key)
    requires k in Do(s, a).workers && Do(s, a).workers[k].Removing?
    ensures k in s.workers && (s.workers[k].Removing? || !OtherKubernetes(s.dspas, k))
    ensures a.Create? || a.Edit? ==> s.workers[k].Removing?
  {
  }

  lemma UndisturbedKeepsClear(s: State, a: Action, k: Key)
    requires VersionsIdentify(s) && PhasesClear(s) && !Disturbs(s, a)
    requires k in Do(s, a).workers && Do(s, a).workers[k].Removing?
    ensures !OtherKubernetes(Do(s, a).dspas, k)
  {
    RemovalFollowsCheck(s, a, k);
    if j :| j in Do(s, a).dspas && j != k && Do(s, a).dspas[j].kubernetes {
      NewKubernetesOnly(s, a, j);
    }
  }

  lemma DisturbingEndsClear(s: State, a: Action)
    requires Disturbs(s, a)
    ensures !PhasesClear(Do(s, a))
  {
    var k :| k in s.workers && s.workers[k].Removing? && k != a.k;
    var t := Do(s, a);
    assert t.workers == s.workers && a.k in t.dspas && t.dspas[a.k].kubernetes;
  }

  /** From a state with clear removal phases, exactly the disturbing actions lead out. */
  lemma ClearEndsExactlyWhen(s: State, a: Action)
    requires VersionsIdentify(s) && PhasesClear(s)
    ensures !PhasesClear(Do(s, a)) <==> Disturbs(s, a)
  {
    if Disturbs(s, a) {
      DisturbingEndsClear(s, a);
    } else {
      forall k | k in Do(s, a).workers && Do(s, a).workers[k].Removing? {
        UndisturbedKeepsClear(s, a, k);
      }
    }
  }

  /** No user gives another DSPA the kubernetes store while a worker is in its removal phase. */
  predicate Calm(actions: seq<Action>) {
    actions == [] || (Calm(Init(actions)) && !Disturbs(Run(Init(actions)), Last(actions)))
  }

  /** The removal phases are clear at every point of the run. */
  ghost predicate ClearThroughout(actions: seq<Action>) {
    PhasesClear(Run(actions)) && (actions == [] || ClearThroughout(Init(actions)))
  }

  /** Whatever else interleaves, the removal phases stay clear exactly in the calm runs. */
  lemma {:induction false} ClearExactlyWhenCalm(actions: seq<Action>)
    ensures ClearThroughout(actions) <==> Calm(actions)
  {
    if actions != [] {
      ClearExactlyWhenCalm(Init(actions));
      EveryRunKeepsInv(Init(actions));
      if PhasesClear(Run(Init(actions))) {
        ClearEndsExactlyWhen(Run(Init(actions)), Last(actions));
      }
    }
  }

  /** The step deletes a webhook resource although another kubernetes-store DSPA exists. */
  predicate RemovesNeeded(s: State, a: Action) {
    && a.Advance? && a.k in s.workers && s.workers[a.k].Removing?
    && Do(s, a).webhook != s.webhook && OtherKubernetes(s.dspas, a.k)
  }

  lemma {:induction false} CalmPrefix(actions: seq<Action>, i: nat)
    requires Calm(actions) && i <= |actions|
    ensures Calm(actions[..i])
  {
    if i < |actions| {
      CalmPrefix(Init(actions), i);
      assert Init(actions)[..i] == actions[..i];
    } else {
      assert actions[..i] == actions;
    }
  }

  /** So no step of a calm run deletes a webhook resource while another kubernetes-store DSPA exists. */
  lemma NeededWebhookIsKept(actions: seq<Action>)
    requires Calm(actions)
    ensures forall i | 0 <= i < |actions| :: !RemovesNeeded(Run(actions[..i]), actions[i])
  {
    forall i | 0 <= i < |actions| ensures !RemovesNeeded(Run(actions[..i]), actions[i]) {
      CalmPrefix(actions, i);
      ClearExactlyWhenCalm(actions[..i]);
      assert PhasesClear(Run(actions[..i]));
    }
  }

  // ----------------------------------------- what becomes of a disturbed removal phase

  /** A resource that the removal phase has not yet passed is there; one already looked up must still be. */
  ghost predicate Ahead(webhook: set<WebhookResource>, i: nat, seen: bool) {
    if seen then i < |CLEANUP_ORDER| && CLEANUP_ORDER[i] in webhook
    else exists j | i <= j < |CLEANUP_ORDER| :: CLEANUP_ORDER[j] in webhook
  }

  /** The worker's next steps lead to a deletion. */
  lemma {:induction false} ReachDeletion(a: seq<Action>, k: Key, d: Dspa, i: nat, seen: bool) returns (b: seq<Action>)
    requires k in Run(a).workers && Run(a).workers[k] == Removing(d, i, seen)
    requires Ahead(Run(a).webhook, i, seen) && OtherKubernetes(Run(a).dspas, k)
    ensures OwnSteps(a, b, k) && RemovesNeeded(Run(b), Advance(k))
    decreases |CLEANUP_ORDER| - i, !seen
  {
    if seen {
      b := a;
      assert CLEANUP_ORDER[i] in Run(a).webhook && CLEANUP_ORDER[i] !in Do(Run(a), Advance(k)).webhook;
    } else {
      var c := Extend(a, Advance(k));
      if CLEANUP_ORDER[i] in Run(a).webhook {
        b := ReachDeletion(c, k, d, i, true);
      } else {
        b := ReachDeletion(c, k, d, i + 1, false);
      }
    }
  }

  /** Another kubernetes-store DSPA exists, and the worker, if in its removal phase, has nothing left to delete. */
  ghost predicate Spent(s: State, k: Key) {
    && OtherKubernetes(s.dspas, k)
    && (k in s.workers && s.workers[k].Removing? ==> !Ahead(s.webhook, s.workers[k].i, s.workers[k].seen))
  }

  lemma OwnStepKeepsSpent(s: State, a: Action, k: Key)
    requires Spent(s, k) && (a == Begin(k) || a == Advance(k) || a == Return(k))
    ensures Spent(Do(s, a), k)
  {
    var j :| j in s.dspas && j != k && s.dspas[j].kubernetes;
    assert j in Do(s, a).dspas && Do(s, a).dspas[j] == s.dspas[j];
  }

  lemma {:induction false} SpentRemovesNothing(a: seq<Action>, b: seq<Action>, k: Key)
    requires Spent(Run(a), k) && OwnSteps(a, b, k)
    ensures Spent(Run(b), k) && !RemovesNeeded(Run(b), Advance(k))
    decreases |b|
  {
    if a == b {
    } else {
      var c := Init(b);
      assert OwnSteps(a, c, k) by { assert a == b[..|a|] == c[..|a|]; }
      SpentRemovesNothing(a, c, k);
      OwnStepKeepsSpent(Run(c), Last(b), k);
    }
  }

  /**
   Once a removal phase is disturbed, the worker can go on, by its own steps, to delete a resource that is
   needed exactly when one that it has not yet passed is still there.
   */
  lemma NeededIsLostExactlyWhen(a: seq<Action>, k: Key)
    requires k in Run(a).workers && Run(a).workers[k].Removing? && OtherKubernetes(Run(a).dspas, k)
    ensures (exists b | OwnSteps(a, b, k) :: RemovesNeeded(Run(b), Advance(k)))
            <==> Ahead(Run(a).webhook, Run(a).workers[k].i, Run(a).workers[k].seen)
  {
    var Removing(d, i, seen) := Run(a).workers[k];
    if Ahead(Run(a).webhook, i, seen) {
      var b := ReachDeletion(a, k, d, i, seen);
    } else {
      forall b | OwnSteps(a, b, k) ensures !RemovesNeeded(Run(b), Advance(k)) {
        SpentRemovesNothing(a, b, k);
      }
    }
  }

  /** Calm is needed: a DSPA created after the check and before the deletions loses the webhook it relies on. */
  lemma LateDspaLosesWebhook(k: Key, j: Key) returns (a: seq<Action>)
    requires k != j
    ensures var s, t := Run(a), Do(Run(a), Advance(k));
      OtherKubernetes(s.dspas, k) && WebhookDeployment in s.webhook && WebhookDeployment !in t.webhook
  {
    a := ReachInstalled(k);
    a := Extend(a, Delete(k));
    a := ReachChecked(a, k);
    a := Extend(a, Create(j, true, true));
    assert j in Run(a).dspas;
    a := ReachDeploymentRemoval(a, k);
  }

  lemma ReachDeploymentRemoval(a: seq<Action>, k: Key) returns (b: seq<Action>)
    requires k in Run(a).workers && Run(a).workers[k].Removing?
    requires Run(a).workers[k].i == 0 && !Run(a).workers[k].seen && Run(a).webhook == {WebhookDeployment}
    ensures var s, t := Run(a), Run(b);
      && t.dspas == s.dspas && t.webhook == s.webhook
      && k in t.workers && t.workers[k] == Removing(s.workers[k].d, 2, true)
  {
    b := Extend(a, Advance(k));
    b := Extend(b, Advance(k));
    b := Extend(b, Advance(k));
  }

  // ------------------------------------------------------------- who gets a webhook

  /** No stored or loaded DSPA uses the kubernetes store, and no worker installs the webhook. */
  ghost predicate NoKubernetes(s: State) {
    && s.webhook == {}
    && (forall k <- s.dspas :: !s.dspas[k].kubernetes)
    && (forall k <- s.workers :: !s.workers[k].d.kubernetes && !s.workers[k].Installing?)
  }

  lemma ReconcileKeepsNoKubernetes(s: State, k: Key)
    requires k in s.workers && !FinalizingPc(s.workers[k]) && NoKubernetes(s)
    ensures NoKubernetes(ReconcileStep(s, k))
  {
  }

  lemma FinalizeKeepsNoKubernetes(s: State, k: Key)
    requires k in s.workers && FinalizingPc(s.workers[k]) && NoKubernetes(s)
    ensures NoKubernetes(FinalizeStep(s, k))
  {
  }

  lemma DoKeepsNoKubernetes(s: State, a: Action)
    requires NoKubernetes(s) && ((a.Create? || a.Edit?) ==> !a.kubernetes)
    ensures NoKubernetes(Do(s, a))
  {
    if a.Advance? && a.k in s.workers {
      if FinalizingPc(s.workers[a.k]) {
        FinalizeKeepsNoKubernetes(s, a.k);
      } else {
        ReconcileKeepsNoKubernetes(s, a.k);
      }
    }
  }

  /** As long as no user asks for the kubernetes store, no run installs any of the webhook. */
  lemma {:induction false} NoStoreNoWebhook(actions: seq<Action>)
    requires forall a <- actions :: (a.Create? || a.Edit?) ==> !a.kubernetes
    ensures NoKubernetes(Run(actions)) && Run(actions).webhook == {}
  {
    if actions != [] {
      assert actions == Init(actions) + [Last(actions)];
      NoStoreNoWebhook(Init(actions));
      DoKeepsNoKubernetes(Run(Init(actions)), Last(actions));
    }
  }

  /** A worker installs only on behalf of a DSPA that it loaded with the kubernetes store. */
  ghost predicate InstallersUseStore(s: State) {
    forall k <- s.workers | s.workers[k].Installing? :: s.workers[k].d.kubernetes
  }

  lemma {:induction false} InstallersAlwaysUseStore(actions: seq<Action>)
    ensures InstallersUseStore(Run(actions))
  {
    if actions != [] {
      InstallersAlwaysUseStore(Init(actions));
      DoKeepsInstallers(Run(Init(actions)), Last(actions));
    }
  }

  lemma DoKeepsInstallers(s: State, a: Action)
    requires InstallersUseStore(s)
    ensures InstallersUseStore(Do(s, a))
  {
    forall k | k in Do(s, a).workers && Do(s, a).workers[k].Installing? ensures Do(s, a).workers[k].d.kubernetes {
      InstallerAfterStep(s, a, k);
    }
  }

  lemma InstallerAfterAdvance(s: State, j: Key, k: Key)
    requires k in Do(s, Advance(j)).workers && Do(s, Advance(j)).workers[k].Installing?
    ensures k in s.workers && s.workers[k].d == Do(s, Advance(j)).workers[k].d
    ensures s.workers[k].Installing? || s.workers[k].d.kubernetes
  {
    if j in s.workers && j != k {
      assert k in s.workers && s.workers[k] == Do(s, Advance(j)).workers[k];
    }
  }

  lemma InstallerAfterStep(s: State, a: Action, k: Key)
    requires k in Do(s, a).workers && Do(s, a).workers[k].Installing?
    ensures k in s.workers && s.workers[k].d == Do(s, a).workers[k].d
    ensures s.workers[k].Installing? || s.workers[k].d.kubernetes
  {
    match a
    case Advance(j) => InstallerAfterAdvance(s, j, k);
    case _ =>
  }

  /** In every run the webhook grows only by the step of a worker whose loaded DSPA uses the kubernetes store. */
  lemma WebhookGrowsOnlyForStore(actions: seq<Action>, a: Action)
    requires !(Do(Run(actions), a).webhook <= Run(actions).webhook)
    ensures a.Advance? && a.k in Run(actions).workers && Run(actions).workers[a.k].d.kubernetes
  {
    InstallersAlwaysUseStore(actions);
  }

  /** From resource `i` of the installation on. */
  lemma {:induction false} ReachRestInstalled(a: seq<Action>, k: Key, d: Dspa, i: nat) returns (b: seq<Action>)
    requires k in Run(a).workers && Run(a).workers[k] == Installing(d, i) && i <= |INSTALL_ORDER|
    requires forall j | 0 <= j < i :: INSTALL_ORDER[j] in Run(a).webhook
    ensures OwnSteps(a, b, k) && Run(b).dspas == Run(a).dspas && Run(b).bindings == Run(a).bindings
    ensures Run(b).workers == Run(a).workers[k := Finishing(d)]
    ensures forall j | 0 <= j < |INSTALL_ORDER| :: INSTALL_ORDER[j] in Run(b).webhook
    decreases |INSTALL_ORDER| - i
  {
    b := Extend(a, Advance(k));
    if i < |INSTALL_ORDER| {
      b := ReachRestInstalled(b, k, d, i + 1);
    }
  }

  lemma InstallCoversWebhook(s: set<WebhookResource>, r: WebhookResource)
    requires forall j | 0 <= j < |INSTALL_ORDER| :: INSTALL_ORDER[j] in s
    ensures r in s
  {
    var j := match r
      case WebhookDeployment => 0 case MutatingConfiguration => 1 case WebhookClusterRole => 2
      case WebhookClusterRoleBinding => 3 case WebhookServiceAccount => 4 case WebhookService => 5
      case ValidatingConfiguration => 6;
    assert INSTALL_ORDER[j] == r;
  }

  /** The DSPA is live, of a supported version, and no reconcile for it is under way. */
  predicate AwaitsReconcile(s: State, k: Key) {
    k in s.dspas && k !in s.workers && s.dspas[k].supported && !s.dspas[k].deleting
  }

  /** From loading to the role binding; the finalizer is stored on the way if it was not. */
  lemma ReachBinding(a: seq<Action>, k: Key) returns (b: seq<Action>)
    requires AwaitsReconcile(Run(a), k)
    ensures OwnSteps(a, b, k) && k in Run(b).dspas && k in Run(b).workers && Run(b).workers[k].Bound?
    ensures Run(b).workers[k].d == Run(b).dspas[k] && Run(b).webhook == Run(a).webhook
    ensures Run(b).dspas[k].finalizer && !Run(b).dspas[k].deleting
    ensures Run(b).dspas[k].kubernetes == Run(a).dspas[k].kubernetes
    ensures BindingName(k) in Run(b).bindings && Run(b).bindings[BindingName(k)] == k
  {
    b := Extend(a, Begin(k));
    b := Extend(b, Advance(k));
    b := Extend(b, Advance(k));
  }

  /** From the role binding to the end of the live part. */
  lemma ReachFinishing(a: seq<Action>, k: Key, d: Dspa) returns (b: seq<Action>)
    requires k in Run(a).workers && Run(a).workers[k] == Bound(d)
    ensures OwnSteps(a, b, k) && Run(b).dspas == Run(a).dspas && Run(b).bindings == Run(a).bindings
    ensures k in Run(b).workers && Run(b).workers[k] == Finishing(d)
    ensures if d.kubernetes then forall r: WebhookResource :: r in Run(b).webhook
            else Run(b).webhook == Run(a).webhook
  {
    b := Extend(a, Advance(k));
    if d.kubernetes {
      b := ReachRestInstalled(b, k, d, 0);
      forall r: WebhookResource ensures r in Run(b).webhook {
        InstallCoversWebhook(Run(b).webhook, r);
      }
    }
  }

  /**
   An undisturbed reconcile of a live DSPA stores its finalizer and its role binding, publishes its series, and
   ends; if the DSPA uses the kubernetes store all seven webhook resources are there, and otherwise it leaves
   them as they were.
   */
  lemma UndisturbedReconcileInstalls(a: seq<Action>, k: Key) returns (b: seq<Action>)
    requires AwaitsReconcile(Run(a), k)
    ensures OwnSteps(a, b, k) && k in Run(b).dspas && Run(b).dspas[k].finalizer && k !in Run(b).workers
    ensures BindingName(k) in Run(b).bindings && Run(b).bindings[BindingName(k)] == k && k in Run(b).series
    ensures if Run(a).dspas[k].kubernetes then forall r: WebhookResource :: r in Run(b).webhook
            else Run(b).webhook == Run(a).webhook
  {
    var c := ReachBinding(a, k);
    c := ReachFinishing(c, k, Run(c).dspas[k]);
    b := Extend(c, Return(k));
  }
}
