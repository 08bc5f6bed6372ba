/**
 Reconciles of many DSPAs interleaving over one API server, with users creating, editing and deleting
 DSPAs, and with any call free to fail.

 A state changes by actions. `Advance(k)` lets the next API call of the worker for `k` take effect;
 `Return(k)` ends that worker wherever it stands, which covers an API error (whether or not the call took
 effect), an early exit and a normal end; `Crash` ends all workers at once. An action that does not apply
 changes nothing, so the runs are simply all sequences of actions.
 */
module Lifecycle {
  import opened Prelude

  datatype Key = Key(ns: string, name: string)

  /** The stored DSPA; every write gives it a new resource version. */
  datatype Dspa = Dspa(rv: nat, deleting: bool, finalizer: bool, kubernetes: bool, supported: bool)

  datatype WebhookResource =
    | MutatingConfiguration | ValidatingConfiguration | WebhookDeployment
    | WebhookClusterRole | WebhookClusterRoleBinding | WebhookService | WebhookServiceAccount

  const CLEANUP_ORDER: seq<WebhookResource> :=
    [MutatingConfiguration, ValidatingConfiguration, WebhookDeployment,
     WebhookClusterRole, WebhookClusterRoleBinding, WebhookService, WebhookServiceAccount]

  const INSTALL_ORDER: seq<WebhookResource> :=
    [WebhookDeployment, MutatingConfiguration, WebhookClusterRole, WebhookClusterRoleBinding,
     WebhookServiceAccount, WebhookService, ValidatingConfiguration]

  /** Where a worker stands; `d` is its local copy of the DSPA. */
  datatype Pc =
    | Loaded(d: Dspa)
    | Live(d: Dspa)
    | Bound(d: Dspa)
    | Installing(d: Dspa, i: nat)
    | Finishing(d: Dspa)
    | Finalizing(d: Dspa)
    | Unbinding(d: Dspa)
    | Checking(d: Dspa)
    | Removing(d: Dspa, i: nat, seen: bool)
    | Releasing(d: Dspa, skipped: bool)

  /**
   `bindings` maps the name of each unowned role binding to the DSPA its subjects name. `series` are the
   DSPAs with metric series. `closing` records the DSPAs whose cleanup has begun, until their name is reused.
   */
  datatype State = State(
    next: nat,
    dspas: map<Key, Dspa>,
    workers: map<Key, Pc>,
    bindings: map<string, Key>,
    webhook: set<WebhookResource>,
    series: set<Key>,
    closing: set<Key>)

  datatype Action =
    | Create(k: Key, kubernetes: bool, supported: bool)
    | Edit(k: Key, kubernetes: bool, supported: bool)
    | Delete(k: Key)
    | Begin(k: Key)
    | WriteBack(k: Key)
    | Advance(k: Key)
    | Return(k: Key)
    | Crash

  const EMPTY: State := State(0, map[], map[], map[], {}, {}, {})

  function BindingName(k: Key): string {
    "ds-pipeline-ui-auth-delegator-" + (k.ns + "-" + k.name)
  }

  predicate OtherKubernetes(dspas: map<Key, Dspa>, k: Key) {
    exists j <- dspas :: j != k && dspas[j].kubernetes
  }

  /** The stored object is still the one the worker holds, so its update is accepted. */
  predicate Current(s: State, k: Key, d: Dspa) {
    k in s.dspas && s.dspas[k].rv == d.rv
  }

  /** Write `d` back under a new resource version and continue at the program point `at` gives. */
  function Update(s: State, k: Key, d: Dspa): State {
    s.(next := s.next + 1, dspas := s.dspas[k := d.(rv := s.next)])
  }

  function Goto(s: State, k: Key, pc: Pc): State {
    s.(workers := s.workers[k := pc])
  }

  predicate FinalizingPc(pc: Pc) {
    pc.Finalizing? || pc.Unbinding? || pc.Checking? || pc.Removing? || pc.Releasing?
  }

  /** Loading, and the part of a reconcile for a DSPA that is not being deleted. */
  function ReconcileStep(s: State, k: Key): State
    requires k in s.workers && !FinalizingPc(s.workers[k])
  {
    match s.workers[k]
    case Loaded(d) =>
      if !d.supported then s
      else if d.deleting then if d.finalizer then Goto(s, k, Finalizing(d)) else s
      else if d.finalizer then Goto(s, k, Live(d))
      else if Current(s, k, d) then
        var d' := d.(finalizer := true);
        Goto(Update(s, k, d'), k, Live(d'.(rv := s.next)))
      else s
    case Live(d) => Goto(s.(bindings := s.bindings[BindingName(k) := k]), k, Bound(d))
    case Bound(d) => Goto(s, k, if d.kubernetes then Installing(d, 0) else Finishing(d))
    case Installing(d, i) =>
      if i >= |INSTALL_ORDER| then Goto(s, k, Finishing(d))
      else Goto(s.(webhook := s.webhook + {INSTALL_ORDER[i]}), k, Installing(d, i + 1))
    case Finishing(d) => s
  }

  /** The finalization of a DSPA that is being deleted. */
  function FinalizeStep(s: State, k: Key): State
    requires k in s.workers && FinalizingPc(s.workers[k])
  {
    match s.workers[k]
    case Finalizing(d) => Goto(s.(series := s.series - {k}, closing := s.closing + {k}), k, Unbinding(d))
    case Unbinding(d) => Goto(s.(bindings := s.bindings - {BindingName(k)}), k, Checking(d))
    case Checking(d) =>
      Goto(s, k, if OtherKubernetes(s.dspas, k) then Releasing(d, true) else Removing(d, 0, false))
    case Removing(d, i, seen) =>
      if i >= |CLEANUP_ORDER| then Goto(s, k, Releasing(d, false))
      else
        var r := CLEANUP_ORDER[i];
        if !seen then Goto(s, k, if r in s.webhook then Removing(d, i, true) else Removing(d, i + 1, false))
        else if r in s.webhook then Goto(s.(webhook := s.webhook - {r}), k, Removing(d, i + 1, false))
        else s
    case Releasing(d, _) =>
      if Current(s, k, d) then s.(dspas := s.dspas - {k}, workers := s.workers - {k}) else s
  }

  /** The next call of the worker for `k` takes effect. */
  function Step(s: State, k: Key): State
    requires k in s.workers
  {
    if FinalizingPc(s.workers[k]) then FinalizeStep(s, k) else ReconcileStep(s, k)
  }

  function Do(s: State, a: Action): State {
    match a
    case Create(k, kubernetes, supported) =>
      if k in s.dspas then s
      else Update(s.(closing := s.closing - {k}), k, Dspa(0, false, false, kubernetes, supported))
    case Edit(k, kubernetes, supported) =>
      if k !in s.dspas then s else Update(s, k, s.dspas[k].(kubernetes := kubernetes, supported := supported))
    case Delete(k) =>
      if k !in s.dspas then s
      else if s.dspas[k].finalizer then Update(s, k, s.dspas[k].(deleting := true))
      else s.(dspas := s.dspas - {k})
    case Begin(k) =>
      if k in s.workers || k !in s.dspas then s else Goto(s, k, Loaded(s.dspas[k]))
    case WriteBack(k) =>
      if k in s.workers && s.workers[k].Live? && Current(s, k, s.workers[k].d)
      then Goto(Update(s, k, s.workers[k].d), k, Live(s.workers[k].d.(rv := s.next)))
      else s
    case Advance(k) => if k in s.workers then Step(s, k) else s
    case Return(k) =>
      if k !in s.workers then s
      else s.(workers := s.workers - {k}, series := if s.workers[k].d.deleting then s.series else s.series + {k})
    case Crash => s.(workers := map[], series := {})
  }

  function Run(actions: seq<Action>): State {
    if actions == [] then EMPTY else Do(Run(Init(actions)), Last(actions))
  }

  // ------------------------------------------------------------ what every run keeps

  predicate PastUnbinding(pc: Pc) {
    pc.Checking? || pc.Removing? || pc.Releasing?
  }

  /** Versions identify contents: a worker whose copy has the stored version has the stored object. */
  ghost predicate VersionsIdentify(s: State) {
    && (forall k <- s.dspas :: s.dspas[k].rv < s.next)
    && (forall k <- s.workers :: s.workers[k].d.rv < s.next)
    && (forall k <- s.workers | Current(s, k, s.workers[k].d) :: s.dspas[k] == s.workers[k].d)
  }

  predicate CopyFits(pc: Pc) {
    && (pc.d.deleting ==> pc.d.finalizer)
    && (FinalizingPc(pc) ==> pc.d.deleting)
    && (!FinalizingPc(pc) && !pc.Loaded? ==> pc.d.finalizer && !pc.d.deleting)
    && (!pc.Loaded? ==> pc.d.supported)
  }

  /** While a worker's copy carries the finalizer the object stays, and deletion is never undone. */
  ghost predicate FinalizersHold(s: State) {
    && (forall k <- s.dspas :: s.dspas[k].deleting ==> s.dspas[k].finalizer)
    && (forall k <- s.workers :: CopyFits(s.workers[k]))
    && (forall k <- s.workers | s.workers[k].d.finalizer ::
          && k in s.dspas && s.dspas[k].finalizer
          && (s.workers[k].d.deleting ==> s.dspas[k].deleting))
  }

  /** Each binding belongs to a DSPA that exists, carries the finalizer and has not yet been unbound. */
  ghost predicate BindingsProtected(s: State) {
    forall b <- s.bindings ::
      var k := s.bindings[b];
      && BindingName(k) == b
      && k in s.dspas && s.dspas[k].finalizer
      && !(k in s.workers && PastUnbinding(s.workers[k]))
  }

  /** Once cleanup has begun there are no series, and nobody is left who would publish any. */
  ghost predicate SeriesClosed(s: State) {
    && s.series !! s.closing
    && (forall k <- s.workers :: k in s.closing ==> s.workers[k].d.deleting)
    && (forall k <- s.dspas :: k in s.closing ==> s.dspas[k].deleting)
    && (forall k <- s.workers :: FinalizingPc(s.workers[k]) && !s.workers[k].Finalizing? ==> k in s.closing)
  }

  ghost predicate Inv(s: State) {
    VersionsIdentify(s) && FinalizersHold(s) && BindingsProtected(s) && SeriesClosed(s)
  }

  lemma ReconcileKeepsVersions(s: State, k: Key)
    requires k in s.workers && !FinalizingPc(s.workers[k]) && VersionsIdentify(s)
    ensures VersionsIdentify(ReconcileStep(s, k))
  {
  }

  lemma FinalizeKeepsVersions(s: State, k: Key)
    requires k in s.workers && FinalizingPc(s.workers[k]) && VersionsIdentify(s)
    ensures VersionsIdentify(FinalizeStep(s, k))
  {
  }

  lemma ReconcileKeepsFinalizers(s: State, k: Key)
    requires k in s.workers && !FinalizingPc(s.workers[k]) && VersionsIdentify(s) && FinalizersHold(s)
    ensures FinalizersHold(ReconcileStep(s, k))
  {
  }

  lemma FinalizeKeepsFinalizers(s: State, k: Key)
    requires k in s.workers && FinalizingPc(s.workers[k]) && VersionsIdentify(s) && FinalizersHold(s)
    ensures FinalizersHold(FinalizeStep(s, k))
  {
  }

  lemma ReconcileKeepsBindings(s: State, k: Key)
    requires k in s.workers && !FinalizingPc(s.workers[k]) && FinalizersHold(s) && BindingsProtected(s)
    ensures BindingsProtected(ReconcileStep(s, k))
  {
  }

  lemma FinalizeKeepsBindings(s: State, k: Key)
    requires k in s.workers && FinalizingPc(s.workers[k]) && FinalizersHold(s) && BindingsProtected(s)
    ensures BindingsProtected(FinalizeStep(s, k))
  {
  }

  lemma ReconcileKeepsSeries(s: State, k: Key)
    requires k in s.workers && !FinalizingPc(s.workers[k]) && FinalizersHold(s) && SeriesClosed(s)
    ensures SeriesClosed(ReconcileStep(s, k))
  {
  }

  lemma FinalizeKeepsSeries(s: State, k: Key)
    requires k in s.workers && FinalizingPc(s.workers[k]) && FinalizersHold(s) && SeriesClosed(s)
    ensures SeriesClosed(FinalizeStep(s, k))
  {
  }

  lemma DoKeepsVersions(s: State, a: Action)
    requires VersionsIdentify(s)
    ensures VersionsIdentify(Do(s, a))
  {
    if a.Advance? && a.k in s.workers {
      if FinalizingPc(s.workers[a.k]) { FinalizeKeepsVersions(s, a.k); } else { ReconcileKeepsVersions(s, a.k); }
    }
  }

  lemma DoKeepsFinalizers(s: State, a: Action)
    requires VersionsIdentify(s) && FinalizersHold(s)
    ensures FinalizersHold(Do(s, a))
  {
    if a.Advance? && a.k in s.workers {
      if FinalizingPc(s.workers[a.k]) { FinalizeKeepsFinalizers(s, a.k); } else { ReconcileKeepsFinalizers(s, a.k); }
    }
  }

  lemma DoKeepsBindings(s: State, a: Action)
    requires VersionsIdentify(s) && FinalizersHold(s) && BindingsProtected(s)
    ensures BindingsProtected(Do(s, a))
  {
    if a.Advance? && a.k in s.workers {
      if FinalizingPc(s.workers[a.k]) { FinalizeKeepsBindings(s, a.k); } else { ReconcileKeepsBindings(s, a.k); }
    }
  }

  lemma DoKeepsSeries(s: State, a: Action)
    requires FinalizersHold(s) && SeriesClosed(s)
    ensures SeriesClosed(Do(s, a))
  {
    if a.Advance? && a.k in s.workers {
      if FinalizingPc(s.workers[a.k]) { FinalizeKeepsSeries(s, a.k); } else { ReconcileKeepsSeries(s, a.k); }
    }
  }

  lemma {:induction false} EveryRunKeepsInv(actions: seq<Action>)
    ensures Inv(Run(actions))
  {
    if actions != [] {
      var s, a := Run(Init(actions)), Last(actions);
      EveryRunKeepsInv(Init(actions));
      DoKeepsVersions(s, a);
      DoKeepsFinalizers(s, a);
      DoKeepsBindings(s, a);
      DoKeepsSeries(s, a);
    }
  }

  // --------------------------------------------------------------- role bindings

  /**
   The role binding of a DSPA, which no owner reference protects, exists only while the DSPA exists with the
   finalizer.
   */
  lemma BindingsNeverLeak(actions: seq<Action>)
    ensures var s := Run(actions);
      forall b <- s.bindings :: s.bindings[b] in s.dspas && s.dspas[s.bindings[b]].finalizer
  {
    EveryRunKeepsInv(actions);
  }

  // ------------------------------------------------------------ reaching states

  /** A run advances one action at a time. */
  lemma RunStep(actions: seq<Action>, i: nat)
    requires i < |actions|
    ensures Run(actions[..i + 1]) == Do(Run(actions[..i]), actions[i])
  {
    assert Init(actions[..i + 1]) == actions[..i];
  }

  /** `b` goes on from `a` with nothing but steps of the worker for `k`. */
  predicate OwnSteps(a: seq<Action>, b: seq<Action>, k: Key) {
    a <= b && forall i | |a| <= i < |b| :: b[i] == Begin(k) || b[i] == Advance(k) || b[i] == Return(k)
  }

  lemma Extend(a: seq<Action>, x: Action) returns (b: seq<Action>)
    ensures b == a + [x] && Run(b) == Do(Run(a), x)
  {
    b := a + [x];
    assert Init(b) == a;
  }

  /** A new supported DSPA is taken up by a worker. */
  lemma ReachLoaded(a: seq<Action>, k: Key, kubernetes: bool) returns (b: seq<Action>)
    requires k !in Run(a).dspas && k !in Run(a).workers
    ensures var s, d := Run(a), Dspa(Run(a).next, false, false, kubernetes, true);
      Run(b) == s.(next := s.next + 1, dspas := s.dspas[k := d], workers := s.workers[k := Loaded(d)],
                   closing := s.closing - {k})
  {
    b := Extend(a, Create(k, kubernetes, true));
    b := Extend(b, Begin(k));
  }

  /** It gets its finalizer. */
  lemma ReachLive(a: seq<Action>, k: Key, kubernetes: bool) returns (b: seq<Action>)
    requires k !in Run(a).dspas && k !in Run(a).workers
    ensures var s, d := Run(a), Dspa(Run(a).next + 1, false, true, kubernetes, true);
      Run(b) == s.(next := s.next + 2, dspas := s.dspas[k := d], workers := s.workers[k := Live(d)],
                   closing := s.closing - {k})
  {
    var c := ReachLoaded(a, k, kubernetes);
    b := Extend(c, Advance(k));
    assert Run(b).dspas == Run(a).dspas[k := Run(b).dspas[k]];
  }

  /** And then its binding. */
  lemma ReachBound(a: seq<Action>, k: Key, kubernetes: bool) returns (b: seq<Action>)
    requires k !in Run(a).dspas && k !in Run(a).workers
    ensures var s, t, d := Run(a), Run(b), Dspa(Run(a).next + 1, false, true, kubernetes, true);
      && t == s.(next := s.next + 2, dspas := s.dspas[k := d], workers := s.workers[k := Bound(d)],
                 bindings := s.bindings[BindingName(k) := k], closing := s.closing - {k})
  {
    b := ReachLive(a, k, kubernetes);
    b := Extend(b, Advance(k));
  }

  lemma CleanupCoversWebhook(s: set<WebhookResource>)
    requires forall j | 0 <= j < |CLEANUP_ORDER| :: CLEANUP_ORDER[j] !in s
    ensures s == {}
  {
    forall r ensures r !in s {
      var j := match r
        case MutatingConfiguration => 0 case ValidatingConfiguration => 1 case WebhookDeployment => 2
        case WebhookClusterRole => 3 case WebhookClusterRoleBinding => 4 case WebhookService => 5
        case WebhookServiceAccount => 6;
      assert CLEANUP_ORDER[j] == r;
    }
  }

  /** The DSPA awaits finalization and no reconcile for it is under way. */
  predicate AwaitsFinalization(s: State, k: Key) {
    && k in s.dspas && k !in s.workers
    && s.dspas[k].deleting && s.dspas[k].finalizer && s.dspas[k].supported
  }

  /** Up to and including the check for other kubernetes-store DSPAs. */
  lemma ReachChecked(a: seq<Action>, k: Key) returns (b: seq<Action>)
    requires AwaitsFinalization(Run(a), k)
    ensures OwnSteps(a, b, k)
    ensures var s, t := Run(a), Run(b);
      && t.dspas == s.dspas && t.webhook == s.webhook
      && t.bindings == s.bindings - {BindingName(k)} && k !in t.series
      && t.workers == s.workers[k := if OtherKubernetes(s.dspas, k)
                                     then Releasing(s.dspas[k], true) else Removing(s.dspas[k], 0, false)]
  {
    b := Extend(a, Begin(k));
    b := Extend(b, Advance(k));
    b := Extend(b, Advance(k));
    b := Extend(b, Advance(k));
    b := Extend(b, Advance(k));
  }

  /** The ordered get-then-delete steps, from resource `i` on, leave none of the seven. */
  lemma {:induction false} ReachCleaned(a: seq<Action>, k: Key, d: Dspa, i: nat) returns (b: seq<Action>)
    requires k in Run(a).workers && Run(a).workers[k] == Removing(d, i, false) && i <= |CLEANUP_ORDER|
    requires forall j | 0 <= j < i :: CLEANUP_ORDER[j] !in Run(a).webhook
    ensures OwnSteps(a, b, k)
    ensures var s, t := Run(a), Run(b);
      && t.dspas == s.dspas && t.bindings == s.bindings && t.series == s.series && t.webhook == {}
      && t.workers == s.workers[k := Releasing(d, false)]
    decreases |CLEANUP_ORDER| - i
  {
    b := Extend(a, Advance(k));
    if i == |CLEANUP_ORDER| {
      CleanupCoversWebhook(Run(a).webhook);
    } else {
      if CLEANUP_ORDER[i] in Run(a).webhook {
        b := Extend(b, Advance(k));
      }
      b := ReachCleaned(b, k, d, i + 1);
    }
  }

  /**
   However often cleanup failed part way before, one undisturbed retry finishes: the DSPA, its binding
   and its series are gone, and so is the webhook unless another kubernetes-store DSPA needs it.
   */
  lemma UndisturbedRetryFinishes(a: seq<Action>, k: Key) returns (b: seq<Action>)
    requires AwaitsFinalization(Run(a), k)
    ensures OwnSteps(a, b, k)
    ensures var s, t := Run(a), Run(b);
      && t.dspas == s.dspas - {k} && t.workers == s.workers
      && BindingName(k) !in t.bindings && k !in t.series
      && t.webhook == if exists j <- s.dspas :: j != k && s.dspas[j].kubernetes then s.webhook else {}
  {
    b := ReachChecked(a, k);
    if !OtherKubernetes(Run(a).dspas, k) {
      b := ReachCleaned(b, k, Run(a).dspas[k], 0);
    }
    b := Extend(b, Advance(k));
  }

  /** The DSPA is being deleted, but its version keeps reconciles from finalizing it. */
  predicate Stuck(s: State, k: Key) {
    k in s.dspas && s.dspas[k].deleting && !s.dspas[k].supported
  }

  lemma AdvanceKeepsStuck(s: State, j: Key, k: Key)
    requires VersionsIdentify(s) && FinalizersHold(s) && Stuck(s, k)
    ensures Stuck(Do(s, Advance(j)), k)
  {
    if j in s.workers && j == k && Current(s, k, s.workers[k].d) {
      assert s.workers[k].d == s.dspas[k];
    }
  }

  lemma UnsupportedStays(s: State, a: Action, k: Key)
    requires VersionsIdentify(s) && FinalizersHold(s) && Stuck(s, k)
    requires !(a.Edit? && a.k == k)
    ensures Stuck(Do(s, a), k)
  {
    match a
    case Advance(j) => AdvanceKeepsStuck(s, j, k);
    case _ =>
  }

  /** Users do not edit `k`. */
  predicate Unedited(actions: seq<Action>, k: Key) {
    forall x <- actions :: !(x.Edit? && x.k == k)
  }

  lemma {:induction false} UnsupportedIsNeverReleased(a: seq<Action>, more: seq<Action>, k: Key)
    requires Stuck(Run(a), k) && Unedited(more, k)
    ensures Stuck(Run(a + more), k)
  {
    if more == [] {
      assert a + more == a;
    } else {
      assert Init(a + more) == a + Init(more) && Last(more) in more;
      UnsupportedIsNeverReleased(a, Init(more), k);
      EveryRunKeepsInv(a + Init(more));
      UnsupportedStays(Run(a + Init(more)), Last(more), k);
    }
  }

  lemma OwnStepsAreUnedited(a: seq<Action>, b: seq<Action>, k: Key) returns (more: seq<Action>)
    requires OwnSteps(a, b, k)
    ensures a + more == b && Unedited(more, k)
  {
    more := b[|a|..];
    assert forall i | 0 <= i < |more| :: more[i] == b[|a| + i];
  }

  lemma ReturnedAwaits(s: State, k: Key)
    requires FinalizersHold(s) && k in s.dspas && s.dspas[k].deleting && s.dspas[k].supported
    ensures AwaitsFinalization(Do(s, Return(k)), k)
  {
  }

  lemma SupportedIsReleasable(a: seq<Action>, k: Key) returns (more: seq<Action>)
    requires k in Run(a).dspas && Run(a).dspas[k].deleting && Run(a).dspas[k].supported
    ensures Unedited(more, k) && k !in Run(a + more).dspas
  {
    EveryRunKeepsInv(a);
    var b := Extend(a, Return(k));
    ReturnedAwaits(Run(a), k);
    var c := UndisturbedRetryFinishes(b, k);
    assert OwnSteps(a, b, k);
    more := OwnStepsAreUnedited(a, c, k);
  }

  /**
   A DSPA that is being deleted can be released, unless it is edited first, exactly when its version is
   supported: an edit to an unsupported version after the finalizer was stored leaves it there for good.
   */
  lemma ReleasableExactlyWhenSupported(a: seq<Action>, k: Key)
    requires k in Run(a).dspas && Run(a).dspas[k].deleting
    ensures (exists more | Unedited(more, k) :: k !in Run(a + more).dspas)
            <==> Run(a).dspas[k].supported
  {
    if Run(a).dspas[k].supported {
      var more := SupportedIsReleasable(a, k);
    } else {
      forall more | Unedited(more, k) ensures k in Run(a + more).dspas {
        UnsupportedIsNeverReleased(a, more, k);
      }
    }
  }

  /** Such a DSPA: its finalizer is stored, then its version is edited, then it is deleted. */
  lemma EditedDspaIsStuck(k: Key) returns (a: seq<Action>)
    ensures Stuck(Run(a), k) && Run(a).workers == map[]
  {
    a := ReachBound([], k, false);
    a := Extend(a, Return(k));
    a := Extend(a, Edit(k, false, false));
    a := Extend(a, Delete(k));
  }
}
