/**
 What a reconcile reports, condition by condition, read off what it meets: a table beside the sequence of steps
 that `ReconcilePass` goes through.
 */
module ConditionTable {
  import opened Prelude
  import opened Manifest
  import opened Conditions
  import opened ReconcilePass
  import opened PassProperties

  // ----------------------------------------------------- readiness of one deployment

  predicate Says(c: Condition, t: CType, status: Truth, reason: Reason) {
    c.t == t && c.status == status && c.reason == reason
  }

  predicate SaysFailing(c: Condition, t: CType, message: string) {
    Says(c, t, ConditionFalse, FailingToDeploy) && c.message == message
  }

  /** A component is True exactly when its deployment is there, not scaled down, and available. */
  lemma TrueExactlyWhenServed(t: CType, d: Deployment, now: int)
    ensures EvaluateCondition(t, d, now).status.ConditionTrue? <==> d.Found? && !d.scaledToZero && d.available
  {
  }

  /** Which cause gives which reason; a cause listed earlier goes before a later one. */
  lemma CauseGivesReason(t: CType, d: Deployment, now: int)
    ensures var c := EvaluateCondition(t, d, now);
      match d
      case Unreadable => c == BLANK
      case NotThere => Says(c, t, ConditionFalse, ComponentDeploymentNotFound)
      case Found(scaledToZero, available, progressFailure, replicaFailure, pods) =>
        if scaledToZero then Says(c, t, ConditionFalse, MinimumReplicasAvailable)
        else if available then Says(c, t, ConditionTrue, MinimumReplicasAvailable)
        else if progressFailure.Some? then SaysFailing(c, t, progressFailure.value)
        else if replicaFailure.Some? then SaysFailing(c, t, replicaFailure.value)
        else match pods
          case PodListFails => c == BLANK
          case CrashLooping(m) => SaysFailing(c, t, m)
          case PodsFailed(m) => SaysFailing(c, t, m)
          case PodsFine => Says(c, t, ConditionFalse, Deploying)
    ensures !Unevaluated(d) ==> EvaluateCondition(t, d, now).since == now
  {
  }

  // ------------------------------------------------------- the components in their order

  /** The error of the component's own step. */
  function ErrorOf(t: CType, env: Env): Option<string> {
    match t
    case APIServerReady => env.apiServer
    case PersistenceAgentReady => env.persistenceAgent
    case ScheduledWorkflowReady => env.scheduledWorkflow
    case WorkflowControllerReady => if env.workflowController.Fails? then Some(env.workflowController.message) else None
    case _ => env.mlmd
  }

  function StageOf(t: CType): Stage {
    match t
    case APIServerReady => ApiServer
    case PersistenceAgentReady => PersistenceAgent
    case ScheduledWorkflowReady => ScheduledWorkflow
    case WorkflowControllerReady => WorkflowController
    case _ => Mlmd
  }

  /** Every component before it was applied. */
  predicate EarlierApply(t: CType, env: Env) {
    && (t != APIServerReady ==> env.apiServer.None?)
    && (t != APIServerReady && t != PersistenceAgentReady ==> env.persistenceAgent.None?)
    && (t == WorkflowControllerReady || t == MLMDProxyReady ==> env.scheduledWorkflow.None?)
    && (t == MLMDProxyReady ==> !env.workflowController.Fails?)
  }

  predicate SwitchedOff(t: CType, env: Env) {
    t == WorkflowControllerReady && env.workflowController.Disabled?
  }

  /** What deploying makes of a component's condition. */
  ghost predicate Deployed(t: CType, env: Env, was: Condition, c: Condition) {
    var now := env.clock(StageOf(t));
    if !EarlierApply(t, env) then c == was
    else if ErrorOf(t, env).Some? then SaysFailing(c, t, ErrorOf(t, env).value) && c.since == now
    else if SwitchedOff(t, env) then Says(c, t, ConditionFalse, NotApplicable) && c.since == now
    else c == EvaluateCondition(t, env.deployments(t), now)
  }

  lemma FinishDeployTable(v: View, env: Env, t: CType)
    requires t in POST_VALIDATION
    requires env.apiServer.None? && env.persistenceAgent.None? && env.scheduledWorkflow.None?
    ensures var w := FinishDeploy(v, env).view;
      if t == WorkflowControllerReady || t == MLMDProxyReady then Deployed(t, env, Slot(v, t), Slot(w, t))
      else Slot(w, t) == Slot(v, t)
    ensures SameOthers(FinishDeploy(v, env).view, v)
  {
  }

  lemma SlotWith(v: View, t: CType, c: Condition, u: CType)
    requires t in POST_VALIDATION && u in POST_VALIDATION
    ensures Slot(WithComponent(v, t, c), u) == if u == t then c else Slot(v, u)
    ensures SameOthers(WithComponent(v, t, c), v)
  {
  }

  lemma DeployTable(v: View, env: Env, t: CType)
    requires t in POST_VALIDATION
    ensures Deployed(t, env, Slot(v, t), Slot(Deploy(v, env).view, t))
    ensures SameOthers(Deploy(v, env).view, v)
  {
    if env.apiServer.None? && env.persistenceAgent.None? && env.scheduledWorkflow.None? {
      var v1 := Observe(v, APIServerReady, ApiServer, env);
      var v2 := Observe(v1, PersistenceAgentReady, PersistenceAgent, env);
      var v3 := Observe(v2, ScheduledWorkflowReady, ScheduledWorkflow, env);
      FinishDeployTable(v3, env, t);
    }
  }

  lemma {:induction false} PreserveTable(v: View, prev: seq<Condition>, ts: seq<CType>, t: CType)
    requires t in POST_VALIDATION && forall u <- ts :: u in POST_VALIDATION
    ensures var p := GetConditionByType(t, prev);
      Slot(Preserve(v, prev, ts), t) == if t in ts && p.t == t then p else Slot(v, t)
  {
    if ts != [] {
      var u, p := Last(ts), GetConditionByType(Last(ts), prev);
      assert ts == Init(ts) + [u];
      PreserveTable(v, prev, Init(ts), t);
      if p.t == u {
        SlotWith(Preserve(v, prev, Init(ts)), u, p, t);
      }
    }
  }

  /** The component's condition once validation is reached, from what it was before. */
  ghost predicate AfterValidation(t: CType, spec: Spec, prev: seq<Condition>, env: Env, was: Condition, c: Condition) {
    var p := GetConditionByType(t, prev);
    if Proceeds(spec, env) then Deployed(t, env, was, c) else c == if p.t == t then p else was
  }

  /** The validation condition's own row. */
  predicate SaysVerdict(c: Condition, spec: Spec, env: Env) {
    if spec.pipelines == [] then Says(c, ManagedPipelineValid, ConditionFalse, NotApplicable)
    else if env.fetched.Transient? then Says(c, ManagedPipelineValid, ConditionFalse, ManagedPipelinesFetchError)
    else if Proceeds(spec, env) then Says(c, ManagedPipelineValid, ConditionTrue, NamedAfter(ManagedPipelineValid))
    else Says(c, ManagedPipelineValid, ConditionFalse, ManagedPipelineInvalid)
  }

  predicate SamePrerequisites(v: View, w: View) {
    && v.databaseAvailable == w.databaseAvailable && v.objStoreAvailable == w.objStoreAvailable
    && v.dspaReady == w.dspaReady
  }

  lemma VerdictSays(spec: Spec, env: Env)
    ensures SaysVerdict(FindingCondition(Judge(spec.pipelines, env.fetched).finding, env.clock(Blocked)), spec, env)
  {
    FindingExactly(spec.pipelines, env.fetched);
    ProceedsMeansJudged(spec, env);
  }

  lemma ValidateTable(v: View, spec: Spec, prev: seq<Condition>, env: Env, requeueTime: int, t: CType)
    requires t in POST_VALIDATION
    ensures var w := ValidateAndDeploy(v, spec, prev, env, requeueTime).view;
      && AfterValidation(t, spec, prev, env, Slot(v, t), Slot(w, t))
      && SaysVerdict(w.managedPipelineValid, spec, env)
      && SamePrerequisites(v, w) && w.webhookReady == v.webhookReady
  {
    var found := FindingCondition(Judge(spec.pipelines, env.fetched).finding, env.clock(Blocked));
    var v1 := v.(managedPipelineValid := found);
    VerdictSays(spec, env);
    ProceedsMeansJudged(spec, env);
    DeployTable(v1, env, t);
    PreserveTable(v1, prev, POST_VALIDATION, t);
    PreserveTouchesOnlyComponents(v1, prev, POST_VALIDATION);
  }

  /** The webhook's own row. */
  predicate SaysWebhook(c: Condition, spec: Spec, env: Env) {
    if !spec.kubernetes then Says(c, WebhookReady, ConditionFalse, NotApplicable)
    else if env.webhook.Some? then SaysFailing(c, WebhookReady, env.webhook.value)
    else match env.webhookDeployment
      case WebhookUp => Says(c, WebhookReady, ConditionTrue, NamedAfter(WebhookReady))
      case WebhookNotThere => Says(c, WebhookReady, ConditionFalse, ComponentDeploymentNotFound)
      case WebhookUnreadable => Says(c, WebhookReady, ConditionFalse, FailingToDeploy)
      case WebhookUnavailable => Says(c, WebhookReady, ConditionFalse, MinimumReplicasAvailable)
  }

  lemma ComponentsTable(v: View, spec: Spec, prev: seq<Condition>, env: Env, requeueTime: int, t: CType)
    requires t in POST_VALIDATION
    ensures var w := Components(v, spec, prev, env, requeueTime).view;
      && (if env.common && WebhookPasses(spec, env)
          then
            AfterValidation(t, spec, prev, env, Slot(v, t), Slot(w, t))
            && SaysVerdict(w.managedPipelineValid, spec, env)
          else Slot(w, t) == Slot(v, t) && w.managedPipelineValid == v.managedPipelineValid)
      && (if env.common then SaysWebhook(w.webhookReady, spec, env) else w.webhookReady == v.webhookReady)
      && SamePrerequisites(v, w)
  {
    var now := env.clock(Webhook);
    var off := v.(webhookReady := BuildFalseCondition(WebhookReady, NotApplicable, "", now));
    var up := v.(webhookReady := BuildTrueCondition(WebhookReady, "up", now));
    ValidateTable(off, spec, prev, env, requeueTime, t);
    ValidateTable(up, spec, prev, env, requeueTime, t);
  }

  // ---------------------------------------------------------------------- whole passes

  /** The reconcile starts on a live DSPA whose finalizer is stored. */
  predicate Starts(spec: Spec, env: Env) {
    spec.supported && !spec.deleting && (spec.finalizer || env.finalizerStored)
  }

  predicate SaysUnknown(c: Condition, t: CType) {
    Says(c, t, ConditionUnknown, UnknownReason)
  }

  predicate SaysProbed(c: Condition, t: CType, p: Probe) {
    match p
    case Up => Says(c, t, ConditionTrue, NamedAfter(t))
    case Down(m) => SaysFailing(c, t, m)
  }

  /** The database condition of every reconcile. */
  lemma DatabaseReport(spec: Spec, prev: seq<Condition>, env: Env, requeueTime: int)
    ensures var c := Pass(spec, prev, env, requeueTime).view.databaseAvailable;
      if !spec.supported then Says(c, DatabaseAvailable, ConditionFalse, UnsupportedVersion)
      else if !Starts(spec, env) || env.extract.Some? then SaysUnknown(c, DatabaseAvailable)
      else if env.database.Some? then SaysFailing(c, DatabaseAvailable, env.database.value)
      else if env.storage.Some? then Says(c, DatabaseAvailable, ConditionTrue, NamedAfter(DatabaseAvailable))
      else SaysProbed(c, DatabaseAvailable, env.databaseProbe)
  {
    PassKeepsProbed(spec, prev, env, requeueTime);
  }

  /** The object store condition of every reconcile. */
  lemma StorageReport(spec: Spec, prev: seq<Condition>, env: Env, requeueTime: int)
    ensures var c := Pass(spec, prev, env, requeueTime).view.objStoreAvailable;
      if !spec.supported then Says(c, ObjectStoreAvailable, ConditionFalse, UnsupportedVersion)
      else if !Starts(spec, env) || env.extract.Some? || env.database.Some? then SaysUnknown(c, ObjectStoreAvailable)
      else if env.storage.Some? then SaysFailing(c, ObjectStoreAvailable, env.storage.value)
      else SaysProbed(c, ObjectStoreAvailable, env.storageProbe)
  {
    PassKeepsProbed(spec, prev, env, requeueTime);
  }

  lemma PassKeepsProbed(spec: Spec, prev: seq<Condition>, env: Env, requeueTime: int)
    ensures var w := Pass(spec, prev, env, requeueTime).view;
      Starts(spec, env) && env.extract.None? && env.database.None? && env.storage.None? ==>
        w.databaseAvailable == ProbedDatabase(env) && w.objStoreAvailable == ProbedStorage(env)
  {
    var v := InitialView(env.clock(Rejected));
    ComponentsTable(v.(databaseAvailable := ProbedDatabase(env), objStoreAvailable := ProbedStorage(env)),
                    spec, prev, env, requeueTime, APIServerReady);
  }

  /** The webhook condition of every reconcile. */
  lemma WebhookReport(spec: Spec, prev: seq<Condition>, env: Env, requeueTime: int)
    ensures var c := Pass(spec, prev, env, requeueTime).view.webhookReady;
      if ReachesWebhook(spec, env) then SaysWebhook(c, spec, env) else SaysUnknown(c, WebhookReady)
  {
    var v := InitialView(env.clock(Rejected));
    ComponentsTable(v.(databaseAvailable := ProbedDatabase(env), objStoreAvailable := ProbedStorage(env)),
                    spec, prev, env, requeueTime, APIServerReady);
  }

  /** The validation condition of every reconcile. */
  lemma ValidationReport(spec: Spec, prev: seq<Condition>, env: Env, requeueTime: int)
    ensures var c := Pass(spec, prev, env, requeueTime).view.managedPipelineValid;
      if ReachesValidation(spec, env) then SaysVerdict(c, spec, env) else SaysUnknown(c, ManagedPipelineValid)
  {
    var v := InitialView(env.clock(Rejected));
    ComponentsTable(v.(databaseAvailable := ProbedDatabase(env), objStoreAvailable := ProbedStorage(env)),
                    spec, prev, env, requeueTime, APIServerReady);
  }

  /** A component's condition where the reconcile does not start on a live DSPA. */
  lemma UnstartedReport(spec: Spec, prev: seq<Condition>, env: Env, requeueTime: int, t: CType)
    requires t in POST_VALIDATION && !Starts(spec, env)
    ensures var c := Slot(Pass(spec, prev, env, requeueTime).view, t);
      if !spec.supported && t != WorkflowControllerReady then Says(c, t, ConditionFalse, UnsupportedVersion)
      else SaysUnknown(c, t)
  {
  }

  lemma LiveUnreachedReport(v: View, spec: Spec, prev: seq<Condition>, env: Env, requeueTime: int, t: CType)
    requires t in POST_VALIDATION && Starts(spec, env) && !ReachesValidation(spec, env)
    ensures var c := Slot(LivePass(v, spec, prev, env, requeueTime).view, t);
      if env.extract.Some? && t == APIServerReady then SaysFailing(c, t, env.extract.value) else c == Slot(v, t)
  {
    ComponentsTable(v.(databaseAvailable := ProbedDatabase(env), objStoreAvailable := ProbedStorage(env)),
                    spec, prev, env, requeueTime, t);
  }

  /** And where it does not reach validation. */
  lemma UnreachedReport(spec: Spec, prev: seq<Condition>, env: Env, requeueTime: int, t: CType)
    requires t in POST_VALIDATION && !ReachesValidation(spec, env)
    ensures var c := Slot(Pass(spec, prev, env, requeueTime).view, t);
      if !spec.supported && t != WorkflowControllerReady then Says(c, t, ConditionFalse, UnsupportedVersion)
      else if Starts(spec, env) && env.extract.Some? && t == APIServerReady then SaysFailing(c, t, env.extract.value)
      else SaysUnknown(c, t)
  {
    if Starts(spec, env) {
      LiveUnreachedReport(InitialView(env.clock(Rejected)), spec, prev, env, requeueTime, t);
    } else {
      UnstartedReport(spec, prev, env, requeueTime, t);
    }
  }

  lemma ReachedReport(spec: Spec, prev: seq<Condition>, env: Env, requeueTime: int, t: CType)
    requires t in POST_VALIDATION && ReachesValidation(spec, env)
    ensures exists was ::
      SaysUnknown(was, t) && AfterValidation(t, spec, prev, env, was, Slot(Pass(spec, prev, env, requeueTime).view, t))
  {
    var v := InitialView(env.clock(Rejected));
    var v1 := v.(databaseAvailable := ProbedDatabase(env), objStoreAvailable := ProbedStorage(env));
    ComponentsTable(v1, spec, prev, env, requeueTime, t);
    assert SaysUnknown(Slot(v1, t), t);
    assert Pass(spec, prev, env, requeueTime).view == Components(v1, spec, prev, env, requeueTime).view;
  }

  /** The condition of each of the five components in every reconcile. */
  lemma ComponentReport(spec: Spec, prev: seq<Condition>, env: Env, requeueTime: int, t: CType)
    requires t in POST_VALIDATION
    ensures var c, p := Slot(Pass(spec, prev, env, requeueTime).view, t), GetConditionByType(t, prev);
      if !spec.supported && t != WorkflowControllerReady then Says(c, t, ConditionFalse, UnsupportedVersion)
      else if Starts(spec, env) && env.extract.Some? && t == APIServerReady then SaysFailing(c, t, env.extract.value)
      else if !ReachesValidation(spec, env) || (Proceeds(spec, env) && !EarlierApply(t, env)) then SaysUnknown(c, t)
      else if !Proceeds(spec, env) then if p.t == t then c == p else SaysUnknown(c, t)
      else if ErrorOf(t, env).Some? then SaysFailing(c, t, ErrorOf(t, env).value)
      else if SwitchedOff(t, env) then Says(c, t, ConditionFalse, NotApplicable)
      else c == EvaluateCondition(t, env.deployments(t), env.clock(StageOf(t)))
  {
    if ReachesValidation(spec, env) {
      ReachedReport(spec, prev, env, requeueTime, t);
    } else {
      UnreachedReport(spec, prev, env, requeueTime, t);
    }
  }

  /**
   The reconcile applies the component and all before it and its deployment serves, or validation blocks and
   the stored status has it True.
   */
  predicate ReportsTrue(spec: Spec, prev: seq<Condition>, env: Env, t: CType) {
    || (ReachesValidation(spec, env) && Proceeds(spec, env) && EarlierApply(t, env)
        && ErrorOf(t, env).None? && !SwitchedOff(t, env) && Serves(env.deployments(t)))
    || (ValidationBlocks(spec, env) && GetConditionByType(t, prev).t == t
        && GetConditionByType(t, prev).status.ConditionTrue?)
  }

  /** So exactly then a component is True. */
  lemma ComponentTrueExactlyWhen(spec: Spec, prev: seq<Condition>, env: Env, requeueTime: int, t: CType)
    requires t in POST_VALIDATION
    ensures Slot(Pass(spec, prev, env, requeueTime).view, t).status.ConditionTrue? <==>
      ReportsTrue(spec, prev, env, t)
  {
    ComponentReport(spec, prev, env, requeueTime, t);
    TrueExactlyWhenServed(t, env.deployments(t), env.clock(StageOf(t)));
  }

  /** Ready is set outright exactly for an unsupported version and for failing parameters. */
  lemma OverrideReport(spec: Spec, prev: seq<Condition>, env: Env, requeueTime: int)
    ensures var r := Pass(spec, prev, env, requeueTime).view.dspaReady;
      if !spec.supported then r.Some? && Says(r.value, CrReady, ConditionFalse, UnsupportedVersion)
      else if Starts(spec, env) && env.extract.Some? then r.Some? && SaysFailing(r.value, CrReady, env.extract.value)
      else r.None?
  {
    var v := InitialView(env.clock(Rejected));
    ComponentsTable(v.(databaseAvailable := ProbedDatabase(env), objStoreAvailable := ProbedStorage(env)),
                    spec, prev, env, requeueTime, APIServerReady);
  }

  // --------------------------------------------------------------------- the result

  predicate WaitsForPrerequisites(spec: Spec, env: Env) {
    && Starts(spec, env) && env.extract.None? && env.database.None? && env.storage.None?
    && !(env.databaseProbe.Up? && env.storageProbe.Up?)
  }

  /** The reconcile ends with an error, which the work queue retries with its own delays. */
  predicate Errs(spec: Spec, env: Env) {
    spec.supported &&
    if spec.deleting then spec.finalizer && !env.finalized
    else if !(spec.finalizer || env.finalizerStored) then true
    else
      env.extract.None? &&
      (env.database.Some? || env.storage.Some? ||
       (env.databaseProbe.Up? && env.storageProbe.Up? &&
        (!env.common || (spec.kubernetes && env.webhook.Some?) ||
         (WebhookPasses(spec, env) && Proceeds(spec, env) && !ComponentsApply(env)))))
  }

  predicate RequeuesAtOnce(spec: Spec, env: Env) {
    (Starts(spec, env) && env.extract.Some?) || WaitsForPrerequisites(spec, env)
  }

  lemma ValidateReturns(v: View, spec: Spec, prev: seq<Condition>, env: Env, requeueTime: int)
    ensures var r := ValidateAndDeploy(v, spec, prev, env, requeueTime).ret;
      if Proceeds(spec, env) && !ComponentsApply(env) then r == Return(false, 0, true)
      else if Proceeds(spec, env) && spec.pipelines != [] && env.fetched.Transient?
      then r == Return(false, requeueTime, false)
      else r == Return(false, 0, false)
  {
    var v1 := v.(managedPipelineValid :=
                 FindingCondition(Judge(spec.pipelines, env.fetched).finding, env.clock(Blocked)));
    ProceedsMeansJudged(spec, env);
    DeployReturns(v1, env);
  }

  lemma DeployReturns(v: View, env: Env)
    ensures var o := Deploy(v, env);
      && (o.stage.Complete? <==> ComponentsApply(env))
      && o.ret == if ComponentsApply(env) then Return(false, 0, false) else Return(false, 0, true)
  {
  }

  /** What every reconcile returns, from what it meets. */
  lemma ReturnReport(spec: Spec, prev: seq<Condition>, env: Env, requeueTime: int)
    ensures Pass(spec, prev, env, requeueTime).ret ==
      if Errs(spec, env) then Return(false, 0, true)
      else if RequeuesAtOnce(spec, env) then Return(true, requeueTime, false)
      else if WaitsForWebhook(spec, env) || WaitsForManifest(spec, env) then Return(false, requeueTime, false)
      else Return(false, 0, false)
  {
    forall v { ValidateReturns(v, spec, prev, env, requeueTime); }
  }

  // ------------------------------------------------------------- the list that is stored

  /** What keeps a DSPA from being ready. */
  lemma BlocksExactly(c: Condition)
    ensures Blocks(c) <==>
      && (c.status.ConditionFalse? || c.status.ConditionUnknown?)
      && !c.reason.NotApplicable? && !c.reason.ManagedPipelinesFetchError?
  {
  }

  /** Messages are joined in the order of the list, one for each condition that blocks. */
  lemma {:induction false} MessagesJoin(a: seq<Condition>, b: seq<Condition>)
    ensures FailureMessages(a + b) == FailureMessages(a) + FailureMessages(b)
  {
    if b == [] {
      assert a + b == a;
    } else {
      assert Init(a + b) == a + Init(b) && Last(a + b) == Last(b);
      MessagesJoin(a, Init(b));
    }
  }

  lemma MessageOfOne(c: Condition)
    ensures FailureMessages([c]) == if Blocks(c) then c.message + " \n" else ""
  {
    assert Init([c]) == [];
  }

  /** The condition carried on is the last listed one of its type, if there is one. */
  lemma {:induction false} PreviousIsLast(prev: seq<Condition>, t: CType, i: nat)
    requires i < |prev| && prev[i].t == t && forall j | i < j < |prev| :: prev[j].t != t
    ensures Previous(prev, t) == Some(prev[i])
  {
    if i < |prev| - 1 {
      PreviousIsLast(Init(prev), t, i);
    }
  }

  lemma {:induction false} NoneIsPrevious(prev: seq<Condition>, t: CType)
    requires forall i | 0 <= i < |prev| :: prev[i].t != t
    ensures Previous(prev, t) == None
  {
    if prev != [] {
      NoneIsPrevious(Init(prev), t);
    }
  }

  /** Same but for its transition time, which is that of `p` if the two agree on the status. */
  predicate CarriesTime(stored: Condition, c: Condition, p: Option<Condition>, generation: int) {
    && stored.(since := c.since, generation := c.generation) == c && stored.generation == generation
    && stored.since == if p.Some? && p.value.status == c.status then p.value.since else c.since
  }

  predicate OverallSays(c: Condition, v: View) {
    match v.dspaReady
    case Some(r) => c.(since := r.since, generation := r.generation) == r
    case None =>
      if forall i | 0 <= i < 9 :: !Blocks(v.Components()[i])
      then Says(c, CrReady, ConditionTrue, MinimumReplicasAvailable)
      else Says(c, CrReady, ConditionFalse, MinimumReplicasAvailable) && c.message == FailureMessages(v.Components())
  }

  /** The list is the nine conditions in reporting order, and the overall one. */
  lemma StoredConditions(v: View, prev: seq<Condition>, generation: int, now: int)
    ensures var cs := ConditionsOf(v, prev, generation, now);
      && |cs| == 10
      && CarriesTime(cs[0], v.databaseAvailable, Previous(prev, v.databaseAvailable.t), generation)
      && CarriesTime(cs[1], v.objStoreAvailable, Previous(prev, v.objStoreAvailable.t), generation)
      && CarriesTime(cs[2], v.apiServerReady, Previous(prev, v.apiServerReady.t), generation)
      && CarriesTime(cs[3], v.persistenceAgentReady, Previous(prev, v.persistenceAgentReady.t), generation)
      && CarriesTime(cs[4], v.scheduledWorkflowReady, Previous(prev, v.scheduledWorkflowReady.t), generation)
      && CarriesTime(cs[5], v.workflowControllerReady, Previous(prev, v.workflowControllerReady.t), generation)
      && CarriesTime(cs[6], v.mlmdProxyReady, Previous(prev, v.mlmdProxyReady.t), generation)
      && CarriesTime(cs[7], v.webhookReady, Previous(prev, v.webhookReady.t), generation)
      && CarriesTime(cs[8], v.managedPipelineValid, Previous(prev, v.managedPipelineValid.t), generation)
      && OverallSays(cs[9], v)
      && (v.dspaReady.None? ==>
            CarriesTime(cs[9], cs[9].(since := now, generation := 0), Previous(prev, CrReady), generation))
  {
    AllReadyMeansNoneBlocks(v);
    assert forall i | 0 <= i < 9 :: v.Components()[i] in v.Components();
  }
}
