/**
 One reconcile of one DSPA: which steps run, what the status says, and what is returned to the work queue.
 Everything outside the controller answers through `Env`.
 */
module ReconcilePass {
  import opened Prelude
  import opened LayerScan
  import opened Manifest
  import opened Conditions

  /** The parts of the DSPA that steer a reconcile; `pipelines` is empty unless the CR lists managed pipelines. */
  datatype Spec = Spec(
    supported: bool, deleting: bool, finalizer: bool,
    kubernetes: bool, pipelines: seq<string>)

  datatype Pods = PodListFails | CrashLooping(message: string) | PodsFailed(message: string) | PodsFine

  /** A component's deployment as the API server shows it. */
  datatype Deployment =
    | Unreadable
    | NotThere
    | Found(scaledToZero: bool, available: bool, progressFailure: Option<string>, replicaFailure: Option<string>,
            pods: Pods)

  datatype WebhookDeployment = WebhookUnreadable | WebhookNotThere | WebhookUnavailable | WebhookUp

  datatype Probe = Up | Down(message: string)

  datatype WorkflowControllerStep = Fails(message: string) | Enabled | Disabled

  /** How far a reconcile got, named after the step it stopped at. */
  datatype Stage =
    | Rejected | Finalization | StoringFinalizer | ExtractingParams | Database | Storage | Prerequisites
    | Common | Webhook | WebhookWait | Blocked
    | ApiServer | PersistenceAgent | ScheduledWorkflow | WorkflowController | Mlmd | Complete

  /** For each step: None when it succeeds, else its error message; plus what is observed and the clock at each step. */
  datatype Env = Env(
    finalizerStored: bool, finalized: bool,
    extract: Option<string>, database: Option<string>, storage: Option<string>,
    databaseProbe: Probe, storageProbe: Probe,
    common: bool, webhook: Option<string>, webhookDeployment: WebhookDeployment,
    fetched: Fetch<NameFlags>,
    apiServer: Option<string>, persistenceAgent: Option<string>, scheduledWorkflow: Option<string>,
    workflowController: WorkflowControllerStep, mlmd: Option<string>,
    deployments: CType -> Deployment,
    clock: Stage -> int)

  /** A controller-runtime result and whether an error was returned with it. */
  datatype Return = Return(requeue: bool, after: int, failed: bool)

  const DONE: Return := Return(false, 0, false)
  const ERROR: Return := Return(false, 0, true)

  /** The work queue will bring the DSPA back. */
  predicate Retries(r: Return) {
    r.failed || r.requeue || r.after > 0
  }

  datatype Outcome = Outcome(view: View, stage: Stage, ret: Return)

  // --------------------------------------------------------- readiness of one component

  function EvaluateCondition(t: CType, d: Deployment, now: int): Condition {
    match d
    case Unreadable => BLANK
    case NotThere => BuildFalseCondition(t, ComponentDeploymentNotFound, "gone", now)
    case Found(scaledToZero, available, progressFailure, replicaFailure, pods) =>
      if scaledToZero then BuildFalseCondition(t, MinimumReplicasAvailable, "zero", now)
      else if available then Condition(t, ConditionTrue, MinimumReplicasAvailable, "up", now, 0)
      else if progressFailure.Some? then BuildFalseCondition(t, FailingToDeploy, progressFailure.value, now)
      else if replicaFailure.Some? then BuildFalseCondition(t, FailingToDeploy, replicaFailure.value, now)
      else match pods
        case PodListFails => BLANK
        case CrashLooping(m) => BuildFalseCondition(t, FailingToDeploy, m, now)
        case PodsFailed(m) => BuildFalseCondition(t, FailingToDeploy, m, now)
        case PodsFine => BuildFalseCondition(t, Deploying, "soon", now)
  }

  /** The deployment serves: it is not scaled down and it is available. */
  predicate Serves(d: Deployment) {
    d.Found? && !d.scaledToZero && d.available
  }

  /** The readiness check itself failed, so the condition comes out blank. */
  predicate Unevaluated(d: Deployment) {
    || d.Unreadable?
    || (d.Found? && !d.scaledToZero && !d.available
        && d.progressFailure.None? && d.replicaFailure.None? && d.pods.PodListFails?)
  }

  lemma EvaluationBlocksUnless(t: CType, d: Deployment, now: int)
    ensures var c := EvaluateCondition(t, d, now);
      && (Blocks(c) <==> !Serves(d) && !Unevaluated(d))
      && (c.t == NoType <==> t == NoType || Unevaluated(d))
  {
  }

  // -------------------------------------------------------------------- the pass

  function Observe(v: View, t: CType, stage: Stage, env: Env): View {
    WithComponent(v, t, EvaluateCondition(t, env.deployments(t), env.clock(stage)))
  }

  function Unready(v: View, t: CType, stage: Stage, message: string, env: Env): View {
    WithComponent(v, t, BuildFalseCondition(t, FailingToDeploy, message, env.clock(stage)))
  }

  /** The last steps, from the workflow controller on. */
  function FinishDeploy(v: View, env: Env): Outcome {
    if env.workflowController.Fails? then
      Outcome(Unready(v, WorkflowControllerReady, WorkflowController, env.workflowController.message, env),
              WorkflowController, ERROR)
    else
      var v1 := if env.workflowController.Enabled? then Observe(v, WorkflowControllerReady, WorkflowController, env)
                else WithComponent(v, WorkflowControllerReady,
                                   BuildFalseCondition(WorkflowControllerReady, NotApplicable,
                       "off", env.clock(WorkflowController)));
      if env.mlmd.Some? then Outcome(Unready(v1, MLMDProxyReady, Mlmd, env.mlmd.value, env), Mlmd, ERROR)
      else Outcome(Observe(v1, MLMDProxyReady, Mlmd, env), Complete, DONE)
  }

  function Deploy(v: View, env: Env): Outcome {
    if env.apiServer.Some? then
      Outcome(Unready(v, APIServerReady, ApiServer, env.apiServer.value, env), ApiServer, ERROR)
    else
      var v1 := Observe(v, APIServerReady, ApiServer, env);
      if env.persistenceAgent.Some? then
        Outcome(Unready(v1, PersistenceAgentReady, PersistenceAgent, env.persistenceAgent.value, env),
                PersistenceAgent, ERROR)
      else
        var v2 := Observe(v1, PersistenceAgentReady, PersistenceAgent, env);
        if env.scheduledWorkflow.Some? then
          Outcome(Unready(v2, ScheduledWorkflowReady, ScheduledWorkflow, env.scheduledWorkflow.value, env),
                  ScheduledWorkflow, ERROR)
        else FinishDeploy(Observe(v2, ScheduledWorkflowReady, ScheduledWorkflow, env), env)
  }

  /** The first listed condition of a type, or the zero condition. */
  function GetConditionByType(t: CType, cs: seq<Condition>): Condition {
    if cs == [] then BLANK else if cs[0].t == t then cs[0] else GetConditionByType(t, cs[1..])
  }

  function Preserve(v: View, prev: seq<Condition>, ts: seq<CType>): View {
    if ts == [] then v
    else
      var v' := Preserve(v, prev, Init(ts));
      var p := GetConditionByType(Last(ts), prev);
      if p.t == Last(ts) then WithComponent(v', Last(ts), p) else v'
  }

  function FindingCondition(f: Finding, now: int): Condition {
    match f
    case NothingListed =>
      BuildFalseCondition(ManagedPipelineValid, NotApplicable, "", now)
    case Valid => BuildTrueCondition(ManagedPipelineValid, "ok", now)
    case Invalid => BuildFalseCondition(ManagedPipelineValid, ManagedPipelineInvalid, "bad", now)
    case FetchError => BuildFalseCondition(ManagedPipelineValid, ManagedPipelinesFetchError, "late", now)
  }

  /** Validation and, unless it blocks, deployment; a transient fetch failure turns a clean end into a timed retry. */
  function ValidateAndDeploy(v: View, spec: Spec, prev: seq<Condition>, env: Env, requeueTime: int): Outcome {
    var verdict := Judge(spec.pipelines, env.fetched);
    var v1 := v.(managedPipelineValid := FindingCondition(verdict.finding, env.clock(Blocked)));
    if !verdict.proceed then Outcome(Preserve(v1, prev, POST_VALIDATION), Blocked, DONE)
    else
      var o := Deploy(v1, env);
      if o.stage.Complete? && verdict.requeue then o.(ret := Return(false, requeueTime, false)) else o
  }

  function WebhookReason(w: WebhookDeployment): Reason {
    match w
    case WebhookNotThere => ComponentDeploymentNotFound
    case WebhookUnreadable => FailingToDeploy
    case _ => MinimumReplicasAvailable
  }

  function Components(v: View, spec: Spec, prev: seq<Condition>, env: Env, requeueTime: int): Outcome {
    var now := env.clock(Webhook);
    if !env.common then Outcome(v, Common, ERROR)
    else if !spec.kubernetes then
      ValidateAndDeploy(v.(webhookReady := BuildFalseCondition(WebhookReady, NotApplicable, "", now)), spec, prev, env,
                        requeueTime)
    else if env.webhook.Some? then
      Outcome(v.(webhookReady := BuildFalseCondition(WebhookReady, FailingToDeploy, env.webhook.value, now)), Webhook,
              ERROR)
    else if !env.webhookDeployment.WebhookUp? then
      Outcome(v.(webhookReady := BuildFalseCondition(WebhookReady, WebhookReason(env.webhookDeployment), "", now)),
              WebhookWait, Return(false, requeueTime, false))
    else
      ValidateAndDeploy(v.(webhookReady := BuildTrueCondition(WebhookReady, "up", now)),
                        spec, prev, env, requeueTime)
  }

  function DatabaseUp(now: int): Condition {
    BuildTrueCondition(DatabaseAvailable, "up", now)
  }

  function StorageUp(now: int): Condition {
    BuildTrueCondition(ObjectStoreAvailable, "up", now)
  }

  function ProbedDatabase(env: Env): Condition {
    if env.databaseProbe.Up? then DatabaseUp(env.clock(Prerequisites))
    else BuildFalseCondition(DatabaseAvailable, FailingToDeploy, env.databaseProbe.message, env.clock(Prerequisites))
  }

  function ProbedStorage(env: Env): Condition {
    if env.storageProbe.Up? then StorageUp(env.clock(Prerequisites))
    else BuildFalseCondition(ObjectStoreAvailable, FailingToDeploy, env.storageProbe.message, env.clock(Prerequisites))
  }

  /** From parameter extraction on. */
  function LivePass(v: View, spec: Spec, prev: seq<Condition>, env: Env, requeueTime: int): Outcome {
    if env.extract.Some? then
      var now := env.clock(ExtractingParams);
      Outcome(v.(apiServerReady := BuildFalseCondition(APIServerReady, FailingToDeploy, env.extract.value, now),
                 dspaReady := Some(BuildFalseCondition(CrReady, FailingToDeploy, env.extract.value, now))),
              ExtractingParams, Return(true, requeueTime, false))
    else if env.database.Some? then
      Outcome(v.(databaseAvailable :=
                 BuildFalseCondition(DatabaseAvailable, FailingToDeploy, env.database.value, env.clock(Database))),
              Database, ERROR)
    else if env.storage.Some? then
      Outcome(v.(databaseAvailable := DatabaseUp(env.clock(Database)),
                 objStoreAvailable :=
                     BuildFalseCondition(ObjectStoreAvailable, FailingToDeploy, env.storage.value, env.clock(Storage))),
              Storage, ERROR)
    else
      var v1 := v.(databaseAvailable := ProbedDatabase(env), objStoreAvailable := ProbedStorage(env));
      if env.databaseProbe.Up? && env.storageProbe.Up? then Components(v1, spec, prev, env, requeueTime)
      else Outcome(v1, Prerequisites, Return(true, requeueTime, false))
  }

  const UNSUPPORTED_MESSAGE: string := "unsupported"

  function Unsupported(v: View, now: int): View {
    v.(databaseAvailable := BuildFalseCondition(DatabaseAvailable, UnsupportedVersion, UNSUPPORTED_MESSAGE, now),
       objStoreAvailable := BuildFalseCondition(ObjectStoreAvailable, UnsupportedVersion, UNSUPPORTED_MESSAGE, now),
       apiServerReady := BuildFalseCondition(APIServerReady, UnsupportedVersion, UNSUPPORTED_MESSAGE, now),
       persistenceAgentReady :=
           BuildFalseCondition(PersistenceAgentReady, UnsupportedVersion, UNSUPPORTED_MESSAGE, now),
       scheduledWorkflowReady :=
           BuildFalseCondition(ScheduledWorkflowReady, UnsupportedVersion, UNSUPPORTED_MESSAGE, now),
       mlmdProxyReady := BuildFalseCondition(MLMDProxyReady, UnsupportedVersion, UNSUPPORTED_MESSAGE, now),
       dspaReady := Some(BuildFalseCondition(CrReady, UnsupportedVersion, UNSUPPORTED_MESSAGE, now)))
  }

  /** A whole reconcile of a DSPA that was found, whose stored conditions are `prev`. */
  function Pass(spec: Spec, prev: seq<Condition>, env: Env, requeueTime: int): Outcome {
    var v := InitialView(env.clock(Rejected));
    if !spec.supported then Outcome(Unsupported(v, env.clock(Rejected)), Rejected, DONE)
    else if spec.deleting then Outcome(v, Finalization, if spec.finalizer && !env.finalized then ERROR else DONE)
    else if !spec.finalizer && !env.finalizerStored then Outcome(v, StoringFinalizer, ERROR)
    else LivePass(v, spec, prev, env, requeueTime)
  }

  // ------------------------------------------------------------ the code's own form

  method ValidateManagedPipelines(s: DspaStatus, spec: Spec, env: Env) returns (proceed: bool, shouldRequeue: bool)
    modifies s
    ensures var verdict := Judge(spec.pipelines, env.fetched);
      && proceed == verdict.proceed && shouldRequeue == verdict.requeue
      && s.view == old(s.view).(managedPipelineValid := FindingCondition(verdict.finding, env.clock(Blocked)))
  {
    var now := env.clock(Blocked);
    if |spec.pipelines| == 0 {
      s.SetManagedPipeline(FindingCondition(NothingListed, now));
      return true, false;
    }
    match env.fetched
    case Permanent(_) =>
      s.SetManagedPipeline(FindingCondition(Invalid, now));
      return false, false;
    case Transient =>
      s.SetManagedPipeline(FindingCondition(FetchError, now));
      return true, true;
    case Fetched(names) =>
      var invalid := ValidateManagedPipelineNames(spec.pipelines, names);
      if |invalid| > 0 {
        s.SetManagedPipeline(FindingCondition(Invalid, now));
        return false, false;
      }
      s.SetManagedPipeline(FindingCondition(Valid, now));
      return true, false;
  }

  method PreservePostValidationConditions(s: DspaStatus)
    modifies s
    ensures s.view == Preserve(old(s.view), s.dspa.conditions, POST_VALIDATION)
  {
    for i := 0 to |POST_VALIDATION|
      invariant s.view == Preserve(old(s.view), s.dspa.conditions, POST_VALIDATION[..i])
    {
      assert Init(POST_VALIDATION[..i + 1]) == POST_VALIDATION[..i];
      var t := POST_VALIDATION[i];
      var prev := GetConditionByType(t, s.dspa.conditions);
      if prev.t == t {
        s.SetStatus(t, prev);
      }
    }
    assert POST_VALIDATION[..|POST_VALIDATION|] == POST_VALIDATION;
  }

  /** One component: report its error, or what its deployment shows. */
  method ReportComponent(s: DspaStatus, t: CType, stage: Stage, err: Option<string>, env: Env) returns (ok: bool)
    requires t in POST_VALIDATION
    modifies s
    ensures ok == err.None?
    ensures s.view == if err.Some? then Unready(old(s.view), t, stage, err.value, env)
        else Observe(old(s.view), t, stage, env)
  {
    if err.Some? {
      s.SetStatus(t, BuildFalseCondition(t, FailingToDeploy, err.value, env.clock(stage)));
      return false;
    }
    s.SetStatus(t, EvaluateCondition(t, env.deployments(t), env.clock(stage)));
    return true;
  }

  method DeployLast(s: DspaStatus, env: Env) returns (stage: Stage, ret: Return)
    modifies s
    ensures Outcome(s.view, stage, ret) == FinishDeploy(old(s.view), env)
  {
    var ok: bool;
    match env.workflowController {
      case Fails(m) =>
        ok := ReportComponent(s, WorkflowControllerReady, WorkflowController, Some(m), env);
        return WorkflowController, ERROR;
      case Enabled =>
        ok := ReportComponent(s, WorkflowControllerReady, WorkflowController, None, env);
      case Disabled =>
        s.SetStatus(WorkflowControllerReady, BuildFalseCondition(WorkflowControllerReady, NotApplicable,
          "off", env.clock(WorkflowController)));
    }
    ok := ReportComponent(s, MLMDProxyReady, Mlmd, env.mlmd, env);
    if !ok {
      return Mlmd, ERROR;
    }
    return Complete, DONE;
  }

  method DeployComponents(s: DspaStatus, env: Env) returns (stage: Stage, ret: Return)
    modifies s
    ensures Outcome(s.view, stage, ret) == Deploy(old(s.view), env)
  {
    var ok := ReportComponent(s, APIServerReady, ApiServer, env.apiServer, env);
    if !ok {
      return ApiServer, ERROR;
    }
    ok := ReportComponent(s, PersistenceAgentReady, PersistenceAgent, env.persistenceAgent, env);
    if !ok {
      return PersistenceAgent, ERROR;
    }
    ok := ReportComponent(s, ScheduledWorkflowReady, ScheduledWorkflow, env.scheduledWorkflow, env);
    if !ok {
      return ScheduledWorkflow, ERROR;
    }
    stage, ret := DeployLast(s, env);
  }

  /** What follows once the prerequisites are up. */
  method ReconcileComponents(s: DspaStatus, spec: Spec, env: Env, requeueTime: int) returns (stage: Stage, ret: Return)
    modifies s
    ensures Outcome(s.view, stage, ret) == Components(old(s.view), spec, s.dspa.conditions, env, requeueTime)
  {
    if !env.common {
      return Common, ERROR;
    }
    var now := env.clock(Webhook);
    if spec.kubernetes {
      if env.webhook.Some? {
        s.SetWebhookNotReady(env.webhook.value, FailingToDeploy, now);
        return Webhook, ERROR;
      }
      if !env.webhookDeployment.WebhookUp? {
        s.SetWebhookNotReady("", WebhookReason(env.webhookDeployment), now);
        return WebhookWait, Return(false, requeueTime, false);
      }
      s.SetWebhookReady(now);
    } else {
      s.SetWebhookNotReady("", NotApplicable, now);
    }
    var proceed, shouldRequeue := ValidateManagedPipelines(s, spec, env);
    if !proceed {
      PreservePostValidationConditions(s);
      return Blocked, DONE;
    }
    stage, ret := DeployComponents(s, env);
    if stage.Complete? && shouldRequeue {
      ret := Return(false, requeueTime, false);
    }
  }

  method RejectUnsupported(s: DspaStatus, now: int)
    modifies s
    ensures s.view == Unsupported(old(s.view), now)
  {
    s.SetDatabaseNotReady(UNSUPPORTED_MESSAGE, UnsupportedVersion, now);
    s.SetObjStoreNotReady(UNSUPPORTED_MESSAGE, UnsupportedVersion, now);
    s.SetStatus(APIServerReady, BuildFalseCondition(APIServerReady, UnsupportedVersion, UNSUPPORTED_MESSAGE, now));
    s.SetStatus(PersistenceAgentReady,
                BuildFalseCondition(PersistenceAgentReady, UnsupportedVersion, UNSUPPORTED_MESSAGE, now));
    s.SetStatus(ScheduledWorkflowReady,
                BuildFalseCondition(ScheduledWorkflowReady, UnsupportedVersion, UNSUPPORTED_MESSAGE, now));
    s.SetStatus(MLMDProxyReady, BuildFalseCondition(MLMDProxyReady, UnsupportedVersion, UNSUPPORTED_MESSAGE, now));
    s.SetDSPANotReady(UNSUPPORTED_MESSAGE, UnsupportedVersion, now);
  }

  method Reconcile(dspa: DspaObject, spec: Spec, env: Env, requeueTime: int)
    returns (s: DspaStatus, stage: Stage, ret: Return)
    ensures fresh(s) && s.dspa == dspa
    ensures Outcome(s.view, stage, ret) == Pass(spec, dspa.conditions, env, requeueTime)
  {
    s := new DspaStatus(dspa, env.clock(Rejected));
    if !spec.supported {
      RejectUnsupported(s, env.clock(Rejected));
      return s, Rejected, DONE;
    }
    if spec.deleting {
      return s, Finalization, if spec.finalizer && !env.finalized then ERROR else DONE;
    }
    if !spec.finalizer && !env.finalizerStored {
      return s, StoringFinalizer, ERROR;
    }
    stage, ret := ReconcileLive(s, spec, env, requeueTime);
  }

  method ReconcileLive(s: DspaStatus, spec: Spec, env: Env, requeueTime: int) returns (stage: Stage, ret: Return)
    modifies s
    ensures Outcome(s.view, stage, ret) == LivePass(old(s.view), spec, s.dspa.conditions, env, requeueTime)
  {
    if env.extract.Some? {
      var now := env.clock(ExtractingParams);
      s.SetStatus(APIServerReady, BuildFalseCondition(APIServerReady, FailingToDeploy, env.extract.value, now));
      s.SetDSPANotReady(env.extract.value, FailingToDeploy, now);
      return ExtractingParams, Return(true, requeueTime, false);
    }
    if env.database.Some? {
      s.SetDatabaseNotReady(env.database.value, FailingToDeploy, env.clock(Database));
      return Database, ERROR;
    }
    s.SetDatabaseReady(env.clock(Database));
    if env.storage.Some? {
      s.SetObjStoreNotReady(env.storage.value, FailingToDeploy, env.clock(Storage));
      return Storage, ERROR;
    }
    s.SetObjStoreReady(env.clock(Storage));
    ProbePrerequisites(s, env);
    if env.databaseProbe.Up? && env.storageProbe.Up? {
      stage, ret := ReconcileComponents(s, spec, env, requeueTime);
      return;
    }
    return Prerequisites, Return(true, requeueTime, false);
  }

  method ProbePrerequisites(s: DspaStatus, env: Env)
    modifies s
    ensures s.view == old(s.view).(databaseAvailable := ProbedDatabase(env), objStoreAvailable := ProbedStorage(env))
  {
    var now := env.clock(Prerequisites);
    if env.databaseProbe.Down? {
      s.SetDatabaseNotReady(env.databaseProbe.message, FailingToDeploy, now);
    } else {
      s.SetDatabaseReady(now);
    }
    if env.storageProbe.Down? {
      s.SetObjStoreNotReady(env.storageProbe.message, FailingToDeploy, now);
    } else {
      s.SetObjStoreReady(now);
    }
  }
}
