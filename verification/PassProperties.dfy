/** What a reconcile guarantees: Ready is earned, retries are not lost, and blocked runs keep what was known. */
module PassProperties {
  import opened Prelude
  import LayerScan
  import opened Manifest
  import opened Conditions
  import opened ReconcilePass

  // -------------------------------------------------------- how far a reconcile gets

  /** The webhook is not needed, or it is installed and its deployment is up. */
  predicate WebhookPasses(spec: Spec, env: Env) {
    !spec.kubernetes || (env.webhook.None? && env.webhookDeployment.WebhookUp?)
  }

  /** Everything up to the common resources succeeds. */
  predicate ReachesWebhook(spec: Spec, env: Env) {
    && spec.supported && !spec.deleting && (spec.finalizer || env.finalizerStored)
    && env.extract.None? && env.database.None? && env.storage.None?
    && env.databaseProbe.Up? && env.storageProbe.Up?
    && env.common
  }

  /** Everything before validation succeeds. */
  predicate ReachesValidation(spec: Spec, env: Env) {
    ReachesWebhook(spec, env) && WebhookPasses(spec, env)
  }

  /** The webhook is installed, but its deployment is not up. */
  predicate WaitsForWebhook(spec: Spec, env: Env) {
    ReachesWebhook(spec, env) && spec.kubernetes && env.webhook.None? && !env.webhookDeployment.WebhookUp?
  }

  /** All is applied, but the listed names could not be checked for now. */
  predicate WaitsForManifest(spec: Spec, env: Env) {
    Applied(spec, env) && spec.pipelines != [] && env.fetched.Transient?
  }

  /** No pipelines are listed, the manifest could not be fetched for now, or it accepts every listed name. */
  predicate Proceeds(spec: Spec, env: Env) {
    || spec.pipelines == [] || env.fetched.Transient?
    || (env.fetched.Fetched? && forall n <- spec.pipelines :: Accepts(env.fetched.value, n))
  }

  predicate ComponentsApply(env: Env) {
    && env.apiServer.None? && env.persistenceAgent.None? && env.scheduledWorkflow.None?
    && !env.workflowController.Fails? && env.mlmd.None?
  }

  /** Every step of the reconcile succeeds. */
  predicate Applied(spec: Spec, env: Env) {
    ReachesValidation(spec, env) && Proceeds(spec, env) && ComponentsApply(env)
  }

  /** Validation finds a misconfiguration. */
  predicate ValidationBlocks(spec: Spec, env: Env) {
    ReachesValidation(spec, env) && !Proceeds(spec, env)
  }

  /** Every step succeeds, and the component deployments look as given. */
  function SomeEnv(deployments: CType -> Deployment): Env {
    Env(true, true, None, None, None, Up, Up, true, None, WebhookUp,
        LayerScan.Transient, None, None, None, Disabled, None, deployments, _ => 0)
  }

  lemma ProceedsMeansJudged(spec: Spec, env: Env)
    ensures Judge(spec.pipelines, env.fetched).proceed <==> Proceeds(spec, env)
  {
    if env.fetched.Fetched? {
      MissingNothing(spec.pipelines, env.fetched.value);
    }
  }

  lemma DeployCompletes(v: View, env: Env)
    ensures var o := Deploy(v, env);
      !o.stage.Blocked? && (o.stage.Complete? <==> ComponentsApply(env))
  {
  }

  lemma ValidateAndDeployStages(v: View, spec: Spec, prev: seq<Condition>, env: Env, requeueTime: int)
    ensures var o := ValidateAndDeploy(v, spec, prev, env, requeueTime);
      && (o.stage.Complete? <==> Proceeds(spec, env) && ComponentsApply(env))
      && (o.stage.Blocked? <==> !Proceeds(spec, env))
  {
    var verdict := Judge(spec.pipelines, env.fetched);
    ProceedsMeansJudged(spec, env);
    DeployCompletes(v.(managedPipelineValid := FindingCondition(verdict.finding, env.clock(Blocked))), env);
  }

  lemma ComponentsStages(v: View, spec: Spec, prev: seq<Condition>, env: Env, requeueTime: int)
    ensures var o := Components(v, spec, prev, env, requeueTime);
      && (o.stage.Complete? <==> env.common && WebhookPasses(spec, env) && Proceeds(spec, env) && ComponentsApply(env))
      && (o.stage.Blocked? <==> env.common && WebhookPasses(spec, env) && !Proceeds(spec, env))
  {
    var now := env.clock(Webhook);
    ValidateAndDeployStages(v.(webhookReady := BuildFalseCondition(WebhookReady, NotApplicable, "", now)), spec, prev,
                            env, requeueTime);
    ValidateAndDeployStages(v.(webhookReady := BuildTrueCondition(WebhookReady, "up", now)), spec, prev, env,
                            requeueTime);
  }

  /** What the reconcile meets decides how far it gets, whatever the stored conditions say. */
  lemma StagesFollowInputs(spec: Spec, prev: seq<Condition>, env: Env, requeueTime: int)
    ensures var o := Pass(spec, prev, env, requeueTime);
      && (o.stage.Complete? <==> Applied(spec, env))
      && (o.stage.Blocked? <==> ValidationBlocks(spec, env))
  {
    var v := InitialView(env.clock(Rejected));
    ComponentsStages(v.(databaseAvailable := ProbedDatabase(env), objStoreAvailable := ProbedStorage(env)), spec, prev,
                     env, requeueTime);
  }

  // ---------------------------------------------------------------------- Ready

  /** The component is served by its deployment, or is the disabled workflow controller. */
  predicate Genuine(t: CType, env: Env) {
    (t.WorkflowControllerReady? && env.workflowController.Disabled?) || Serves(env.deployments(t))
  }

  /** Its readiness could not be read, which leaves a blank condition. */
  predicate Unread(t: CType, env: Env) {
    !(t.WorkflowControllerReady? && env.workflowController.Disabled?) && Unevaluated(env.deployments(t))
  }

  predicate Passable(t: CType, env: Env) {
    Genuine(t, env) || Unread(t, env)
  }

  predicate AllPassable(env: Env) {
    && Passable(APIServerReady, env) && Passable(PersistenceAgentReady, env) && Passable(ScheduledWorkflowReady, env)
    && Passable(WorkflowControllerReady, env) && Passable(MLMDProxyReady, env)
  }

  predicate OthersReady(v: View) {
    !(Blocks(v.databaseAvailable) || Blocks(v.objStoreAvailable) || Blocks(v.webhookReady)
      || Blocks(v.managedPipelineValid))
  }

  predicate EarlyReady(v: View) {
    !(Blocks(v.apiServerReady) || Blocks(v.persistenceAgentReady) || Blocks(v.scheduledWorkflowReady))
  }

  predicate LateReady(v: View) {
    !(Blocks(v.workflowControllerReady) || Blocks(v.mlmdProxyReady))
  }

  /** Nothing from the API server on has been looked at. */
  predicate Untouched(v: View) {
    && Blocks(v.apiServerReady) && Blocks(v.persistenceAgentReady) && Blocks(v.scheduledWorkflowReady)
    && Blocks(v.workflowControllerReady) && Blocks(v.mlmdProxyReady)
  }

  predicate SameOthers(v: View, w: View) {
    && v.databaseAvailable == w.databaseAvailable && v.objStoreAvailable == w.objStoreAvailable
    && v.webhookReady == w.webhookReady && v.managedPipelineValid == w.managedPipelineValid
    && v.dspaReady == w.dspaReady
  }

  predicate SameEarly(v: View, w: View) {
    && v.apiServerReady == w.apiServerReady && v.persistenceAgentReady == w.persistenceAgentReady
    && v.scheduledWorkflowReady == w.scheduledWorkflowReady
  }

  lemma FinishDeployReady(v: View, env: Env)
    requires Blocks(v.workflowControllerReady) && Blocks(v.mlmdProxyReady)
    ensures var o := FinishDeploy(v, env);
      && SameOthers(o.view, v) && SameEarly(o.view, v)
      && (LateReady(o.view) <==>
            o.stage.Complete? && Passable(WorkflowControllerReady, env) && Passable(MLMDProxyReady, env))
  {
    EvaluationBlocksUnless(WorkflowControllerReady, env.deployments(WorkflowControllerReady),
                           env.clock(WorkflowController));
    EvaluationBlocksUnless(MLMDProxyReady, env.deployments(MLMDProxyReady), env.clock(Mlmd));
  }

  lemma DeployReady(v: View, env: Env)
    requires Untouched(v)
    ensures var o := Deploy(v, env);
      && SameOthers(o.view, v)
      && (EarlyReady(o.view) && LateReady(o.view) <==> o.stage.Complete? && AllPassable(env))
  {
    EvaluationBlocksUnless(APIServerReady, env.deployments(APIServerReady), env.clock(ApiServer));
    EvaluationBlocksUnless(PersistenceAgentReady, env.deployments(PersistenceAgentReady), env.clock(PersistenceAgent));
    EvaluationBlocksUnless(ScheduledWorkflowReady, env.deployments(ScheduledWorkflowReady),
                           env.clock(ScheduledWorkflow));
    if env.apiServer.None? && env.persistenceAgent.None? && env.scheduledWorkflow.None? {
      FinishDeployReady(
        Observe(Observe(Observe(v, APIServerReady, ApiServer, env), PersistenceAgentReady, PersistenceAgent, env),
                ScheduledWorkflowReady, ScheduledWorkflow, env), env);
    }
  }

  lemma {:induction false} PreserveTouchesOnlyComponents(v: View, prev: seq<Condition>, ts: seq<CType>)
    ensures SameOthers(Preserve(v, prev, ts), v)
  {
    if ts != [] {
      PreserveTouchesOnlyComponents(v, prev, Init(ts));
    }
  }

  lemma ValidateAndDeployReady(v: View, spec: Spec, prev: seq<Condition>, env: Env, requeueTime: int)
    requires Untouched(v) && v.dspaReady.None?
    requires !(Blocks(v.databaseAvailable) || Blocks(v.objStoreAvailable) || Blocks(v.webhookReady))
    ensures var o := ValidateAndDeploy(v, spec, prev, env, requeueTime);
      && o.view.dspaReady.None?
      && (OthersReady(o.view) && EarlyReady(o.view) && LateReady(o.view) <==> o.stage.Complete? && AllPassable(env))
  {
    var verdict := Judge(spec.pipelines, env.fetched);
    var v1 := v.(managedPipelineValid := FindingCondition(verdict.finding, env.clock(Blocked)));
    if verdict.proceed {
      DeployReady(v1, env);
    } else {
      PreserveTouchesOnlyComponents(v1, prev, POST_VALIDATION);
    }
  }

  lemma ComponentsReady(v: View, spec: Spec, prev: seq<Condition>, env: Env, requeueTime: int)
    requires Untouched(v) && v.dspaReady.None? && Blocks(v.webhookReady)
    requires !(Blocks(v.databaseAvailable) || Blocks(v.objStoreAvailable))
    ensures var o := Components(v, spec, prev, env, requeueTime);
      && o.view.dspaReady.None?
      && (OthersReady(o.view) && EarlyReady(o.view) && LateReady(o.view) <==> o.stage.Complete? && AllPassable(env))
  {
    if env.common {
      var at := env.clock(Webhook);
      if !spec.kubernetes {
        ValidateAndDeployReady(v.(webhookReady := BuildFalseCondition(WebhookReady, NotApplicable, "", at)), spec,
                               prev, env, requeueTime);
      } else if env.webhook.None? && env.webhookDeployment.WebhookUp? {
        ValidateAndDeployReady(
          v.(webhookReady := BuildTrueCondition(WebhookReady, "up", at)), spec, prev, env, requeueTime);
      }
    }
  }

  lemma OverallMeansAllReady(v: View, now: int)
    requires v.dspaReady.None?
    ensures Overall(v, now).status.ConditionTrue? <==> OthersReady(v) && EarlyReady(v) && LateReady(v)
  {
  }

  lemma LivePassReady(v: View, spec: Spec, prev: seq<Condition>, env: Env, requeueTime: int, now: int)
    requires Untouched(v) && v.dspaReady.None? && Blocks(v.webhookReady)
    ensures var o := LivePass(v, spec, prev, env, requeueTime);
      Overall(o.view, now).status.ConditionTrue? <==> o.stage.Complete? && AllPassable(env)
  {
    var o := LivePass(v, spec, prev, env, requeueTime);
    if env.databaseProbe.Up? && env.storageProbe.Up? {
      ComponentsReady(v.(databaseAvailable := ProbedDatabase(env), objStoreAvailable := ProbedStorage(env)), spec,
                      prev, env, requeueTime);
    }
    if o.view.dspaReady.None? {
      OverallMeansAllReady(o.view, now);
    }
  }

  /**
   Ready is reported exactly when this reconcile got through every step and each component is served,
   disabled, or had its readiness check fail.
   */
  lemma ReadyExactly(spec: Spec, prev: seq<Condition>, env: Env, requeueTime: int, now: int)
    ensures var o := Pass(spec, prev, env, requeueTime);
      Overall(o.view, now).status.ConditionTrue? <==> Applied(spec, env) && AllPassable(env)
  {
    StagesFollowInputs(spec, prev, env, requeueTime);
    var v := InitialView(env.clock(Rejected));
    LivePassReady(v, spec, prev, env, requeueTime, now);
    OverallMeansAllReady(v, now);
  }

  predicate AllGenuine(env: Env) {
    && Genuine(APIServerReady, env) && Genuine(PersistenceAgentReady, env) && Genuine(ScheduledWorkflowReady, env)
    && Genuine(WorkflowControllerReady, env) && Genuine(MLMDProxyReady, env)
  }

  /** What the CRD schema asks of every condition in a status write. */
  predicate SchemaAccepts(cs: seq<Condition>) {
    forall c <- cs :: c.t != NoType && c.status != ConditionBlank && c.reason != NoReason
  }

  function Slot(v: View, t: CType): Condition {
    match t
    case APIServerReady => v.apiServerReady
    case PersistenceAgentReady => v.persistenceAgentReady
    case ScheduledWorkflowReady => v.scheduledWorkflowReady
    case WorkflowControllerReady => v.workflowControllerReady
    case _ => v.mlmdProxyReady
  }

  lemma CompleteDeploy(v: View, env: Env, t: CType)
    requires Deploy(v, env).stage.Complete? && t in POST_VALIDATION && Unread(t, env)
    ensures Slot(Deploy(v, env).view, t) == BLANK
  {
  }

  lemma CompletePass(spec: Spec, prev: seq<Condition>, env: Env, requeueTime: int, t: CType)
    requires Pass(spec, prev, env, requeueTime).stage.Complete? && t in POST_VALIDATION && Unread(t, env)
    ensures Slot(Pass(spec, prev, env, requeueTime).view, t) == BLANK
  {
    forall v | Deploy(v, env).stage.Complete? ensures Slot(Deploy(v, env).view, t) == BLANK {
      CompleteDeploy(v, env, t);
    }
  }

  lemma BlankIsRejected(v: View, t: CType, seen: seq<Condition>, generation: int, now: int)
    requires t in POST_VALIDATION && Slot(v, t) == BLANK
    ensures !SchemaAccepts(ConditionsOf(v, seen, generation, now))
  {
    var cs := ConditionsOf(v, seen, generation, now);
    var i := match t case APIServerReady => 2 case PersistenceAgentReady => 3 case ScheduledWorkflowReady => 4
      case WorkflowControllerReady => 5 case _ => 6;
    assert v.Components()[i] == BLANK;
    assert cs[i] == Carry(seen, generation, BLANK) && cs[i] in cs;
  }

  lemma PassableIsGenuineOrUnread(env: Env)
    requires AllPassable(env)
    ensures !AllGenuine(env) <==> exists t <- POST_VALIDATION :: Unread(t, env)
  {
    assert POST_VALIDATION[0] == APIServerReady && POST_VALIDATION[1] == PersistenceAgentReady
      && POST_VALIDATION[2] == ScheduledWorkflowReady && POST_VALIDATION[3] == WorkflowControllerReady
      && POST_VALIDATION[4] == MLMDProxyReady;
  }

  /**
   Ready can be hollow, reported although a component was not seen to be served, exactly when a
   readiness check failed and everything else is in order; such conditions never pass the CRD schema, so
   they reach the metrics but not the stored status.
   */
  lemma HollowReadyExactly(spec: Spec, prev: seq<Condition>, env: Env, requeueTime: int, seen: seq<Condition>,
                           generation: int, now: int)
    ensures var o := Pass(spec, prev, env, requeueTime);
      var hollow := Overall(o.view, now).status.ConditionTrue? && !AllGenuine(env);
      && (hollow <==> Applied(spec, env) && AllPassable(env) && exists t <- POST_VALIDATION :: Unread(t, env))
      && (hollow ==> !SchemaAccepts(ConditionsOf(o.view, seen, generation, now)))
  {
    ReadyExactly(spec, prev, env, requeueTime, now);
    StagesFollowInputs(spec, prev, env, requeueTime);
    if AllPassable(env) { PassableIsGenuineOrUnread(env); }
    var o := Pass(spec, prev, env, requeueTime);
    if o.stage.Complete? {
      if t :| t in POST_VALIDATION && Unread(t, env) {
        CompletePass(spec, prev, env, requeueTime, t);
        BlankIsRejected(o.view, t, seen, generation, now);
      }
    }
  }

  /** One unreadable deployment is enough for a hollow Ready. */
  lemma ReadyWithoutApiServer(prev: seq<Condition>, requeueTime: int, now: int)
    ensures var spec, up := Spec(true, false, true, false, []), Found(false, true, None, None, PodsFine);
      var env := SomeEnv(t => if t == APIServerReady then Unreadable else up);
      && Overall(Pass(spec, prev, env, requeueTime).view, now).status.ConditionTrue?
      && !Serves(env.deployments(APIServerReady))
  {
    var spec, up := Spec(true, false, true, false, []), Found(false, true, None, None, PodsFine);
    var env := SomeEnv(t => if t == APIServerReady then Unreadable else up);
    assert Applied(spec, env) && AllPassable(env);
    ReadyExactly(spec, prev, env, requeueTime, now);
  }

  /** Ready in an accepted status write means: every step succeeded and every component is served or disabled. */
  lemma StoredReadyIsEarned(spec: Spec, prev: seq<Condition>, env: Env, requeueTime: int, seen: seq<Condition>,
                            generation: int, now: int)
    ensures var o := Pass(spec, prev, env, requeueTime);
      var cs := ConditionsOf(o.view, seen, generation, now);
      SchemaAccepts(cs) && Last(cs).status.ConditionTrue? ==> Applied(spec, env) && AllGenuine(env)
  {
    ReadyExactly(spec, prev, env, requeueTime, now);
    HollowReadyExactly(spec, prev, env, requeueTime, seen, generation, now);
  }

  // --------------------------------------------------------------------- retries

  /** The conditions of a status write: refreshed first, skipped for a DSPA that is being deleted. */
  datatype Refresh = NoAnswer | Snapshot(conditions: seq<Condition>, generation: int, deleting: bool)

  method UpdateStatus(s: DspaStatus, refresh: Refresh, now: int, accepted: bool)
    returns (stored: Option<seq<Condition>>)
    modifies s.dspa
    ensures refresh.Snapshot? ==>
              s.dspa.conditions == refresh.conditions && s.dspa.generation == refresh.generation
                  && s.dspa.deleting == refresh.deleting
    ensures refresh.NoAnswer? ==> unchanged(s.dspa)
    ensures var cs := ConditionsOf(s.view, s.dspa.conditions, s.dspa.generation, now);
      stored == if !s.dspa.deleting && accepted && SchemaAccepts(cs) then Some(cs) else None
  {
    if refresh.Snapshot? {
      s.dspa.conditions, s.dspa.generation, s.dspa.deleting := refresh.conditions, refresh.generation, refresh.deleting;
    }
    if s.dspa.deleting {
      return None;
    }
    var conditions := s.GetConditions(now);
    if accepted && SchemaAccepts(conditions) {
      return Some(conditions);
    }
    return None;
  }

  /** The reconcile ends for good: all applied with nothing transient, or validation blocks it. */
  predicate Settled(spec: Spec, env: Env) {
    || (Applied(spec, env) && (spec.pipelines == [] || !env.fetched.Transient?))
    || ValidationBlocks(spec, env)
  }

  /** The status says that validation failed permanently. */
  predicate SaysInvalid(v: View) {
    v.managedPipelineValid.status.ConditionFalse? && v.managedPipelineValid.reason == ManagedPipelineInvalid
  }

  lemma DeployNeverBlocks(v: View, env: Env)
    ensures var o := Deploy(v, env);
      !o.stage.Blocked? && (o.stage.Complete? <==> !Retries(o.ret)) && (!Retries(o.ret) ==> o.ret == DONE)
  {
  }

  lemma ValidateAndDeployRetries(v: View, spec: Spec, prev: seq<Condition>, env: Env, requeueTime: int)
    requires requeueTime > 0
    ensures var o := ValidateAndDeploy(v, spec, prev, env, requeueTime);
      && (!Retries(o.ret) <==>
            !Proceeds(spec, env) || (ComponentsApply(env) && (spec.pipelines == [] || !env.fetched.Transient?)))
      && (!Proceeds(spec, env) ==> SaysInvalid(o.view))
  {
    var verdict := Judge(spec.pipelines, env.fetched);
    var v1 := v.(managedPipelineValid := FindingCondition(verdict.finding, env.clock(Blocked)));
    ProceedsMeansJudged(spec, env);
    DeployNeverBlocks(v1, env);
    DeployCompletes(v1, env);
    PreserveTouchesOnlyComponents(v1, prev, POST_VALIDATION);
  }

  /**
   With a positive requeue time, a live DSPA is left alone exactly when its reconcile settled; if blocked, its
   status says why.
   */
  lemma NoRetryExactlyWhenSettled(spec: Spec, prev: seq<Condition>, env: Env, requeueTime: int)
    requires spec.supported && !spec.deleting && requeueTime > 0
    ensures var o := Pass(spec, prev, env, requeueTime);
      && (!Retries(o.ret) <==> Settled(spec, env))
      && (ValidationBlocks(spec, env) ==> SaysInvalid(o.view))
  {
    forall v { ValidateAndDeployRetries(v, spec, prev, env, requeueTime); }
  }

  lemma ValidateAndDeployLoses(v: View, spec: Spec, prev: seq<Condition>, env: Env, requeueTime: int)
    ensures var o := ValidateAndDeploy(v, spec, prev, env, requeueTime);
      !Retries(o.ret) <==>
        || !Proceeds(spec, env)
        || (ComponentsApply(env) && (requeueTime <= 0 || spec.pipelines == [] || !env.fetched.Transient?))
  {
    var verdict := Judge(spec.pipelines, env.fetched);
    var v1 := v.(managedPipelineValid := FindingCondition(verdict.finding, env.clock(Blocked)));
    ProceedsMeansJudged(spec, env);
    DeployNeverBlocks(v1, env);
    DeployCompletes(v1, env);
  }

  /**
   A live reconcile that is not settled loses its retry exactly when the requeue time is not positive and it
   waits for the webhook deployment or for the manifest; every other retry does not need the time.
   */
  lemma RetryIsLostExactlyWhen(spec: Spec, prev: seq<Condition>, env: Env, requeueTime: int)
    requires spec.supported && !spec.deleting
    ensures !Retries(Pass(spec, prev, env, requeueTime).ret) && !Settled(spec, env) <==>
            requeueTime <= 0 && (WaitsForWebhook(spec, env) || WaitsForManifest(spec, env))
  {
    forall v { ValidateAndDeployLoses(v, spec, prev, env, requeueTime); }
  }

  /** Two such reconciles. */
  lemma WaitsAreForgotten(prev: seq<Condition>, requeueTime: int)
    requires requeueTime <= 0
    ensures var spec := Spec(true, false, true, true, []);
      var env := SomeEnv(_ => Unreadable).(webhookDeployment := WebhookNotThere);
      !Settled(spec, env) && !Retries(Pass(spec, prev, env, requeueTime).ret)
    ensures var spec, env := Spec(true, false, true, false, ["p"]), SomeEnv(_ => Unreadable);
      !Settled(spec, env) && !Retries(Pass(spec, prev, env, requeueTime).ret)
  {
    var spec, env := Spec(true, false, true, true, []), SomeEnv(_ => Unreadable);
    RetryIsLostExactlyWhen(spec, prev, env.(webhookDeployment := WebhookNotThere), requeueTime);
    RetryIsLostExactlyWhen(Spec(true, false, true, false, ["p"]), prev, env, requeueTime);
  }

  /** So a positive requeue time is exactly what it takes to keep every retry. */
  lemma RetriesAreKeptExactlyWhenPositive(requeueTime: int)
    ensures (forall spec: Spec, prev, env | spec.supported && !spec.deleting ::
               Retries(Pass(spec, prev, env, requeueTime).ret) || Settled(spec, env)) <==>
            requeueTime > 0
  {
    if requeueTime > 0 {
      forall spec: Spec, prev, env | spec.supported && !spec.deleting
        ensures Retries(Pass(spec, prev, env, requeueTime).ret) || Settled(spec, env)
      {
        RetryIsLostExactlyWhen(spec, prev, env, requeueTime);
      }
    } else {
      WaitsAreForgotten([], requeueTime);
    }
  }
}
