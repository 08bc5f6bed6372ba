/** What a reconcile publishes as the validation reason. */
module VerdictMetric {
  import opened Prelude
  import opened Manifest
  import opened Conditions
  import opened ReconcilePass
  import opened PassProperties
  import opened Metrics
  import opened ConditionTable

  predicate IsA(c: Condition, t: CType) {
    c.t == t || c.t == NoType
  }

  /** Every slot holds a condition of its own type or a blank one; the validation slot is never blank. */
  predicate Typed(v: View) {
    && IsA(v.databaseAvailable, DatabaseAvailable) && IsA(v.objStoreAvailable, ObjectStoreAvailable)
    && IsA(v.apiServerReady, APIServerReady) && IsA(v.persistenceAgentReady, PersistenceAgentReady)
    && IsA(v.scheduledWorkflowReady, ScheduledWorkflowReady) && IsA(v.workflowControllerReady, WorkflowControllerReady)
    && IsA(v.mlmdProxyReady, MLMDProxyReady) && IsA(v.webhookReady, WebhookReady)
    && v.managedPipelineValid.t.ManagedPipelineValid?
    && (v.dspaReady.Some? ==> v.dspaReady.value.t.CrReady?)
  }

  ghost predicate KeepsTyped(v: View, w: View) {
    (Typed(v) ==> Typed(w)) && w.managedPipelineValid == v.managedPipelineValid
  }

  lemma WithIsTyped(v: View, t: CType, c: Condition)
    requires t in POST_VALIDATION && IsA(c, t)
    ensures KeepsTyped(v, WithComponent(v, t, c))
  {
  }

  lemma FinishDeployIsTyped(v: View, env: Env)
    ensures KeepsTyped(v, FinishDeploy(v, env).view)
  {
  }

  lemma ObserveIsTyped(v: View, t: CType, stage: Stage, env: Env)
    requires t in POST_VALIDATION
    ensures KeepsTyped(v, Observe(v, t, stage, env))
    ensures forall m :: KeepsTyped(v, Unready(v, t, stage, m, env))
  {
    WithIsTyped(v, t, EvaluateCondition(t, env.deployments(t), env.clock(stage)));
    forall m ensures KeepsTyped(v, Unready(v, t, stage, m, env)) {
      WithIsTyped(v, t, BuildFalseCondition(t, FailingToDeploy, m, env.clock(stage)));
    }
  }

  lemma DeployIsTyped(v: View, env: Env)
    ensures KeepsTyped(v, Deploy(v, env).view)
  {
    assert POST_VALIDATION[0] == APIServerReady && POST_VALIDATION[1] == PersistenceAgentReady
      && POST_VALIDATION[2] == ScheduledWorkflowReady;
    ObserveIsTyped(v, APIServerReady, ApiServer, env);
    if env.apiServer.None? {
      var v1 := Observe(v, APIServerReady, ApiServer, env);
      ObserveIsTyped(v1, PersistenceAgentReady, PersistenceAgent, env);
      if env.persistenceAgent.None? {
        var v2 := Observe(v1, PersistenceAgentReady, PersistenceAgent, env);
        ObserveIsTyped(v2, ScheduledWorkflowReady, ScheduledWorkflow, env);
        if env.scheduledWorkflow.None? {
          FinishDeployIsTyped(Observe(v2, ScheduledWorkflowReady, ScheduledWorkflow, env), env);
        }
      }
    }
  }

  lemma {:induction false} PreserveIsTyped(v: View, prev: seq<Condition>, ts: seq<CType>)
    ensures KeepsTyped(v, Preserve(v, prev, ts))
  {
    if ts != [] {
      PreserveIsTyped(v, prev, Init(ts));
    }
  }

  function Verdict(spec: Spec, env: Env): Condition {
    FindingCondition(Judge(spec.pipelines, env.fetched).finding, env.clock(Blocked))
  }

  lemma ValidationReports(v: View, spec: Spec, prev: seq<Condition>, env: Env, requeueTime: int)
    requires Typed(v)
    ensures var w := ValidateAndDeploy(v, spec, prev, env, requeueTime).view;
      Typed(w) && w.managedPipelineValid == Verdict(spec, env)
  {
    var v1 := v.(managedPipelineValid := Verdict(spec, env));
    PreserveIsTyped(v1, prev, POST_VALIDATION);
    DeployIsTyped(v1, env);
  }

  lemma ComponentsReport(v: View, spec: Spec, prev: seq<Condition>, env: Env, requeueTime: int)
    requires Typed(v)
    ensures var w := Components(v, spec, prev, env, requeueTime).view;
      && Typed(w)
      && w.managedPipelineValid == if env.common
          && WebhookPasses(spec, env) then Verdict(spec, env) else v.managedPipelineValid
  {
    var now := env.clock(Webhook);
    var off := v.(webhookReady := BuildFalseCondition(WebhookReady, NotApplicable, "", now));
    var up := v.(webhookReady := BuildTrueCondition(WebhookReady, "up", now));
    ValidationReports(off, spec, prev, env, requeueTime);
    ValidationReports(up, spec, prev, env, requeueTime);
  }

  lemma PassReports(spec: Spec, prev: seq<Condition>, env: Env, requeueTime: int)
    ensures var w := Pass(spec, prev, env, requeueTime).view;
      && Typed(w)
      && w.managedPipelineValid == if ReachesValidation(spec, env) then Verdict(spec, env)
                                   else BuildUnknownCondition(ManagedPipelineValid, env.clock(Rejected))
  {
    var v := InitialView(env.clock(Rejected));
    var v1 := v.(databaseAvailable := ProbedDatabase(env), objStoreAvailable := ProbedStorage(env));
    ComponentsReport(v1, spec, prev, env, requeueTime);
  }

  lemma ReportedValidation(v: View, prev: seq<Condition>, generation: int, now: int)
    requires Typed(v)
    ensures var c := GetConditionByType(ManagedPipelineValid, ConditionsOf(v, prev, generation, now));
      c == Carry(prev, generation, v.managedPipelineValid)
  {
    var cs := ConditionsOf(v, prev, generation, now);
    FoundAt(cs, 8);
  }

  lemma {:induction false} FoundAt(cs: seq<Condition>, i: nat)
    requires i < |cs| && forall j | 0 <= j < i :: cs[j].t != cs[i].t
    ensures GetConditionByType(cs[i].t, cs) == cs[i]
  {
    if i > 0 {
      FoundAt(cs[1..], i - 1);
    }
  }

  function VerdictText(f: Finding): string {
    match f
    case NothingListed => NOT_APPLICABLE
    case Valid => VALID
    case Invalid => INVALID
    case FetchError => FETCH_ERROR
  }

  lemma VerdictIsListed(f: Finding)
    ensures VerdictText(f) in REASONS
  {
    assert REASONS[match f case NothingListed => 3 case Valid => 0 case Invalid => 1 case FetchError => 2] ==
        VerdictText(f);
  }

  lemma FindingText(f: Finding, now: int)
    ensures Normalized(ReasonText(FindingCondition(f, now).reason)) == VerdictText(f)
  {
    VerdictIsListed(f);
  }

  /**
   Every reconcile can publish its conditions, and the series it makes hot is its own verdict, or UNKNOWN
   when some step before validation kept it from one. So OTHER is never hot.
   */
  lemma PublishedReasonIsVerdict(spec: Spec, prev: seq<Condition>, env: Env, requeueTime: int, generation: int,
                                 now: int)
    ensures var o := Pass(spec, prev, env, requeueTime);
      var cs := ConditionsOf(o.view, prev, generation, now);
      && Validated(cs)
      && Normalized(PublishedReason(cs)) ==
         if ReachesValidation(spec, env) then VerdictText(Judge(spec.pipelines, env.fetched).finding) else UNKNOWN
  {
    var o := Pass(spec, prev, env, requeueTime);
    PassReports(spec, prev, env, requeueTime);
    ReportedValidation(o.view, prev, generation, now);
    FindingText(Judge(spec.pipelines, env.fetched).finding, env.clock(Blocked));
    assert REASONS[4] == UNKNOWN;
  }

  /** The same in terms of what the reconcile meets: the text of the series that reads 1. */
  lemma HotReasonExactly(spec: Spec, prev: seq<Condition>, env: Env, requeueTime: int, generation: int, now: int)
    ensures Normalized(PublishedReason(ConditionsOf(Pass(spec, prev, env, requeueTime).view, prev, generation, now))) ==
      if !ReachesValidation(spec, env) then "Unknown"
      else if spec.pipelines == [] then "NotApplicable"
      else if env.fetched.Transient? then "ManagedPipelinesFetchError"
      else if env.fetched.Fetched? && forall n <- spec.pipelines :: Accepts(env.fetched.value, n)
      then "ManagedPipelineValid"
      else "ManagedPipelineInvalid"
  {
    PublishedReasonIsVerdict(spec, prev, env, requeueTime, generation, now);
    FindingExactly(spec.pipelines, env.fetched);
    ProceedsMeansJudged(spec, env);
  }

  /** Where a component's condition stands in the list that a reconcile reports. */
  lemma ReportedComponent(v: View, t: CType, prev: seq<Condition>, generation: int, now: int)
    requires Typed(v) && t in POST_VALIDATION && Slot(v, t).t == t
    ensures GetConditionByType(t, ConditionsOf(v, prev, generation, now)) == Carry(prev, generation, Slot(v, t))
  {
    var cs := ConditionsOf(v, prev, generation, now);
    FoundAt(cs, match t case APIServerReady => 2 case PersistenceAgentReady => 3 case ScheduledWorkflowReady => 4
                        case WorkflowControllerReady => 5 case _ => 6);
  }

  /**
   After every reconcile a component's gauge reads 1 exactly if the component is served or, where validation
   blocks, was reported True before; and a component that could not be read keeps its gauge only if masked.
   */
  lemma ComponentGaugeExactly(s: Series, s': Series, l: Labels, spec: Spec, prev: seq<Condition>, env: Env,
                              requeueTime: int, generation: int, now: int, i: nat)
    requires var w := Pass(spec, prev, env, requeueTime).view;
      && i < |GAUGES| && GAUGES[i] in POST_VALIDATION && Slot(w, GAUGES[i]).t == GAUGES[i]
      && Next(s, Published(l, ConditionsOf(w, prev, generation, now)), s')
    ensures Lookup(s'.ready, (GAUGES[i], l)) ==
      Some(if ReportsTrue(spec, prev, env, GAUGES[i]) then 1 else 0)
  {
    var t, w := GAUGES[i], Pass(spec, prev, env, requeueTime).view;
    PassReports(spec, prev, env, requeueTime);
    ReportedComponent(w, t, prev, generation, now);
    PublishedGaugeReads(s, s', l, ConditionsOf(w, prev, generation, now), i);
    ComponentTrueExactlyWhen(spec, prev, env, requeueTime, t);
  }

  // -------------------------------------------------------------- gauges left behind

  lemma {:induction false} AbsentIsBlank(t: CType, cs: seq<Condition>)
    requires forall i | 0 <= i < |cs| :: cs[i].t != t
    ensures GetConditionByType(t, cs) == BLANK
  {
    if cs != [] {
      AbsentIsBlank(t, cs[1..]);
    }
  }

  lemma BlankSlotIsReportedBlank(v: View, t: CType, prev: seq<Condition>, generation: int, now: int)
    requires Typed(v) && t in POST_VALIDATION && Slot(v, t) == BLANK
    ensures GetConditionByType(t, ConditionsOf(v, prev, generation, now)) == BLANK
  {
    var cs := ConditionsOf(v, prev, generation, now);
    forall i | 0 <= i < |cs| ensures cs[i].t != t {
      var built := (v.Components() + [Overall(v, now)])[i];
      assert cs[i] == Carry(prev, generation, built);
    }
    AbsentIsBlank(t, cs);
  }

  /** Every reconcile that applies everything reports a blank condition for each component it could not evaluate. */
  lemma UnreadIsReportedBlank(spec: Spec, prev: seq<Condition>, env: Env, requeueTime: int, generation: int, now: int,
                              t: CType)
    requires Applied(spec, env) && t in POST_VALIDATION && Unread(t, env)
    ensures GetConditionByType(t, ConditionsOf(Pass(spec, prev, env, requeueTime).view, prev, generation, now)) == BLANK
  {
    StagesFollowInputs(spec, prev, env, requeueTime);
    CompletePass(spec, prev, env, requeueTime, t);
    PassReports(spec, prev, env, requeueTime);
    BlankSlotIsReportedBlank(Pass(spec, prev, env, requeueTime).view, t, prev, generation, now);
  }

  /**
   When such a reconcile could evaluate neither of two components, the one listed first has its gauge masked,
   so that it keeps reading 1 if that is what it read.
   */
  lemma UnreadIsMasked(spec: Spec, prev: seq<Condition>, env: Env, requeueTime: int, generation: int, now: int, i: nat,
                       j: nat)
    requires Applied(spec, env) && i < j < |GAUGES| && GAUGES[i] in POST_VALIDATION && GAUGES[j] in POST_VALIDATION
    requires Unread(GAUGES[i], env) && Unread(GAUGES[j], env)
    ensures var cs := ConditionsOf(Pass(spec, prev, env, requeueTime).view, prev, generation, now);
      Validated(cs) && Masked(cs, i, j)
  {
    PublishedReasonIsVerdict(spec, prev, env, requeueTime, generation, now);
    UnreadIsReportedBlank(spec, prev, env, requeueTime, generation, now, GAUGES[i]);
    UnreadIsReportedBlank(spec, prev, env, requeueTime, generation, now, GAUGES[j]);
  }

  /** A reconcile in which the API server and MLMD deployments cannot be read. */
  lemma TwoUnreadMask(prev: seq<Condition>, requeueTime: int, generation: int, now: int)
    ensures var spec, up := Spec(true, false, true, false, []), Found(false, true, None, None, PodsFine);
      var env := SomeEnv(t => if t == APIServerReady || t == MLMDProxyReady then Unreadable else up);
      var cs := ConditionsOf(Pass(spec, prev, env, requeueTime).view, prev, generation, now);
      Validated(cs) && Masked(cs, 2, 6)
  {
    var spec, up := Spec(true, false, true, false, []), Found(false, true, None, None, PodsFine);
    var env := SomeEnv(t => if t == APIServerReady || t == MLMDProxyReady then Unreadable else up);
    assert GAUGES[2] == APIServerReady == POST_VALIDATION[0] && GAUGES[6] == MLMDProxyReady == POST_VALIDATION[4];
    UnreadIsMasked(spec, prev, env, requeueTime, generation, now, 2, 6);
  }
}
