/** The status of one reconcile: nine component conditions and the overall Ready they add up to. */
module Conditions {
  import opened Prelude

  /** The condition types; a condition that was never filled in has none. */
  datatype CType =
    | DatabaseAvailable | ObjectStoreAvailable | APIServerReady | PersistenceAgentReady | ScheduledWorkflowReady
    | WorkflowControllerReady | MLMDProxyReady | WebhookReady | ManagedPipelineValid | CrReady
    | NoType

  datatype Truth = ConditionTrue | ConditionFalse | ConditionUnknown | ConditionBlank

  datatype Reason =
    | MinimumReplicasAvailable | FailingToDeploy | Deploying | ComponentDeploymentNotFound | UnsupportedVersion
    | ManagedPipelineInvalid | ManagedPipelinesFetchError | NotApplicable | UnknownReason
    | NamedAfter(t: CType)
    | NoReason

  /** `since` is the last transition time. */
  datatype Condition = Condition(t: CType, status: Truth, reason: Reason, message: string, since: int, generation: int)

  /** The zero value of a condition. */
  const BLANK: Condition := Condition(NoType, ConditionBlank, NoReason, "", 0, 0)

  function BuildTrueCondition(t: CType, message: string, now: int): Condition {
    Condition(t, ConditionTrue, NamedAfter(t), message, now, 0)
  }

  function BuildFalseCondition(t: CType, reason: Reason, message: string, now: int): Condition {
    Condition(t, ConditionFalse, reason, message, now, 0)
  }

  function BuildUnknownCondition(t: CType, now: int): Condition {
    Condition(t, ConditionUnknown, UnknownReason, "", now, 0)
  }

  predicate IsNonBlockingReason(r: Reason) {
    r == NotApplicable || r == ManagedPipelinesFetchError
  }

  /** The condition keeps the DSPA from being ready; a blank condition does not. */
  predicate Blocks(c: Condition) {
    (c.status == ConditionFalse || c.status == ConditionUnknown) && !IsNonBlockingReason(c.reason)
  }

  /** The component conditions in reporting order, and the overall condition if it was set explicitly. */
  datatype View = View(
    databaseAvailable: Condition,
    objStoreAvailable: Condition,
    apiServerReady: Condition,
    persistenceAgentReady: Condition,
    scheduledWorkflowReady: Condition,
    workflowControllerReady: Condition,
    mlmdProxyReady: Condition,
    webhookReady: Condition,
    managedPipelineValid: Condition,
    dspaReady: Option<Condition>)
  {
    function Components(): seq<Condition> {
      [databaseAvailable, objStoreAvailable, apiServerReady, persistenceAgentReady, scheduledWorkflowReady,
       workflowControllerReady, mlmdProxyReady, webhookReady, managedPipelineValid]
    }

    predicate AllReady() {
      !(Blocks(databaseAvailable) || Blocks(objStoreAvailable) || Blocks(apiServerReady)
        || Blocks(persistenceAgentReady) || Blocks(scheduledWorkflowReady) || Blocks(workflowControllerReady)
        || Blocks(mlmdProxyReady) || Blocks(webhookReady) || Blocks(managedPipelineValid))
    }
  }

  function InitialView(now: int): View {
    View(BuildUnknownCondition(DatabaseAvailable, now), BuildUnknownCondition(ObjectStoreAvailable, now),
         BuildUnknownCondition(APIServerReady, now), BuildUnknownCondition(PersistenceAgentReady, now),
         BuildUnknownCondition(ScheduledWorkflowReady, now), BuildUnknownCondition(WorkflowControllerReady, now),
         BuildUnknownCondition(MLMDProxyReady, now), BuildUnknownCondition(WebhookReady, now),
         BuildUnknownCondition(ManagedPipelineValid, now), None)
  }

  function FailureMessages(cs: seq<Condition>): string {
    if cs == [] then ""
    else FailureMessages(Init(cs)) + if Blocks(Last(cs)) then Last(cs).message + " \n" else ""
  }

  function Overall(v: View, now: int): Condition {
    if v.dspaReady.Some? then v.dspaReady.value
    else if v.AllReady() then
      Condition(CrReady, ConditionTrue, MinimumReplicasAvailable, "ready", now, 0)
    else
      Condition(CrReady, ConditionFalse, MinimumReplicasAvailable, FailureMessages(v.Components()), now, 0)
  }

  /** The last listed condition of a type. */
  function Previous(prev: seq<Condition>, t: CType): (r: Option<Condition>)
    ensures r.Some? ==> r.value.t == t && r.value in prev
  {
    if prev == [] then None
    else if Last(prev).t == t then Some(Last(prev))
    else Previous(Init(prev), t)
  }

  /** The transition time survives from the previous condition of the type if the status is the same. */
  function Carry(prev: seq<Condition>, generation: int, c: Condition): Condition {
    var p := Previous(prev, c.t);
    c.(generation := generation, since := if p.Some? && p.value.status == c.status then p.value.since else c.since)
  }

  function CarryAll(prev: seq<Condition>, generation: int, cs: seq<Condition>): (r: seq<Condition>)
    ensures |r| == |cs|
    ensures forall i | 0 <= i < |cs| :: r[i] == Carry(prev, generation, cs[i])
  {
    seq(|cs|, i requires 0 <= i < |cs| => Carry(prev, generation, cs[i]))
  }

  function ConditionsOf(v: View, prev: seq<Condition>, generation: int, now: int): seq<Condition> {
    CarryAll(prev, generation, v.Components() + [Overall(v, now)])
  }

  /** The DSPA object a reconcile holds; refreshing it replaces these fields in place. */
  class DspaObject {
    var conditions: seq<Condition>
    var generation: int
    var deleting: bool

    constructor (conditions: seq<Condition>, generation: int, deleting: bool)
      ensures this.conditions == conditions && this.generation == generation && this.deleting == deleting
    {
      this.conditions, this.generation, this.deleting := conditions, generation, deleting;
    }
  }

  /** Each setter takes the clock reading that the condition is stamped with. */
  class DspaStatus {
    const dspa: DspaObject
    var view: View

    constructor (dspa: DspaObject, now: int)
      ensures this.dspa == dspa && view == InitialView(now)
    {
      this.dspa := dspa;
      view := InitialView(now);
    }

    method SetDatabaseNotReady(message: string, reason: Reason, now: int)
      modifies this
      ensures view == old(view).(databaseAvailable := BuildFalseCondition(DatabaseAvailable, reason, message, now))
    {
      view := view.(databaseAvailable := BuildFalseCondition(DatabaseAvailable, reason, message, now));
    }

    method SetDatabaseReady(now: int)
      modifies this
      ensures view == old(view).(databaseAvailable :=
                BuildTrueCondition(DatabaseAvailable, "up", now))
    {
      view := view.(databaseAvailable :=
        BuildTrueCondition(DatabaseAvailable, "up", now));
    }

    method SetObjStoreNotReady(message: string, reason: Reason, now: int)
      modifies this
      ensures view == old(view).(objStoreAvailable := BuildFalseCondition(ObjectStoreAvailable, reason, message, now))
    {
      view := view.(objStoreAvailable := BuildFalseCondition(ObjectStoreAvailable, reason, message, now));
    }

    method SetObjStoreReady(now: int)
      modifies this
      ensures view == old(view).(objStoreAvailable :=
                BuildTrueCondition(ObjectStoreAvailable, "up", now))
    {
      view := view.(objStoreAvailable :=
        BuildTrueCondition(ObjectStoreAvailable, "up", now));
    }

    method SetWebhookReady(now: int)
      modifies this
      ensures view == old(view).(webhookReady :=
                BuildTrueCondition(WebhookReady, "up", now))
    {
      view := view.(webhookReady := BuildTrueCondition(WebhookReady, "up", now));
    }

    method SetWebhookNotReady(message: string, reason: Reason, now: int)
      modifies this
      ensures view == old(view).(webhookReady := BuildFalseCondition(WebhookReady, reason, message, now))
    {
      view := view.(webhookReady := BuildFalseCondition(WebhookReady, reason, message, now));
    }

    /** The component setters that take a whole condition. */
    method SetStatus(t: CType, c: Condition)
      requires t in POST_VALIDATION
      modifies this
      ensures view == WithComponent(old(view), t, c)
    {
      match t
      case APIServerReady => view := view.(apiServerReady := c);
      case PersistenceAgentReady => view := view.(persistenceAgentReady := c);
      case ScheduledWorkflowReady => view := view.(scheduledWorkflowReady := c);
      case WorkflowControllerReady => view := view.(workflowControllerReady := c);
      case MLMDProxyReady => view := view.(mlmdProxyReady := c);
    }

    method SetManagedPipeline(c: Condition)
      modifies this
      ensures view == old(view).(managedPipelineValid := c)
    {
      view := view.(managedPipelineValid := c);
    }

    method SetDSPANotReady(message: string, reason: Reason, now: int)
      modifies this
      ensures view == old(view).(dspaReady := Some(BuildFalseCondition(CrReady, reason, message, now)))
    {
      view := view.(dspaReady := Some(BuildFalseCondition(CrReady, reason, message, now)));
    }

    method GetConditions(now: int) returns (conditions: seq<Condition>)
      ensures conditions == ConditionsOf(view, dspa.conditions, dspa.generation, now)
    {
      var componentConditions := view.Components();
      var allReady := true;
      var failureMessages := "";
      for i := 0 to |componentConditions|
        invariant allReady == NoneBlocks(componentConditions[..i])
        invariant failureMessages == FailureMessages(componentConditions[..i])
      {
        var c := componentConditions[i];
        NoneBlocksSnoc(componentConditions[..i], c);
        assert componentConditions[..i + 1] == componentConditions[..i] + [c];
        assert Init(componentConditions[..i + 1]) == componentConditions[..i];
        if (c.status == ConditionFalse || c.status == ConditionUnknown) && !IsNonBlockingReason(c.reason) {
          allReady := false;
          failureMessages := failureMessages + (c.message + " \n");
        }
      }
      assert componentConditions[..|componentConditions|] == componentConditions;
      AllReadyMeansNoneBlocks(view);
      var crReady := view.dspaReady;
      if crReady.None? {
        crReady := Some(
          if allReady
          then Condition(CrReady, ConditionTrue, MinimumReplicasAvailable, "ready", now, 0)
          else Condition(CrReady, ConditionFalse, MinimumReplicasAvailable, failureMessages, now, 0));
      }
      var built := componentConditions + [crReady.value];
      conditions := RestoreTransitionTimes(built);
    }

    method RestoreTransitionTimes(built: seq<Condition>) returns (conditions: seq<Condition>)
      ensures conditions == CarryAll(dspa.conditions, dspa.generation, built)
    {
      var previous: map<CType, Condition> := map[];
      var prev := dspa.conditions;
      for i := 0 to |prev|
        invariant forall t :: Previous(prev[..i], t) == if t in previous then Some(previous[t]) else None
      {
        assert Init(prev[..i + 1]) == prev[..i];
        previous := previous[prev[i].t := prev[i]];
      }
      assert prev[..|prev|] == prev;
      conditions := built;
      for i := 0 to |built|
        invariant |conditions| == |built|
        invariant forall j | 0 <= j < i :: conditions[j] == Carry(prev, dspa.generation, built[j])
        invariant forall j | i <= j < |built| :: conditions[j] == built[j]
      {
        var c := conditions[i].(generation := dspa.generation);
        if c.t in previous && previous[c.t].status == c.status {
          c := c.(since := previous[c.t].since);
        }
        conditions := conditions[i := c];
      }
    }
  }

  /** The components reconciled after managed-pipeline validation. */
  const POST_VALIDATION: seq<CType> :=
    [APIServerReady, PersistenceAgentReady, ScheduledWorkflowReady, WorkflowControllerReady, MLMDProxyReady]

  function WithComponent(v: View, t: CType, c: Condition): View {
    match t
    case APIServerReady => v.(apiServerReady := c)
    case PersistenceAgentReady => v.(persistenceAgentReady := c)
    case ScheduledWorkflowReady => v.(scheduledWorkflowReady := c)
    case WorkflowControllerReady => v.(workflowControllerReady := c)
    case MLMDProxyReady => v.(mlmdProxyReady := c)
    case _ => v
  }

  predicate NoneBlocks(cs: seq<Condition>) {
    forall c <- cs :: !Blocks(c)
  }

  lemma NoneBlocksSnoc(cs: seq<Condition>, c: Condition)
    ensures NoneBlocks(cs + [c]) <==> NoneBlocks(cs) && !Blocks(c)
  {
    assert forall x <- cs :: x in cs + [c];
    assert c in cs + [c];
  }

  lemma AllReadyMeansNoneBlocks(v: View)
    ensures v.AllReady() <==> NoneBlocks(v.Components())
  {
    var cs := v.Components();
    assert cs[0] in cs && cs[1] in cs && cs[2] in cs && cs[3] in cs && cs[4] in cs;
    assert cs[5] in cs && cs[6] in cs && cs[7] in cs && cs[8] in cs;
  }
}
