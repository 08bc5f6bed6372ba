/** Consecutive reconciles that validation blocks: the components behind the block keep their conditions. */
module BlockedRuns {
  import opened Prelude
  import opened Manifest
  import opened Conditions
  import opened ReconcilePass
  import opened PassProperties

  /** One reconcile and whether its status write was accepted. */
  datatype Reconciled = Reconciled(spec: Spec, env: Env, requeueTime: int, generation: int, now: int, stored: bool)

  function OutcomeOf(stored: seq<Condition>, p: Reconciled): Outcome {
    Pass(p.spec, stored, p.env, p.requeueTime)
  }

  /** The stored conditions after one reconcile, when nobody else writes the status. */
  function After(stored: seq<Condition>, p: Reconciled): seq<Condition> {
    if p.stored then ConditionsOf(OutcomeOf(stored, p).view, stored, p.generation, p.now) else stored
  }

  function AfterAll(stored: seq<Condition>, ps: seq<Reconciled>): seq<Condition> {
    if ps == [] then stored else After(AfterAll(stored, Init(ps)), Last(ps))
  }

  predicate AllBlocked(ps: seq<Reconciled>) {
    forall i | 0 <= i < |ps| :: ValidationBlocks(ps[i].spec, ps[i].env)
  }

  /** At most one condition of each type. */
  predicate Unique(cs: seq<Condition>) {
    forall i, j | 0 <= i < j < |cs| :: cs[i].t != cs[j].t
  }

  /** Equal but for the observed generation. */
  predicate SameReport(c: Condition, d: Condition) {
    c.(generation := 0) == d.(generation := 0)
  }

  /** `now` reports what `was` reported, or Unknown if there was nothing. */
  predicate Keeps(was: Option<Condition>, now: Option<Condition>) {
    match was
    case Some(c) => now.Some? && SameReport(now.value, c)
    case None =>
      || now.None?
      || (now.value.status.ConditionUnknown? && now.value.reason == UnknownReason && now.value.message == "")
  }

  // ------------------------------------------------------------------- lookups

  lemma {:induction false} PreviousIsUnique(cs: seq<Condition>, i: int)
    requires Unique(cs) && 0 <= i < |cs|
    ensures Previous(cs, cs[i].t) == Some(cs[i])
  {
    if i < |cs| - 1 {
      PreviousIsUnique(Init(cs), i);
    }
  }

  lemma {:induction false} FirstIsPrevious(cs: seq<Condition>, t: CType)
    requires Unique(cs) && t != NoType
    ensures var c := GetConditionByType(t, cs);
      Previous(cs, t) == if c.t == t then Some(c) else None
  {
    if cs != [] {
      FirstIsPrevious(cs[1..], t);
      if cs[0].t == t {
        PreviousIsUnique(cs, 0);
      } else {
        PreviousSkipsHead(cs, t);
      }
    }
  }

  lemma {:induction false} PreviousSkipsHead(cs: seq<Condition>, t: CType)
    requires cs != [] && cs[0].t != t
    ensures Previous(cs, t) == Previous(cs[1..], t)
  {
    if |cs| > 1 {
      PreviousSkipsHead(Init(cs), t);
      assert Init(cs)[1..] == Init(cs[1..]);
    }
  }

  // ---------------------------------------------------------- one blocked reconcile

  /** Every slot holds a condition of its own type. */
  predicate WellTyped(v: View) {
    && v.databaseAvailable.t.DatabaseAvailable? && v.objStoreAvailable.t.ObjectStoreAvailable?
    && v.apiServerReady.t.APIServerReady? && v.persistenceAgentReady.t.PersistenceAgentReady?
    && v.scheduledWorkflowReady.t.ScheduledWorkflowReady? && v.workflowControllerReady.t.WorkflowControllerReady?
    && v.mlmdProxyReady.t.MLMDProxyReady? && v.webhookReady.t.WebhookReady?
    && v.managedPipelineValid.t.ManagedPipelineValid? && v.dspaReady.None?
  }

  /** The components have not been looked at in this reconcile. */
  predicate Fresh(v: View) {
    WellTyped(v) && forall t <- POST_VALIDATION ::
      Slot(v, t).status.ConditionUnknown? && Slot(v, t).reason == UnknownReason && Slot(v, t).message == ""
  }

  lemma SlotAfter(v: View, x: CType, c: Condition, t: CType)
    requires WellTyped(v) && x in POST_VALIDATION && t in POST_VALIDATION && c.t == x
    ensures WellTyped(WithComponent(v, x, c))
    ensures Slot(WithComponent(v, x, c), t) == if t == x then c else Slot(v, t)
  {
  }

  lemma {:induction false} PreserveSlots(v: View, prev: seq<Condition>, ts: seq<CType>, t: CType)
    requires WellTyped(v) && t in POST_VALIDATION && forall x <- ts :: x in POST_VALIDATION
    ensures var v', p := Preserve(v, prev, ts), GetConditionByType(t, prev);
      WellTyped(v') && Slot(v', t) == if t in ts && p.t == t then p else Slot(v, t)
  {
    if ts != [] {
      assert Last(ts) in ts && forall x <- Init(ts) :: x in ts;
      assert t in ts <==> t in Init(ts) || t == Last(ts);
      PreserveSlots(v, prev, Init(ts), t);
      var x := Last(ts);
      var p := GetConditionByType(x, prev);
      if p.t == x {
        SlotAfter(Preserve(v, prev, Init(ts)), x, p, t);
      }
    }
  }

  lemma BlockedDeploy(v: View, spec: Spec, prev: seq<Condition>, env: Env, requeueTime: int)
    requires Fresh(v) && !Proceeds(spec, env)
    ensures BlockedFrom(ValidateAndDeploy(v, spec, prev, env, requeueTime).view, prev)
  {
    var v1 := v.(managedPipelineValid :=
                 FindingCondition(Judge(spec.pipelines, env.fetched).finding, env.clock(Blocked)));
    ProceedsMeansJudged(spec, env);
    assert Fresh(v1) by { assert forall t <- POST_VALIDATION :: Slot(v1, t) == Slot(v, t); }
  }

  /** The view comes from restoring previous conditions over fresh ones. */
  ghost predicate BlockedFrom(v: View, prev: seq<Condition>) {
    exists v1 :: Fresh(v1) && v == Preserve(v1, prev, POST_VALIDATION)
  }

  lemma BlockedPass(stored: seq<Condition>, p: Reconciled)
    requires ValidationBlocks(p.spec, p.env)
    ensures BlockedFrom(OutcomeOf(stored, p).view, stored)
  {
    var v := InitialView(p.env.clock(Rejected));
    var v1 := v.(databaseAvailable := ProbedDatabase(p.env), objStoreAvailable := ProbedStorage(p.env));
    var now := p.env.clock(Webhook);
    var w := v1.(webhookReady := if p.spec.kubernetes then BuildTrueCondition(WebhookReady, "up", now)
                                 else BuildFalseCondition(WebhookReady, NotApplicable, "", now));
    assert OutcomeOf(stored, p) == ValidateAndDeploy(w, p.spec, stored, p.env, p.requeueTime);
    BlockedDeploy(w, p.spec, stored, p.env, p.requeueTime);
  }

  lemma ReportedTypes(v: View, prev: seq<Condition>, generation: int, now: int)
    requires WellTyped(v)
    ensures Unique(ConditionsOf(v, prev, generation, now))
  {
  }

  lemma ReportedSlot(v: View, prev: seq<Condition>, generation: int, now: int, t: CType)
    requires WellTyped(v) && t in POST_VALIDATION
    ensures Previous(ConditionsOf(v, prev, generation, now), t) == Some(Carry(prev, generation, Slot(v, t)))
  {
    ReportedTypes(v, prev, generation, now);
    var i := match t case APIServerReady => 2 case PersistenceAgentReady => 3 case ScheduledWorkflowReady => 4
      case WorkflowControllerReady => 5 case _ => 6;
    assert v.Components()[i] == Slot(v, t);
    PreviousIsUnique(ConditionsOf(v, prev, generation, now), i);
  }

  lemma BlockedKeepsOne(stored: seq<Condition>, p: Reconciled, t: CType)
    requires Unique(stored) && t in POST_VALIDATION && p.stored && ValidationBlocks(p.spec, p.env)
    ensures Unique(After(stored, p))
    ensures Previous(After(stored, p), t).Some? && Keeps(Previous(stored, t), Previous(After(stored, p), t))
  {
    BlockedPass(stored, p);
    var v := OutcomeOf(stored, p).view;
    var v1 :| Fresh(v1) && v == Preserve(v1, stored, POST_VALIDATION);
    PreserveSlots(v1, stored, POST_VALIDATION, t);
    ReportedTypes(v, stored, p.generation, p.now);
    ReportedSlot(v, stored, p.generation, p.now, t);
    FirstIsPrevious(stored, t);
  }

  /**
   Over any number of consecutive blocked reconciles, the components behind the block keep the status,
   reason, message and transition time they had before; those without a condition show Unknown.
   */
  lemma {:induction false} BlockedRunsPreserve(stored: seq<Condition>, ps: seq<Reconciled>, t: CType)
    requires Unique(stored) && t in POST_VALIDATION && AllBlocked(ps)
    ensures Unique(AfterAll(stored, ps))
    ensures Keeps(Previous(stored, t), Previous(AfterAll(stored, ps), t))
  {
    if ps != [] {
      var before := AfterAll(stored, Init(ps));
      BlockedRunsPreserve(stored, Init(ps), t);
      if Last(ps).stored {
        BlockedKeepsOne(before, Last(ps), t);
      }
    }
  }
}
