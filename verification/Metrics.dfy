/**
 The gauges published about each DSPA: one reading per condition, and a one-hot group of series that says
 which reason managed-pipeline validation gave.
 */
module Metrics {
  import opened Prelude
  import opened Conditions
  import opened ReconcilePass

  datatype Labels = Labels(name: string, namespace: string)

  const VALID: string := "ManagedPipelineValid"
  const INVALID: string := "ManagedPipelineInvalid"
  const FETCH_ERROR: string := "ManagedPipelinesFetchError"
  const NOT_APPLICABLE: string := "NotApplicable"
  const UNKNOWN: string := "Unknown"
  const OTHER: string := "Other"

  const REASONS: seq<string> := [VALID, INVALID, FETCH_ERROR, NOT_APPLICABLE, UNKNOWN, OTHER]

  /** The conditions with a gauge, in the order in which a reconcile lists them; the gauge is named by its condition. */
  const GAUGES: seq<CType> :=
    [DatabaseAvailable, ObjectStoreAvailable, APIServerReady, PersistenceAgentReady, ScheduledWorkflowReady,
     WorkflowControllerReady, MLMDProxyReady, ManagedPipelineValid, CrReady]

  /** The two-label gauges that finalization clears. */
  const ALL_METRICS: seq<CType> :=
    [DatabaseAvailable, ObjectStoreAvailable, APIServerReady, PersistenceAgentReady, ScheduledWorkflowReady,
     WorkflowControllerReady, MLMDProxyReady, CrReady]

  type Ready = map<(CType, Labels), int>
  type Validation = map<(Labels, string), int>

  function Lookup<K, V>(m: map<K, V>, k: K): Option<V> {
    if k in m then Some(m[k]) else None
  }

  /** The text of a validation reason; the reasons that other conditions use all fall under OTHER. */
  function ReasonText(r: Reason): string {
    match r
    case NamedAfter(ManagedPipelineValid) => VALID
    case ManagedPipelineInvalid => INVALID
    case ManagedPipelinesFetchError => FETCH_ERROR
    case NotApplicable => NOT_APPLICABLE
    case UnknownReason => UNKNOWN
    case _ => ""
  }

  function Normalized(reason: string): string {
    if reason in REASONS then reason else OTHER
  }

  function Hot(r: string, reason: string): int {
    if r == Normalized(reason) then 1 else 0
  }

  method NormalizeManagedPipelineValidationReason(reason: string) returns (r: string)
    ensures r == Normalized(reason)
  {
    for i := 0 to |REASONS|
      invariant reason in REASONS[..i] ==> reason == OTHER
    {
      assert REASONS[..i + 1] == REASONS[..i] + [REASONS[i]];
      if reason == REASONS[i] && REASONS[i] != OTHER {
        return reason;
      }
    }
    assert REASONS[..|REASONS|] == REASONS;
    return OTHER;
  }

  function Reading(c: Condition): int {
    if c.status == ConditionTrue then 1 else 0
  }

  // ------------------------------------------------------------------ the registry

  /** Publishing leaves every other series alone and makes this instance's group one-hot. */
  ghost predicate OneHot(after: Validation, before: Validation, l: Labels, reason: string) {
    forall k ::
      Lookup(after, k) == if k.0 == l && k.1 in REASONS then Some(Hot(k.1, reason)) else Lookup(before, k)
  }

  /** The gauge has an entry that is written to it. */
  predicate Lists(metricsMap: map<Condition, CType>, g: CType) {
    exists c <- metricsMap :: c.t != ManagedPipelineValid && metricsMap[c] == g
  }

  /** The gauges that a metrics map writes for an instance, and nothing else, show their condition. */
  ghost predicate Shows(after: Ready, before: Ready, l: Labels, metricsMap: map<Condition, CType>) {
    && (forall c <- metricsMap | c.t != ManagedPipelineValid :: Lookup(after, (metricsMap[c], l)) == Some(Reading(c)))
    && (forall k: (CType, Labels) | !(k.1 == l && Lists(metricsMap, k.0)) :: Lookup(after, k) == Lookup(before, k))
  }

  /** If the map lists the validation condition, its reason becomes the hot one. */
  ghost predicate ShowsReason(after: Validation, before: Validation, l: Labels, metricsMap: map<Condition, CType>) {
    if c :| c in metricsMap && c.t == ManagedPipelineValid
    then forall c <- metricsMap | c.t == ManagedPipelineValid :: OneHot(after, before, l, ReasonText(c.reason))
    else after == before
  }

  /** A condition of the validation type is written through the one-hot group, all others to their own gauge. */
  ghost predicate Writable(metricsMap: map<Condition, CType>) {
    && (forall c, d | c in metricsMap && d in metricsMap && metricsMap[c] == metricsMap[d] :: c == d)
    && (forall c <- metricsMap :: metricsMap[c] == ManagedPipelineValid <==> c.t == ManagedPipelineValid)
    && (forall c <- metricsMap :: metricsMap[c] in GAUGES)
  }

  datatype Series = Series(ready: Ready, validation: Validation)

  /** The listed series of the instance are gone, and all others are as before. */
  ghost predicate Cleared(after: Series, before: Series, l: Labels) {
    && (forall k ::
          Lookup(after.ready, k) == if k.1 == l && k.0 in ALL_METRICS then None else Lookup(before.ready, k))
    && (forall k ::
          Lookup(after.validation, k) == if k.0 == l && k.1 in REASONS then None else Lookup(before.validation, k))
  }

  class Registry {
    var ready: Ready
    var validation: Validation

    constructor ()
      ensures ready == map[] && validation == map[]
    {
      ready, validation := map[], map[];
    }

    method SetManagedPipelineValidMetricByReason(l: Labels, reason: string)
      modifies this`validation
      ensures OneHot(validation, old(validation), l, reason)
    {
      var activeReason := NormalizeManagedPipelineValidationReason(reason);
      for i := 0 to |REASONS|
        invariant forall k ::
          Lookup(validation, k) ==
            if k.0 == l && k.1 in REASONS[..i] then Some(Hot(k.1, reason)) else Lookup(old(validation), k)
      {
        assert REASONS[..i + 1] == REASONS[..i] + [REASONS[i]];
        var value := if REASONS[i] == activeReason then 1 else 0;
        validation := validation[(l, REASONS[i]) := value];
      }
      assert REASONS[..|REASONS|] == REASONS;
    }

    /** One entry of the metrics map. */
    method PublishOne(l: Labels, condition: Condition, metric: CType)
      modifies this
      ensures if condition.t == ManagedPipelineValid
              then ready == old(ready) && OneHot(validation, old(validation), l, ReasonText(condition.reason))
              else ready == old(ready)[(metric, l) := Reading(condition)] && validation == old(validation)
    {
      if condition.t == ManagedPipelineValid {
        SetManagedPipelineValidMetricByReason(l, ReasonText(condition.reason));
        return;
      }
      var value := if condition.status == ConditionTrue then 1 else 0;
      ready := ready[(metric, l) := value];
    }

    method PublishMetrics(l: Labels, metricsMap: map<Condition, CType>)
      requires Writable(metricsMap)
      modifies this
      ensures Shows(ready, old(ready), l, metricsMap)
      ensures ShowsReason(validation, old(validation), l, metricsMap)
    {
      var pending := metricsMap.Keys;
      assert metricsMap - pending == map[];
      while pending != {}
        invariant pending <= metricsMap.Keys
        invariant Shows(ready, old(ready), l, metricsMap - pending)
        invariant ShowsReason(validation, old(validation), l, metricsMap - pending)
      {
        var condition :| condition in pending;
        ghost var r, v := ready, validation;
        PublishOne(l, condition, metricsMap[condition]);
        OneMore(r, ready, old(ready), v, validation, old(validation), l, metricsMap, pending, condition);
        pending := pending - {condition};
      }
      assert metricsMap - {} == metricsMap;
    }

    /** The end of a reconcile: list each gauge under its condition, then publish. */
    method PublishConditions(l: Labels, conditions: seq<Condition>)
      requires Validated(conditions)
      modifies this
      ensures Shows(ready, old(ready), l, MetricsMap(conditions, GAUGES))
      ensures OneHot(validation, old(validation), l, PublishedReason(conditions))
    {
      var metricsMap: map<Condition, CType> := map[];
      for i := 0 to |GAUGES|
        invariant metricsMap == MetricsMap(conditions, GAUGES[..i])
      {
        assert Init(GAUGES[..i + 1]) == GAUGES[..i];
        metricsMap := metricsMap[GetConditionByType(GAUGES[i], conditions) := GAUGES[i]];
      }
      assert GAUGES[..|GAUGES|] == GAUGES;
      MetricsMapIsWritable(conditions);
      ValidationIsListed(conditions);
      PublishMetrics(l, metricsMap);
    }

    method DeleteMetrics(l: Labels)
      modifies this
      ensures Cleared(Series(ready, validation), Series(old(ready), old(validation)), l)
    {
      for i := 0 to |ALL_METRICS|
        invariant validation == old(validation)
        invariant forall k ::
          Lookup(ready, k) == if k.1 == l && k.0 in ALL_METRICS[..i] then None else Lookup(old(ready), k)
      {
        assert ALL_METRICS[..i + 1] == ALL_METRICS[..i] + [ALL_METRICS[i]];
        ready := ready - {(ALL_METRICS[i], l)};
      }
      assert ALL_METRICS[..|ALL_METRICS|] == ALL_METRICS;
      for i := 0 to |REASONS|
        invariant forall k :: Lookup(ready, k) == if k.1 == l && k.0 in ALL_METRICS then None else Lookup(old(ready), k)
        invariant forall k ::
          Lookup(validation, k) == if k.0 == l && k.1 in REASONS[..i] then None else Lookup(old(validation), k)
      {
        assert REASONS[..i + 1] == REASONS[..i] + [REASONS[i]];
        validation := validation - {(l, REASONS[i])};
      }
      assert REASONS[..|REASONS|] == REASONS;
    }
  }

  lemma ShowsOneMore(r: Ready, r': Ready, r0: Ready, l: Labels, m: map<Condition, CType>, c: Condition, g: CType)
    requires Shows(r, r0, l, m) && c !in m && c.t != ManagedPipelineValid
    requires forall d <- m :: m[d] != g
    requires r' == r[(g, l) := Reading(c)]
    ensures Shows(r', r0, l, m[c := g])
  {
    var m' := m[c := g];
    assert m'[c] == g && forall d <- m :: d in m' && m'[d] == m[d];
    forall k: (CType, Labels) | !(k.1 == l && Lists(m', k.0))
      ensures Lookup(r', k) == Lookup(r0, k)
    {
      assert !(k.1 == l && Lists(m, k.0));
    }
  }

  /** Writing one pending entry takes the registry from showing the entries before it to showing it as well. */
  lemma OneMore(r: Ready, r': Ready, r0: Ready, v: Validation, v': Validation, v0: Validation,
                l: Labels, all: map<Condition, CType>, pending: set<Condition>, c: Condition)
    requires Writable(all) && pending <= all.Keys && c in pending
    requires Shows(r, r0, l, all - pending) && ShowsReason(v, v0, l, all - pending)
    requires if c.t == ManagedPipelineValid then r' == r && OneHot(v', v, l, ReasonText(c.reason))
             else r' == r[(all[c], l) := Reading(c)] && v' == v
    ensures Shows(r', r0, l, all - (pending - {c})) && ShowsReason(v', v0, l, all - (pending - {c}))
  {
    var m, m' := all - pending, all - (pending - {c});
    assert m' == m[c := all[c]];
    if c.t == ManagedPipelineValid {
      assert forall d <- m' | d.t == ManagedPipelineValid :: all[d] == all[c];
      assert c in m';
    } else {
      ShowsOneMore(r, r', r0, l, m, c, all[c]);
    }
  }

  // ---------------------------------------------------------------- the metrics map

  /** Keyed by condition, so gauges whose conditions are equal share one entry and the last listed keeps it. */
  function MetricsMap(conditions: seq<Condition>, gauges: seq<CType>): map<Condition, CType> {
    if gauges == [] then map[]
    else MetricsMap(conditions, Init(gauges))[GetConditionByType(Last(gauges), conditions) := Last(gauges)]
  }

  /** The validation condition is listed under its type. */
  predicate Validated(conditions: seq<Condition>) {
    GetConditionByType(ManagedPipelineValid, conditions).t == ManagedPipelineValid
  }

  function PublishedReason(conditions: seq<Condition>): string {
    ReasonText(GetConditionByType(ManagedPipelineValid, conditions).reason)
  }

  lemma {:induction false} FoundUnderItsType(t: CType, conditions: seq<Condition>)
    ensures var c := GetConditionByType(t, conditions); c == BLANK || (c.t == t && c in conditions)
  {
    if conditions != [] && conditions[0].t != t {
      FoundUnderItsType(t, conditions[1..]);
    }
  }

  /** Each entry is a listed gauge under its own condition, and every listed gauge's condition has an entry. */
  lemma {:induction false} MetricsMapEntries(conditions: seq<Condition>, gauges: seq<CType>)
    ensures var m := MetricsMap(conditions, gauges);
      && (forall c <- m :: m[c] in gauges && GetConditionByType(m[c], conditions) == c)
      && (forall t <- gauges :: GetConditionByType(t, conditions) in m)
  {
    if gauges != [] {
      assert gauges == Init(gauges) + [Last(gauges)];
      MetricsMapEntries(conditions, Init(gauges));
    }
  }

  lemma MetricsMapIsWritable(conditions: seq<Condition>)
    requires Validated(conditions)
    ensures Writable(MetricsMap(conditions, GAUGES))
  {
    var m := MetricsMap(conditions, GAUGES);
    MetricsMapEntries(conditions, GAUGES);
    forall c | c in m ensures m[c] == ManagedPipelineValid <==> c.t == ManagedPipelineValid {
      FoundUnderItsType(m[c], conditions);
    }
  }

  lemma ValidationIsListed(conditions: seq<Condition>)
    requires Validated(conditions)
    ensures GetConditionByType(ManagedPipelineValid, conditions) in MetricsMap(conditions, GAUGES)
  {
    assert GAUGES[7] == ManagedPipelineValid;
    MetricsMapEntries(conditions, GAUGES);
  }

  // ------------------------------------------------------------------ whole histories

  datatype Event = Published(l: Labels, conditions: seq<Condition>) | Deleted(l: Labels) | Restarted

  ghost predicate Next(s: Series, e: Event, s': Series) {
    match e
    case Published(l, cs) =>
      && Validated(cs)
      && Shows(s'.ready, s.ready, l, MetricsMap(cs, GAUGES))
      && OneHot(s'.validation, s.validation, l, PublishedReason(cs))
    case Deleted(l) => Cleared(s', s, l)
    case Restarted => s' == Series(map[], map[])
  }

  /** `states` are the registry's contents from an empty start through each of the events. */
  ghost predicate History(events: seq<Event>, states: seq<Series>) {
    && |states| == |events| + 1 && states[0] == Series(map[], map[])
    && forall i | 0 <= i < |events| :: Next(states[i], events[i], states[i + 1])
  }

  /** Publishing `cs` writes the gauge: its condition is listed, or is blank and no later gauge's is. */
  predicate Written(cs: seq<Condition>, t: CType) {
    t in ALL_METRICS && GetConditionByType(t, cs) in MetricsMap(cs, GAUGES)
    && MetricsMap(cs, GAUGES)[GetConditionByType(t, cs)] == t
  }

  /** What the latest event that bears on a gauge left there. */
  function LastReading(events: seq<Event>, t: CType, l: Labels): Option<int> {
    if events == [] then None
    else match Last(events)
      case Restarted => None
      case Deleted(l') => if l' == l then None else LastReading(Init(events), t, l)
      case Published(l', cs) =>
        if l' == l && Written(cs, t) then Some(Reading(GetConditionByType(t, cs)))
        else LastReading(Init(events), t, l)
  }

  /** The reason last published for an instance that still has its series. */
  function LastReason(events: seq<Event>, l: Labels): Option<string> {
    if events == [] then None
    else match Last(events)
      case Restarted => None
      case Deleted(l') => if l' == l then None else LastReason(Init(events), l)
      case Published(l', cs) => if l' == l then Some(PublishedReason(cs)) else LastReason(Init(events), l)
  }

  function LastHot(events: seq<Event>, r: string, l: Labels): Option<int> {
    var last := LastReason(events, l);
    if last.Some? && r in REASONS then Some(Hot(r, last.value)) else None
  }

  lemma {:induction false} OnlyGaugesAreRead(events: seq<Event>, t: CType, l: Labels)
    requires t !in ALL_METRICS
    ensures LastReading(events, t, l) == None
  {
    if events != [] {
      OnlyGaugesAreRead(Init(events), t, l);
    }
  }

  /**
   In a map of entries under their own conditions, a gauge is some entry's exactly if its own condition leads to
   it.
   */
  lemma EntryIsUnderItsCondition(m: map<Condition, CType>, cs: seq<Condition>, t: CType)
    requires Writable(m) && forall c <- m :: GetConditionByType(m[c], cs) == c
    ensures Lists(m, t) <==>
      var c := GetConditionByType(t, cs); t in ALL_METRICS && c in m && m[c] == t
  {
    var c := GetConditionByType(t, cs);
    if d :| d in m && d.t != ManagedPipelineValid && m[d] == t {
      assert m[d] != ManagedPipelineValid && d == c;
    }
    if t in ALL_METRICS && c in m && m[c] == t {
      assert t != ManagedPipelineValid;
    }
  }

  lemma WrittenMeansEntered(cs: seq<Condition>, t: CType)
    requires Validated(cs)
    ensures var m := MetricsMap(cs, GAUGES);
      Written(cs, t) <==> Lists(m, t)
  {
    MetricsMapEntries(cs, GAUGES);
    MetricsMapIsWritable(cs);
    EntryIsUnderItsCondition(MetricsMap(cs, GAUGES), cs, t);
  }

  lemma PublishWrites(s: Series, s': Series, l: Labels, cs: seq<Condition>, t: CType, l': Labels)
    requires Next(s, Published(l, cs), s')
    ensures Lookup(s'.ready, (t, l')) ==
      if l' == l && Written(cs, t) then Some(Reading(GetConditionByType(t, cs))) else Lookup(s.ready, (t, l'))
  {
    var m, k := MetricsMap(cs, GAUGES), (t, l');
    WrittenMeansEntered(cs, t);
    MetricsMapEntries(cs, GAUGES);
    assert k.0 == t && k.1 == l';
    if !(l' == l && Written(cs, t)) {
      assert !(k.1 == l && Lists(m, k.0));
    }
  }

  /**
   The registry holds exactly what the events imply: each gauge shows what its last publish since the
   instance's last clean-up wrote, each reason series is hot exactly if its reason was the last published,
   and nothing else exists. Series of other instances never interfere.
   */
  lemma {:induction false} RegistryFollowsHistory(events: seq<Event>, states: seq<Series>)
    requires History(events, states)
    ensures forall t, l :: Lookup(Last(states).ready, (t, l)) == LastReading(events, t, l)
    ensures forall r, l :: Lookup(Last(states).validation, (l, r)) == LastHot(events, r, l)
  {
    if events != [] {
      var before, s, s' := Init(states), Last(Init(states)), Last(states);
      assert Next(s, Last(events), s');
      RegistryFollowsHistory(Init(events), before);
      forall t, l ensures Lookup(s'.ready, (t, l)) == LastReading(events, t, l) {
        ReadingFollows(events, s, s', t, l);
      }
      forall r, l ensures Lookup(s'.validation, (l, r)) == LastHot(events, r, l) {
        HotFollows(events, s, s', r, l);
      }
    }
  }

  lemma ReadingFollows(events: seq<Event>, s: Series, s': Series, t: CType, l: Labels)
    requires events != [] && Next(s, Last(events), s')
    requires Lookup(s.ready, (t, l)) == LastReading(Init(events), t, l)
    ensures Lookup(s'.ready, (t, l)) == LastReading(events, t, l)
  {
    match Last(events)
    case Published(l', cs) => PublishWrites(s, s', l', cs, t, l);
    case Deleted(l') => if t !in ALL_METRICS { OnlyGaugesAreRead(Init(events), t, l); }
    case Restarted =>
  }

  lemma HotFollows(events: seq<Event>, s: Series, s': Series, r: string, l: Labels)
    requires events != [] && Next(s, Last(events), s')
    requires Lookup(s.validation, (l, r)) == LastHot(Init(events), r, l)
    ensures Lookup(s'.validation, (l, r)) == LastHot(events, r, l)
  {
  }

  /**
   An instance with validation series has exactly one that is 1: the reason last published, or OTHER for any
   unlisted text.
   */
  lemma ExactlyOneReasonIsHot(events: seq<Event>, states: seq<Series>, l: Labels)
    requires History(events, states) && LastReason(events, l).Some?
    ensures forall r ::
      Lookup(Last(states).validation, (l, r)) == Some(1) <==> r == Normalized(LastReason(events, l).value)
  {
    RegistryFollowsHistory(events, states);
    assert Normalized("") in REASONS && OTHER in REASONS by { assert REASONS[5] == OTHER; }
  }

  /** The six texts a reason series can have; any other text is counted as the last of them. */
  predicate IsListed(reason: string) {
    || reason == "ManagedPipelineValid" || reason == "ManagedPipelineInvalid"
    || reason == "ManagedPipelinesFetchError" || reason == "NotApplicable" || reason == "Unknown" || reason == "Other"
  }

  lemma ListedAreReasons(reason: string)
    ensures reason in REASONS <==> IsListed(reason)
  {
    assert REASONS[0] == VALID && REASONS[1] == INVALID && REASONS[2] == FETCH_ERROR;
    assert REASONS[3] == NOT_APPLICABLE && REASONS[4] == UNKNOWN && REASONS[5] == OTHER;
  }

  /** What each reason series of an instance reads after any history: six series, one of them 1, or none at all. */
  lemma ReasonSeriesExactly(events: seq<Event>, states: seq<Series>, l: Labels, r: string)
    requires History(events, states)
    ensures var last, reading := LastReason(events, l), Lookup(Last(states).validation, (l, r));
      && (last.None? || !IsListed(r) ==> reading == None)
      && (last.Some? && IsListed(r) ==>
            reading == Some(if r == last.value || (r == "Other" && !IsListed(last.value)) then 1 else 0))
  {
    RegistryFollowsHistory(events, states);
    ListedAreReasons(r);
    if LastReason(events, l).Some? {
      ListedAreReasons(LastReason(events, l).value);
    }
  }

  /** Which conditions have a gauge of their own. */
  lemma GaugesExactly(t: CType)
    ensures t in GAUGES <==> t != WebhookReady && t != NoType
    ensures t in ALL_METRICS <==> t in GAUGES && t != ManagedPipelineValid
  {
    assert GAUGES[0] == DatabaseAvailable && GAUGES[1] == ObjectStoreAvailable && GAUGES[2] == APIServerReady;
    assert GAUGES[3] == PersistenceAgentReady && GAUGES[4] == ScheduledWorkflowReady;
    assert GAUGES[5] == WorkflowControllerReady && GAUGES[6] == MLMDProxyReady;
    assert GAUGES[7] == ManagedPipelineValid && GAUGES[8] == CrReady;
    assert forall i | 0 <= i < 7 :: ALL_METRICS[i] == GAUGES[i];
    assert ALL_METRICS[7] == CrReady;
  }

  /**
   What a publish leaves in a gauge: 1 if its condition is True and 0 otherwise, unless its condition is blank
   and a later gauge's is, when it stays.
   */
  lemma PublishedGaugeReads(s: Series, s': Series, l: Labels, cs: seq<Condition>, i: nat)
    requires Next(s, Published(l, cs), s') && i < |GAUGES| && GAUGES[i] != ManagedPipelineValid
    ensures var reading := Lookup(s'.ready, (GAUGES[i], l));
      var c := GetConditionByType(GAUGES[i], cs);
      if c == BLANK && exists j | i < j < |GAUGES| :: GetConditionByType(GAUGES[j], cs) == BLANK
      then reading == Lookup(s.ready, (GAUGES[i], l))
      else reading == Some(if c.status.ConditionTrue? then 1 else 0)
  {
    UnwrittenExactlyWhenMasked(cs, i);
    PublishWrites(s, s', l, cs, GAUGES[i], l);
  }

  /** Right after clean-up, and until it is published again, an instance has no series at all. */
  lemma {:induction false} NoSeriesUntilRepublished(events: seq<Event>, states: seq<Series>, l: Labels, since: nat)
    requires History(events, states) && since < |events| && events[since] == Deleted(l)
    requires forall i | since < i < |events| :: !(events[i].Published? && events[i].l == l)
    ensures forall t :: (t, l) !in Last(states).ready
    ensures forall r :: (l, r) !in Last(states).validation
  {
    RegistryFollowsHistory(events, states);
    forall t ensures LastReading(events, t, l) == None && LastReason(events, l) == None {
      NothingSince(events, t, l, since);
    }
    assert forall t :: Lookup(Last(states).ready, (t, l)) == None;
    assert forall r :: Lookup(Last(states).validation, (l, r)) == None by { NothingSince(events, CrReady, l, since); }
  }

  lemma {:induction false} NothingSince(events: seq<Event>, t: CType, l: Labels, since: nat)
    requires since < |events| && events[since] == Deleted(l)
    requires forall i | since < i < |events| :: !(events[i].Published? && events[i].l == l)
    ensures LastReading(events, t, l) == None && LastReason(events, l) == None
  {
    if since < |events| - 1 {
      NothingSince(Init(events), t, l, since);
    }
  }

  /**
   A publish leaves a gauge at the truth exactly when it writes it, or when the gauge read 0 already and 0
   is still right. So a component whose readiness check failed keeps reading 1 if a later one's failed too.
   */
  lemma GaugeIsTruthfulExactlyWhen(s: Series, s': Series, l: Labels, cs: seq<Condition>, t: CType)
    requires Next(s, Published(l, cs), s') && t in ALL_METRICS
    ensures Lookup(s'.ready, (t, l)) == Some(Reading(GetConditionByType(t, cs))) <==>
            Written(cs, t) || Lookup(s.ready, (t, l)) == Some(0)
  {
    PublishWrites(s, s', l, cs, t, l);
    MetricsMapEntries(cs, GAUGES);
    FoundUnderItsType(t, cs);
    FoundUnderItsType(MetricsMap(cs, GAUGES)[GetConditionByType(t, cs)], cs);
  }

  /** A gauge is left unwritten exactly when its condition is blank and a gauge listed after it is blank as well. */
  lemma UnwrittenExactlyWhenMasked(cs: seq<Condition>, i: nat)
    requires i < |GAUGES| && GAUGES[i] != ManagedPipelineValid
    ensures !Written(cs, GAUGES[i]) <==>
      GetConditionByType(GAUGES[i], cs) == BLANK &&
      exists j | i < j < |GAUGES| :: GetConditionByType(GAUGES[j], cs) == BLANK
  {
    LastListedWins(cs, GAUGES, i);
    MetricsMapEntries(cs, GAUGES);
    FoundUnderItsType(GAUGES[i], cs);
    forall j | i < j < |GAUGES| {
      FoundUnderItsType(GAUGES[j], cs);
    }
    assert GAUGES[i] in ALL_METRICS;
  }

  /** Both conditions are blank, and the second gauge is listed later. */
  predicate Masked(cs: seq<Condition>, i: nat, j: nat) {
    && i < j < |GAUGES| && GAUGES[i] != ManagedPipelineValid
    && GetConditionByType(GAUGES[i], cs) == BLANK == GetConditionByType(GAUGES[j], cs)
  }

  /** The masked gauge keeps whatever it read, 1 included, though its condition is not true. */
  lemma MaskedGaugeKeepsReading(s: Series, s': Series, l: Labels, cs: seq<Condition>, i: nat, j: nat)
    requires Next(s, Published(l, cs), s') && Masked(cs, i, j)
    ensures Lookup(s'.ready, (GAUGES[i], l)) == Lookup(s.ready, (GAUGES[i], l))
    ensures Reading(GetConditionByType(GAUGES[i], cs)) == 0
  {
    UnwrittenExactlyWhenMasked(cs, i);
    PublishWrites(s, s', l, cs, GAUGES[i], l);
  }

  lemma {:induction false} LastListedWins(cs: seq<Condition>, gauges: seq<CType>, i: nat)
    requires i < |gauges|
    ensures var m, c := MetricsMap(cs, gauges), GetConditionByType(gauges[i], cs);
      && c in m
      && ((forall j | i < j < |gauges| :: GetConditionByType(gauges[j], cs) != c) ==> m[c] == gauges[i])
      && ((exists j | i < j < |gauges| :: GetConditionByType(gauges[j], cs) == c) ==>
            exists j | i < j < |gauges| :: m[c] == gauges[j])
  {
    var n := |gauges| - 1;
    if i < n {
      LastListedWins(cs, Init(gauges), i);
      var c := GetConditionByType(gauges[i], cs);
      if GetConditionByType(gauges[n], cs) == c {
        assert MetricsMap(cs, gauges)[c] == gauges[n];
      }
    }
  }
}
