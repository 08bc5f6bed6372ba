/**
 What a DSPA's database fields come to: which default stands in for which missing field, how the connection is
 made up, and what one reconcile leaves behind, each read off what is given.
 */
module ConnectionTable {
  import opened Prelude
  import opened InitResources
  import opened Database
  import opened DatabaseRuns

  // --------------------------------------------------------------------- missing fields

  /** `filled` is what was given, or the default where nothing was. */
  predicate Fills(filled: string, given: string, def: string) {
    && (given != "" ==> filled == given)
    && (given == "" ==> filled == def)
  }

  predicate FillsResources(filled: Option<Requirements>, given: Option<Requirements>, def: Requirements) {
    && (given.Some? ==> filled == given)
    && (given.None? ==> filled == Some(def))
  }

  /** A MariaDB keeps every field the user gave; only image, user, database and resources have defaults. */
  lemma GivenMariaDBStands(m: MariaDB, cfg: Config)
    ensures var f := DefaultMariaDB(Some(m), cfg);
      && Fills(f.image, m.image, cfg.mariaDBImage)
      && Fills(f.username, m.username, "mlpipeline")
      && Fills(f.dbName, m.dbName, "mlpipeline")
      && FillsResources(f.resources, m.resources, cfg.mariaDBResources)
      && f.deploy == m.deploy && f.passwordSecret == m.passwordSecret
      && f.pvcSize == m.pvcSize && f.storageClassName == m.storageClassName
  {
  }

  /** Where there is none, the one that is made up is deployed, with a volume, and names no secret. */
  lemma MissingMariaDBIsMadeUp(cfg: Config)
    ensures var f := DefaultMariaDB(None, cfg);
      && Fills(f.image, "", cfg.mariaDBImage)
      && f.username == "mlpipeline" && f.dbName == "mlpipeline" && f.pvcSize == "10Gi" && f.storageClassName == ""
      && f.deploy && f.passwordSecret.None? && f.resources == Some(cfg.mariaDBResources)
  {
  }

  lemma WorkflowControllerFills(w: Option<WorkflowController>, cfg: Config)
    ensures var f := DefaultWorkflowController(w, cfg);
      if w.Some? then
        && Fills(f.image, w.value.image, cfg.argoWorkflowImage)
        && Fills(f.argoExecImage, w.value.argoExecImage, cfg.argoExecImage)
        && FillsResources(f.resources, w.value.resources, cfg.workflowResources)
        && f.deploy == w.value.deploy
      else f == WorkflowController(true, cfg.argoWorkflowImage, cfg.argoExecImage, Some(cfg.workflowResources))
  {
  }

  // --------------------------------------------------------------------- the connection

  /** The operator's own secret, used where the DSPA names none. */
  predicate IsCredentials(ref: SecretRef, spec: Spec, cfg: Config) {
    if spec.externalDB.Some? then ref == spec.externalDB.value.passwordSecret
    else if spec.mariaDB.Some? && spec.mariaDB.value.passwordSecret.Some? then
      Some(ref) == spec.mariaDB.value.passwordSecret
    else ref.name == "ds-pipeline-db-" + cfg.name && ref.key == "password"
  }

  /** The secret is there with a password, or a password is generated in the place of a missing secret. */
  predicate HasPassword(password: string, ref: SecretRef, spec: Spec, secrets: Secrets, generated: string) {
    && password != ""
    && (ref.name in secrets ==> ref.key in secrets[ref.name] && password == secrets[ref.name][ref.key])
    && (ref.name !in secrets ==> spec.externalDB.None? && password == generated)
  }

  /** Everything but credentials: custom parameters go before any default, and an external database uses TLS. */
  predicate PointsAt(c: Connection, spec: Spec, cfg: Config) {
    && (spec.externalDB.Some? ==>
          var e := spec.externalDB.value;
          c.host == e.host && c.port == e.port && c.username == e.username && c.dbName == e.dbName)
    && (spec.externalDB.None? ==>
          && c.host == "mariadb-" + cfg.name + "." + cfg.namespace + ".svc.cluster.local" && c.port == "3306"
          && Fills(c.username, if spec.mariaDB.Some? then spec.mariaDB.value.username else "", "mlpipeline")
          && Fills(c.dbName, if spec.mariaDB.Some? then spec.mariaDB.value.dbName else "", "mlpipeline"))
    && (spec.customExtraParams.Some? ==> c.extraParams == spec.customExtraParams.value)
    && (spec.customExtraParams.None? ==>
          c.extraParams ==
          if spec.externalDB.Some? || cfg.podToPodTLS then "{\"tls\":\"true\"}" else "{\"tls\":\"false\"}")
  }

  /** `c` is the connection that the DSPA, the secrets there are and a generated password amount to. */
  predicate IsConnection(c: Connection, spec: Spec, cfg: Config, secrets: Secrets, generated: string) {
    && IsCredentials(c.credentials, spec, cfg)
    && HasPassword(c.password, c.credentials, spec, secrets, generated)
    && PointsAt(c, spec, cfg)
  }

  predicate CustomParamsAreValid(spec: Spec, cfg: Config) {
    spec.customExtraParams.Some? ==> cfg.validParams(spec.customExtraParams.value)
  }

  /**
   A reconcile connects exactly when the secret could be looked up, custom parameters are valid and there is a
   password; and then in exactly one way.
   */
  lemma ConnectExactly(spec: Spec, cfg: Config, secrets: Secrets, reachable: bool, generated: string, c: Connection)
    ensures Connect(spec, cfg, secrets, reachable, generated) == Some(c) <==>
      reachable && CustomParamsAreValid(spec, cfg) && IsConnection(c, spec, cfg, secrets, generated)
  {
  }

  // --------------------------------------------------------------------- one reconcile

  /** The reconcile comes to the point of deploying MariaDB. */
  predicate Deploys(s: State, cfg: Config, t: Try) {
    t.extracted && Connect(s.spec, cfg, s.secrets, t.reachable, t.generated).Some? && !BringsDatabase(s.spec)
  }

  predicate GetsToTemplates(s: State, cfg: Config, t: Try) {
    Deploys(s, cfg, t) && (!BringsPassword(s.spec) ==> t.secret.Succeeds?)
  }

  predicate TemplatesBefore(t: Try, ts: seq<Template>, i: nat)
    requires i <= |ts|
  {
    forall j | 0 <= j < i :: t.template(ts[j]).Succeeds?
  }

  /** A template is applied if every one before it succeeded and its own call took effect; none is taken back. */
  lemma {:induction false} AppliesUpToFailure(applied: set<Template>, t: Try, ts: seq<Template>, x: Template)
    ensures x in ApplyTemplates(applied, t, ts).0 <==>
      || x in applied
      || exists i | 0 <= i < |ts| :: ts[i] == x && TemplatesBefore(t, ts, i) && !t.template(x).Fails?
    ensures ApplyTemplates(applied, t, ts).1 <==> TemplatesBefore(t, ts, |ts|)
    decreases |ts|
  {
    if ts != [] {
      var now := if t.template(ts[0]).Fails? then applied else applied + {ts[0]};
      var rest := ts[1..];
      AppliesUpToFailure(now, t, rest, x);
      assert TemplatesBefore(t, ts, 0);
      forall i: nat | i <= |rest|
        ensures TemplatesBefore(t, ts, i + 1) <==> t.template(ts[0]).Succeeds? && TemplatesBefore(t, rest, i)
      {
        assert forall j | 0 <= j < i :: rest[j] == ts[j + 1];
        assert forall j | 0 < j <= i :: ts[j] == rest[j - 1];
      }
    }
  }

  /** The database step hands on the templates' effect, and writes back where that is due. */
  predicate StepLeaves(after: State, s: State, cfg: Config, t: Try, gets: bool) {
    var all := ApplyTemplates(s.applied, t, TEMPLATES);
    && after.applied == (if gets then all.0 else s.applied)
    && (if NamesNoDatabase(s.spec) && gets && all.1 && !t.update.Fails? then
          after.writeBacks == s.writeBacks + 1 && after.spec.mariaDB == Some(DefaultMariaDB(None, cfg))
        else after.writeBacks == s.writeBacks && after.spec.mariaDB == s.spec.mariaDB)
  }

  lemma StepReport(s: State, c: Connection, cfg: Config, t: Try)
    ensures var p := DatabaseStep(s, Extracted(s.spec), c, cfg, t);
      && StepLeaves(p.s, s, cfg, t, !BringsDatabase(s.spec) && (!BringsPassword(s.spec) ==> t.secret.Succeeds?))
      && (p.ok ==> p.local.mariaDB == p.s.spec.mariaDB)
      && (p.ok <==> (!BringsDatabase(s.spec) ==>
            && (!BringsPassword(s.spec) ==> t.secret.Succeeds?) && ApplyTemplates(s.applied, t, TEMPLATES).1
            && (NamesNoDatabase(s.spec) ==> t.update.Succeeds?)))
      && p.local.(mariaDB := s.spec.mariaDB) == Extracted(s.spec)
      && p.s.spec == if p.s.writeBacks > s.writeBacks then p.local else s.spec
  {
    DecideExactly(Extracted(s.spec));
    var s1 := ApplySecret(s, c, t.secret);
    assert s1.applied == s.applied && s1.spec == s.spec && s1.writeBacks == s.writeBacks;
  }

  lemma TemplatesReport(s: State, cfg: Config, t: Try)
    ensures StepLeaves(Reconcile(s, cfg, t), s, cfg, t, GetsToTemplates(s, cfg, t))
  {
    var c := Connect(s.spec, cfg, s.secrets, t.reachable, t.generated);
    if t.extracted && c.Some? {
      StepReport(s, c.value, cfg, t);
    }
  }

  /** What a reconcile leaves applied. */
  lemma AppliedReport(s: State, cfg: Config, t: Try, x: Template)
    ensures x in Reconcile(s, cfg, t).applied <==>
      || x in s.applied
      || (GetsToTemplates(s, cfg, t) && !t.template(x).Fails? &&
          exists i | 0 <= i < |TEMPLATES| :: TEMPLATES[i] == x && TemplatesBefore(t, TEMPLATES, i))
  {
    TemplatesReport(s, cfg, t);
    AppliesUpToFailure(s.applied, t, TEMPLATES, x);
  }

  lemma AllTemplatesSucceed(applied: set<Template>, t: Try)
    ensures ApplyTemplates(applied, t, TEMPLATES).1 <==> forall x :: t.template(x).Succeeds?
  {
    AppliesUpToFailure(applied, t, TEMPLATES, DeploymentTemplate);
    forall x { EveryTemplateIsListed(x); }
  }

  /** The DSPA names no database, and everything that comes before its write-back succeeds. */
  predicate WritesBack(s: State, cfg: Config, t: Try) {
    && NamesNoDatabase(s.spec) && GetsToTemplates(s, cfg, t)
    && (forall x :: t.template(x).Succeeds?) && !t.update.Fails?
  }

  /** Exactly then the made-up MariaDB is stored in the DSPA; otherwise its MariaDB stays as it is. */
  lemma WriteBackReport(s: State, cfg: Config, t: Try)
    ensures var after := Reconcile(s, cfg, t);
      if WritesBack(s, cfg, t) then
        after.writeBacks == s.writeBacks + 1 && after.spec.mariaDB == Some(DefaultMariaDB(None, cfg))
      else after.writeBacks == s.writeBacks && after.spec.mariaDB == s.spec.mariaDB
  {
    TemplatesReport(s, cfg, t);
    AllTemplatesSucceed(s.applied, t);
  }

  /** The whole database step succeeds. */
  predicate StepSucceeds(s: State, cfg: Config, t: Try) {
    && t.extracted && Connect(s.spec, cfg, s.secrets, t.reachable, t.generated).Some?
    && (!BringsDatabase(s.spec) ==>
          && (!BringsPassword(s.spec) ==> t.secret.Succeeds?)
          && (forall x :: t.template(x).Succeeds?)
          && (NamesNoDatabase(s.spec) ==> t.update.Succeeds?))
  }

  lemma StepOutcome(s: State, c: Connection, cfg: Config, t: Try)
    requires t.extracted && Connect(s.spec, cfg, s.secrets, t.reachable, t.generated) == Some(c)
    ensures var p := DatabaseStep(s, Extracted(s.spec), c, cfg, t);
      && (p.ok <==> StepSucceeds(s, cfg, t))
      && p.s.spec == (if WritesBack(s, cfg, t) then p.local else s.spec)
      && p.local.(mariaDB := s.spec.mariaDB) == Extracted(s.spec)
  {
    AllTemplatesSucceed(s.applied, t);
    StepReport(s, c, cfg, t);
  }

  /**
   The workflow controller's default reaches the stored DSPA with the write-back or the storage step's write,
   whichever takes effect; nothing else of the DSPA changes but its MariaDB.
   */
  lemma SpecReport(s: State, cfg: Config, t: Try)
    ensures var w, after := s.spec.workflowController, Reconcile(s, cfg, t).spec;
      && after.externalDB == s.spec.externalDB && after.customExtraParams == s.spec.customExtraParams
      && after.workflowController ==
         if w.None? && (WritesBack(s, cfg, t)
                        || (StepSucceeds(s, cfg, t) && t.storageUpdate.Some? && !t.storageUpdate.value.Fails?))
         then Some(WorkflowController(true, "", "", None)) else w
  {
    var c := Connect(s.spec, cfg, s.secrets, t.reachable, t.generated);
    if t.extracted && c.Some? {
      StepOutcome(s, c.value, cfg, t);
    }
  }
}
