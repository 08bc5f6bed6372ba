/** Any number of reconciles of the database part: the write-back happens once and changes nothing that matters. */
module DatabaseRuns {
  import opened Prelude
  import opened Database
  import opened Finalization

  // ------------------------------------------------------------- what the DSPA asks for

  /** The DSPA names an external database, which takes precedence, or a MariaDB that is not to be deployed. */
  predicate BringsDatabase(spec: Spec) {
    spec.externalDB.Some? || (spec.mariaDB.Some? && !spec.mariaDB.value.deploy)
  }

  /** The DSPA brings its database, or names the secret of the MariaDB that is deployed for it. */
  predicate BringsPassword(spec: Spec) {
    BringsDatabase(spec) || (spec.mariaDB.Some? && spec.mariaDB.value.passwordSecret.Some?)
  }

  predicate NamesNoDatabase(spec: Spec) {
    spec.externalDB.None? && spec.mariaDB.None?
  }

  /** The decision in these terms. */
  lemma DecideExactly(spec: Spec)
    ensures Decide(spec).DeployMariaDB? <==> !BringsDatabase(spec)
    ensures Decide(spec).DeployMariaDB? ==> (Decide(spec).storeSecret <==> !BringsPassword(spec))
    ensures Decide(spec).DeployMariaDB? ==> (Decide(spec).writeBack <==> NamesNoDatabase(spec))
  {
  }

  /** All that the reconciles derive from the DSPA, apart from the password. */
  datatype Derived = Derived(
    mariaDB: Option<MariaDB>, workflowController: WorkflowController, endpoint: Connection, paramsAccepted: bool,
    deploysMariaDB: bool, storesSecret: bool)

  function Derive(spec: Spec, cfg: Config): Derived {
    Derived(
      if spec.externalDB.Some? then spec.mariaDB else Some(DefaultMariaDB(spec.mariaDB, cfg)),
      DefaultWorkflowController(spec.workflowController, cfg),
      Endpoint(spec, cfg),
      ParamsAccepted(spec, cfg),
      !BringsDatabase(spec),
      !BringsPassword(spec))
  }

  /** Storing the default workflow controller in the DSPA derives the same again. */
  lemma ExtractedDerivesSame(spec: Spec, cfg: Config)
    ensures Derive(Extracted(spec), cfg) == Derive(spec, cfg)
  {
  }

  /** So does storing the defaulted MariaDB where the DSPA named no database; and it ends the need to write back. */
  lemma WrittenBackDerivesSame(spec: Spec, cfg: Config)
    requires NamesNoDatabase(spec)
    ensures Derive(WrittenBack(spec, cfg), cfg) == Derive(spec, cfg)
    ensures !NamesNoDatabase(WrittenBack(spec, cfg))
  {
  }

  /** `s'` follows `s`: the same derived parameters, and a write-back only if there was one to make. */
  predicate Follows(s': State, s: State, cfg: Config) {
    && Derive(s'.spec, cfg) == Derive(s.spec, cfg)
    && (s'.spec.mariaDB == s.spec.mariaDB
        || (NamesNoDatabase(s.spec) && s'.spec.mariaDB.Some?))
    && s'.spec.externalDB == s.spec.externalDB
    && s.writeBacks <= s'.writeBacks <= s.writeBacks + 1
    && (s'.writeBacks > s.writeBacks ==> s.spec.mariaDB.None? && s'.spec.mariaDB.Some?)
    && (s'.writeBacks > s.writeBacks ==> forall x: Template :: x in s'.applied)
    && s.applied <= s'.applied
  }

  /** The list of templates is complete. */
  lemma EveryTemplateIsListed(x: Template)
    ensures x in TEMPLATES
  {
    assert TEMPLATES == [DeploymentTemplate, PvcTemplate, ServiceTemplate, ServiceAccountTemplate,
                         NetworkPolicyTemplate, TlsConfigTemplate];
    assert x == TEMPLATES[0] || x == TEMPLATES[1] || x == TEMPLATES[2] || x == TEMPLATES[3] || x == TEMPLATES[4]
        || x == TEMPLATES[5];
  }

  lemma StepFollows(s: State, c: Connection, cfg: Config, t: Try)
    ensures var p := DatabaseStep(s, Extracted(s.spec), c, cfg, t);
      && Follows(p.s, s, cfg)
      && (p.ok ==> Follows(p.s.(spec := p.local), s, cfg))
  {
    ExtractedDerivesSame(s.spec, cfg);
    forall x { EveryTemplateIsListed(x); }
    if NamesNoDatabase(s.spec) {
      WrittenBackDerivesSame(Extracted(s.spec), cfg);
    }
  }

  lemma ReconcileFollows(s: State, cfg: Config, t: Try)
    ensures Follows(Reconcile(s, cfg, t), s, cfg)
  {
    var c := Connect(s.spec, cfg, s.secrets, t.reachable, t.generated);
    if t.extracted && c.Some? {
      StepFollows(s, c.value, cfg, t);
    }
  }

  /**
   Over any run, whatever calls fail and even if failed calls took effect, this part of the operator changes
   the DSPA at most once, only after the whole MariaDB was applied, and defaulting, the decision to deploy and
   the connection parameters are the same throughout.
   */
  lemma {:induction false} AtMostOneWriteBack(s: State, cfg: Config, ts: seq<Try>)
    ensures Follows(Run(s, cfg, ts), s, cfg)
  {
    if ts != [] {
      AtMostOneWriteBack(s, cfg, Init(ts));
      ReconcileFollows(Run(s, cfg, Init(ts)), cfg, Last(ts));
    }
  }

  // -------------------------------------------------------------------- the password

  predicate SecretExists(s: State, cfg: Config) {
    CredentialsOf(s.spec, cfg).name in s.secrets
  }

  /** Applying the secret with the value just read from it stores nothing new. */
  lemma RestoringIsIdle(s: State, cfg: Config, reachable: bool, generated: string)
    requires SecretExists(s, cfg) && Connect(s.spec, cfg, s.secrets, reachable, generated).Some?
    ensures StorePassword(s.secrets, Connect(s.spec, cfg, s.secrets, reachable, generated).value) == s.secrets
  {
    var ref := CredentialsOf(s.spec, cfg);
    assert s.secrets[ref.name][ref.key := ValueAt(s.secrets[ref.name], ref.key)] == s.secrets[ref.name];
  }

  lemma SecretsChangeOnlyByStoring(s: State, cfg: Config, t: Try)
    ensures var c := Connect(s.spec, cfg, s.secrets, t.reachable, t.generated);
      Reconcile(s, cfg, t).secrets ==
        if t.extracted && c.Some? && !BringsPassword(s.spec) && !t.secret.Fails?
        then StorePassword(s.secrets, c.value) else s.secrets
  {
  }

  lemma {:induction false} ExistingSecretStays(s: State, cfg: Config, ts: seq<Try>)
    requires SecretExists(s, cfg)
    ensures Run(s, cfg, ts).secrets == s.secrets
  {
    if ts != [] {
      var s', t := Run(s, cfg, Init(ts)), Last(ts);
      ExistingSecretStays(s, cfg, Init(ts));
      AtMostOneWriteBack(s, cfg, Init(ts));
      SecretsChangeOnlyByStoring(s', cfg, t);
      if Connect(s'.spec, cfg, s'.secrets, t.reachable, t.generated).Some? {
        RestoringIsIdle(s', cfg, t.reachable, t.generated);
      }
    }
  }

  /** Once the secret exists, every later reconcile that gets a connection gets the same one, password included. */
  lemma ConnectionNeverChanges(s: State, cfg: Config, ts: seq<Try>, reachable: bool, generated: string)
    requires SecretExists(s, cfg)
    ensures var ref, s' := CredentialsOf(s.spec, cfg), Run(s, cfg, ts);
      var c := Connect(s'.spec, cfg, s'.secrets, reachable, generated);
      c.Some? ==> c.value == Endpoint(s.spec, cfg).(password := ValueAt(s.secrets[ref.name], ref.key))
  {
    AtMostOneWriteBack(s, cfg, ts);
    ExistingSecretStays(s, cfg, ts);
  }

  /**
   A reconcile whose secret was stored fixes its own password for good: MariaDB and all later reconciles agree on
   it.
   */
  lemma StoredPasswordIsFinal(s: State, cfg: Config, t: Try, ts: seq<Try>, reachable: bool, generated: string)
    requires t.extracted && !t.secret.Fails? && !BringsPassword(s.spec)
    requires Connect(s.spec, cfg, s.secrets, t.reachable, t.generated).Some?
    ensures var first := Connect(s.spec, cfg, s.secrets, t.reachable, t.generated);
      var s' := Run(Reconcile(s, cfg, t), cfg, ts);
      var later := Connect(s'.spec, cfg, s'.secrets, reachable, generated);
      later.Some? ==> later == first
  {
    var s1 := Reconcile(s, cfg, t);
    SecretsChangeOnlyByStoring(s, cfg, t);
    ReconcileFollows(s, cfg, t);
    ConnectionNeverChanges(s1, cfg, ts, reachable, generated);
  }

  /** Two reconciles of one run that get a connection at all get the same one. */
  ghost predicate ConnectionSettled(s: State, cfg: Config) {
    forall ts, us, r1, g1, r2, g2 ::
      var a, b := Run(s, cfg, ts), Run(s, cfg, us);
      var c, d := Connect(a.spec, cfg, a.secrets, r1, g1), Connect(b.spec, cfg, b.secrets, r2, g2);
      c.Some? && d.Some? ==> c == d
  }

  /**
   When the connection is a fixpoint already: exactly when the secret exists, the database is external, or no
   reconcile can connect at all. Otherwise each reconcile makes up another password until one is stored, and
   if the DSPA names its own secret or does not deploy MariaDB, none ever is.
   */
  lemma ConnectionSettledExactlyWhen(s: State, cfg: Config)
    ensures ConnectionSettled(s, cfg) <==>
      SecretExists(s, cfg) || s.spec.externalDB.Some? || !ParamsAccepted(s.spec, cfg)
  {
    if SecretExists(s, cfg) {
      forall ts, r, g {
        ConnectionNeverChanges(s, cfg, ts, r, g);
      }
    } else if s.spec.externalDB.Some? || !ParamsAccepted(s.spec, cfg) {
      forall ts, r, g ensures Connect(Run(s, cfg, ts).spec, cfg, Run(s, cfg, ts).secrets, r, g).None? {
        AtMostOneWriteBack(s, cfg, ts);
        if s.spec.externalDB.Some? {
          GivenSecretsAreLeftAlone(s, cfg, ts);
        }
      }
    } else {
      assert Run(s, cfg, []) == s;
      var c, d := Connect(s.spec, cfg, s.secrets, true, "a"), Connect(s.spec, cfg, s.secrets, true, "b");
      assert c.Some? && d.Some? && c.value.password == "a" && d.value.password == "b";
    }
  }

  /** The secrets of a DSPA that brings its database or names its secret are left alone, in every run. */
  lemma {:induction false} GivenSecretsAreLeftAlone(s: State, cfg: Config, ts: seq<Try>)
    requires BringsPassword(s.spec)
    ensures Run(s, cfg, ts).secrets == s.secrets
  {
    if ts != [] {
      GivenSecretsAreLeftAlone(s, cfg, Init(ts));
      AtMostOneWriteBack(s, cfg, Init(ts));
      SecretsChangeOnlyByStoring(Run(s, cfg, Init(ts)), cfg, Last(ts));
    }
  }

  /**
   For any other DSPA one reconcile that connects, and whose secret is stored, leaves exactly one secret more,
   the generated password under the operator's own name, or none if it is there already.
   */
  lemma PasswordIsStored(s: State, cfg: Config, t: Try)
    requires !BringsPassword(s.spec) && t.extracted && !t.secret.Fails?
    requires Connect(s.spec, cfg, s.secrets, t.reachable, t.generated).Some?
    ensures var name, after := "ds-pipeline-db-" + cfg.name, Reconcile(s, cfg, t).secrets;
      after == if name in s.secrets then s.secrets else s.secrets[name := map["password" := t.generated]]
  {
    SecretsChangeOnlyByStoring(s, cfg, t);
    if SecretExists(s, cfg) {
      RestoringIsIdle(s, cfg, t.reachable, t.generated);
    }
  }

  function FaultFreeTry(generated: string): Try {
    Try(true, generated, true, Succeeds, _ => Succeeds, Succeeds, None)
  }

  ghost predicate SecretsNeverChange(s: State, cfg: Config) {
    forall ts :: Run(s, cfg, ts).secrets == s.secrets
  }

  /** When no run touches the secrets: the exact condition on the DSPA and what is stored. */
  lemma SecretsNeverChangeExactlyWhen(s: State, cfg: Config)
    ensures SecretsNeverChange(s, cfg) <==>
      BringsPassword(s.spec) || "ds-pipeline-db-" + cfg.name in s.secrets || !ParamsAccepted(s.spec, cfg)
  {
    if BringsPassword(s.spec) {
      forall ts { GivenSecretsAreLeftAlone(s, cfg, ts); }
    } else if SecretExists(s, cfg) {
      forall ts { ExistingSecretStays(s, cfg, ts); }
    } else if !ParamsAccepted(s.spec, cfg) {
      forall ts { RejectedParamsStoreNothing(s, cfg, ts); }
    } else {
      var t := FaultFreeTry("generated");
      PasswordIsStored(s, cfg, t);
      assert Init([t]) == [] && Run(s, cfg, []) == s;
      assert "ds-pipeline-db-" + cfg.name in Run(s, cfg, [t]).secrets;
    }
  }

  lemma {:induction false} RejectedParamsStoreNothing(s: State, cfg: Config, ts: seq<Try>)
    requires !ParamsAccepted(s.spec, cfg)
    ensures Run(s, cfg, ts).secrets == s.secrets
  {
    if ts != [] {
      RejectedParamsStoreNothing(s, cfg, Init(ts));
      AtMostOneWriteBack(s, cfg, Init(ts));
    }
  }

  /** Nothing of a MariaDB with a generated password is applied before that password is stored. */
  lemma {:induction false} AppliedOnlyAfterStoring(s: State, cfg: Config, ts: seq<Try>)
    requires !BringsPassword(s.spec)
    ensures Run(s, cfg, ts).applied == s.applied || "ds-pipeline-db-" + cfg.name in Run(s, cfg, ts).secrets
  {
    if ts != [] {
      var s', t := Run(s, cfg, Init(ts)), Last(ts);
      AppliedOnlyAfterStoring(s, cfg, Init(ts));
      AtMostOneWriteBack(s, cfg, Init(ts));
      assert !BringsPassword(s'.spec);
      SecretsChangeOnlyByStoring(s', cfg, t);
      AppliedAfterItsSecret(s', cfg, t);
    }
  }

  lemma AppliedAfterItsSecret(s: State, cfg: Config, t: Try)
    requires !BringsPassword(s.spec)
    ensures Reconcile(s, cfg, t).applied != s.applied ==>
      t.extracted && t.secret.Succeeds? && Connect(s.spec, cfg, s.secrets, t.reachable, t.generated).Some?
  {
  }

  /**
   Where the operator stores no password and the named secret does not exist, this never ends: after any
   run, the next reconcile connects with whatever it generates.
   */
  lemma PasswordsKeepChanging(s: State, cfg: Config, ts: seq<Try>, generated: string)
    requires BringsPassword(s.spec) && s.spec.externalDB.None?
    requires !SecretExists(s, cfg) && ParamsAccepted(s.spec, cfg) && generated != ""
    ensures var s' := Run(s, cfg, ts);
      Connect(s'.spec, cfg, s'.secrets, true, generated) == Some(Endpoint(s.spec, cfg).(password := generated))
  {
    AtMostOneWriteBack(s, cfg, ts);
    GivenSecretsAreLeftAlone(s, cfg, ts);
  }

  // -------------------------------------------------------------------- the fixpoint

  /** Nothing is left to do for the database. */
  predicate Settled(s: State, cfg: Config) {
    !BringsDatabase(s.spec) ==>
      && !NamesNoDatabase(s.spec)
      && (forall x: Template :: x in s.applied)
      && (!BringsPassword(s.spec) ==> SecretExists(s, cfg))
  }

  /** Every API call of the database step succeeds. */
  predicate FaultFree(t: Try) {
    t.extracted && t.secret.Succeeds? && t.update.Succeeds? && forall x :: t.template(x).Succeeds?
  }

  lemma {:induction false} ReapplyingIsIdle(applied: set<Template>, t: Try, ts: seq<Template>)
    requires forall x <- ts :: x in applied
    ensures ApplyTemplates(applied, t, ts).0 == applied
    decreases |ts|
  {
    if ts != [] {
      assert applied + {ts[0]} == applied;
      assert forall x <- ts[1..] :: x in ts;
      ReapplyingIsIdle(applied, t, ts[1..]);
    }
  }

  lemma {:induction false} FaultFreeAppliesAll(applied: set<Template>, t: Try, ts: seq<Template>)
    requires forall x <- ts :: t.template(x).Succeeds?
    ensures ApplyTemplates(applied, t, ts).1
    decreases |ts|
  {
    if ts != [] {
      assert forall x <- ts[1..] :: x in ts;
      FaultFreeAppliesAll(applied + {ts[0]}, t, ts[1..]);
    }
  }

  lemma FaultFreeTemplates(applied: set<Template>, t: Try)
    requires forall x :: t.template(x).Succeeds?
    ensures ApplyTemplates(applied, t, TEMPLATES).1
    ensures forall x: Template :: x in ApplyTemplates(applied, t, TEMPLATES).0
  {
    FaultFreeAppliesAll(applied, t, TEMPLATES);
    forall x { EveryTemplateIsListed(x); }
  }

  predicate Deployed(s: State) {
    s.spec.mariaDB.Some? && forall x: Template :: x in s.applied
  }

  lemma FaultFreeStepDeploys(s: State, c: Connection, cfg: Config, t: Try)
    requires FaultFree(t) && !BringsDatabase(s.spec)
    ensures var p := DatabaseStep(s, Extracted(s.spec), c, cfg, t);
      p.ok && Deployed(p.s) && Deployed(p.s.(spec := p.local))
  {
    DecideExactly(Extracted(s.spec));
    FaultFreeTemplates(s.applied, t);
  }

  lemma FaultFreeReconcileDeploys(s: State, cfg: Config, t: Try)
    requires FaultFree(t) && Connect(s.spec, cfg, s.secrets, t.reachable, t.generated).Some?
    requires !BringsDatabase(s.spec)
    ensures Deployed(Reconcile(s, cfg, t))
  {
    var c := Connect(s.spec, cfg, s.secrets, t.reachable, t.generated).value;
    FaultFreeStepDeploys(s, c, cfg, t);
    var p := DatabaseStep(s, Extracted(s.spec), c, cfg, t);
    assert Reconcile(s, cfg, t) == p.s || Reconcile(s, cfg, t) == p.s.(spec := p.local);
  }

  /** One reconcile without faults settles the database, whatever partial work earlier ones left behind. */
  lemma FaultFreeReconcileSettles(s: State, cfg: Config, t: Try)
    requires FaultFree(t) && Connect(s.spec, cfg, s.secrets, t.reachable, t.generated).Some?
    ensures Settled(Reconcile(s, cfg, t), cfg)
  {
    ReconcileFollows(s, cfg, t);
    if !BringsDatabase(s.spec) {
      FaultFreeReconcileDeploys(s, cfg, t);
      SecretsChangeOnlyByStoring(s, cfg, t);
    }
  }

  /** From then on no reconcile, faulty or not, changes anything but the DSPA's default workflow controller. */
  lemma SettledReconcileIsIdle(s: State, cfg: Config, t: Try)
    requires Settled(s, cfg)
    ensures Reconcile(s, cfg, t) == s || Reconcile(s, cfg, t) == s.(spec := Extracted(s.spec))
  {
    var c := Connect(s.spec, cfg, s.secrets, t.reachable, t.generated);
    if t.extracted && c.Some? && !BringsDatabase(s.spec) {
      ReapplyingIsIdle(s.applied, t, TEMPLATES);
      if !BringsPassword(s.spec) {
        RestoringIsIdle(s, cfg, t.reachable, t.generated);
      }
    }
  }

  lemma {:induction false} SettledRunsAreIdle(s: State, cfg: Config, ts: seq<Try>)
    requires Settled(s, cfg)
    ensures Run(s, cfg, ts) == s || Run(s, cfg, ts) == s.(spec := Extracted(s.spec))
  {
    if ts != [] {
      var s' := Run(s, cfg, Init(ts));
      SettledRunsAreIdle(s, cfg, Init(ts));
      assert Extracted(Extracted(s.spec)) == Extracted(s.spec);
      SettledReconcileIsIdle(s', cfg, Last(ts));
    }
  }

  // ------------------------------------------------------------------ who gets MariaDB

  /** A DSPA that brings its database gets no MariaDB, no secret and no write-back, in any run. */
  lemma OwnDatabaseIsLeftAlone(s: State, cfg: Config, ts: seq<Try>)
    requires BringsDatabase(s.spec)
    ensures Run(s, cfg, ts) == s || Run(s, cfg, ts) == s.(spec := Extracted(s.spec))
  {
    SettledRunsAreIdle(s, cfg, ts);
  }

  /** One reconcile without faults deploys MariaDB, and stores that it did, exactly for the others. */
  lemma DeployedExactlyWhen(s: State, cfg: Config, t: Try)
    requires FaultFree(t) && Connect(s.spec, cfg, s.secrets, t.reachable, t.generated).Some? && s.applied == {}
    ensures Deployed(Reconcile(s, cfg, t)) <==> !BringsDatabase(s.spec)
  {
    if BringsDatabase(s.spec) {
      assert Run(s, cfg, []) == s && Init([t]) == [];
      assert Run(s, cfg, [t]) == Reconcile(s, cfg, t);
      OwnDatabaseIsLeftAlone(s, cfg, [t]);
      assert DeploymentTemplate !in s.applied;
    } else {
      FaultFreeReconcileDeploys(s, cfg, t);
    }
  }
}
