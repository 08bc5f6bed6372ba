/**
 The database part of a DSPA: defaulting, connection parameters, the decision what to deploy, and writing the
 decision back into the DSPA, over any number of reconciles whose API calls may each fail.
 */
module Database {
  import opened Prelude
  import opened InitResources
  import opened Finalization

  datatype SecretRef = SecretRef(name: string, key: string)

  datatype MariaDB = MariaDB(
    deploy: bool, image: string, username: string, passwordSecret: Option<SecretRef>, dbName: string,
    pvcSize: string, storageClassName: string, resources: Option<Requirements>)

  datatype ExternalDB = ExternalDB(host: string, port: string, username: string, dbName: string,
                                   passwordSecret: SecretRef)

  datatype WorkflowController = WorkflowController(
    deploy: bool, image: string, argoExecImage: string, resources: Option<Requirements>)

  /** The part of a stored DSPA that matters here; a database is always given, possibly with nothing in it. */
  datatype Spec = Spec(
    mariaDB: Option<MariaDB>, externalDB: Option<ExternalDB>, customExtraParams: Option<string>,
    workflowController: Option<WorkflowController>)

  /** Operator configuration, and the DSPA's name, namespace and TLS setting. */
  datatype Config = Config(
    name: string, namespace: string, podToPodTLS: bool,
    mariaDBImage: string, mariaDBResources: Requirements,
    argoWorkflowImage: string, argoExecImage: string, workflowResources: Requirements,
    validParams: string -> bool)

  datatype Connection = Connection(
    host: string, port: string, username: string, dbName: string, extraParams: string,
    credentials: SecretRef, password: string)

  type Secrets = map<string, map<string, string>>

  const USER: string := "mlpipeline"
  const DB_NAME: string := "mlpipeline"
  const PVC_SIZE: string := "10Gi"
  const HOST_PORT: string := "3306"

  // ------------------------------------------------------------------ defaulting

  function StringDefault(def: string, value: string): string {
    if value == "" then def else value
  }

  function ResourcesDefault(def: Requirements, value: Option<Requirements>): Option<Requirements> {
    if value.None? then Some(def) else value
  }

  function DefaultMariaDB(m: Option<MariaDB>, cfg: Config): MariaDB {
    match m
    case None => MariaDB(true, cfg.mariaDBImage, USER, None, DB_NAME, PVC_SIZE, "", Some(cfg.mariaDBResources))
    case Some(m) =>
      m.(image := StringDefault(cfg.mariaDBImage, m.image), username := StringDefault(USER, m.username),
         dbName := StringDefault(DB_NAME, m.dbName), resources := ResourcesDefault(cfg.mariaDBResources, m.resources))
  }

  /** The default that goes into the DSPA itself. */
  function WorkflowControllerOf(w: Option<WorkflowController>): WorkflowController {
    if w.Some? then w.value else WorkflowController(true, "", "", None)
  }

  function DefaultWorkflowController(w: Option<WorkflowController>, cfg: Config): WorkflowController {
    var c := WorkflowControllerOf(w);
    c.(image := StringDefault(cfg.argoWorkflowImage, c.image),
       argoExecImage := StringDefault(cfg.argoExecImage, c.argoExecImage),
       resources := ResourcesDefault(cfg.workflowResources, c.resources))
  }

  // ----------------------------------------------------------- connection parameters

  datatype SecretRead = Unreachable | NotFound | Read(data: map<string, string>)

  function ReadSecret(secrets: Secrets, reachable: bool, name: string): SecretRead {
    if !reachable then Unreachable else if name in secrets then Read(secrets[name]) else NotFound
  }

  function ValueAt(data: map<string, string>, key: string): string {
    if key in data then data[key] else ""
  }

  /** The generated password stands in for a secret that does not exist, never for one that lacks the key. */
  function RetrieveOrCreate(read: SecretRead, key: string, generated: string): Option<string> {
    match read
    case Unreachable => None
    case NotFound => Some(generated)
    case Read(data) => Some(ValueAt(data, key))
  }

  function Retrieve(read: SecretRead, key: string): Option<string> {
    match read
    case Unreachable => None
    case NotFound => Some("")
    case Read(data) => Some(ValueAt(data, key))
  }

  function CredentialsOf(spec: Spec, cfg: Config): SecretRef {
    if spec.externalDB.Some? then spec.externalDB.value.passwordSecret
    else if spec.mariaDB.Some? && spec.mariaDB.value.passwordSecret.Some? then spec.mariaDB.value.passwordSecret.value
    else SecretRef("ds-pipeline-db-" + cfg.name, "password")
  }

  function TlsParams(tls: bool): string {
    if tls then "{\"tls\":\"true\"}" else "{\"tls\":\"false\"}"
  }

  function PasswordOf(spec: Spec, cfg: Config, secrets: Secrets, reachable: bool, generated: string): Option<string> {
    var ref := CredentialsOf(spec, cfg);
    var read := ReadSecret(secrets, reachable, ref.name);
    if spec.externalDB.Some? then Retrieve(read, ref.key) else RetrieveOrCreate(read, ref.key, generated)
  }

  /** Everything about the connection except the password. */
  function Endpoint(spec: Spec, cfg: Config): Connection {
    var ref := CredentialsOf(spec, cfg);
    var custom := spec.customExtraParams;
    if spec.externalDB.Some? then
      var e := spec.externalDB.value;
      Connection(e.host, e.port, e.username, e.dbName, if custom.Some? then custom.value else TlsParams(true), ref, "")
    else
      var m := DefaultMariaDB(spec.mariaDB, cfg);
      Connection("mariadb-" + cfg.name + "." + cfg.namespace + ".svc.cluster.local", HOST_PORT, m.username, m.dbName,
                 if custom.Some? then custom.value else TlsParams(cfg.podToPodTLS), ref, "")
  }

  predicate ParamsAccepted(spec: Spec, cfg: Config) {
    spec.customExtraParams.Some? ==> cfg.validParams(spec.customExtraParams.value)
  }

  /** The connection a reconcile works with; none if its parameters cannot be set up. */
  function Connect(spec: Spec, cfg: Config, secrets: Secrets, reachable: bool, generated: string): Option<Connection> {
    var password := PasswordOf(spec, cfg, secrets, reachable, generated);
    if password.None? || !ParamsAccepted(spec, cfg) || password.value == "" then None
    else Some(Endpoint(spec, cfg).(password := password.value))
  }

  // --------------------------------------------------------------- what to deploy

  datatype Decision = UseExternal | DeployMariaDB(storeSecret: bool, writeBack: bool) | DeployNothing

  function Decide(spec: Spec): Decision {
    if spec.externalDB.Some? then UseExternal
    else match spec.mariaDB
      case None => DeployMariaDB(true, true)
      case Some(m) => if m.deploy then DeployMariaDB(m.passwordSecret.None?, false) else DeployNothing
  }

  datatype Template =
    | DeploymentTemplate | PvcTemplate | ServiceTemplate
    | ServiceAccountTemplate | NetworkPolicyTemplate | TlsConfigTemplate

  const TEMPLATES: seq<Template> :=
    [DeploymentTemplate, PvcTemplate, ServiceTemplate, ServiceAccountTemplate, NetworkPolicyTemplate, TlsConfigTemplate]

  /** What the API server holds, and how often this part of the operator has changed the DSPA. */
  datatype State = State(spec: Spec, secrets: Secrets, applied: set<Template>, writeBacks: nat)

  /**
   One reconcile as its surroundings let it go: whether the secret can be read, the password generated if it
   does not exist, whether everything else before the database step went well, how each API call ends, and how
   the storage step's own write of the DSPA ends if there is one.
   */
  datatype Try = Try(
    reachable: bool, generated: string, extracted: bool,
    secret: Call, template: Template -> Call, update: Call, storageUpdate: Option<Call>)

  function StorePassword(secrets: Secrets, c: Connection): Secrets {
    var data := if c.credentials.name in secrets then secrets[c.credentials.name] else map[];
    secrets[c.credentials.name := data[c.credentials.key := c.password]]
  }

  function ApplySecret(s: State, c: Connection, call: Call): State {
    if call.Fails? then s else s.(secrets := StorePassword(s.secrets, c))
  }

  /** Apply templates in order up to the first that fails. */
  function ApplyTemplates(applied: set<Template>, t: Try, ts: seq<Template>): (r: (set<Template>, bool))
    ensures applied <= r.0
    ensures r.1 ==> forall x <- ts :: x in r.0
    decreases |ts|
  {
    if ts == [] then (applied, true)
    else
      var call := t.template(ts[0]);
      var now := if call.Fails? then applied else applied + {ts[0]};
      if call.Succeeds? then ApplyTemplates(now, t, ts[1..]) else (now, false)
  }

  /** The DSPA as the reconcile holds it once its parameters are extracted. */
  function Extracted(spec: Spec): Spec {
    spec.(workflowController := Some(WorkflowControllerOf(spec.workflowController)))
  }

  function WrittenBack(spec: Spec, cfg: Config): Spec {
    spec.(mariaDB := Some(DefaultMariaDB(spec.mariaDB, cfg).(deploy := true)))
  }

  function Store(s: State, spec: Spec, call: Call): State {
    if call.Fails? then s else s.(spec := spec)
  }

  datatype Progress = Progress(s: State, local: Spec, ok: bool)

  function Templates(s: State, local: Spec, t: Try): Progress {
    var (applied, ok) := ApplyTemplates(s.applied, t, TEMPLATES);
    Progress(s.(applied := applied), local, ok)
  }

  function WriteBack(s: State, local: Spec, cfg: Config, t: Try): Progress {
    var written := WrittenBack(local, cfg);
    var s' := Store(s, written, t.update);
    Progress(if t.update.Fails? then s' else s'.(writeBacks := s.writeBacks + 1), written, t.update.Succeeds?)
  }

  /** The database step. */
  function DatabaseStep(s: State, local: Spec, c: Connection, cfg: Config, t: Try): Progress {
    match Decide(local)
    case UseExternal => Progress(s, local, true)
    case DeployNothing => Progress(s, local, true)
    case DeployMariaDB(storeSecret, writeBack) =>
      var s1 := if storeSecret then ApplySecret(s, c, t.secret) else s;
      if storeSecret && !t.secret.Succeeds? then Progress(s1, local, false)
      else
        var p := Templates(s1, local, t);
        if p.ok && writeBack then WriteBack(p.s, local, cfg, t) else p
  }

  /** A whole reconcile, as far as it can change the database part. */
  function Reconcile(s: State, cfg: Config, t: Try): State {
    var c := Connect(s.spec, cfg, s.secrets, t.reachable, t.generated);
    if !t.extracted || c.None? then s
    else
      var p := DatabaseStep(s, Extracted(s.spec), c.value, cfg, t);
      if p.ok && t.storageUpdate.Some? then Store(p.s, p.local, t.storageUpdate.value) else p.s
  }

  function Run(s: State, cfg: Config, ts: seq<Try>): State {
    if ts == [] then s else Reconcile(Run(s, cfg, Init(ts)), cfg, Last(ts))
  }

  // ------------------------------------------------------------ the code's own form

  /** The DSPA object in the reconcile's hands. */
  class Dspa {
    var mariaDB: Option<MariaDB>
    const externalDB: Option<ExternalDB>
    const customExtraParams: Option<string>
    var workflowController: Option<WorkflowController>

    constructor (spec: Spec)
      ensures Value() == spec
    {
      mariaDB, workflowController := spec.mariaDB, spec.workflowController;
      externalDB, customExtraParams := spec.externalDB, spec.customExtraParams;
    }

    function Value(): Spec
      reads this
    {
      Spec(mariaDB, externalDB, customExtraParams, workflowController)
    }
  }

  class ApiServer {
    var state: State

    constructor (state: State)
      ensures this.state == state
    {
      this.state := state;
    }

    method Apply(template: Template, t: Try) returns (ok: bool)
      modifies this
      ensures ok == t.template(template).Succeeds?
      ensures state == if t.template(template).Fails? then old(state)
                       else old(state).(applied := old(state).applied + {template})
    {
      if !t.template(template).Fails? {
        state := state.(applied := state.applied + {template});
      }
      return t.template(template).Succeeds?;
    }

    method ApplyDbSecret(c: Connection, t: Try) returns (ok: bool)
      modifies this
      ensures state == ApplySecret(old(state), c, t.secret) && ok == t.secret.Succeeds?
    {
      if !t.secret.Fails? {
        state := state.(secrets := StorePassword(state.secrets, c));
      }
      return t.secret.Succeeds?;
    }

    method Update(spec: Spec, call: Call) returns (ok: bool)
      modifies this
      ensures state == Store(old(state), spec, call) && ok == call.Succeeds?
    {
      if !call.Fails? {
        state := state.(spec := spec);
      }
      return call.Succeeds?;
    }
  }

  class DspaParams {
    const cfg: Config
    var mariaDB: Option<MariaDB>
    var workflowController: Option<WorkflowController>
    var connection: Connection

    constructor (cfg: Config)
      ensures this.cfg == cfg
    {
      this.cfg := cfg;
      mariaDB, workflowController := None, None;
      connection := Connection("", "", "", "", "", SecretRef("", ""), "");
    }

    /**
     Copies the DSPA's MariaDB and workflow controller and fills in what is missing; only the latter's default
     reaches the DSPA.
     */
    method ExtractComponents(dsp: Dspa)
      modifies this, dsp`workflowController
      ensures dsp.Value() == Extracted(old(dsp.Value()))
      ensures mariaDB == dsp.mariaDB && connection == old(connection)
      ensures workflowController == Some(DefaultWorkflowController(old(dsp.workflowController), cfg))
    {
      mariaDB := dsp.mariaDB;
      if dsp.workflowController.None? {
        dsp.workflowController := Some(WorkflowController(true, "", "", None));
      }
      var w := dsp.workflowController.value;
      w := w.(image := StringDefault(cfg.argoWorkflowImage, w.image));
      w := w.(argoExecImage := StringDefault(cfg.argoExecImage, w.argoExecImage));
      w := w.(resources := ResourcesDefault(cfg.workflowResources, w.resources));
      workflowController := Some(w);
    }

    method SetupMariaDB()
      modifies this`mariaDB
      ensures mariaDB == Some(DefaultMariaDB(old(mariaDB), cfg))
    {
      if mariaDB.None? {
        mariaDB := Some(MariaDB(true, cfg.mariaDBImage, USER, None, DB_NAME, PVC_SIZE, "", Some(cfg.mariaDBResources)));
      }
      var m := mariaDB.value;
      m := m.(image := StringDefault(cfg.mariaDBImage, m.image));
      m := m.(username := StringDefault(USER, m.username));
      m := m.(dbName := StringDefault(DB_NAME, m.dbName));
      m := m.(resources := ResourcesDefault(cfg.mariaDBResources, m.resources));
      mariaDB := Some(m);
    }

    method SetupDBParams(dsp: Dspa, secrets: Secrets, reachable: bool, generated: string) returns (ok: bool)
      requires mariaDB == dsp.mariaDB
      modifies this`mariaDB, this`connection
      ensures ok == Connect(dsp.Value(), cfg, secrets, reachable, generated).Some?
      ensures ok ==> Some(connection) == Connect(dsp.Value(), cfg, secrets, reachable, generated)
      ensures mariaDB == if dsp.externalDB.Some? then old(mariaDB) else Some(DefaultMariaDB(old(mariaDB), cfg))
    {
      var c := connection;
      if dsp.externalDB.Some? {
        var e := dsp.externalDB.value;
        c := c.(host := e.host, port := e.port, username := e.username, dbName := e.dbName);
        c := c.(credentials := e.passwordSecret, extraParams := TlsParams(true));
        var password := Retrieve(ReadSecret(secrets, reachable, c.credentials.name), c.credentials.key);
        if password.None? {
          return false;
        }
        c := c.(password := password.value);
      } else {
        SetupMariaDB();
        var m := mariaDB.value;
        c := c.(host := "mariadb-" + cfg.name + "." + cfg.namespace + ".svc.cluster.local", port := HOST_PORT);
        c := c.(username := m.username, dbName := m.dbName, extraParams := TlsParams(cfg.podToPodTLS));
        c := c.(credentials := if m.passwordSecret.Some? then m.passwordSecret.value
                               else SecretRef("ds-pipeline-db-" + cfg.name, "password"));
        var password :=
            RetrieveOrCreate(ReadSecret(secrets, reachable, c.credentials.name), c.credentials.key, generated);
        if password.None? {
          return false;
        }
        c := c.(password := password.value);
      }
      if dsp.customExtraParams.Some? {
        if !cfg.validParams(dsp.customExtraParams.value) {
          return false;
        }
        c := c.(extraParams := dsp.customExtraParams.value);
      }
      connection := c;
      return c.password != "";
    }
  }

  method ApplyMariaDB(api: ApiServer, t: Try) returns (ok: bool)
    modifies api
    ensures (api.state, ok) == (old(api.state).(applied := ApplyTemplates(old(api.state.applied), t, TEMPLATES).0),
                                ApplyTemplates(old(api.state.applied), t, TEMPLATES).1)
  {
    for i := 0 to |TEMPLATES|
      invariant api.state == old(api.state).(applied := api.state.applied)
      invariant ApplyTemplates(old(api.state.applied), t, TEMPLATES) ==
          ApplyTemplates(api.state.applied, t, TEMPLATES[i..])
    {
      assert TEMPLATES[i..][1..] == TEMPLATES[i + 1..];
      ok := api.Apply(TEMPLATES[i], t);
      if !ok {
        return;
      }
    }
    assert TEMPLATES[|TEMPLATES|..] == [];
    ok := true;
  }

  /** Report the deployed default in the DSPA. */
  method StoreDefaultDB(dsp: Dspa, params: DspaParams, api: ApiServer, t: Try) returns (ok: bool)
    requires params.mariaDB == Some(DefaultMariaDB(dsp.mariaDB, params.cfg))
    modifies dsp, api
    ensures Progress(api.state, dsp.Value(), ok) == WriteBack(old(api.state), old(dsp.Value()), params.cfg, t)
  {
    dsp.mariaDB := params.mariaDB;
    dsp.mariaDB := Some(dsp.mariaDB.value.(deploy := true));
    ok := api.Update(dsp.Value(), t.update);
    if !t.update.Fails? {
      api.state := api.state.(writeBacks := api.state.writeBacks + 1);
    }
  }

  method ReconcileDatabase(dsp: Dspa, params: DspaParams, api: ApiServer, t: Try) returns (ok: bool)
    requires dsp.externalDB.None? ==> params.mariaDB == Some(DefaultMariaDB(dsp.mariaDB, params.cfg))
    modifies dsp, api
    ensures Progress(api.state, dsp.Value(), ok) ==
        DatabaseStep(old(api.state), old(dsp.Value()), params.connection, params.cfg, t)
  {
    var externalDBSpecified := dsp.externalDB.Some?;
    var mariaDBSpecified := dsp.mariaDB.Some?;
    var defaultDBRequired := !externalDBSpecified && !mariaDBSpecified;
    var deployMariaDB := mariaDBSpecified && dsp.mariaDB.value.deploy;
    var databaseCredentialsProvided := externalDBSpecified
        || (mariaDBSpecified && dsp.mariaDB.value.passwordSecret.Some?);
    if externalDBSpecified {
      return true;
    }
    if !deployMariaDB && !defaultDBRequired {
      return true;
    }
    if !databaseCredentialsProvided {
      ok := api.ApplyDbSecret(params.connection, t);
      if !ok {
        return;
      }
    }
    ok := ApplyMariaDB(api, t);
    if ok && defaultDBRequired {
      ok := StoreDefaultDB(dsp, params, api, t);
    }
  }

  /** The reconcile's steps that touch the database part, in their order. */
  method ReconcileOnce(api: ApiServer, cfg: Config, t: Try)
    modifies api
    ensures api.state == Reconcile(old(api.state), cfg, t)
  {
    var dsp := new Dspa(api.state.spec);
    var params := new DspaParams(cfg);
    params.ExtractComponents(dsp);
    var ok := params.SetupDBParams(dsp, api.state.secrets, t.reachable, t.generated);
    if !t.extracted || !ok {
      return;
    }
    ok := ReconcileDatabase(dsp, params, api, t);
    if ok && t.storageUpdate.Some? {
      ok := api.Update(dsp.Value(), t.storageUpdate.value);
    }
  }
}
