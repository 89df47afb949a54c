/** The five scenario modules: what each owns, what it writes, and the outcome of a reconcile
    in which no API call fails. */
module Scenarios {
  import opened Wrappers
  import opened ClusterObjects

  datatype Scenario = DegradedDeployments | ImagePull | NoisyNeighbor | ResourceManagement | ShellTester

  /** The settings read from the environment. A number is absent when its text is not one,
      and then `int()` throws. */
  datatype Config = Config(
    noisyMib: string, noisyMibNumber: Option<int>, spreadReplicas: Option<int>, noisyImage: string,
    oomLimit: Option<int>, oomImage: string, badImage: string, degradedReplicas: Option<int>,
    shellImage: string, shellMetric: string, shellInterval: string)

  datatype ContainerState = Unreported | Running | Waiting(reason: string) | Terminated

  datatype Pod = Pod(phase: string, containers: seq<ContainerState>)

  const HOG := Key(Deployment, "otel-collector-noisy")
  const SPREAD := Key(Deployment, "storefront-spread")
  const NOISY_SCRIPT := Key(ConfigMap, "noisy-neighbor-script")
  const LEGACY_NOISY_SCRIPT := Key(ConfigMap, "noisy-neighbour-script")
  const CART_IMAGEPULL := Key(Deployment, "cart-imagepull")
  const LEGACY_IMAGEPULL := Key(Deployment, "payment-imagepull")
  const EMAIL_OOM := Key(Deployment, "email-oom")
  const EMAIL_OOM_SCRIPT := Key(ConfigMap, "email-oom-script")
  const LEGACY_OOM := Key(Deployment, "paymentservice-oom")
  const LEGACY_OOM_SCRIPT := Key(ConfigMap, "paymentservice-oom-script")
  const PAYMENTSERVICE := Key(Deployment, "paymentservice")
  const SHELL_TESTER := Key(Deployment, "shell-tester")
  const SHELL_TESTER_SCRIPT := Key(ConfigMap, "shell-tester-script")

  /** The objects a scenario may touch. */
  function Footprint(m: Scenario): set<Key> {
    match m
    case NoisyNeighbor => {HOG, SPREAD, NOISY_SCRIPT, LEGACY_NOISY_SCRIPT}
    case ImagePull => {CART_IMAGEPULL, LEGACY_IMAGEPULL}
    case ResourceManagement => {EMAIL_OOM, EMAIL_OOM_SCRIPT, LEGACY_OOM, LEGACY_OOM_SCRIPT}
    case DegradedDeployments => {PAYMENTSERVICE}
    case ShellTester => {SHELL_TESTER, SHELL_TESTER_SCRIPT}
  }

  function Name(m: Scenario): string {
    match m
    case NoisyNeighbor => "noisy-neighbor"
    case ImagePull => "image-pull"
    case ResourceManagement => "resource-management"
    case DegradedDeployments => "degraded-deployments"
    case ShellTester => "shell-tester"
  }

  lemma FootprintsAreDisjoint(m: Scenario, n: Scenario)
    requires m != n
    ensures Footprint(m) !! Footprint(n)
  {
    NamesDiffer();
  }

  lemma NamesDiffer()
    ensures |HOG.name| == 20 && |SPREAD.name| == 17 && |EMAIL_OOM.name| == 9 && |SHELL_TESTER.name| == 12
    ensures |CART_IMAGEPULL.name| == |PAYMENTSERVICE.name| == 14 && CART_IMAGEPULL.name != PAYMENTSERVICE.name
    ensures |LEGACY_IMAGEPULL.name| == 17 && |LEGACY_OOM.name| == 18 && SPREAD.name != LEGACY_IMAGEPULL.name
    ensures |NOISY_SCRIPT.name| == 21 && |LEGACY_NOISY_SCRIPT.name| == 22 && |EMAIL_OOM_SCRIPT.name| == 16
    ensures |LEGACY_OOM_SCRIPT.name| == 25 && |SHELL_TESTER_SCRIPT.name| == 19
  {
    assert CART_IMAGEPULL.name[0] == 'c' && PAYMENTSERVICE.name[0] == 'p';
    assert SPREAD.name[0] == 's' && LEGACY_IMAGEPULL.name[0] == 'p';
  }

  // ---------- What each scenario writes ----------

  const LABEL := "opentelemetry.io/name"

  function WorkloadLabels(name: string, component: string): Labels {
    map[LABEL := name, "app.kubernetes.io/name" := name, "app.kubernetes.io/component" := component]
  }

  function Deploy(key: Key, component: string, replicas: int, container: Container, antiAffinity: bool,
                  script: Option<string>): Body
  {
    var labels := WorkloadLabels(key.name, component);
    var selector := map[LABEL := key.name];
    Body(key.name, labels, labels, true,
         DeploymentSpec(Some(replicas), selector, [container], if antiAffinity then Some(selector) else None, script))
  }

  const PAUSE := Container("pause", "registry.k8s.io/pause:3.10", [], 16)

  function HogBody(cfg: Config, mib: int): Body {
    Deploy(HOG, "noisy-neighbor", 1,
           Container("sandbox", cfg.noisyImage, [EnvVar("MEMORY_MIB", Some(cfg.noisyMib))], mib + 64),
           false, Some(NOISY_SCRIPT.name))
  }

  function SpreadBody(replicas: int): Body {
    Deploy(SPREAD, "noisy-neighbor", replicas, PAUSE, true, None)
  }

  function BadImageBody(cfg: Config): Body {
    Deploy(CART_IMAGEPULL, CART_IMAGEPULL.name, 1, Container("cart-imagepull", cfg.badImage, [], 16), false, None)
  }

  function OomEnv(): seq<EnvVar> {
    [EnvVar("NODE_IP", None), EnvVar("OTLP_ENDPOINT", Some("http://$(NODE_IP):4318")),
     EnvVar("OTEL_SERVICE_NAME", Some("email")), EnvVar("MEMORY_WARMUP_SECONDS", Some("20")),
     EnvVar("MEMORY_START_MIB", Some("16")), EnvVar("MEMORY_STEP_MIB", Some("20")),
     EnvVar("MEMORY_STEP_SECONDS", Some("30")), EnvVar("HEALTH_FAIL_MIB", Some("80"))]
  }

  function OomBody(cfg: Config, limit: int): Body {
    Deploy(EMAIL_OOM, EMAIL_OOM.name, 1, Container("email", cfg.oomImage, OomEnv(), limit), false,
           Some(EMAIL_OOM_SCRIPT.name))
  }

  function DegradedBody(replicas: int): Body {
    Deploy(PAYMENTSERVICE, PAYMENTSERVICE.name, replicas, PAUSE, true, None)
  }

  function ShellBody(cfg: Config): Body {
    Deploy(SHELL_TESTER, SHELL_TESTER.name, 1,
           Container("shell-tester", cfg.shellImage,
                     [EnvVar("NODE_IP", None), EnvVar("OTLP_ENDPOINT", Some("http://$(NODE_IP):4318")),
                      EnvVar("METRIC_NAME", Some(cfg.shellMetric)),
                      EnvVar("INTERVAL_SECONDS", Some(cfg.shellInterval))], 16),
           false, Some(SHELL_TESTER_SCRIPT.name))
  }

  /** The text of a script is named by its file. */
  function ScriptData(m: Scenario): map<string, string> {
    match m
    case NoisyNeighbor => map["hog.py" := "hog"]
    case ResourceManagement => map["oom-loop.py" := "oom-loop"]
    case ShellTester => map["emit-metric.sh" := "emit-metric"]
    case _ => map[]
  }

  function ScriptObject(m: Scenario): Object {
    Script(ManagedLabels(Name(m)), ScriptData(m))
  }

  /** Everything a scenario can write, by key. */
  function Desired(m: Scenario, cfg: Config): Objects {
    match m
    case NoisyNeighbor =>
      map[NOISY_SCRIPT := ScriptObject(m)]
      + (if cfg.noisyMibNumber.Some? then map[HOG := Stamp(HogBody(cfg, cfg.noisyMibNumber.value), Name(m))] else map[])
      + (if cfg.spreadReplicas.Some? then map[SPREAD := Stamp(SpreadBody(cfg.spreadReplicas.value), Name(m))]
         else map[])
    case ImagePull => map[CART_IMAGEPULL := Stamp(BadImageBody(cfg), Name(m))]
    case ResourceManagement =>
      map[EMAIL_OOM_SCRIPT := ScriptObject(m)]
      + (if cfg.oomLimit.Some? then map[EMAIL_OOM := Stamp(OomBody(cfg, cfg.oomLimit.value), Name(m))] else map[])
    case DegradedDeployments =>
      if cfg.degradedReplicas.Some? then map[PAYMENTSERVICE := Stamp(DegradedBody(cfg.degradedReplicas.value), Name(m))]
      else map[]
    case ShellTester =>
      map[SHELL_TESTER_SCRIPT := ScriptObject(m), SHELL_TESTER := Stamp(ShellBody(cfg), Name(m))]
  }

  // ---------- The guards ----------

  const NO_SPEC := DeploymentSpec(None, map[], [], None, None)

  /** `get_deployment`; every object under a deployment's name has a spec. */
  function GetDeployment(o: Objects, k: Key): Option<DeploymentSpec> {
    if k !in o then None else Some(if o[k].Workload? then o[k].spec else NO_SPEC)
  }

  /** `_env`: the first variable of that name in the first container; none when it has no value. */
  function Env(d: DeploymentSpec, name: string): Option<string> {
    if d.containers == [] then None else FirstValue(d.containers[0].env, name)
  }

  function FirstValue(env: seq<EnvVar>, name: string): Option<string> {
    if env == [] then None
    else if env[0].name == name then env[0].value
    else FirstValue(env[1..], name)
  }

  /** `int(spec.replicas or 0)` */
  function Replicas(d: DeploymentSpec): int {
    if d.replicas.None? then 0 else d.replicas.value
  }

  function CurrentImage(d: DeploymentSpec): Option<string> {
    if d.containers == [] then None else Some(d.containers[0].image)
  }

  predicate ScriptIsUp(p: Pod) {
    p.phase == "Running" && p.containers != [] && forall c | c in p.containers :: c == Running
  }

  predicate ShouldRecreate(pods: seq<Pod>) {
    pods == [] || exists p | p in pods ::
      p.phase in {"Failed", "Succeeded", "Unknown"}
      || exists c | c in p.containers :: c in {Waiting("CrashLoopBackOff"), Waiting("Error"), Terminated}
  }

  // ---------- A reconcile without API errors ----------

  function Put(o: Objects, m: Scenario, cfg: Config, k: Key): Objects
    requires k in Desired(m, cfg)
  {
    o[k := Desired(m, cfg)[k]]
  }

  /** The namespace after `reconcile(value)`; `Failure` when reading a setting throws. */
  function Reconcile(m: Scenario, cfg: Config, pods: seq<Pod>, value: bool, o: Objects): Result<Objects> {
    match m
    case NoisyNeighbor =>
      var o1 := o - {LEGACY_NOISY_SCRIPT};
      if !value then Success(o1 - {HOG, SPREAD, NOISY_SCRIPT})
      else
        var o2 := Put(o1, m, cfg, NOISY_SCRIPT);
        if cfg.spreadReplicas.None? then Failure
        else
          var hog, spread := GetDeployment(o2, HOG), GetDeployment(o2, SPREAD);
          var hogOk := hog.Some? && Env(hog.value, "MEMORY_MIB") == Some(cfg.noisyMib);
          var spreadOk := spread.Some? && Replicas(spread.value) == cfg.spreadReplicas.value;
          if hogOk && spreadOk then Success(o2)
          else if cfg.noisyMibNumber.None? then Failure
          else Success(Put(Put(o2, m, cfg, HOG), m, cfg, SPREAD))
    case ImagePull =>
      var o1 := if GetDeployment(o, LEGACY_IMAGEPULL).Some? then o - {LEGACY_IMAGEPULL} else o;
      var current := GetDeployment(o1, CART_IMAGEPULL);
      if !value then Success(if current.Some? then o1 - {CART_IMAGEPULL} else o1)
      else if current.Some? && CurrentImage(current.value) == Some(cfg.badImage) then Success(o1)
      else Success(Put(o1, m, cfg, CART_IMAGEPULL))
    case ResourceManagement =>
      var o1 := o - {LEGACY_OOM, LEGACY_OOM_SCRIPT};
      if !value then Success(o1 - {EMAIL_OOM, EMAIL_OOM_SCRIPT})
      else
        var o2 := Put(o1, m, cfg, EMAIL_OOM_SCRIPT);
        var current := GetDeployment(o2, EMAIL_OOM);
        if current.Some? && Env(current.value, "MEMORY_STEP_SECONDS").Some? then Success(o2)
        else if cfg.oomLimit.None? then Failure
        else Success(Put(o2, m, cfg, EMAIL_OOM))
    case DegradedDeployments =>
      var current := GetDeployment(o, PAYMENTSERVICE);
      if !value then Success(if current.Some? then o - {PAYMENTSERVICE} else o)
      else if cfg.degradedReplicas.None? then Failure
      else if current.Some? && Replicas(current.value) == cfg.degradedReplicas.value then Success(o)
      else Success(Put(o, m, cfg, PAYMENTSERVICE))
    case ShellTester =>
      if !value then Success(o - {SHELL_TESTER, SHELL_TESTER_SCRIPT})
      else
        var o1 := Put(o, m, cfg, SHELL_TESTER_SCRIPT);
        if GetDeployment(o1, SHELL_TESTER).None? then Success(Put(o1, m, cfg, SHELL_TESTER))
        else if exists p | p in pods :: ScriptIsUp(p) then Success(o1)
        else if ShouldRecreate(pods) then Success(Put(o1, m, cfg, SHELL_TESTER))
        else Success(o1)
  }
}
