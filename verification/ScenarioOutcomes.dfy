/** What a scenario that is switched on leaves in the namespace. */
module ScenarioOutcomes {
  import opened Wrappers
  import opened ClusterObjects
  import opened Scenarios
  import opened ScenarioTheorems

  /** Objects under names of earlier versions, which no scenario keeps. */
  function Legacy(m: Scenario): set<Key> {
    match m
    case NoisyNeighbor => {LEGACY_NOISY_SCRIPT}
    case ImagePull => {LEGACY_IMAGEPULL}
    case ResourceManagement => {LEGACY_OOM, LEGACY_OOM_SCRIPT}
    case DegradedDeployments => {}
    case ShellTester => {}
  }

  /** The deployments of a scenario. */
  function Workloads(m: Scenario): set<Key> {
    match m
    case NoisyNeighbor => {HOG, SPREAD}
    case ImagePull => {CART_IMAGEPULL}
    case ResourceManagement => {EMAIL_OOM}
    case DegradedDeployments => {PAYMENTSERVICE}
    case ShellTester => {SHELL_TESTER}
  }

  ghost predicate AllWritten(m: Scenario, cfg: Config, o: Objects) {
    forall k | k in Footprint(m) - Legacy(m) :: k in o && k in Desired(m, cfg) && o[k] == Desired(m, cfg)[k]
  }

  /** Exactly what a reconcile that is switched on and does not throw leaves: nothing of its
      legacy names; all it wants, when its workloads were not right; else its scripts as it
      wants them and its workloads as they were. For the shell tester see below. */
  lemma OnWrites(m: Scenario, cfg: Config, pods: seq<Pod>, o: Objects)
    requires Reconcile(m, cfg, pods, true, o).Success?
    ensures Written(m, cfg, o, Reconcile(m, cfg, pods, true, o).value)
  {
    hide Reconcile, Written;
    match m
    case NoisyNeighbor => NoisyNeighborWrites(cfg, pods, o);
    case ImagePull => ImagePullWrites(cfg, pods, o);
    case ResourceManagement => ResourceManagementWrites(cfg, pods, o);
    case DegradedDeployments => DegradedDeploymentsWrites(cfg, pods, o);
    case ShellTester => ShellTesterWrites(cfg, pods, o);
  }

  ghost predicate Written(m: Scenario, cfg: Config, o: Objects, r: Objects) {
    && (forall k | k in Legacy(m) :: k !in r)
    && (forall k | k in Footprint(m) - Legacy(m) - Workloads(m) ::
          k in r && k in Desired(m, cfg) && r[k] == Desired(m, cfg)[k])
    && (!AlreadyRight(m, cfg, o) ==> AllWritten(m, cfg, r))
    && (AlreadyRight(m, cfg, o) && m != ShellTester ==> forall k | k in Workloads(m) :: SameAt(o, r, k))
  }

  lemma NoisyNeighborWrites(cfg: Config, pods: seq<Pod>, o: Objects)
    requires Reconcile(NoisyNeighbor, cfg, pods, true, o).Success?
    ensures Written(NoisyNeighbor, cfg, o, Reconcile(NoisyNeighbor, cfg, pods, true, o).value)
  {
    hide Env, Replicas, CurrentImage, ScriptIsUp, ShouldRecreate, Stamp, ScriptObject;
    NamesDiffer();
  }

  lemma ImagePullWrites(cfg: Config, pods: seq<Pod>, o: Objects)
    requires Reconcile(ImagePull, cfg, pods, true, o).Success?
    ensures Written(ImagePull, cfg, o, Reconcile(ImagePull, cfg, pods, true, o).value)
  {
    hide Env, Replicas, CurrentImage, ScriptIsUp, ShouldRecreate, Stamp, ScriptObject;
    NamesDiffer();
  }

  lemma ResourceManagementWrites(cfg: Config, pods: seq<Pod>, o: Objects)
    requires Reconcile(ResourceManagement, cfg, pods, true, o).Success?
    ensures Written(ResourceManagement, cfg, o, Reconcile(ResourceManagement, cfg, pods, true, o).value)
  {
    hide Env, Replicas, CurrentImage, ScriptIsUp, ShouldRecreate, Stamp, ScriptObject;
    NamesDiffer();
  }

  lemma DegradedDeploymentsWrites(cfg: Config, pods: seq<Pod>, o: Objects)
    requires Reconcile(DegradedDeployments, cfg, pods, true, o).Success?
    ensures Written(DegradedDeployments, cfg, o, Reconcile(DegradedDeployments, cfg, pods, true, o).value)
  {
    hide Env, Replicas, CurrentImage, ScriptIsUp, ShouldRecreate, Stamp, ScriptObject;
    NamesDiffer();
  }

  lemma ShellTesterWrites(cfg: Config, pods: seq<Pod>, o: Objects)
    requires Reconcile(ShellTester, cfg, pods, true, o).Success?
    ensures Written(ShellTester, cfg, o, Reconcile(ShellTester, cfg, pods, true, o).value)
  {
    hide Env, Replicas, CurrentImage, ScriptIsUp, ShouldRecreate, Stamp, ScriptObject;
    NamesDiffer();
  }

  /** After it the workloads are right by the scenario's own guard, whatever was there. */
  lemma OnMakesItRight(m: Scenario, cfg: Config, pods: seq<Pod>, o: Objects)
    requires Reconcile(m, cfg, pods, true, o).Success?
    ensures AlreadyRight(m, cfg, Reconcile(m, cfg, pods, true, o).value)
  {
    var r := Reconcile(m, cfg, pods, true, o).value;
    OnWrites(m, cfg, pods, o);
    if AlreadyRight(m, cfg, o) && m != ShellTester {
      StaysRight(m, cfg, o, r);
    } else if m != ShellTester {
      OnlySettingsThrow(m, cfg, pods, true, o);
      WrittenIsRight(m, cfg, r);
    } else {
      ShellTesterStays(cfg, pods, o);
    }
  }

  lemma StaysRight(m: Scenario, cfg: Config, o: Objects, r: Objects)
    requires AlreadyRight(m, cfg, o) && forall k | k in Workloads(m) :: SameAt(o, r, k)
    ensures AlreadyRight(m, cfg, r)
  {
    hide Env, Replicas, CurrentImage, GetDeployment;
    match m
    case NoisyNeighbor =>
      SameDeployment(o, r, HOG);
      SameDeployment(o, r, SPREAD);
    case ImagePull => SameDeployment(o, r, CART_IMAGEPULL);
    case ResourceManagement => SameDeployment(o, r, EMAIL_OOM);
    case DegradedDeployments => SameDeployment(o, r, PAYMENTSERVICE);
    case ShellTester => SameDeployment(o, r, SHELL_TESTER);
  }

  lemma WrittenIsRight(m: Scenario, cfg: Config, r: Objects)
    requires m != ShellTester && AllWritten(m, cfg, r)
    requires SettingRead(m, cfg).Some? && SettingWritten(m, cfg).Some?
    ensures AlreadyRight(m, cfg, r)
  {
    hide Env, Replicas, CurrentImage, Desired;
    match m
    case NoisyNeighbor =>
      WrittenHogSatisfiesItsGuard(cfg);
      WrittenSpreadSatisfiesItsGuard(cfg);
      assert HOG in Footprint(m) - Legacy(m) && SPREAD in Footprint(m) - Legacy(m) by {
        NamesDiffer();
      }
    case ImagePull =>
      WrittenImageSatisfiesItsGuard(cfg);
      assert CART_IMAGEPULL in Footprint(m) - Legacy(m);
    case ResourceManagement =>
      WrittenOomSatisfiesItsGuard(cfg);
      assert EMAIL_OOM in Footprint(m) - Legacy(m);
    case DegradedDeployments =>
      WrittenPaymentServiceSatisfiesItsGuard(cfg);
      assert PAYMENTSERVICE in Footprint(m) - Legacy(m);
  }

  // ---------- The shell tester and its pods ----------

  /** A container that waits after a crash or an error, or has ended. */
  predicate Broken(c: ContainerState) {
    c == Waiting("CrashLoopBackOff") || c == Waiting("Error") || c == Terminated
  }

  /** A pod whose script runs: it is running, and so is every one of its containers. */
  predicate Up(p: Pod) {
    p.phase == "Running" && p.containers != [] && forall i | 0 <= i < |p.containers| :: p.containers[i] == Running
  }

  predicate Gone(p: Pod) {
    || p.phase == "Failed" || p.phase == "Succeeded" || p.phase == "Unknown"
    || exists i | 0 <= i < |p.containers| :: Broken(p.containers[i])
  }

  /** No pod is up, and there is none or one that is gone. */
  predicate ReplaceIt(pods: seq<Pod>) {
    && (forall p | p in pods :: !Up(p))
    && (pods == [] || exists p | p in pods :: Gone(p))
  }

  /** A shell tester that is there is written again if and only if no pod of it is up and there
      is none at all or one that is gone; otherwise it is left as it was. */
  lemma ShellTesterStays(cfg: Config, pods: seq<Pod>, o: Objects)
    ensures Reconcile(ShellTester, cfg, pods, true, o).Success?
    ensures var r := Reconcile(ShellTester, cfg, pods, true, o).value;
            && SHELL_TESTER in r
            && (SHELL_TESTER in o && !ReplaceIt(pods) ==> r[SHELL_TESTER] == o[SHELL_TESTER])
            && (SHELL_TESTER !in o || ReplaceIt(pods) ==>
                  SHELL_TESTER in Desired(ShellTester, cfg)
                  && r[SHELL_TESTER] == Desired(ShellTester, cfg)[SHELL_TESTER])
  {
    hide ScriptIsUp, ShouldRecreate, Stamp, ScriptObject;
    GuardsOfThePods(pods);
    NamesDiffer();
  }

  lemma GuardsOfThePods(pods: seq<Pod>)
    ensures (exists p | p in pods :: ScriptIsUp(p)) <==> exists p | p in pods :: Up(p)
    ensures ShouldRecreate(pods) <==> pods == [] || exists p | p in pods :: Gone(p)
  {
    forall p
      ensures ScriptIsUp(p) <==> Up(p)
      ensures (exists c | c in p.containers :: c in {Waiting("CrashLoopBackOff"), Waiting("Error"), Terminated})
         <==> exists i | 0 <= i < |p.containers| :: Broken(p.containers[i])
    {
      GuardsOfOnePod(p);
    }
  }

  lemma GuardsOfOnePod(p: Pod)
    ensures ScriptIsUp(p) <==> Up(p)
    ensures (exists c | c in p.containers :: c in {Waiting("CrashLoopBackOff"), Waiting("Error"), Terminated})
       <==> exists i | 0 <= i < |p.containers| :: Broken(p.containers[i])
  {
    assert forall i | 0 <= i < |p.containers| :: p.containers[i] in p.containers;
    if c :| c in p.containers && c in {Waiting("CrashLoopBackOff"), Waiting("Error"), Terminated} {
      var i :| 0 <= i < |p.containers| && p.containers[i] == c;
      assert Broken(p.containers[i]);
    }
    if i :| 0 <= i < |p.containers| && Broken(p.containers[i]) {
      assert p.containers[i] in {Waiting("CrashLoopBackOff"), Waiting("Error"), Terminated};
    }
  }

  // ---------- What the guards read ----------

  /** `Env` reads the first container's first variable of the name; without one, or without its
      value, there is none. The image is the first container's too, and replicas left out
      count as none. */
  lemma GuardsReadTheFirst(d: DeploymentSpec, name: string)
    ensures d.containers == [] ==> Env(d, name).None? && CurrentImage(d).None?
    ensures d.containers != [] ==>
              && CurrentImage(d) == Some(d.containers[0].image)
              && var env := d.containers[0].env;
                 (forall i | 0 <= i < |env| && env[i].name == name && FirstNamed(env, i) ::
                    Env(d, name) == env[i].value)
                 && ((forall i | 0 <= i < |env| :: env[i].name != name) ==> Env(d, name).None?)
    ensures Replicas(d) == match d.replicas case Some(n) => n case None => 0
  {
    if d.containers != [] {
      FirstValueIsFirst(d.containers[0].env, name);
    }
  }

  predicate FirstNamed(env: seq<EnvVar>, i: nat)
    requires i < |env|
  {
    forall j | 0 <= j < i :: env[j].name != env[i].name
  }

  lemma {:induction false} FirstValueIsFirst(env: seq<EnvVar>, name: string)
    ensures forall i | 0 <= i < |env| && env[i].name == name && FirstNamed(env, i) ::
              FirstValue(env, name) == env[i].value
    ensures (forall i | 0 <= i < |env| :: env[i].name != name) ==> FirstValue(env, name).None?
  {
    if env != [] && env[0].name != name {
      FirstValueIsFirst(env[1..], name);
      forall i | 0 <= i < |env| && env[i].name == name && FirstNamed(env, i)
        ensures FirstValue(env, name) == env[i].value
      {
        assert env[1..][i - 1] == env[i];
        assert FirstNamed(env[1..], i - 1);
      }
    }
  }

  // ---------- What is written ----------

  /** Every deployment a scenario writes carries the controller's labels, keeps its own name as
      its label, and selects exactly pods it makes; the ones that must spread over the nodes
      keep away from their own pods. Every other object is a script. */
  lemma WrittenDeploymentsSelectTheirPods(m: Scenario, cfg: Config, k: Key)
    requires k in Desired(m, cfg)
    ensures SelectsItsPods(m, k, Desired(m, cfg)[k])
  {
    hide Stamp, SelectsItsPods;
    NamesDiffer();
    if k !in Workloads(m) {
      assert Desired(m, cfg)[k] == ScriptObject(m);
      ScriptIsManaged(m, k);
    } else {
      match m
      case NoisyNeighbor => NoisyDeployed(cfg, k);
      case ImagePull => Deployed(m, k, BadImageBody(cfg), false);
      case ResourceManagement => Deployed(m, k, OomBody(cfg, cfg.oomLimit.value), false);
      case DegradedDeployments => Deployed(m, k, DegradedBody(cfg.degradedReplicas.value), true);
      case ShellTester => Deployed(m, k, ShellBody(cfg), false);
    }
  }

  lemma NoisyDeployed(cfg: Config, k: Key)
    requires k in Desired(NoisyNeighbor, cfg) && k in {HOG, SPREAD}
    ensures SelectsItsPods(NoisyNeighbor, k, Desired(NoisyNeighbor, cfg)[k])
  {
    hide Stamp, SelectsItsPods;
    NamesDiffer();
    if k == HOG {
      Deployed(NoisyNeighbor, HOG, HogBody(cfg, cfg.noisyMibNumber.value), false);
    } else {
      Deployed(NoisyNeighbor, SPREAD, SpreadBody(cfg.spreadReplicas.value), true);
    }
  }

  predicate SelectsItsPods(m: Scenario, k: Key, d: Object) {
    && Selects(ManagedLabels(Name(m)), d.labels)
    && (d.Workload? <==> k in Workloads(m)) && (d.Script? <==> k !in Workloads(m))
    && (k in Workloads(m) ==>
          && d.spec.selector == map[LABEL := k.name] && Selects(d.spec.selector, d.templateLabels)
          && (d.spec.antiAffinity.Some? <==> k == SPREAD || k == PAYMENTSERVICE)
          && (d.spec.antiAffinity.Some? ==> d.spec.antiAffinity.value == d.spec.selector))
  }

  lemma ScriptIsManaged(m: Scenario, k: Key)
    requires k !in Workloads(m)
    ensures SelectsItsPods(m, k, ScriptObject(m))
  {
  }

  predicate DeploysFor(b: Body, k: Key, apart: bool) {
    && b.labels == b.templateLabels && LABEL in b.labels && b.labels[LABEL] == k.name
    && b.spec.selector == map[LABEL := k.name]
    && b.spec.antiAffinity == if apart then Some(b.spec.selector) else None
  }

  lemma Deployed(m: Scenario, k: Key, b: Body, apart: bool)
    requires DeploysFor(b, k, apart) && k in Workloads(m) && (apart <==> k == SPREAD || k == PAYMENTSERVICE)
    ensures SelectsItsPods(m, k, Stamp(b, Name(m)))
  {
    LabelNamesDiffer();
    assert LABEL != MANAGED_LABEL && LABEL != MODULE_LABEL && LABEL != PART_OF_LABEL by {
      assert |LABEL| == 21 && |PART_OF_LABEL| == 25 && |MANAGED_LABEL| == 28 && |MODULE_LABEL| == 30;
    }
  }

  /** The settings reach the deployments: images, replicas and the hog's size, for which its
      memory limit leaves room; and a mounted script is one the scenario writes itself. */
  lemma SettingsReachTheDeployments(m: Scenario, cfg: Config, k: Key)
    requires k in Desired(m, cfg) && k in Workloads(m) && Desired(m, cfg)[k].Workload?
    ensures AsConfigured(cfg, k, Desired(m, cfg)[k].spec) && MountsItsScript(m, cfg, k)
  {
    if m == NoisyNeighbor {
      NoisySettings(cfg, k);
    } else {
      OtherSettings(m, cfg, k);
    }
  }

  predicate MountsItsScript(m: Scenario, cfg: Config, k: Key)
    requires k in Desired(m, cfg) && Desired(m, cfg)[k].Workload?
  {
    var script := Desired(m, cfg)[k].spec.scriptVolume;
    script.Some? ==> Key(ConfigMap, script.value) in Desired(m, cfg)
  }

  lemma NoisySettings(cfg: Config, k: Key)
    requires k in Desired(NoisyNeighbor, cfg) && k in {HOG, SPREAD} && Desired(NoisyNeighbor, cfg)[k].Workload?
    ensures AsConfigured(cfg, k, Desired(NoisyNeighbor, cfg)[k].spec) && MountsItsScript(NoisyNeighbor, cfg, k)
  {
    hide Stamp, ScriptObject;
    NamesDiffer();
    StampKeepsTheSpec();
  }

  lemma OtherSettings(m: Scenario, cfg: Config, k: Key)
    requires m != NoisyNeighbor && k in Desired(m, cfg) && k in Workloads(m) && Desired(m, cfg)[k].Workload?
    ensures AsConfigured(cfg, k, Desired(m, cfg)[k].spec) && MountsItsScript(m, cfg, k)
  {
    hide Stamp, ScriptObject, OomEnv;
    NamesDiffer();
    StampKeepsTheSpec();
  }

  predicate AsConfigured(cfg: Config, k: Key, d: DeploymentSpec) {
    && d.containers != []
    && (d.replicas == if k == SPREAD then cfg.spreadReplicas
                      else if k == PAYMENTSERVICE then cfg.degradedReplicas else Some(1))
    && (k == HOG ==> d.containers[0].image == cfg.noisyImage && cfg.noisyMibNumber.Some?
                     && d.containers[0].memoryLimitMib > cfg.noisyMibNumber.value)
    && (k == CART_IMAGEPULL ==> d.containers[0].image == cfg.badImage)
    && (k == EMAIL_OOM ==> d.containers[0].image == cfg.oomImage
                           && cfg.oomLimit == Some(d.containers[0].memoryLimitMib))
    && (k == SHELL_TESTER ==> d.containers[0].image == cfg.shellImage)
    && (d.scriptVolume.None? <==> k == SPREAD || k == CART_IMAGEPULL || k == PAYMENTSERVICE)
  }

  lemma StampKeepsTheSpec()
    ensures forall b: Body, name: string :: Stamp(b, name).Workload? && Stamp(b, name).spec == b.spec
  {
  }
}
