/** The controller as it runs: API calls on a cluster, the reconcile of each module step by
    step, the sync over all of them, and the main loop with its final teardown. */
module ScenarioController {
  import opened Wrappers
  import opened ClusterObjects
  import opened Scenarios
  import opened ScenarioTheorems
  import opened ScenarioRuns

  /** The namespace behind the API. Every call may throw, before or after its effect; `refused`
      counts the calls that did. */
  class Cluster {
    var objects: Objects
    ghost var refused: nat

    constructor (objects: Objects)
      ensures this.objects == objects && refused == 0
    {
      this.objects, refused := objects, 0;
    }

    method Get(k: Key) returns (r: Result<Option<DeploymentSpec>>)
      modifies `refused
      ensures refused == old(refused) + if r.Failure? then 1 else 0
      ensures r.Success? ==> r.value == GetDeployment(objects, k)
    {
      var unreadable: bool := *;
      if unreadable {
        refused := refused + 1;
        return Failure;
      }
      return Success(GetDeployment(objects, k));
    }

    method ListPods(pods: seq<Pod>) returns (r: Result<seq<Pod>>)
      modifies `refused
      ensures refused == old(refused) + if r.Failure? then 1 else 0
      ensures r.Success? ==> r.value == pods
    {
      var unreadable: bool := *;
      if unreadable {
        refused := refused + 1;
        return Failure;
      }
      return Success(pods);
    }

    /** `_apply`: replace what is there, create what is not; tells whether it was created. */
    method Apply(k: Key, body: Object) returns (r: Result<bool>)
      modifies this
      ensures refused == old(refused) + if r.Failure? then 1 else 0
      ensures r.Success? ==> objects == old(objects)[k := body] && (r.value <==> k !in old(objects))
      ensures r.Failure? ==> objects in {old(objects), old(objects)[k := body]}
    {
      var unreadable: bool := *;
      if unreadable {
        refused := refused + 1;
        return Failure;
      }
      var created := k !in objects;
      r := Changed(objects[k := body], created);
    }

    /** `_delete`: absent objects are fine; tells whether there was one. */
    method Delete(k: Key) returns (r: Result<bool>)
      modifies this
      ensures refused == old(refused) + if r.Failure? then 1 else 0
      ensures r.Success? ==> objects == old(objects) - {k} && (r.value <==> k in old(objects))
      ensures r.Failure? ==> objects in {old(objects), old(objects) - {k}}
    {
      r := Changed(objects - {k}, k in objects);
    }

    /** A call that changes the namespace: refused, or made and its answer lost, or made. */
    method Changed(after: Objects, answer: bool) returns (r: Result<bool>)
      modifies this
      ensures refused == old(refused) + if r.Failure? then 1 else 0
      ensures r.Success? ==> objects == after && r.value == answer
      ensures objects in {old(objects), after}
    {
      var forbidden: bool := *;
      if forbidden {
        refused := refused + 1;
        return Failure;
      }
      objects := after;
      var answerLost: bool := *;
      if answerLost {
        refused := refused + 1;
        return Failure;
      }
      return Success(answer);
    }

    /** `apply_deployment` or `apply_configmap` of one of the scenario's own bodies. */
    method ApplyOwn(m: Scenario, cfg: Config, k: Key, ghost start: Objects) returns (r: Result<bool>)
      requires k in Desired(m, cfg) && Touched(m, cfg, start, objects)
      modifies this
      ensures Touched(m, cfg, start, objects)
      ensures refused == old(refused) + if r.Failure? then 1 else 0
      ensures r.Success? ==> objects == Put(old(objects), m, cfg, k)
    {
      TouchedByPut(m, cfg, start, objects, k);
      hide Touched, Desired;
      r := Apply(k, Desired(m, cfg)[k]);
    }

    method DeleteOwn(m: Scenario, cfg: Config, k: Key, ghost start: Objects) returns (r: Result<bool>)
      requires k in Footprint(m) && Touched(m, cfg, start, objects)
      modifies this
      ensures Touched(m, cfg, start, objects)
      ensures refused == old(refused) + if r.Failure? then 1 else 0
      ensures r.Success? ==> objects == old(objects) - {k}
    {
      r := Delete(k);
    }
  }

  // ---------- The five reconciles ----------

  method ReconcileNoisyNeighbor(cluster: Cluster, cfg: Config, pods: seq<Pod>, value: bool)
    returns (r: Result<()>)
    modifies cluster
    ensures Ended(NoisyNeighbor, cfg, pods, value, old(cluster.objects), cluster.objects,
                  cluster.refused - old(cluster.refused), r.Success?)
  {
    ghost var start := cluster.objects;
    NamesDiffer();
    var _ :- cluster.DeleteOwn(NoisyNeighbor, cfg, LEGACY_NOISY_SCRIPT, start);
    if !value {
      var _ :- cluster.DeleteOwn(NoisyNeighbor, cfg, HOG, start);
      var _ :- cluster.DeleteOwn(NoisyNeighbor, cfg, SPREAD, start);
      var _ :- cluster.DeleteOwn(NoisyNeighbor, cfg, NOISY_SCRIPT, start);
      assert cluster.objects == start - {LEGACY_NOISY_SCRIPT} - {HOG, SPREAD, NOISY_SCRIPT};
      return Success(());
    }
    var _ :- cluster.ApplyOwn(NoisyNeighbor, cfg, NOISY_SCRIPT, start);
    if cfg.spreadReplicas.None? {
      return Failure;
    }
    var hog :- cluster.Get(HOG);
    var spread :- cluster.Get(SPREAD);
    var hogOk := hog.Some? && Env(hog.value, "MEMORY_MIB") == Some(cfg.noisyMib);
    var spreadOk := spread.Some? && Replicas(spread.value) == cfg.spreadReplicas.value;
    if hogOk && spreadOk {
      return Success(());
    }
    if cfg.noisyMibNumber.None? {
      return Failure;
    }
    var _ :- cluster.ApplyOwn(NoisyNeighbor, cfg, HOG, start);
    var _ :- cluster.ApplyOwn(NoisyNeighbor, cfg, SPREAD, start);
    return Success(());
  }

  method ReconcileImagePull(cluster: Cluster, cfg: Config, pods: seq<Pod>, value: bool)
    returns (r: Result<()>)
    modifies cluster
    ensures Ended(ImagePull, cfg, pods, value, old(cluster.objects), cluster.objects,
                  cluster.refused - old(cluster.refused), r.Success?)
  {
    ghost var start := cluster.objects;
    var legacy :- cluster.Get(LEGACY_IMAGEPULL);
    if legacy.Some? {
      var _ :- cluster.DeleteOwn(ImagePull, cfg, LEGACY_IMAGEPULL, start);
    }
    var current :- cluster.Get(CART_IMAGEPULL);
    if !value {
      if current.Some? {
        var _ :- cluster.DeleteOwn(ImagePull, cfg, CART_IMAGEPULL, start);
      }
      return Success(());
    }
    if current.Some? && CurrentImage(current.value) == Some(cfg.badImage) {
      return Success(());
    }
    var _ :- cluster.ApplyOwn(ImagePull, cfg, CART_IMAGEPULL, start);
    return Success(());
  }

  method ReconcileResourceManagement(cluster: Cluster, cfg: Config, pods: seq<Pod>, value: bool)
    returns (r: Result<()>)
    modifies cluster
    ensures Ended(ResourceManagement, cfg, pods, value, old(cluster.objects), cluster.objects,
                  cluster.refused - old(cluster.refused), r.Success?)
  {
    ghost var start := cluster.objects;
    NamesDiffer();
    var _ :- cluster.DeleteOwn(ResourceManagement, cfg, LEGACY_OOM, start);
    var _ :- cluster.DeleteOwn(ResourceManagement, cfg, LEGACY_OOM_SCRIPT, start);
    assert cluster.objects == start - {LEGACY_OOM, LEGACY_OOM_SCRIPT};
    if !value {
      var _ :- cluster.DeleteOwn(ResourceManagement, cfg, EMAIL_OOM, start);
      var _ :- cluster.DeleteOwn(ResourceManagement, cfg, EMAIL_OOM_SCRIPT, start);
      assert cluster.objects == start - {LEGACY_OOM, LEGACY_OOM_SCRIPT} - {EMAIL_OOM, EMAIL_OOM_SCRIPT};
      return Success(());
    }
    var _ :- cluster.ApplyOwn(ResourceManagement, cfg, EMAIL_OOM_SCRIPT, start);
    var current :- cluster.Get(EMAIL_OOM);
    if current.Some? && Env(current.value, "MEMORY_STEP_SECONDS").Some? {
      return Success(());
    }
    if cfg.oomLimit.None? {
      return Failure;
    }
    var _ :- cluster.ApplyOwn(ResourceManagement, cfg, EMAIL_OOM, start);
    return Success(());
  }

  method ReconcileDegradedDeployments(cluster: Cluster, cfg: Config, pods: seq<Pod>, value: bool)
    returns (r: Result<()>)
    modifies cluster
    ensures Ended(DegradedDeployments, cfg, pods, value, old(cluster.objects), cluster.objects,
                  cluster.refused - old(cluster.refused), r.Success?)
  {
    ghost var start := cluster.objects;
    var current :- cluster.Get(PAYMENTSERVICE);
    if !value {
      if current.Some? {
        var _ :- cluster.DeleteOwn(DegradedDeployments, cfg, PAYMENTSERVICE, start);
      }
      return Success(());
    }
    if cfg.degradedReplicas.None? {
      return Failure;
    }
    if current.Some? && Replicas(current.value) == cfg.degradedReplicas.value {
      return Success(());
    }
    var _ :- cluster.ApplyOwn(DegradedDeployments, cfg, PAYMENTSERVICE, start);
    return Success(());
  }

  method ReconcileShellTester(cluster: Cluster, cfg: Config, pods: seq<Pod>, value: bool)
    returns (r: Result<()>)
    modifies cluster
    ensures Ended(ShellTester, cfg, pods, value, old(cluster.objects), cluster.objects,
                  cluster.refused - old(cluster.refused), r.Success?)
  {
    ghost var start := cluster.objects;
    NamesDiffer();
    if !value {
      var _ :- cluster.DeleteOwn(ShellTester, cfg, SHELL_TESTER, start);
      var _ :- cluster.DeleteOwn(ShellTester, cfg, SHELL_TESTER_SCRIPT, start);
      assert cluster.objects == start - {SHELL_TESTER, SHELL_TESTER_SCRIPT};
      return Success(());
    }
    var _ :- cluster.ApplyOwn(ShellTester, cfg, SHELL_TESTER_SCRIPT, start);
    var current :- cluster.Get(SHELL_TESTER);
    if current.None? {
      var _ :- cluster.ApplyOwn(ShellTester, cfg, SHELL_TESTER, start);
      return Success(());
    }
    var found :- cluster.ListPods(pods);
    if exists p | p in found :: ScriptIsUp(p) {
      return Success(());
    }
    if ShouldRecreate(found) {
      var _ :- cluster.ApplyOwn(ShellTester, cfg, SHELL_TESTER, start);
    }
    return Success(());
  }

  method ReconcileScenario(m: Scenario, cluster: Cluster, cfg: Config, pods: seq<Pod>, value: bool)
    returns (r: Result<()>)
    modifies cluster
    ensures Ended(m, cfg, pods, value, old(cluster.objects), cluster.objects,
                  cluster.refused - old(cluster.refused), r.Success?)
  {
    match m {
      case NoisyNeighbor => r := ReconcileNoisyNeighbor(cluster, cfg, pods, value);
      case ImagePull => r := ReconcileImagePull(cluster, cfg, pods, value);
      case ResourceManagement => r := ReconcileResourceManagement(cluster, cfg, pods, value);
      case DegradedDeployments => r := ReconcileDegradedDeployments(cluster, cfg, pods, value);
      case ShellTester => r := ReconcileShellTester(cluster, cfg, pods, value);
    }
  }

  // ---------- The loop ----------

  class Controller {
    const cluster: Cluster
    const cfg: Config
    /** The last flag value seen for each scenario. */
    var previous: map<Scenario, bool>
    /** The namespace at the start, and every turn since. */
    ghost const found: Objects
    ghost var turns: seq<Turn>

    ghost predicate Valid()
      reads this, cluster
    {
      Chain(cfg, turns, found, cluster.objects) && cluster.refused == Refused(turns)
    }

    constructor (cluster: Cluster, cfg: Config)
      requires cluster.refused == 0
      ensures Valid() && this.cluster == cluster && this.cfg == cfg && found == cluster.objects && turns == []
    {
      this.cluster, this.cfg, previous, found, turns := cluster, cfg, map[], cluster.objects, [];
    }

    /** One scenario with a flag value; what it throws is swallowed. */
    method Handle(m: Scenario, value: bool, pods: seq<Pod>) returns (ghost turn: Turn)
      requires Valid()
      modifies `turns, cluster
      ensures Valid() && turns == old(turns) + [turn]
      ensures turn.scenario == m && turn.read == Value(value) && turn.pods == pods
    {
      ghost var before, already := cluster.objects, cluster.refused;
      var r := ReconcileScenario(m, cluster, cfg, pods, value);
      turn := Turn(m, Value(value), pods, before, cluster.objects, r.Success?, cluster.refused - already);
      ChainSnoc(cfg, turns, found, turn);
      turns := turns + [turn];
    }

    /** The namespace is left alone when flagd cannot be reached. */
    ghost method PassOver(m: Scenario, answer: Read, pods: seq<Pod>) returns (turn: Turn)
      requires Valid() && !answer.Value?
      modifies `turns
      ensures Valid() && turns == old(turns) + [turn]
      ensures turn == Turn(m, answer, pods, cluster.objects, cluster.objects, false, 0)
    {
      turn := Turn(m, answer, pods, cluster.objects, cluster.objects, false, 0);
      ChainSnoc(cfg, turns, found, turn);
      turns := turns + [turn];
    }

    /** One pass over the scenarios with what the flag service gives for each. */
    method SyncFromFlagd(modules: seq<Scenario>, answers: seq<Read>, pods: seq<Pod>) returns (ghost pass: seq<Turn>)
      requires Valid() && |answers| == |modules|
      modifies this, cluster
      ensures Valid() && turns == old(turns) + pass && IsPass(pass, modules, answers, pods)
      ensures previous == Seen(old(previous), modules, answers)
    {
      hide Chain, IsPass, Seen, Refused;
      pass := [];
      NothingRead(previous);
      assert modules[..0] == [] && answers[..0] == [];
      for i := 0 to |modules|
        invariant Valid() && turns == old(turns) + pass && IsPass(pass, modules[..i], answers[..i], pods)
        invariant previous == Seen(old(previous), modules[..i], answers[..i])
      {
        var m, answer := modules[i], answers[i];
        assert modules[..i + 1] == modules[..i] + [m] && answers[..i + 1] == answers[..i] + [answer];
        SeenSnoc(old(previous), modules[..i], answers[..i], m, answer);
        ghost var turn: Turn;
        if answer.Value? {
          if m !in previous || previous[m] != answer.on {
            previous := previous[m := answer.on];
          }
          turn := Handle(m, answer.on, pods);
        } else {
          turn := PassOver(m, answer, pods);
        }
        PassSnoc(pass, modules[..i], answers[..i], pods, turn);
        pass := pass + [turn];
      }
      assert modules[..|modules|] == modules && answers[..|modules|] == answers;
    }

    /** Every scenario is turned off, each on its own account. */
    method StopAllScenarios(modules: seq<Scenario>, pods: seq<Pod>) returns (ghost pass: seq<Turn>)
      requires Valid()
      modifies `turns, cluster
      ensures Valid() && turns == old(turns) + pass
      ensures IsStop(pass, modules)
    {
      hide Chain;
      pass := [];
      for i := 0 to |modules|
        invariant Valid() && turns == old(turns) + pass && |pass| == i
        invariant forall j | 0 <= j < i :: pass[j].scenario == modules[j] && pass[j].read == Value(false)
      {
        ghost var turn := Handle(modules[i], false, pods);
        pass := pass + [turn];
      }
    }

    /** The startup sync, any number of polls, and the teardown that runs however they end:
        `front` are the turns of the syncs, `stop` those of the teardown. Objects of no loaded
        scenario are as they were found; a scenario whose teardown went through has no object
        left, and when no call of the teardown was refused that is true of every scenario. */
    method Serve(modules: seq<Scenario>, startup: Poll, polls: seq<Poll>, pods: seq<Pod>)
      returns (ghost front: seq<Turn>, ghost stop: seq<Turn>)
      requires Valid() && turns == [] && Distinct(modules)
      requires |startup.answers| == |modules| && forall p | p in polls :: |p.answers| == |modules|
      modifies this, cluster
      ensures Valid() && turns == front + stop
      ensures ArePasses(front, modules, [startup] + polls)
      ensures IsStop(stop, modules)
      ensures forall k | !OwnedBy(modules, k) :: SameAt(found, cluster.objects, k)
      ensures forall i | 0 <= i < |modules| && stop[i].refused == 0 :: stop[i].done
      ensures forall i, k | 0 <= i < |modules| && stop[i].refused == 0 && k in Footprint(modules[i]) ::
                k !in cluster.objects
      ensures Refused(stop) == 0 ==> forall k | OwnedBy(modules, k) :: k !in cluster.objects
    {
      hide Chain, Seen, Footprint, IsPass, ArePasses, IsStop, OwnedBy, SameAt, Distinct, Refused;
      ghost var pass := SyncFromFlagd(modules, startup.answers, startup.pods);
      PassesSnoc([], pass, modules, [], startup);
      assert [] + pass == pass && [] + [startup] == [startup] == [startup] + polls[..0];
      for n := 0 to |polls|
        invariant Valid() && ArePasses(turns, modules, [startup] + polls[..n])
      {
        front := turns;
        pass := SyncFromFlagd(modules, polls[n].answers, polls[n].pods);
        PassesSnoc(front, pass, modules, [startup] + polls[..n], polls[n]);
        assert [startup] + polls[..n] + [polls[n]] == [startup] + polls[..n + 1];
      }
      assert polls[..|polls|] == polls;
      front := turns;
      stop := StopAllScenarios(modules, pods);
      StopLeavesNothing(cfg, front, stop, modules, [startup] + polls, found, cluster.objects);
    }
  }

  /** What one sync reads: a flag for each scenario, and the pods of the shell tester. */
  datatype Poll = Poll(answers: seq<Read>, pods: seq<Pod>)

  /** One pass after the other, one for each poll. */
  predicate ArePasses(ts: seq<Turn>, modules: seq<Scenario>, polls: seq<Poll>)
    requires forall p | p in polls :: |p.answers| == |modules|
    decreases |polls|
  {
    if polls == [] then ts == []
    else
      var n, last := |ts| - |modules|, polls[|polls| - 1];
      && n >= 0 && IsPass(ts[n..], modules, last.answers, last.pods)
      && ArePasses(ts[..n], modules, polls[..|polls| - 1])
  }

  lemma PassesSnoc(ts: seq<Turn>, pass: seq<Turn>, modules: seq<Scenario>, polls: seq<Poll>, p: Poll)
    requires |p.answers| == |modules| && forall q | q in polls :: |q.answers| == |modules|
    requires IsPass(pass, modules, p.answers, p.pods) && ArePasses(ts, modules, polls)
    ensures ArePasses(ts + pass, modules, polls + [p])
  {
  }

  lemma {:induction false} PassesAreOfModules(ts: seq<Turn>, modules: seq<Scenario>, polls: seq<Poll>)
    requires forall p | p in polls :: |p.answers| == |modules|
    requires ArePasses(ts, modules, polls)
    ensures forall t | t in ts :: t.scenario in modules
    decreases |polls|
  {
    if polls != [] {
      var n := |ts| - |modules|;
      PassesAreOfModules(ts[..n], modules, polls[..|polls| - 1]);
      assert ts == ts[..n] + ts[n..];
    }
  }

  /** One turn for each scenario, in order, with its default. */
  predicate IsStop(stop: seq<Turn>, modules: seq<Scenario>) {
    && |stop| == |modules|
    && forall i | 0 <= i < |stop| :: stop[i].scenario == modules[i] && stop[i].read == Value(false)
  }

  /** Syncs and then a teardown, whatever failed: only owned objects may differ from those found,
      and what a teardown turn without a refused call owns is gone. */
  lemma StopLeavesNothing(cfg: Config, front: seq<Turn>, stop: seq<Turn>, modules: seq<Scenario>, polls: seq<Poll>,
                          a: Objects, b: Objects)
    requires forall p | p in polls :: |p.answers| == |modules|
    requires ArePasses(front, modules, polls) && IsStop(stop, modules) && Distinct(modules)
    requires Chain(cfg, front + stop, a, b)
    ensures forall k | !OwnedBy(modules, k) :: SameAt(a, b, k)
    ensures forall i | 0 <= i < |modules| && stop[i].refused == 0 :: stop[i].done
    ensures forall i, k | 0 <= i < |modules| && stop[i].refused == 0 && k in Footprint(modules[i]) :: k !in b
    ensures Refused(stop) == 0 ==> forall k | OwnedBy(modules, k) :: k !in b
  {
    hide Chain, Footprint, ArePasses, SameAt;
    PassesAreOfModules(front, modules, polls);
    forall k | !OwnedBy(modules, k)
      ensures SameAt(a, b, k)
    {
      UnownedNeverChanges(cfg, front + stop, a, b, k);
    }
    forall i | 0 <= i < |modules| && stop[i].refused == 0
      ensures stop[i].done && forall k | k in Footprint(modules[i]) :: k !in b
    {
      StopClears(cfg, front, stop, modules, a, b, i);
    }
    if Refused(stop) == 0 {
      forall k | OwnedBy(modules, k)
        ensures k !in b
      {
        var i :| 0 <= i < |modules| && k in Footprint(modules[i]);
        NoneRefused(stop, i);
      }
    }
  }

  lemma StopClears(cfg: Config, front: seq<Turn>, stop: seq<Turn>, modules: seq<Scenario>, a: Objects, b: Objects,
                   i: nat)
    requires Chain(cfg, front + stop, a, b) && Distinct(modules) && IsStop(stop, modules)
    requires i < |modules| && stop[i].refused == 0
    ensures stop[i].done && forall k | k in Footprint(modules[i]) :: k !in b
  {
    hide Chain, Footprint;
    var ts := front + stop;
    assert ts[|front| + i] == stop[i];
    forall j | |front| + i < j < |ts|
      ensures ts[j].scenario != modules[i]
    {
      assert ts[j] == stop[j - |front|];
    }
    TeardownLeavesNothing(cfg, ts, a, b, |front| + i);
  }

  /** One turn for each scenario, in order, with what was read for it. */
  predicate IsPass(pass: seq<Turn>, modules: seq<Scenario>, answers: seq<Read>, pods: seq<Pod>)
    requires |answers| == |modules|
  {
    && |pass| == |modules|
    && forall i | 0 <= i < |pass| ::
         pass[i].scenario == modules[i] && pass[i].read == answers[i] && pass[i].pods == pods
  }

  /** The values a pass leaves in `previous`: the last one read for each scenario. */
  function Seen(previous: map<Scenario, bool>, modules: seq<Scenario>, answers: seq<Read>): map<Scenario, bool>
    requires |modules| == |answers|
  {
    if modules == [] then previous
    else
      var n := |modules| - 1;
      var before := Seen(previous, modules[..n], answers[..n]);
      if answers[n].Value? then before[modules[n] := answers[n].on] else before
  }

  lemma NothingRead(previous: map<Scenario, bool>)
    ensures Seen(previous, [], []) == previous && forall pods :: IsPass([], [], [], pods)
  {
  }

  lemma SeenSnoc(previous: map<Scenario, bool>, modules: seq<Scenario>, answers: seq<Read>, m: Scenario, answer: Read)
    requires |modules| == |answers|
    ensures var before := Seen(previous, modules, answers);
            Seen(previous, modules + [m], answers + [answer])
            == if answer.Value? then before[m := answer.on] else before
  {
    assert (modules + [m])[..|modules|] == modules && (answers + [answer])[..|answers|] == answers;
  }

  lemma PassSnoc(pass: seq<Turn>, modules: seq<Scenario>, answers: seq<Read>, pods: seq<Pod>, t: Turn)
    requires |modules| == |answers| && IsPass(pass, modules, answers, pods)
    ensures forall m, answer | t.scenario == m && t.read == answer && t.pods == pods ::
              IsPass(pass + [t], modules + [m], answers + [answer], pods)
  {
  }
}
