/** What every scenario's reconcile keeps, and a full sync over all of them. */
module ScenarioTheorems {
  import opened Wrappers
  import opened ClusterObjects
  import opened Scenarios

  lemma DesiredIsOwned(m: Scenario, cfg: Config)
    ensures Desired(m, cfg).Keys <= Footprint(m)
  {
  }

  /** Nothing outside its footprint changes. */
  lemma ReconcileFrames(m: Scenario, cfg: Config, pods: seq<Pod>, value: bool, o: Objects)
    requires Reconcile(m, cfg, pods, value, o).Success?
    ensures SameOutside(o, Reconcile(m, cfg, pods, value, o).value, Footprint(m))
  {
    hide Desired;
  }

  lemma SameDeployment(a: Objects, b: Objects, k: Key)
    requires SameAt(a, b, k)
    ensures GetDeployment(a, k) == GetDeployment(b, k)
  {
  }

  /** From both, it does the same to its footprint or throws. */
  ghost predicate LocalAt(m: Scenario, cfg: Config, pods: seq<Pod>, value: bool, a: Objects, b: Objects) {
    var ra, rb := Reconcile(m, cfg, pods, value, a), Reconcile(m, cfg, pods, value, b);
    && (ra.Success? <==> rb.Success?)
    && (ra.Success? ==> SameOn(ra.value, rb.value, Footprint(m)))
  }

  lemma NoisyNeighborIsLocal(cfg: Config, pods: seq<Pod>, value: bool, a: Objects, b: Objects)
    requires SameOn(a, b, Footprint(NoisyNeighbor))
    ensures LocalAt(NoisyNeighbor, cfg, pods, value, a, b)
  {
    hide Desired, Env, Replicas;
    NamesDiffer();
    assert SameAt(a, b, HOG) && SameAt(a, b, SPREAD) && SameAt(a, b, NOISY_SCRIPT);
  }

  lemma OthersAreLocal(m: Scenario, cfg: Config, pods: seq<Pod>, value: bool, a: Objects, b: Objects)
    requires m != NoisyNeighbor && SameOn(a, b, Footprint(m))
    ensures LocalAt(m, cfg, pods, value, a, b)
  {
    hide Desired, Env, Replicas, CurrentImage, ScriptIsUp, ShouldRecreate;
    NamesDiffer();
    forall k | k in Footprint(m)
      ensures SameAt(a, b, k) && GetDeployment(a, k) == GetDeployment(b, k)
    {
      SameDeployment(a, b, k);
    }
  }

  /** Nothing outside its footprint matters to it: neither to what it writes nor to whether
      it throws. */
  lemma ReconcileIsLocal(m: Scenario, cfg: Config, pods: seq<Pod>, value: bool, a: Objects, b: Objects)
    requires SameOn(a, b, Footprint(m))
    ensures LocalAt(m, cfg, pods, value, a, b)
  {
    hide Reconcile;
    if m == NoisyNeighbor {
      NoisyNeighborIsLocal(cfg, pods, value, a, b);
    } else {
      OthersAreLocal(m, cfg, pods, value, a, b);
    }
  }

  /** Off means none of its objects is left, whatever was there. */
  lemma OffLeavesNothing(m: Scenario, cfg: Config, pods: seq<Pod>, o: Objects)
    ensures Reconcile(m, cfg, pods, false, o).Success?
    ensures forall k | k in Footprint(m) :: k !in Reconcile(m, cfg, pods, false, o).value
  {
  }

  /** Whether a scenario that is switched on finds its workloads as it wants them. */
  predicate AlreadyRight(m: Scenario, cfg: Config, o: Objects) {
    match m
    case NoisyNeighbor =>
      && HOG in o && Env(GetDeployment(o, HOG).value, "MEMORY_MIB") == Some(cfg.noisyMib)
      && SPREAD in o && cfg.spreadReplicas == Some(Replicas(GetDeployment(o, SPREAD).value))
    case ImagePull => CART_IMAGEPULL in o && CurrentImage(GetDeployment(o, CART_IMAGEPULL).value) == Some(cfg.badImage)
    case ResourceManagement =>
      EMAIL_OOM in o && Env(GetDeployment(o, EMAIL_OOM).value, "MEMORY_STEP_SECONDS").Some?
    case DegradedDeployments =>
      PAYMENTSERVICE in o && cfg.degradedReplicas == Some(Replicas(GetDeployment(o, PAYMENTSERVICE).value))
    case ShellTester => SHELL_TESTER in o
  }

  /** The number a scenario reads in any case, and the one it reads only to write its workload. */
  function SettingRead(m: Scenario, cfg: Config): Option<int> {
    match m
    case NoisyNeighbor => cfg.spreadReplicas
    case DegradedDeployments => cfg.degradedReplicas
    case _ => Some(0)
  }

  function SettingWritten(m: Scenario, cfg: Config): Option<int> {
    match m
    case NoisyNeighbor => cfg.noisyMibNumber
    case ResourceManagement => cfg.oomLimit
    case _ => Some(0)
  }

  /** A reconcile throws, from any namespace and with API calls that all succeed, if and only
      if the scenario is switched on and the number it always reads is not one, or the number
      it needs to write its workload is not one and the workload is not already right. */
  lemma OnlySettingsThrow(m: Scenario, cfg: Config, pods: seq<Pod>, value: bool, o: Objects)
    ensures Reconcile(m, cfg, pods, value, o).Failure? <==>
              value && (SettingRead(m, cfg).None? || (SettingWritten(m, cfg).None? && !AlreadyRight(m, cfg, o)))
  {
    hide Env, Replicas, CurrentImage, ScriptIsUp, ShouldRecreate, Stamp;
    NamesDiffer();
  }

  // ---------- Idempotence ----------

  lemma OomBodyHasItsVariable(cfg: Config, limit: int)
    ensures Env(OomBody(cfg, limit).spec, "MEMORY_STEP_SECONDS") == Some("30")
  {
  }

  /** What a scenario writes satisfies its own guard for leaving it alone. */
  lemma WrittenHogSatisfiesItsGuard(cfg: Config)
    requires cfg.noisyMibNumber.Some?
    ensures HOG in Desired(NoisyNeighbor, cfg) && Desired(NoisyNeighbor, cfg)[HOG].Workload?
    ensures Env(Desired(NoisyNeighbor, cfg)[HOG].spec, "MEMORY_MIB") == Some(cfg.noisyMib)
  {
    NamesDiffer();
  }

  lemma WrittenSpreadSatisfiesItsGuard(cfg: Config)
    requires cfg.spreadReplicas.Some?
    ensures SPREAD in Desired(NoisyNeighbor, cfg) && Desired(NoisyNeighbor, cfg)[SPREAD].Workload?
    ensures Replicas(Desired(NoisyNeighbor, cfg)[SPREAD].spec) == cfg.spreadReplicas.value
  {
  }

  lemma WrittenImageSatisfiesItsGuard(cfg: Config)
    ensures Desired(ImagePull, cfg)[CART_IMAGEPULL].Workload?
    ensures CurrentImage(Desired(ImagePull, cfg)[CART_IMAGEPULL].spec) == Some(cfg.badImage)
  {
  }

  lemma WrittenOomSatisfiesItsGuard(cfg: Config)
    requires cfg.oomLimit.Some?
    ensures EMAIL_OOM in Desired(ResourceManagement, cfg) && Desired(ResourceManagement, cfg)[EMAIL_OOM].Workload?
    ensures Env(Desired(ResourceManagement, cfg)[EMAIL_OOM].spec, "MEMORY_STEP_SECONDS").Some?
  {
    OomBodyHasItsVariable(cfg, cfg.oomLimit.value);
  }

  lemma WrittenPaymentServiceSatisfiesItsGuard(cfg: Config)
    requires cfg.degradedReplicas.Some?
    ensures PAYMENTSERVICE in Desired(DegradedDeployments, cfg)
    ensures Desired(DegradedDeployments, cfg)[PAYMENTSERVICE].Workload?
    ensures Replicas(Desired(DegradedDeployments, cfg)[PAYMENTSERVICE].spec) == cfg.degradedReplicas.value
  {
  }

  /** For a fixed pod status, reconciling again with the same flag changes nothing. */
  lemma ReconcileIsIdempotent(m: Scenario, cfg: Config, pods: seq<Pod>, value: bool, o: Objects)
    requires Reconcile(m, cfg, pods, value, o).Success?
    ensures Reconcile(m, cfg, pods, value, Reconcile(m, cfg, pods, value, o).value)
         == Reconcile(m, cfg, pods, value, o)
  {
    var o' := Reconcile(m, cfg, pods, value, o).value;
    if !value {
      OffLeavesNothing(m, cfg, pods, o);
      OffLeavesNothing(m, cfg, pods, o');
      SameEverywhere(Reconcile(m, cfg, pods, value, o').value, o') by {
        ReconcileFrames(m, cfg, pods, value, o');
      }
    } else {
      OnIsIdempotent(m, cfg, pods, o);
    }
  }

  lemma OnIsIdempotent(m: Scenario, cfg: Config, pods: seq<Pod>, o: Objects)
    requires Reconcile(m, cfg, pods, true, o).Success?
    ensures Reconcile(m, cfg, pods, true, Reconcile(m, cfg, pods, true, o).value) == Reconcile(m, cfg, pods, true, o)
  {
    hide Desired;
    NamesDiffer();
    var o' := Reconcile(m, cfg, pods, true, o).value;
    match m
    case NoisyNeighbor =>
      if cfg.noisyMibNumber.Some? {
        WrittenHogSatisfiesItsGuard(cfg);
      }
      WrittenSpreadSatisfiesItsGuard(cfg);
      assert o' - {LEGACY_NOISY_SCRIPT} == o' && o'[NOISY_SCRIPT := o'[NOISY_SCRIPT]] == o';
    case ImagePull =>
      WrittenImageSatisfiesItsGuard(cfg);
    case ResourceManagement =>
      if cfg.oomLimit.Some? {
        WrittenOomSatisfiesItsGuard(cfg);
      }
      assert o' - {LEGACY_OOM, LEGACY_OOM_SCRIPT} == o' && o'[EMAIL_OOM_SCRIPT := o'[EMAIL_OOM_SCRIPT]] == o';
    case DegradedDeployments =>
      WrittenPaymentServiceSatisfiesItsGuard(cfg);
    case ShellTester =>
      assert o'[SHELL_TESTER_SCRIPT := o'[SHELL_TESTER_SCRIPT]] == o' && o'[SHELL_TESTER := o'[SHELL_TESTER]] == o';
  }

  // ---------- A full sync without API errors ----------

  type Flags = map<Scenario, bool>

  predicate Distinct(ms: seq<Scenario>) {
    forall i, j | 0 <= i < j < |ms| :: ms[i] != ms[j]
  }

  /** Every scenario reconciled in turn with its flag. */
  function SyncAll(ms: seq<Scenario>, flags: Flags, cfg: Config, pods: seq<Pod>, o: Objects): Result<Objects>
    requires forall m | m in ms :: m in flags
  {
    if ms == [] then Success(o)
    else
      var o' :- Reconcile(ms[0], cfg, pods, flags[ms[0]], o);
      SyncAll(ms[1..], flags, cfg, pods, o')
  }

  ghost predicate OwnedBy(ms: seq<Scenario>, k: Key) {
    exists m | m in ms :: k in Footprint(m)
  }

  /** The result of a sync read key by key: on each footprint what that scenario alone would
      have made of the namespace before the sync, elsewhere the namespace itself. Nothing in
      this depends on the order of the scenarios. */
  ghost predicate SyncedTo(ms: seq<Scenario>, flags: Flags, cfg: Config, pods: seq<Pod>, o: Objects, o': Objects)
    requires forall m | m in ms :: m in flags
  {
    && (forall m | m in ms ::
          var r := Reconcile(m, cfg, pods, flags[m], o);
          r.Success? && SameOn(o', r.value, Footprint(m)))
    && (forall k | !OwnedBy(ms, k) :: SameAt(o, o', k))
  }

  lemma {:induction false} SyncReachesEachFootprint(ms: seq<Scenario>, flags: Flags, cfg: Config, pods: seq<Pod>,
                                                    o: Objects)
    requires Distinct(ms) && forall m | m in ms :: m in flags
    ensures var r := SyncAll(ms, flags, cfg, pods, o);
            && (r.Success? <==> forall m | m in ms :: Reconcile(m, cfg, pods, flags[m], o).Success?)
            && (r.Success? ==> SyncedTo(ms, flags, cfg, pods, o, r.value))
  {
    if ms != [] {
      var m, rest := ms[0], ms[1..];
      assert ms == [m] + rest;
      var r := Reconcile(m, cfg, pods, flags[m], o);
      if r.Success? {
        ReconcileFrames(m, cfg, pods, flags[m], o);
        SyncReachesEachFootprint(rest, flags, cfg, pods, r.value);
        forall n | n in rest
          ensures Reconcile(n, cfg, pods, flags[n], r.value).Success? <==> Reconcile(n, cfg, pods, flags[n], o).Success?
          ensures Reconcile(n, cfg, pods, flags[n], o).Success? ==>
                    SameOn(Reconcile(n, cfg, pods, flags[n], r.value).value,
                           Reconcile(n, cfg, pods, flags[n], o).value, Footprint(n))
        {
          FootprintsAreDisjoint(m, n);
          ReconcileIsLocal(n, cfg, pods, flags[n], o, r.value);
        }
        var r' := SyncAll(rest, flags, cfg, pods, r.value);
        if r'.Success? {
          forall k | k in Footprint(m)
            ensures SameAt(r'.value, r.value, k)
          {
            NotOwnedByOthers(m, rest, k);
          }
          forall k | !OwnedBy(ms, k)
            ensures SameAt(o, r'.value, k)
          {
            assert !OwnedBy(rest, k);
            assert SameAt(o, r.value, k);
          }
        }
      }
    }
  }

  lemma NotOwnedByOthers(m: Scenario, rest: seq<Scenario>, k: Key)
    requires m !in rest && k in Footprint(m)
    ensures !OwnedBy(rest, k)
  {
    forall n | n in rest
      ensures k !in Footprint(n)
    {
      FootprintsAreDisjoint(m, n);
    }
  }

  /** The same scenarios in any order leave the same namespace, or throw alike. */
  lemma OrderDoesNotMatter(ms: seq<Scenario>, ns: seq<Scenario>, flags: Flags, cfg: Config, pods: seq<Pod>, o: Objects)
    requires Distinct(ms) && Distinct(ns) && forall m :: m in ms <==> m in ns
    requires forall m | m in ms :: m in flags
    ensures SyncAll(ms, flags, cfg, pods, o) == SyncAll(ns, flags, cfg, pods, o)
  {
    SyncReachesEachFootprint(ms, flags, cfg, pods, o);
    SyncReachesEachFootprint(ns, flags, cfg, pods, o);
    var r, r' := SyncAll(ms, flags, cfg, pods, o), SyncAll(ns, flags, cfg, pods, o);
    if r.Success? {
      forall k
        ensures SameAt(r.value, r'.value, k)
      {
        if OwnedBy(ms, k) {
          var m :| m in ms && k in Footprint(m);
          assert SameAt(r.value, Reconcile(m, cfg, pods, flags[m], o).value, k);
          assert SameAt(r'.value, Reconcile(m, cfg, pods, flags[m], o).value, k);
        } else {
          assert !OwnedBy(ns, k);
          assert SameAt(o, r.value, k) && SameAt(o, r'.value, k);
        }
      }
      SameEverywhere(r.value, r'.value);
    }
  }

  /** A second sync with the same flags changes nothing. */
  lemma SyncIsIdempotent(ms: seq<Scenario>, flags: Flags, cfg: Config, pods: seq<Pod>, o: Objects)
    requires Distinct(ms) && forall m | m in ms :: m in flags
    requires SyncAll(ms, flags, cfg, pods, o).Success?
    ensures SyncAll(ms, flags, cfg, pods, SyncAll(ms, flags, cfg, pods, o).value) == SyncAll(ms, flags, cfg, pods, o)
  {
    var o' := SyncAll(ms, flags, cfg, pods, o).value;
    SyncReachesEachFootprint(ms, flags, cfg, pods, o);
    SyncReachesEachFootprint(ms, flags, cfg, pods, o');
    forall m | m in ms
      ensures Reconcile(m, cfg, pods, flags[m], o').Success?
      ensures SameOn(Reconcile(m, cfg, pods, flags[m], o').value, o', Footprint(m))
    {
      var once := Reconcile(m, cfg, pods, flags[m], o).value;
      ReconcileIsIdempotent(m, cfg, pods, flags[m], o);
      ReconcileIsLocal(m, cfg, pods, flags[m], once, o');
    }
    var o'' := SyncAll(ms, flags, cfg, pods, o').value;
    forall k
      ensures SameAt(o'', o', k)
    {
      if OwnedBy(ms, k) {
        var m :| m in ms && k in Footprint(m);
        assert SameAt(o'', Reconcile(m, cfg, pods, flags[m], o').value, k);
        assert SameAt(Reconcile(m, cfg, pods, flags[m], o').value, o', k);
      } else {
        assert SameAt(o', o'', k);
      }
    }
    SameEverywhere(o'', o');
  }
}
