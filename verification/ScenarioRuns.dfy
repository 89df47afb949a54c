/** Runs of the controller with failing API calls, unreachable flag reads and exceptions. */
module ScenarioRuns {
  import opened Wrappers
  import opened ClusterObjects
  import opened Scenarios
  import opened ScenarioTheorems

  /** What a reconcile may have done by the time it ends, normally or by an exception: each
      object in its footprint is as it was, or gone, or exactly the one it writes. */
  ghost predicate Touched(m: Scenario, cfg: Config, a: Objects, b: Objects) {
    && SameOutside(a, b, Footprint(m))
    && forall k | k in Footprint(m) && k in b ::
         SameAt(a, b, k) || (k in Desired(m, cfg) && b[k] == Desired(m, cfg)[k])
  }

  lemma TouchedByPut(m: Scenario, cfg: Config, a: Objects, b: Objects, k: Key)
    requires Touched(m, cfg, a, b) && k in Desired(m, cfg)
    ensures Touched(m, cfg, a, Put(b, m, cfg, k))
  {
    DesiredIsOwned(m, cfg);
    hide Desired, Footprint;
  }

  /** How a reconcile may end: normally exactly when no call is refused and no setting throws,
      and then with the outcome of the pure one; else with each of its objects untouched, gone
      or as desired. The first refused call ends it. */
  ghost predicate Ended(m: Scenario, cfg: Config, pods: seq<Pod>, value: bool, before: Objects, after: Objects,
                        refused: int, done: bool)
  {
    && Touched(m, cfg, before, after)
    && refused in {0, 1}
    && (done <==> refused == 0 && Reconcile(m, cfg, pods, value, before).Success?)
    && (done ==> Reconcile(m, cfg, pods, value, before) == Success(after))
  }

  /** What the flag service gives for one scenario. */
  datatype Read = Unreachable | Raises | Value(on: bool)

  /** One scenario handled once, in a sync or at shutdown: `done` when nothing was thrown, and
      how many of its API calls were refused. */
  datatype Turn = Turn(
    scenario: Scenario, read: Read, pods: seq<Pod>, before: Objects, after: Objects, done: bool, refused: nat)

  ghost predicate Allowed(cfg: Config, t: Turn) {
    if t.read.Value? then
      Ended(t.scenario, cfg, t.pods, t.read.on, t.before, t.after, t.refused, t.done)
    else t.after == t.before && !t.done && t.refused == 0
  }

  /** The calls refused in all. */
  function Refused(ts: seq<Turn>): nat {
    if ts == [] then 0 else Refused(ts[..|ts| - 1]) + ts[|ts| - 1].refused
  }

  lemma {:induction false} RefusedOfConcat(ts: seq<Turn>, us: seq<Turn>)
    ensures Refused(ts + us) == Refused(ts) + Refused(us)
  {
    if us == [] {
      assert ts + us == ts;
    } else {
      assert (ts + us)[..|ts + us| - 1] == ts + us[..|us| - 1];
      RefusedOfConcat(ts, us[..|us| - 1]);
    }
  }

  lemma {:induction false} NoneRefused(ts: seq<Turn>, i: nat)
    requires i < |ts| && Refused(ts) == 0
    ensures ts[i].refused == 0
  {
    if i < |ts| - 1 {
      NoneRefused(ts[..|ts| - 1], i);
    }
  }

  /** Turns one after the other, from namespace `a` to namespace `b`. */
  ghost predicate Chain(cfg: Config, ts: seq<Turn>, a: Objects, b: Objects) {
    if ts == [] then a == b
    else
      var t := ts[|ts| - 1];
      t.after == b && Allowed(cfg, t) && Chain(cfg, ts[..|ts| - 1], a, t.before)
  }

  lemma ChainSnoc(cfg: Config, ts: seq<Turn>, a: Objects, t: Turn)
    requires Chain(cfg, ts, a, t.before) && Allowed(cfg, t)
    ensures Chain(cfg, ts + [t], a, t.after)
  {
  }

  /** Whole-run framing. An object stays as it was through any run in which no turn of a
      scenario owning it got a flag value: so an object of no scenario never changes, and the
      objects of a scenario whose reads are all unreachable or throw never change. */
  lemma {:induction false} UnownedNeverChanges(cfg: Config, ts: seq<Turn>, a: Objects, b: Objects, k: Key)
    requires Chain(cfg, ts, a, b)
    requires forall t | t in ts :: t.read.Value? ==> k !in Footprint(t.scenario)
    ensures SameAt(a, b, k)
  {
    if ts != [] {
      var t := ts[|ts| - 1];
      assert t in ts;
      UnownedNeverChanges(cfg, ts[..|ts| - 1], a, t.before, k);
      if t.read.Value? {
        assert SameAt(t.before, t.after, k);
      }
    }
  }

  /** Whole-run contents. However calls fail, at any time an object under an owned name is the
      one found at the start or exactly the one its scenario writes. */
  lemma {:induction false} OwnedIsFoundOrDesired(cfg: Config, ts: seq<Turn>, a: Objects, b: Objects, m: Scenario,
                                                 k: Key)
    requires Chain(cfg, ts, a, b) && k in Footprint(m) && k in b
    ensures SameAt(a, b, k) || (k in Desired(m, cfg) && b[k] == Desired(m, cfg)[k])
  {
    if ts != [] {
      var t := ts[|ts| - 1];
      if t.scenario == m && t.read.Value? && !SameAt(t.before, t.after, k) {
      } else {
        if t.scenario != m && t.read.Value? {
          FootprintsAreDisjoint(m, t.scenario);
        }
        assert SameAt(t.before, t.after, k);
        OwnedIsFoundOrDesired(cfg, ts[..|ts| - 1], a, t.before, m, k);
      }
    }
  }

  /** Shutdown. Once none of the calls of a scenario's teardown was refused, and no later turn
      is its own, the teardown went through and none of its objects is left at the end,
      whatever happened before and to the other scenarios. */
  lemma {:induction false} TeardownLeavesNothing(cfg: Config, ts: seq<Turn>, a: Objects, b: Objects, i: nat)
    requires Chain(cfg, ts, a, b) && i < |ts|
    requires ts[i].read == Value(false) && ts[i].refused == 0
    requires forall j | i < j < |ts| :: ts[j].scenario != ts[i].scenario
    ensures ts[i].done && forall k | k in Footprint(ts[i].scenario) :: k !in b
  {
    hide Reconcile, Footprint;
    var t := ts[|ts| - 1];
    if i == |ts| - 1 {
      OffLeavesNothing(t.scenario, cfg, t.pods, t.before);
    } else {
      TeardownLeavesNothing(cfg, ts[..|ts| - 1], a, t.before, i);
      if t.read.Value? {
        FootprintsAreDisjoint(t.scenario, ts[i].scenario);
        forall k | k in Footprint(ts[i].scenario)
          ensures k !in b
        {
          assert SameAt(t.before, t.after, k);
        }
      }
    }
  }

  /** The read gave the value in `flags`, and no call was refused. */
  predicate Clean(t: Turn, flags: Flags, pods: seq<Pod>) {
    t.refused == 0 && t.pods == pods && t.scenario in flags && t.read == Value(flags[t.scenario])
  }

  predicate AllDone(ts: seq<Turn>) {
    forall t | t in ts :: t.done
  }

  /** A pass over `ms` in which every read gives a value and no call is refused is the full
      sync: it goes through for every module exactly when the sync does, with the same effect. */
  lemma {:induction false} CleanPassIsSync(cfg: Config, ms: seq<Scenario>, ts: seq<Turn>, a: Objects, b: Objects,
                                           flags: Flags, pods: seq<Pod>)
    requires forall m | m in ms :: m in flags
    requires |ts| == |ms| && forall i | 0 <= i < |ts| :: ts[i].scenario == ms[i] && Clean(ts[i], flags, pods)
    requires Chain(cfg, ts, a, b)
    ensures SyncAll(ms, flags, cfg, pods, a) == if AllDone(ts) then Success(b) else Failure
  {
    if ts != [] {
      hide Reconcile, Allowed, SyncAll, AllDone;
      var n := |ts| - 1;
      var t := ts[n];
      assert ms == ms[..n] + [ms[n]] && ts == ts[..n] + [t];
      CleanPassIsSync(cfg, ms[..n], ts[..n], a, t.before, flags, pods);
      SyncSnoc(ms[..n], ms[n], flags, cfg, pods, a);
      TurnWithoutRefusal(cfg, t);
      DoneSnoc(ts[..n], t);
    }
  }

  lemma DoneSnoc(front: seq<Turn>, t: Turn)
    ensures AllDone(front + [t]) <==> AllDone(front) && t.done
  {
  }

  lemma TurnWithoutRefusal(cfg: Config, t: Turn)
    requires Allowed(cfg, t) && t.read.Value? && t.refused == 0
    ensures Reconcile(t.scenario, cfg, t.pods, t.read.on, t.before) == if t.done then Success(t.after) else Failure
  {
    hide Reconcile, Touched;
  }

  lemma {:induction false} SyncSnoc(ms: seq<Scenario>, m: Scenario, flags: Flags, cfg: Config, pods: seq<Pod>,
                                    o: Objects)
    requires m in flags && forall n | n in ms :: n in flags
    ensures SyncAll(ms + [m], flags, cfg, pods, o)
         == var r := SyncAll(ms, flags, cfg, pods, o);
            if r.Failure? then Failure else Reconcile(m, cfg, pods, flags[m], r.value)
  {
    if ms == [] {
      assert [m][1..] == [];
    } else {
      assert (ms + [m])[1..] == ms[1..] + [m];
      var r := Reconcile(ms[0], cfg, pods, flags[ms[0]], o);
      if r.Success? {
        SyncSnoc(ms[1..], m, flags, cfg, pods, r.value);
      }
    }
  }
}
