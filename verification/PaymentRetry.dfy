/** The retry loop of `charge`. The gateway's answers are an arbitrary function of the attempt. */
module PaymentRetry {
  import opened Wrappers
  import opened PaymentTiming

  /** What an attempt comes to. `Mishandled` is a charge the gateway made but after which one of
      the source's own statements throws, once the attempt's span has been ended: before or
      after the transaction was `counted`. */
  datatype Answer = Charged(transactionId: string) | Mishandled(counted: bool) | Refused(code: int)

  datatype Outcome = Paid(transactionId: string, retries: nat) | Thrown(code: int)

  /** What a charge leaves behind besides its result: gateway calls, transactions counted, how
      often each attempt span and the charge span were ended, and the milliseconds waited at the
      gateway (when planned) and between attempts. */
  datatype Trail = Trail(
    calls: nat, transactions: nat, attemptSpanEnds: seq<nat>, chargeSpanEnds: nat, apiWait: real, backoffWait: real)

  const GRPC_INTERNAL := 13

  /** The plan's slot for an attempt; past its end there is none. */
  function SlotFor(plan: Option<seq<Slot>>, attempt: nat): Option<Slot>
    requires attempt >= 1
  {
    if plan.Some? && attempt <= |plan.value| then Some(plan.value[attempt - 1]) else None
  }

  /** A planned failure is made with the token the gateway refuses. */
  function Response(plan: Option<seq<Slot>>, gateway: nat -> Answer, attempt: nat): Answer {
    if plan.Some? then Refused(401) else gateway(attempt)
  }

  function Pow2(n: nat): (p: nat)
    ensures p >= 1
  {
    if n == 0 then 1 else 2 * Pow2(n - 1)
  }

  /** The wait after a failed attempt that is not the last. */
  function Backoff(plan: Option<seq<Slot>>, baseDelay: real, jitter: nat -> real, attempt: nat): real
    requires attempt >= 1
  {
    var slot := SlotFor(plan, attempt);
    if slot.Some? then slot.value.backoff as real
    else baseDelay * Pow2(attempt - 1) as real + jitter(attempt)
  }

  /** The first `k` waits. */
  function TotalBackoff(plan: Option<seq<Slot>>, baseDelay: real, jitter: nat -> real, k: nat): real {
    if k == 0 then 0.0
    else TotalBackoff(plan, baseDelay, jitter, k - 1) + Backoff(plan, baseDelay, jitter, k)
  }

  /** The planned delays of the first `k` gateway calls. */
  function TotalApiDelay(plan: Option<seq<Slot>>, k: nat): real {
    if k == 0 then 0.0
    else
      TotalApiDelay(plan, k - 1) + if SlotFor(plan, k).Some? then SlotFor(plan, k).value.apiDelay as real else 0.0
  }

  /** The transactions the first `k` answers of the gateway count although none of those
      attempts succeeded. */
  function Miscounted(gateway: nat -> Answer, k: nat): nat {
    if k == 0 then 0 else Miscounted(gateway, k - 1) + if gateway(k) == Mishandled(true) then 1 else 0
  }

  lemma {:induction false} NothingMiscounted(gateway: nat -> Answer, k: nat)
    ensures Miscounted(gateway, k) == 0 <==> forall a | 1 <= a <= k :: gateway(a) != Mishandled(true)
  {
    if k > 0 {
      NothingMiscounted(gateway, k - 1);
    }
  }

  /** With a plan every attempt is made with the bad token and refused, whatever the gateway
      would say. Without one the charge is paid if and only if the gateway charges within
      `retryMax` attempts, and then at the first. `jitter` is zero unless the strategy adds one.
      The span of an attempt is ended once, and a second time exactly when the attempt was
      mishandled: its own end came before the throw. */
  method Charge(retryMax: nat, plan: Option<seq<Slot>>, gateway: nat -> Answer, baseDelay: real, jitter: nat -> real)
    returns (r: Outcome, t: Trail)
    ensures r.Paid? <==> plan.None? && exists a :: 1 <= a <= retryMax && gateway(a).Charged?
    ensures r.Paid? ==>
              && 1 <= t.calls <= retryMax && gateway(t.calls) == Charged(r.transactionId)
              && r.retries == t.calls - 1 && forall a | 1 <= a < t.calls :: !gateway(a).Charged?
    ensures r.Thrown? ==> r.code == 13 && t.calls == retryMax
    ensures t.transactions
         == if plan.Some? then 0 else Miscounted(gateway, t.calls) + if r.Paid? then 1 else 0
    ensures |t.attemptSpanEnds| == t.calls && t.chargeSpanEnds == 1
    ensures forall i | 0 <= i < t.calls ::
              t.attemptSpanEnds[i] == if plan.None? && gateway(i + 1).Mishandled? then 2 else 1
    ensures t.apiWait == TotalApiDelay(plan, t.calls)
    ensures t.backoffWait == TotalBackoff(plan, baseDelay, jitter, if t.calls == 0 then 0 else t.calls - 1)
  {
    hide Backoff, TotalBackoff, TotalApiDelay;
    NothingWaited(plan, baseDelay, jitter);
    var attempt: nat := 1;
    var result: Option<Outcome> := None;
    var calls, transactions, ends, chargeSpanEnds := 0, 0, [], 0;
    var apiWait, backoffWait := 0.0, 0.0;
    while attempt <= retryMax
      invariant 1 <= attempt <= retryMax + 1 && calls == attempt - 1 && result.None?
      invariant transactions == if plan.Some? then 0 else Miscounted(gateway, calls)
      invariant plan.None? ==> forall a | 1 <= a < attempt :: !gateway(a).Charged?
      invariant EndedAsOften(plan, gateway, ends) && |ends| == calls
      invariant apiWait == TotalApiDelay(plan, calls)
      invariant backoffWait == TotalBackoff(plan, baseDelay, jitter, Waits(calls, retryMax))
    {
      NextAttempt(plan, baseDelay, jitter, attempt);
      calls := calls + 1;
      var attemptSpanEnds: nat := 0;
      var attemptTiming := SlotFor(plan, attempt);
      if attemptTiming.Some? {
        apiWait := apiWait + attemptTiming.value.apiDelay as real;
      }
      var resp := Response(plan, gateway, attempt);
      if !resp.Refused? {
        attemptSpanEnds := attemptSpanEnds + 1;
        if resp != Mishandled(false) {
          transactions := transactions + 1;
        }
        if resp.Charged? {
          ends := ends + [attemptSpanEnds];
          result := Some(Paid(resp.transactionId, attempt - 1));
          break;
        }
      }
      attemptSpanEnds := attemptSpanEnds + 1;
      ends := ends + [attemptSpanEnds];
      if attempt < retryMax {
        backoffWait := backoffWait + Backoff(plan, baseDelay, jitter, attempt);
      }
      attempt := attempt + 1;
    }
    chargeSpanEnds := chargeSpanEnds + 1;
    t := Trail(calls, transactions, ends, chargeSpanEnds, apiWait, backoffWait);
    r := if result.Some? then result.value else Thrown(GRPC_INTERNAL);
  }

  /** How many waits so many failed attempts have made: the last one allowed is not waited for. */
  function Waits(calls: nat, retryMax: nat): nat {
    if calls < retryMax || calls == 0 then calls else calls - 1
  }

  /** The spans of the attempts so far: each ended once, or twice when it was mishandled. */
  predicate EndedAsOften(plan: Option<seq<Slot>>, gateway: nat -> Answer, ends: seq<nat>) {
    forall i | 0 <= i < |ends| :: ends[i] == if plan.None? && gateway(i + 1).Mishandled? then 2 else 1
  }

  lemma NothingWaited(plan: Option<seq<Slot>>, baseDelay: real, jitter: nat -> real)
    ensures TotalApiDelay(plan, 0) == 0.0 == TotalBackoff(plan, baseDelay, jitter, 0)
  {
  }

  lemma NextAttempt(plan: Option<seq<Slot>>, baseDelay: real, jitter: nat -> real, k: nat)
    requires k >= 1
    ensures TotalBackoff(plan, baseDelay, jitter, k)
         == TotalBackoff(plan, baseDelay, jitter, k - 1) + Backoff(plan, baseDelay, jitter, k)
    ensures TotalApiDelay(plan, k)
         == TotalApiDelay(plan, k - 1)
            + if SlotFor(plan, k).Some? then SlotFor(plan, k).value.apiDelay as real else 0.0
  {
  }

  /** The waits without jitter, and what jitter adds to them. */
  function Doubling(baseDelay: real, k: nat): real {
    baseDelay * (Pow2(k) - 1) as real
  }

  function JitterSum(jitter: nat -> real, k: nat): real {
    if k == 0 then 0.0 else JitterSum(jitter, k - 1) + jitter(k)
  }

  /** Without a plan, `k` waits sum to base·(2^k − 1) and the jitter of each. */
  lemma {:induction false} UnplannedWaits(baseDelay: real, jitter: nat -> real, k: nat)
    ensures TotalBackoff(None, baseDelay, jitter, k) == Doubling(baseDelay, k) + JitterSum(jitter, k)
  {
    hide Doubling, Backoff;
    if k == 0 {
      NoWaits(baseDelay);
    } else {
      UnplannedWaits(baseDelay, jitter, k - 1);
      OneMoreWait(baseDelay, jitter, k);
    }
  }

  lemma NoWaits(baseDelay: real)
    ensures Doubling(baseDelay, 0) == 0.0
  {
  }

  lemma OneMoreWait(baseDelay: real, jitter: nat -> real, k: nat)
    requires k > 0
    ensures Backoff(None, baseDelay, jitter, k) == Doubling(baseDelay, k) - Doubling(baseDelay, k - 1) + jitter(k)
  {
    var p := Pow2(k - 1);
    assert (2 * p - 1) as real == (p - 1) as real + p as real;
  }

  /** On the plain exponential strategy `k` waits sum to base·(2^k − 1). */
  lemma ExponentialBackoff(baseDelay: real, k: nat)
    ensures TotalBackoff(None, baseDelay, _ => 0.0, k) == baseDelay * (Pow2(k) - 1) as real
  {
    UnplannedWaits(baseDelay, _ => 0.0, k);
    NoJitter(k);
  }

  lemma {:induction false} NoJitter(k: nat)
    ensures JitterSum(_ => 0.0, k) == 0.0
  {
    if k > 0 {
      NoJitter(k - 1);
    }
  }

  /** Jitter of at most `most` milliseconds adds at most `k` times that. */
  lemma JitterIsBounded(baseDelay: real, jitter: nat -> real, most: real, k: nat)
    requires forall a :: 0.0 <= jitter(a) < most
    ensures 0.0 <= TotalBackoff(None, baseDelay, jitter, k) - baseDelay * (Pow2(k) - 1) as real <= k as real * most
  {
    hide TotalBackoff, JitterSum;
    UnplannedWaits(baseDelay, jitter, k);
    JitterAddsUp(jitter, most, k);
  }

  lemma {:induction false} JitterAddsUp(jitter: nat -> real, most: real, k: nat)
    requires forall a :: 0.0 <= jitter(a) < most
    ensures 0.0 <= JitterSum(jitter, k) <= k as real * most
  {
    if k > 0 {
      JitterAddsUp(jitter, most, k - 1);
      assert k as real * most == (k - 1) as real * most + most;
    }
  }

  /** The gateway's parts of the first `k` slots, and the waits after them. */
  function ApiDelays(slots: seq<Slot>, k: nat): int
    requires k <= |slots|
  {
    if k == 0 then 0 else ApiDelays(slots, k - 1) + slots[k - 1].apiDelay
  }

  function Backoffs(slots: seq<Slot>, k: nat): int
    requires k <= |slots|
  {
    if k == 0 then 0 else Backoffs(slots, k - 1) + slots[k - 1].backoff
  }

  /** With a plan the waits at the gateway and between attempts are those of its slots, and the
      strategy's own past its end. */
  lemma {:induction false} PlannedWaits(slots: seq<Slot>, baseDelay: real, jitter: nat -> real, k: nat)
    ensures k <= |slots| ==> TotalApiDelay(Some(slots), k) == ApiDelays(slots, k) as real
    ensures k <= |slots| ==> TotalBackoff(Some(slots), baseDelay, jitter, k) == Backoffs(slots, k) as real
    ensures k > |slots| ==>
              && TotalApiDelay(Some(slots), k) == ApiDelays(slots, |slots|) as real
              && TotalBackoff(Some(slots), baseDelay, jitter, k)
                 == Backoffs(slots, |slots|) as real
                    + TotalBackoff(None, baseDelay, jitter, k) - TotalBackoff(None, baseDelay, jitter, |slots|)
  {
    if k > 0 {
      PlannedWaits(slots, baseDelay, jitter, k - 1);
    }
  }

  /** A plan is spent to the last millisecond by as many attempts as it has slots, when its
      last slot waits for nothing afterwards. */
  lemma PlanIsSpent(slots: seq<Slot>, baseDelay: real, jitter: nat -> real)
    requires slots != [] && slots[|slots| - 1].backoff == 0
    ensures TotalApiDelay(Some(slots), |slots|) + TotalBackoff(Some(slots), baseDelay, jitter, |slots| - 1)
         == TotalTime(slots) as real
  {
    PlanPrefix(slots, baseDelay, jitter, |slots|);
    assert slots[..|slots|] == slots;
  }

  lemma {:induction false} PlanPrefix(slots: seq<Slot>, baseDelay: real, jitter: nat -> real, k: nat)
    requires k <= |slots|
    ensures TotalApiDelay(Some(slots), k) + TotalBackoff(Some(slots), baseDelay, jitter, k)
         == TotalTime(slots[..k]) as real
  {
    if k > 0 {
      PlanPrefix(slots, baseDelay, jitter, k - 1);
      assert slots[..k] == slots[..k - 1] + [slots[k - 1]];
      TotalTimeSnoc(slots[..k - 1], slots[k - 1]);
    }
  }

  /** Version B end to end: four refused calls, the error for callers, and exactly the planned
      total of milliseconds waited. */
  method ChargeVersionB(totalDraw: Draw, threeDraw: Draw, portions: seq<Draw>, gateway: nat -> Answer,
                        baseDelay: real, jitter: nat -> real)
    returns (r: Outcome, t: Trail, totalDurationMs: int)
    requires |portions| == 2
    ensures r == Thrown(13) && t.calls == 4 && t.transactions == 0
    ensures totalDurationMs == RandomInt(TOTAL_MIN_MS, TOTAL_MAX_MS, totalDraw)
    ensures 4000 <= totalDurationMs < 10000
    ensures t.apiWait + t.backoffWait == totalDurationMs as real
  {
    var timings: seq<Slot>;
    timings, totalDurationMs := PlanFailure(totalDraw, threeDraw, portions);
    r, t := Charge(4, Some(timings), gateway, baseDelay, jitter);
    PlanIsSpent(timings, baseDelay, jitter);
  }
}
