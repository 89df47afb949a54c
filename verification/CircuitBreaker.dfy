/** The status-check breaker of the shop load generator, one call at a time. */
module CircuitBreaker {

  const THRESHOLD: nat := 10
  const RESET_SECONDS: real := 600.0
  const MAX_BACKOFF: real := 300.0

  /** `FoundUnreadable` is a 200 reply whose body is not JSON: the `requests` library then
      throws one of its own exceptions after the counters have been reset. */
  datatype Reply = Found | FoundUnreadable | ServerError | NotFound | OtherStatus | RequestException {
    predicate Is200() {
      Found? || FoundUnreadable?
    }
  }

  /** One call: the clock on entry, what the request would give, and the clock when a failure
      is recorded. */
  datatype Check = Check(now: real, reply: Reply, later: real)

  datatype Breaker = Breaker(
    statusCheckFailures: nat, consecutiveFailures: nat, lastFailureTime: real, enabled: bool, backoffDelay: real)

  const INIT := Breaker(0, 0, 0.0, true, 1.0)

  function Min(a: real, b: real): real {
    if a < b then a else b
  }

  /** `_handle_status_check_failure` */
  function Failed(b: Breaker, at: real): Breaker {
    Breaker(b.statusCheckFailures + 1, b.consecutiveFailures + 1, at,
            b.enabled && b.consecutiveFailures + 1 < THRESHOLD, Min(b.backoffDelay * 1.5, MAX_BACKOFF))
  }

  predicate ResetIsDue(b: Breaker, now: real) {
    !b.enabled && now - b.lastFailureTime > RESET_SECONDS
  }

  /** `check_transaction_status` */
  function Next(b: Breaker, c: Check): Breaker {
    var b1 := if ResetIsDue(b, c.now) then b.(enabled := true, consecutiveFailures := 0, backoffDelay := 1.0) else b;
    if !b1.enabled then b1
    else
      match c.reply
      case Found => b1.(consecutiveFailures := 0, backoffDelay := 1.0)
      case FoundUnreadable => Failed(b1.(consecutiveFailures := 0, backoffDelay := 1.0), c.later)
      case NotFound => b1
      case _ => Failed(b1, c.later)
  }

  /** Whether the call reaches the service at all. */
  predicate Requests(b: Breaker, c: Check) {
    b.enabled || ResetIsDue(b, c.now)
  }

  datatype Report = Success | Failure(circuitBreakerOpen: bool)

  /** The generator's own fields, changed by its methods. */
  class ShopLoadGenerator {
    var statusCheckFailures: nat
    var consecutiveFailures: nat
    var lastFailureTime: real
    var statusCheckEnabled: bool
    var backoffDelay: real

    function View(): Breaker
      reads this
    {
      Breaker(statusCheckFailures, consecutiveFailures, lastFailureTime, statusCheckEnabled, backoffDelay)
    }

    constructor ()
      ensures View() == INIT
    {
      statusCheckFailures, consecutiveFailures, lastFailureTime := 0, 0, 0.0;
      statusCheckEnabled, backoffDelay := true, 1.0;
    }

    method CheckTransactionStatus(c: Check) returns (r: Report)
      modifies this
      ensures View() == Next(old(View()), c)
      ensures r == if !Requests(old(View()), c) then Failure(true)
                   else if c.reply == Found then Success else Failure(false)
    {
      if !statusCheckEnabled && c.now - lastFailureTime > RESET_SECONDS {
        statusCheckEnabled := true;
        consecutiveFailures := 0;
        backoffDelay := 1.0;
      }
      if !statusCheckEnabled {
        return Failure(true);
      }
      match c.reply {
        case Found =>
          consecutiveFailures := 0;
          backoffDelay := 1.0;
          return Success;
        case FoundUnreadable =>
          consecutiveFailures := 0;
          backoffDelay := 1.0;
          HandleStatusCheckFailure(c.later);
          return Failure(false);
        case NotFound =>
          return Failure(false);
        case _ =>
          HandleStatusCheckFailure(c.later);
          return Failure(false);
      }
    }

    method HandleStatusCheckFailure(at: real)
      modifies this
      ensures View() == Failed(old(View()), at)
    {
      statusCheckFailures := statusCheckFailures + 1;
      consecutiveFailures := consecutiveFailures + 1;
      lastFailureTime := at;
      backoffDelay := Min(backoffDelay * 1.5, MAX_BACKOFF);
      if consecutiveFailures >= THRESHOLD {
        statusCheckEnabled := false;
      }
    }
  }

  // ---------- Every reachable state ----------

  function Run(b: Breaker, cs: seq<Check>): Breaker {
    if cs == [] then b else Next(Run(b, cs[..|cs| - 1]), cs[|cs| - 1])
  }

  function Pow15(n: nat): (p: real)
    ensures p >= 1.0
  {
    if n == 0 then 1.0 else 1.5 * Pow15(n - 1)
  }

  predicate Inv(b: Breaker) {
    && b.consecutiveFailures <= THRESHOLD
    && (b.enabled <==> b.consecutiveFailures < THRESHOLD)
    && b.backoffDelay == Pow15(b.consecutiveFailures)
  }

  lemma CapIsOutOfReach(n: nat)
    requires n <= THRESHOLD
    ensures Pow15(n) < 58.0
    decreases THRESHOLD - n
  {
    if n < THRESHOLD {
      CapIsOutOfReach(n + 1);
      assert Pow15(n + 1) == 1.5 * Pow15(n);
    } else {
      assert Pow15(3) == 3.375;
      assert Pow15(5) == 7.59375;
      assert Pow15(7) == 17.0859375;
      assert Pow15(9) == 38.443359375;
    }
  }

  /** The delay is 1.5 to the power of the failures in a row, checks are enabled exactly below
      ten of them, and the 300 second cap never binds. */
  lemma {:induction false} ReachableStates(cs: seq<Check>)
    ensures Inv(Run(INIT, cs)) && Run(INIT, cs).backoffDelay < 300.0 == MAX_BACKOFF
  {
    if cs != [] {
      ReachableStates(cs[..|cs| - 1]);
      NextKeeps(Run(INIT, cs[..|cs| - 1]), cs[|cs| - 1]);
    }
    CapIsOutOfReach(Run(INIT, cs).consecutiveFailures);
  }

  lemma NextKeeps(b: Breaker, c: Check)
    requires Inv(b)
    ensures Inv(Next(b, c))
  {
  }

  // ---------- How often a broken service is asked ----------

  /** Calls in order on a clock that does not go back, all between `start` and `end`. */
  predicate Monotone(cs: seq<Check>, start: real, end: real) {
    if cs == [] then start <= end
    else
      var c := cs[|cs| - 1];
      c.now <= c.later <= end && Monotone(cs[..|cs| - 1], start, c.now)
  }

  /** Times in order, each more than 600 seconds after the one before, all within the run. */
  predicate FarApart(starts: seq<real>, start: real, end: real) {
    && (forall i | 0 <= i < |starts| :: start <= starts[i] <= end)
    && forall i | 0 < i < |starts| :: starts[i] - starts[i - 1] > RESET_SECONDS
  }

  /** Without a 200 reply failures come at most ten at a time: `starts` are the times from which
      ten more may be recorded, and each is more than 600 seconds after the one before. */
  lemma {:induction false} FailuresComeInGroups(b: Breaker, cs: seq<Check>, start: real, end: real)
    returns (starts: seq<real>)
    requires Inv(b) && Monotone(cs, start, end) && forall c | c in cs :: !c.reply.Is200()
    ensures start <= end && FarApart(starts, start, end)
    ensures Inv(Run(b, cs))
    ensures Run(b, cs).statusCheckFailures - b.statusCheckFailures + THRESHOLD - Run(b, cs).consecutiveFailures
         <= THRESHOLD * |starts|
    ensures Run(b, cs).enabled ==> starts != []
    ensures !Run(b, cs).enabled && starts != [] ==>
              starts[|starts| - 1] <= Run(b, cs).lastFailureTime <= end
  {
    if cs == [] {
      starts := if b.enabled then [start] else [];
    } else {
      var c := cs[|cs| - 1];
      assert c in cs;
      var s := Run(b, cs[..|cs| - 1]);
      starts := FailuresComeInGroups(b, cs[..|cs| - 1], start, c.now);
      NextKeeps(s, c);
      if ResetIsDue(s, c.now) {
        starts := starts + [c.now];
      }
    }
  }

  lemma {:induction false} FarApartTakeTime(starts: seq<real>, start: real, end: real)
    requires FarApart(starts, start, end) && starts != []
    ensures starts[|starts| - 1] - start >= RESET_SECONDS * (|starts| - 1) as real
  {
    if |starts| > 1 {
      FarApartTakeTime(starts[..|starts| - 1], start, end);
    }
  }

  /** Without a 200 reply, at most ten failed requests in the first 600 seconds and ten more in
      every further 600, from any reachable state. */
  lemma FailedRequestsAreBounded(b: Breaker, cs: seq<Check>, start: real, end: real)
    requires Inv(b) && Monotone(cs, start, end) && forall c | c in cs :: !c.reply.Is200()
    ensures Run(b, cs).statusCheckFailures - b.statusCheckFailures
         <= THRESHOLD * (((end - start) / RESET_SECONDS).Floor + 1)
  {
    var starts := FailuresComeInGroups(b, cs, start, end);
    assert (end - start) / RESET_SECONDS >= 0.0;
    if starts != [] {
      FarApartTakeTime(starts, start, end);
      assert end - start >= RESET_SECONDS * (|starts| - 1) as real;
      assert (end - start) / RESET_SECONDS >= (|starts| - 1) as real;
      assert ((end - start) / RESET_SECONDS).Floor >= |starts| - 1;
    }
  }

  /** The counter the bound speaks of is the number of requests that failed. */
  lemma {:induction false} CounterCountsFailures(b: Breaker, cs: seq<Check>)
    ensures Run(b, cs).statusCheckFailures == b.statusCheckFailures + FailedRequests(b, cs)
  {
    if cs != [] {
      CounterCountsFailures(b, cs[..|cs| - 1]);
    }
  }

  function FailedRequests(b: Breaker, cs: seq<Check>): nat {
    if cs == [] then 0
    else
      var front, c := cs[..|cs| - 1], cs[|cs| - 1];
      FailedRequests(b, front)
      + if Requests(Run(b, front), c) && c.reply !in {Found, NotFound} then 1 else 0
  }

  // ---------- The breaker from its checks alone ----------

  predicate IsFailure(r: Reply) {
    !r.Found? && !r.NotFound?
  }

  /** When a request last failed; the clock's zero when none has. */
  function LastFailure(cs: seq<Check>): real
    decreases cs, 0
  {
    if cs == [] then 0.0
    else
      var front, c := cs[..|cs| - 1], cs[|cs| - 1];
      if Reaches(front, c.now) && IsFailure(c.reply) then c.later else LastFailure(front)
  }

  /** The failed requests since the last 200 reply, or since the breaker last closed again. */
  function InARow(cs: seq<Check>): nat
    decreases cs, 0
  {
    if cs == [] then 0
    else
      var front, c := cs[..|cs| - 1], cs[|cs| - 1];
      if !Reaches(front, c.now) then InARow(front)
      else
        var before := if c.reply.Is200() || InARow(front) >= THRESHOLD then 0 else InARow(front);
        if IsFailure(c.reply) then before + 1 else before
  }

  /** A check reaches the service below ten failures in a row, and again once the last failure
      is more than 600 seconds old. */
  predicate Reaches(cs: seq<Check>, now: real)
    decreases cs, 1
  {
    InARow(cs) < THRESHOLD || now - LastFailure(cs) > RESET_SECONDS
  }

  /** Over every run the fields are what the checks alone say: the failures in a row, the time
      of the last one, and whether the next check is made. */
  lemma {:induction false} FieldsFollowTheChecks(cs: seq<Check>, now: real, reply: Reply, later: real)
    ensures var b := Run(INIT, cs);
            && b.consecutiveFailures == InARow(cs) && b.lastFailureTime == LastFailure(cs)
            && (b.enabled <==> InARow(cs) < THRESHOLD) && b.backoffDelay == Pow15(InARow(cs))
            && (Requests(b, Check(now, reply, later)) <==> Reaches(cs, now))
  {
    ReachableStates(cs);
    if cs != [] {
      var front, c := cs[..|cs| - 1], cs[|cs| - 1];
      FieldsFollowTheChecks(front, c.now, c.reply, c.later);
      ReachableStates(front);
      CapIsOutOfReach(InARow(front));
    }
  }

  /** More than 600 seconds after the last failed request the service is always asked. */
  lemma BreakerClosesAgain(cs: seq<Check>, c: Check)
    requires c.now - LastFailure(cs) > 600.0
    ensures Requests(Run(INIT, cs), c)
    ensures c.reply == Found ==> Run(INIT, cs + [c]).enabled && Run(INIT, cs + [c]).consecutiveFailures == 0
  {
    FieldsFollowTheChecks(cs, c.now, c.reply, c.later);
    ReachableStates(cs);
    assert (cs + [c])[..|cs|] == cs;
    ReachableStates(cs + [c]);
  }

  /** Up to 600 seconds after the tenth failure in a row it is not. */
  lemma BreakerStaysOpen(cs: seq<Check>, c: Check)
    requires InARow(cs) == 10 && c.now - LastFailure(cs) <= 600.0
    ensures !Requests(Run(INIT, cs), c) && Run(INIT, cs + [c]) == Run(INIT, cs)
  {
    FieldsFollowTheChecks(cs, c.now, c.reply, c.later);
    assert (cs + [c])[..|cs|] == cs;
  }

  /** From the start, nine failing replies leave the breaker closed and the tenth opens it. */
  lemma {:induction false} TenFailuresOpenIt(cs: seq<Check>)
    requires |cs| <= 10 && forall c | c in cs :: IsFailure(c.reply) && !c.reply.Is200()
    ensures Run(INIT, cs).consecutiveFailures == |cs| == Run(INIT, cs).statusCheckFailures
    ensures Run(INIT, cs).enabled <==> |cs| < 10
  {
    ReachableStates(cs);
    if cs != [] {
      assert cs[|cs| - 1] in cs;
      TenFailuresOpenIt(cs[..|cs| - 1]);
    }
  }

  /** The failing replies since the last 200 reply, asked for or not. */
  function SinceLast200(cs: seq<Check>): nat {
    if cs == [] then 0
    else
      var front, c := cs[..|cs| - 1], cs[|cs| - 1];
      (if c.reply.Is200() then 0 else SinceLast200(front)) + if IsFailure(c.reply) then 1 else 0
  }

  /** With a 200 reply among any ten failing ones the breaker never opens, and every check is a
      request. */
  lemma {:induction false} FrequentSuccessesKeepItClosed(cs: seq<Check>, c: Check)
    requires forall i | 0 <= i <= |cs| :: SinceLast200(cs[..i]) < THRESHOLD
    ensures Run(INIT, cs).enabled && Run(INIT, cs).consecutiveFailures == SinceLast200(cs)
    ensures Requests(Run(INIT, cs), c)
  {
    assert cs[..|cs|] == cs;
    if cs != [] {
      var front := cs[..|cs| - 1];
      forall i | 0 <= i <= |front|
        ensures SinceLast200(front[..i]) < THRESHOLD
      {
        assert front[..i] == cs[..i];
      }
      FrequentSuccessesKeepItClosed(front, cs[|cs| - 1]);
      ReachableStates(cs);
    }
  }
}
