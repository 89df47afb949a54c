/** What holds of the batching over every run. */
module PlanningTheorems {
  import opened Wrappers
  import opened Planning

  /** The last `MAX_QUEUE` elements. */
  function Newest<T>(xs: seq<T>): (r: seq<T>)
    ensures |r| <= |xs| && |r| <= MAX_QUEUE
  {
    if |xs| <= MAX_QUEUE then xs else xs[|xs| - MAX_QUEUE..]
  }

  /** A call carries the newest orders consumed since the clear before it: one window. */
  predicate IsWindow(c: Call, consumed: seq<Order>) {
    && c.since <= c.lo < c.hi <= |consumed|
    && c.lo == (if c.hi - MAX_QUEUE > c.since then c.hi - MAX_QUEUE else c.since)
    && c.orders == consumed[c.lo..c.hi]
  }

  /** The order left because 1000 newer ones arrived with no clear among them. */
  predicate EvictedAt1000(s: State, i: nat) {
    i + MAX_QUEUE < |s.consumed| && forall a | a in s.acks :: !(i < a.at <= i + MAX_QUEUE)
  }

  /** The order was in the batch of an acknowledged call. */
  predicate Delivered(s: State, i: nat) {
    exists a | a in s.acks :: a.call.lo <= i < a.call.hi
  }

  /** The order arrived after the snapshot of an acknowledged call and before its clear. */
  predicate LostInGap(s: State, i: nat) {
    exists a | a in s.acks :: a.call.hi <= i < a.at
  }

  /** How many of the consumed orders are no longer queued. */
  function Departed(s: State): int {
    |s.consumed| - |s.orders|
  }

  ghost predicate Inv(s: State) {
    && s.cleared <= |s.consumed| && s.linksCleared <= |s.consumedLinks|
    && s.orders == Newest(s.consumed[s.cleared..])
    && s.links == Newest(s.consumedLinks[s.linksCleared..])
    && |s.consumedLinks| - s.linksCleared <= |s.consumed| - s.cleared
    && (forall t | InFlight(s, t).Some? ::
          IsWindow(InFlight(s, t).value, s.consumed) && InFlight(s, t).value.since <= s.cleared)
    && (forall c | c in s.sent :: IsWindow(c, s.consumed))
    && (forall a | a in s.acks :: a.call in s.sent && a.call.hi <= a.at <= s.cleared)
    && forall i: nat | i < Departed(s) :: Delivered(s, i) || LostInGap(s, i) || EvictedAt1000(s, i)
  }

  /** Every call in flight is one of those sent. */
  ghost predicate CallsSent(s: State) {
    forall t | InFlight(s, t).Some? :: InFlight(s, t).value in s.sent
  }

  lemma OnlyOther(s: State, t: Thread)
    ensures forall t' | InFlight(s, t').Some? :: t' == t || t' == Other(t)
  {
  }

  lemma NewestAppend<T>(xs: seq<T>, x: T)
    ensures Newest(xs + [x]) == Append(Newest(xs), x)
  {
  }

  lemma WindowKept(c: Call, consumed: seq<Order>, order: Order)
    requires IsWindow(c, consumed)
    ensures IsWindow(c, consumed + [order])
  {
  }

  lemma ConsumeKeeps(s: State, order: Order, link: Option<Link>, s': State)
    requires Inv(s) && CallsSent(s) && Step(s, Consume(order, link)) == Some(s')
    ensures Inv(s') && CallsSent(s')
  {
    assert s'.consumed[s.cleared..] == s.consumed[s.cleared..] + [order];
    NewestAppend(s.consumed[s.cleared..], order);
    if link.Some? {
      assert s'.consumedLinks[s.linksCleared..] == s.consumedLinks[s.linksCleared..] + [link.value];
      NewestAppend(s.consumedLinks[s.linksCleared..], link.value);
    }
    forall c | IsWindow(c, s.consumed)
      ensures IsWindow(c, s'.consumed)
    {
      WindowKept(c, s.consumed, order);
    }
    forall t | InFlight(s', t).Some?
      ensures InFlight(s, t) == InFlight(s', t)
    {
    }
    forall i: nat | i < Departed(s')
      ensures Delivered(s', i) || LostInGap(s', i) || EvictedAt1000(s', i)
    {
      if i < Departed(s) {
        assert Delivered(s, i) || LostInGap(s, i) || EvictedAt1000(s, i);
      } else {
        assert i == |s.consumed| - MAX_QUEUE;
      }
    }
  }

  lemma AcknowledgeKeeps(s: State, t: Thread, s': State)
    requires Inv(s) && CallsSent(s) && Step(s, Acknowledge(t)) == Some(s')
    ensures Inv(s') && CallsSent(s')
  {
    var c := InFlight(s, t).value;
    var a := Ack(c, |s.consumed|, t);
    assert a in s'.acks;
    assert forall b | b in s'.acks :: b in s.acks || b == a;
    assert forall b | b in s.acks :: b in s'.acks;
    assert s'.consumed[s'.cleared..] == [] && s'.consumedLinks[s'.linksCleared..] == [];
    OnlyOther(s', t);
    assert InFlight(s', Other(t)) == InFlight(s, Other(t));
    forall i: nat | i < Departed(s')
      ensures Delivered(s', i) || LostInGap(s', i) || EvictedAt1000(s', i)
    {
      if i < Departed(s) {
        assert Delivered(s, i) || LostInGap(s, i) || EvictedAt1000(s, i);
      } else {
        assert c.lo <= i;
        assert (a.call.lo <= i < a.call.hi) || (a.call.hi <= i < a.at);
      }
    }
  }

  lemma StepKeeps(s: State, e: Event, s': State)
    requires Inv(s) && CallsSent(s) && Step(s, e) == Some(s')
    ensures Inv(s') && CallsSent(s')
  {
    match e
    case Consume(order, link) => ConsumeKeeps(s, order, link, s');
    case CheckInitial => SameCalls(s, s');
    case Snapshot(t) =>
      if s.orders == [] {
        SameCalls(s, s');
      } else {
        SnapshotKeeps(s, t, s');
      }
    case Acknowledge(t) => AcknowledgeKeeps(s, t, s');
    case Fail(t) => SameCalls(s, s');
  }

  /** Only program counters moved. */
  lemma SameCalls(s: State, s': State)
    requires Inv(s) && CallsSent(s)
    requires s' == s.(kafka := s'.kafka, scheduler := s'.scheduler, initialCallDone := s'.initialCallDone)
    requires forall t | InFlight(s', t).Some? :: InFlight(s', t) == InFlight(s, t)
    ensures Inv(s') && CallsSent(s')
  {
    forall i: nat | i < Departed(s')
      ensures Delivered(s', i) || LostInGap(s', i) || EvictedAt1000(s', i)
    {
      assert Delivered(s, i) || LostInGap(s, i) || EvictedAt1000(s, i);
    }
  }

  /** What a snapshot takes is a window. */
  lemma SnapshotIsWindow(s: State)
    requires Inv(s) && s.orders != []
    ensures forall c: Call |
              c.orders == s.orders && c.since == s.cleared && c.lo == Departed(s) && c.hi == |s.consumed| ::
              IsWindow(c, s.consumed)
  {
    var recent := s.consumed[s.cleared..];
    if |recent| > MAX_QUEUE {
      assert recent[|recent| - MAX_QUEUE..] == s.consumed[Departed(s)..];
    }
    assert s.consumed[Departed(s)..] == s.consumed[Departed(s)..|s.consumed|];
  }

  lemma SnapshotKeeps(s: State, t: Thread, s': State)
    requires Inv(s) && CallsSent(s) && Step(s, Snapshot(t)) == Some(s') && s.orders != []
    ensures Inv(s') && CallsSent(s')
  {
    hide IsWindow;
    SnapshotIsWindow(s);
    assert InFlight(s', Other(t)) == InFlight(s, Other(t));
    OnlyOther(s', t);
    forall i: nat | i < Departed(s')
      ensures Delivered(s', i) || LostInGap(s', i) || EvictedAt1000(s', i)
    {
      assert Delivered(s, i) || LostInGap(s, i) || EvictedAt1000(s, i);
    }
  }

  // ---------- Over every run ----------

  lemma {:induction false} RunKeeps(es: seq<Event>)
    requires Run(es).Some?
    ensures Inv(Run(es).value) && CallsSent(Run(es).value)
  {
    if es != [] {
      RunKeeps(es[..|es| - 1]);
      StepKeeps(Run(es[..|es| - 1]).value, es[|es| - 1], Run(es).value);
    }
  }

  /** The queues hold exactly the newest orders and links consumed since the last clear, at most
      1000 of each and never more links than orders. */
  lemma QueueIsNewestSinceClear(es: seq<Event>)
    requires Run(es).Some?
    ensures var s := Run(es).value;
            && s.cleared <= |s.consumed| && s.linksCleared <= |s.consumedLinks|
            && s.orders == Newest(s.consumed[s.cleared..])
            && s.links == Newest(s.consumedLinks[s.linksCleared..])
            && |s.links| <= |s.orders| <= 1000
            && (|s.orders| < |s.consumed| - s.cleared ==> |s.orders| == 1000)
  {
    RunKeeps(es);
  }

  /** Every batch ever sent is a window of the order of consumption. */
  lemma BatchesAreWindows(es: seq<Event>, c: Call)
    requires Run(es).Some? && c in Run(es).value.sent
    ensures 0 <= c.lo < c.hi <= |Run(es).value.consumed| && c.hi - c.lo <= MAX_QUEUE
    ensures c.orders == Run(es).value.consumed[c.lo..c.hi]
  {
    RunKeeps(es);
  }

  /** No order disappears but in one of three ways: inside an acknowledged batch, by eviction
      behind 1000 newer ones, or between some acknowledged call's snapshot and its clear. */
  lemma NoOtherWayOut(es: seq<Event>, i: nat)
    requires Run(es).Some? && i < |Run(es).value.consumed|
    ensures var s := Run(es).value;
            || (i >= Departed(s) && s.orders[i - Departed(s)] == s.consumed[i])
            || Delivered(s, i) || LostInGap(s, i) || EvictedAt1000(s, i)
  {
    hide Run, IsWindow, Delivered, LostInGap, EvictedAt1000;
    RunKeeps(es);
  }

  /** The gap is real: an order consumed while a successful call is under way is cleared
      without ever having been sent. */
  lemma GapLosesAnOrder(a: Order, b: Order)
    requires a != b
    ensures exists es :: Run(es).Some? && Run(es).value.consumed == [a, b] && Run(es).value.orders == []
                      && forall c | c in Run(es).value.sent :: b !in c.orders
  {
    hide Run;
    var c := Call([a], [], 0, 0, 1, 0, 0);
    assert [a] + [b] == [a, b] && [] + [Ack(c, 2, Scheduler)] == [Ack(c, 2, Scheduler)] && [c] + [c] == [c, c];
    var e4, s4 := FailedFirstCall(a, None);
    var s5 := s4.(sent := [c, c], scheduler := Posting(c));
    var e5 := Then(e4, s4, Snapshot(Scheduler), s5);
    var s6 := s5.(orders := [a, b], consumed := [a, b], kafka := Checking);
    var e6 := Then(e5, s5, Consume(b, None), s6);
    var s7 := s6.(orders := [], scheduler := Idle, cleared := 2, acks := [Ack(c, 2, Scheduler)]);
    var e7 := Then(e6, s6, Acknowledge(Scheduler), s7);
  }

  function Links(link: Option<Link>): seq<Link> {
    if link.None? then [] else [link.value]
  }

  /** The first order has been found and its call is about to be made. */
  lemma FirstOrder(a: Order, link: Option<Link>) returns (es: seq<Event>, s: State)
    ensures Run(es) == Some(s)
    ensures s == State([a], Links(link), true, Starting, Idle, [a], Links(link), 0, 0, [], [])
  {
    assert Run([]) == Some(INIT);
    hide Run;
    assert [] + [a] == [a] && [] + Links(link) == Links(link);
    var s1 := INIT.(
      orders := [a], links := Links(link), consumed := [a], consumedLinks := Links(link), kafka := Checking);
    var e1 := Then([], INIT, Consume(a, link), s1);
    s := s1.(initialCallDone := true, kafka := Starting);
    es := Then(e1, s1, CheckInitial, s);
  }

  /** A run whose initial call was refused. */
  lemma FailedFirstCall(a: Order, link: Option<Link>) returns (es: seq<Event>, s: State)
    ensures Run(es) == Some(s)
    ensures var links := Links(link);
            var c := Call([a], links, 0, 0, 1, 0, |links|);
            s == State([a], links, true, Polling, Idle, [a], links, 0, 0, [], [c])
  {
    hide Run, Append;
    var c := Call([a], Links(link), 0, 0, 1, 0, |Links(link)|);
    assert [] + [c] == [c];
    var e2, s2 := FirstOrder(a, link);
    var s3 := s2.(sent := [c], kafka := Waiting(c));
    var e3 := Then(e2, s2, Snapshot(Kafka), s3);
    s := s3.(kafka := Polling);
    es := Then(e3, s3, Fail(Kafka), s);
  }

  /** One more step of a run. */
  lemma Then(es: seq<Event>, s: State, e: Event, s': State) returns (more: seq<Event>)
    requires Run(es) == Some(s) && Step(s, e) == Some(s')
    ensures more == es + [e] && Run(more) == Some(s')
  {
    more := es + [e];
    assert more[..|more| - 1] == es;
  }

  // ---------- Exactly once ----------

  /** The batches acknowledged so far, one after the other. */
  function AckedOrders(acks: seq<Ack>): seq<Order> {
    if acks == [] then [] else AckedOrders(acks[..|acks| - 1]) + acks[|acks| - 1].call.orders
  }

  /** A step that starts no second call beside another, clears only what its snapshot saw, and
      adds to a queue only below its bound. */
  predicate Orderly(s: State, e: Event) {
    match e
    case Consume(_, _) => |s.orders| < MAX_QUEUE
    case Snapshot(t) => InFlight(s, Other(t)).None?
    case Acknowledge(t) => InFlight(s, t).Some? ==> |s.consumed| == InFlight(s, t).value.hi
    case _ => true
  }

  predicate OrderlyRun(es: seq<Event>) {
    es == [] ||
    var s := Run(es[..|es| - 1]);
    OrderlyRun(es[..|es| - 1]) && (s.Some? ==> Orderly(s.value, es[|es| - 1]))
  }

  ghost predicate ExactlyOnce(s: State) {
    && s.cleared <= |s.consumed|
    && AckedOrders(s.acks) == s.consumed[..s.cleared]
    && s.orders == s.consumed[s.cleared..]
    && (forall t | InFlight(s, t).Some? ::
          InFlight(s, t).value.since == s.cleared && InFlight(s, t).value.lo == s.cleared
          && InFlight(s, Other(t)).None?)
  }

  lemma OrderlyConsumeKeeps(s: State, order: Order, link: Option<Link>, s': State)
    requires ExactlyOnce(s) && |s.orders| < MAX_QUEUE && Step(s, Consume(order, link)) == Some(s')
    ensures ExactlyOnce(s')
  {
    assert s'.consumed[s.cleared..] == s.consumed[s.cleared..] + [order];
    assert s'.consumed[..s.cleared] == s.consumed[..s.cleared];
    forall t | InFlight(s', t).Some?
      ensures InFlight(s', t) == InFlight(s, t) && InFlight(s', Other(t)).None?
    {
      assert InFlight(s', Other(t)) == InFlight(s, Other(t));
    }
  }

  lemma OrderlyAcknowledgeKeeps(s: State, t: Thread, s': State)
    requires Inv(s) && ExactlyOnce(s) && Step(s, Acknowledge(t)) == Some(s')
    requires |s.consumed| == InFlight(s, t).value.hi
    ensures ExactlyOnce(s')
  {
    var c := InFlight(s, t).value;
    assert s'.acks[..|s'.acks| - 1] == s.acks;
    assert s.consumed[..s.cleared] + s.consumed[c.lo..c.hi] == s.consumed;
    assert s'.consumed[..s'.cleared] == s.consumed && s'.consumed[s'.cleared..] == [];
    assert InFlight(s', Other(t)).None?;
    OnlyOther(s', t);
  }

  lemma OrderlyStepKeeps(s: State, e: Event, s': State)
    requires Inv(s) && ExactlyOnce(s) && Orderly(s, e) && Step(s, e) == Some(s')
    ensures ExactlyOnce(s')
  {
    hide AckedOrders, IsWindow, Delivered, LostInGap, EvictedAt1000, Newest;
    match e
    case Consume(order, link) => OrderlyConsumeKeeps(s, order, link, s');
    case CheckInitial =>
      assert InFlight(s', Kafka).None? && Other(Kafka) == Scheduler && Other(Scheduler) == Kafka;
      assert InFlight(s', Scheduler) == InFlight(s, Scheduler);
    case Snapshot(t) =>
      assert InFlight(s', Other(t)).None?;
      OnlyOther(s', t);
    case Acknowledge(t) => OrderlyAcknowledgeKeeps(s, t, s');
    case Fail(t) =>
      assert InFlight(s', Other(t)).None?;
      OnlyOther(s', t);
  }

  lemma {:induction false} OrderlyRunKeeps(es: seq<Event>)
    requires Run(es).Some? && OrderlyRun(es)
    ensures ExactlyOnce(Run(es).value)
  {
    if es != [] {
      OrderlyRunKeeps(es[..|es| - 1]);
      RunKeeps(es[..|es| - 1]);
      OrderlyStepKeeps(Run(es[..|es| - 1]).value, es[|es| - 1], Run(es).value);
    }
  }

  /** Across any number of failed calls, the acknowledged batches followed by the queue are the
      consumed orders: each exactly once, in order. */
  lemma OrderlyRunsDeliverExactlyOnce(es: seq<Event>)
    requires Run(es).Some? && OrderlyRun(es)
    ensures AckedOrders(Run(es).value.acks) + Run(es).value.orders == Run(es).value.consumed
  {
    OrderlyRunKeeps(es);
    RunKeeps(es);
    var s := Run(es).value;
    assert s.consumed[..s.cleared] + s.consumed[s.cleared..] == s.consumed;
  }

  // ---------- Which calls can overlap ----------

  /** The Kafka thread makes one call in the life of the service, so calls overlap only while
      that one is in flight: once it is over, no later state has two calls. */
  ghost predicate InitialCallOver(s: State) {
    s.initialCallDone && s.kafka in {Polling, Checking}
  }

  lemma InitialCallStaysOver(s: State, e: Event, s': State)
    requires InitialCallOver(s) && Step(s, e) == Some(s')
    ensures InitialCallOver(s')
  {
  }

  lemma {:induction false} NoOverlapAfterInitialCall(es: seq<Event>, more: seq<Event>)
    requires Run(es).Some? && InitialCallOver(Run(es).value) && Run(es + more).Some?
    ensures InitialCallOver(Run(es + more).value) && InFlight(Run(es + more).value, Kafka).None?
  {
    if more == [] {
      assert es + more == es;
    } else {
      var before := more[..|more| - 1];
      assert (es + more)[..|es + more| - 1] == es + before;
      NoOverlapAfterInitialCall(es, before);
      InitialCallStaysOver(Run(es + before).value, more[|more| - 1], Run(es + more).value);
    }
  }

  /** Before its first order is checked, the Kafka thread is in no call either. */
  lemma {:induction false} NoCallBeforeTheFirstOrder(es: seq<Event>)
    requires Run(es).Some? && !Run(es).value.initialCallDone
    ensures Run(es).value.kafka in {Polling, Checking} && InFlight(Run(es).value, Kafka).None?
  {
    if es != [] {
      if !Run(es[..|es| - 1]).value.initialCallDone {
        NoCallBeforeTheFirstOrder(es[..|es| - 1]);
      }
    }
  }

  /** How often the Kafka thread has entered `call_lambda`. */
  function KafkaCalls(es: seq<Event>): nat {
    if es == [] then 0
    else KafkaCalls(es[..|es| - 1]) + if es[|es| - 1] == Snapshot(Kafka) then 1 else 0
  }

  /** It does so at most once in the life of the service, whatever the scheduler does: exactly
      when it has seen a queue that was not empty after one of its messages. */
  lemma {:induction false} InitialCallIsMadeOnce(es: seq<Event>)
    requires Run(es).Some?
    ensures var s := Run(es).value;
            && (s.kafka.Starting? || s.kafka.Waiting? ==> s.initialCallDone)
            && KafkaCalls(es) == CallsBegun(s)
  {
    hide Step, CallsBegun;
    if es == [] {
      NoCallsBegun();
    } else {
      InitialCallIsMadeOnce(es[..|es| - 1]);
      CallsBegunStep(Run(es[..|es| - 1]).value, es[|es| - 1], Run(es).value);
    }
  }

  function CallsBegun(s: State): nat {
    if s.initialCallDone && !s.kafka.Starting? then 1 else 0
  }

  lemma NoCallsBegun()
    ensures CallsBegun(INIT) == 0
  {
  }

  lemma CallsBegunStep(s: State, e: Event, s': State)
    requires (s.kafka.Starting? || s.kafka.Waiting? ==> s.initialCallDone) && Step(s, e) == Some(s')
    ensures s'.kafka.Starting? || s'.kafka.Waiting? ==> s'.initialCallDone
    ensures CallsBegun(s') == CallsBegun(s) + if e == Snapshot(Kafka) then 1 else 0
  {
  }
}
