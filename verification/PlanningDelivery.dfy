/** Which consumed orders and links are sent, and how often. */
module PlanningDelivery {
  import opened Wrappers
  import opened Planning
  import opened PlanningTheorems

  // ---------- Order by order, over every run ----------

  /** An order has left the queue without having been in an acknowledged batch if and only if
      it arrived in the gap of an acknowledged call or was evicted, and in no batch. */
  lemma LostExactly(es: seq<Event>, i: nat)
    requires Run(es).Some? && i < |Run(es).value.consumed|
    ensures var s := Run(es).value;
            i < Departed(s) && !Delivered(s, i) <==> !Delivered(s, i) && (LostInGap(s, i) || EvictedAt1000(s, i))
  {
    RunKeeps(es);
  }

  // ---------- The whole sequence, when calls do not overlap ----------

  /** No snapshot is taken while the other thread has a call in flight. */
  predicate SerialRun(es: seq<Event>) {
    es == [] ||
    var front, e := es[..|es| - 1], es[|es| - 1];
    SerialRun(front) && (Run(front).Some? ==> Serial(Run(front).value, e))
  }

  predicate Serial(s: State, e: Event) {
    e.Snapshot? ==> InFlight(s, Other(e.thread)).None?
  }

  /** Each acknowledged call began after the clear of the one before it. */
  ghost predicate Follow(acks: seq<Ack>, consumed: seq<Order>, cleared: nat) {
    if acks == [] then cleared == 0
    else
      var a := acks[|acks| - 1];
      && a.at == cleared <= |consumed| && IsWindow(a.call, consumed) && a.call.hi <= a.at
      && Follow(acks[..|acks| - 1], consumed, a.call.since)
  }

  /** Nothing was evicted before a snapshot and nothing arrived between it and its clear. */
  predicate Gapless(acks: seq<Ack>) {
    forall a | a in acks :: a.call.lo == a.call.since && a.call.hi == a.at
  }

  lemma {:induction false} FollowExtends(acks: seq<Ack>, consumed: seq<Order>, cleared: nat, order: Order)
    requires Follow(acks, consumed, cleared)
    ensures Follow(acks, consumed + [order], cleared)
  {
    if acks != [] {
      var a := acks[|acks| - 1];
      WindowKept(a.call, consumed, order);
      FollowExtends(acks[..|acks| - 1], consumed, a.call.since, order);
    }
  }

  /** Batches that follow one another are never longer than what was cleared, and as long only
      when nothing is missing. */
  lemma {:induction false} AckedLength(acks: seq<Ack>, consumed: seq<Order>, cleared: nat)
    requires Follow(acks, consumed, cleared)
    ensures |AckedOrders(acks)| <= cleared <= |consumed|
    ensures |AckedOrders(acks)| == cleared <==> Gapless(acks)
    ensures Gapless(acks) ==> AckedOrders(acks) == consumed[..cleared]
  {
    if acks != [] {
      var front, a := acks[..|acks| - 1], acks[|acks| - 1];
      assert acks == front + [a];
      AckedLength(front, consumed, a.call.since);
      assert Gapless(acks) <==> Gapless(front) && a.call.lo == a.call.since && a.call.hi == a.at;
      assert consumed[..a.call.since] + consumed[a.call.since..cleared] == consumed[..cleared];
    }
  }

  ghost predicate SerialInv(s: State) {
    && Follow(s.acks, s.consumed, s.cleared)
    && forall t | InFlight(s, t).Some? ::
         InFlight(s, t).value.since == s.cleared && InFlight(s, Other(t)).None?
  }

  lemma SerialStepKeeps(s: State, e: Event, s': State)
    requires Inv(s) && SerialInv(s) && Serial(s, e) && Step(s, e) == Some(s')
    ensures SerialInv(s')
  {
    hide Follow, IsWindow, Newest, Delivered, LostInGap, EvictedAt1000;
    match e
    case Consume(order, link) =>
      FollowExtends(s.acks, s.consumed, s.cleared, order);
      assert forall t :: InFlight(s', t) == InFlight(s, t);
    case CheckInitial =>
      assert forall t :: InFlight(s', t) == InFlight(s, t);
    case Snapshot(t) =>
      assert InFlight(s', Other(t)).None?;
      OnlyOther(s', t);
    case Acknowledge(t) =>
      FollowSnoc(s.acks, InFlight(s, t).value, s.consumed);
      assert InFlight(s', Other(t)).None?;
      OnlyOther(s', t);
    case Fail(t) =>
      assert InFlight(s', Other(t)).None?;
      OnlyOther(s', t);
  }

  lemma FollowSnoc(acks: seq<Ack>, c: Call, consumed: seq<Order>)
    requires Follow(acks, consumed, c.since) && IsWindow(c, consumed)
    ensures forall t :: Follow(acks + [Ack(c, |consumed|, t)], consumed, |consumed|)
  {
    assert forall t :: (acks + [Ack(c, |consumed|, t)])[..|acks|] == acks;
  }

  lemma {:induction false} SerialRunKeeps(es: seq<Event>)
    requires Run(es).Some? && SerialRun(es)
    ensures SerialInv(Run(es).value)
  {
    assert Follow([], [], 0);
    hide Follow, Inv, Step;
    if es != [] {
      SerialRunKeeps(es[..|es| - 1]);
      RunKeeps(es[..|es| - 1]);
      SerialStepKeeps(Run(es[..|es| - 1]).value, es[|es| - 1], Run(es).value);
    }
  }

  /** Without overlapping calls, the acknowledged batches followed by the queue are the consumed
      orders, each once and in order, if and only if no acknowledged call had lost orders to
      eviction or to its gap and the present backlog is within its bound. */
  lemma SerialRunsDeliverExactlyOnce(es: seq<Event>)
    requires Run(es).Some? && SerialRun(es)
    ensures var s := Run(es).value;
            AckedOrders(s.acks) + s.orders == s.consumed
            <==> Gapless(s.acks) && |s.consumed| - s.cleared <= MAX_QUEUE
  {
    hide Follow, Run, IsWindow, Delivered, LostInGap, EvictedAt1000;
    SerialRunKeeps(es);
    RunKeeps(es);
    var s := Run(es).value;
    AckedLength(s.acks, s.consumed, s.cleared);
    assert s.consumed[..s.cleared] + s.consumed[s.cleared..] == s.consumed;
    assert |s.orders| <= |s.consumed| - s.cleared;
    assert AckedOrders(s.acks) + s.orders == s.consumed ==> |AckedOrders(s.acks)| + |s.orders| == |s.consumed|;
  }

  /** Overlapping calls are not serial, and when both succeed an order is delivered twice. */
  lemma OverlapDeliversTwice(a: Order)
    ensures exists es :: Run(es).Some? && Run(es).value.consumed == [a] && AckedOrders(Run(es).value.acks) == [a, a]
  {
    hide Run, AckedOrders, Append;
    var c := Call([a], [], 0, 0, 1, 0, 0);
    assert [a] + [a] == [a, a] && [] + [c] == [c] && [c] + [c] == [c, c];
    var e2, s2 := FirstOrder(a, None);
    var s3 := s2.(sent := [c], kafka := Waiting(c));
    var e3 := Then(e2, s2, Snapshot(Kafka), s3);
    var s4 := s3.(sent := [c, c], scheduler := Posting(c));
    var e4 := Then(e3, s3, Snapshot(Scheduler), s4);
    var k, l := Ack(c, 1, Kafka), Ack(c, 1, Scheduler);
    assert [] + [k] == [k] && [k] + [l] == [k, l];
    var s5 := s4.(orders := [], kafka := Polling, cleared := 1, acks := [k]);
    var e5 := Then(e4, s4, Acknowledge(Kafka), s5);
    var s6 := s5.(scheduler := Idle, acks := [k, l]);
    var e6 := Then(e5, s5, Acknowledge(Scheduler), s6);
    TwoAcks(k, l);
  }

  lemma TwoAcks(k: Ack, l: Ack)
    ensures AckedOrders([k, l]) == k.call.orders + l.call.orders
  {
    assert [k, l][..1] == [k] && [k][..0] == [];
    assert AckedOrders([k]) == k.call.orders;
  }

  // ---------- How often an order is delivered ----------

  /** The acknowledged batches of a thread that hold the order. */
  function Deliveries(acks: seq<Ack>, t: Thread, i: nat): nat {
    if acks == [] then 0
    else
      var a := acks[|acks| - 1];
      Deliveries(acks[..|acks| - 1], t, i) + if a.thread == t && a.call.lo <= i < a.call.hi then 1 else 0
  }

  /** Where the window of the scheduler's next acknowledged batch can begin. */
  function Reach(s: State): nat {
    if s.scheduler.Posting? then s.scheduler.call.since else s.cleared
  }

  /** The scheduler's batches never share an order, and the Kafka thread has at most one. */
  ghost predicate DeliveryInv(s: State) {
    && Reach(s) <= s.cleared
    && (forall i: nat :: Deliveries(s.acks, Scheduler, i) <= if i < Reach(s) then 1 else 0)
    && forall i: nat :: Deliveries(s.acks, Kafka, i) <= if CallsBegun(s) == 1 && !s.kafka.Waiting? then 1 else 0
  }

  lemma DeliveriesSnoc(acks: seq<Ack>, a: Ack)
    ensures forall t, i: nat ::
              Deliveries(acks + [a], t, i)
              == Deliveries(acks, t, i) + if a.thread == t && a.call.lo <= i < a.call.hi then 1 else 0
  {
    assert (acks + [a])[..|acks|] == acks;
  }

  lemma DeliveryStepKeeps(s: State, e: Event, s': State)
    requires Inv(s) && DeliveryInv(s) && Step(s, e) == Some(s')
    requires s.kafka.Starting? || s.kafka.Waiting? ==> s.initialCallDone
    ensures DeliveryInv(s')
  {
    hide Newest, Delivered, LostInGap, EvictedAt1000, Deliveries;
    if e.Acknowledge? {
      var c := InFlight(s, e.thread).value;
      DeliveriesSnoc(s.acks, Ack(c, |s.consumed|, e.thread));
    } else {
      assert s'.acks == s.acks;
    }
  }

  lemma {:induction false} DeliveryRunKeeps(es: seq<Event>)
    requires Run(es).Some?
    ensures DeliveryInv(Run(es).value)
  {
    if es != [] {
      hide DeliveryInv, Inv, Step;
      DeliveryRunKeeps(es[..|es| - 1]);
      RunKeeps(es[..|es| - 1]);
      InitialCallIsMadeOnce(es[..|es| - 1]);
      DeliveryStepKeeps(Run(es[..|es| - 1]).value, es[|es| - 1], Run(es).value);
    }
  }

  /** Over every run an order is in at most two acknowledged batches: one of the scheduler, and
      the one of the initial call. */
  lemma DeliveredAtMostTwice(es: seq<Event>, i: nat)
    requires Run(es).Some?
    ensures Deliveries(Run(es).value.acks, Scheduler, i) <= 1 && Deliveries(Run(es).value.acks, Kafka, i) <= 1
  {
    DeliveryRunKeeps(es);
  }

  /** No order counted twice or not at all: `Deliveries` finds what `Delivered` speaks of. */
  lemma {:induction false} DeliveriesCount(acks: seq<Ack>, i: nat)
    ensures Deliveries(acks, Scheduler, i) + Deliveries(acks, Kafka, i) > 0
       <==> exists a | a in acks :: a.call.lo <= i < a.call.hi
  {
    if acks != [] {
      var front, a := acks[..|acks| - 1], acks[|acks| - 1];
      assert acks == front + [a];
      DeliveriesCount(front, i);
    }
  }

  // ---------- Links ----------

  /** The links of a batch are the newest 1000 consumed between the clear before its snapshot
      and the snapshot, and never more than its orders. */
  ghost predicate CarriesLinks(c: Call, consumedLinks: seq<Link>) {
    && c.linksSince <= c.linksHi <= |consumedLinks|
    && c.links == Newest(consumedLinks[c.linksSince..c.linksHi])
    && |c.links| <= |c.orders|
  }

  lemma {:induction false} BatchesCarryNewestLinks(es: seq<Event>)
    requires Run(es).Some?
    ensures forall c | c in Run(es).value.sent :: CarriesLinks(c, Run(es).value.consumedLinks)
  {
    if es != [] {
      var front := es[..|es| - 1];
      BatchesCarryNewestLinks(front);
      LinksStepKeeps(front, es[|es| - 1], Run(front).value, Run(es).value);
    }
  }

  lemma LinksStepKeeps(es: seq<Event>, e: Event, s: State, s': State)
    requires Run(es) == Some(s) && Step(s, e) == Some(s')
    requires forall c | c in s.sent :: CarriesLinks(c, s.consumedLinks)
    ensures forall c | c in s'.sent :: CarriesLinks(c, s'.consumedLinks)
  {
    QueueIsNewestSinceClear(es);
    hide Run, Newest, CarriesLinks;
    if e.Snapshot? && s.orders != [] {
      var c := s'.sent[|s.sent|];
      SnapshotTakesLinks(s, c);
      assert forall d | d in s'.sent :: d in s.sent || d == c;
    } else {
      assert s'.sent == s.sent;
      forall c | c in s.sent
        ensures CarriesLinks(c, s'.consumedLinks)
      {
        if s'.consumedLinks != s.consumedLinks {
          CarriesLinksStill(c, s.consumedLinks, s'.consumedLinks);
        }
      }
    }
  }

  lemma SnapshotTakesLinks(s: State, c: Call)
    requires s.linksCleared <= |s.consumedLinks| && s.links == Newest(s.consumedLinks[s.linksCleared..])
    requires |s.links| <= |s.orders|
    requires c.links == s.links && c.orders == s.orders
    requires c.linksSince == s.linksCleared && c.linksHi == |s.consumedLinks|
    ensures CarriesLinks(c, s.consumedLinks)
  {
    hide Newest;
    assert s.consumedLinks[s.linksCleared..] == s.consumedLinks[s.linksCleared..|s.consumedLinks|];
  }

  lemma CarriesLinksStill(c: Call, before: seq<Link>, after: seq<Link>)
    requires CarriesLinks(c, before) && |before| <= |after| && after[..|before|] == before
    ensures CarriesLinks(c, after)
  {
    hide Newest;
    forall i | 0 <= i < |before|
      ensures after[i] == before[i]
    {
      assert after[..|before|][i] == before[i];
    }
    assert after[c.linksSince..c.linksHi] == before[c.linksSince..c.linksHi];
  }

  /** A link may be sent without the order it came with: deques of one bound fill at different
      speeds, and after 1000 more orders without links the order is gone and the link is not. */
  lemma LinkOutlivesItsOrder(a: Order, b: Order, link: Link)
    requires a != b
    ensures exists es, c :: Run(es).Some? && c in Run(es).value.sent && c.links == [link] && a !in c.orders
                         && Run(es).value.consumed != [] && Run(es).value.consumed[0] == a
                         && Run(es).value.consumedLinks == [link]
  {
    hide Run;
    var e4, s4 := FailedFirstCall(a, Some(link));
    var e5, s5 := Refill(e4, s4, b, MAX_QUEUE);
    QueueIsNewestSinceClear(e5);
    assert s5.consumed[0..] == s5.consumed;
    var d := Call(s5.orders, [link], 0, |s5.consumed| - |s5.orders|, |s5.consumed|, 0, 1);
    var s6 := s5.(sent := s5.sent + [d], scheduler := Posting(d));
    var e6 := Then(e5, s5, Snapshot(Scheduler), s6);
    assert d in s6.sent;
  }

  /** `n` more orders `b` without links. */
  lemma {:induction false} Refill(es: seq<Event>, s: State, b: Order, n: nat) returns (more: seq<Event>, s': State)
    requires Run(es) == Some(s) && s.kafka == Polling && s.initialCallDone
    ensures Run(more) == Some(s') && |s'.consumed| == |s.consumed| + n
    ensures s'.consumed[..|s.consumed|] == s.consumed
    ensures forall i | |s.consumed| <= i < |s'.consumed| :: s'.consumed[i] == b
    ensures s' == s.(orders := s'.orders, consumed := s'.consumed)
  {
    hide Run;
    if n == 0 {
      more, s' := es, s;
    } else {
      var front, s1 := Refill(es, s, b, n - 1);
      var s2 := s1.(orders := Append(s1.orders, b), consumed := s1.consumed + [b], kafka := Checking);
      var e2 := Then(front, s1, Consume(b, None), s2);
      s' := s2.(kafka := Polling);
      more := Then(e2, s2, CheckInitial, s');
    }
  }
}
