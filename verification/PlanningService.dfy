/** The planning service as it runs: two deques and a flag, changed in place by the sections
    that hold the lock. Each section is proved to be one step of `Planning`. */
module PlanningService {
  import opened Wrappers
  import opened Planning
  import opened PlanningTheorems

  /** What one `poll` of the Kafka consumer gives. */
  datatype Poll = Nothing | Broken | Message(order: Order, link: Option<Link>)

  class Service {
    var collectedOrders: seq<Order>
    var collectedLinks: seq<Link>
    var initialCallDone: bool
    /** Whether the scheduler thread waits for an answer. */
    var posting: bool
    /** The steps taken so far. */
    ghost var trace: seq<Event>

    ghost predicate Valid()
      reads this
    {
      && Run(trace).Some?
      && Now().orders == collectedOrders
      && Now().links == collectedLinks
      && Now().initialCallDone == initialCallDone
      && Now().scheduler.Posting? == posting
    }

    ghost function Now(): State
      reads this
      requires Run(trace).Some?
    {
      Run(trace).value
    }

    constructor ()
      ensures Valid() && trace == []
    {
      collectedOrders, collectedLinks, initialCallDone, posting, trace := [], [], false, false, [];
    }

    /** The locked section of `process_order`; a record that does not parse never gets here. */
    method ProcessOrder(order: Order, link: Option<Link>)
      requires Valid() && Now().kafka == Polling
      modifies this
      ensures Valid() && trace == old(trace) + [Consume(order, link)]
      ensures Now().consumed == old(Now().consumed) + [order]
      ensures Now().consumedLinks == old(Now().consumedLinks) + Links(link)
      ensures Now().kafka == Checking && collectedOrders == Append(old(collectedOrders), order)
      ensures initialCallDone == old(initialCallDone) && SameElsewhere(old(Now()), Now())
    {
      collectedOrders := Push(collectedOrders, order);
      if link.Some? {
        collectedLinks := Push(collectedLinks, link.value);
      }
      Took(Consume(order, link));
    }

    /** `append` of a bounded deque: the oldest element makes room. */
    static method Push<T>(q: seq<T>, x: T) returns (r: seq<T>)
      ensures r == Append(q, x)
    {
      r := q;
      if |r| >= MAX_QUEUE {
        r := r[1..];
      }
      r := r + [x];
    }

    /** Records a step whose effect on the deques has just been made. */
    ghost method Took(e: Event)
      requires Run(trace).Some? && Step(Now(), e).Some?
      modifies `trace
      ensures trace == old(trace) + [e] && Run(trace) == Step(old(Now()), e)
    {
      assert (trace + [e])[..|trace|] == trace;
      trace := trace + [e];
    }

    /** The test for the first order, which the lock does not cover. */
    method CheckInitial() returns (call: bool)
      requires Valid() && Now().kafka == Checking
      modifies this
      ensures Valid() && trace == old(trace) + [Event.CheckInitial]
      ensures Now().kafka == if call then Starting else Polling
      ensures call <==> !old(initialCallDone) && collectedOrders != []
      ensures initialCallDone == (old(initialCallDone) || call)
      ensures collectedOrders == old(collectedOrders) && SameElsewhere(old(Now()), Now())
      ensures Now().consumed == old(Now().consumed) && Now().consumedLinks == old(Now().consumedLinks)
    {
      call := !initialCallDone && |collectedOrders| > 0;
      if call {
        initialCallDone := true;
      }
      Took(Event.CheckInitial);
    }

    /** The first locked section of `call_lambda`: copies of both deques, nothing removed. */
    method Snapshot(thread: Thread) returns (orders: seq<Order>, links: seq<Link>)
      requires Valid() && (if thread == Kafka then Now().kafka == Starting else Now().scheduler == Idle)
      modifies `trace, `posting
      ensures Valid() && trace == old(trace) + [Event.Snapshot(thread)]
      ensures orders == collectedOrders && links == collectedLinks
      ensures orders != [] <==> InFlight(Now(), thread).Some?
      ensures orders != [] ==> InFlight(Now(), thread).value.orders == orders
      ensures orders == [] ==> Now() == Returned(old(Now()), thread)
      ensures thread == Kafka && orders != [] ==> Now().kafka.Waiting?
      ensures thread == Kafka ==>
        posting == old(posting) && SameConsumer(old(Now()).(kafka := Now().kafka), Now())
        && Now().scheduler == old(Now().scheduler)
        && |Now().sent| == |old(Now().sent)| + if orders == [] then 0 else 1
      ensures thread == Scheduler ==> SameConsumer(old(Now()), Now())
    {
      orders, links := collectedOrders, collectedLinks;
      if thread == Scheduler {
        posting := orders != [];
      }
      Took(Event.Snapshot(thread));
    }

    /** What `call_lambda` does with the answer: the second locked section empties both deques,
        whatever they hold by then; an error leaves them alone. */
    method Finish(thread: Thread, ok: bool)
      requires Valid() && InFlight(Now(), thread).Some?
      modifies this
      ensures Valid() && trace == old(trace) + [if ok then Acknowledge(thread) else Fail(thread)]
      ensures Now().kafka == if thread == Kafka then Polling else old(Now().kafka)
      ensures SameConsumer(old(Now()).(kafka := Now().kafka), Now()) && Now().sent == old(Now().sent)
      ensures thread == Kafka ==> posting == old(posting) && Now().scheduler == old(Now().scheduler)
      ensures collectedOrders == if ok then [] else old(collectedOrders)
    {
      if ok {
        collectedOrders, collectedLinks := [], [];
      }
      if thread == Scheduler {
        posting := false;
      }
      Took(if ok then Acknowledge(thread) else Fail(thread));
    }

    /** `call_lambda` with nothing in between. */
    method CallLambda(thread: Thread, ok: bool)
      requires Valid() && (if thread == Kafka then Now().kafka == Starting else Now().scheduler == Idle)
      modifies this
      ensures Valid() && Now().consumed == old(Now().consumed) && initialCallDone == old(initialCallDone)
      ensures Now().kafka == if thread == Kafka then Polling else old(Now().kafka)
      ensures Now().scheduler == old(Now().scheduler)
      ensures collectedOrders == if ok then [] else old(collectedOrders)
      ensures collectedLinks == if ok && old(collectedOrders) != [] then [] else old(collectedLinks)
      ensures |Now().sent| == |old(Now().sent)| + if old(collectedOrders) != [] then 1 else 0
    {
      var orders, _ := Snapshot(thread);
      if orders != [] {
        Finish(thread, ok);
      }
    }

    /** Any number of steps of the scheduler thread: calls begun, and calls ended either way. */
    method SchedulerRuns(busy: bool)
      requires Valid()
      modifies this
      ensures Valid() && SameConsumer(old(Now()), Now())
      ensures !busy ==> Now() == old(Now())
    {
      var steps: nat := *;
      if !busy {
        return;
      }
      while steps > 0
        invariant Valid() && SameConsumer(old(Now()), Now())
      {
        if posting {
          var ok: bool := *;
          Finish(Scheduler, ok);
        } else {
          var _, _ := Snapshot(Scheduler);
        }
        steps := steps - 1;
      }
    }

    /** A message of the consumer loop: the order is queued, and a call made at once if there
        was none yet. The scheduler may run between any two sections, if it is `busy`. */
    method HandleMessage(order: Order, link: Option<Link>, ok: bool, busy: bool)
      requires Valid() && Now().kafka == Polling
      modifies this
      ensures Valid() && Now().kafka == Polling && (old(initialCallDone) ==> initialCallDone)
      ensures Now().consumed == old(Now().consumed) + [order]
      ensures Now().consumedLinks == old(Now().consumedLinks) + Links(link)
      ensures !busy ==>
        && initialCallDone && Now().scheduler == old(Now().scheduler)
        && |Now().sent| == |old(Now().sent)| + (if old(initialCallDone) then 0 else 1)
        && collectedOrders == if ok && !old(initialCallDone) then [] else Append(old(collectedOrders), order)
    {
      hide Run, Step;
      ProcessOrder(order, link);
      SchedulerRuns(busy);
      var call := CheckInitial();
      SchedulerRuns(busy);
      if call {
        var orders, _ := Snapshot(Kafka);
        SchedulerRuns(busy);
        if orders != [] {
          Finish(Kafka, ok);
        }
      }
      SchedulerRuns(busy);
    }

    /** The consumer loop over a finite stream of polls, with the scheduler running between any
        two of its sections or quiet: every order is consumed in turn, and this thread calls at
        most once in the service's life; with a quiet scheduler, at the first order. */
    method KafkaConsumerLoop(polls: seq<Poll>, ok: bool, busy: bool)
      requires Valid() && Now().kafka == Polling
      modifies this
      ensures Valid() && Now().kafka == Polling
      ensures Now().consumed == old(Now().consumed) + Orders(polls)
      ensures KafkaCalls(trace) == if initialCallDone then 1 else 0
      ensures old(initialCallDone) ==> initialCallDone && KafkaCalls(trace) == KafkaCalls(old(trace))
      ensures !busy ==>
        && (initialCallDone <==> old(initialCallDone) || Orders(polls) != [])
        && |Now().sent| == |old(Now().sent)| + if old(initialCallDone) || Orders(polls) == [] then 0 else 1
    {
      var i := 0;
      assert polls[..0] == [];
      InitialCallIsMadeOnce(trace);
      while i < |polls|
        invariant 0 <= i <= |polls| && Valid() && Now().kafka == Polling
        invariant Now().consumed == old(Now().consumed) + Orders(polls[..i])
        invariant old(initialCallDone) ==> initialCallDone
        invariant !busy ==>
          && (initialCallDone <==> old(initialCallDone) || Orders(polls[..i]) != [])
          && |Now().sent| == |old(Now().sent)| + if old(initialCallDone) || Orders(polls[..i]) == [] then 0 else 1
      {
        OrdersNext(polls, i);
        var poll := polls[i];
        i := i + 1;
        if poll.Message? {
          HandleMessage(poll.order, poll.link, ok, busy);
        }
      }
      assert polls[..i] == polls;
      InitialCallIsMadeOnce(trace);
    }
  }

  /** The scheduler's call and the batches sent. */
  predicate SameElsewhere(s: State, s': State) {
    s'.scheduler == s.scheduler && s'.sent == s.sent
  }

  /** What steps of the scheduler leave alone. */
  predicate SameConsumer(s: State, s': State) {
    && s'.kafka == s.kafka && s'.initialCallDone == s.initialCallDone
    && s'.consumed == s.consumed && s'.consumedLinks == s.consumedLinks
  }

  /** The orders among the polls. */
  function Orders(polls: seq<Poll>): seq<Order> {
    if polls == [] then []
    else
      var p := polls[|polls| - 1];
      Orders(polls[..|polls| - 1]) + if p.Message? then [p.order] else []
  }

  lemma OrdersNext(polls: seq<Poll>, i: nat)
    requires i < |polls|
    ensures Orders(polls[..i + 1]) == Orders(polls[..i]) + if polls[i].Message? then [polls[i].order] else []
  {
    assert polls[..i + 1][..i] == polls[..i];
  }
}
