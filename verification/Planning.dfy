/** Order batching between the Kafka thread and the scheduler thread, as the atomic steps the
    lock leaves. Every interleaving of the two threads is a run of this machine. */
module Planning {
  import opened Wrappers

  const MAX_QUEUE: nat := 1000

  datatype Order = Order(orderId: string, shippingTrackingId: string, itemsCount: nat)

  datatype Link = Link(traceId: string, spanId: string)

  /** A call of the Lambda endpoint in flight: what it sent, and which consumed orders that
      was (`lo` up to `hi`), counted from the start of the service. `since` is how many had
      been consumed at the clear before its snapshot; `linksSince` and `linksHi` count the
      links consumed by then and by the snapshot. */
  datatype Call = Call(
    orders: seq<Order>, links: seq<Link>, since: nat, lo: int, hi: nat, linksSince: nat, linksHi: nat)

  datatype Thread = Kafka | Scheduler

  /** An acknowledged call, how many orders had been consumed when it cleared the queue, and
      whose call it was. */
  datatype Ack = Ack(call: Call, at: nat, thread: Thread)

  /** Where the Kafka thread is: waiting for a message, about to test whether this was the
      first order, about to make the initial call, or waiting for its answer. */
  datatype KafkaPc = Polling | Checking | Starting | Waiting(call: Call)

  datatype SchedulerPc = Idle | Posting(call: Call)

  /** The fields after `scheduler` are history: no step of the service reads them. */
  datatype State = State(
    orders: seq<Order>, links: seq<Link>, initialCallDone: bool, kafka: KafkaPc, scheduler: SchedulerPc,
    consumed: seq<Order>, consumedLinks: seq<Link>, cleared: nat, linksCleared: nat, acks: seq<Ack>, sent: seq<Call>)

  datatype Event =
    | Consume(order: Order, link: Option<Link>)
    | CheckInitial
    | Snapshot(thread: Thread)
    | Acknowledge(thread: Thread)
    | Fail(thread: Thread)

  const INIT := State([], [], false, Polling, Idle, [], [], 0, 0, [], [])

  /** `deque(maxlen=1000).append` */
  function Append<T>(q: seq<T>, x: T): seq<T> {
    if |q| < MAX_QUEUE then q + [x] else q[1..] + [x]
  }

  /** The call a thread is waiting for. */
  function InFlight(s: State, t: Thread): Option<Call> {
    match t
    case Kafka => if s.kafka.Waiting? then Some(s.kafka.call) else None
    case Scheduler => if s.scheduler.Posting? then Some(s.scheduler.call) else None
  }

  function Other(t: Thread): Thread {
    if t == Kafka then Scheduler else Kafka
  }

  function Returned(s: State, t: Thread): State {
    if t == Kafka then s.(kafka := Polling) else s.(scheduler := Idle)
  }

  /** One atomic step; `None` when the thread is not there. */
  function Step(s: State, e: Event): Option<State> {
    match e
    case Consume(order, link) =>
      if s.kafka != Polling then None
      else
        var s1 := s.(orders := Append(s.orders, order), consumed := s.consumed + [order], kafka := Checking);
        if link.None? then Some(s1)
        else Some(s1.(links := Append(s.links, link.value), consumedLinks := s.consumedLinks + [link.value]))
    case CheckInitial =>
      if s.kafka != Checking then None
      else if !s.initialCallDone && |s.orders| > 0 then Some(s.(initialCallDone := true, kafka := Starting))
      else Some(s.(kafka := Polling))
    case Snapshot(t) =>
      if (t == Kafka && s.kafka != Starting) || (t == Scheduler && s.scheduler != Idle) then None
      else if s.orders == [] then Some(Returned(s, t))
      else
        var n := |s.consumed|;
        var call :=
          Call(s.orders, s.links, s.cleared, n - |s.orders|, n, s.linksCleared, |s.consumedLinks|);
        var s1 := s.(sent := s.sent + [call]);
        Some(if t == Kafka then s1.(kafka := Waiting(call)) else s1.(scheduler := Posting(call)))
    case Acknowledge(t) =>
      var call := InFlight(s, t);
      if call.None? then None
      else
        Some(Returned(s, t).(
             orders := [], links := [], cleared := |s.consumed|, linksCleared := |s.consumedLinks|,
             acks := s.acks + [Ack(call.value, |s.consumed|, t)]))
    case Fail(t) =>
      if InFlight(s, t).None? then None else Some(Returned(s, t))
  }

  /** The state after a run from the start of the service. */
  function Run(es: seq<Event>): Option<State> {
    if es == [] then Some(INIT)
    else
      var s := Run(es[..|es| - 1]);
      if s.None? then None else Step(s.value, es[|es| - 1])
  }
}
