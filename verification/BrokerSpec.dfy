/** The event broker of internal/event as a state machine on values. Every operation that
    holds the broker's mutex is one step, taken at one clock instant `now` (nanoseconds).
    Random subscription ids, parsed durations and composed addresses come in as part of
    the operation. */
module BrokerSpec {
  import opened Options

  const QUEUE_DEPTH := 256
  const SECOND := 1_000_000_000
  const DEFAULT_MAX_PULL_POINTS := 10
  const DEFAULT_SUBSCRIPTION_TIMEOUT := 3600 * SECOND
  const DEFAULT_NOTIFY_FAILURE_THRESHOLD := 3

  datatype Kind = Pull | Push

  datatype Consumer = Consumer(address: string, referenceParams: string)

  datatype Message = Message(reference: string, topic: string, body: string)

  datatype Dispatch = Dispatch(id: string, address: string, consumer: Consumer, topic: string, body: string)

  datatype Topic = Topic(name: string, enabled: bool)

  datatype Config = Config(
    maxPullPoints: int, maxProducers: int, failureThreshold: int, subscriptionTimeout: int, topics: seq<Topic>)

  /** Non-positive limits are replaced by their defaults; the producer limit is kept, as
      zero disables the interface. */
  function Normalized(c: Config): Config {
    c.(maxPullPoints := if c.maxPullPoints <= 0 then DEFAULT_MAX_PULL_POINTS else c.maxPullPoints,
       failureThreshold :=
         if c.failureThreshold <= 0 then DEFAULT_NOTIFY_FAILURE_THRESHOLD else c.failureThreshold,
       subscriptionTimeout :=
         if c.subscriptionTimeout <= 0 then DEFAULT_SUBSCRIPTION_TIMEOUT else c.subscriptionTimeout)
  }

  /** A termination time in a request: left out, unparsable, or a parsed duration. */
  datatype Requested = Omitted | Malformed | Lasting(duration: int)

  function Timeout(r: Requested, byDefault: int): Option<int> {
    match r
    case Omitted => Some(byDefault)
    case Malformed => None
    case Lasting(d) => Some(if d > 0 then d else byDefault)
  }

  /** One subscription. */
  datatype Sub = Sub(
    id: string, address: string, filter: string, kind: Kind, consumer: Consumer,
    termination: int, queue: seq<Message>, failures: nat)
  {
    predicate Live(now: int) { now <= termination }

    function Enqueued(m: Message): Sub {
      this.(queue := (if |queue| >= QUEUE_DEPTH then queue[1..] else queue) + [m])
    }

    /** How many messages `drain(limit)` hands out. */
    function DrainCount(limit: int): nat {
      if 0 < limit < |queue| then limit else |queue|
    }

    predicate Matches(topic: string) {
      filter == "" || topic == filter || filter + "/" <= topic
    }

    function Delivered(topic: string, body: string, now: int): Sub {
      if Live(now) && Matches(topic) && kind == Pull then Enqueued(Message(address, topic, body)) else this
    }

    predicate Pushes(topic: string, now: int) {
      Live(now) && Matches(topic) && kind == Push
    }

    function ToDispatch(topic: string, body: string): Dispatch {
      Dispatch(id, address, consumer, topic, body)
    }

    function WithResult(success: bool, threshold: int, now: int): Sub {
      if success then this.(failures := 0)
      else if failures + 1 >= threshold then this.(failures := failures + 1, termination := now - SECOND)
      else this.(failures := failures + 1)
    }
  }

  datatype State = State(cfg: Config, subs: map<string, Sub>)

  function New(cfg: Config): State { State(Normalized(cfg), map[]) }

  datatype Op =
    | CreatePullPoint(filter: string, requested: Requested, newId: Option<string>, address: string)
    | Subscribe(consumer: Consumer, validURI: bool, filter: string, requested: Requested,
                newId: Option<string>, address: string)
    | Publish(topic: string, body: string)
    | NotifyResult(id: string, success: bool)
    | PullMessages(id: string, limit: int)
    | SetSynchronizationPoint(id: string)
    | Renew(id: string, requested: Requested)
    | Unsubscribe(id: string)
    | Reap
    | UpdateConfig(cfg: Config)

  datatype Error =
    | InvalidArgs | MaxPullPointsReached | MaxProducersReached | ProducerDisabled
    | BadTerminationTime | NoSubscriptionId | SubscriptionNotFound

  datatype Outcome =
    | Failed(error: Error)
    | Subscribed(id: string, current: int, termination: int)
    | Dispatched(pushes: set<Dispatch>)
    | Pulled(current: int, termination: int, messages: seq<Message>)
    | Renewed(current: int, termination: int)
    | Done

  function TopicEnabled(topics: seq<Topic>, topic: string): bool {
    if topics == [] then false
    else if topics[0].name == topic then topics[0].enabled
    else TopicEnabled(topics[1..], topic)
  }

  /** `reapLocked`: expired subscriptions leave the map. */
  function Reaped(s: State, now: int): State {
    s.(subs := map k <- s.subs | s.subs[k].Live(now) :: s.subs[k])
  }

  function CountKind(subs: map<string, Sub>, kind: Kind): nat {
    |set k <- subs | subs[k].kind == kind|
  }

  predicate HasLive(s: State, id: string, now: int) { id in s.subs && s.subs[id].Live(now) }

  function Without(s: State, id: string): State { s.(subs := s.subs - {id}) }

  /** The common end of CreatePullPointSubscription and Subscribe. */
  function Add(s: State, requested: Requested, newId: Option<string>, blank: Sub, now: int): (State, Outcome) {
    match Timeout(requested, s.cfg.subscriptionTimeout)
    case None => (s, Failed(BadTerminationTime))
    case Some(timeout) =>
      match newId
      case None => (s, Failed(NoSubscriptionId))
      case Some(id) =>
        (s.(subs := s.subs[id := blank.(id := id, termination := now + timeout)]), Subscribed(id, now, now + timeout))
  }

  function Step(s: State, op: Op, now: int): (State, Outcome) {
    match op
    case CreatePullPoint(filter, requested, newId, address) =>
      var r := Reaped(s, now);
      if CountKind(r.subs, Pull) >= r.cfg.maxPullPoints then (r, Failed(MaxPullPointsReached))
      else Add(r, requested, newId, Sub("", address, filter, Pull, Consumer("", ""), 0, [], 0), now)
    case Subscribe(consumer, validURI, filter, requested, newId, address) =>
      if consumer.address == "" || !validURI then (s, Failed(InvalidArgs))
      else if s.cfg.maxProducers <= 0 then (s, Failed(ProducerDisabled))
      else
        var r := Reaped(s, now);
        if CountKind(r.subs, Push) >= r.cfg.maxProducers then (r, Failed(MaxProducersReached))
        else Add(r, requested, newId, Sub("", address, filter, Push, consumer, 0, [], 0), now)
    case Publish(topic, body) =>
      if !TopicEnabled(s.cfg.topics, topic) then (s, Dispatched({}))
      else (s.(subs := map k <- s.subs :: s.subs[k].Delivered(topic, body, now)),
            Dispatched(set k <- s.subs | s.subs[k].Pushes(topic, now) :: s.subs[k].ToDispatch(topic, body)))
    case NotifyResult(id, success) =>
      if id !in s.subs then (s, Done)
      else (s.(subs := s.subs[id := s.subs[id].WithResult(success, s.cfg.failureThreshold, now)]), Done)
    case PullMessages(id, limit) =>
      if limit < 0 then (s, Failed(InvalidArgs))
      else if !HasLive(s, id, now) then (Without(s, id), Failed(SubscriptionNotFound))
      else
        var sub := s.subs[id];
        var n := sub.DrainCount(limit);
        (s.(subs := s.subs[id := sub.(queue := sub.queue[n..])]), Pulled(now, sub.termination, sub.queue[..n]))
    case SetSynchronizationPoint(id) =>
      if !HasLive(s, id, now) then (Without(s, id), Failed(SubscriptionNotFound)) else (s, Done)
    case Renew(id, requested) =>
      if !HasLive(s, id, now) then (Without(s, id), Failed(SubscriptionNotFound))
      else (
        match Timeout(requested, s.cfg.subscriptionTimeout)
        case None => (s, Failed(BadTerminationTime))
        case Some(timeout) =>
          (s.(subs := s.subs[id := s.subs[id].(termination := now + timeout)]), Renewed(now, now + timeout)))
    case Unsubscribe(id) =>
      (Without(s, id), if HasLive(s, id, now) then Done else Failed(SubscriptionNotFound))
    case Reap => (Reaped(s, now), Done)
    case UpdateConfig(cfg) => (s.(cfg := Normalized(cfg)), Done)
  }
}
