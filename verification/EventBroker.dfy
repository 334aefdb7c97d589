/** The broker itself: subscription objects updated in place and a map from ids to them.
    Every method is proved to make exactly the step of BrokerSpec on the abstract state. */
module EventBroker {
  import opened Options
  import opened BrokerSpec
  import opened Sets

  class Subscription {
    const id: string
    const address: string
    const filter: string
    const kind: Kind
    const consumer: Consumer
    var termination: int
    var queue: seq<Message>
    var failures: nat

    constructor (id: string, address: string, filter: string, kind: Kind, consumer: Consumer, termination: int)
      ensures Value() == Sub(id, address, filter, kind, consumer, termination, [], 0)
      ensures this.id == id
    {
      this.id, this.address, this.filter, this.kind, this.consumer := id, address, filter, kind, consumer;
      this.termination, queue, failures := termination, [], 0;
    }

    function Value(): Sub
      reads this
    {
      Sub(id, address, filter, kind, consumer, termination, queue, failures)
    }

    method Enqueue(m: Message)
      modifies this`queue
      ensures Value() == old(Value()).Enqueued(m)
    {
      if |queue| >= QUEUE_DEPTH {
        queue := queue[1..];
      }
      queue := queue + [m];
    }

    /** What Publish does for one subscription. */
    method Deliver(topic: string, body: string, now: int) returns (push: set<Dispatch>)
      modifies this`queue
      ensures Value() == old(Value()).Delivered(topic, body, now)
      ensures push
           == if old(Value()).Pushes(topic, now) then {old(Value()).ToDispatch(topic, body)} else {}
    {
      push := {};
      if now > termination || !Value().Matches(topic) {
        return;
      }
      match kind {
        case Push =>
          push := {Dispatch(id, address, consumer, topic, body)};
        case Pull =>
          Enqueue(Message(address, topic, body));
      }
    }

    method SetTermination(t: int)
      modifies this`termination
      ensures Value() == old(Value()).(termination := t)
    {
      termination := t;
    }

    method Drain(limit: int) returns (out: seq<Message>)
      modifies this`queue
      ensures out == old(queue)[..old(Value()).DrainCount(limit)]
      ensures Value() == old(Value()).(queue := old(queue)[old(Value()).DrainCount(limit)..])
    {
      if |queue| == 0 {
        return [];
      }
      var n := |queue|;
      if limit > 0 && limit < n {
        n := limit;
      }
      out := queue[..n];
      queue := queue[n..];
    }
  }

  /** The dispatches for the subscriptions not filed under `todo`. */
  ghost function PushesOutside(subs: map<string, Sub>, todo: set<string>, topic: string, body: string, now: int)
    : set<Dispatch>
  {
    set k <- subs | k !in todo && subs[k].Pushes(topic, now) :: subs[k].ToDispatch(topic, body)
  }

  lemma PushesOneMore(subs: map<string, Sub>, todo: set<string>, k: string, topic: string, body: string, now: int)
    requires k in subs && k in todo
    ensures PushesOutside(subs, todo - {k}, topic, body, now)
         == PushesOutside(subs, todo, topic, body, now)
            + if subs[k].Pushes(topic, now) then {subs[k].ToDispatch(topic, body)} else {}
  {
  }

  lemma NothingPushed(subs: map<string, Sub>, topic: string, body: string, now: int)
    ensures PushesOutside(subs, subs.Keys, topic, body, now) == {}
  {
  }

  ghost function OfKind(subs: map<string, Sub>, todo: set<string>, kind: Kind): set<string> {
    set k <- subs | k !in todo && subs[k].kind == kind
  }

  /** The number of subscriptions of a kind not filed under `todo`. */
  ghost function KindOutside(subs: map<string, Sub>, todo: set<string>, kind: Kind): nat {
    |OfKind(subs, todo, kind)|
  }

  lemma KindOneMore(subs: map<string, Sub>, todo: set<string>, k: string, kind: Kind)
    requires k in subs && k in todo
    ensures KindOutside(subs, todo - {k}, kind)
         == KindOutside(subs, todo, kind) + if subs[k].kind == kind then 1 else 0
  {
    SizeWithout(OfKind(subs, todo - {k}, kind), k);
    assert OfKind(subs, todo - {k}, kind) - {k} == OfKind(subs, todo, kind);
  }

  lemma KindNone(subs: map<string, Sub>, kind: Kind)
    ensures KindOutside(subs, subs.Keys, kind) == 0
    ensures KindOutside(subs, {}, kind) == CountKind(subs, kind)
  {
    assert OfKind(subs, subs.Keys, kind) == {};
    assert OfKind(subs, {}, kind) == set k <- subs | subs[k].kind == kind;
  }

  class Broker {
    var cfg: Config
    var subs: map<string, Subscription>
    ghost var Repr: set<Subscription>

    /** Subscriptions are filed under their own id, so no object is filed twice. */
    ghost predicate Valid()
      reads this
    {
      forall k <- subs :: subs[k] in Repr && subs[k].id == k
    }

    ghost function Abs(): State
      reads this, Repr
      requires Valid()
    {
      State(cfg, map k <- subs :: subs[k].Value())
    }

    /** Only the subscription filed under `id` has changed. */
    twostate lemma OneChanged(id: string)
      requires old(Valid()) && Valid() && cfg == old(cfg) && subs == old(subs) && id in subs
      requires forall k <- subs :: k != id ==> subs[k].Value() == old(subs[k].Value())
      ensures Abs() == old(Abs()).(subs := old(Abs()).subs[id := subs[id].Value()])
    {
    }

    /** `id` has left the map. */
    twostate lemma OneGone(id: string)
      requires old(Valid()) && Valid() && cfg == old(cfg) && subs == old(subs) - {id}
      requires forall k <- subs :: subs[k].Value() == old(subs[k].Value())
      ensures Abs() == Without(old(Abs()), id)
    {
    }

    /** A new subscription is filed under `id`. */
    twostate lemma OneAdded(id: string, new sub: Subscription)
      requires old(Valid()) && Valid() && cfg == old(cfg) && subs == old(subs)[id := sub]
      requires forall k <- old(subs) :: k != id ==> subs[k].Value() == old(subs[k].Value())
      ensures Abs() == old(Abs()).(subs := old(Abs()).subs[id := sub.Value()])
    {
    }

    /** Exactly the expired subscriptions have left the map. */
    twostate lemma ExpiredGone(now: int)
      requires old(Valid()) && Valid() && cfg == old(cfg)
      requires forall k <- subs :: k in old(subs) && subs[k].Value() == old(subs[k].Value())
      requires forall k <- old(subs) :: k in subs <==> old(subs[k].Value().Live(now))
      ensures Abs() == Reaped(old(Abs()), now)
    {
    }

    constructor (cfg: Config)
      ensures Valid() && fresh(Repr) && Abs() == New(cfg)
    {
      this.cfg, subs, Repr := Normalized(cfg), map[], {};
    }

    method UpdateConfig(cfg: Config)
      requires Valid()
      modifies this`cfg
      ensures Valid() && Abs() == Step(old(Abs()), Op.UpdateConfig(cfg), 0).0
    {
      this.cfg := Normalized(cfg);
    }

    method IsTopicEnabled(topic: string) returns (r: bool)
      ensures r == TopicEnabled(cfg.topics, topic)
    {
      var i := 0;
      while i < |cfg.topics|
        invariant 0 <= i <= |cfg.topics|
        invariant TopicEnabled(cfg.topics, topic) == TopicEnabled(cfg.topics[i..], topic)
      {
        if cfg.topics[i].name == topic {
          return cfg.topics[i].enabled;
        }
        assert cfg.topics[i..][1..] == cfg.topics[i + 1..];
        i := i + 1;
      }
      r := false;
    }

    method Publish(topic: string, body: string, now: int) returns (pushes: set<Dispatch>)
      requires Valid()
      modifies Repr
      ensures Valid()
      ensures (Abs(), Dispatched(pushes)) == Step(old(Abs()), Op.Publish(topic, body), now)
    {
      var enabled := IsTopicEnabled(topic);
      if enabled {
        ghost var before := Abs().subs;
        pushes := DeliverAll(topic, body, now);
        assert Abs().subs == map k <- before :: before[k].Delivered(topic, body, now);
        assert pushes == set k <- before | before[k].Pushes(topic, now) :: before[k].ToDispatch(topic, body);
      } else {
        pushes := {};
      }
    }

    /** The loop of Publish: pull points queue the message, push subscriptions yield a
        dispatch. */
    method DeliverAll(topic: string, body: string, now: int) returns (pushes: set<Dispatch>)
      requires Valid()
      modifies Repr`queue
      ensures Valid()
      ensures forall k <- subs :: subs[k].Value() == old(subs[k].Value()).Delivered(topic, body, now)
      ensures pushes == PushesOutside(old(Abs()).subs, {}, topic, body, now)
    {
      hide PushesOutside, Sub.Delivered, Sub.Pushes, Sub.ToDispatch;
      pushes := {};
      ghost var before := Abs().subs;
      NothingPushed(before, topic, body, now);
      assert before.Keys == subs.Keys;
      var todo := subs.Keys;
      while todo != {}
        invariant todo <= subs.Keys
        invariant forall k <- subs ::
                    subs[k].Value() == if k in todo then before[k] else before[k].Delivered(topic, body, now)
        invariant pushes == PushesOutside(before, todo, topic, body, now)
        decreases |todo|
      {
        var k :| k in todo;
        var push := subs[k].Deliver(topic, body, now);
        pushes := pushes + push;
        PushesOneMore(before, todo, k, topic, body, now);
        todo := todo - {k};
      }
    }

    method RecordNotifyResult(id: string, success: bool, now: int)
      requires Valid()
      modifies Repr
      ensures Valid() && Abs() == Step(old(Abs()), NotifyResult(id, success), now).0
    {
      hide Reaped, CountKind, Add, TopicEnabled, Timeout;
      if id !in subs {
        return;
      }
      var sub := subs[id];
      assert forall j <- subs :: j != id ==> subs[j] != sub;
      if success {
        sub.failures := 0;
      } else {
        sub.failures := sub.failures + 1;
        if sub.failures >= cfg.failureThreshold {
          sub.termination := now - SECOND;
        }
      }
      assert sub.Value() == old(sub.Value()).WithResult(success, cfg.failureThreshold, now);
      OneChanged(id);
    }

    method ReapLocked(now: int)
      requires Valid()
      modifies this`subs
      ensures Valid() && Abs() == Reaped(old(Abs()), now)
    {
      var todo := subs.Keys;
      while todo != {}
        invariant subs.Keys <= old(subs).Keys && todo <= subs.Keys
        invariant forall k <- subs :: subs[k] == old(subs)[k]
        invariant forall k <- old(subs) :: k in subs <==> k in todo || old(subs)[k].Value().Live(now)
        decreases |todo|
      {
        var k :| k in todo;
        if now > subs[k].termination {
          subs := subs - {k};
        }
        todo := todo - {k};
      }
      ExpiredGone(now);
    }

    method CountByKind(kind: Kind) returns (n: nat)
      requires Valid()
      ensures n == CountKind(Abs().subs, kind)
    {
      hide KindOutside, CountKind;
      n := 0;
      var todo := subs.Keys;
      ghost var abs := Abs().subs;
      KindNone(abs, kind);
      assert abs.Keys == subs.Keys;
      while todo != {}
        invariant todo <= subs.Keys
        invariant n == KindOutside(abs, todo, kind)
        decreases |todo|
      {
        var k :| k in todo;
        KindOneMore(abs, todo, k, kind);
        if subs[k].kind == kind {
          n := n + 1;
        }
        todo := todo - {k};
      }
    }

    /** The common end of CreatePullPointSubscription and Subscribe. */
    method AddLocked(filter: string, kind: Kind, consumer: Consumer, requested: Requested,
                     newId: Option<string>, address: string, now: int) returns (o: Outcome)
      requires Valid()
      modifies this
      ensures Valid() && fresh(Repr - old(Repr))
      ensures (Abs(), o)
           == Add(old(Abs()), requested, newId, Sub("", address, filter, kind, consumer, 0, [], 0), now)
    {
      var timeout := cfg.subscriptionTimeout;
      match requested {
        case Malformed =>
          return Failed(BadTerminationTime);
        case Omitted =>
        case Lasting(d) =>
          if d > 0 {
            timeout := d;
          }
      }
      if newId.None? {
        return Failed(NoSubscriptionId);
      }
      var sub := new Subscription(newId.value, address, filter, kind, consumer, now + timeout);
      subs, Repr := subs[newId.value := sub], Repr + {sub};
      OneAdded(newId.value, sub);
      o := Subscribed(newId.value, now, sub.termination);
    }

    method CreatePullPointSubscription(filter: string, requested: Requested, newId: Option<string>,
                                       address: string, now: int) returns (o: Outcome)
      requires Valid()
      modifies this
      ensures Valid() && fresh(Repr - old(Repr))
      ensures (Abs(), o) == Step(old(Abs()), CreatePullPoint(filter, requested, newId, address), now)
    {
      ReapLocked(now);
      var n := CountByKind(Pull);
      if n >= cfg.maxPullPoints {
        return Failed(MaxPullPointsReached);
      }
      o := AddLocked(filter, Pull, Consumer("", ""), requested, newId, address, now);
    }

    method Subscribe(consumer: Consumer, validURI: bool, filter: string, requested: Requested,
                     newId: Option<string>, address: string, now: int) returns (o: Outcome)
      requires Valid()
      modifies this
      ensures Valid() && fresh(Repr - old(Repr))
      ensures (Abs(), o)
           == Step(old(Abs()), Op.Subscribe(consumer, validURI, filter, requested, newId, address), now)
    {
      hide CountKind, Reaped, Add, TopicEnabled;
      if consumer.address == "" || !validURI {
        return Failed(InvalidArgs);
      }
      if cfg.maxProducers <= 0 {
        return Failed(ProducerDisabled);
      }
      ReapLocked(now);
      var n := CountByKind(Push);
      if n >= cfg.maxProducers {
        return Failed(MaxProducersReached);
      }
      o := AddLocked(filter, Push, consumer, requested, newId, address, now);
    }

    /** Looks a subscription up and forgets it if it has expired. */
    method RequireSub(id: string, now: int) returns (found: Option<Subscription>)
      requires Valid()
      modifies this`subs
      ensures Valid()
      ensures found.Some? <==> HasLive(old(Abs()), id, now)
      ensures found.Some? ==> subs == old(subs) && id in subs && found.value == subs[id]
      ensures found.None? ==> Abs() == Without(old(Abs()), id)
    {
      if id !in subs {
        OneGone(id);
        return None;
      }
      if now > subs[id].termination {
        subs := subs - {id};
        OneGone(id);
        return None;
      }
      found := Some(subs[id]);
    }

    method PullMessages(id: string, limit: int, now: int) returns (o: Outcome)
      requires Valid()
      modifies this, Repr
      ensures Valid() && Repr == old(Repr)
      ensures (Abs(), o) == Step(old(Abs()), Op.PullMessages(id, limit), now)
    {
      if limit < 0 {
        return Failed(InvalidArgs);
      }
      var found := RequireSub(id, now);
      if found.None? {
        return Failed(SubscriptionNotFound);
      }
      var sub := found.value;
      var messages := sub.Drain(limit);
      OneChanged(id);
      o := Pulled(now, sub.termination, messages);
    }

    method SetSynchronizationPoint(id: string, now: int) returns (o: Outcome)
      requires Valid()
      modifies this
      ensures Valid() && Repr == old(Repr)
      ensures (Abs(), o) == Step(old(Abs()), Op.SetSynchronizationPoint(id), now)
    {
      var found := RequireSub(id, now);
      o := if found.None? then Failed(SubscriptionNotFound) else Done;
    }

    method Renew(id: string, requested: Requested, now: int) returns (o: Outcome)
      requires Valid()
      modifies this, Repr
      ensures Valid() && Repr == old(Repr)
      ensures (Abs(), o) == Step(old(Abs()), Op.Renew(id, requested), now)
    {
      hide Reaped, CountKind, Add, TopicEnabled;
      var found := RequireSub(id, now);
      if found.None? {
        return Failed(SubscriptionNotFound);
      }
      var timeout := cfg.subscriptionTimeout;
      match requested {
        case Malformed =>
          return Failed(BadTerminationTime);
        case Omitted =>
        case Lasting(d) =>
          if d > 0 {
            timeout := d;
          }
      }
      var sub := found.value;
      sub.SetTermination(now + timeout);
      OneChanged(id);
      o := Renewed(now, sub.termination);
    }

    method Unsubscribe(id: string, now: int) returns (o: Outcome)
      requires Valid()
      modifies this
      ensures Valid() && Repr == old(Repr)
      ensures (Abs(), o) == Step(old(Abs()), Op.Unsubscribe(id), now)
    {
      if id !in subs {
        OneGone(id);
        return Failed(SubscriptionNotFound);
      }
      var expired := now > subs[id].termination;
      subs := subs - {id};
      OneGone(id);
      o := if expired then Failed(SubscriptionNotFound) else Done;
    }
  }
}
