/** What the callers of the broker get, in plain terms: who receives a publication, what a
    pull hands out, and when an operation is refused. */
module BrokerAnswers {
  import opened Options
  import opened BrokerSpec
  import opened BrokerRuns
  import opened BrokerLifetimes

  // ---------- who receives a publication -------------------------------------------------

  /** Entry `i` is the first of that name in the topic list. */
  predicate FirstNamed(topics: seq<Topic>, name: string, i: nat) {
    i < |topics| && topics[i].name == name && forall j | 0 <= j < i :: topics[j].name != name
  }

  /** The first entry of the name decides; a name without an entry is disabled. */
  lemma {:induction false} FirstEntryDecides(topics: seq<Topic>, name: string)
    ensures forall i: nat | FirstNamed(topics, name, i) :: TopicEnabled(topics, name) == topics[i].enabled
    ensures (forall t <- topics :: t.name != name) ==> !TopicEnabled(topics, name)
  {
    if topics != [] && topics[0].name != name {
      FirstEntryDecides(topics[1..], name);
      forall i: nat | FirstNamed(topics, name, i) ensures TopicEnabled(topics, name) == topics[i].enabled {
        assert FirstNamed(topics[1..], name, i - 1);
      }
    } else {
      assert topics != [] ==> topics[0] in topics;
    }
  }

  predicate Covers(filter: string, topic: string) {
    filter == "" || filter == topic || filter + "/" <= topic
  }

  /** The subscription takes a publication of the topic now. */
  predicate Hears(sub: Sub, kind: Kind, topic: string, now: int) {
    sub.kind == kind && now <= sub.termination && Covers(sub.filter, topic)
  }

  /** A queue of at most 256 messages with one more at its end. */
  function WithOneMore(queue: seq<Message>, m: Message): seq<Message> {
    (if |queue| < 256 then queue else queue[1..]) + [m]
  }

  /** Publishing to an enabled topic gives every live pull point whose filter covers it exactly
      one more message, every such push subscription its dispatch, and nothing else changes. */
  lemma PublishDelivers(s: State, topic: string, body: string, now: int, i: nat)
    requires FirstNamed(s.cfg.topics, topic, i) && s.cfg.topics[i].enabled
    ensures var s', o := Step(s, Publish(topic, body), now).0, Step(s, Publish(topic, body), now).1;
            && s'.cfg == s.cfg && s'.subs.Keys == s.subs.Keys && o.Dispatched?
            && (forall k <- s.subs ::
                  s'.subs[k] ==
                    if Hears(s.subs[k], Pull, topic, now)
                    then s.subs[k].(queue := WithOneMore(s.subs[k].queue, Message(s.subs[k].address, topic, body)))
                    else s.subs[k])
            && (forall k <- s.subs | Hears(s.subs[k], Push, topic, now) ::
                  var x := s.subs[k]; Dispatch(x.id, x.address, x.consumer, topic, body) in o.pushes)
            && (forall d <- o.pushes :: exists k <- s.subs ::
                  && Hears(s.subs[k], Push, topic, now)
                  && d == Dispatch(s.subs[k].id, s.subs[k].address, s.subs[k].consumer, topic, body))
  {
    FirstEntryDecides(s.cfg.topics, topic);
  }

  /** After any run, a live push subscription whose filter covers the enabled topic gets exactly
      one dispatch, and nobody else gets any. */
  lemma OneDispatchEach(cfg: Config, events: seq<Event>, topic: string, body: string, now: int, i: nat, id: string)
    requires var s := After(New(cfg), events);
             FirstNamed(s.cfg.topics, topic, i) && s.cfg.topics[i].enabled
    ensures var s := After(New(cfg), events);
            var pushes := Step(s, Publish(topic, body), now).1.pushes;
            && (forall d, d' | d in pushes && d' in pushes && d.id == d'.id :: d == d')
            && ((exists d <- pushes :: d.id == id) <==> id in s.subs && Hears(s.subs[id], Push, topic, now))
  {
    hide After, Step, Hears;
    var s := After(New(cfg), events);
    PublishDelivers(s, topic, body, now, i);
    forall k <- s.subs ensures s.subs[k].id == k {
      var e := CreatedAsRequested(cfg, events, k);
    }
  }

  /** Publishing to a disabled or unknown topic does nothing. */
  lemma PublishSilent(s: State, topic: string, body: string, now: int)
    requires forall i: nat | FirstNamed(s.cfg.topics, topic, i) :: !s.cfg.topics[i].enabled
    ensures Step(s, Publish(topic, body), now) == (s, Dispatched({}))
  {
    FirstEntryDecides(s.cfg.topics, topic);
    NamedHasFirst(s.cfg.topics, topic);
  }

  lemma {:induction false} NamedHasFirst(topics: seq<Topic>, name: string)
    ensures (forall t <- topics :: t.name != name) || exists i: nat :: FirstNamed(topics, name, i)
  {
    if topics != [] {
      if topics[0].name == name {
        assert FirstNamed(topics, name, 0);
      } else {
        NamedHasFirst(topics[1..], name);
        if i: nat :| FirstNamed(topics[1..], name, i) { assert FirstNamed(topics, name, i + 1); }
      }
    }
  }

  // ---------- what a pull hands out --------------------------------------------------------

  predicate IsLive(s: State, id: string, now: int) { id in s.subs && now <= s.subs[id].termination }

  /** A pull hands out the oldest messages, as many as asked for, or all for a limit of zero;
      the others stay, and no other subscription is touched. */
  lemma PullHandsOut(s: State, id: string, limit: int, now: int)
    requires IsLive(s, id, now) && limit >= 0
    ensures var (s', o) := Step(s, PullMessages(id, limit), now);
            var queued := s.subs[id].queue;
            && o.Pulled? && o.current == now && o.termination == s.subs[id].termination
            && |o.messages| == (if limit == 0 || |queued| < limit then |queued| else limit)
            && s'.subs.Keys == s.subs.Keys && o.messages + s'.subs[id].queue == queued
            && s' == s.(subs := s.subs[id := s.subs[id].(queue := s'.subs[id].queue)])
  {
  }

  // ---------- when an operation is refused ---------------------------------------------------

  /** The number of live subscriptions of a kind. */
  function LiveCount(s: State, kind: Kind, now: int): nat {
    |set k <- s.subs | now <= s.subs[k].termination && s.subs[k].kind == kind|
  }

  lemma CountsTheLive(s: State, kind: Kind, now: int)
    ensures CountKind(Reaped(s, now).subs, kind) == LiveCount(s, kind, now)
  {
    var r := Reaped(s, now).subs;
    assert (set k <- r | r[k].kind == kind)
        == set k <- s.subs | now <= s.subs[k].termination && s.subs[k].kind == kind;
  }

  /** A pull point is refused for its limit if and only if as many live ones exist, then for an
      unreadable time, then for want of an id; otherwise it is created. */
  lemma PullPointAnswer(s: State, op: Op, now: int)
    requires op.CreatePullPoint?
    ensures var o := Step(s, op, now).1;
            && (o == Failed(MaxPullPointsReached) <==> LiveCount(s, Pull, now) >= s.cfg.maxPullPoints)
            && (LiveCount(s, Pull, now) < s.cfg.maxPullPoints ==>
                  if op.requested.Malformed? then o == Failed(BadTerminationTime)
                  else if op.newId.None? then o == Failed(NoSubscriptionId)
                  else o.Subscribed? && o.id == op.newId.value && o.current == now)
  {
    hide CountKind, LiveCount;
    CountsTheLive(s, Pull, now);
  }

  /** The same for push subscriptions, after the checks of the consumer and of the interface. */
  lemma SubscribeAnswer(s: State, op: Op, now: int)
    requires op.Subscribe?
    ensures var o := Step(s, op, now).1;
            var ok := op.consumer.address != "" && op.validURI;
            var live, most := LiveCount(s, Push, now), s.cfg.maxProducers;
            && (o == Failed(InvalidArgs) <==> !ok)
            && (o == Failed(ProducerDisabled) <==> ok && most <= 0)
            && (o == Failed(MaxProducersReached) <==> ok && most > 0 && live >= most)
            && (ok && most > 0 && live < most ==>
                  if op.requested.Malformed? then o == Failed(BadTerminationTime)
                  else if op.newId.None? then o == Failed(NoSubscriptionId)
                  else o.Subscribed? && o.id == op.newId.value && o.current == now)
  {
    hide CountKind, LiveCount;
    CountsTheLive(s, Push, now);
  }

  /** The operations on one subscription fail with not-found exactly when it is not live. */
  lemma NotFoundExactly(s: State, op: Op, now: int)
    requires op.PullMessages? || op.SetSynchronizationPoint? || op.Renew? || op.Unsubscribe?
    requires op.PullMessages? ==> op.limit >= 0
    ensures Step(s, op, now).1 == Failed(SubscriptionNotFound) <==> !IsLive(s, op.id, now)
    ensures op.Unsubscribe? ==> Step(s, op, now).0 == s.(subs := s.subs - {op.id})
    ensures op.Renew? && IsLive(s, op.id, now) && op.requested.Malformed? ==>
              Step(s, op, now) == (s, Failed(BadTerminationTime))
  {
  }

  /** A negative limit is refused before anything is looked up. */
  lemma NegativeLimit(s: State, id: string, limit: int, now: int)
    requires limit < 0
    ensures Step(s, PullMessages(id, limit), now) == (s, Failed(InvalidArgs))
  {
  }

  /** A new configuration takes its non-positive limits from the defaults, except for the
      producer limit, and touches no subscription. */
  lemma Defaults(s: State, cfg: Config, now: int)
    ensures var (s', o) := Step(s, UpdateConfig(cfg), now);
            && New(cfg).cfg == s'.cfg && New(cfg).subs == map[] && s'.subs == s.subs
            && s'.cfg.topics == cfg.topics && s'.cfg.maxProducers == cfg.maxProducers
            && s'.cfg.maxPullPoints == (if cfg.maxPullPoints > 0 then cfg.maxPullPoints else 10)
            && s'.cfg.failureThreshold == (if cfg.failureThreshold > 0 then cfg.failureThreshold else 3)
            && s'.cfg.subscriptionTimeout
               == (if cfg.subscriptionTimeout > 0 then cfg.subscriptionTimeout else 3_600_000_000_000)
  {
  }
}
