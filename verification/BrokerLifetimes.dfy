/** What a subscriber is promised: its subscription is the one it asked for, lives exactly
    as long as the last answer said, and push messages go to the consumer it named. */
module BrokerLifetimes {
  import opened Options
  import opened BrokerSpec
  import opened BrokerRuns

  // ---------- how long a subscription lives --------------------------------------------

  /** The event was answered with termination time `until` for subscription `id`. */
  predicate Grants(s: State, e: Event, id: string, until: int) {
    var o := Step(s, e.op, e.now).1;
    || (Creates(s, e, id) && o.termination == until)
    || (e.op.Renew? && e.op.id == id && o.Renewed? && o.termination == until)
  }

  function AskedFor(op: Op): Requested {
    match op
    case CreatePullPoint(_, requested, _, _) => requested
    case Subscribe(_, _, _, requested, _, _) => requested
    case Renew(_, requested) => requested
    case _ => Omitted
  }

  /** The event changes how long `id` lives: it creates it anew, renews or removes it, or is
      the failed notification that reaches the threshold. */
  predicate Touches(s: State, e: Event, id: string) {
    || Creates(s, e, id)
    || (e.op.Renew? && e.op.id == id && Step(s, e.op, e.now).1.Renewed?)
    || (e.op.Unsubscribe? && e.op.id == id)
    || (e.op.NotifyResult? && e.op.id == id && !e.op.success
        && HasLive(s, id, e.now) && s.subs[id].failures + 1 >= s.cfg.failureThreshold)
  }

  predicate NoneTouches(s: State, events: seq<Event>, id: string) {
    forall i | 0 <= i < |events| :: !Touches(After(s, events[..i]), events[i], id)
  }

  /** At `now`, `id` is live with termination time `until`, or that time has passed and it is
      not live. */
  predicate Lasts(s: State, id: string, until: int, now: int) {
    if now <= until then HasLive(s, id, now) && s.subs[id].termination == until else !HasLive(s, id, now)
  }

  lemma LastsStep(s: State, e: Event, id: string, until: int, now: int)
    requires Lasts(s, id, until, now) && now <= e.now && !Touches(s, e, id)
    ensures Lasts(Step(s, e.op, e.now).0, id, until, e.now)
  {
  }

  lemma {:induction false} LastsRun(s: State, events: seq<Event>, id: string, until: int, now: int)
    requires Lasts(s, id, until, now) && Monotone(events) && NoneTouches(s, events, id)
    requires forall e <- events :: now <= e.now
    ensures Lasts(After(s, events), id, until, if events == [] then now else events[|events| - 1].now)
  {
    hide Step, Touches, NoneTouches, Lasts;
    if events != [] {
      var init, last := events[..|events| - 1], events[|events| - 1];
      NoneTouchesInit(s, events, id);
      LastsRun(s, init, id, until, now);
      LastsStep(After(s, init), last, id, until, if init == [] then now else init[|init| - 1].now);
    }
  }

  lemma NoneTouchesInit(s: State, events: seq<Event>, id: string)
    requires events != [] && NoneTouches(s, events, id)
    ensures var init := events[..|events| - 1];
            NoneTouches(s, init, id) && !Touches(After(s, init), events[|events| - 1], id)
  {
    hide Touches, After;
    var n := |events| - 1;
    assert forall i | 0 <= i < n :: events[..n][..i] == events[..i];
  }

  /** A subscription is live exactly up to the termination time its subscriber was last told,
      which is the duration it asked for, or the configured one, after that answer: through
      any deliveries, pulls, reaps, refused renewals, configuration changes, notification
      results below the threshold and operations on other subscriptions. */
  lemma LivesUntilTold(s: State, e: Event, later: seq<Event>, id: string, until: int, now: int)
    requires Grants(s, e, id, until) && e.now <= now
    requires Monotone(later) && forall x <- later :: e.now <= x.now <= now
    requires NoneTouches(Step(s, e.op, e.now).0, later, id)
    ensures HasLive(After(Step(s, e.op, e.now).0, later), id, now) <==> now <= until
    ensures until == e.now + match AskedFor(e.op)
                             case Lasting(d) => if d > 0 then d else s.cfg.subscriptionTimeout
                             case _ => s.cfg.subscriptionTimeout
  {
    hide Step, Grants, NoneTouches;
    GrantLasts(s, e, id, until);
    LastsRun(Step(s, e.op, e.now).0, later, id, until, e.now);
    assert later != [] ==> later[|later| - 1] in later;
  }

  lemma GrantLasts(s: State, e: Event, id: string, until: int)
    requires Grants(s, e, id, until)
    ensures Lasts(Step(s, e.op, e.now).0, id, until, e.now)
    ensures until == e.now + match AskedFor(e.op)
                             case Lasting(d) => if d > 0 then d else s.cfg.subscriptionTimeout
                             case _ => s.cfg.subscriptionTimeout
  {
  }

  // ---------- which subscription it is ---------------------------------------------------

  /** Everything but the termination time, the queue and the failure counter. */
  predicate SameIdentity(a: Sub, b: Sub) {
    a.id == b.id && a.address == b.address && a.filter == b.filter && a.kind == b.kind && a.consumer == b.consumer
  }

  predicate AsRequested(sub: Sub, op: Op) {
    match op
    case CreatePullPoint(filter, _, newId, address) =>
      Some(sub.id) == newId && sub.kind == Pull && sub.filter == filter && sub.address == address
    case Subscribe(consumer, _, filter, _, newId, address) =>
      && Some(sub.id) == newId && sub.kind == Push && sub.filter == filter && sub.address == address
      && sub.consumer == consumer
    case _ => false
  }

  lemma IdentityStep(s: State, e: Event, id: string)
    requires id in Step(s, e.op, e.now).0.subs
    ensures var s' := Step(s, e.op, e.now).0;
            if Creates(s, e, id) then AsRequested(s'.subs[id], e.op) && s'.subs[id].id == id
            else id in s.subs && SameIdentity(s.subs[id], s'.subs[id])
  {
  }

  /** Event `i` created the subscription that is filed under `id` after the run. */
  predicate Created(cfg: Config, events: seq<Event>, id: string, i: nat) {
    && i < |events|
    && Creates(After(New(cfg), events[..i]), events[i], id)
    && forall j | i < j < |events| :: !Creates(After(New(cfg), events[..j]), events[j], id)
  }

  lemma CreatedLast(cfg: Config, init: seq<Event>, last: Event, id: string)
    requires Creates(After(New(cfg), init), last, id)
    ensures Created(cfg, init + [last], id, |init|)
  {
  }

  lemma CreatedBefore(cfg: Config, init: seq<Event>, last: Event, id: string, i: nat)
    requires Created(cfg, init, id, i) && !Creates(After(New(cfg), init), last, id)
    ensures Created(cfg, init + [last], id, i)
  {
    var events := init + [last];
    forall j | i < j < |events| ensures !Creates(After(New(cfg), events[..j]), events[j], id) {
      assert events[..j] == init[..j];
    }
    assert events[..i] == init[..i];
  }

  lemma SameRequest(a: Sub, b: Sub, op: Op)
    requires SameIdentity(a, b) && AsRequested(a, op)
    ensures AsRequested(b, op)
  {
  }

  /** Every subscription in the map is the one its latest creation asked for: same filter,
      same kind, same address and consumer, filed under its own id. */
  lemma {:induction false} CreatedAsRequested(cfg: Config, events: seq<Event>, id: string) returns (i: nat)
    requires id in After(New(cfg), events).subs
    ensures Created(cfg, events, id, i)
    ensures AsRequested(After(New(cfg), events).subs[id], events[i].op) && After(New(cfg), events).subs[id].id == id
  {
    var init, last := events[..|events| - 1], events[|events| - 1];
    var s := After(New(cfg), init);
    IdentityStep(s, last, id);
    assert events == init + [last];
    AfterAppend(New(cfg), init, last);
    if Creates(s, last, id) {
      CreatedLast(cfg, init, last, id);
      i := |init|;
    } else {
      i := CreatedAsRequested(cfg, init, id);
      CreatedBefore(cfg, init, last, id, i);
      SameRequest(s.subs[id], After(New(cfg), events).subs[id], events[i].op);
    }
  }

  /** Every message that a publication pushes goes to the consumer that asked for it: its
      id was created by a Subscribe that named this consumer, and whose filter is empty, the
      topic, or a parent of the topic. */
  lemma DispatchedToItsConsumer(cfg: Config, events: seq<Event>, e: Event, d: Dispatch) returns (i: nat)
    requires e.op.Publish? && d in Step(After(New(cfg), events), e.op, e.now).1.pushes
    ensures Created(cfg, events, d.id, i) && events[i].op.Subscribe?
    ensures var asked := events[i].op;
            && d.consumer == asked.consumer && d.address == asked.address
            && d.topic == e.op.topic && d.body == e.op.body
            && (asked.filter == "" || asked.filter == d.topic || asked.filter + "/" <= d.topic)
    ensures HasLive(After(New(cfg), events), d.id, e.now)
  {
    var s := After(New(cfg), events);
    var k :| k in s.subs && s.subs[k].Pushes(e.op.topic, e.now) && s.subs[k].ToDispatch(e.op.topic, e.op.body) == d;
    i := CreatedAsRequested(cfg, events, k);
  }

  // ---------- which topics a filter covers -----------------------------------------------

  /** Reading the filter as a prefix of the topic never misses a match, and is right about a
      prefix if and only if it is empty, the whole topic, or followed by a slash. */
  lemma PrefixMatchesExactly(sub: Sub, topic: string)
    ensures sub.Matches(topic) ==> sub.filter <= topic
    ensures sub.filter <= topic ==>
              (sub.Matches(topic) <==>
               sub.filter == "" || |topic| == |sub.filter| || topic[|sub.filter|] == '/')
  {
    var f := sub.filter;
    if f <= topic && |f| < |topic| && topic[|f|] == '/' {
      assert topic[..|f| + 1] == f + "/";
    }
    if f + "/" <= topic { assert topic[|f|] == (f + "/")[|f|]; }
  }

  /** So a filter on one topic does not cover another that merely starts alike. */
  lemma VideoIsNotVideoSource(sub: Sub)
    requires sub.filter == "tns1:Video"
    ensures sub.filter <= "tns1:VideoSource" && !sub.Matches("tns1:VideoSource")
  {
    PrefixMatchesExactly(sub, "tns1:VideoSource");
    assert "tns1:VideoSource"[10] == 'S';
  }
}
