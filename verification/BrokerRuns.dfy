/** What the broker guarantees over whole runs: reaping is unobservable, delivery history,
    and the bounds on subscriptions and notification failures. */
module BrokerRuns {
  import opened Options
  import opened BrokerSpec
  import opened Sets

  datatype Event = Event(op: Op, now: int)

  /** The state after running `events` from `s`. */
  function After(s: State, events: seq<Event>): State {
    if events == [] then s
    else
      var last := events[|events| - 1];
      Step(After(s, events[..|events| - 1]), last.op, last.now).0
  }

  /** The clock never goes back. */
  predicate Monotone(events: seq<Event>) {
    forall i, j | 0 <= i < j < |events| :: events[i].now <= events[j].now
  }

  // ---------- reaping is unobservable ----------------------------------------------

  /** What the callers see of a run: the outcome of everything but the reaper's ticks. */
  function Observed(s: State, events: seq<Event>): seq<Outcome> {
    if events == [] then []
    else
      var init, last := events[..|events| - 1], events[|events| - 1];
      if last.op.Reap? then Observed(s, init)
      else Observed(s, init) + [Step(After(s, init), last.op, last.now).1]
  }

  function WithoutReaps(events: seq<Event>): seq<Event> {
    if events == [] then []
    else
      var init, last := events[..|events| - 1], events[|events| - 1];
      if last.op.Reap? then WithoutReaps(init) else WithoutReaps(init) + [last]
  }

  lemma ReapedLater(s: State, now: int, later: int)
    requires now <= later
    ensures Reaped(Reaped(s, now), later) == Reaped(s, later)
  {
  }

  /** The step has the same outcome, and leaves the same live subscriptions, as it does once
      the expired ones have left the map. */
  predicate IgnoresExpired(s: State, op: Op, now: int) {
    && Step(s, op, now).1 == Step(Reaped(s, now), op, now).1
    && Reaped(Step(s, op, now).0, now) == Reaped(Step(Reaped(s, now), op, now).0, now)
  }

  lemma PublishIgnoresExpired(s: State, op: Op, now: int)
    requires op.Publish?
    ensures IgnoresExpired(s, op, now)
  {
    var r, topic, body := Reaped(s, now), op.topic, op.body;
    assert forall k <- s.subs :: s.subs[k].Pushes(topic, now) ==> k in r.subs && r.subs[k] == s.subs[k];
    assert (set k <- s.subs | s.subs[k].Pushes(topic, now) :: s.subs[k].ToDispatch(topic, body))
        == (set k <- r.subs | r.subs[k].Pushes(topic, now) :: r.subs[k].ToDispatch(topic, body));
  }

  lemma CreationIgnoresExpired(s: State, op: Op, now: int)
    requires op.CreatePullPoint? || op.Subscribe?
    ensures IgnoresExpired(s, op, now)
  {
    ReapedLater(s, now, now);
  }

  lemma NotifyResultIgnoresExpired(s: State, op: Op, now: int)
    requires op.NotifyResult?
    ensures IgnoresExpired(s, op, now)
  {
  }

  lemma PullIgnoresExpired(s: State, op: Op, now: int)
    requires op.PullMessages?
    ensures IgnoresExpired(s, op, now)
  {
  }

  lemma RenewIgnoresExpired(s: State, op: Op, now: int)
    requires op.Renew?
    ensures IgnoresExpired(s, op, now)
  {
  }

  lemma LookupIgnoresExpired(s: State, op: Op, now: int)
    requires op.SetSynchronizationPoint? || op.Unsubscribe?
    ensures IgnoresExpired(s, op, now)
  {
  }

  lemma OtherIgnoresExpired(s: State, op: Op, now: int)
    requires op.Reap? || op.UpdateConfig?
    ensures IgnoresExpired(s, op, now)
  {
  }

  /** Whether expired subscriptions are still in the map makes no difference to the
      outcome of a step, nor to the live subscriptions it leaves. */
  lemma StepIgnoresExpired(s: State, op: Op, now: int)
    ensures Step(s, op, now).1 == Step(Reaped(s, now), op, now).1
    ensures Reaped(Step(s, op, now).0, now) == Reaped(Step(Reaped(s, now), op, now).0, now)
  {
    hide Step, Reaped;
    match op
    case Publish(_, _) => PublishIgnoresExpired(s, op, now);
    case CreatePullPoint(_, _, _, _) => CreationIgnoresExpired(s, op, now);
    case Subscribe(_, _, _, _, _, _) => CreationIgnoresExpired(s, op, now);
    case NotifyResult(_, _) => NotifyResultIgnoresExpired(s, op, now);
    case PullMessages(_, _) => PullIgnoresExpired(s, op, now);
    case SetSynchronizationPoint(_) => LookupIgnoresExpired(s, op, now);
    case Renew(_, _) => RenewIgnoresExpired(s, op, now);
    case Unsubscribe(_) => LookupIgnoresExpired(s, op, now);
    case Reap => OtherIgnoresExpired(s, op, now);
    case UpdateConfig(_) => OtherIgnoresExpired(s, op, now);
  }

  lemma SameLiveSameStep(s: State, s': State, op: Op, at: int, now: int)
    requires Reaped(s, at) == Reaped(s', at) && at <= now
    ensures Step(s, op, at).1 == Step(s', op, at).1
    ensures Reaped(Step(s, op, at).0, now) == Reaped(Step(s', op, at).0, now)
    ensures op.Reap? ==> Reaped(Step(s, op, at).0, now) == Reaped(s', now)
  {
    hide Reaped;
    StepIgnoresExpired(s, op, at);
    StepIgnoresExpired(s', op, at);
    ReapedLater(Step(s, op, at).0, at, now);
    ReapedLater(Step(s', op, at).0, at, now);
    ReapedLater(s', at, now);
    ReapedLater(s', at, at);
  }

  lemma AfterAppend(s: State, events: seq<Event>, e: Event)
    ensures After(s, events + [e]) == Step(After(s, events), e.op, e.now).0
    ensures Observed(s, events + [e])
         == if e.op.Reap? then Observed(s, events)
            else Observed(s, events) + [Step(After(s, events), e.op, e.now).1]
  {
  }

  /** Over any run with a nondecreasing clock, dropping every reap changes no outcome and
      no live subscription: the reaper's ticks may come at any time, or never. */
  lemma {:induction false} ReapingUnobservable(s: State, events: seq<Event>, now: int)
    requires Monotone(events)
    requires events != [] ==> events[|events| - 1].now <= now
    ensures Observed(s, events) == Observed(s, WithoutReaps(events))
    ensures Reaped(After(s, events), now) == Reaped(After(s, WithoutReaps(events)), now)
  {
    hide Step, Reaped;
    if events != [] {
      var init, last := events[..|events| - 1], events[|events| - 1];
      var kept := WithoutReaps(init);
      ReapingUnobservable(s, init, last.now);
      SameLiveSameStep(After(s, init), After(s, kept), last.op, last.now, now);
      assert events == init + [last];
      AfterAppend(s, init, last);
      AfterAppend(s, kept, last);
    }
  }

  /** Any two runs that differ only in where reaps happen look the same to the callers. */
  lemma ReapsMayMove(s: State, events: seq<Event>, events': seq<Event>)
    requires Monotone(events) && Monotone(events') && WithoutReaps(events) == WithoutReaps(events')
    ensures Observed(s, events) == Observed(s, events')
  {
    ReapingUnobservable(s, events, if events == [] then 0 else events[|events| - 1].now);
    ReapingUnobservable(s, events', if events' == [] then 0 else events'[|events'| - 1].now);
  }

  // ---------- expired is for ever ---------------------------------------------------

  /** The event may create subscription `id`. Ids are random, so in practice an id is
      issued once. */
  predicate Issues(e: Event, id: string) {
    (e.op.CreatePullPoint? || e.op.Subscribe?) && e.op.newId == Some(id)
  }

  lemma DeadStep(s: State, e: Event, id: string, now: int)
    requires !HasLive(s, id, now) && now <= e.now && !Issues(e, id)
    ensures !HasLive(Step(s, e.op, e.now).0, id, e.now)
  {
  }

  /** An expired or force-expired subscription never becomes live again, whatever is done
      with it: no renewal, delivery, notification result or configuration revives it. */
  lemma {:induction false} ExpiredForGood(s: State, events: seq<Event>, id: string, now: int)
    requires !HasLive(s, id, now)
    requires Monotone(events) && forall e <- events :: now <= e.now && !Issues(e, id)
    ensures !HasLive(After(s, events), id, if events == [] then now else events[|events| - 1].now)
  {
    if events != [] {
      var init, last := events[..|events| - 1], events[|events| - 1];
      ExpiredForGood(s, init, id, now);
      DeadStep(After(s, init), last, id, if init == [] then now else init[|init| - 1].now);
    }
  }

  // ---------- bounds ----------------------------------------------------------------

  datatype Setting = LimitOf(kind: Kind) | Threshold

  function Value(cfg: Config, setting: Setting): int {
    match setting
    case LimitOf(Pull) => cfg.maxPullPoints
    case LimitOf(Push) => cfg.maxProducers
    case Threshold => cfg.failureThreshold
  }

  /** The largest value a setting has had so far, starting from the one given to New. */
  function Largest(cfg: Config, events: seq<Event>, setting: Setting): int {
    if events == [] then Value(Normalized(cfg), setting)
    else
      var init, last := events[..|events| - 1], events[|events| - 1];
      var before := Largest(cfg, init, setting);
      if last.op.UpdateConfig? && Value(Normalized(last.op.cfg), setting) > before
      then Value(Normalized(last.op.cfg), setting)
      else before
  }

  lemma CountKindMonotone(a: map<string, Sub>, b: map<string, Sub>, kind: Kind)
    requires a.Keys <= b.Keys && forall k <- a :: a[k].kind == b[k].kind
    ensures CountKind(a, kind) <= CountKind(b, kind)
  {
    SubsetSize(set k <- a | a[k].kind == kind, set k <- b | b[k].kind == kind);
  }

  lemma CountKindInsert(a: map<string, Sub>, id: string, sub: Sub, kind: Kind)
    ensures CountKind(a[id := sub], kind) <= CountKind(a, kind) + if sub.kind == kind then 1 else 0
  {
    var x := set k <- a | a[k].kind == kind;
    var b := a[id := sub];
    var y := set k <- b | b[k].kind == kind;
    if sub.kind == kind { SubsetSize(y, x + {id}); } else { SubsetSize(y, x); }
  }

  /** A creation adds one subscription to the live ones, below the limit of its kind. */
  lemma AddsBelowLimit(s: State, e: Event)
    requires Step(s, e.op, e.now).1.Subscribed?
    ensures var subs, r, id := Step(s, e.op, e.now).0.subs, Reaped(s, e.now).subs, Step(s, e.op, e.now).1.id;
            && id in subs && subs == r[id := subs[id]]
            && CountKind(r, subs[id].kind) < Value(s.cfg, LimitOf(subs[id].kind))
  {
    hide CountKind;
  }

  lemma OthersAddNone(s: State, e: Event)
    requires !Step(s, e.op, e.now).1.Subscribed?
    ensures var subs := Step(s, e.op, e.now).0.subs;
            subs.Keys <= s.subs.Keys && forall k <- subs :: subs[k].kind == s.subs[k].kind
  {
    hide CountKind;
  }

  lemma CountStep(s: State, e: Event, kind: Kind)
    ensures var s' := Step(s, e.op, e.now).0;
            || CountKind(s'.subs, kind) <= CountKind(s.subs, kind)
            || CountKind(s'.subs, kind) <= Value(s.cfg, LimitOf(kind))
  {
    hide Step, CountKind, Value;
    var subs, o, r := Step(s, e.op, e.now).0.subs, Step(s, e.op, e.now).1, Reaped(s, e.now).subs;
    if o.Subscribed? {
      AddsBelowLimit(s, e);
      CountKindMonotone(r, s.subs, kind);
      CountKindInsert(r, o.id, subs[o.id], kind);
    } else {
      OthersAddNone(s, e);
      CountKindMonotone(subs, s.subs, kind);
    }
  }

  lemma {:induction false} CurrentAtMostLargest(cfg: Config, events: seq<Event>, setting: Setting)
    ensures Value(After(New(cfg), events).cfg, setting) <= Largest(cfg, events, setting)
  {
    if events != [] {
      CurrentAtMostLargest(cfg, events[..|events| - 1], setting);
    }
  }

  /** The number of pull (push) subscriptions never exceeds the largest pull (push) limit
      installed so far. */
  lemma {:induction false} SubscriptionsBounded(cfg: Config, events: seq<Event>, kind: Kind)
    ensures var bound := Largest(cfg, events, LimitOf(kind));
            CountKind(After(New(cfg), events).subs, kind) <= if bound < 0 then 0 else bound
  {
    if events != [] {
      var init, last := events[..|events| - 1], events[|events| - 1];
      SubscriptionsBounded(cfg, init, kind);
      CurrentAtMostLargest(cfg, init, LimitOf(kind));
      CountStep(After(New(cfg), init), last, kind);
    }
  }

  predicate Creates(s: State, e: Event, id: string) {
    var o := Step(s, e.op, e.now).1;
    o.Subscribed? && o.id == id
  }

  /** The notification results of `id` since it was last created, true for a success. */
  function Results(s: State, events: seq<Event>, id: string): seq<bool> {
    if events == [] then []
    else
      var init, last := events[..|events| - 1], events[|events| - 1];
      if Creates(After(s, init), last, id) then []
      else if last.op.NotifyResult? && last.op.id == id then Results(s, init, id) + [last.op.success]
      else Results(s, init, id)
  }

  /** The last `n` results are failures. */
  predicate EndsInFailures(results: seq<bool>, n: nat) {
    n <= |results| && forall i | |results| - n <= i < |results| :: !results[i]
  }

  /** Exactly the last `n` are: the one before them, if any, is a success. */
  predicate TrailingRun(results: seq<bool>, n: nat) {
    EndsInFailures(results, n) && (n < |results| ==> results[|results| - n - 1])
  }

  lemma FailuresStep(s: State, e: Event, id: string)
    ensures var (s', o) := Step(s, e.op, e.now);
            id in s'.subs ==>
              if Creates(s, e, id) then s'.subs[id].failures == 0
              else
                && id in s.subs
                && s'.subs[id].failures ==
                   if e.op.NotifyResult? && e.op.id == id then
                     if e.op.success then 0 else s.subs[id].failures + 1
                   else s.subs[id].failures
  {
  }

  lemma TrailingStep(results: seq<bool>, n: nat, success: bool)
    requires TrailingRun(results, n)
    ensures TrailingRun(results + [success], if success then 0 else n + 1)
  {
  }

  /** The failure counter is the length of the trailing run of failed results: that many of
      the latest results are failures, and the one before them, if any, is a success. */
  lemma {:induction false} FailuresCountTrailing(cfg: Config, events: seq<Event>, id: string)
    ensures var s := After(New(cfg), events);
            id in s.subs ==> TrailingRun(Results(New(cfg), events, id), s.subs[id].failures)
  {
    hide Step, Creates, TrailingRun;
    if events == [] {
      NoResults();
    } else {
      var init, last := events[..|events| - 1], events[|events| - 1];
      var s := After(New(cfg), init);
      NoResults();
      FailuresCountTrailing(cfg, init, id);
      FailuresStep(s, last, id);
      if last.op.NotifyResult? && id in s.subs {
        TrailingStep(Results(New(cfg), init, id), s.subs[id].failures, last.op.success);
      }
    }
  }

  lemma NoResults()
    ensures TrailingRun([], 0)
  {
  }

  lemma ThresholdStep(s: State, e: Event, id: string, now: int, bound: int)
    requires HasLive(s, id, now) ==> s.subs[id].failures < bound
    requires now <= e.now && s.cfg.failureThreshold <= bound && 0 < bound
    ensures var s' := Step(s, e.op, e.now).0;
            HasLive(s', id, e.now) ==> s'.subs[id].failures < bound
  {
  }

  /** The latest results of a live subscription are not all failures, when one looks at as
      many of them as the largest threshold installed so far; with a constant threshold, at
      as many as the threshold. */
  lemma {:induction false} LiveBelowThreshold(cfg: Config, events: seq<Event>, id: string)
    requires Monotone(events) && events != []
    ensures var s := After(New(cfg), events);
            var bound := Largest(cfg, events, Threshold);
            bound > 0 && (HasLive(s, id, events[|events| - 1].now) ==>
                            !EndsInFailures(Results(New(cfg), events, id), bound))
  {
    hide Step;
    FailuresCountTrailing(cfg, events, id);
    LiveBelowThresholdInv(cfg, events, id, Largest(cfg, events, Threshold));
  }

  lemma {:induction false} LiveBelowThresholdInv(cfg: Config, events: seq<Event>, id: string, bound: int)
    requires Monotone(events) && Largest(cfg, events, Threshold) <= bound
    ensures 0 < bound
    ensures var s := After(New(cfg), events);
            events != [] && HasLive(s, id, events[|events| - 1].now) ==> s.subs[id].failures < bound
  {
    if events != [] {
      var init, last := events[..|events| - 1], events[|events| - 1];
      LiveBelowThresholdInv(cfg, init, id, bound);
      CurrentAtMostLargest(cfg, init, Threshold);
      ThresholdStep(After(New(cfg), init), last, id, if init == [] then last.now else init[|init| - 1].now, bound);
    }
  }
}
