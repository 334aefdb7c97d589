/** Delivery history of one pull point: what was published for it, what its consumer got,
    and what the bounded queue dropped. */
module BrokerHistory {
  import opened Options
  import opened BrokerSpec
  import opened BrokerRuns

  /** What an observer of subscription `id` records since it was last created: `log`, the
      enabled, filter-matching messages published while it was live, and `pulled`, the
      messages that PullMessages handed out, in order. */
  datatype Seen = Seen(log: seq<Message>, pulled: seq<Message>)

  predicate Receives(s: State, id: string, topic: string, now: int) {
    TopicEnabled(s.cfg.topics, topic) && HasLive(s, id, now) && s.subs[id].Matches(topic) && s.subs[id].kind.Pull?
  }

  function Observe(w: Seen, s: State, e: Event, id: string): Seen {
    if Creates(s, e, id) then Seen([], [])
    else if e.op.Publish? && Receives(s, id, e.op.topic, e.now) then
      w.(log := w.log + [Message(s.subs[id].address, e.op.topic, e.op.body)])
    else if e.op.PullMessages? && e.op.id == id && Step(s, e.op, e.now).1.Pulled? then
      w.(pulled := w.pulled + Step(s, e.op, e.now).1.messages)
    else w
  }

  function Watch(s: State, events: seq<Event>, id: string): Seen {
    if events == [] then Seen([], [])
    else
      var init, last := events[..|events| - 1], events[|events| - 1];
      Observe(Watch(s, init, id), After(s, init), last, id)
  }

  /** Positions in the log: which were handed out, and how many have left the queue. */
  datatype Book = Book(handed: seq<nat>, head: nat)

  function Advance(b: Book, w: Seen, s: State, e: Event, id: string): Book {
    if Creates(s, e, id) then Book([], 0)
    else if e.op.Publish? && Receives(s, id, e.op.topic, e.now) then
      if |w.log| - b.head >= QUEUE_DEPTH then b.(head := b.head + 1) else b
    else if e.op.PullMessages? && e.op.id == id && Step(s, e.op, e.now).1.Pulled? then
      var n := |Step(s, e.op, e.now).1.messages|;
      Book(b.handed + seq(n, i => b.head + i), b.head + n)
    else b
  }

  function Positions(s: State, events: seq<Event>, id: string): Book {
    if events == [] then Book([], 0)
    else
      var init, last := events[..|events| - 1], events[|events| - 1];
      Advance(Positions(s, init, id), Watch(s, init, id), After(s, init), last, id)
  }

  predicate Increasing(xs: seq<nat>) {
    forall i, j | 0 <= i < j < |xs| :: xs[i] < xs[j]
  }

  /** Position `i` of the log left the queue without being handed out. */
  predicate Lost(b: Book, i: nat) { i < b.head && i !in b.handed }

  predicate Selects(log: seq<Message>, handed: seq<nat>, pulled: seq<Message>) {
    |pulled| == |handed|
    && forall k | 0 <= k < |handed| :: handed[k] < |log| && pulled[k] == log[handed[k]]
  }

  /** The queue of `id`, if it is in the map. */
  function QueueOf(s: State, id: string): Option<seq<Message>> {
    if id in s.subs then Some(s.subs[id].queue) else None
  }

  ghost predicate HistoryInv(queue: Option<seq<Message>>, w: Seen, b: Book) {
    && b.head <= |w.log| <= b.head + QUEUE_DEPTH
    && Increasing(b.handed)
    && (forall k | 0 <= k < |b.handed| :: b.handed[k] < b.head)
    && Selects(w.log, b.handed, w.pulled)
    && (queue.Some? ==> queue.value == w.log[b.head..])
    && (forall i: nat :: Lost(b, i) ==> i + QUEUE_DEPTH < |w.log|)
  }

  /** What one event does to the queue of `id`. */
  lemma QueueStep(s: State, e: Event, id: string)
    ensures var o, s' := Step(s, e.op, e.now).1, Step(s, e.op, e.now).0;
            if Creates(s, e, id) then QueueOf(s', id) == Some([])
            else if e.op.Publish? && Receives(s, id, e.op.topic, e.now) then
              QueueOf(s', id) == Some(s.subs[id].Enqueued(Message(s.subs[id].address, e.op.topic, e.op.body)).queue)
            else if e.op.PullMessages? && e.op.id == id && o.Pulled? then
              && id in s.subs && |o.messages| <= |s.subs[id].queue|
              && o.messages == s.subs[id].queue[..|o.messages|]
              && QueueOf(s', id) == Some(s.subs[id].queue[|o.messages|..])
            else QueueOf(s', id) == None || QueueOf(s', id) == QueueOf(s, id)
  {
  }

  lemma Arrives(queue: seq<Message>, w: Seen, b: Book, m: Message)
    requires HistoryInv(Some(queue), w, b)
    ensures |queue| == |w.log| - b.head
    ensures var full := |queue| >= QUEUE_DEPTH;
            HistoryInv(Some((if full then queue[1..] else queue) + [m]), w.(log := w.log + [m]),
                       if full then b.(head := b.head + 1) else b)
  {
    var b' := if |queue| >= QUEUE_DEPTH then b.(head := b.head + 1) else b;
    forall i: nat | Lost(b', i) ensures i + QUEUE_DEPTH < |w.log| + 1 {
      assert i != b.head ==> Lost(b, i);
    }
  }

  lemma HandsOut(queue: seq<Message>, w: Seen, b: Book, n: nat)
    requires HistoryInv(Some(queue), w, b) && n <= |queue|
    ensures HistoryInv(Some(queue[n..]), w.(pulled := w.pulled + queue[..n]),
                       Book(b.handed + seq(n, i => b.head + i), b.head + n))
  {
    var b' := Book(b.handed + seq(n, i => b.head + i), b.head + n);
    forall i: nat | b.head <= i < b.head + n ensures i in b'.handed {
      assert b'.handed[|b.handed| + (i - b.head)] == i;
    }
    forall i: nat | Lost(b', i) ensures Lost(b, i) {
      assert forall k | 0 <= k < |b.handed| :: b'.handed[k] == b.handed[k];
    }
  }

  lemma HistoryStep(s: State, w: Seen, b: Book, e: Event, id: string)
    requires HistoryInv(QueueOf(s, id), w, b)
    ensures HistoryInv(QueueOf(Step(s, e.op, e.now).0, id), Observe(w, s, e, id), Advance(b, w, s, e, id))
  {
    hide Step, Creates, Receives, Increasing, Selects, Lost, HistoryInv;
    QueueStep(s, e, id);
    if Creates(s, e, id) {
      NewHistory();
    } else if e.op.Publish? && Receives(s, id, e.op.topic, e.now) {
      ReceiverInMap(s, id, e.op.topic, e.now);
      Arrives(s.subs[id].queue, w, b, Message(s.subs[id].address, e.op.topic, e.op.body));
    } else if e.op.PullMessages? && e.op.id == id && Step(s, e.op, e.now).1.Pulled? {
      HandsOut(s.subs[id].queue, w, b, |Step(s, e.op, e.now).1.messages|);
    } else {
      QueueGone(QueueOf(s, id), w, b);
    }
  }

  lemma QueueGone(queue: Option<seq<Message>>, w: Seen, b: Book)
    requires HistoryInv(queue, w, b)
    ensures HistoryInv(None, w, b)
  {
  }

  lemma ReceiverInMap(s: State, id: string, topic: string, now: int)
    requires Receives(s, id, topic, now)
    ensures id in s.subs
  {
  }

  lemma NewHistory()
    ensures HistoryInv(Some([]), Seen([], []), Book([], 0)) && HistoryInv(None, Seen([], []), Book([], 0))
  {
  }

  lemma {:induction false} HistoryHolds(cfg: Config, events: seq<Event>, id: string)
    ensures HistoryInv(QueueOf(After(New(cfg), events), id),
                       Watch(New(cfg), events, id), Positions(New(cfg), events, id))
  {
    hide Step, HistoryInv, Observe, Advance;
    if events == [] {
      NewHistory();
    } else {
      var init, e := events[..|events| - 1], events[|events| - 1];
      HistoryHolds(cfg, init, id);
      HistoryStep(After(New(cfg), init), Watch(New(cfg), init, id), Positions(New(cfg), init, id), e, id);
    }
  }

  /** After any run: the queue is the suffix of the log from `head` on, at most 256 long;
      what was pulled is an in-order, duplicate-free selection of the log before `head`;
      and a message not handed out is lost exactly when 256 later ones have arrived. */
  lemma DeliveryHistory(cfg: Config, events: seq<Event>, id: string)
    ensures var s := After(New(cfg), events);
            var w := Watch(New(cfg), events, id);
            var b := Positions(New(cfg), events, id);
            && Increasing(b.handed)
            && Selects(w.log, b.handed, w.pulled)
            && b.head <= |w.log|
            && (forall k | 0 <= k < |b.handed| :: b.handed[k] < b.head)
            && (id in s.subs ==> s.subs[id].queue == w.log[b.head..] && |s.subs[id].queue| <= QUEUE_DEPTH)
            && (forall i: nat | i < |w.log| && i !in b.handed :: Lost(b, i) <==> i + QUEUE_DEPTH < |w.log|)
  {
    hide Watch, Positions, After;
    HistoryHolds(cfg, events, id);
  }

  /** Nothing is created or forgotten: published = pulled + dropped + still queued. */
  lemma DeliveryConserved(cfg: Config, events: seq<Event>, id: string)
    requires id in After(New(cfg), events).subs
    ensures var s := After(New(cfg), events);
            var w := Watch(New(cfg), events, id);
            var b := Positions(New(cfg), events, id);
            |w.log| == |w.pulled| + |set i: nat | i < b.head && Lost(b, i)| + |s.subs[id].queue|
  {
    hide Watch, Positions, After;
    HistoryHolds(cfg, events, id);
    CountMissing(Positions(New(cfg), events, id).handed, Positions(New(cfg), events, id).head);
    var b := Positions(New(cfg), events, id);
    assert (set i: nat | i < b.head && Lost(b, i)) == Missing(b.handed, b.head);
  }

  function Missing(handed: seq<nat>, head: nat): set<nat> {
    set i: nat | i < head && i !in handed
  }

  lemma {:induction false} CountMissing(handed: seq<nat>, head: nat)
    requires Increasing(handed) && forall k | 0 <= k < |handed| :: handed[k] < head
    ensures |Missing(handed, head)| + |handed| == head
  {
    if handed == [] {
      CountAll(head);
    } else {
      var last := handed[|handed| - 1];
      var init := handed[..|handed| - 1];
      CountMissing(init, head);
      assert handed == init + [last];
      assert Missing(init, head) == Missing(handed, head) + {last};
    }
  }

  lemma {:induction false} CountAll(n: nat)
    ensures |Missing([], n)| == n
  {
    if n > 0 {
      CountAll(n - 1);
      assert Missing([], n) == Missing([], n - 1) + {n - 1};
    }
  }

  lemma LostKept(w: Seen, b: Book, s: State, e: Event, id: string, i: nat)
    requires Lost(b, i) && !Creates(s, e, id)
    ensures Lost(Advance(b, w, s, e, id), i)
  {
  }

  lemma NotCreated(s: State, e: Event, id: string)
    requires !Issues(e, id)
    ensures !Creates(s, e, id)
  {
  }

  lemma LostAppend(s: State, events: seq<Event>, e: Event, id: string, i: nat)
    requires Lost(Positions(s, events, id), i) && !Issues(e, id)
    ensures Lost(Positions(s, events + [e], id), i)
  {
    hide Lost, Advance, Step;
    assert (events + [e])[..|events|] == events;
    NotCreated(After(s, events), e, id);
    LostKept(Watch(s, events, id), Positions(s, events, id), After(s, events), e, id, i);
  }

  /** A lost message stays lost: as long as its id is not issued again, no later pull
      hands it out. */
  lemma {:induction false} LostForGood(cfg: Config, events: seq<Event>, later: seq<Event>, id: string, i: nat)
    requires Lost(Positions(New(cfg), events, id), i)
    requires forall e <- later :: !Issues(e, id)
    ensures Lost(Positions(New(cfg), events + later, id), i)
    decreases |later|
  {
    hide Lost, Positions, Issues;
    if later == [] {
      assert events + later == events;
    } else {
      LostAppend(New(cfg), events, later[0], id, i);
      LostForGood(cfg, events + [later[0]], later[1..], id, i);
      assert events + [later[0]] + later[1..] == events + later;
    }
  }
}
