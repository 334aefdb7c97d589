/** What `Handle` (internal/obs/handler.go) does for its caller: it reaches a sink, and only
    one, and that sink was the installed one when it was reached. */
module SinkHandling {
  import opened SinkGenerations

  /** Inside the retry loop. */
  predicate Searching(p: Pc) {
    || p.Looping? || p.Loaded? || p.Unretired? || p.Acquired? || p.Mismatched? || p.BackedOutAtZero?
    || (p.Closing? && p.agent.ByBackOut?)
  }

  /** In the deferred release. */
  predicate Leaving(p: Pc) {
    p.ReleasedAtZero? || (p.Closing? && p.agent.ByRelease?)
  }

  /** The retry loop ends only with the validation of the generation that is installed. */
  lemma SearchStep(s: State, m: Move, gran: Granularity)
    requires WellFormed(s) && Searching(PcOf(s, m.thread))
    ensures var p := PcOf(Next(s, m, gran), m.thread); Searching(p) || p == Inside(s.gen)
  {
  }

  lemma LeaveStep(s: State, m: Move, gran: Granularity)
    requires WellFormed(s) && (PcOf(s, m.thread).Inside? || Leaving(PcOf(s, m.thread)))
    ensures var p := PcOf(Next(s, m, gran), m.thread); Leaving(p) || p.Idle?
  {
  }

  lemma StandStill(s: State, m: Move, gran: Granularity, t: nat)
    requires WellFormed(s) && t != m.thread
    ensures PcOf(Next(s, m, gran), t) == PcOf(s, t)
  {
  }

  /** A retired generation gets no newcomers: whoever loads it from then on finds it retired,
      and only those who had seen it before can still raise its count. */
  lemma RetiredGetsNoNewcomers(s: State, m: Move, gran: Granularity, t: nat, g: nat)
    requires WellFormed(s) && g < |s.gens| && s.gens[g].retired
    ensures PcOf(Next(s, m, gran), t) == Unretired(g) ==> PcOf(s, t) == Unretired(g)
    ensures Next(s, m, gran).gens[g].refs > s.gens[g].refs ==> PcOf(s, m.thread) == Unretired(g)
  {
  }

  /** Step `k` takes thread `t` into a generation. */
  predicate Enters(states: seq<State>, t: nat, k: nat) {
    k + 1 < |states| && !PcOf(states[k], t).Inside? && PcOf(states[k + 1], t).Inside?
  }

  predicate NoEntry(states: seq<State>, t: nat, i: nat, j: nat) {
    forall k | i <= k < j :: !Enters(states, t, k)
  }

  /** Step `k` is the only entry so far, and what it entered was installed. */
  predicate OneEntry(states: seq<State>, t: nat, i: nat, j: nat, k: nat) {
    && i < k < j && Enters(states, t, k) && PcOf(states[k + 1], t) == Inside(states[k].gen)
    && forall x | i <= x < j && Enters(states, t, x) :: x == k
  }

  /** Thread `t` was idle, is called to handle a record, and has not come back before `j`. */
  ghost predicate InHandle(states: seq<State>, moves: seq<Move>, gran: Granularity, t: nat, i: nat, j: nat) {
    && IsRun(states, moves, gran) && i < j <= |moves|
    && PcOf(states[i], t).Idle? && moves[i] == Move(t, Handle)
    && forall k | i < k < j :: !PcOf(states[k], t).Idle?
  }

  /** Until it comes back, the call is still searching and has entered nothing, or it has
      entered once and is inside or leaving. */
  lemma {:induction false} HandlePhase(
    states: seq<State>, moves: seq<Move>, gran: Granularity, t: nat, i: nat, j: nat) returns (k: nat)
    requires InHandle(states, moves, gran, t, i, j)
    ensures var p := PcOf(states[j], t);
            || (Searching(p) && NoEntry(states, t, i, j))
            || ((p.Inside? || Leaving(p) || p.Idle?) && OneEntry(states, t, i, j, k))
  {
    hide Next, Searching, Leaving;
    k := 0;
    var s, m := states[j - 1], moves[j - 1];
    assert WellFormed(s) && states[j] == Next(s, m, gran);
    if j == i + 1 {
      CallStep(s, t, gran);
    } else {
      k := HandlePhase(states, moves, gran, t, i, j - 1);
      if m.thread != t {
        StandStill(s, m, gran, t);
      } else if Searching(PcOf(s, t)) {
        SearchStep(s, m, gran);
        NotInside(PcOf(s, t));
        if PcOf(states[j], t) == Inside(s.gen) { k := j - 1; } else { NotInside(PcOf(states[j], t)); }
      } else {
        LeaveStep(s, m, gran);
        NotInside(PcOf(states[j], t));
      }
    }
  }

  lemma CallStep(s: State, t: nat, gran: Granularity)
    requires WellFormed(s) && PcOf(s, t).Idle?
    ensures PcOf(Next(s, Move(t, Handle), gran), t).Looping? && Searching(Looping)
  {
  }

  lemma NotInside(p: Pc)
    ensures Searching(p) || Leaving(p) || p.Idle? ==> !p.Inside?
    ensures Searching(p) ==> !p.Idle? && !Leaving(p)
  {
  }

  /** Every call of Handle, when it comes back, has handed its record to exactly one sink, and
      that sink was the installed one at that moment: no record is lost or doubled by a swap. */
  lemma HandleReachesOneSink(
    states: seq<State>, moves: seq<Move>, gran: Granularity, t: nat, i: nat, j: nat) returns (k: nat)
    requires InHandle(states, moves, gran, t, i, j) && PcOf(states[j], t).Idle?
    ensures OneEntry(states, t, i, j, k)
    ensures var s := states[k]; s.gen < |s.gens| && !s.gens[s.gen].closed
  {
    k := HandlePhase(states, moves, gran, t, i, j);
    NotInside(PcOf(states[j], t));
    InstalledNeverClosed(states, moves, gran, k);
  }
}
