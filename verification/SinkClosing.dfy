/** What `State.Close` (internal/obs/log.go) leaves behind: whether the sinks of the generation
    it swapped out are closed when it returns. */
module SinkClosing {
  import opened SinkGenerations

  predicate ClosedIn(s: State, g: nat) { g < |s.gens| && s.gens[g].closed }

  /** The thread has come back from its call since the first `i` steps. */
  ghost predicate Returned(states: seq<State>, i: nat, w: nat) {
    exists k | i < k < |states| :: PcOf(states[k], w).Idle?
  }

  /** Once Close has read a count of zero, or the generation is closed anyway, either it is
      closed or Close is still about to do it. */
  lemma {:induction false} ClosedOrClosing(states: seq<State>, moves: seq<Move>, w: nat, g: nat, i: nat, j: nat)
    requires IsRun(states, moves, Split) && i <= j <= |moves|
    requires ClosedIn(states[i], g) || PcOf(states[i], w) == Closing(g, BySwapper)
    ensures || ClosedIn(states[j], g)
            || (PcOf(states[j], w) == Closing(g, BySwapper) && forall k | i <= k <= j :: !PcOf(states[k], w).Idle?)
  {
    if i < j {
      ClosedOrClosing(states, moves, w, g, i, j - 1);
      ClosingStep(states[j - 1], moves[j - 1], w, g);
    }
  }

  lemma ClosingStep(s: State, m: Move, w: nat, g: nat)
    requires WellFormed(s) && (ClosedIn(s, g) || PcOf(s, w) == Closing(g, BySwapper))
    ensures ClosedIn(Next(s, m, Split), g) || PcOf(Next(s, m, Split), w) == Closing(g, BySwapper)
    ensures ClosedIn(s, g) ==> ClosedIn(Next(s, m, Split), g)
  {
  }

  /** A thread that still holds a reference on a replaced generation gives it back in one or
      two steps, without closing anything. */
  lemma HolderLeaves(s: State, t: nat, g: nat) returns (n: nat)
    requires Inv(s) && g < |s.gens| && g != s.gen && t in Holders(s.pc, g)
    ensures var s' := Repeat(s, Move(t, Handle), n);
            && g < |s'.gens| && s'.gen == s.gen && s'.gens[g].closed == s.gens[g].closed
            && |Holders(s'.pc, g)| == |Holders(s.pc, g)| - 1
            && forall x <- s.pc :: x != t ==> x in s'.pc && s'.pc[x] == s.pc[x]
  {
    hide Holders, Inv;
    var m := Move(t, Handle);
    InHolders(s, t, g);
    n := if s.pc[t].Acquired? then 2 else 1;
    assert Repeat(s, m, 0) == s;
    HoldersOfNext(s, m, Split, g);
    if n == 2 {
      assert Repeat(s, m, 1) == Next(s, m, Split);
      HoldersOfNext(Repeat(s, m, 1), m, Split, g);
    }
  }

  lemma InHolders(s: State, t: nat, g: nat)
    requires Inv(s) && t in Holders(s.pc, g)
    ensures WellFormed(s) && t in s.pc && Holds(s.pc[t], g)
  {
  }

  /** From any state of a run, the holders of a replaced generation can leave one by one
      while everybody else stands still. */
  lemma {:induction false} AllLeave(states: seq<State>, moves: seq<Move>, g: nat, w: nat)
    returns (states': seq<State>, moves': seq<Move>)
    requires IsRun(states, moves, Split) && |states| == |moves| + 1
    requires var s := states[|moves|]; g < |s.gens| && g != s.gen && !ClosedIn(s, g) && PcOf(s, w) == Waiting(g)
    ensures IsRun(states', moves', Split) && |states'| == |moves'| + 1 && states <= states' && moves <= moves'
    ensures var s' := states'[|moves'|];
            g < |s'.gens| && s'.gens[g].refs == 0 && !ClosedIn(s', g) && PcOf(s', w) == Waiting(g)
    decreases |Holders(states[|moves|].pc, g)|
  {
    hide IsRun, Next, Repeat, Holders, CountInv, DutyInv, ThreadInv;
    var s := states[|moves|];
    RunInv(states, moves, Split, |moves|);
    HoldersCounted(s, g);
    if s.gens[g].refs == 0 {
      states', moves' := states, moves;
    } else {
      var t :| t in Holders(s.pc, g);
      InHolders(s, t, g);
      var n := HolderLeaves(s, t, g);
      states', moves' := GoOn(states, moves, Move(t, Handle), n);
      states', moves' := AllLeave(states', moves', g, w);
    }
  }

  lemma HoldersCounted(s: State, g: nat)
    requires Inv(s) && g < |s.gens|
    ensures s.gens[g].refs == |Holders(s.pc, g)|
  {
    assert CountInv(s, g);
  }

  /** When Close, at its first look at the count, finds it positive and the generation not
      closed, it can return before anybody has closed it. */
  lemma CloseReturnsEarly(states: seq<State>, moves: seq<Move>, m: Move)
    returns (states': seq<State>, moves': seq<Move>)
    requires IsRun(states, moves, Split) && |states| == |moves| + 1
    requires var s, p := states[|moves|], PcOf(states[|moves|], m.thread);
             p.Retired? && p.waits && p.g < |s.gens| && s.gens[p.g].refs != 0 && !ClosedIn(s, p.g)
    ensures Continues(states, moves, m, states', moves') && Returned(states', |moves|, m.thread)
    ensures !ClosedIn(states'[|moves'|], PcOf(states[|moves|], m.thread).g)
  {
    hide IsRun, Next, Repeat, ClosedIn;
    var s := states[|moves|];
    var g := PcOf(s, m.thread).g;
    RunInv(states, moves, Split, |moves|);
    CloseWaits(s, m);
    states', moves' := GoOn(states, moves, m, 1);
    states', moves' := AllLeave(states', moves', g, m.thread);
    RunInv(states', moves', Split, |moves'|);
    WaitEnds(states'[|moves'|], m);
    states', moves' := GoOn(states', moves', m, 1);
    assert PcOf(states'[|moves'|], m.thread).Idle?;
  }

  lemma CloseWaits(s: State, m: Move)
    requires Inv(s)
    requires var p := PcOf(s, m.thread); p.Retired? && p.waits && p.g < |s.gens| && s.gens[p.g].refs != 0
    ensures var s', g := Repeat(s, m, 1), PcOf(s, m.thread).g;
            && PcOf(s', m.thread) == Waiting(g) && g != s'.gen && g < |s'.gens|
            && (ClosedIn(s', g) <==> ClosedIn(s, g))
  {
    assert Repeat(s, m, 0) == s && ThreadInv(s, PcOf(s, m.thread));
  }

  lemma WaitEnds(s: State, m: Move)
    requires Inv(s)
    requires var p := PcOf(s, m.thread); p.Waiting? && p.g < |s.gens| && s.gens[p.g].refs == 0
    ensures var s', g := Repeat(s, m, 1), PcOf(s, m.thread).g;
            PcOf(s', m.thread).Idle? && (ClosedIn(s', g) <==> ClosedIn(s, g))
  {
    assert Repeat(s, m, 0) == s;
  }

  /** Whether the sinks are released when Close returns, exactly. Whatever happens next, they
      are closed in every state after its return, if and only if at its first look at the count
      it is zero or they are closed already. */
  lemma CloseDecides(states: seq<State>, moves: seq<Move>, m: Move)
    requires IsRun(states, moves, Split) && |states| == |moves| + 1
    requires var p := PcOf(states[|moves|], m.thread); p.Retired? && p.waits
    ensures var s, g := states[|moves|], PcOf(states[|moves|], m.thread).g;
            g < |s.gens| &&
            ((forall states', moves' |
                Continues(states, moves, m, states', moves') && Returned(states', |moves|, m.thread) ::
                ClosedIn(states'[|moves'|], g))
             <==> s.gens[g].refs == 0 || ClosedIn(s, g))
  {
    hide Next, ClosedIn, Returned;
    var s, g := states[|moves|], PcOf(states[|moves|], m.thread).g;
    RunInv(states, moves, Split, |moves|);
    if s.gens[g].refs == 0 || ClosedIn(s, g) {
      forall states', moves' | Continues(states, moves, m, states', moves') && Returned(states', |moves|, m.thread)
        ensures ClosedIn(states'[|moves'|], g)
      {
        ClosesBeforeReturning(states, moves, m, states', moves');
      }
    } else {
      var states', moves' := CloseReturnsEarly(states, moves, m);
    }
  }

  lemma ClosesBeforeReturning(
    states: seq<State>, moves: seq<Move>, m: Move, states': seq<State>, moves': seq<Move>)
    requires IsRun(states, moves, Split) && Continues(states, moves, m, states', moves')
    requires Returned(states', |moves|, m.thread)
    requires var s, p := states[|moves|], PcOf(states[|moves|], m.thread);
             WellFormed(s) && p.Retired? && (s.gens[p.g].refs == 0 || ClosedIn(s, p.g))
    ensures ClosedIn(states'[|moves'|], PcOf(states[|moves|], m.thread).g)
  {
    hide Returned;
    var n, g := |moves|, PcOf(states[|moves|], m.thread).g;
    assert states'[n] == states[n] && moves'[n] == m;
    assert states'[n + 1] == Next(states'[n], moves'[n], Split);
    ClosedOrClosing(states', moves', m.thread, g, n + 1, |moves'|);
    NotReturned(states', n, m.thread);
  }

  lemma NotReturned(states: seq<State>, i: nat, w: nat)
    ensures (forall k | i < k < |states| :: !PcOf(states[k], w).Idle?) ==> !Returned(states, i, w)
  {
  }

  /** So Close does not always release the sinks before it returns: in a run of ten steps it
      returns when the last Handle has left and has not yet closed them. */
  lemma CloseBeforeRelease()
    ensures exists states: seq<State>, moves: seq<Move> ::
              && IsRun(states, moves, Split) && |moves| == 10 && |states| == 11
              && PcOf(states[9], 2) == Waiting(0) && PcOf(states[10], 2).Idle?
              && |states[10].gens| > 0 && states[10].gens[0].closes == 0
  {
    hide Next, Repeat, IsRun;
    RunOfNothing();
    HandleValidates(INIT, 1);
    CloseWaitsForHandle();
    var ss, ms := GoOn([INIT], [], Move(1, Handle), 5);
    ss, ms := GoOn(ss, ms, Move(2, Call.Close), 3);
    ss, ms := GoOn(ss, ms, Move(1, Handle), 1);
    ss, ms := GoOn(ss, ms, Move(2, Call.Close), 1);
  }

  lemma CloseWaitsForHandle()
    ensures var inside := At(AddRefs(INIT, 0, 1), 1, Inside(0));
            var waiting := State(1, [Generation(1, true, false, 0), FRESH], map[1 := Inside(0), 2 := Waiting(0)]);
            var left := State(1, [Generation(0, true, false, 0), FRESH],
                              map[1 := ReleasedAtZero(0, false), 2 := Waiting(0)]);
            && Repeat(inside, Move(2, Call.Close), 3) == waiting
            && Repeat(waiting, Move(1, Handle), 1) == left
            && Repeat(left, Move(2, Call.Close), 1) == At(left, 2, Idle)
  {
    var inside := At(AddRefs(INIT, 0, 1), 1, Inside(0));
    var m := Move(2, Call.Close);
    var swapped := State(1, [Generation(1, false, false, 0), FRESH], map[1 := Inside(0), 2 := Swapped(0, true)]);
    var retired := State(1, [Generation(1, true, false, 0), FRESH], map[1 := Inside(0), 2 := Retired(0, true)]);
    assert Repeat(inside, m, 1) == swapped by { assert Repeat(inside, m, 0) == inside; }
    assert Repeat(inside, m, 2) == retired;
  }
}
