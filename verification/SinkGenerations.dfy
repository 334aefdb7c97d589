/** The log-sink generations of internal/obs: `atomicHandler.Handle` callers take and
    drop references on the installed sink generation without a lock, while `swapGen`
    and `State.Close` replace it and close the old one.

    The protocol is a state machine over its atomic steps. Every atomic load, store, add
    and swap of the program is one step of one thread, the mutex-protected `closeOnce` is
    one step, and any number of threads interleave in any order. The generation pointer
    is never nil: `newAtomicHandler` installs a first generation and every swap installs
    another, so the two nil tests are not modelled. */
module SinkGenerations {
  import opened Sets

  /** One `sinkGeneration`. `closes` counts how often its closers were really run. */
  datatype Generation = Generation(refs: int, retired: bool, closed: bool, closes: nat)

  /** On whose behalf `closeOnce` is about to be called. For a deferred release,
      `wasInstalled` records whether the generation was still the installed one when the
      release brought the count to zero; no step of the protocol reads it. */
  datatype Closer = BySwapper | ByBackOut | ByRelease(wasInstalled: bool)

  datatype Pc =
    | Idle                                        // not inside Handle, swapGen or Close
    | Looping                                     // Handle, at the head of its retry loop
    | Loaded(g: nat)                              // gen.Load() returned g
    | Unretired(g: nat)                           // g.retired.Load() was false
    | Acquired(g: nat)                            // g.refs.Add(1) done
    | Mismatched(g: nat)                          // gen.Load() was not g any more
    | BackedOutAtZero(g: nat)                     // the lost race brought refs to zero
    | Inside(g: nat)                              // validated, using g.handler
    | ReleasedAtZero(g: nat, wasInstalled: bool)  // the deferred release reached zero
    | Closing(g: nat, agent: Closer)                 // about to run g.closeOnce()
    | Swapped(g: nat, waits: bool)                // swapped g out, not yet retired it
    | Retired(g: nat, waits: bool)                // retired g, not yet read its refs
    | Waiting(g: nat)                             // State.Close spinning on g.refs

  datatype State = State(gen: nat, gens: seq<Generation>, pc: map<nat, Pc>)

  /** What an idle thread does when it is scheduled. */
  datatype Call = Handle | Apply | Close

  datatype Move = Move(thread: nat, call: Call)

  /** Split: the release's decrement and its test of `retired` are two steps, as in the
      code. Fused: they are one. */
  datatype Granularity = Split | Fused

  const FRESH := Generation(0, false, false, 0)

  const INIT := State(0, [FRESH], map[])

  function PcOf(s: State, t: nat): Pc {
    if t in s.pc then s.pc[t] else Idle
  }

  predicate WellFormed(s: State) {
    && s.gen < |s.gens|
    && forall t <- s.pc :: !s.pc[t].Idle? && !s.pc[t].Looping? ==> s.pc[t].g < |s.gens|
  }

  function At(s: State, t: nat, p: Pc): State {
    s.(pc := s.pc[t := p])
  }

  function AddRefs(s: State, g: nat, delta: int): State
    requires g < |s.gens|
  {
    s.(gens := s.gens[g := s.gens[g].(refs := s.gens[g].refs + delta)])
  }

  /** `closeOnce`: the closers run only if the generation was not closed before. */
  function CloseOnce(s: State, g: nat): State
    requires g < |s.gens|
  {
    if s.gens[g].closed then s
    else s.(gens := s.gens[g := s.gens[g].(closed := true, closes := s.gens[g].closes + 1)])
  }

  /** One atomic step of the thread that `m` schedules. */
  function Next(s: State, m: Move, gran: Granularity): (s': State)
    requires WellFormed(s)
    ensures WellFormed(s')
  {
    var t := m.thread;
    match PcOf(s, t)
    case Idle =>
      if m.call.Handle? then At(s, t, Looping)
      else At(s.(gen := |s.gens|, gens := s.gens + [FRESH]), t, Swapped(s.gen, m.call.Close?))
    case Looping => At(s, t, Loaded(s.gen))
    case Loaded(g) => At(s, t, if s.gens[g].retired then Looping else Unretired(g))
    case Unretired(g) => At(AddRefs(s, g, 1), t, Acquired(g))
    case Acquired(g) => At(s, t, if s.gen != g then Mismatched(g) else Inside(g))
    case Mismatched(g) =>
      At(AddRefs(s, g, -1), t, if s.gens[g].refs - 1 == 0 then BackedOutAtZero(g) else Looping)
    case BackedOutAtZero(g) => At(s, t, if s.gens[g].retired then Closing(g, ByBackOut) else Looping)
    case Inside(g) =>
      At(AddRefs(s, g, -1), t,
         if s.gens[g].refs - 1 != 0 then Idle
         else if gran.Split? then ReleasedAtZero(g, s.gen == g)
         else if s.gens[g].retired then Closing(g, ByRelease(s.gen == g))
         else Idle)
    case ReleasedAtZero(g, was) => At(s, t, if s.gens[g].retired then Closing(g, ByRelease(was)) else Idle)
    case Closing(g, agent) => At(CloseOnce(s, g), t, if agent.ByBackOut? then Looping else Idle)
    case Swapped(g, waits) =>
      At(s.(gens := s.gens[g := s.gens[g].(retired := true)]), t, Retired(g, waits))
    case Retired(g, waits) =>
      At(s, t, if s.gens[g].refs == 0 then Closing(g, BySwapper) else if waits then Waiting(g) else Idle)
    case Waiting(g) => At(s, t, if s.gens[g].refs > 0 then Waiting(g) else Idle)
  }

  /** `states` is the run of the schedule `moves` from the initial state. */
  ghost predicate IsRun(states: seq<State>, moves: seq<Move>, gran: Granularity) {
    && |states| == |moves| + 1
    && states[0] == INIT
    && forall i | 0 <= i < |moves| :: WellFormed(states[i]) && states[i + 1] == Next(states[i], moves[i], gran)
  }

  // ---------- the invariant -------------------------------------------------------

  /** Threads that added one to the count of `g` and have not yet taken it back. */
  predicate Holds(p: Pc, g: nat) {
    (p.Acquired? || p.Mismatched? || p.Inside?) && p.g == g
  }

  function Holders(pc: map<nat, Pc>, g: nat): set<nat> {
    set t <- pc | Holds(pc[t], g)
  }

  lemma HoldersUpdate(pc: map<nat, Pc>, t: nat, p: Pc, g: nat)
    ensures |Holders(pc[t := p], g)|
         == |Holders(pc, g)| - (if t in pc && Holds(pc[t], g) then 1 else 0) + (if Holds(p, g) then 1 else 0)
  {
    hide Holders, Holds;
    var before, after := Holders(pc, g), Holders(pc[t := p], g);
    OtherHolders(pc, t, p, g);
    SizeWithout(before, t);
    SizeWithout(after, t);
  }

  lemma OtherHolders(pc: map<nat, Pc>, t: nat, p: Pc, g: nat)
    ensures var before, after := Holders(pc, g), Holders(pc[t := p], g);
            && after - {t} == before - {t}
            && (t in before <==> t in pc && Holds(pc[t], g)) && (t in after <==> Holds(p, g))
  {
  }

  /** Threads that will still look at `retired` of `g`, or close it. */
  predicate Responsible(p: Pc, g: nat) {
    (p.BackedOutAtZero? || p.ReleasedAtZero? || p.Closing? || p.Retired?) && p.g == g
  }

  ghost predicate SomeoneRetires(s: State, g: nat) {
    exists t <- s.pc :: s.pc[t].Swapped? && s.pc[t].g == g
  }

  ghost predicate SomeoneResponsible(s: State, g: nat) {
    exists t <- s.pc :: Responsible(s.pc[t], g)
  }

  predicate NobodyInside(s: State, g: nat) {
    forall t <- s.pc :: s.pc[t] != Inside(g)
  }

  ghost predicate CountInv(s: State, g: nat)
    requires g < |s.gens|
  {
    && s.gens[g].refs == |Holders(s.pc, g)|
    && s.gens[g].closes == (if s.gens[g].closed then 1 else 0)
    && (s.gens[g].closed ==> s.gens[g].retired)
    && (s.gens[g].retired ==> g != s.gen)
  }

  ghost predicate DutyInv(s: State, g: nat)
    requires g < |s.gens|
  {
    && (g != s.gen && !s.gens[g].retired ==> SomeoneRetires(s, g))
    && (s.gens[g].retired && !s.gens[g].closed ==> s.gens[g].refs > 0 || SomeoneResponsible(s, g))
  }

  predicate ThreadInv(s: State, p: Pc) {
    && (p.Mismatched? || p.BackedOutAtZero? || p.Swapped? || p.Retired? || p.Waiting? || p.Closing? ==> p.g != s.gen)
    && ((p.Retired? || p.Waiting? || p.Closing?) && p.g < |s.gens| ==> s.gens[p.g].retired)
    && (p.ReleasedAtZero? && !p.wasInstalled ==> p.g != s.gen)
    && (p.BackedOutAtZero? ==> NobodyInside(s, p.g))
    && (p.ReleasedAtZero? && !p.wasInstalled ==> NobodyInside(s, p.g))
    && (p.Closing? && p.agent != ByRelease(true) ==> NobodyInside(s, p.g))
  }

  ghost predicate Inv(s: State) {
    && WellFormed(s)
    && (forall g: nat | g < |s.gens| :: CountInv(s, g))
    && (forall g: nat | g < |s.gens| :: DutyInv(s, g))
    && (forall t <- s.pc :: ThreadInv(s, s.pc[t]))
  }

  lemma NoHoldersNobodyInside(s: State, g: nat)
    requires |Holders(s.pc, g)| == 0
    ensures NobodyInside(s, g)
  {
    assert forall t <- s.pc :: s.pc[t] == Inside(g) ==> t in Holders(s.pc, g);
  }

  lemma HoldersOfNext(s: State, m: Move, gran: Granularity, g: nat)
    requires WellFormed(s)
    ensures var p := PcOf(s, m.thread); var p' := PcOf(Next(s, m, gran), m.thread);
            |Holders(Next(s, m, gran).pc, g)|
            == |Holders(s.pc, g)| - (if Holds(p, g) then 1 else 0) + (if Holds(p', g) then 1 else 0)
  {
    HoldersUpdate(s.pc, m.thread, PcOf(Next(s, m, gran), m.thread), g);
  }

  lemma FreshHasNoHolders(s: State, g: nat)
    requires WellFormed(s) && g >= |s.gens|
    ensures Holders(s.pc, g) == {}
  {
  }

  lemma WitnessesKept(s: State, m: Move, gran: Granularity, g: nat)
    requires WellFormed(s)
    ensures var s' := Next(s, m, gran); var p := PcOf(s, m.thread);
            && (SomeoneRetires(s, g) && !(p.Swapped? && p.g == g) ==> SomeoneRetires(s', g))
            && (SomeoneResponsible(s, g) && !Responsible(p, g) ==> SomeoneResponsible(s', g))
            && (Responsible(PcOf(s', m.thread), g) ==> SomeoneResponsible(s', g))
            && (PcOf(s', m.thread).Swapped? && PcOf(s', m.thread).g == g ==> SomeoneRetires(s', g))
  {
    var s' := Next(s, m, gran);
    assert m.thread in s'.pc;
    if SomeoneRetires(s, g) {
      var t :| t in s.pc && s.pc[t].Swapped? && s.pc[t].g == g;
      assert t != m.thread ==> t in s'.pc && s'.pc[t] == s.pc[t];
    }
    if SomeoneResponsible(s, g) {
      var t :| t in s.pc && Responsible(s.pc[t], g);
      assert t != m.thread ==> t in s'.pc && s'.pc[t] == s.pc[t];
    }
  }

  lemma CountInvKept(s: State, m: Move, gran: Granularity, g: nat)
    requires Inv(s) && g < |Next(s, m, gran).gens|
    ensures CountInv(Next(s, m, gran), g)
  {
    hide Next, Holders;
    assert g < |s.gens| ==> CountInv(s, g);
    RefsKept(s, m, gran, g);
    FlagsKept(s, m, gran, g);
  }

  lemma RefsKept(s: State, m: Move, gran: Granularity, g: nat)
    requires WellFormed(s) && (g < |s.gens| ==> s.gens[g].refs == |Holders(s.pc, g)|)
    requires g < |Next(s, m, gran).gens|
    ensures Next(s, m, gran).gens[g].refs == |Holders(Next(s, m, gran).pc, g)|
  {
    hide Next, Holders;
    HoldersOfNext(s, m, gran, g);
    RefsOfNext(s, m, gran, g);
    if g == |s.gens| { FreshHasNoHolders(s, g); }
  }

  lemma RefsOfNext(s: State, m: Move, gran: Granularity, g: nat)
    requires WellFormed(s) && g < |Next(s, m, gran).gens|
    ensures var p, s' := PcOf(s, m.thread), Next(s, m, gran);
            if g < |s.gens| then
              s'.gens[g].refs == s.gens[g].refs - (if Holds(p, g) then 1 else 0)
                                                + (if Holds(PcOf(s', m.thread), g) then 1 else 0)
            else g == |s.gens| && s'.gens[g].refs == 0 && !Holds(p, g) && !Holds(PcOf(s', m.thread), g)
  {
  }

  lemma FlagsKept(s: State, m: Move, gran: Granularity, g: nat)
    requires Inv(s) && g < |Next(s, m, gran).gens|
    ensures var s' := Next(s, m, gran); var x := s'.gens[g];
            && x.closes == (if x.closed then 1 else 0)
            && (x.closed ==> x.retired) && (x.retired ==> g != s'.gen)
  {
    hide Holders, DutyInv, NobodyInside;
    assert g < |s.gens| ==> CountInv(s, g);
    var p := PcOf(s, m.thread);
    assert p.Swapped? || p.Closing? ==> ThreadInv(s, p);
  }

  lemma DutyInvKept(s: State, m: Move, gran: Granularity, g: nat)
    requires Inv(s) && g < |Next(s, m, gran).gens|
    ensures DutyInv(Next(s, m, gran), g)
  {
    hide Holders, ThreadInv;
    if g < |s.gens| {
      assert DutyInv(s, g) && CountInv(s, g);
      WitnessesKept(s, m, gran, g);
    }
  }

  lemma NobodyInsideKept(s: State, m: Move, gran: Granularity, g: nat)
    requires WellFormed(s) && g != s.gen && NobodyInside(s, g)
    ensures NobodyInside(Next(s, m, gran), g)
  {
  }

  lemma ThreadInvKept(s: State, m: Move, gran: Granularity, t: nat)
    requires Inv(s) && t in Next(s, m, gran).pc && t != m.thread
    ensures ThreadInv(Next(s, m, gran), Next(s, m, gran).pc[t])
  {
    var p := s.pc[t];
    assert ThreadInv(s, p);
    if !p.Idle? && !p.Looping? && p.g != s.gen && NobodyInside(s, p.g) { NobodyInsideKept(s, m, gran, p.g); }
  }

  lemma OwnThreadInvKept(s: State, m: Move, gran: Granularity)
    requires Inv(s)
    ensures ThreadInv(Next(s, m, gran), PcOf(Next(s, m, gran), m.thread))
  {
    var s' := Next(s, m, gran);
    var p' := PcOf(s', m.thread);
    if PcOf(s, m.thread).Idle? || PcOf(s, m.thread).Looping? {
    } else {
      var g := PcOf(s, m.thread).g;
      assert ThreadInv(s, PcOf(s, m.thread));
      assert CountInv(s, g);
      CountInvKept(s, m, gran, g);
      if s'.gens[g].refs == 0 { NoHoldersNobodyInside(s', g); }
      if g != s.gen && NobodyInside(s, g) { NobodyInsideKept(s, m, gran, g); }
    }
  }

  lemma InvKept(s: State, m: Move, gran: Granularity)
    requires Inv(s)
    ensures Inv(Next(s, m, gran))
  {
    var s' := Next(s, m, gran);
    forall g: nat | g < |s'.gens| ensures CountInv(s', g) { CountInvKept(s, m, gran, g); }
    forall g: nat | g < |s'.gens| ensures DutyInv(s', g) { DutyInvKept(s, m, gran, g); }
    forall t <- s'.pc ensures ThreadInv(s', s'.pc[t]) {
      if t == m.thread { OwnThreadInvKept(s, m, gran); } else { ThreadInvKept(s, m, gran, t); }
    }
  }

  lemma {:induction false} RunInv(states: seq<State>, moves: seq<Move>, gran: Granularity, i: nat)
    requires IsRun(states, moves, gran) && i <= |moves|
    ensures Inv(states[i])
  {
    if i == 0 {
      assert Holders(INIT.pc, 0) == {};
    } else {
      RunInv(states, moves, gran, i - 1);
      InvKept(states[i - 1], moves[i - 1], gran);
    }
  }

  // ---------- what the protocol promises -------------------------------------------

  predicate AllIdle(s: State) {
    forall t <- s.pc :: s.pc[t].Idle?
  }

  /** In every state of every run: the installed generation is never retired or closed,
      and no generation's closers run twice. */
  lemma InstalledNeverClosed(states: seq<State>, moves: seq<Move>, gran: Granularity, i: nat)
    requires IsRun(states, moves, gran) && i <= |moves|
    ensures var s := states[i];
            && s.gen < |s.gens|
            && !s.gens[s.gen].retired && !s.gens[s.gen].closed && s.gens[s.gen].closes == 0
            && forall g: nat | g < |s.gens| :: s.gens[g].closes <= 1
  {
    RunInv(states, moves, gran, i);
    var s := states[i];
    assert CountInv(s, s.gen);
    forall g: nat | g < |s.gens| ensures s.gens[g].closes <= 1 { assert CountInv(s, g); }
  }

  /** Nothing leaks: when no thread is inside Handle, swapGen or Close, every generation
      but the installed one has had its closers run exactly once and no count is left. */
  lemma QuiescentAllClosed(states: seq<State>, moves: seq<Move>, gran: Granularity, i: nat)
    requires IsRun(states, moves, gran) && i <= |moves| && AllIdle(states[i])
    ensures var s := states[i];
            forall g: nat | g < |s.gens| ::
              s.gens[g].refs == 0 && s.gens[g].closes == (if g == s.gen then 0 else 1)
  {
    RunInv(states, moves, gran, i);
    var s := states[i];
    forall g: nat | g < |s.gens|
      ensures s.gens[g].refs == 0 && s.gens[g].closes == (if g == s.gen then 0 else 1)
    {
      assert CountInv(s, g) && DutyInv(s, g);
      assert Holders(s.pc, g) == {};
    }
  }

  /** `State.Close` stops waiting only when the generation it swapped out has no Handle
      inside it, and then none is inside it ever again. */
  lemma CloseDrains(states: seq<State>, moves: seq<Move>, gran: Granularity, i: nat, j: nat)
    requires IsRun(states, moves, gran) && i < j <= |moves|
    requires PcOf(states[i], moves[i].thread).Waiting? && PcOf(states[i + 1], moves[i].thread).Idle?
    ensures NobodyInside(states[j], PcOf(states[i], moves[i].thread).g)
  {
    RunInv(states, moves, gran, i);
    var s, m := states[i], moves[i];
    var g := PcOf(s, m.thread).g;
    assert ThreadInv(s, PcOf(s, m.thread)) && CountInv(s, g);
    NoHoldersNobodyInside(s, g);
    NeverInsideAgain(states, moves, gran, g, i, j);
  }

  lemma {:induction false} NeverInsideAgain(
    states: seq<State>, moves: seq<Move>, gran: Granularity, g: nat, i: nat, j: nat)
    requires IsRun(states, moves, gran) && i <= j <= |moves|
    requires g < |states[i].gens| && g != states[i].gen && NobodyInside(states[i], g)
    ensures g < |states[j].gens| && g != states[j].gen && NobodyInside(states[j], g)
  {
    if i < j {
      NeverInsideAgain(states, moves, gran, g, i, j - 1);
      NobodyInsideKept(states[j - 1], moves[j - 1], gran, g);
    }
  }

  /** What the comment on `sinkGeneration` promises, for one generation: it is not closed
      while a Handle that validated it is still inside it. */
  predicate PromiseFor(s: State, g: nat) {
    g < |s.gens| && s.gens[g].closed ==> NobodyInside(s, g)
  }

  predicate Promise(s: State) {
    forall g: nat | g < |s.gens| :: PromiseFor(s, g)
  }

  /** The step installs another generation. */
  predicate Swaps(s: State, m: Move) { PcOf(s, m.thread).Idle? && !m.call.Handle? }

  /** One release of the installed generation has reached zero but not yet tested `retired`,
      while another Handle has validated the generation since. */
  ghost predicate RiskAtSwap(s: State) {
    && (exists t <- s.pc :: s.pc[t].ReleasedAtZero? && s.pc[t].g == s.gen)
    && !NobodyInside(s, s.gen)
  }

  /** No release that reached zero while `g` was installed is still on its way. */
  predicate NoStaleRelease(s: State, g: nat) {
    forall t <- s.pc :: s.pc[t] != ReleasedAtZero(g, true) && s.pc[t] != Closing(g, ByRelease(true))
  }

  /** `g` has been swapped out and nothing threatens it. */
  ghost predicate Safe(s: State, g: nat) {
    && g < |s.gens| && g != s.gen
    && PromiseFor(s, g)
    && (NobodyInside(s, g) || NoStaleRelease(s, g))
  }

  lemma NoStaleReleaseKept(s: State, m: Move, gran: Granularity, g: nat)
    requires WellFormed(s) && g != s.gen && NoStaleRelease(s, g)
    ensures NoStaleRelease(Next(s, m, gran), g)
  {
    hide Next;
    OwnReleaseNotStale(s, m, gran, g);
    forall t <- Next(s, m, gran).pc | t != m.thread ensures t in s.pc && Next(s, m, gran).pc[t] == s.pc[t] {
      OthersWait(s, m, gran, t);
    }
  }

  lemma OwnReleaseNotStale(s: State, m: Move, gran: Granularity, g: nat)
    requires WellFormed(s) && g != s.gen && NoStaleRelease(s, g)
    ensures var p := PcOf(Next(s, m, gran), m.thread);
            p != ReleasedAtZero(g, true) && p != Closing(g, ByRelease(true))
  {
  }

  /** A step moves only its own thread. */
  lemma OthersWait(s: State, m: Move, gran: Granularity, t: nat)
    requires WellFormed(s) && t in Next(s, m, gran).pc && t != m.thread
    ensures t in s.pc && Next(s, m, gran).pc[t] == s.pc[t]
  {
  }

  /** Behind a swap only a stale release closes a generation that somebody is inside. */
  lemma OnlyStaleReleaseCloses(s: State, m: Move, gran: Granularity, g: nat)
    requires Inv(s) && g < |s.gens| && !NobodyInside(s, g) && NoStaleRelease(s, g)
    ensures Next(s, m, gran).gens[g].closed == s.gens[g].closed
  {
    assert PcOf(s, m.thread).Closing? ==> ThreadInv(s, PcOf(s, m.thread));
  }

  lemma SafeKept(s: State, m: Move, gran: Granularity, g: nat)
    requires Inv(s) && Safe(s, g)
    ensures Safe(Next(s, m, gran), g)
  {
    if NobodyInside(s, g) {
      NobodyInsideKept(s, m, gran, g);
    } else {
      NoStaleReleaseKept(s, m, gran, g);
      OnlyStaleReleaseCloses(s, m, gran, g);
    }
  }

  /** A swap without risk leaves the old generation safe. */
  lemma SwapMakesSafe(s: State, m: Move, gran: Granularity)
    requires Inv(s) && Swaps(s, m) && !RiskAtSwap(s)
    ensures Safe(Next(s, m, gran), s.gen)
  {
    assert CountInv(s, s.gen);
    assert forall t <- s.pc :: ThreadInv(s, s.pc[t]);
  }

  lemma {:induction false} StaysSafe(
    states: seq<State>, moves: seq<Move>, gran: Granularity, g: nat, i: nat, j: nat)
    requires IsRun(states, moves, gran) && i <= j <= |moves| && Safe(states[i], g)
    ensures Safe(states[j], g)
  {
    hide Safe, Next;
    if i < j {
      StaysSafe(states, moves, gran, g, i, j - 1);
      RunInv(states, moves, gran, j - 1);
      SafeKept(states[j - 1], moves[j - 1], gran, g);
    }
  }

  lemma SafeStep(s: State, m: Move, gran: Granularity)
    requires Inv(s) && (forall g: nat | g < |s.gens| && g != s.gen :: Safe(s, g))
    requires Swaps(s, m) ==> !RiskAtSwap(s)
    ensures var s' := Next(s, m, gran); forall g: nat | g < |s'.gens| && g != s'.gen :: Safe(s', g)
  {
    var s' := Next(s, m, gran);
    forall g: nat | g < |s'.gens| && g != s'.gen ensures Safe(s', g) {
      if g == s.gen {
        SwapMakesSafe(s, m, gran);
      } else {
        SafeKept(s, m, gran, g);
      }
    }
  }

  lemma {:induction false} AllSafe(states: seq<State>, moves: seq<Move>, gran: Granularity, n: nat)
    requires IsRun(states, moves, gran) && n <= |moves|
    requires forall i | 0 <= i < n && Swaps(states[i], moves[i]) :: !RiskAtSwap(states[i])
    ensures forall g: nat | g < |states[n].gens| && g != states[n].gen :: Safe(states[n], g)
  {
    if n > 0 {
      AllSafe(states, moves, gran, n - 1);
      RunInv(states, moves, gran, n - 1);
      SafeStep(states[n - 1], moves[n - 1], gran);
    }
  }

  /** If no swap of a run happens at risk, the promise holds all along it. */
  lemma PromiseWithoutRisk(states: seq<State>, moves: seq<Move>, gran: Granularity, n: nat)
    requires IsRun(states, moves, gran) && n <= |moves|
    requires forall i | 0 <= i < n && Swaps(states[i], moves[i]) :: !RiskAtSwap(states[i])
    ensures Promise(states[n])
  {
    AllSafe(states, moves, gran, n);
    RunInv(states, moves, gran, n);
    var s := states[n];
    assert CountInv(s, s.gen);
    forall g: nat | g < |s.gens| ensures PromiseFor(s, g) {
      assert g != s.gen ==> Safe(s, g);
    }
  }

  /** The run goes on from the end of `moves` with the move `m`. */
  ghost predicate Continues(
    states: seq<State>, moves: seq<Move>, m: Move, states': seq<State>, moves': seq<Move>)
  {
    IsRun(states', moves', Split) && states <= states' && moves + [m] <= moves'
  }

  /** The exact condition, at the moment of the swap. A run that goes on with a swap can end
      up closing the old generation under a Handle if and only if the swap is at risk. */
  lemma SwapDecides(states: seq<State>, moves: seq<Move>, m: Move)
    requires IsRun(states, moves, Split) && Swaps(states[|moves|], m)
    ensures var s := states[|moves|];
            (exists states', moves' ::
               Continues(states, moves, m, states', moves') && !PromiseFor(states'[|moves'|], s.gen))
            <==> RiskAtSwap(s)
  {
    var s := states[|moves|];
    RunInv(states, moves, Split, |moves|);
    if RiskAtSwap(s) {
      var states', moves' := CloseUnderHandle(states, moves, m);
    }
    forall states', moves' | Continues(states, moves, m, states', moves') && !RiskAtSwap(s)
      ensures PromiseFor(states'[|moves'|], s.gen)
    {
      SafeContinuation(states, moves, m, states', moves');
    }
  }

  lemma SafeContinuation(
    states: seq<State>, moves: seq<Move>, m: Move, states': seq<State>, moves': seq<Move>)
    requires IsRun(states, moves, Split) && Swaps(states[|moves|], m) && !RiskAtSwap(states[|moves|])
    requires Continues(states, moves, m, states', moves')
    ensures PromiseFor(states'[|moves'|], states[|moves|].gen)
  {
    var n := |moves|;
    RunInv(states, moves, Split, n);
    SwapMakesSafe(states[n], m, Split);
    assert states'[n] == states[n] && moves'[n] == m;
    assert states'[n + 1] == Next(states'[n], moves'[n], Split);
    StaysSafe(states', moves', Split, states[n].gen, n + 1, |moves'|);
  }

  /** A swap at risk, and the four steps that make it fail: swap, retire, and the release that
      finds the generation retired and closes it. */
  lemma CloseUnderHandle(states: seq<State>, moves: seq<Move>, m: Move)
    returns (states': seq<State>, moves': seq<Move>)
    requires IsRun(states, moves, Split)
    requires var s := states[|moves|]; Inv(s) && Swaps(s, m) && RiskAtSwap(s)
    ensures Continues(states, moves, m, states', moves')
    ensures |moves'| == |moves| + 4 && |states'| == |moves'| + 1
    ensures !PromiseFor(states'[|moves'|], states[|moves|].gen)
  {
    hide Next, Repeat;
    var s := states[|moves|];
    var t :| t in s.pc && s.pc[t].ReleasedAtZero? && s.pc[t].g == s.gen;
    var u :| u in s.pc && s.pc[u] == Inside(s.gen);
    SwapRetires(s, m);
    ReleaseCloses(Repeat(s, m, 2), Move(t, Handle), s.gen, u);
    states', moves' := GoOn(states, moves, m, 2);
    states', moves' := GoOn(states', moves', Move(t, Handle), 2);
  }

  lemma SwapRetires(s: State, m: Move)
    requires WellFormed(s) && Swaps(s, m)
    ensures var s' := Repeat(s, m, 2);
            && s.gen < |s'.gens| && s'.gens[s.gen].retired
            && forall t <- s.pc :: t != m.thread ==> t in s'.pc && s'.pc[t] == s.pc[t]
  {
    assert Repeat(s, m, 1) == Next(s, m, Split);
  }

  lemma ReleaseCloses(s: State, m: Move, g: nat, u: nat)
    requires WellFormed(s) && g < |s.gens| && s.gens[g].retired
    requires m.thread in s.pc && s.pc[m.thread].ReleasedAtZero? && s.pc[m.thread].g == g
    requires u in s.pc && s.pc[u] == Inside(g)
    ensures var s' := Repeat(s, m, 2);
            g < |s'.gens| && s'.gens[g].closed && u in s'.pc && s'.pc[u] == Inside(g)
  {
    assert Repeat(s, m, 1) == Next(s, m, Split);
  }

  /** If the release were one step, no swap would be at risk and the promise would hold in
      every run. */
  lemma FusedReleaseKeepsPromise(states: seq<State>, moves: seq<Move>, n: nat)
    requires IsRun(states, moves, Fused) && n <= |moves|
    ensures Promise(states[n])
  {
    forall i | 0 <= i < n ensures !RiskAtSwap(states[i]) {
      NobodyReleasedAtZero(states, moves, i);
    }
    PromiseWithoutRisk(states, moves, Fused, n);
  }

  lemma {:induction false} NobodyReleasedAtZero(states: seq<State>, moves: seq<Move>, n: nat)
    requires IsRun(states, moves, Fused) && n <= |moves|
    ensures forall t <- states[n].pc :: !states[n].pc[t].ReleasedAtZero?
  {
    if n > 0 {
      NobodyReleasedAtZero(states, moves, n - 1);
      assert states[n] == Next(states[n - 1], moves[n - 1], Fused);
    }
  }

  /** With the release split the promise is broken by fifteen steps of three threads:
      thread 1 releases to zero, thread 2 validates the same generation, thread 3 swaps
      it out, and thread 1 then finds it retired and closes it under thread 2. */
  lemma SplitReleaseBreaksPromise()
    ensures exists states, moves ::
              IsRun(states, moves, Split) && |moves| == 15 && !Promise(states[|moves|])
  {
    hide Next, Repeat, IsRun;
    RunOfNothing();
    var s5, one, two := Repeat(INIT, Move(1, Handle), 5), Move(1, Handle), Move(2, Handle);
    HandleValidates(INIT, 1);
    ReleasesToZero(s5, 1);
    var s6 := Repeat(s5, one, 1);
    HandleValidates(s6, 2);
    var ss, ms := GoOn([INIT], [], one, 5);
    ss, ms := GoOn(ss, ms, one, 1);
    ss, ms := GoOn(ss, ms, two, 5);
    var s11 := ss[|ms|];
    assert s11.pc[1] == ReleasedAtZero(0, true) && s11.pc[2] == Inside(0);
    RunInv(ss, ms, Split, |ms|);
    ss, ms := CloseUnderHandle(ss, ms, Move(3, Apply));
    assert !PromiseFor(ss[|ms|], 0);
  }

  lemma RunOfNothing()
    ensures IsRun([INIT], [], Split)
  {
  }

  /** `n` steps of one thread. */
  function Repeat(s: State, m: Move, n: nat): (s': State)
    requires WellFormed(s)
    ensures WellFormed(s')
  {
    if n == 0 then s else Next(Repeat(s, m, n - 1), m, Split)
  }

  /** A run goes on with `n` steps of one thread. */
  lemma {:induction false} GoOn(states: seq<State>, moves: seq<Move>, m: Move, n: nat)
    returns (states': seq<State>, moves': seq<Move>)
    requires |states| == |moves| + 1 && IsRun(states, moves, Split) && WellFormed(states[|moves|])
    ensures IsRun(states', moves', Split) && states <= states' && moves <= moves'
    ensures |moves'| == |moves| + n && |states'| == |moves'| + 1 && states'[|moves'|] == Repeat(states[|moves|], m, n)
    ensures n > 0 ==> moves + [m] <= moves'
  {
    hide Next, IsRun;
    states', moves' := states, moves;
    if n > 0 {
      states', moves' := GoOn(states, moves, m, n - 1);
      states', moves' := OneMore(states', moves', m);
    }
  }

  lemma OneMore(states: seq<State>, moves: seq<Move>, m: Move) returns (states': seq<State>, moves': seq<Move>)
    requires IsRun(states, moves, Split) && WellFormed(states[|moves|])
    ensures moves' == moves + [m] && |states'| == |moves'| + 1 && IsRun(states', moves', Split)
    ensures states' == states + [Next(states[|moves|], m, Split)]
  {
    hide Next;
    states', moves' := states + [Next(states[|moves|], m, Split)], moves + [m];
  }

  /** Five steps take an idle thread from the call of Handle to using the installed
      generation. */
  lemma HandleValidates(s: State, t: nat)
    requires WellFormed(s) && !s.gens[s.gen].retired && PcOf(s, t).Idle?
    ensures Repeat(s, Move(t, Handle), 5) == At(AddRefs(s, s.gen, 1), t, Inside(s.gen))
  {
    hide Next, Repeat;
    var m := Move(t, Handle);
    Unrolled(s, m);
    HandleLoads(s, t);
    HandleAcquires(s, t);
  }

  lemma Unrolled(s: State, m: Move)
    requires WellFormed(s)
    ensures var s3 := Next(Next(Next(s, m, Split), m, Split), m, Split);
            Repeat(s, m, 5) == Next(Next(s3, m, Split), m, Split)
  {
    hide Next;
    var s1 := Next(s, m, Split);
    assert Repeat(s, m, 1) == s1;
    assert Repeat(s, m, 3) == Next(Next(s1, m, Split), m, Split);
  }

  lemma HandleLoads(s: State, t: nat)
    requires WellFormed(s) && !s.gens[s.gen].retired && PcOf(s, t).Idle?
    ensures var m := Move(t, Handle);
            Next(Next(Next(s, m, Split), m, Split), m, Split) == At(s, t, Unretired(s.gen))
  {
    assert At(At(s, t, Looping), t, Loaded(s.gen)) == At(s, t, Loaded(s.gen));
    assert At(At(s, t, Loaded(s.gen)), t, Unretired(s.gen)) == At(s, t, Unretired(s.gen));
  }

  lemma HandleAcquires(s: State, t: nat)
    requires WellFormed(s)
    ensures var m, u := Move(t, Handle), At(s, t, Unretired(s.gen));
            Next(Next(u, m, Split), m, Split) == At(AddRefs(s, s.gen, 1), t, Inside(s.gen))
  {
    var a := AddRefs(s, s.gen, 1);
    assert At(At(a, t, Acquired(s.gen)), t, Inside(s.gen)) == At(a, t, Inside(s.gen));
    assert At(AddRefs(At(s, t, Unretired(s.gen)), s.gen, 1), t, Acquired(s.gen)) == At(a, t, Acquired(s.gen));
  }

  /** One more step, and the only Handle inside has released to zero. */
  lemma ReleasesToZero(s: State, t: nat)
    requires WellFormed(s) && PcOf(s, t) == Inside(s.gen) && s.gens[s.gen].refs == 1
    ensures Repeat(s, Move(t, Handle), 1) == At(AddRefs(s, s.gen, -1), t, ReleasedAtZero(s.gen, true))
  {
    assert Repeat(s, Move(t, Handle), 0) == s;
  }
}
