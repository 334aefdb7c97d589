/** internal/rtsp/looper.go: the RTP timestamps of a looped file. Opening and parsing the
    file, pacing, encoding and writing are left out: a sample comes with its duration and
    with what becomes of it. */
module Looper {

  const WORD := 0x1_0000_0000
  const CLOCK_RATE := 90000

  type Uint32 = x: int | 0 <= x < WORD

  /** A sample is skipped when it holds no NAL units, is sent as some packets, or ends the
      playback with an error or a cancellation, possibly after some of its packets. A file
      that cannot be opened or parsed is a pass that breaks at once. */
  datatype Play = Skipped | Sent(packets: nat) | Broken(packets: nat)

  datatype Sample = Sample(duration: Uint32, play: Play)

  /** `scale90k`: a duration in ticks of the 90 kHz clock, saturating at 32 bits. */
  function Scale90k(duration: Uint32, timeScale: Uint32): Uint32 {
    if timeScale == 0 then 0
    else
      var scaled := duration * CLOCK_RATE / timeScale;
      if scaled > WORD - 1 then WORD - 1 else scaled
  }

  function Repeat<T>(n: nat, x: T): (r: seq<T>)
    ensures |r| == n && forall k | 0 <= k < n :: r[k] == x
  {
    seq(n, _ => x)
  }

  /** One pass over the file, and what its first `n` samples amount to. */
  datatype Pass = Pass(samples: seq<Sample>, timeScale: Uint32) {
    predicate Completes(n: nat)
      requires n <= |samples|
    {
      forall i | 0 <= i < n :: !samples[i].play.Broken?
    }

    /** The 90 kHz time that they take, over the integers. */
    function Ticks(n: nat): int
      requires n <= |samples|
    {
      if n == 0 then 0 else Ticks(n - 1) + Scale90k(samples[n - 1].duration, timeScale)
    }

    /** The times of their packets, over the integers, when the pass starts at time `t`:
        each sample plays when the ones before it have played. */
    function Times(n: nat, t: int): seq<int>
      requires n <= |samples|
    {
      if n == 0 then []
      else if !Completes(n - 1) || samples[n - 1].play.Skipped? then Times(n - 1, t)
      else Times(n - 1, t) + Repeat(samples[n - 1].play.packets, t + Ticks(n - 1))
    }

    /** The time of the last one sent, or `t` if there is none. */
    function LastTime(n: nat, t: int): int
      requires n <= |samples|
    {
      if n == 0 then t
      else if Completes(n - 1) && samples[n - 1].play.Sent? then t + Ticks(n - 1)
      else LastTime(n - 1, t)
    }

    predicate Whole() { Completes(|samples|) }

    function AllTimes(t: int): seq<int> { Times(|samples|, t) }
  }

  /** When pass `n` starts: one tick after the last sample sent before it. */
  function Start(passes: seq<Pass>, t: int, n: nat): int
    requires n <= |passes|
  {
    if n == 0 then t
    else
      var p := passes[n - 1];
      p.LastTime(|p.samples|, Start(passes, t, n - 1)) + 1
  }

  /** How many passes are played: all, or as many as it takes until one breaks. */
  function Played(passes: seq<Pass>): (n: nat)
    ensures n <= |passes|
    ensures forall i | 0 <= i < n - 1 :: passes[i].Whole()
    ensures n < |passes| ==> n > 0 && !passes[n - 1].Whole()
  {
    if passes == [] then 0
    else if !passes[0].Whole() then 1
    else 1 + Played(passes[1..])
  }

  predicate AllWhole(passes: seq<Pass>, n: nat)
    requires n <= |passes|
  {
    n == 0 || (passes[n - 1].Whole() && AllWhole(passes, n - 1))
  }

  lemma {:induction false} EachWhole(passes: seq<Pass>, n: nat)
    requires n <= |passes| && AllWhole(passes, n)
    ensures forall i | 0 <= i < n :: passes[i].Whole()
  {
    if n > 0 { EachWhole(passes, n - 1); }
  }

  /** RTP timestamps are the times modulo 2^32. */
  ghost predicate Stamped(stamps: seq<Uint32>, times: seq<int>) {
    |stamps| == |times| && forall k | 0 <= k < |times| :: stamps[k] == Low32(times[k])
  }

  function Low32(x: int): Uint32 { x % WORD }

  lemma {:induction false} StopsAtBreak(p: Pass, t: int, i: nat, n: nat)
    requires i < n <= |p.samples| && p.samples[i].play.Broken?
    ensures p.Times(n, t) == p.Times(i + 1, t) && p.LastTime(n, t) == p.LastTime(i + 1, t)
  {
    if i + 1 < n { StopsAtBreak(p, t, i, n - 1); }
  }

  lemma AddLow32(base: Uint32, elapsed: Uint32, step: Uint32, time: int)
    requires Low32(base + elapsed) == Low32(time)
    ensures Low32(base + Low32(elapsed + step)) == Low32(time + step)
  {
  }

  lemma FixedLow32(x: Uint32)
    ensures Low32(x) == x
  {
  }

  lemma NextLow32(ts: Uint32, last: int)
    requires ts == Low32(last)
    ensures Low32((ts as int) + 1) == Low32(last + 1)
  {
  }

  lemma StampMore(stamps: seq<Uint32>, times: seq<int>, n: nat, time: int)
    requires Stamped(stamps, times)
    ensures Stamped(stamps + Repeat(n, Low32(time)), times + Repeat(n, time))
  {
  }

  method PlayOnce(p: Pass, baseTS: Uint32, ghost t: int)
    returns (next: Uint32, emitted: seq<Uint32>, ok: bool)
    requires baseTS == Low32(t)
    ensures Stamped(emitted, p.AllTimes(t))
    ensures ok <==> p.Whole()
    ensures next == Low32(p.LastTime(|p.samples|, t) + if ok then 1 else 0)
  {
    hide Scale90k, Low32;
    FixedLow32(baseTS);
    var elapsed90k: Uint32, lastTS := 0, baseTS;
    emitted := [];
    for i := 0 to |p.samples|
      invariant p.Completes(i)
      invariant Low32(baseTS + elapsed90k) == Low32(t + p.Ticks(i))
      invariant lastTS == Low32(p.LastTime(i, t))
      invariant Stamped(emitted, p.Times(i, t))
    {
      var ts := Low32(baseTS + elapsed90k);
      match p.samples[i].play {
        case Broken(packets) =>
          StampMore(emitted, p.Times(i, t), packets, t + p.Ticks(i));
          StopsAtBreak(p, t, i, |p.samples|);
          return lastTS, emitted + Repeat(packets, ts), false;
        case Sent(packets) =>
          StampMore(emitted, p.Times(i, t), packets, t + p.Ticks(i));
          emitted := emitted + Repeat(packets, ts);
          lastTS := ts;
        case Skipped =>
      }
      var step := Scale90k(p.samples[i].duration, p.timeScale);
      AddLow32(baseTS, elapsed90k, step, t + p.Ticks(i));
      elapsed90k := Low32(elapsed90k + step);
    }
    NextLow32(lastTS, p.LastTime(|p.samples|, t));
    return Low32((lastTS as int) + 1), emitted, true;
  }

  lemma PlayedUpTo(passes: seq<Pass>, n: nat)
    requires n <= |passes| && AllWhole(passes, if n > 0 then n - 1 else 0)
    requires n == |passes| || (n > 0 && !passes[n - 1].Whole())
    ensures Played(passes) == n
  {
    if n > 0 { EachWhole(passes, n - 1); }
  }

  /** `emitted` are the timestamps of the first passes. */
  ghost predicate StampedPasses(emitted: seq<seq<Uint32>>, passes: seq<Pass>, t: int) {
    emitted == [] ||
    var n := |emitted| - 1;
    && n < |passes|
    && Stamped(emitted[n], passes[n].AllTimes(Start(passes, t, n)))
    && StampedPasses(emitted[..n], passes, t)
  }

  lemma {:induction false} EachStamped(emitted: seq<seq<Uint32>>, passes: seq<Pass>, t: int, i: nat)
    requires i < |emitted| <= |passes| && StampedPasses(emitted, passes, t)
    ensures Stamped(emitted[i], passes[i].AllTimes(Start(passes, t, i)))
    decreases |emitted|
  {
    var n := |emitted| - 1;
    if i < n {
      EachStamped(emitted[..n], passes, t, i);
      assert emitted[..n][i] == emitted[i];
    }
  }

  /** Run plays pass after pass until one fails. */
  method Run(passes: seq<Pass>, startTS: Uint32) returns (emitted: seq<seq<Uint32>>)
    ensures |emitted| == Played(passes) && StampedPasses(emitted, passes, startTS)
  {
    emitted := [];
    var rtpOffset := startTS;
    for i := 0 to |passes|
      invariant AllWhole(passes, i)
      invariant rtpOffset == Low32(Start(passes, startTS, i))
      invariant |emitted| == i
      invariant StampedPasses(emitted, passes, startTS)
    {
      var next, stamps, ok := PlayOnce(passes[i], rtpOffset, Start(passes, startTS, i));
      assert (emitted + [stamps])[..i] == emitted;
      emitted := emitted + [stamps];
      if !ok {
        PlayedUpTo(passes, i + 1);
        return;
      }
      rtpOffset := next;
    }
    PlayedUpTo(passes, |passes|);
  }

  // ---------- when each sample plays -------------------------------------------------------

  /** The packets of the first `n` samples. */
  function Packets(p: Pass, n: nat): nat
    requires n <= |p.samples|
  {
    if n == 0 then 0 else Packets(p, n - 1) + if p.samples[n - 1].play.Sent? then p.samples[n - 1].play.packets else 0
  }

  /** Every packet of a sample is stamped with the time the samples before it take, counted
      from the start of the pass: the first one with the start itself. */
  lemma {:induction false} SamplePlaysAt(p: Pass, n: nat, t: int, k: nat, q: nat)
    requires k < n <= |p.samples| && p.Completes(n) && p.samples[k].play.Sent? && q < p.samples[k].play.packets
    ensures |p.Times(n, t)| == Packets(p, n) && Packets(p, k) + q < Packets(p, n)
    ensures p.Times(n, t)[Packets(p, k) + q] == t + p.Ticks(k)
  {
    TimesLength(p, n - 1, t);
    if k < n - 1 { SamplePlaysAt(p, n - 1, t, k, q); }
  }

  lemma {:induction false} TimesLength(p: Pass, n: nat, t: int)
    requires n <= |p.samples| && p.Completes(n)
    ensures |p.Times(n, t)| == Packets(p, n)
  {
    if n > 0 { TimesLength(p, n - 1, t); }
  }

  /** A pass starts exactly one tick after the last packet of the pass before it, if the last
      sample that was sent had any. */
  lemma NextStart(passes: seq<Pass>, t: int, i: nat)
    requires i < |passes| && passes[i].Whole() && passes[i].AllTimes(Start(passes, t, i)) != []
    requires forall s <- passes[i].samples :: s.play.Sent? ==> s.play.packets > 0
    ensures var times := passes[i].AllTimes(Start(passes, t, i));
            Start(passes, t, i + 1) == times[|times| - 1] + 1
  {
    LastIsLast(passes[i], |passes[i].samples|, Start(passes, t, i));
  }

  lemma {:induction false} LastIsLast(p: Pass, n: nat, t: int)
    requires n <= |p.samples| && p.Completes(n)
    requires forall s <- p.samples :: s.play.Sent? ==> s.play.packets > 0
    ensures p.LastTime(n, t) == if p.Times(n, t) == [] then t else p.Times(n, t)[|p.Times(n, t)| - 1]
  {
    if n > 0 {
      LastIsLast(p, n - 1, t);
      assert p.samples[n - 1] in p.samples;
    }
  }

  /** A file without a time scale stands still, and a duration too long for 32 bits saturates. */
  lemma ScaleEdges(duration: Uint32, timeScale: Uint32)
    ensures timeScale == 0 ==> Scale90k(duration, timeScale) == 0
    ensures timeScale > 0 && duration * 90000 / timeScale > 0xffff_ffff ==> Scale90k(duration, timeScale) == 0xffff_ffff
  {
  }

  // ---------- monotonic across rewinds ----------------------------------------------------

  predicate Nondecreasing(xs: seq<int>) {
    forall i, j | 0 <= i < j < |xs| :: xs[i] <= xs[j]
  }

  /** `hi` bounds all of `xs`, so repeating it keeps the order. */
  lemma AppendLargest(xs: seq<int>, n: nat, hi: int)
    requires Nondecreasing(xs) && forall x <- xs :: x <= hi
    ensures Nondecreasing(xs + Repeat(n, hi)) && forall x <- xs + Repeat(n, hi) :: x <= hi
  {
    forall i, j | 0 <= i < j < |xs| + n ensures (xs + Repeat(n, hi))[i] <= (xs + Repeat(n, hi))[j] {
      assert i < |xs| ==> xs[i] in xs;
    }
  }

  /** Times never go back, and lie between the start of the pass and the time its samples
      take; in a pass that does not break, none is after the last sample sent. */
  lemma {:induction false} PassTimes(p: Pass, n: nat, t: int)
    requires n <= |p.samples|
    ensures Nondecreasing(p.Times(n, t))
    ensures forall x <- p.Times(n, t) :: t <= x <= t + p.Ticks(n)
    ensures p.Completes(n) ==> forall x <- p.Times(n, t) :: x <= p.LastTime(n, t)
    ensures t <= p.LastTime(n, t) && p.Ticks(n) >= 0
  {
    if n > 0 {
      PassTimes(p, n - 1, t);
      if p.Completes(n - 1) && !p.samples[n - 1].play.Skipped? {
        AppendLargest(p.Times(n - 1, t), p.samples[n - 1].play.packets, t + p.Ticks(n - 1));
      }
    }
  }

  /** A later pass starts after everything an earlier one sent. */
  lemma {:induction false} StartsGrow(passes: seq<Pass>, t: int, i: nat, j: nat)
    requires i < j <= |passes|
    ensures passes[i].LastTime(|passes[i].samples|, Start(passes, t, i)) < Start(passes, t, j)
  {
    if i < j - 1 {
      StartsGrow(passes, t, i, j - 1);
      PassTimes(passes[j - 1], |passes[j - 1].samples|, Start(passes, t, j - 1));
    }
  }

  /** Within a pass the times never go back, and every time in a later pass is strictly
      after every time in an earlier one: the file's rewinds are invisible. */
  lemma MonotonicAcrossRewinds(passes: seq<Pass>, t: int, i: nat, j: nat)
    requires i <= j < Played(passes)
    ensures Nondecreasing(passes[i].AllTimes(Start(passes, t, i)))
    ensures i < j ==> forall x, y | x in passes[i].AllTimes(Start(passes, t, i))
                                 && y in passes[j].AllTimes(Start(passes, t, j)) :: x < y
  {
    PassTimes(passes[i], |passes[i].samples|, Start(passes, t, i));
    PassTimes(passes[j], |passes[j].samples|, Start(passes, t, j));
    if i < j {
      assert passes[i].Whole();
      StartsGrow(passes, t, i, j);
    }
  }

  /** What Run sends: the timestamps of each pass are the low 32 bits of times that never go
      back within the pass and, in a later pass, are strictly larger. */
  lemma RunNeverGoesBack(emitted: seq<seq<Uint32>>, passes: seq<Pass>, startTS: int, i: nat, j: nat)
    requires |emitted| == Played(passes) && StampedPasses(emitted, passes, startTS) && i <= j < |emitted|
    ensures var a := passes[i].AllTimes(Start(passes, startTS, i));
            var b := passes[j].AllTimes(Start(passes, startTS, j));
            && Stamped(emitted[i], a) && Stamped(emitted[j], b)
            && Nondecreasing(a) && Nondecreasing(b)
            && (i < j ==> forall x, y | x in a && y in b :: x < y)
  {
    hide Stamped, Nondecreasing;
    EachStamped(emitted, passes, startTS, i);
    EachStamped(emitted, passes, startTS, j);
    MonotonicAcrossRewinds(passes, startTS, i, j);
    MonotonicAcrossRewinds(passes, startTS, j, j);
  }

  // ---------- drift ------------------------------------------------------------------------

  /** The duration of the first `n` samples, in units of the file's time scale. */
  function Duration(p: Pass, n: nat): int
    requires n <= |p.samples|
  {
    if n == 0 then 0 else Duration(p, n - 1) + p.samples[n - 1].duration
  }

  predicate NoSaturation(p: Pass, n: nat)
    requires p.timeScale > 0 && n <= |p.samples|
  {
    forall i | 0 <= i < n :: p.samples[i].duration * CLOCK_RATE / p.timeScale < WORD
  }

  lemma ScaleRounds(d: Uint32, timeScale: Uint32)
    requires timeScale > 0 && d * CLOCK_RATE / timeScale < WORD
    ensures timeScale * Scale90k(d, timeScale) <= d * CLOCK_RATE < timeScale * (Scale90k(d, timeScale) + 1)
  {
  }

  lemma AddRounded(a: int, b: int, n: int, timeScale: int)
    ensures timeScale * (a + b) == timeScale * a + timeScale * b
    ensures timeScale * (a + b + n) == timeScale * (a + (n - 1)) + timeScale * (b + 1)
  {
  }

  /** After `n` samples without saturation, the accumulated time is at most the exact one
      and, for n > 0, less than `n` ticks behind it. */
  lemma {:induction false} DriftBelowOneTickASample(p: Pass, n: nat)
    requires n <= |p.samples| && p.timeScale > 0 && NoSaturation(p, n)
    ensures p.timeScale * p.Ticks(n) <= Duration(p, n) * 90000
    ensures n > 0 ==> Duration(p, n) * 90000 < p.timeScale * (p.Ticks(n) + n)
  {
    if n > 0 {
      DriftBelowOneTickASample(p, n - 1);
      var d := p.samples[n - 1].duration;
      ScaleRounds(d, p.timeScale);
      AddRounded(p.Ticks(n - 1), Scale90k(d, p.timeScale), n, p.timeScale);
    }
  }
}
