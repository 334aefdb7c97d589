/** The ISO 8601 duration subset `PT[nH][nM][nS]`, read twice in the program: by the event
    broker (`parseISO8601Duration` of internal/event/util.go), which needs its value, and by
    the configuration validator (`validatePTDuration` of internal/config/config.go), which
    only accepts or refuses it. Parsing of Go durations and of absolute times, and Unicode
    upper-casing, are given from outside. */
module Durations {
  import opened Options
  import opened GoStrings
  import Int64

  const SECOND := 1_000_000_000

  function UnitLength(unit: char): Option<int> {
    match unit
    case 'H' => Some(3600 * SECOND)
    case 'M' => Some(60 * SECOND)
    case 'S' => Some(SECOND)
    case _ => None
  }

  /** The length of the run of digits `s` starts with. */
  function DigitRun(s: string): (n: nat)
    ensures n <= |s| && AllDigits(s[..n]) && (n < |s| ==> !IsDigit(s[n]))
  {
    if s == "" || !IsDigit(s[0]) then 0
    else
      assert s[..1 + DigitRun(s[1..])] == [s[0]] + s[1..][..DigitRun(s[1..])];
      1 + DigitRun(s[1..])
  }

  /** `total += time.Duration(n) * unit`, in 64 bits. */
  function Plus(total: int, n: int, unit: int): (r: int)
    ensures Int64.MIN <= r <= Int64.MAX
  {
    Int64.Wrap(total + Int64.Wrap(n * unit))
  }

  /** The broker's loop: the value so far is kept in 64 bits. */
  function ParseLoop(rest: string, total: int): Option<int>
    decreases |rest|
  {
    if rest == "" then Some(total)
    else
      var i := DigitRun(rest);
      if i == 0 || i >= |rest| then None
      else
        match (Atoi(rest[..i]), UnitLength(rest[i]))
        case (Some(n), Some(unit)) => ParseLoop(rest[i + 1..], Plus(total, n, unit))
        case _ => None
  }

  function ParsePT(rest: string): Option<int> {
    if rest == "" then None else ParseLoop(rest, 0)
  }

  /** The validator's loop. */
  predicate ValidLoop(rest: string)
    decreases |rest|
  {
    rest == "" ||
    var i := DigitRun(rest);
    0 < i < |rest| && UnitLength(rest[i]).Some? && ValidLoop(rest[i + 1..])
  }

  predicate ValidPT(rest: string) { rest != "" && ValidLoop(rest) }

  method CountDigits(rest: string) returns (i: nat)
    ensures i == DigitRun(rest)
  {
    i := 0;
    while i < |rest| && '0' <= rest[i] <= '9'
      invariant i <= |rest| && DigitRun(rest) == i + DigitRun(rest[i..])
    {
      assert rest[i..][1..] == rest[i + 1..];
      i := i + 1;
    }
  }

  /** One turn of the broker's loop once its numeral is read. */
  lemma LoopTurn(rest: string, total: int, n: int)
    requires 0 < DigitRun(rest) < |rest| && Atoi(rest[..DigitRun(rest)]) == Some(n)
    ensures var i := DigitRun(rest);
            ParseLoop(rest, total) ==
              match UnitLength(rest[i])
              case Some(unit) => ParseLoop(rest[i + 1..], Plus(total, n, unit))
              case None => None
  {
  }

  method ParsePTDuration(text: string) returns (r: Option<int>)
    ensures r == ParsePT(text)
  {
    hide Atoi, DigitRun, Plus;
    if text == "" {
      return None;
    }
    var rest, total := text, 0;
    while rest != ""
      invariant ParseLoop(rest, total) == ParseLoop(text, 0)
      decreases |rest|
    {
      var i := CountDigits(rest);
      if i == 0 || i >= |rest| {
        return None;
      }
      var n := Atoi(rest[..i]);
      if n.None? {
        return None;
      }
      LoopTurn(rest, total, n.value);
      var unit := rest[i];
      rest := rest[i + 1..];
      match unit {
        case 'H' => total := Plus(total, n.value, 3600 * SECOND);
        case 'M' => total := Plus(total, n.value, 60 * SECOND);
        case 'S' => total := Plus(total, n.value, SECOND);
        case _ => return None;
      }
    }
    r := Some(total);
  }

  method ValidatePTDuration(text: string) returns (ok: bool)
    ensures ok == ValidPT(text)
  {
    hide DigitRun;
    if text == "" {
      return false;
    }
    var rest := text;
    while rest != ""
      invariant ValidLoop(rest) == ValidLoop(text)
      decreases |rest|
    {
      var i := CountDigits(rest);
      if i == 0 || i >= |rest| {
        return false;
      }
      var unit := rest[i];
      rest := rest[i + 1..];
      if unit != 'H' && unit != 'M' && unit != 'S' {
        return false;
      }
    }
    ok := true;
  }

  // ---------- the two readings agree -----------------------------------------------------

  /** Every numeral of a valid duration fits a Go int. */
  predicate NumeralsFit(rest: string)
    requires ValidLoop(rest)
    decreases |rest|
  {
    rest == "" ||
    var i := DigitRun(rest);
    DigitsValue(rest[..i]) <= Int64.MAX && NumeralsFit(rest[i + 1..])
  }

  /** The sum of numeral times unit, over the integers. */
  function ExactSum(rest: string): int
    requires ValidLoop(rest)
    decreases |rest|
  {
    if rest == "" then 0
    else
      var i := DigitRun(rest);
      DigitsValue(rest[..i]) * UnitLength(rest[i]).value + ExactSum(rest[i + 1..])
  }

  lemma AtoiOfDigits(s: string)
    requires s != "" && AllDigits(s)
    ensures Atoi(s) == if DigitsValue(s) <= Int64.MAX then Some(DigitsValue(s)) else None
  {
    assert s[0] in s;
  }

  lemma PlusThen(total: int, n: int, unit: int, more: int)
    requires Int64.MIN <= total <= Int64.MAX
    ensures Int64.Wrap(Plus(total, n, unit) + more) == Int64.Wrap(total + (n * unit + more))
  {
    Int64.WrapSum(total, n * unit);
    Int64.WrapSum(total + n * unit, more);
    Int64.WrapSum(Plus(total, n, unit), more);
    assert total + n * unit + more == total + (n * unit + more);
  }

  lemma {:induction false} AcceptanceAgrees(rest: string, total: int)
    ensures ParseLoop(rest, total).Some? <==> ValidLoop(rest) && NumeralsFit(rest)
    decreases |rest|
  {
    if rest != "" {
      var i := DigitRun(rest);
      if 0 < i < |rest| {
        AtoiOfDigits(rest[..i]);
        if Atoi(rest[..i]).Some? && UnitLength(rest[i]).Some? {
          AcceptanceAgrees(rest[i + 1..], Plus(total, Atoi(rest[..i]).value, UnitLength(rest[i]).value));
        }
      }
    }
  }

  /** The first numeral and unit of an accepted text, and what follows them. */
  lemma FirstTerm(rest: string, total: int) returns (n: int, unit: int, more: string)
    requires rest != "" && ValidLoop(rest) && NumeralsFit(rest)
    ensures |more| < |rest| && ValidLoop(more) && NumeralsFit(more)
    ensures ParseLoop(rest, total) == ParseLoop(more, Plus(total, n, unit))
    ensures ExactSum(rest) == n * unit + ExactSum(more)
  {
    var i := DigitRun(rest);
    AtoiOfDigits(rest[..i]);
    n, unit, more := DigitsValue(rest[..i]), UnitLength(rest[i]).value, rest[i + 1..];
  }

  lemma {:induction false} ValueIsWrappedSum(rest: string, total: int)
    requires Int64.MIN <= total <= Int64.MAX && ValidLoop(rest) && NumeralsFit(rest)
    ensures ParseLoop(rest, total) == Some(Int64.Wrap(total + ExactSum(rest)))
    decreases |rest|
  {
    if rest != "" {
      var n, unit, more := FirstTerm(rest, total);
      ValueIsWrappedSum(more, Plus(total, n, unit));
      PlusThen(total, n, unit, ExactSum(more));
    }
  }

  /** The broker accepts a PT duration exactly when the validator does and its numerals fit
      an int; its value is the exact sum modulo 2^64, so the exact sum whenever that is a
      Duration. */
  lemma ParserAndValidatorAgree(rest: string)
    ensures ParsePT(rest).Some? <==> ValidPT(rest) && NumeralsFit(rest)
    ensures ParsePT(rest).Some? ==> ParsePT(rest).value == Int64.Wrap(ExactSum(rest))
    ensures ParsePT(rest).Some? && ExactSum(rest) <= Int64.MAX ==> ParsePT(rest).value == ExactSum(rest)
  {
    AcceptanceAgrees(rest, 0);
    if ParsePT(rest).Some? {
      ValueIsWrappedSum(rest, 0);
      ExactSumNonnegative(rest);
    }
  }

  lemma {:induction false} ExactSumNonnegative(rest: string)
    requires ValidLoop(rest)
    ensures ExactSum(rest) >= 0
    decreases |rest|
  {
    if rest != "" { ExactSumNonnegative(rest[DigitRun(rest) + 1..]); }
  }

  // ---------- what a duration means ------------------------------------------------------

  /** One part of a printed duration, which may be left out. */
  function Part(n: Option<nat>, unit: char): string {
    match n
    case None => ""
    case Some(v) => Itoa(v) + [unit]
  }

  function OrZero(n: Option<nat>): nat { if n.Some? then n.value else 0 }

  lemma {:induction false} DigitRunOf(digits: string, rest: string)
    requires AllDigits(digits) && rest != "" && !IsDigit(rest[0])
    ensures DigitRun(digits + rest) == |digits|
  {
    if digits == "" {
      assert digits + rest == rest;
    } else {
      assert digits[0] in digits;
      assert (digits + rest)[1..] == digits[1..] + rest;
      DigitRunOf(digits[1..], rest);
    }
  }

  lemma {:induction false} DigitRunAtUnit(n: nat, unit: char, rest: string)
    requires unit == 'H' || unit == 'M' || unit == 'S'
    ensures var s := Itoa(n) + [unit] + rest; var i := DigitRun(s);
            0 < i < |s| && s[..i] == Itoa(n) && s[i] == unit && s[i + 1..] == rest
  {
    hide Itoa;
    assert Itoa(n) + [unit] + rest == Itoa(n) + ([unit] + rest);
    DigitRunOf(Itoa(n), [unit] + rest);
  }

  /** Reading one part adds its numeral times so many seconds. */
  lemma PartRead(n: Option<nat>, unit: char, seconds: nat, rest: string, total: nat)
    requires (unit == 'H' && seconds == 3600) || (unit == 'M' && seconds == 60) || (unit == 'S' && seconds == 1)
    requires total + OrZero(n) * seconds * 1_000_000_000 <= Int64.MAX
    ensures ParseLoop(Part(n, unit) + rest, total) == ParseLoop(rest, total + OrZero(n) * seconds * 1_000_000_000)
  {
    hide Itoa, Atoi, DigitRun, ParseLoop;
    if n.None? {
      assert "" + rest == rest;
    } else {
      NumeralFits(n.value, seconds, total);
      DigitRunAtUnit(n.value, unit, rest);
      AtoiItoa(n.value);
      LoopTurn(Itoa(n.value) + [unit] + rest, total, n.value);
      assert n.value * (seconds * 1_000_000_000) == n.value * seconds * 1_000_000_000;
    }
  }

  lemma NumeralFits(n: nat, seconds: nat, total: nat)
    requires seconds > 0 && total + n * seconds * 1_000_000_000 <= Int64.MAX
    ensures n <= n * seconds <= n * seconds * 1_000_000_000 <= Int64.MAX
  {
  }

  lemma LoopEnds(total: int)
    ensures ParseLoop("", total) == Some(total)
  {
  }

  /** A duration of hours, minutes and seconds, any of them left out but not all, is read as
      that long, whenever it fits a Duration. */
  lemma PTMeans(hours: Option<nat>, minutes: Option<nat>, seconds: Option<nat>)
    requires hours.Some? || minutes.Some? || seconds.Some?
    requires (3600 * OrZero(hours) + 60 * OrZero(minutes) + OrZero(seconds)) * 1_000_000_000 <= Int64.MAX
    ensures ParsePT(Part(hours, 'H') + Part(minutes, 'M') + Part(seconds, 'S'))
         == Some((3600 * OrZero(hours) + 60 * OrZero(minutes) + OrZero(seconds)) * 1_000_000_000)
  {
    hide ParseLoop, Itoa;
    var h, m, s := Part(hours, 'H'), Part(minutes, 'M'), Part(seconds, 'S');
    var a := OrZero(hours) * 3600 * 1_000_000_000;
    var b := a + OrZero(minutes) * 60 * 1_000_000_000;
    PartRead(hours, 'H', 3600, m + s, 0);
    PartRead(minutes, 'M', 60, s, a);
    PartRead(seconds, 'S', 1, "", b);
    LoopEnds(b + OrZero(seconds) * 1 * 1_000_000_000);
    assert h + m + s == h + (m + s) && s + "" == s && h + m + s != "";
  }

  /** The parts of the time and strings packages that are not modelled. */
  datatype Env = Env(goDuration: string -> Option<int>, absolute: string -> Option<int>, upper: string -> string)

  /** `parseISO8601Duration`. */
  function ParseDuration(env: Env, s: string): Option<int> {
    if s == "" then None
    else if env.goDuration(s).Some? then env.goDuration(s)
    else if !("PT" <= env.upper(s)) then env.absolute(s)
    else ParsePT(env.upper(s)[2..])
  }

  /** `isValidSubscriptionTimeout`. */
  predicate ValidTimeout(env: Env, s: string) {
    env.goDuration(s).Some? || ("PT" <= env.upper(s) && ValidPT(env.upper(s)[2..]))
  }

  /** A non-empty timeout that the validator accepts is understood by the broker, unless a
      numeral is too large for an int; and what the broker understands but the validator
      refuses can only be an absolute time. */
  lemma TimeoutsAgree(env: Env, s: string)
    requires s != ""
    ensures ValidTimeout(env, s) && env.goDuration(s).None? ==>
              (ParseDuration(env, s).Some? <==> NumeralsFit(env.upper(s)[2..]))
    ensures env.goDuration(s).Some? ==> ParseDuration(env, s) == env.goDuration(s)
    ensures ParseDuration(env, s).Some? && !ValidTimeout(env, s) ==>
              !("PT" <= env.upper(s)) && ParseDuration(env, s) == env.absolute(s)
    ensures env.goDuration(s).None? && !("PT" <= env.upper(s)) ==>
              ParseDuration(env, s) == env.absolute(s) && !ValidTimeout(env, s)
    ensures ParseDuration(env, "") == None
  {
    if "PT" <= env.upper(s) { ParserAndValidatorAgree(env.upper(s)[2..]); }
  }
}
