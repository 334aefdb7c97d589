/** internal/auth/username_token.go: WS-Security UsernameToken validation. A digest token
    is refused when its Created timestamp is more than `skew` away from the clock, or when
    the nonce cache has seen its nonce and timestamp within `ttl`. The two windows must fit
    for the replay check to mean anything; this module says exactly when they do.

    A request reads the clock twice, for the timestamp test and again for the cache, and
    looks the user up in between. Finding the token in the SOAP body is left out: a request
    is the token found, with the answer of the user store. How timestamps parse, how nonces
    decode and how digests are computed is given from outside. */
module UsernameTokens {
  import opened Options
  import opened NonceCaches
  import Int64

  const MAX_DURATION := Int64.MAX
  const MIN_DURATION := Int64.MIN

  /** `time.Time.Sub` saturates at the ends of the Duration range. */
  function Sub(t: int, u: int): int {
    if t - u > MAX_DURATION then MAX_DURATION
    else if t - u < MIN_DURATION then MIN_DURATION
    else t - u
  }

  /** `absDuration` negates in 64 bits, so the least Duration stays negative. */
  function AbsDuration(d: int): int {
    if d < 0 then Int64.Wrap(-d) else d
  }

  datatype PasswordType = PasswordDigest | PasswordText | UnknownType

  datatype Lookup = Known(password: string) | UnknownUser | StoreError

  datatype Token = Token(
    nonce: string, created: string, passwordType: PasswordType, password: string, lookup: Lookup)

  datatype Outcome = Accepted | ClockSkew | InvalidCredentials | LookupFailed | ReplayedNonce

  /** Parsing of timestamps, base64 decoding of nonces, and the digest of a decoded nonce, a
      timestamp and a password. */
  datatype Env = Env(
    parse: string -> Option<int>, decode: string -> Option<string>, hash: (string, string, string) -> string)

  datatype Settings = Settings(skew: int, ttl: int, maxSize: nat, allowText: bool, env: Env)

  /** `verifyPasswordDigest`. */
  predicate DigestMatches(env: Env, tok: Token, password: string) {
    match env.decode(tok.nonce)
    case None => false
    case Some(nonce) => tok.password == env.hash(nonce, tok.created, password)
  }

  function Key(nonce: string, created: string): string { nonce + "|" + created }

  /** The error of `verifyTimestamp`, if any. */
  function TimestampError(cfg: Settings, created: string, now: int): Option<Outcome> {
    if created == "" then None
    else
      match cfg.env.parse(created)
      case None => Some(InvalidCredentials)
      case Some(c) => if AbsDuration(Sub(now, c)) > cfg.skew then Some(ClockSkew) else None
  }

  /** What `verifyPassword` may answer and do to the cache; `added` is its clock reading. */
  ghost predicate PasswordChecked(
    cfg: Settings, before: Seen, tok: Token, password: string, added: int, outcome: Outcome, after: Seen)
  {
    match tok.passwordType
    case PasswordDigest =>
      if tok.nonce == "" || tok.created == "" then outcome == InvalidCredentials && after == before
      else
        exists ok ::
          && Added(before, Key(tok.nonce, tok.created), added, cfg.ttl, cfg.maxSize, ok, after)
          && outcome == if !ok then ReplayedNonce
                        else if DigestMatches(cfg.env, tok, password) then Accepted
                        else InvalidCredentials
    case PasswordText =>
      after == before && outcome == if cfg.allowText && tok.password == password then Accepted else InvalidCredentials
    case UnknownType => after == before && outcome == InvalidCredentials
  }

  /** What `authenticate` may answer and do to the cache; the clock is read at `checked` for
      the timestamp and at `added` for the cache. */
  ghost predicate Authenticated(
    cfg: Settings, before: Seen, tok: Token, checked: int, added: int, outcome: Outcome, after: Seen)
  {
    match TimestampError(cfg, tok.created, checked)
    case Some(e) => outcome == e && after == before
    case None =>
      match tok.lookup
      case UnknownUser => outcome == InvalidCredentials && after == before
      case StoreError => outcome == LookupFailed && after == before
      case Known(password) => PasswordChecked(cfg, before, tok, password, added, outcome, after)
  }

  class UsernameTokenAuth {
    const skew: int
    const cache: NonceCache
    const allowText: bool
    const env: Env

    /** No cache given: the window of the authenticator's own is twice the skew. */
    constructor WithOwnCache(maxClockSkew: int, allowText: bool, env: Env)
      ensures fresh(cache) && cache.seen == map[]
      ensures Configuration() == DefaultSettings(maxClockSkew, allowText, env)
    {
      var s := if maxClockSkew <= 0 then FIVE_MINUTES else maxClockSkew;
      skew, this.allowText, this.env := s, allowText, env;
      cache := new NonceCache(Int64.Wrap(2 * s));
    }

    constructor WithCache(maxClockSkew: int, cache: NonceCache, allowText: bool, env: Env)
      ensures this.cache == cache
      ensures Configuration() == Settings(if maxClockSkew <= 0 then FIVE_MINUTES else maxClockSkew,
                                          cache.ttl, cache.maxSize, allowText, env)
    {
      skew := if maxClockSkew <= 0 then FIVE_MINUTES else maxClockSkew;
      this.cache, this.allowText, this.env := cache, allowText, env;
    }

    function Configuration(): Settings {
      Settings(skew, cache.ttl, cache.maxSize, allowText, env)
    }

    method VerifyTimestamp(tok: Token, now: int) returns (err: Option<Outcome>)
      ensures err == TimestampError(Configuration(), tok.created, now)
    {
      if tok.created == "" {
        return None;
      }
      var created := env.parse(tok.created);
      if created.None? {
        return Some(InvalidCredentials);
      }
      if AbsDuration(Sub(now, created.value)) > skew {
        return Some(ClockSkew);
      }
      err := None;
    }

    method VerifyPassword(tok: Token, password: string, now: int) returns (outcome: Outcome)
      requires cache.maxSize > 0
      modifies cache`seen
      ensures PasswordChecked(Configuration(), old(cache.seen), tok, password, now, outcome, cache.seen)
    {
      match tok.passwordType {
        case PasswordDigest =>
          if tok.nonce == "" || tok.created == "" {
            return InvalidCredentials;
          }
          var ok := cache.Add(Key(tok.nonce, tok.created), now);
          if !ok {
            return ReplayedNonce;
          }
          outcome := if DigestMatches(env, tok, password) then Accepted else InvalidCredentials;
        case PasswordText =>
          outcome := if allowText && tok.password == password then Accepted else InvalidCredentials;
        case UnknownType =>
          outcome := InvalidCredentials;
      }
    }

    /** `checked` and `added` are what the clock shows when it is read the first and the
        second time. */
    method Authenticate(tok: Token, checked: int, added: int) returns (outcome: Outcome)
      requires cache.maxSize > 0
      modifies cache`seen
      ensures Authenticated(Configuration(), old(cache.seen), tok, checked, added, outcome, cache.seen)
    {
      var err := VerifyTimestamp(tok, checked);
      if err.Some? {
        return err.value;
      }
      match tok.lookup {
        case UnknownUser => outcome := InvalidCredentials;
        case StoreError => outcome := LookupFailed;
        case Known(password) => outcome := VerifyPassword(tok, password, added);
      }
    }
  }

  function DefaultSettings(maxClockSkew: int, allowText: bool, env: Env): Settings {
    var skew := if maxClockSkew <= 0 then FIVE_MINUTES else maxClockSkew;
    var ttl := Int64.Wrap(2 * skew);
    Settings(skew, if ttl <= 0 then FIVE_MINUTES else ttl, MAX_SIZE, allowText, env)
  }

  // ---------- one request --------------------------------------------------------------

  /** The clock difference `d` passes the timestamp test. */
  predicate InTime(d: int, skew: int) {
    -skew <= d <= skew || d <= MIN_DURATION || (d > MAX_DURATION && skew == MAX_DURATION)
  }

  /** The timestamp is left out, or parses and passes the test at clock reading `checked`. */
  predicate OnTime(cfg: Settings, created: string, checked: int) {
    created == "" || (cfg.env.parse(created).Some? && InTime(checked - cfg.env.parse(created).value, cfg.skew))
  }

  /** The cache holds the pair and has not forgotten it at clock reading `added`. */
  predicate Remembered(cfg: Settings, before: Seen, tok: Token, added: int) {
    var key := tok.nonce + "|" + tok.created;
    key in before && added - before[key] <= cfg.ttl
  }

  lemma OnTimeExactly(cfg: Settings, created: string, checked: int)
    requires 0 < cfg.skew <= MAX_DURATION
    ensures TimestampError(cfg, created, checked).None? <==> OnTime(cfg, created, checked)
    ensures TimestampError(cfg, created, checked) == Some(ClockSkew) <==>
            created != "" && cfg.env.parse(created).Some? && !OnTime(cfg, created, checked)
  {
    if created != "" { TimestampTest(cfg, created, checked); }
  }

  /** What acceptance takes, exactly: the timestamp is on time, the user is known with some
      password, and the token proves it. A digest token does with a nonce and a timestamp, not
      seen within the window, and the digest of the decoded nonce, the timestamp and the
      password; a text token with the password itself, if that is allowed. */
  lemma AcceptedExactly(cfg: Settings, before: Seen, q: Request, after: Seen)
    requires Answered(cfg, before, q, after) && 0 < cfg.skew <= MAX_DURATION
    ensures var tok := q.tok;
            q.outcome == Accepted <==>
              && OnTime(cfg, tok.created, q.checked)
              && tok.lookup.Known?
              && (|| (&& tok.passwordType == PasswordDigest
                      && tok.nonce != "" && tok.created != "" && !Remembered(cfg, before, tok, q.added)
                      && cfg.env.decode(tok.nonce).Some?
                      && tok.password
                         == cfg.env.hash(cfg.env.decode(tok.nonce).value, tok.created, tok.lookup.password))
                  || (tok.passwordType == PasswordText && cfg.allowText && tok.password == tok.lookup.password))
  {
    hide TimestampError, OnTime;
    OnTimeExactly(cfg, q.tok.created, q.checked);
    TimestampErrors(cfg, q.tok.created, q.checked);
  }

  /** The other answers: in order, the clock, the user store, a pair still remembered. A digest
      token that gets past them is remembered from then on, matching or not; nothing else is. */
  lemma RefusedExactly(cfg: Settings, before: Seen, q: Request, after: Seen)
    requires Answered(cfg, before, q, after) && 0 < cfg.skew <= MAX_DURATION
    ensures var tok := q.tok; var onTime := OnTime(cfg, tok.created, q.checked);
            var digest := onTime && tok.lookup.Known? && tok.passwordType == PasswordDigest
                          && tok.nonce != "" && tok.created != "";
            && (q.outcome == ClockSkew <==> tok.created != "" && cfg.env.parse(tok.created).Some? && !onTime)
            && (q.outcome == LookupFailed <==> onTime && tok.lookup == StoreError)
            && (q.outcome == ReplayedNonce <==> digest && Remembered(cfg, before, tok, q.added))
            && (if !digest then after == before
                else var key := tok.nonce + "|" + tok.created;
                     key in after && (!Remembered(cfg, before, tok, q.added) ==> after[key] == q.added))
  {
    hide TimestampError, OnTime;
    OnTimeExactly(cfg, q.tok.created, q.checked);
    TimestampErrors(cfg, q.tok.created, q.checked);
  }

  lemma TimestampErrors(cfg: Settings, created: string, checked: int)
    ensures TimestampError(cfg, created, checked) in {None, Some(ClockSkew), Some(InvalidCredentials)}
  {
  }

  // ---------- runs -------------------------------------------------------------------

  datatype Request = Request(tok: Token, checked: int, added: int, outcome: Outcome)

  datatype Run = Run(states: seq<Seen>, requests: seq<Request>)

  /** Request `q` may have led from one cache to the other. */
  ghost predicate Answered(cfg: Settings, before: Seen, q: Request, after: Seen) {
    Authenticated(cfg, before, q.tok, q.checked, q.added, q.outcome, after)
  }

  /** A life of one authenticator: any requests, in the order of their calls of Add, with
      nondecreasing clock readings there. */
  ghost predicate IsLife(cfg: Settings, r: Run) {
    && |r.states| == |r.requests| + 1
    && r.states[0] == map[]
    && (forall i | 0 <= i < |r.requests| :: Answered(cfg, r.states[i], r.requests[i], r.states[i + 1]))
    && (forall i, j | 0 <= i < j < |r.requests| :: r.requests[i].added <= r.requests[j].added)
  }

  /** The clock starts at `floor`, and at most `delay` passes between the two readings of a
      request. Requests may overlap: a timestamp may be tested before an earlier request
      reaches the cache. */
  predicate Clocked(r: Run, floor: int, delay: nat) {
    forall q <- r.requests :: floor <= q.checked <= q.added <= q.checked + delay
  }

  predicate CapNeverReached(cfg: Settings, r: Run)
    requires |r.states| == |r.requests| + 1
  {
    forall i | 0 <= i < |r.requests| :: |Pruned(r.states[i], r.requests[i].added, cfg.ttl)| < cfg.maxSize
  }

  ghost predicate LifeBelowCap(cfg: Settings, r: Run, floor: int, delay: nat) {
    IsLife(cfg, r) && Clocked(r, floor, delay) && CapNeverReached(cfg, r)
  }

  /** Request `i` presented this nonce and timestamp as a digest token and was accepted. */
  predicate AcceptsDigest(r: Run, i: nat, nonce: string, created: string) {
    && i < |r.requests|
    && r.requests[i].outcome == Accepted
    && r.requests[i].tok.passwordType == PasswordDigest
    && r.requests[i].tok.nonce == nonce
    && r.requests[i].tok.created == created
  }

  ghost predicate AcceptsAtMostOnce(r: Run, nonce: string, created: string) {
    forall i: nat, j: nat | AcceptsDigest(r, i, nonce, created) && AcceptsDigest(r, j, nonce, created) :: i == j
  }

  /** The time from the first to the last clock reading, from `floor` on, at which a token
      created at `c` is within the skew; negative if there is none. */
  function WindowWidth(c: int, floor: int, skew: int): int {
    c + skew - if floor > c - skew then floor else c - skew
  }

  /** The timestamp test is a real window around `c`, and the cache remembers for all of its
      width and for the delay until the second clock reading. */
  predicate WindowsFit(c: int, floor: int, skew: int, ttl: int, delay: nat) {
    && c + MIN_DURATION < floor
    && skew < MAX_DURATION
    && (WindowWidth(c, floor, skew) < 0 || WindowWidth(c, floor, skew) + delay <= ttl)
  }

  /** Some digest token with this nonce and timestamp can be accepted at all. */
  predicate Acceptable(env: Env, nonce: string, created: string) {
    nonce != "" && created != "" && env.parse(created).Some? && env.decode(nonce).Some?
  }

  /** Within the Duration range the timestamp test is what it looks like. */
  lemma TimestampTest(cfg: Settings, created: string, now: int)
    requires created != "" && 0 < cfg.skew <= MAX_DURATION
    ensures TimestampError(cfg, created, now).None? <==>
            cfg.env.parse(created).Some? &&
            var d := now - cfg.env.parse(created).value;
            -cfg.skew <= d <= cfg.skew || d <= MIN_DURATION || (d > MAX_DURATION && cfg.skew == MAX_DURATION)
  {
  }

  predicate EvictsBetween(cfg: Settings, r: Run, i: nat, j: nat, key: string)
    requires |r.states| == |r.requests| + 1 && j <= |r.requests|
  {
    exists k | i < k < j :: Evicts(r.states[k], r.requests[k].added, cfg.ttl, r.states[k + 1], key)
  }

  lemma AddedStep(cfg: Settings, before: Seen, q: Request, after: Seen, key: string)
    requires Answered(cfg, before, q, after)
    requires key in Pruned(before, q.added, cfg.ttl) && key in after
    ensures after[key] == before[key]
  {
  }

  lemma {:induction false} KeyStays(cfg: Settings, r: Run, i: nat, j: nat, key: string, at: int)
    requires IsLife(cfg, r) && i < j <= |r.requests|
    requires key in r.states[i + 1] && r.states[i + 1][key] == at
    requires r.requests[j - 1].added - cfg.ttl <= at
    requires !EvictsBetween(cfg, r, i, j, key)
    ensures key in r.states[j] && r.states[j][key] == at
  {
    hide Answered;
    if i + 1 < j {
      KeyStays(cfg, r, i, j - 1, key, at);
      assert !Evicts(r.states[j - 1], r.requests[j - 1].added, cfg.ttl, r.states[j], key);
      AddedStep(cfg, r.states[j - 1], r.requests[j - 1], r.states[j], key);
    }
  }

  /** An accepted digest token passed the timestamp test, was not among the keys still
      within the window, and now is. */
  lemma AcceptedTiming(cfg: Settings, before: Seen, q: Request, after: Seen)
    requires Answered(cfg, before, q, after)
    requires q.outcome == Accepted && q.tok.passwordType == PasswordDigest && 0 < cfg.skew <= MAX_DURATION
    ensures var key := Key(q.tok.nonce, q.tok.created);
            && key !in Pruned(before, q.added, cfg.ttl)
            && key in after && after[key] == q.added
    ensures Acceptable(cfg.env, q.tok.nonce, q.tok.created) &&
            var d := q.checked - cfg.env.parse(q.tok.created).value;
            -cfg.skew <= d <= cfg.skew || d <= MIN_DURATION || (d > MAX_DURATION && cfg.skew == MAX_DURATION)
  {
    assert q.tok.created != "";
    TimestampTest(cfg, q.tok.created, q.checked);
  }

  /** The heart of replay protection, with or without the cap: when the windows fit, a
      token is accepted a second time only if the cache has evicted it in between. */
  lemma SecondAcceptanceNeedsEviction(
    cfg: Settings, r: Run, nonce: string, created: string, floor: int, delay: nat, i: nat, j: nat)
    requires IsLife(cfg, r) && Clocked(r, floor, delay) && 0 < cfg.skew
    requires cfg.env.parse(created).Some?
    requires WindowsFit(cfg.env.parse(created).value, floor, cfg.skew, cfg.ttl, delay)
    requires i < j && AcceptsDigest(r, i, nonce, created) && AcceptsDigest(r, j, nonce, created)
    ensures EvictsBetween(cfg, r, i, j, Key(nonce, created))
  {
    hide Answered, EvictsBetween;
    var key := Key(nonce, created);
    var a, b := r.requests[i], r.requests[j];
    assert a in r.requests && b in r.requests;
    AcceptedTiming(cfg, r.states[i], a, r.states[i + 1]);
    AcceptedTiming(cfg, r.states[j], b, r.states[j + 1]);
    if !EvictsBetween(cfg, r, i, j, key) {
      assert r.requests[j - 1].added <= b.added;
      KeyStays(cfg, r, i, j, key, a.added);
    }
  }

  /** The keys of digest tokens contain a bar, so the empty key never enters the cache. */
  lemma {:induction false} NoEmptyKey(cfg: Settings, r: Run, i: nat)
    requires IsLife(cfg, r) && i <= |r.requests|
    ensures "" !in r.states[i]
  {
    if i > 0 {
      NoEmptyKey(cfg, r, i - 1);
      assert Answered(cfg, r.states[i - 1], r.requests[i - 1], r.states[i]);
    }
  }

  /** So in every life of the authenticator the scan for the oldest entry never goes astray,
      and what the cache evicts is an oldest entry. */
  lemma EvictsOldest(cfg: Settings, r: Run, k: nat, key: string)
    requires IsLife(cfg, r) && k < |r.requests|
    requires Evicts(r.states[k], r.requests[k].added, cfg.ttl, r.states[k + 1], key)
    ensures !Astray(Pruned(r.states[k], r.requests[k].added, cfg.ttl))
    ensures Oldest(Pruned(r.states[k], r.requests[k].added, cfg.ttl), key)
  {
    NoEmptyKey(cfg, r, k);
    assert Answered(cfg, r.states[k], r.requests[k], r.states[k + 1]);
  }

  lemma NoEviction(cfg: Settings, r: Run, i: nat, j: nat, key: string)
    requires IsLife(cfg, r) && CapNeverReached(cfg, r) && j <= |r.requests|
    ensures !EvictsBetween(cfg, r, i, j, key)
  {
    forall k | i < k < j ensures !Evicts(r.states[k], r.requests[k].added, cfg.ttl, r.states[k + 1], key) {
      assert Answered(cfg, r.states[k], r.requests[k], r.states[k + 1]);
    }
  }

  lemma FittingWindowsPreventReplay(
    cfg: Settings, r: Run, nonce: string, created: string, floor: int, delay: nat)
    requires LifeBelowCap(cfg, r, floor, delay) && 0 < cfg.skew && cfg.env.parse(created).Some?
    requires WindowsFit(cfg.env.parse(created).value, floor, cfg.skew, cfg.ttl, delay)
    ensures AcceptsAtMostOnce(r, nonce, created)
  {
    hide Answered, EvictsBetween, CapNeverReached;
    forall i: nat, j: nat | i < j && AcceptsDigest(r, i, nonce, created) && AcceptsDigest(r, j, nonce, created)
      ensures false
    {
      NoEviction(cfg, r, i, j, Key(nonce, created));
      SecondAcceptanceNeedsEviction(cfg, r, nonce, created, floor, delay, i, j);
    }
  }

  /** When the windows do not fit, a token can pass the timestamp test at `t`, and again at
      `checked`, and reach the cache at `added`, when the cache has forgotten it. */
  lemma TwoTimes(cfg: Settings, created: string, floor: int, delay: nat) returns (t: int, checked: int, added: int)
    requires 0 < cfg.skew <= MAX_DURATION && 0 < cfg.ttl <= MAX_DURATION
    requires created != "" && cfg.env.parse(created).Some?
    requires !WindowsFit(cfg.env.parse(created).value, floor, cfg.skew, cfg.ttl, delay)
    ensures floor <= t <= checked <= added <= checked + delay && t + cfg.ttl < added
    ensures TimestampError(cfg, created, t).None? && TimestampError(cfg, created, checked).None?
  {
    var c := cfg.env.parse(created).value;
    if c + MIN_DURATION >= floor {
      t, checked, added := floor, c, c;
    } else if cfg.skew == MAX_DURATION {
      t := if floor > c then floor else c;
      checked, added := t + cfg.ttl + 1, t + cfg.ttl + 1;
    } else {
      t := if floor > c - cfg.skew then floor else c - cfg.skew;
      checked, added := c + cfg.skew, c + cfg.skew + delay;
    }
    TimestampTest(cfg, created, t);
    TimestampTest(cfg, created, checked);
  }

  /** A digest token that matches a user with an empty password. */
  function Matching(env: Env, nonce: string, created: string): Token
    requires env.decode(nonce).Some?
  {
    Token(nonce, created, PasswordDigest, env.hash(env.decode(nonce).value, created, ""), Known(""))
  }

  /** Below the cap a matching token that passes the timestamp test and that the cache does
      not hold any more is accepted. */
  lemma Accepts(cfg: Settings, before: Seen, nonce: string, created: string, checked: int, added: int)
    requires Acceptable(cfg.env, nonce, created) && TimestampError(cfg, created, checked).None?
    requires Key(nonce, created) !in Pruned(before, added, cfg.ttl)
    requires |Pruned(before, added, cfg.ttl)| < cfg.maxSize
    ensures var q := Request(Matching(cfg.env, nonce, created), checked, added, Accepted);
            Answered(cfg, before, q, Pruned(before, added, cfg.ttl)[Key(nonce, created) := added])
  {
    var key := Key(nonce, created);
    var after := Pruned(before, added, cfg.ttl)[key := added];
    assert Added(before, key, added, cfg.ttl, cfg.maxSize, true, after);
  }

  lemma MisfitAllowsReplay(cfg: Settings, nonce: string, created: string, floor: int, delay: nat) returns (r: Run)
    requires 0 < cfg.skew <= MAX_DURATION && 0 < cfg.ttl <= MAX_DURATION && cfg.maxSize > 0
    requires Acceptable(cfg.env, nonce, created)
    requires !WindowsFit(cfg.env.parse(created).value, floor, cfg.skew, cfg.ttl, delay)
    ensures LifeBelowCap(cfg, r, floor, delay) && !AcceptsAtMostOnce(r, nonce, created)
  {
    hide Answered;
    var t, checked, added := TwoTimes(cfg, created, floor, delay);
    var tok, key := Matching(cfg.env, nonce, created), Key(nonce, created);
    var s0: Seen, s1: Seen, s2: Seen := map[], map[key := t], map[key := added];
    assert Pruned(s0, t, cfg.ttl) == s0 && Pruned(s1, added, cfg.ttl) == map[];
    Accepts(cfg, s0, nonce, created, t, t);
    Accepts(cfg, s1, nonce, created, checked, added);
    r := Run([s0, s1, s2], [Request(tok, t, t, Accepted), Request(tok, checked, added, Accepted)]);
    assert AcceptsDigest(r, 0, nonce, created) && AcceptsDigest(r, 1, nonce, created);
  }

  /** Replay protection, exactly: with the cap never reached, a clock that starts at `floor`
      and at most `delay` between the two clock readings of a request, a digest token is
      accepted at most once in every life of the authenticator if and only if it can never be
      accepted or the two windows fit. */
  lemma AtMostOnceExactlyWhenWindowsFit(cfg: Settings, nonce: string, created: string, floor: int, delay: nat)
    requires 0 < cfg.skew <= MAX_DURATION && 0 < cfg.ttl <= MAX_DURATION && cfg.maxSize > 0
    ensures (forall r | LifeBelowCap(cfg, r, floor, delay) :: AcceptsAtMostOnce(r, nonce, created))
       <==> (!Acceptable(cfg.env, nonce, created)
             || WindowsFit(cfg.env.parse(created).value, floor, cfg.skew, cfg.ttl, delay))
  {
    hide LifeBelowCap, AcceptsAtMostOnce, WindowsFit;
    if !Acceptable(cfg.env, nonce, created) {
      forall r | LifeBelowCap(cfg, r, floor, delay) ensures AcceptsAtMostOnce(r, nonce, created) {
        NeverAccepted(cfg, r, nonce, created, floor, delay);
      }
    } else if WindowsFit(cfg.env.parse(created).value, floor, cfg.skew, cfg.ttl, delay) {
      forall r | LifeBelowCap(cfg, r, floor, delay) ensures AcceptsAtMostOnce(r, nonce, created) {
        FittingWindowsPreventReplay(cfg, r, nonce, created, floor, delay);
      }
    } else {
      var r := MisfitAllowsReplay(cfg, nonce, created, floor, delay);
    }
  }

  lemma NeverAccepted(cfg: Settings, r: Run, nonce: string, created: string, floor: int, delay: nat)
    requires LifeBelowCap(cfg, r, floor, delay) && 0 < cfg.skew <= MAX_DURATION
    requires !Acceptable(cfg.env, nonce, created)
    ensures AcceptsAtMostOnce(r, nonce, created)
  {
    hide Answered, Acceptable;
    forall i: nat | AcceptsDigest(r, i, nonce, created) ensures false {
      AcceptedTiming(cfg, r.states[i], r.requests[i], r.states[i + 1]);
    }
  }

  /** With the authenticator's own cache, ttl = 2*skew, the windows leave no room for any
      delay: for a timestamp less than the range of a Duration (292 years) ahead of the clock,
      they fit if and only if the two clock readings agree, or the clock starts at least the
      delay after the token's window opens, or after it has closed. */
  lemma DefaultCacheFits(maxClockSkew: int, allowText: bool, env: Env, c: int, floor: int, delay: nat)
    requires maxClockSkew <= MAX_DURATION
    ensures var cfg := DefaultSettings(maxClockSkew, allowText, env);
            && cfg.skew == (if maxClockSkew > 0 then maxClockSkew else 300_000_000_000)
            && cfg.maxSize == 4096 && cfg.allowText == allowText && cfg.env == env
    ensures var cfg := DefaultSettings(maxClockSkew, allowText, env);
            cfg.skew < 0x4000_0000_0000_0000 ==>
              && cfg.ttl == 2 * cfg.skew
              && (WindowsFit(c, floor, cfg.skew, cfg.ttl, delay) <==>
                    && c + MIN_DURATION < floor
                    && (delay == 0 || floor >= c - cfg.skew + delay || floor > c + cfg.skew))
  {
  }

  // ---------- spellings of a nonce ---------------------------------------------------

  /** No other text decodes to the same nonce. */
  ghost predicate OnlySpelling(env: Env, nonce: string) {
    forall other: string | other != "" && env.decode(other) == env.decode(nonce) :: other == nonce
  }

  /** Request `i` presented a digest token with this decoded nonce and was accepted. */
  predicate AcceptsDecoded(env: Env, r: Run, i: nat, decoded: string, created: string) {
    i < |r.requests| && AcceptsDigest(r, i, r.requests[i].tok.nonce, created)
    && env.decode(r.requests[i].tok.nonce) == Some(decoded)
  }

  ghost predicate DecodedAtMostOnce(env: Env, r: Run, decoded: string, created: string) {
    forall i: nat, j: nat | AcceptsDecoded(env, r, i, decoded, created) && AcceptsDecoded(env, r, j, decoded, created)
      :: i == j
  }

  /** The cache compares nonces as they are spelled, the digest as they decode. A decoded nonce
      is accepted at most once in every life if and only if the windows fit and, unless the
      token can never be within the skew, its spelling is the only one. */
  lemma DecodedAtMostOnceExactly(cfg: Settings, nonce: string, created: string, floor: int, delay: nat)
    requires 0 < cfg.skew <= MAX_DURATION && 0 < cfg.ttl <= MAX_DURATION && cfg.maxSize > 1
    requires Acceptable(cfg.env, nonce, created)
    ensures var c := cfg.env.parse(created).value;
            (forall r | LifeBelowCap(cfg, r, floor, delay) ::
               DecodedAtMostOnce(cfg.env, r, cfg.env.decode(nonce).value, created))
            <==> && WindowsFit(c, floor, cfg.skew, cfg.ttl, delay)
                 && (WindowWidth(c, floor, cfg.skew) < 0 || OnlySpelling(cfg.env, nonce))
  {
    hide LifeBelowCap, DecodedAtMostOnce, WindowsFit, OnlySpelling, WindowWidth;
    var c, decoded := cfg.env.parse(created).value, cfg.env.decode(nonce).value;
    if !WindowsFit(c, floor, cfg.skew, cfg.ttl, delay) {
      var r := MisfitAllowsReplay(cfg, nonce, created, floor, delay);
      SpelledIsDecoded(cfg.env, r, nonce, created);
    } else if WindowWidth(c, floor, cfg.skew) < 0 || OnlySpelling(cfg.env, nonce) {
      forall r | LifeBelowCap(cfg, r, floor, delay) ensures DecodedAtMostOnce(cfg.env, r, decoded, created) {
        FitsAndOneSpelling(cfg, r, nonce, created, floor, delay);
      }
    } else {
      var r := TwoSpellings(cfg, nonce, created, floor, delay);
    }
  }

  lemma SpelledIsDecoded(env: Env, r: Run, nonce: string, created: string)
    requires !AcceptsAtMostOnce(r, nonce, created) && env.decode(nonce).Some?
    ensures !DecodedAtMostOnce(env, r, env.decode(nonce).value, created)
  {
    var i: nat, j: nat :| AcceptsDigest(r, i, nonce, created) && AcceptsDigest(r, j, nonce, created) && i != j;
    assert AcceptsDecoded(env, r, i, env.decode(nonce).value, created);
    assert AcceptsDecoded(env, r, j, env.decode(nonce).value, created);
  }

  lemma FitsAndOneSpelling(cfg: Settings, r: Run, nonce: string, created: string, floor: int, delay: nat)
    requires LifeBelowCap(cfg, r, floor, delay) && 0 < cfg.skew <= MAX_DURATION
    requires Acceptable(cfg.env, nonce, created)
    requires WindowsFit(cfg.env.parse(created).value, floor, cfg.skew, cfg.ttl, delay)
    requires WindowWidth(cfg.env.parse(created).value, floor, cfg.skew) < 0 || OnlySpelling(cfg.env, nonce)
    ensures DecodedAtMostOnce(cfg.env, r, cfg.env.decode(nonce).value, created)
  {
    hide Answered, CapNeverReached, IsLife;
    FittingWindowsPreventReplay(cfg, r, nonce, created, floor, delay);
    forall i: nat | AcceptsDecoded(cfg.env, r, i, cfg.env.decode(nonce).value, created)
      ensures AcceptsDigest(r, i, nonce, created)
    {
      WithinWindow(cfg, r, i, created, floor, delay);
    }
  }

  lemma WithinWindow(cfg: Settings, r: Run, i: nat, created: string, floor: int, delay: nat)
    requires IsLife(cfg, r) && Clocked(r, floor, delay) && 0 < cfg.skew <= MAX_DURATION
    requires i < |r.requests| && AcceptsDigest(r, i, r.requests[i].tok.nonce, created)
    requires cfg.env.parse(created).Some?
    requires WindowsFit(cfg.env.parse(created).value, floor, cfg.skew, cfg.ttl, delay)
    ensures WindowWidth(cfg.env.parse(created).value, floor, cfg.skew) >= 0 && r.requests[i].tok.nonce != ""
  {
    hide Answered;
    assert r.requests[i] in r.requests;
    AcceptedTiming(cfg, r.states[i], r.requests[i], r.states[i + 1]);
  }

  /** Two spellings of one nonce are accepted side by side. */
  lemma TwoSpellings(cfg: Settings, nonce: string, created: string, floor: int, delay: nat) returns (r: Run)
    requires 0 < cfg.skew <= MAX_DURATION && 0 < cfg.ttl && cfg.maxSize > 1
    requires Acceptable(cfg.env, nonce, created) && !OnlySpelling(cfg.env, nonce)
    requires WindowWidth(cfg.env.parse(created).value, floor, cfg.skew) >= 0
    ensures LifeBelowCap(cfg, r, floor, delay)
    ensures !DecodedAtMostOnce(cfg.env, r, cfg.env.decode(nonce).value, created)
  {
    hide Answered;
    var c := cfg.env.parse(created).value;
    var other: string :| other != "" && cfg.env.decode(other) == cfg.env.decode(nonce) && other != nonce;
    var t := if floor > c - cfg.skew then floor else c - cfg.skew;
    TimestampTest(cfg, created, t);
    DifferentKeys(nonce, other, created);
    var k, k' := Key(nonce, created), Key(other, created);
    var s0: Seen, s1: Seen := map[], map[k := t];
    assert Pruned(s0, t, cfg.ttl) == s0 && Pruned(s1, t, cfg.ttl) == s1;
    Accepts(cfg, s0, nonce, created, t, t);
    Accepts(cfg, s1, other, created, t, t);
    var q, q' := Matching(cfg.env, nonce, created), Matching(cfg.env, other, created);
    r := Run([s0, s1, s1[k' := t]], [Request(q, t, t, Accepted), Request(q', t, t, Accepted)]);
    assert AcceptsDecoded(cfg.env, r, 0, cfg.env.decode(nonce).value, created);
    assert AcceptsDecoded(cfg.env, r, 1, cfg.env.decode(nonce).value, created);
  }

  lemma DifferentKeys(nonce: string, other: string, created: string)
    requires nonce != other
    ensures Key(nonce, created) != Key(other, created)
  {
    assert Key(nonce, created)[..|nonce|] == nonce && Key(other, created)[..|other|] == other;
  }

  /** A decoder that skips line feeds, as the standard one does, leaves no nonce of two or
      more characters with one spelling only. */
  lemma LineFeedsRespell(env: Env, nonce: string)
    requires |nonce| >= 2
    requires forall s: string, i | 0 < i < |s| :: env.decode(s[..i] + "\n" + s[i..]) == env.decode(s)
    ensures !OnlySpelling(env, nonce)
  {
    var other := nonce[..1] + "\n" + nonce[1..];
    assert env.decode(other) == env.decode(nonce) && |other| == |nonce| + 1;
  }
}
