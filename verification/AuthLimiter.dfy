/** The limiter object and the login endpoint built on it. */
module AuthLimiter {
  import opened Wrappers
  import opened SecurityStore
  import opened RateLimiter
  import opened LoginLockout
  import opened FixedWindows

  datatype CheckResult = Passed | StoreUnavailable | TooMany(retryAfter: int) | BadCounter

  /** What a verdict is for the caller. */
  function ResultOf(v: Verdict): CheckResult {
    match v
    case Admit => Passed
    case Refuse(n) => TooMany(n)
    case Fault => BadCounter
  }

  datatype LoginResult =
    | Unavailable
    | RateLimited(retryAfter: int)
    | LockedOut(retryAfter: int)
    | BadCredentials
    | NowLocked(retryAfter: int)
    | Granted
    | Broken

  /** The login settings: the rate limit of the endpoint and the lockout policy. */
  datatype LoginSettings = LoginSettings(limit: int, window: int, policy: Policy)

  /** A login on a live store: the rate check, then the attempt. */
  function LoggedIn(m: Entries, rateKey: string, id: Keys, s: LoginSettings, e: RateLimiter.Event,
      a: Attempt): (Entries, LoginResult)
    requires e.Check?
  {
    var (m1, _, v) := Checked(m, rateKey, s.limit, s.window, e);
    match v
    case Refuse(n) => (m1, RateLimited(n))
    case Fault => (m1, Broken)
    case Admit =>
      var (m2, o) := Attempted(m1, id, s.policy, a);
      (m2,
       match o
       case Locked(n) => LockedOut(n)
       case Success => Granted
       case Failure(_, locks) => if locks then NowLocked(s.policy.lockout) else BadCredentials
       case CounterFault => Broken)
  }

  // ---------- Whole runs of logins ----------

  /** A login of the identity under study, or any other call on the store. */
  datatype Visit = Visit(rate: RateLimiter.Event, attempt: Attempt) | Other(op: Op)

  /** Logins one after the other, none of which succeeds, among traffic that leaves the identity's keys alone. */
  predicate FailingVisits(m: Entries, rateKey: string, id: Keys, s: LoginSettings, visits: seq<Visit>, since: real)
    decreases |visits|
  {
    visits == [] ||
    match visits[0]
    case Other(op) =>
      && since <= op.now && op.Timed() && !Touches(op, id.fail) && !Touches(op, id.lock)
      && FailingVisits(Lazy(m, op).0, rateKey, id, s, visits[1..], op.End())
    case Visit(e, a) =>
      && e.Check? && e.Timed(since) && a.Timed(e.End()) && LoggedIn(m, rateKey, id, s, e, a).1 != Granted
      && FailingVisits(LoggedIn(m, rateKey, id, s, e, a).0, rateKey, id, s, visits[1..], a.set_)
  }

  /** The failed password checks of a login: none if the rate check refused it. */
  function FailureOf(m: Entries, rateKey: string, id: Keys, s: LoginSettings, e: RateLimiter.Event,
      a: Attempt): seq<Call>
    requires e.Check?
  {
    var (m1, _, v) := Checked(m, rateKey, s.limit, s.window, e);
    if v.Admit? && Attempted(m1, id, s.policy, a).1.Failure? then [Attempted(m1, id, s.policy, a).1.call] else []
  }

  function VisitFailures(m: Entries, rateKey: string, id: Keys, s: LoginSettings, visits: seq<Visit>): seq<Call>
    requires forall v <- visits :: v.Visit? ==> v.rate.Check?
    decreases |visits|
  {
    if visits == [] then []
    else match visits[0]
      case Other(op) => VisitFailures(Lazy(m, op).0, rateKey, id, s, visits[1..])
      case Visit(e, a) =>
        FailureOf(m, rateKey, id, s, e, a)
            + VisitFailures(LoggedIn(m, rateKey, id, s, e, a).0, rateKey, id, s, visits[1..])
  }

  /** Logins as attempts among traffic: the calls of each rate check, and the attempt if it was admitted. */
  function EventsOf(m: Entries, rateKey: string, id: Keys, s: LoginSettings,
      visits: seq<Visit>): seq<LoginLockout.Event>
    requires forall v <- visits :: v.Visit? ==> v.rate.Check?
    decreases |visits|
  {
    if visits == [] then []
    else match visits[0]
      case Other(op) => [Elsewhere(op)] + EventsOf(Lazy(m, op).0, rateKey, id, s, visits[1..])
      case Visit(e, a) =>
        var v := Checked(m, rateKey, s.limit, s.window, e).2;
        var rest := EventsOf(LoggedIn(m, rateKey, id, s, e, a).0, rateKey, id, s, visits[1..]);
        Traffic(e, rateKey, s.window, v.Refuse?) + if v.Admit? then [Try(a)] + rest else rest
  }

  lemma AttemptThen(m: Entries, id: Keys, p: Policy, a: Attempt, rest: seq<LoginLockout.Event>, since: real)
    requires a.Timed(since) && !Attempted(m, id, p, a).1.Success? &&
        FailingRun(Attempted(m, id, p, a).0, id, p, rest, a.set_)
    ensures FailingRun(m, id, p, [Try(a)] + rest, since)
    ensures Failures(m, id, p, [Try(a)] + rest)
         == (if Attempted(m, id, p, a).1.Failure? then [Attempted(m, id, p, a).1.call] else [])
             + Failures(Attempted(m, id, p, a).0, id, p, rest)
  {
    assert ([Try(a)] + rest)[1..] == rest;
    TryThen(m, id, p, a, rest, since);
    FailuresUnfold(m, id, p, [Try(a)] + rest);
  }

  lemma {:induction false} VisitsAreEvents(m: Entries, rateKey: string, id: Keys, s: LoginSettings, visits: seq<Visit>,
      since: real)
    requires rateKey != id.fail && rateKey != id.lock && FailingVisits(m, rateKey, id, s, visits, since)
    requires forall v <- visits :: v.Visit? ==> v.rate.Check?
    ensures var events := EventsOf(m, rateKey, id, s, visits);
      FailingRun(m, id, s.policy, events, since) &&
          Failures(m, id, s.policy, events) == VisitFailures(m, rateKey, id, s, visits)
    decreases |visits|
  {
    if visits != [] {
      match visits[0]
      case Other(op) =>
        VisitsAreEvents(Lazy(m, op).0, rateKey, id, s, visits[1..], op.End());
        var rest := EventsOf(Lazy(m, op).0, rateKey, id, s, visits[1..]);
        assert ([Elsewhere(op)] + rest)[1..] == rest;
      case Visit(e, a) => VisitIsEvents(m, rateKey, id, s, visits, e, a, since);
    }
  }

  lemma {:induction false} VisitIsEvents(m: Entries, rateKey: string, id: Keys, s: LoginSettings, visits: seq<Visit>,
      e: RateLimiter.Event, a: Attempt, since: real)
    requires rateKey != id.fail && rateKey != id.lock && FailingVisits(m, rateKey, id, s, visits, since)
    requires (forall v <- visits :: v.Visit? ==> v.rate.Check?) && visits != [] && visits[0] == Visit(e, a)
    ensures var events := EventsOf(m, rateKey, id, s, visits);
      FailingRun(m, id, s.policy, events, since) &&
          Failures(m, id, s.policy, events) == VisitFailures(m, rateKey, id, s, visits)
    decreases |visits|, 0
  {
    var (m1, _, v) := Checked(m, rateKey, s.limit, s.window, e);
    var after := LoggedIn(m, rateKey, id, s, e, a).0;
    VisitsAreEvents(after, rateKey, id, s, visits[1..], a.set_);
    var rest := EventsOf(after, rateKey, id, s, visits[1..]);
    var tail := if v.Admit? then [Try(a)] + rest else rest;
    if v.Admit? {
      AttemptThen(m1, id, s.policy, a, rest, e.End());
    } else {
      RunsFromLater(m1, id, s.policy, rest, a.set_, e.End());
    }
    RateCheckIsTraffic(m, id, s.policy, rateKey, s.limit, s.window, e, tail);
    RunsFromLater(m, id, s.policy, Traffic(e, rateKey, s.window, v.Refuse?) + tail, e.now, since);
    assert [] + VisitFailures(after, rateKey, id, s, visits[1..]) == VisitFailures(after, rateKey, id, s, visits[1..]);
  }

  /** Over whole runs of logins, rate limit and lockout together: between successes, with a lock as long as the window,
      no failure window holds more than the most failed password checks, nor any interval of its length twice that. */
  lemma LoginsBounded(m: Entries, rateKey: string, id: Keys, s: LoginSettings, visits: seq<Visit>, since: real, a: real)
    requires id.Proper() && rateKey != id.fail && rateKey != id.lock && since > 0.0 && id.fail !in m && id.lock !in m
    requires (forall v <- visits :: v.Visit? ==> v.rate.Check?) && FailingVisits(m, rateKey, id, s, visits, since)
    requires Lifetime(s.policy.lockout) >= Lifetime(s.policy.window)
    ensures
      var cs := VisitFailures(m, rateKey, id, s, visits);
      && (forall i | 0 <= i < |cs| :: Rank(cs, i) <= s.policy.Most())
      && FailuresBetween(cs, a, a + Lifetime(s.policy.window) as real) <= 2 * s.policy.Most()
  {
    VisitsAreEvents(m, rateKey, id, s, visits, since);
    LockoutBounds(m, id, s.policy, EventsOf(m, rateKey, id, s, visits), since, a);
  }

  /** What a login answers: the rate check speaks first, then the lock, then the password. */
  lemma LoginAnswers(m: Entries, rateKey: string, id: Keys, s: LoginSettings, e: RateLimiter.Event, a: Attempt)
    requires e.Check? && id.Proper()
    ensures
      var (m1, _, v) := Checked(m, rateKey, s.limit, s.window, e);
      var r, text := LoggedIn(m, rateKey, id, s, e, a).1, Read(m1, id.lock, a.read);
      var count := Lazy(m1, Op.Increment(id.fail, s.policy.window, a.now, a.later)).1;
      if v.Refuse? then r == RateLimited(v.retryAfter)
      else if v.Fault? then r == Broken
      else if text.Some? && text.value != "" then r.LockedOut?
      else if a.passwordOk then r == Granted
      else if count == NotANumber then r == Broken
      else count.Count? && r == if count.count >= s.policy.maxAttempts then NowLocked(s.policy.lockout)
          else BadCredentials
  {
    AttemptAnswers(Checked(m, rateKey, s.limit, s.window, e).0, id, s.policy, a);
  }

  /** A login that is granted forgets the failures: the lockout bounds hold anew for the logins after it, and the first
      failure after it is number one again. */
  lemma GrantedStartsAnew(m: Entries, rateKey: string, id: Keys, s: LoginSettings, e: RateLimiter.Event, a: Attempt,
      visits: seq<Visit>, from: real)
    requires id.Proper() && rateKey != id.fail && rateKey != id.lock && a.set_ > 0.0
    requires e.Check? && e.Timed(e.now) && a.Timed(e.End()) && LoggedIn(m, rateKey, id, s, e, a).1 == Granted
    requires forall v <- visits :: v.Visit? ==> v.rate.Check?
    requires FailingVisits(LoggedIn(m, rateKey, id, s, e, a).0, rateKey, id, s, visits, a.set_)
    requires Lifetime(s.policy.lockout) >= Lifetime(s.policy.window)
    ensures
      var m' := LoggedIn(m, rateKey, id, s, e, a).0;
      var cs := VisitFailures(m', rateKey, id, s, visits);
      && id.fail !in m' && id.lock !in m'
      && (forall i | 0 <= i < |cs| :: Rank(cs, i) <= s.policy.Most())
      && FailuresBetween(cs, from, from + Lifetime(s.policy.window) as real) <= 2 * s.policy.Most()
      && (cs != [] ==> cs[0].number == 1)
  {
    var m1 := Checked(m, rateKey, s.limit, s.window, e).0;
    var m' := LoggedIn(m, rateKey, id, s, e, a).0;
    SuccessForgets(m1, id, s.policy, a, id.fail, a.set_);
    LoginsBounded(m', rateKey, id, s, visits, a.set_, from);
    VisitsAreEvents(m', rateKey, id, s, visits, a.set_);
    FailuresAreWindowed(m', id, s.policy, EventsOf(m', rateKey, id, s, visits), a.set_);
  }

  // ---------- No password is looked at while a lock lives ----------

  /** Logins one after the other, whatever comes of them, among traffic that leaves the identity's keys alone. */
  predicate Sequence(id: Keys, visits: seq<Visit>, since: real)
    decreases |visits|
  {
    visits == [] ||
    match visits[0]
    case Other(op) =>
      && since <= op.now && op.Timed() && !Touches(op, id.fail) && !Touches(op, id.lock)
      && Sequence(id, visits[1..], op.End())
    case Visit(e, a) =>
      e.Check? && e.Timed(since) && a.Timed(e.End()) && Sequence(id, visits[1..], a.set_)
  }

  /** The password check of a login: none if the rate check or the lock refused it. */
  function CheckOfVisit(m: Entries, rateKey: string, id: Keys, s: LoginSettings, e: RateLimiter.Event,
      a: Attempt): seq<PasswordCheck>
    requires e.Check?
  {
    var (m1, _, v) := Checked(m, rateKey, s.limit, s.window, e);
    if v.Admit? then CheckOf(s.policy, a, Attempted(m1, id, s.policy, a).1) else []
  }

  /** The password checks of a run of logins, in order. */
  function VisitChecks(m: Entries, rateKey: string, id: Keys, s: LoginSettings, visits: seq<Visit>): seq<PasswordCheck>
    requires forall v <- visits :: v.Visit? ==> v.rate.Check?
    decreases |visits|
  {
    if visits == [] then []
    else match visits[0]
      case Other(op) => VisitChecks(Lazy(m, op).0, rateKey, id, s, visits[1..])
      case Visit(e, a) =>
        CheckOfVisit(m, rateKey, id, s, e, a)
            + VisitChecks(LoggedIn(m, rateKey, id, s, e, a).0, rateKey, id, s, visits[1..])
  }

  lemma VisitUnderLock(m: Entries, rateKey: string, id: Keys, s: LoginSettings, e: RateLimiter.Event, a: Attempt,
      since: real, until: real)
    requires id.Proper() && rateKey != id.lock && e.Check? && e.Timed(since) && a.Timed(e.End())
    requires LockedUntil(m, id, until, since)
    ensures LockedUntil(LoggedIn(m, rateKey, id, s, e, a).0, id, until, a.set_)
    ensures NoneBefore(CheckOfVisit(m, rateKey, id, s, e, a), until)
  {
    var m1 := Checked(m, rateKey, s.limit, s.window, e).0;
    assert LockedUntil(m1, id, until, e.End());
    AttemptUnderLock(m1, id, s.policy, a, e.End(), until);
  }

  lemma VisitSetsLock(m: Entries, rateKey: string, id: Keys, s: LoginSettings, e: RateLimiter.Event, a: Attempt)
    requires e.Check?
    ensures |CheckOfVisit(m, rateKey, id, s, e, a)| <= 1
    ensures forall c <- CheckOfVisit(m, rateKey, id, s, e, a) | c.lockEnd.Some? ::
      LockedUntil(LoggedIn(m, rateKey, id, s, e, a).0, id, c.lockEnd.value, a.set_)
  {
    LockIsSet(Checked(m, rateKey, s.limit, s.window, e).0, id, s.policy, a);
  }

  lemma {:induction false} NoVisitUnderLock(m: Entries, rateKey: string, id: Keys, s: LoginSettings, visits: seq<Visit>,
      since: real, until: real)
    requires id.Proper() && rateKey != id.lock && Sequence(id, visits, since) && LockedUntil(m, id, until, since)
    requires forall v <- visits :: v.Visit? ==> v.rate.Check?
    ensures NoneBefore(VisitChecks(m, rateKey, id, s, visits), until)
    decreases |visits|
  {
    if visits != [] {
      match visits[0]
      case Other(op) =>
        OthersLeaveKey(m, op, id.lock);
        NoVisitUnderLock(Lazy(m, op).0, rateKey, id, s, visits[1..], op.End(), until);
      case Visit(e, a) =>
        VisitUnderLock(m, rateKey, id, s, e, a, since, until);
        NoVisitUnderLock(LoggedIn(m, rateKey, id, s, e, a).0, rateKey, id, s, visits[1..], a.set_, until);
    }
  }

  /** In every run of logins, successes included, no password is looked at while the lock set by a
      failed check lives. */
  lemma {:induction false} NoPasswordWhileLocked(m: Entries, rateKey: string, id: Keys, s: LoginSettings,
      visits: seq<Visit>, since: real)
    requires id.Proper() && rateKey != id.lock && Sequence(id, visits, since)
    requires forall v <- visits :: v.Visit? ==> v.rate.Check?
    ensures LocksKept(VisitChecks(m, rateKey, id, s, visits))
    decreases |visits|
  {
    if visits != [] {
      match visits[0]
      case Other(op) => NoPasswordWhileLocked(Lazy(m, op).0, rateKey, id, s, visits[1..], op.End());
      case Visit(e, a) =>
        var after, first := LoggedIn(m, rateKey, id, s, e, a).0, CheckOfVisit(m, rateKey, id, s, e, a);
        NoPasswordWhileLocked(after, rateKey, id, s, visits[1..], a.set_);
        VisitSetsLock(m, rateKey, id, s, e, a);
        JoinVisit(after, rateKey, id, s, visits[1..], a, first);
    }
  }

  lemma JoinVisit(m: Entries, rateKey: string, id: Keys, s: LoginSettings, visits: seq<Visit>, a: Attempt,
      first: seq<PasswordCheck>)
    requires id.Proper() && rateKey != id.lock && Sequence(id, visits, a.set_) && |first| <= 1
    requires forall v <- visits :: v.Visit? ==> v.rate.Check?
    requires forall c <- first | c.lockEnd.Some? :: LockedUntil(m, id, c.lockEnd.value, a.set_)
    requires LocksKept(VisitChecks(m, rateKey, id, s, visits))
    ensures LocksKept(first + VisitChecks(m, rateKey, id, s, visits))
  {
    var rest := VisitChecks(m, rateKey, id, s, visits);
    if first == [] {
      assert first + rest == rest;
    } else {
      var c := first[0];
      assert first == [c];
      if c.lockEnd.Some? { NoVisitUnderLock(m, rateKey, id, s, visits, a.set_, c.lockEnd.value); }
      LocksKeptCons(c, rest);
    }
  }

  class AuthRateLimiter {
    const enabled: bool
    const store: SecurityKeyValueStore
    const settings: LoginSettings

    constructor (enabled: bool, store: SecurityKeyValueStore, settings: LoginSettings)
      ensures this.enabled == enabled && this.store == store && this.settings == settings
    {
      this.enabled, this.store, this.settings := enabled, store, settings;
    }

    method Check(key: string, limit: int, window: int, e: RateLimiter.Event) returns (r: CheckResult)
      requires e.Check?
      modifies store`entries
      ensures !enabled ==> r == Passed && store.entries == old(store.entries)
      ensures enabled && !store.memory ==> r == StoreUnavailable && store.entries == old(store.entries)
      ensures enabled && store.memory ==>
        var (m, _, v) := Checked(old(store.entries), key, limit, window, e);
        store.entries == m && r == ResultOf(v)
    {
      if !enabled { return Passed; }
      if !store.memory { return StoreUnavailable; }
      var count := store.Increment(key, window, e.now, e.later);
      if count.None? { return BadCounter; }
      if count.value > limit {
        var left := store.Ttl(key, e.probe, e.probeLater);
        return TooMany(if left.Some? && left.value != 0 then left.value else window);
      }
      return Passed;
    }

    /** Nothing when no lock is held, otherwise the seconds to wait. */
    method CheckLoginLockout(id: Keys, a: Attempt) returns (wait: Option<int>)
      modifies store`entries
      ensures !enabled ==> wait == None && store.entries == old(store.entries)
      ensures enabled && !store.memory ==> wait == None && store.entries == old(store.entries)
      ensures enabled && store.memory ==>
        if LockHeld(old(store.entries), id, a.read)
        then (store.entries, if wait.Some? then Locked(wait.value) else Success)
            == Attempted(old(store.entries), id, settings.policy, a)
        else wait == None && store.entries == Lazy(old(store.entries), Op.Get(id.lock, a.read)).0
    {
      if !enabled { return None; }
      var held := store.Get(id.lock, a.read);
      if held.None? || held.value == "" { return None; }
      var left := store.Ttl(id.lock, a.probe, a.probeLater);
      wait := Some(if left.Some? && left.value != 0 then left.value else settings.policy.lockout);
    }

    /** Counts a failed password check; the answer says whether it locked, or nothing if the counter is broken. */
    method RecordLoginFailure(id: Keys, a: Attempt) returns (locks: Option<bool>)
      modifies store`entries
      ensures !enabled ==> locks == Some(false) && store.entries == old(store.entries)
      ensures enabled && store.memory ==>
        var (m, o) := Failed(old(store.entries), id, settings.policy, a);
        && store.entries == m
        && (locks == None <==> o == CounterFault) && (locks.Some? ==> o.Failure? && o.locks == locks.value)
      ensures enabled && !store.memory ==>
          locks == Some(1 >= settings.policy.maxAttempts) && store.entries == old(store.entries)
    {
      if !enabled { return Some(false); }
      var count := store.Increment(id.fail, settings.policy.window, a.now, a.later);
      if count.None? { return None; }
      if count.value >= settings.policy.maxAttempts {
        store.Set(id.lock, "1", settings.policy.lockout, a.set_);
        return Some(true);
      }
      return Some(false);
    }

    method RecordLoginSuccess(id: Keys)
      modifies store`entries
      ensures store.entries == if store.memory then Without(old(store.entries), [id.fail, id.lock])
          else old(store.entries)
    {
      store.Delete([id.fail, id.lock]);
    }

    /** The login endpoint. With the limiter on and its store in memory it is `LoggedIn`; the password is looked at
        only when neither the rate check nor the lock refused. */
    method Login(rateKey: string, id: Keys, e: RateLimiter.Event, a: Attempt) returns (r: LoginResult, asked: bool)
      requires e.Check?
      modifies store`entries
      ensures enabled && store.memory ==>
          (store.entries, r) == LoggedIn(old(store.entries), rateKey, id, settings, e, a)
      ensures enabled && store.memory ==>
          (asked <==> Checked(old(store.entries), rateKey, settings.limit, settings.window, e).2.Admit?
                                                       && !LockHeld(Checked(old(store.entries), rateKey, settings.limit,
                                                           settings.window, e).0, id, a.read))
      ensures enabled && !store.memory ==> r == Unavailable && !asked && store.entries == old(store.entries)
      ensures !enabled ==> asked && r == if a.passwordOk then Granted else BadCredentials
      ensures !enabled ==> store.entries == if a.passwordOk && store.memory
          then Without(old(store.entries), [id.fail, id.lock])
                                            else old(store.entries)
    {
      asked := false;
      var rate := Check(rateKey, settings.limit, settings.window, e);
      match rate {
        case StoreUnavailable => return Unavailable, asked;
        case TooMany(n) => return RateLimited(n), asked;
        case BadCounter => return Broken, asked;
        case Passed =>
      }
      var wait := CheckLoginLockout(id, a);
      if wait.Some? { return LockedOut(wait.value), asked; }
      asked := true;
      if a.passwordOk {
        RecordLoginSuccess(id);
        return Granted, asked;
      }
      var locks := RecordLoginFailure(id, a);
      if locks.None? { return Broken, asked; }
      return if locks.value then NowLocked(settings.policy.lockout) else BadCredentials, asked;
    }
  }
}

/** Revocation of access tokens before they expire. */
module TokenRevocation {
  import opened Wrappers
  import opened SecurityStore
  import RateLimiter
  import Decimal

  /** The claims of an access token, times in whole seconds. */
  datatype Claims = Claims(jti: Option<string>, sub: Option<string>, iat: int, exp: int)

  function TokenKey(jti: string): string { "auth:revoked_access:" + jti }
  function UserKey(user: string): string { "auth:revoked_all_access:" + user }

  lemma KeysDiffer(jti: string, user: string)
    ensures TokenKey(jti) != UserKey(user)
  {
    assert TokenKey(jti)[14] == 'c' && UserKey(user)[14] == 'l';
  }

  /** The store after revoking one token: nothing is stored for a token with less than a second to live. */
  function Revoked(m: Entries, jti: string, exp: int, now: real, write: real): Entries {
    var ttl := Truncate(exp as real - now);
    if ttl <= 0 then m else Lazy(m, Op.Set(TokenKey(jti), "1", ttl, write)).0
  }

  /** The store after revoking every token of a user issued up to now. */
  function AllRevoked(m: Entries, user: string, lifetime: int, now: real, write: real): Entries
  {
    Lazy(m, Op.Set(UserKey(user), Decimal.Written(Truncate(now)), lifetime, write)).0
  }

  /** Whether a stored text refuses the token. */
  predicate HeldAgainst(m: Entries, key: string, t: real) { At(m, key, t).Some? && At(m, key, t).value.value != "" }

  predicate RefusedByToken(m: Entries, jti: string, t: real) { HeldAgainst(m, TokenKey(jti), t) }

  predicate RefusedByUser(m: Entries, user: string, iat: int, t: real) {
    && HeldAgainst(m, UserKey(user), t)
    && Decimal.Parse(At(m, UserKey(user), t).value.value).Some?
    && iat <= Decimal.Parse(At(m, UserKey(user), t).value.value).value
  }

  /** The store after other traffic. */
  function After(m: Entries, ops: seq<Op>): Entries
    decreases |ops|
  {
    if ops == [] then m else After(Lazy(m, ops[0]).0, ops[1..])
  }

  lemma {:induction false} TrafficLeavesKey(m: Entries, ops: seq<Op>, key: string)
    requires forall op <- ops :: !RateLimiter.Touches(op, key)
    ensures forall t: real :: At(After(m, ops), key, t) == At(m, key, t)
    decreases |ops|
  {
    if ops != [] {
      RateLimiter.OthersLeaveKey(m, ops[0], key);
      TrafficLeavesKey(Lazy(m, ops[0]).0, ops[1..], key);
    }
  }

  /** After any traffic that leaves its key alone, a revoked token is refused exactly until its whole remaining
      seconds have passed since the write: at least until one second before it expires. */
  lemma RevokedTokenRefused(m: Entries, jti: string, exp: int, now: real, write: real, ops: seq<Op>, t: real)
    requires exp as real - now >= 1.0 && now <= write <= t
    requires forall op <- ops :: !RateLimiter.Touches(op, TokenKey(jti))
    ensures RefusedByToken(After(Revoked(m, jti, exp, now, write), ops), jti, t) <==>
        t < write + Truncate(exp as real - now) as real
    ensures t <= exp as real - 1.0 ==> RefusedByToken(After(Revoked(m, jti, exp, now, write), ops), jti, t)
  {
    TrafficLeavesKey(Revoked(m, jti, exp, now, write), ops, TokenKey(jti));
  }

  /** A revoked token is refused up to a horizon, the time until which the decoder takes it, exactly when at least one
      whole second was left and those whole seconds, counted from the write, reach the horizon. A decoder that refuses
      from the expiry on (section 4.1.4 of RFC 7519) has it at `exp`, one that compares whole seconds at `exp + 1`. */
  lemma RevocationCoversIff(m: Entries, jti: string, exp: int, now: real, write: real, horizon: real)
    requires TokenKey(jti) !in m && now <= write < horizon
    ensures (forall t: real | write <= t < horizon :: RefusedByToken(Revoked(m, jti, exp, now, write), jti, t))
            <==> Truncate(exp as real - now) >= 1 && horizon <= write + Truncate(exp as real - now) as real
  {
    var r := Revoked(m, jti, exp, now, write);
    var ttl := Truncate(exp as real - now);
    var end := write + ttl as real;
    if ttl <= 0 {
      assert !RefusedByToken(r, jti, write);
    } else {
      forall t: real | write <= t ensures RefusedByToken(r, jti, t) <==> t < end {
        RevokedTokenRefused(m, jti, exp, now, write, [], t);
      }
      if end < horizon { assert !RefusedByToken(r, jti, end); }
    }
  }

  /** For a decoder that refuses from the expiry on: the fraction that the time to live drops has
      passed at the write. */
  lemma CoversExpiryIff(m: Entries, jti: string, exp: int, now: real, write: real)
    requires TokenKey(jti) !in m && now <= write < exp as real
    ensures (forall t: real | write <= t < exp as real :: RefusedByToken(Revoked(m, jti, exp, now, write), jti, t))
            <==>
            && Truncate(exp as real - now) >= 1
            && exp as real - now - Truncate(exp as real - now) as real <= write - now
  {
    RevocationCoversIff(m, jti, exp, now, write, exp as real);
  }

  /** An input that shows the gap: revoked half a second into second 90, the token that expires at 100 is refused at 99
      and accepted again at 99.5. */
  lemma RevokedTokenAcceptedAgain(jti: string)
    ensures var r := Revoked(map[], jti, 100, 90.5, 90.5); RefusedByToken(r, jti, 99.0) && !RefusedByToken(r, jti, 99.5)
  {
    assert Truncate(100 as real - 90.5) == 9;
    RevokedTokenRefused(map[], jti, 100, 90.5, 90.5, [], 99.0);
    RevokedTokenRefused(map[], jti, 100, 90.5, 90.5, [], 99.5);
  }

  /** After a revoke-all, until the record's time to live has passed since the write, exactly the access tokens of the
      user issued by the second of the call are refused. */
  lemma UserTokensRefused(m: Entries, user: string, iat: int, lifetime: int, now: real, write: real,
      ops: seq<Op>, t: real)
    requires now <= write <= t && forall op <- ops :: !RateLimiter.Touches(op, UserKey(user))
    ensures RefusedByUser(After(AllRevoked(m, user, lifetime, now, write), ops), user, iat, t)
            <==> iat <= Truncate(now) && t < write + Lifetime(lifetime) as real
  {
    TrafficLeavesKey(AllRevoked(m, user, lifetime, now, write), ops, UserKey(user));
    Decimal.ParseWritten(Truncate(now));
    assert Decimal.Written(Truncate(now)) != "";
  }

  /** Tokens live as long as the record does: one issued by then is refused until it expires, and up to a later horizon
      exactly when the write came late enough. */
  lemma UserRevocationCovers(m: Entries, user: string, iat: int, lifetime: int, now: real, write: real, horizon: real)
    requires 0.0 <= now <= write < horizon && iat <= Truncate(now)
    ensures forall t: real | write <= t < (iat + lifetime) as real ::
        RefusedByUser(AllRevoked(m, user, lifetime, now, write), user, iat, t)
    ensures (forall t: real | write <= t < horizon ::
        RefusedByUser(AllRevoked(m, user, lifetime, now, write), user, iat, t))
            <==> horizon <= write + Lifetime(lifetime) as real
  {
    var r := AllRevoked(m, user, lifetime, now, write);
    forall t: real | write <= t ensures RefusedByUser(r, user, iat, t) <==> t < write + Lifetime(lifetime) as real {
      UserTokensRefused(m, user, iat, lifetime, now, write, [], t);
    }
    if write + Lifetime(lifetime) as real < horizon {
      assert !RefusedByUser(r, user, iat, write + Lifetime(lifetime) as real);
    }
  }

  /** An input that shows the gap of a decoder that compares whole seconds: all tokens of a user are revoked half a
      second into second 90, and one issued in that second, which such a decoder takes until 991,
          is refused at 990.4 and
      accepted again at 990.6. */
  lemma UserTokenAcceptedAgain(user: string)
    ensures var r := AllRevoked(map[], user, 900, 90.5, 90.5);
      RefusedByUser(r, user, 90, 990.4) && !RefusedByUser(r, user, 90, 990.6)
  {
    assert Truncate(90.5) == 90;
    UserTokensRefused(map[], user, 90, 900, 90.5, 90.5, [], 990.4);
    UserTokensRefused(map[], user, 90, 900, 90.5, 90.5, [], 990.6);
  }

  datatype Ruling = Accepted | Refused | StoreUnavailable | NoJti | BadRecord

  class AccessTokenRevocationStore {
    const enabled: bool
    const store: SecurityKeyValueStore
    const minutes: int

    constructor (enabled: bool, store: SecurityKeyValueStore, minutes: int)
      ensures this.enabled == enabled && this.store == store && this.minutes == minutes
    {
      this.enabled, this.store, this.minutes := enabled, store, minutes;
    }

    /** False when the store is unavailable (the call raises). */
    method RevokeClaims(c: Claims, now: real, write: real) returns (ok: bool)
      modifies store`entries
      ensures ok <==> !enabled || store.memory
      ensures store.entries == if enabled && store.memory && c.jti.Some? && c.jti.value != ""
                               then Revoked(old(store.entries), c.jti.value, c.exp, now, write) else old(store.entries)
    {
      if !enabled { return true; }
      if !store.memory { return false; }
      if c.jti.None? || c.jti.value == "" { return true; }
      var ttl := Truncate(c.exp as real - now);
      if ttl <= 0 { return true; }
      store.Set(TokenKey(c.jti.value), "1", ttl, write);
      return true;
    }

    method RevokeAllForUser(user: string, now: real, write: real) returns (ok: bool)
      modifies store`entries
      ensures ok <==> !enabled || store.memory
      ensures store.entries == if enabled && store.memory
          then AllRevoked(old(store.entries), user, minutes * 60, now, write) else old(store.entries)
    {
      if !enabled { return true; }
      if !store.memory { return false; }
      store.Set(UserKey(user), Decimal.Written(Truncate(now)), minutes * 60, write);
      return true;
    }

    /** Refuses a token that either record holds against it; the two reads happen at `t` and `u`. */
    method EnsureNotRevoked(c: Claims, t: real, u: real) returns (r: Ruling)
      requires t <= u
      modifies store`entries
      ensures !enabled ==> r == Accepted && store.entries == old(store.entries)
      ensures enabled && !store.memory ==> r == StoreUnavailable
      ensures enabled && store.memory ==> (r == NoJti <==> c.jti.None? || c.jti.value == "")
      ensures enabled && store.memory && r != NoJti ==>
        var marked := RefusedByToken(old(store.entries), c.jti.value, t);
        var held := c.sub.Some? && c.sub.value != "" && HeldAgainst(old(store.entries), UserKey(c.sub.value), u);
        && (r == Refused <==> marked || (held && RefusedByUser(old(store.entries), c.sub.value, c.iat, u)))
        && (r == BadRecord <==>
              !marked && held && Decimal.Parse(At(old(store.entries), UserKey(c.sub.value), u).value.value).None?)
        && r in {Refused, BadRecord, Accepted}
      ensures forall k, v: real | u <= v :: At(store.entries, k, v) == At(old(store.entries), k, v)
    {
      if !enabled { return Accepted; }
      if !store.memory { return StoreUnavailable; }
      if c.jti.None? || c.jti.value == "" { return NoJti; }
      var mark := store.Get(TokenKey(c.jti.value), t);
      if mark.Some? && mark.value != "" { return Refused; }
      if c.sub.None? || c.sub.value == "" { return Accepted; }
      KeysDiffer(c.jti.value, c.sub.value);
      var since := store.Get(UserKey(c.sub.value), u);
      if since.None? || since.value == "" { return Accepted; }
      match Decimal.Parse(since.value) {
        case None => return BadRecord;
        case Some(n) => return if c.iat <= n then Refused else Accepted;
      }
    }
  }
}
