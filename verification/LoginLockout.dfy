/** The login lockout: failed password checks are counted in a window, and the count that reaches the limit locks. */
module LoginLockout {
  import opened Wrappers
  import opened SecurityStore
  import opened FixedWindows
  import opened RateLimiter

  /** The lockout settings. */
  datatype Policy = Policy(maxAttempts: int, window: int, lockout: int)
  {
    /** Failures that a window may hold: the limit, but never less than the one that triggers the lock. */
    function Most(): nat { if maxAttempts >= 1 then maxAttempts else 1 }
  }

  /** The two keys of one identity: its failure counter and its lock. */
  datatype Keys = Keys(fail: string, lock: string)
  {
    predicate Proper() { fail != lock }
  }

  function KeysOf(digest: string): Keys { Keys("bf:login:fail:" + digest, "bf:login:lock:" + digest) }
  function RateKey(scope: string, digest: string): string { "rl:" + scope + ":" + digest }

  /** The keys of the three uses of the store never coincide, whatever the digests. */
  lemma KeysDiffer(scope: string, digest: string, digest1: string, digest2: string)
    ensures KeysOf(digest1).fail != KeysOf(digest2).lock
    ensures RateKey(scope, digest) != KeysOf(digest1).fail && RateKey(scope, digest) != KeysOf(digest1).lock
  {
    assert KeysOf(digest1).fail[9] == 'f' && KeysOf(digest2).lock[9] == 'l';
    assert RateKey(scope, digest)[0] == 'r' && KeysOf(digest1).fail[0] == 'b' && KeysOf(digest1).lock[0] == 'b';
  }

  /** One login attempt that the rate limiter let through, with its clock readings in order: the lock is read, its
      time to live is asked for (if it is held), the failure is counted, the lock is set. */
  datatype Attempt = Attempt(passwordOk: bool, read: real, probe: real, probeLater: real, now: real, later: real,
      set_: real)
  {
    predicate Timed(since: real) { since <= read <= probe <= probeLater <= now <= later <= set_ }
  }

  datatype Outcome = Locked(retryAfter: int) | Success | Failure(call: Call, locks: bool) | CounterFault

  predicate LockHeld(m: Entries, id: Keys, now: real) {
    At(m, id.lock, now).Some? && At(m, id.lock, now).value.value != ""
  }

  /** A failed password check: the failure is counted, and a count at the limit sets the lock. */
  function Failed(m: Entries, id: Keys, p: Policy, a: Attempt): (Entries, Outcome) {
    var (m1, answer) := Lazy(m, Op.Increment(id.fail, p.window, a.now, a.later));
    var locks := answer.Count? && answer.count >= p.maxAttempts;
    (if locks then Lazy(m1, Op.Set(id.lock, "1", p.lockout, a.set_)).0 else m1,
     if answer.Count? then Failure(Seen(m1, id.fail, a.later, answer), locks) else CounterFault)
  }

  /** The store and the outcome after an attempt; a locked attempt never reaches the password check. */
  function Attempted(m: Entries, id: Keys, p: Policy, a: Attempt): (Entries, Outcome) {
    var m0 := Lazy(m, Op.Get(id.lock, a.read)).0;
    if LockHeld(m, id, a.read) then
      var (m1, left) := Lazy(m0, Op.Ttl(id.lock, a.probe, a.probeLater));
      (m1, Locked(if left.Seconds? && left.seconds.Some? && left.seconds.value != 0 then left.seconds.value
          else p.lockout))
    else if a.passwordOk then (Without(m0, [id.fail, id.lock]), Success)
    else Failed(m0, id, p, a)
  }

  /** A held lock refuses; otherwise the password decides, and a wrong one locks exactly when the count, this failure
      included, has reached the limit. */
  lemma AttemptAnswers(m: Entries, id: Keys, p: Policy, a: Attempt)
    requires id.Proper()
    ensures
      var o, text := Attempted(m, id, p, a).1, Read(m, id.lock, a.read);
      var count := Lazy(m, Op.Increment(id.fail, p.window, a.now, a.later)).1;
      if text.Some? && text.value != "" then o.Locked?
      else if a.passwordOk then o == Success
      else if count == NotANumber then o == CounterFault
      else count.Count? && o.Failure? && (o.locks <==> count.count >= p.maxAttempts)
  {}

  /** A success leaves neither a failure nor a lock, and every other key alone. */
  lemma SuccessForgets(m: Entries, id: Keys, p: Policy, a: Attempt, k: string, t: real)
    requires Attempted(m, id, p, a).1 == Success && a.read <= t
    ensures var m' := Attempted(m, id, p, a).0;
      id.fail !in m' && id.lock !in m' && (k != id.fail && k != id.lock ==> Read(m', k, t) == Read(m, k, t))
  {}

  /** The wait told to a locked-out user suffices: one second past it the lock is over. */
  lemma LockWaitSuffices(m: Entries, id: Keys, p: Policy, a: Attempt, since: real, next: real)
    requires a.Timed(since) && LockHeld(m, id, a.read) && m[id.lock].expires.Some?
    requires Attempted(m, id, p, a).1.Locked? && LockHeld(m, id, a.probe)
    requires a.probeLater + (Attempted(m, id, p, a).1.retryAfter + 1) as real <= next
    ensures !LockHeld(Attempted(m, id, p, a).0, id, next)
  {
    TtlBounds(Lazy(m, Op.Get(id.lock, a.read)).0, id.lock, a.probe, a.probeLater);
  }

  // ---------- Runs between two successes ----------

  datatype Event = Try(attempt: Attempt) | Elsewhere(op: Op)

  /** Sequential attempts of one identity, none of which succeeds, among traffic that leaves its two keys alone; a right
      password that a held lock refuses is no success. */
  predicate FailingRun(m: Entries, id: Keys, p: Policy, events: seq<Event>, since: real)
    decreases |events|
  {
    events == [] ||
    match events[0]
    case Try(a) =>
      a.Timed(since) && !Attempted(m, id, p, a).1.Success? &&
          FailingRun(Attempted(m, id, p, a).0, id, p, events[1..], a.set_)
    case Elsewhere(op) =>
      && since <= op.now && op.Timed() && !Touches(op, id.fail) && !Touches(op, id.lock)
      && FailingRun(Lazy(m, op).0, id, p, events[1..], op.End())
  }

  /** The failed password checks of a run, in order. */
  function Failures(m: Entries, id: Keys, p: Policy, events: seq<Event>): (r: seq<Call>)
    decreases |events|
  {
    if events == [] then []
    else match events[0]
      case Elsewhere(op) => Failures(Lazy(m, op).0, id, p, events[1..])
      case Try(a) =>
        var (m', o) := Attempted(m, id, p, a);
        (if o.Failure? then [o.call] else []) + Failures(m', id, p, events[1..])
  }

  /** While a window already holds the most failures, the lock is set and outlives that window. */
  predicate Guarded(m: Entries, id: Keys, p: Policy, since: real) {
    && Counts(m, id.fail)
    && match Counter(m, id.fail)
       case None => true
       case Some((n, deadline)) =>
         n <= p.Most() && deadline <= since + Lifetime(p.window) as real &&
         (n >= p.Most() && deadline > since ==>
            id.lock in m && m[id.lock].value == "1" && m[id.lock].expires.Some? && m[id.lock].expires.value >= deadline)
  }

  lemma OtherKeepsGuard(m: Entries, id: Keys, p: Policy, op: Op, since: real)
    requires Guarded(m, id, p, since) && since <= op.now && op.Timed() && !Touches(op, id.fail) && !Touches(op, id.lock)
    ensures Guarded(Lazy(m, op).0, id, p, op.End())
    ensures Counter(Lazy(m, op).0, id.fail) == Counter(m, id.fail)
  {
    OthersLeaveKey(m, op, id.fail);
    OthersLeaveKey(m, op, id.lock);
  }

  lemma LockKeepsCounter(m: Entries, id: Keys, p: Policy, at: real)
    requires id.Proper()
    ensures
      var m' := Lazy(m, Op.Set(id.lock, "1", p.lockout, at)).0;
      && id.lock in m' && m'[id.lock] == Entry("1", Some(at + Lifetime(p.lockout) as real))
      && Counter(m', id.fail) == Counter(m, id.fail) && (Counts(m', id.fail) <==> Counts(m, id.fail))
  {}

  /** A failure on a store whose lock is not held: it is within the most, and at the most it locks past its window. */
  lemma FailedKeepsGuard(m: Entries, id: Keys, p: Policy, a: Attempt, since: real)
    requires id.Proper() && since > 0.0 && a.Timed(since) && Guarded(m, id, p, since) && !LockHeld(m, id, a.read)
    requires Lifetime(p.lockout) >= Lifetime(p.window)
    ensures
      var (m', o) := Failed(m, id, p, a);
      && Guarded(m', id, p, a.set_) && o.Failure?
      && 1 <= o.call.number <= p.Most() && Counter(m', id.fail) == Some((o.call.number, o.call.window))
      && Continues(Counter(m, id.fail), o.call, a.later, Lifetime(p.window) as real) && o.call.at == a.later
  {
    IncrementCounts(m, id.fail, p.window, a.now, a.later);
    var c := Counted(m, id.fail, p.window, a.now, a.later);
    var m1 := Lazy(m, Op.Increment(id.fail, p.window, a.now, a.later)).0;
    assert c == Seen(m1, id.fail, a.later, Count(c.number));
    assert c.number <= p.Most();
    assert c.window <= a.later + Lifetime(p.window) as real;
    LockKeepsCounter(m1, id, p, a.set_);
  }

  lemma AttemptKeepsGuard(m: Entries, id: Keys, p: Policy, a: Attempt, since: real)
    requires id.Proper() && since > 0.0 && a.Timed(since) && !Attempted(m, id, p, a).1.Success? &&
        Guarded(m, id, p, since)
    requires Lifetime(p.lockout) >= Lifetime(p.window)
    ensures
      var (m', o) := Attempted(m, id, p, a);
      && Guarded(m', id, p, a.set_) && !o.Success? && !o.CounterFault?
      && (o.Locked? ==> Counter(m', id.fail) == Counter(m, id.fail))
      && (o.Failure? ==>
            && 1 <= o.call.number <= p.Most() && Counter(m', id.fail) == Some((o.call.number, o.call.window))
            && Continues(Counter(m, id.fail), o.call, a.later, Lifetime(p.window) as real) && o.call.at == a.later)
  {
    var m0 := Lazy(m, Op.Get(id.lock, a.read)).0;
    assert id.fail in m ==> m0[id.fail] == m[id.fail];
    if !LockHeld(m, id, a.read) { FailedKeepsGuard(m0, id, p, a, a.read); }
  }

  /** Failed checks that continue a counter: within the most per window, and in windows that follow one another. */
  predicate Structured(counter: Option<(int, real)>, cs: seq<Call>, p: Policy, since: real) {
    && (forall i | 0 <= i < |cs| :: 1 <= cs[i].number <= p.Most())
    && (forall i | 0 <= i < |cs| - 1 :: Succeeds(cs[i], cs[i + 1], Lifetime(p.window) as real))
    && (cs != [] ==> Continues(counter, cs[0], since, Lifetime(p.window) as real))
  }

  lemma ExtendStructured(counter: Option<(int, real)>, c: Call, rest: seq<Call>, p: Policy, since: real, until: real)
    requires 1 <= c.number <= p.Most() && Continues(counter, c, since, Lifetime(p.window) as real) && c.at <= until
    requires Structured(Some((c.number, c.window)), rest, p, until)
    ensures Structured(counter, [c] + rest, p, since)
  {
    PrependCall(c, rest, Lifetime(p.window) as real);
  }

  lemma FailuresUnfold(m: Entries, id: Keys, p: Policy, events: seq<Event>)
    requires events != [] && events[0].Try?
    ensures
      var (m', o) := Attempted(m, id, p, events[0].attempt);
      Failures(m, id, p, events) == if o.Failure? then [o.call] + Failures(m', id, p, events[1..])
          else Failures(m', id, p, events[1..])
  {
    var m' := Attempted(m, id, p, events[0].attempt).0;
    assert [] + Failures(m', id, p, events[1..]) == Failures(m', id, p, events[1..]);
  }

  /** The structure of the failed checks of a run, when the lock outlives the failure window. */
  lemma {:induction false} FailuresAreWindowed(m: Entries, id: Keys, p: Policy, events: seq<Event>, since: real)
    requires id.Proper() && since > 0.0 && FailingRun(m, id, p, events, since) && Guarded(m, id, p, since)
    requires Lifetime(p.lockout) >= Lifetime(p.window)
    ensures Structured(Counter(m, id.fail), Failures(m, id, p, events), p, since)
    decreases |events|
  {
    if events != [] {
      if events[0].Elsewhere? {
        OtherKeepsGuard(m, id, p, events[0].op, since);
        FailuresAreWindowed(Lazy(m, events[0].op).0, id, p, events[1..], events[0].op.End());
      } else {
        TryIsWindowed(m, id, p, events, since);
      }
    }
  }

  lemma {:induction false} TryIsWindowed(m: Entries, id: Keys, p: Policy, events: seq<Event>, since: real)
    requires id.Proper() && since > 0.0 && FailingRun(m, id, p, events, since) && Guarded(m, id, p, since)
    requires Lifetime(p.lockout) >= Lifetime(p.window) && events != [] && events[0].Try?
    ensures Structured(Counter(m, id.fail), Failures(m, id, p, events), p, since)
    decreases |events|, 0
  {
    var a, rest := events[0].attempt, events[1..];
    assert a.Timed(since) && FailingRun(Attempted(m, id, p, a).0, id, p, rest, a.set_);
    AttemptKeepsGuard(m, id, p, a, since);
    var after := Attempted(m, id, p, a);
    FailuresAreWindowed(after.0, id, p, rest, a.set_);
    FailuresUnfold(m, id, p, events);
    JoinTry(Counter(m, id.fail), after.1, Counter(after.0, id.fail), Failures(after.0, id, p, rest),
        Failures(m, id, p, events), p, since, a);
  }

  lemma JoinTry(before: Option<(int, real)>, o: Outcome, counter: Option<(int, real)>, rest: seq<Call>, cs: seq<Call>,
      p: Policy, since: real, a: Attempt)
    requires a.Timed(since) && Structured(counter, rest, p, a.set_) && (o.Locked? || o.Failure?)
    requires o.Locked? ==> counter == before && cs == rest
    requires o.Failure? ==>
      && 1 <= o.call.number <= p.Most() && counter == Some((o.call.number, o.call.window)) && o.call.at == a.later
      && Continues(before, o.call, a.later, Lifetime(p.window) as real) && cs == [o.call] + rest
    ensures Structured(before, cs, p, since)
  {
    if o.Failure? {
      ExtendStructured(before, o.call, rest, p, since, a.set_);
    }
  }

  /** How many failed checks lie in the half-open interval from `a` to `b`. */
  function FailuresBetween(cs: seq<Call>, a: real, b: real): (n: nat) {
    if cs == [] then 0 else (if a <= cs[0].at < b then 1 else 0) + FailuresBetween(cs[1..], a, b)
  }

  lemma {:induction false} AllAdmitted(cs: seq<Call>, most: nat, a: real, b: real)
    requires forall i | 0 <= i < |cs| :: cs[i].number <= most
    ensures FailuresBetween(cs, a, b) == Admitted(cs, most, a, b)
  {
    if cs != [] { AllAdmitted(cs[1..], most, a, b); }
  }

  /** The property the lockout is for: no failure window of any run holds more than the most failures. */
  ghost predicate WindowsBounded(id: Keys, p: Policy) {
    forall m: Entries, events, i | id.fail !in m && id.lock !in m && FailingRun(m, id, p, events, 1.0) &&
        0 <= i < |Failures(m, id, p, events)| ::
      Rank(Failures(m, id, p, events), i) <= p.Most()
  }

  /** When the lock outlives the window, failures per window and failures in any interval of that length are bounded. */
  lemma LockoutBounds(m: Entries, id: Keys, p: Policy, events: seq<Event>, since: real, a: real)
    requires id.Proper() && since > 0.0 && id.fail !in m && id.lock !in m && FailingRun(m, id, p, events, since)
    requires Lifetime(p.lockout) >= Lifetime(p.window)
    ensures
      var cs := Failures(m, id, p, events);
      && (forall i | 0 <= i < |cs| :: Rank(cs, i) <= p.Most())
      && FailuresBetween(cs, a, a + Lifetime(p.window) as real) <= 2 * p.Most()
  {
    var cs, length := Failures(m, id, p, events), Lifetime(p.window) as real;
    FailuresAreWindowed(m, id, p, events, since);
    assert Windowed(cs, length);
    AnyInterval(cs, p.Most(), a, length);
    AllAdmitted(cs, p.Most(), a, a + length);
    forall i | 0 <= i < |cs| ensures Rank(cs, i) <= p.Most() {
      NumberIsRank(cs, length, i);
    }
  }

  // ---------- The rate check in front of an attempt is traffic that leaves the lockout alone ----------

  /** The store calls of a rate check, as events of a run. */
  function Traffic(e: RateLimiter.Event, key: string, window: int, refused: bool): seq<Event>
    requires e.Check?
  {
    [Elsewhere(Op.Increment(key, window, e.now, e.later))] +
    (if refused then [Elsewhere(Op.Ttl(key, e.probe, e.probeLater))] else [])
  }

  /** A login whose rate check comes first has the failures of the attempt alone, on the store that the check left. */
  lemma RateCheckIsTraffic(m: Entries, id: Keys, p: Policy, key: string, limit: int, window: int,
      e: RateLimiter.Event, rest: seq<Event>)
    requires key != id.fail && key != id.lock && e.Check? && e.Timed(e.now)
    requires FailingRun(Checked(m, key, limit, window, e).0, id, p, rest, e.End())
    ensures
      var (m', _, v) := Checked(m, key, limit, window, e);
      var events := Traffic(e, key, window, v.Refuse?) + rest;
      FailingRun(m, id, p, events, e.now) && Failures(m, id, p, events) == Failures(m', id, p, rest)
  {
    var first := Elsewhere(Op.Increment(key, window, e.now, e.later));
    var v := Checked(m, key, limit, window, e).2;
    var more: seq<Event> := if v.Refuse? then [Elsewhere(Op.Ttl(key, e.probe, e.probeLater))] else [];
    var m1 := Lazy(m, Op.Increment(key, window, e.now, e.later)).0;
    if !v.Refuse? { RunsFromLater(m1, id, p, rest, e.End(), e.later); }
    if v.Refuse? { assert (more + rest)[1..] == rest; } else { assert more + rest == rest; }
    assert Traffic(e, key, window, v.Refuse?) + rest == [first] + (more + rest);
    assert ([first] + (more + rest))[1..] == more + rest;
  }

  lemma RunsFromLater(m: Entries, id: Keys, p: Policy, events: seq<Event>, later: real, since: real)
    requires FailingRun(m, id, p, events, later) && since <= later
    ensures FailingRun(m, id, p, events, since)
  {}

  // ---------- No password is looked at while a lock lives ----------

  /** A password check, right or wrong: when its attempt read the lock, and the end of the lock that it set, if any. */
  datatype PasswordCheck = PasswordCheck(read: real, lockEnd: Option<real>)

  function CheckOf(p: Policy, a: Attempt, o: Outcome): seq<PasswordCheck> {
    if o.Locked? then []
    else [PasswordCheck(a.read, if o.Failure? && o.locks then Some(a.set_ + Lifetime(p.lockout) as real) else None)]
  }

  predicate NoneBefore(cs: seq<PasswordCheck>, until: real) { forall c <- cs :: c.read >= until }

  /** From the end of a check's lock on, or later, come all the checks after it. */
  predicate LocksKept(cs: seq<PasswordCheck>) {
    forall i, j | 0 <= i < j < |cs| && cs[i].lockEnd.Some? :: cs[j].read >= cs[i].lockEnd.value
  }

  lemma LocksKeptCons(c: PasswordCheck, cs: seq<PasswordCheck>)
    requires LocksKept(cs) && (c.lockEnd.Some? ==> NoneBefore(cs, c.lockEnd.value))
    ensures LocksKept([c] + cs)
  {
    var all := [c] + cs;
    forall i, j | 0 <= i < j < |all| && all[i].lockEnd.Some? ensures all[j].read >= all[i].lockEnd.value {
      assert all[j] == cs[j - 1];
      if i > 0 { assert all[i] == cs[i - 1]; }
    }
  }

  /** The lock is held until then, or that time has come. */
  predicate LockedUntil(m: Entries, id: Keys, until: real, since: real) {
    since >= until || (id.lock in m && m[id.lock].value != "" && m[id.lock].expires == Some(until))
  }

  lemma AttemptUnderLock(m: Entries, id: Keys, p: Policy, a: Attempt, since: real, until: real)
    requires id.Proper() && a.Timed(since) && LockedUntil(m, id, until, since)
    ensures LockedUntil(Attempted(m, id, p, a).0, id, until, a.set_)
    ensures NoneBefore(CheckOf(p, a, Attempted(m, id, p, a).1), until)
  {
    if a.read < until { assert LockHeld(m, id, a.read); }
  }

  lemma LockIsSet(m: Entries, id: Keys, p: Policy, a: Attempt)
    ensures forall c <- CheckOf(p, a, Attempted(m, id, p, a).1) | c.lockEnd.Some? ::
      LockedUntil(Attempted(m, id, p, a).0, id, c.lockEnd.value, a.set_)
  {}

  // ---------- A lock shorter than the window does not keep the bound ----------

  const T0: real := 1.0

  /** A wrong password, all its clock readings at one instant. */
  function WrongAt(t: real): Attempt { Attempt(false, t, t, t, t, t, t) }

  /** The instant at which a lock set at the start expires, and the end of a window opened then. */
  function LockEnd(p: Policy): real { T0 + Lifetime(p.lockout) as real }
  function WindowEnd(p: Policy): real { T0 + Lifetime(p.window) as real }

  /** A burst of `n` failing attempts at one instant, then one more the moment the lock expires. */
  function BurstThenLate(p: Policy, n: nat): (r: seq<Event>) {
    if n == 0 then [Try(WrongAt(LockEnd(p)))] else [Try(WrongAt(T0))] + BurstThenLate(p, n - 1)
  }

  /** A burst that fills the window, then one more attempt. */
  function Overrun(p: Policy): (r: seq<Event>) { BurstThenLate(p, p.Most()) }

  /** The store after `n` failures at one instant, before the lock. */
  predicate Filling(m: Entries, id: Keys, p: Policy, n: nat) {
    && id.lock !in m && Counts(m, id.fail)
    && Counter(m, id.fail) == if n == 0 then None else Some((n, WindowEnd(p)))
  }

  /** The store once the burst has set the lock. */
  predicate Filled(m: Entries, id: Keys, p: Policy) {
    && m.Keys >= {id.lock, id.fail}
    && m[id.lock].expires == Some(LockEnd(p))
    && Counts(m, id.fail) && Counter(m, id.fail) == Some((p.Most(), WindowEnd(p)))
  }

  /** The store of a burst in which `n` attempts have failed. */
  predicate Bursting(m: Entries, id: Keys, p: Policy, n: nat) {
    if n < p.Most() then Filling(m, id, p, n) else Filled(m, id, p)
  }

  /** A failure with this number in the one window of an overrun. */
  predicate Fails(o: Outcome, p: Policy, number: int) {
    o.Failure? && o.call.number == number && o.call.window == WindowEnd(p)
  }

  lemma BurstStep(m: Entries, id: Keys, p: Policy, n: nat)
    requires id.Proper() && n < p.Most() && Bursting(m, id, p, n)
    ensures var (m', o) := Attempted(m, id, p, WrongAt(T0)); Fails(o, p, n + 1) && Bursting(m', id, p, n + 1)
  {
    IncrementCounts(m, id.fail, p.window, T0, T0);
  }

  lemma LateStep(m: Entries, id: Keys, p: Policy)
    requires id.Proper() && Lifetime(p.lockout) < Lifetime(p.window) && Filled(m, id, p)
    ensures Fails(Attempted(m, id, p, WrongAt(LockEnd(p))).1, p, p.Most() + 1)
  {
    var t := LockEnd(p);
    IncrementCounts(Lazy(m, Op.Get(id.lock, t)).0, id.fail, p.window, t, t);
  }

  predicate Exceeding(cs: seq<Call>, p: Policy, n: nat) {
    && n <= p.Most() && |cs| == p.Most() - n + 1
    && forall i | 0 <= i < |cs| :: cs[i].number == n + i + 1 && cs[i].window == WindowEnd(p)
  }

  lemma WrongFails(m: Entries, id: Keys, p: Policy, t: real)
    ensures !Attempted(m, id, p, WrongAt(t)).1.Success? && WrongAt(t).Timed(t)
  {}

  lemma TryThen(m: Entries, id: Keys, p: Policy, a: Attempt, rest: seq<Event>, since: real)
    requires a.Timed(since) && !Attempted(m, id, p, a).1.Success? &&
        FailingRun(Attempted(m, id, p, a).0, id, p, rest, a.set_)
    ensures FailingRun(m, id, p, [Try(a)] + rest, since)
  {
    assert ([Try(a)] + rest)[1..] == rest;
  }

  lemma {:induction false} OverrunIsRun(m: Entries, id: Keys, p: Policy, n: nat)
    ensures FailingRun(m, id, p, BurstThenLate(p, n), T0)
    decreases n
  {
    var t, rest := if n == 0 then LockEnd(p) else T0, if n == 0 then [] else BurstThenLate(p, n - 1);
    WrongFails(m, id, p, t);
    if n > 0 { OverrunIsRun(Attempted(m, id, p, WrongAt(T0)).0, id, p, n - 1); }
    assert BurstThenLate(p, n) == [Try(WrongAt(t))] + rest;
    TryThen(m, id, p, WrongAt(t), rest, T0);
  }

  lemma ExceedingCons(c: Call, rest: seq<Call>, p: Policy, n: nat)
    requires n < p.Most() && Exceeding(rest, p, n + 1) && c.number == n + 1 && c.window == WindowEnd(p)
    ensures Exceeding([c] + rest, p, n)
  {}

  lemma OverrunStep(m: Entries, id: Keys, p: Policy, n: nat, a: Attempt, rest: seq<Event>)
    requires n < p.Most() && Fails(Attempted(m, id, p, a).1, p, n + 1)
    requires Exceeding(Failures(Attempted(m, id, p, a).0, id, p, rest), p, n + 1)
    ensures Exceeding(Failures(m, id, p, [Try(a)] + rest), p, n)
  {
    var step := Attempted(m, id, p, a);
    assert ([Try(a)] + rest)[1..] == rest;
    FailuresUnfold(m, id, p, [Try(a)] + rest);
    ExceedingCons(step.1.call, Failures(step.0, id, p, rest), p, n);
  }

  lemma OverrunEnd(m: Entries, id: Keys, p: Policy)
    requires id.Proper() && Lifetime(p.lockout) < Lifetime(p.window) && Filled(m, id, p)
    ensures Exceeding(Failures(m, id, p, [Try(WrongAt(LockEnd(p)))]), p, p.Most())
  {
    var late := [Try(WrongAt(LockEnd(p)))];
    LateStep(m, id, p);
    FailuresUnfold(m, id, p, late);
    assert late[1..] == [];
  }

  /** The failures of an overrun all fall in one window and number one more than the most. */
  lemma {:induction false} OverrunExceeds(m: Entries, id: Keys, p: Policy, n: nat)
    requires id.Proper() && Lifetime(p.lockout) < Lifetime(p.window) && n <= p.Most() && Bursting(m, id, p, n)
    ensures Exceeding(Failures(m, id, p, BurstThenLate(p, p.Most() - n)), p, n)
    decreases p.Most() - n
  {
    if n < p.Most() {
      BurstStep(m, id, p, n);
      OverrunExceeds(Attempted(m, id, p, WrongAt(T0)).0, id, p, n + 1);
      OverrunStep(m, id, p, n, WrongAt(T0), BurstThenLate(p, p.Most() - n - 1));
    } else {
      OverrunEnd(m, id, p);
    }
  }

  lemma {:induction false} RankOfOverrun(cs: seq<Call>, i: nat)
    requires i < |cs| && forall j | 0 <= j < |cs| :: cs[j].window == cs[0].window
    ensures Rank(cs, i) == i + 1
    decreases i
  {
    var mine := set j | 0 <= j <= i && cs[j].window == cs[i].window;
    if i > 0 {
      RankOfOverrun(cs, i - 1);
      var before := set j | 0 <= j <= i - 1 && cs[j].window == cs[i - 1].window;
      assert mine == before + {i};
    } else {
      assert mine == {0};
    }
  }

  /** The bound per window holds in every run exactly when the lock lasts at least as long as the window. */
  lemma LockoutBoundedIff(digest: string, p: Policy)
    ensures WindowsBounded(KeysOf(digest), p) <==> Lifetime(p.lockout) >= Lifetime(p.window)
  {
    KeysDiffer("", "", digest, digest);
    BoundedIff(KeysOf(digest), p);
  }

  lemma BoundedIff(id: Keys, p: Policy)
    requires id.Proper()
    ensures WindowsBounded(id, p) <==> Lifetime(p.lockout) >= Lifetime(p.window)
  {
    if Lifetime(p.lockout) >= Lifetime(p.window) {
      forall m: Entries, events, i | id.fail !in m && id.lock !in m && FailingRun(m, id, p, events, 1.0) &&
          0 <= i < |Failures(m, id, p, events)|
        ensures Rank(Failures(m, id, p, events), i) <= p.Most()
      {
        LockoutBounds(m, id, p, events, 1.0, 1.0);
      }
    } else {
      var m: Entries, events := map[], Overrun(p);
      OverrunIsRun(m, id, p, p.Most());
      OverrunExceeds(m, id, p, 0);
      var cs := Failures(m, id, p, events);
      RankOfOverrun(cs, p.Most());
      assert FailingRun(m, id, p, events, 1.0);
      assert Rank(cs, p.Most()) > p.Most();
    }
  }
}
