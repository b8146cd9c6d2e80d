/** The fixed-window rate limiter and the login lockout, on top of the expiring store. */
module RateLimiter {
  import opened Wrappers
  import opened SecurityStore
  import Decimal
  import opened FixedWindows

  // ---------- A counter that some calls increment and the rest of the traffic leaves alone ----------

  /** The count and deadline that the store holds for a key. */
  function Counter(m: Entries, key: string): Option<(int, real)> {
    if key in m && m[key].expires.Some? && Decimal.Parse(m[key].value).Some?
    then Some((Decimal.Parse(m[key].value).value, m[key].expires.value)) else None
  }

  /** A key is absent, or holds a positive count with a deadline after the clock's zero. */
  predicate Counts(m: Entries, key: string) {
    key in m ==> Counter(m, key).Some? && Counter(m, key).value.0 >= 1 && Counter(m, key).value.1 > 0.0
  }

  /** What one increment does to a counter. */
  function Counted(m: Entries, key: string, ttl: int, now: real, later: real): Call
    requires Counts(m, key)
  {
    match Counter(m, key)
    case Some((n, deadline)) =>
      if deadline <= now then Call(later, later + Lifetime(ttl) as real, 1) else Call(later, deadline, n + 1)
    case None => Call(later, later + Lifetime(ttl) as real, 1)
  }

  lemma IncrementCounts(m: Entries, key: string, ttl: int, now: real, later: real)
    requires Counts(m, key) && 0.0 < now <= later
    ensures
      var (m', a) := Lazy(m, Op.Increment(key, ttl, now, later));
      var c := Counted(m, key, ttl, now, later);
      && a == Count(c.number) && Counts(m', key) && Counter(m', key) == Some((c.number, c.window))
      && forall k | k != key :: At(m', k, now) == At(m, k, now) && (k in m' <==> k in m) && (k in m ==> m'[k] == m[k])
  {
    Decimal.ParseWritten(Counted(m, key, ttl, now, later).number);
  }

  // ---------- The rate limiter over runs ----------

  /** One event of a run: a check of the key under study (with the clock readings of its increment and of the
      time-to-live query that follows a refusal), or any other call on the store. */
  datatype Event = Check(now: real, later: real, probe: real, probeLater: real) | Other(op: Op)
  {
    predicate Timed(since: real) {
      if Check? then since <= now <= later <= probe <= probeLater else since <= op.now && op.Timed()
    }

    function End(): real { if Check? then probeLater else op.End() }
  }

  predicate Touches(op: Op, key: string) { if op.Delete? then key in op.keys else op.key == key }

  /** The events of a run: the clock goes forward and nothing else writes the key. */
  predicate Run(events: seq<Event>, key: string, since: real) {
    events == [] ||
    (events[0].Timed(since) && (events[0].Other? ==> !Touches(events[0].op, key)) &&
        Run(events[1..], key, events[0].End()))
  }

  datatype Verdict = Admit | Refuse(retryAfter: int) | Fault

  /** A check increments the counter of its key, and reads the time to live when the count is too high. */
  function Checked(m: Entries, key: string, limit: int, window: int, e: Event): (Entries, Answer, Verdict)
    requires e.Check?
  {
    var (m1, a) := Lazy(m, Op.Increment(key, window, e.now, e.later));
    if a.Count? && a.count > limit then
      var (m2, s) := Lazy(m1, Op.Ttl(key, e.probe, e.probeLater));
      (m2, a, Refuse(if s.Seconds? && s.seconds.Some? && s.seconds.value != 0 then s.seconds.value else window))
    else (m1, a, if a.Count? then Admit else Fault)
  }

  /** The call that an increment's answer and the store after it show. */
  function Seen(m: Entries, key: string, later: real, a: Answer): Call {
    Call(later, if Counter(m, key).Some? then Counter(m, key).value.1
        else 0.0, if a.Count? && a.count >= 0 then a.count else 0)
  }

  /** The checks of a run, each with its window, its number there and the verdict. */
  function Checks(m: Entries, key: string, limit: int, window: int, events: seq<Event>): (r: seq<(Call, Verdict)>)
    decreases |events|
  {
    if events == [] then []
    else if events[0].Other? then Checks(Lazy(m, events[0].op).0, key, limit, window, events[1..])
    else
      var e := events[0];
      var (m', a, v) := Checked(m, key, limit, window, e);
      [(Seen(Lazy(m, Op.Increment(key, window, e.now, e.later)).0, key, e.later, a), v)]
          + Checks(m', key, limit, window, events[1..])
  }

  function Calls(cs: seq<(Call, Verdict)>): (r: seq<Call>)
    ensures |r| == |cs| && forall i | 0 <= i < |cs| :: r[i] == cs[i].0
  {
    seq(|cs|, i requires 0 <= i < |cs| => cs[i].0)
  }

  /** How many checks were admitted in the half-open interval from `a` to `b`. */
  function AdmitsBetween(cs: seq<(Call, Verdict)>, a: real, b: real): (n: nat) {
    if cs == [] then 0
    else (if a <= cs[0].0.at < b && cs[0].1.Admit? then 1 else 0) + AdmitsBetween(cs[1..], a, b)
  }

  lemma {:induction false} AdmitsAreAdmitted(cs: seq<(Call, Verdict)>, limit: int, most: nat, a: real, b: real)
    requires forall i | 0 <= i < |cs| :: cs[i].0.number >= 1 && (cs[i].1.Admit? <==> cs[i].0.number <= limit)
    requires most == if limit > 0 then limit else 0
    ensures AdmitsBetween(cs, a, b) == Admitted(Calls(cs), most, a, b)
  {
    if cs != [] {
      assert Calls(cs)[1..] == Calls(cs[1..]);
      AdmitsAreAdmitted(cs[1..], limit, most, a, b);
    }
  }

  /** The first check after a state continues the counter's window or opens a new one past its deadline. */
  predicate Continues(counter: Option<(int, real)>, c: Call, since: real, length: real) {
    && since <= c.at
    && match counter
       case None => Opens(c, length)
       case Some((n, deadline)) =>
         if c.window == deadline then c.number == n + 1 else deadline <= c.at && Opens(c, length)
  }

  lemma OthersLeaveKey(m: Entries, op: Op, key: string)
    requires !Touches(op, key)
    ensures key in Lazy(m, op).0 <==> key in m
    ensures key in m ==> Lazy(m, op).0[key] == m[key]
  {}

  lemma CheckCounts(m: Entries, key: string, limit: int, window: int, e: Event)
    requires Counts(m, key) && e.Check? && e.Timed(e.now) && 0.0 < e.now
    ensures
      var (m', a, v) := Checked(m, key, limit, window, e);
      var c := Counted(m, key, window, e.now, e.later);
      && c == Seen(Lazy(m, Op.Increment(key, window, e.now, e.later)).0, key, e.later, a)
      && (v.Admit? <==> c.number <= limit) && !v.Fault? && Counts(m', key)
      && (Counter(m', key) == Some((c.number, c.window)) || (Counter(m', key) == None && c.window <= e.probe))
  {
    IncrementCounts(m, key, window, e.now, e.later);
  }

  /** The window structure of every run, and the verdict of each check. */
  lemma {:induction false} ChecksAreWindowed(m: Entries, key: string, limit: int, window: int, events: seq<Event>,
      since: real)
    requires Counts(m, key) && since > 0.0 && Run(events, key, since)
    ensures
      var cs := Checks(m, key, limit, window, events);
      && (forall i | 0 <= i < |cs| :: cs[i].0.number >= 1 && (cs[i].1.Admit? <==> cs[i].0.number <= limit))
      && (forall i | 0 <= i < |cs| - 1 :: Succeeds(cs[i].0, cs[i + 1].0, Lifetime(window) as real))
      && (cs != [] ==> Continues(Counter(m, key), cs[0].0, since, Lifetime(window) as real))
    decreases |events|
  {
    if events != [] {
      var e := events[0];
      if e.Other? {
        OthersLeaveKey(m, e.op, key);
        ChecksAreWindowed(Lazy(m, e.op).0, key, limit, window, events[1..], e.End());
      } else {
        CheckCounts(m, key, limit, window, e);
        var m' := Checked(m, key, limit, window, e).0;
        ChecksAreWindowed(m', key, limit, window, events[1..], e.End());
        var cs, rest := Checks(m, key, limit, window, events), Checks(m', key, limit, window, events[1..]);
        var c := Counted(m, key, window, e.now, e.later);
        assert cs[0].0 == c && cs[1..] == rest;
        if rest != [] {
          assert Succeeds(c, rest[0].0, Lifetime(window) as real);
        }
        forall i | 0 <= i < |cs| - 1 ensures Succeeds(cs[i].0, cs[i + 1].0, Lifetime(window) as real) {
          assert i > 0 ==> cs[i] == rest[i - 1] && cs[i + 1] == rest[(i - 1) + 1];
        }
      }
    }
  }

  /** In every run, from a store without the key: each window admits exactly its first `limit` checks, and any
      half-open interval as long as a window admits at most twice the limit. */
  lemma RateLimit(m: Entries, key: string, limit: int, window: int, events: seq<Event>, since: real, a: real)
    requires key !in m && since > 0.0 && Run(events, key, since)
    ensures
      var cs := Checks(m, key, limit, window, events);
      var most := if limit > 0 then limit else 0;
      && (forall i | 0 <= i < |cs| :: cs[i].1.Admit? <==> Rank(Calls(cs), i) <= limit)
      && AdmitsBetween(cs, a, a + Lifetime(window) as real) <= 2 * most
  {
    var length := Lifetime(window) as real;
    ChecksAreWindowed(m, key, limit, window, events, since);
    var cs := Checks(m, key, limit, window, events);
    forall i | 0 <= i < |Calls(cs)| - 1 ensures Succeeds(Calls(cs)[i], Calls(cs)[i + 1], length) {
      assert Succeeds(cs[i].0, cs[i + 1].0, length);
    }
    assert Windowed(Calls(cs), length);
    AnyInterval(Calls(cs), if limit > 0 then limit else 0, a, length);
    AdmitsAreAdmitted(cs, limit, if limit > 0 then limit else 0, a, a + length);
    forall i | 0 <= i < |cs| ensures cs[i].1.Admit? <==> Rank(Calls(cs), i) <= limit {
      NumberIsRank(Calls(cs), length, i);
    }
  }

  /** The advice given with a refusal: one second past it the window is over, so the next check is number one. */
  lemma RetryAfterSuffices(m: Entries, key: string, limit: int, window: int, e: Event, next: real, nextLater: real)
    requires Counts(m, key) && e.Check? && 0.0 < e.now && e.Timed(e.now) && e.probeLater <= next
    requires Checked(m, key, limit, window, e).2.Refuse?
    requires e.probeLater + (Checked(m, key, limit, window, e).2.retryAfter + 1) as real <= next <= nextLater
    ensures Counts(Checked(m, key, limit, window, e).0, key)
    ensures Counted(Checked(m, key, limit, window, e).0, key, window, next, nextLater).number == 1
  {
    IncrementCounts(m, key, window, e.now, e.later);
    var m1 := Lazy(m, Op.Increment(key, window, e.now, e.later)).0;
    TtlBounds(m1, key, e.probe, e.probeLater);
  }
}
