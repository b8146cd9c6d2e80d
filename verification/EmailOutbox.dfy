/** The email outbox: bounded attempts with exponential backoff. */
module EmailOutbox {
  import opened Wrappers
  import opened Budget

  type Time = real

  datatype Status = Pending | Retry | Sent | Failed

  datatype Message = Message(status: Status, attempts: int, max: int, next: Time, last: Option<Time>,
      sentAt: Option<Time>, error: Option<string>)
  {
    predicate Retryable() { status == Pending || status == Retry }
    predicate Final() { status == Sent || status == Failed }
    predicate Due(now: Time) { Retryable() && attempts < max && next <= now }

    /** Attempts that may still be made. */
    function Left(): nat { if Retryable() && attempts < max then max - attempts else 0 }
  }

  /** One delivery: whether it went through, and the clock readings at its start and at its end. */
  datatype Send = Send(ok: bool, started: Time, finished: Time, error: string)

  function Delay(base: int, attempts: int): real {
    base as real * Pow2(if attempts >= 1 then attempts - 1 else 0) as real
  }

  function Enqueued(max: int, now: Time): Message { Message(Pending, 0, max, now, None, None, None) }

  function SentOne(m: Message, s: Send, base: int): Message {
    var n := m.attempts + 1;
    if s.ok then m.(status := Sent, attempts := n, last := Some(s.started), sentAt := Some(s.finished), error := None)
    else if n >= m.max then m.(status := Failed, attempts := n, last := Some(s.started), error := Some(s.error))
    else m.(status := Retry, attempts := n, last := Some(s.started), next := s.finished + Delay(base, n),
        error := Some(s.error))
  }

  /** What the query of a batch returns: distinct rows that are due, no more than the limit; it may skip locked rows. */
  predicate Selects(ms: seq<Message>, now: Time, limit: int, batch: seq<nat>) {
    && |batch| <= (if limit > 0 then limit else 0)
    && (forall i | 0 <= i < |batch| :: batch[i] < |ms| && ms[batch[i]].Due(now))
    && (forall i, j | 0 <= i < j < |batch| :: batch[i] != batch[j])
  }

  predicate Timed(now: Time, sends: seq<Send>) { forall s <- sends :: now <= s.started <= s.finished }

  /** A batch that is processed and committed. */
  function Processed(ms: seq<Message>, batch: seq<nat>, sends: seq<Send>, base: int): (r: seq<Message>)
    requires |sends| == |batch| && forall i | 0 <= i < |batch| :: batch[i] < |ms|
    ensures |r| == |ms|
    decreases |batch|
  {
    if batch == [] then ms
    else
      assert forall i | 0 <= i < |batch[1..]| :: batch[1..][i] == batch[i + 1];
      Processed(ms[batch[0] := SentOne(ms[batch[0]], sends[0], base)], batch[1..], sends[1..], base)
  }

  /** A processed row is its own delivery applied once, and every other row is untouched. */
  lemma {:induction false} ProcessedRows(ms: seq<Message>, batch: seq<nat>, sends: seq<Send>, base: int)
    requires |sends| == |batch| && forall i | 0 <= i < |batch| :: batch[i] < |ms|
    requires forall i, j | 0 <= i < j < |batch| :: batch[i] != batch[j]
    ensures forall i | 0 <= i < |batch| ::
        Processed(ms, batch, sends, base)[batch[i]] == SentOne(ms[batch[i]], sends[i], base)
    ensures forall k | 0 <= k < |ms| && k !in batch :: Processed(ms, batch, sends, base)[k] == ms[k]
    decreases |batch|
  {
    if batch != [] {
      var b, s := batch[1..], sends[1..];
      var ms' := ms[batch[0] := SentOne(ms[batch[0]], sends[0], base)];
      assert forall i | 0 <= i < |b| :: b[i] == batch[i + 1];
      ProcessedRows(ms', b, s, base);
      forall i | 0 <= i < |batch|
          ensures Processed(ms, batch, sends, base)[batch[i]] == SentOne(ms[batch[i]], sends[i], base) {
        if i > 0 {
          assert b[i - 1] == batch[i] && s[i - 1] == sends[i] && batch[i] != batch[0];
        } else {
          assert batch[0] !in b;
        }
      }
    }
  }

  // ---------- Runs ----------

  datatype Event = Enqueue(max: int, now: Time) | Batch(now: Time, limit: int, rows: seq<nat>, sends: seq<Send>)

  /** A delivery that was tried: when, until when, and how it went. */
  datatype Try = Try(at: Time, finished: Time, ok: bool, error: string)

  function TryOf(s: Send): Try { Try(s.started, s.finished, s.ok, s.error) }

  /** The table with the history of deliveries of each row. */
  datatype World = World(messages: seq<Message>, tries: seq<seq<Try>>)

  predicate Possible(w: World, e: Event) {
    e.Batch? ==> Selects(w.messages, e.now, e.limit, e.rows) && |e.sends| == |e.rows| && Timed(e.now, e.sends)
  }

  function TriesAfter(w: World, rows: seq<nat>, sends: seq<Send>): seq<seq<Try>>
    requires |w.tries| == |w.messages| && |sends| == |rows|
  {
    seq(|w.tries|, k requires 0 <= k < |w.tries| =>
      w.tries[k] + if k in rows then (var i := IndexOf(rows, k); [TryOf(sends[i])]) else [])
  }

  function Step(w: World, e: Event, base: int): World
    requires |w.tries| == |w.messages| && Possible(w, e)
  {
    match e
    case Enqueue(max, now) => World(w.messages + [Enqueued(max, now)], w.tries + [[]])
    case Batch(_, _, rows, sends) => World(Processed(w.messages, rows, sends, base), TriesAfter(w, rows, sends))
  }

  predicate AllPossible(w: World, events: seq<Event>, base: int)
    requires |w.tries| == |w.messages|
    decreases |events|
  {
    events == [] || (Possible(w, events[0]) && AllPossible(Step(w, events[0], base), events[1..], base))
  }

  function After(w: World, events: seq<Event>, base: int): World
    requires |w.tries| == |w.messages| && AllPossible(w, events, base)
    decreases |events|
  {
    if events == [] then w else After(Step(w, events[0], base), events[1..], base)
  }

  // ---------- The invariant of every row ----------

  /** Attempts are the tries, all of which failed except the last of a message that was sent; a failed message used
      exactly its maximum; tries are spaced by the backoff,
          a message waiting for a retry waits for exactly the next one,
      and the times and the error noted are those of the last try. */
  predicate RowOk(m: Message, tries: seq<Try>, base: int) {
    && m.attempts == |tries|
    && (forall i | 0 <= i < |tries| :: tries[i].ok <==> m.status == Sent && i == |tries| - 1)
    && (m.status == Sent ==> 1 <= m.attempts <= m.max)
    && (m.status == Failed ==> m.attempts == m.max >= 1)
    && (m.status == Retry ==>
          1 <= m.attempts < m.max && m.next == tries[|tries| - 1].finished + Delay(base, m.attempts))
    && (m.status == Pending ==> m.attempts == 0)
    && Spaced(tries, base) && Noted(m, tries)
  }

  predicate Spaced(tries: seq<Try>, base: int) {
    && (forall t <- tries :: t.at <= t.finished)
    && (forall i | 0 <= i < |tries| - 1 :: tries[i].finished + Delay(base, i + 1) <= tries[i + 1].at)
  }

  predicate Noted(m: Message, tries: seq<Try>) {
    if tries == [] then m.last == None && m.sentAt == None && m.error == None
    else
      var t := tries[|tries| - 1];
      && m.last == Some(t.at) && m.error == (if t.ok then None else Some(t.error))
      && m.sentAt == if t.ok then Some(t.finished) else None
  }

  lemma SentOneOk(m: Message, tries: seq<Try>, s: Send, base: int, now: Time)
    requires RowOk(m, tries, base) && m.Due(now) && now <= s.started <= s.finished
    ensures RowOk(SentOne(m, s, base), tries + [TryOf(s)], base)
    ensures SentOne(m, s, base).Left() + 1 <= m.Left()
  {
    var ts := tries + [TryOf(s)];
    forall i | 0 <= i < |ts| - 1 ensures ts[i].finished + Delay(base, i + 1) <= ts[i + 1].at {
      if i < |tries| - 1 {
        assert tries[i].finished + Delay(base, i + 1) <= tries[i + 1].at;
      } else {
        assert ts[i] == tries[|tries| - 1];
      }
    }
  }

  predicate Inv(w: World, base: int) {
    |w.tries| == |w.messages| && forall k | 0 <= k < |w.messages| :: RowOk(w.messages[k], w.tries[k], base)
  }

  lemma StepKeepsInv(w: World, e: Event, base: int)
    requires Inv(w, base) && Possible(w, e)
    ensures Inv(Step(w, e, base), base)
  {
    var w' := Step(w, e, base);
    if e.Batch? {
      ProcessedRows(w.messages, e.rows, e.sends, base);
      forall k | 0 <= k < |w.messages| ensures RowOk(w'.messages[k], w'.tries[k], base) {
        if k in e.rows {
          var i := IndexOf(e.rows, k);
          assert e.sends[i] in e.sends;
          SentOneOk(w.messages[k], w.tries[k], e.sends[i], base, e.now);
        } else {
          assert w'.tries[k] == w.tries[k];
        }
      }
    }
  }

  /** The invariant of every run from the empty outbox. */
  lemma {:induction false} RunKeepsInv(w: World, events: seq<Event>, base: int)
    requires Inv(w, base) && AllPossible(w, events, base)
    ensures Inv(After(w, events, base), base)
    decreases |events|
  {
    if events != [] {
      StepKeepsInv(w, events[0], base);
      RunKeepsInv(Step(w, events[0], base), events[1..], base);
    }
  }

  /** The first backoff is the base, and every later one twice the one before. */
  lemma DelayDoubles(base: int, n: nat)
    requires n >= 1
    ensures Delay(base, 1) == base as real && Delay(base, n + 1) == 2.0 * Delay(base, n)
  {
    assert Pow2(n) == 2 * Pow2(n - 1);
  }

  /** A new message is due from the moment it is queued, if it may be tried at all. */
  lemma QueuedIsDue(w: World, max: int, queued: Time, base: int, now: Time)
    requires |w.tries| == |w.messages|
    ensures var w' := Step(w, Enqueue(max, queued), base);
      && |w'.messages| == |w.messages| + 1 && w'.messages[..|w.messages|] == w.messages
      && (w'.messages[|w.messages|].Due(now) <==> max >= 1 && queued <= now)
  {}

  /** In every reachable state a message that failed so far is due again exactly when the backoff has passed since the
      end of its last try. */
  lemma RetryIsDue(w: World, base: int, k: nat, now: Time)
    requires Inv(w, base) && k < |w.messages| && w.messages[k].status == Retry
    ensures var tries := w.tries[k];
      tries != [] && (w.messages[k].Due(now) <==> tries[|tries| - 1].finished + Delay(base, |tries|) <= now)
  {
    assert RowOk(w.messages[k], w.tries[k], base);
  }

  /** What a delivery decides: sent, failed for good with the last attempt, or to be tried again. */
  lemma SendDecides(m: Message, s: Send, base: int)
    ensures var m' := SentOne(m, s, base);
      && m'.attempts == m.attempts + 1 && m'.max == m.max && (m'.status == Sent <==> s.ok)
      && (m'.status == Failed <==> !s.ok && m.attempts + 1 >= m.max)
      && (m'.status == Retry <==> !s.ok && m.attempts + 1 < m.max)
  {}

  /** A message that is sent or has failed never changes again in any run. */
  lemma {:induction false} FinalAbsorbs(w: World, events: seq<Event>, base: int, k: nat)
    requires Inv(w, base) && AllPossible(w, events, base) && k < |w.messages| && w.messages[k].Final()
    ensures k < |After(w, events, base).messages| && After(w, events, base).messages[k] == w.messages[k]
    decreases |events|
  {
    if events != [] {
      var e := events[0];
      StepKeepsInv(w, e, base);
      if e.Batch? {
        ProcessedRows(w.messages, e.rows, e.sends, base);
        assert k !in e.rows;
      }
      FinalAbsorbs(Step(w, e, base), events[1..], base, k);
    }
  }

  /** A retryable message is stuck at its limit exactly when it was queued with no attempts to make. */
  lemma StuckIff(w: World, base: int, k: nat)
    requires Inv(w, base) && k < |w.messages| && w.messages[k].Retryable()
    ensures w.messages[k].attempts >= w.messages[k].max <==> w.messages[k].max <= 0
  {
    assert RowOk(w.messages[k], w.tries[k], base);
  }

  /** An input that shows it: a message queued with a maximum of zero is retryable and is never due. */
  lemma StuckFromTheStart(base: int)
    ensures
      var w := After(World([], []), [Enqueue(0, 0.0)], base);
      |w.messages| == 1 && w.messages[0].Retryable() && forall now: Time :: !w.messages[0].Due(now)
  {
    assert [Enqueue(0, 0.0)][1..] == [];
  }

  /** The time that the first `n` backoffs take together. */
  function Waits(base: int, n: nat): real { if n == 0 then 0.0 else Waits(base, n - 1) + Delay(base, n) }

  lemma {:induction false} WaitsAre(base: int, n: nat)
    ensures Waits(base, n) == base as real * (Pow2(n) - 1) as real
  {
    if n > 0 {
      WaitsAre(base, n - 1);
      assert (Pow2(n) - 1) as real == (Pow2(n - 1) - 1) as real + Pow2(n - 1) as real;
    }
  }

  lemma WaitsAtLeast(time: real, base: int, n: nat)
    requires time >= Waits(base, n)
    ensures time >= base as real * (Pow2(n) - 1) as real
  {
    WaitsAre(base, n);
  }

  lemma SpacedAt(tries: seq<Try>, base: int, n: nat)
    requires 1 <= n < |tries| && Spaced(tries, base)
    ensures tries[n - 1].at + Delay(base, n) <= tries[n].at
  {
    assert tries[n - 1].finished + Delay(base, (n - 1) + 1) <= tries[(n - 1) + 1].at;
    assert tries[n - 1] in tries;
  }

  lemma {:induction false} TriesWait(tries: seq<Try>, base: int, n: nat)
    requires n < |tries| && Spaced(tries, base)
    ensures tries[n].at - tries[0].at >= Waits(base, n)
  {
    if n > 0 {
      TriesWait(tries, base, n - 1);
      SpacedAt(tries, base, n);
    }
  }

  lemma TriesSpread(tries: seq<Try>, base: int, n: nat)
    requires n < |tries| && Spaced(tries, base)
    ensures tries[n].at - tries[0].at >= base as real * (Pow2(n) - 1) as real
  {
    TriesWait(tries, base, n);
    WaitsAtLeast(tries[n].at - tries[0].at, base, n);
  }

  lemma FailedTries(m: Message, tries: seq<Try>, base: int)
    requires RowOk(m, tries, base) && m.status == Failed
    ensures |tries| == m.max >= 1 && (forall t <- tries :: !t.ok) && Spaced(tries, base)
  {}

  /** In every reachable state a failed message made exactly its maximum of tries, all failed, the last of them at least
      base * (2^(max - 1) - 1) seconds after the first. */
  lemma PermanentFailure(w: World, base: int, k: nat)
    requires Inv(w, base) && k < |w.messages| && w.messages[k].status == Failed
    ensures
      var m, tries := w.messages[k], w.tries[k];
      && |tries| == m.max >= 1 && (forall t <- tries :: !t.ok)
      && tries[|tries| - 1].at - tries[0].at >= base as real * (Pow2(m.max - 1) - 1) as real
  {
    FailedTries(w.messages[k], w.tries[k], base);
    TriesSpread(w.tries[k], base, w.messages[k].max - 1);
  }

  // ---------- The budget ----------

  function Lefts(ms: seq<Message>): (r: seq<nat>)
    ensures |r| == |ms| && forall i | 0 <= i < |ms| :: r[i] == ms[i].Left()
  {
    seq(|ms|, i requires 0 <= i < |ms| => ms[i].Left())
  }

  /** A batch uses up at least one remaining attempt for each message it processes. */
  lemma {:induction false} BatchSpends(ms: seq<Message>, batch: seq<nat>, sends: seq<Send>, base: int, now: Time)
    requires |sends| == |batch| && forall i | 0 <= i < |batch| :: batch[i] < |ms| && ms[batch[i]].Due(now)
    requires forall i, j | 0 <= i < j < |batch| :: batch[i] != batch[j]
    ensures Sum(Lefts(Processed(ms, batch, sends, base))) + |batch| <= Sum(Lefts(ms))
    decreases |batch|
  {
    if batch != [] {
      var m' := SentOne(ms[batch[0]], sends[0], base);
      var ms' := ms[batch[0] := m'];
      assert forall i | 0 <= i < |batch[1..]| :: batch[1..][i] == batch[i + 1];
      BatchSpends(ms', batch[1..], sends[1..], base, now);
      SumUpdate(Lefts(ms), batch[0], m'.Left());
      assert Lefts(ms') == Lefts(ms)[batch[0] := m'.Left()];
      assert m'.Left() + 1 <= ms[batch[0]].Left();
    }
  }

  /** Deliveries made in a run, and attempts that its messages were queued with. */
  function Deliveries(events: seq<Event>): (n: nat) {
    if events == [] then 0 else (if events[0].Batch? then |events[0].rows| else 0) + Deliveries(events[1..])
  }

  function Granted(events: seq<Event>): (n: nat) {
    if events == [] then 0
    else (if events[0].Enqueue? && events[0].max > 0 then events[0].max else 0) + Granted(events[1..])
  }

  /** In any run, deliveries made plus attempts still left never exceed the attempts granted: every batch that processes
      anything strictly lowers what is left, so processing comes to an end. */
  lemma {:induction false} DeliveriesBounded(w: World, events: seq<Event>, base: int)
    requires |w.tries| == |w.messages| && AllPossible(w, events, base)
    ensures Deliveries(events) + Sum(Lefts(After(w, events, base).messages)) <= Granted(events) + Sum(Lefts(w.messages))
    decreases |events|
  {
    if events != [] {
      var e := events[0];
      var w' := Step(w, e, base);
      if e.Batch? {
        BatchSpends(w.messages, e.rows, e.sends, base, e.now);
      } else {
        SumAppend(Lefts(w.messages), Enqueued(e.max, e.now).Left());
        assert Lefts(w'.messages) == Lefts(w.messages) + [Enqueued(e.max, e.now).Left()];
      }
      DeliveriesBounded(w', events[1..], base);
    }
  }

  // ---------- The service object ----------

  datatype Report = Report(processed: nat, sent: nat, retry: nat, failed: nat)

  function Limit(limit: Option<int>, batchSize: int): int {
    if limit.None? || limit.value == 0 then batchSize else limit.value
  }

  function CountStatus(ms: seq<Message>, batch: seq<nat>, s: Status): (n: nat)
    requires forall i | 0 <= i < |batch| :: batch[i] < |ms|
  {
    if batch == [] then 0
    else CountStatus(ms, batch[..|batch| - 1], s) + if ms[batch[|batch| - 1]].status == s then 1 else 0
  }

  lemma {:induction false} CountFrame(ms: seq<Message>, ms': seq<Message>, batch: seq<nat>, s: Status)
    requires |ms| == |ms'| && forall i | 0 <= i < |batch| :: batch[i] < |ms| && ms[batch[i]] == ms'[batch[i]]
    ensures CountStatus(ms, batch, s) == CountStatus(ms', batch, s)
  {
    if batch != [] { CountFrame(ms, ms', batch[..|batch| - 1], s); }
  }

  /** One more row in a tally, which changes no row tallied before. */
  lemma TallyOne(before: seq<Message>, ms: seq<Message>, batch: seq<nat>, k: nat, s: Status)
    requires |ms| == |before| && k < |batch| && forall i | 0 <= i <= k :: batch[i] < |ms|
    requires forall i | 0 <= i < k :: ms[batch[i]] == before[batch[i]]
    ensures CountStatus(ms, batch[..k + 1], s) == CountStatus(before, batch[..k], s) + if ms[batch[k]].status == s
        then 1 else 0
  {
    assert batch[..k + 1][..k] == batch[..k];
    CountFrame(before, ms, batch[..k], s);
  }

  lemma {:induction false} ProcessedSnoc(ms: seq<Message>, batch: seq<nat>, sends: seq<Send>, base: int, k: nat)
    requires |sends| == |batch| && k < |batch| && forall i | 0 <= i < |batch| :: batch[i] < |ms|
    ensures
      var before := Processed(ms, batch[..k], sends[..k], base);
      Processed(ms, batch[..k + 1], sends[..k + 1], base)
          == before[batch[k] := SentOne(before[batch[k]], sends[k], base)]
    decreases k
  {
    if k > 0 {
      var ms' := ms[batch[0] := SentOne(ms[batch[0]], sends[0], base)];
      assert forall i | 0 <= i < |batch[1..]| :: batch[1..][i] == batch[i + 1];
      ProcessedSnoc(ms', batch[1..], sends[1..], base, k - 1);
      assert batch[..k][1..] == batch[1..][..k - 1] && sends[..k][1..] == sends[1..][..k - 1];
      assert batch[..k + 1][1..] == batch[1..][..k] && sends[..k + 1][1..] == sends[1..][..k];
    } else {
      assert batch[..1][1..] == [] && sends[..1][1..] == [];
    }
  }

  class EmailOutboxService {
    const mailEnabled: bool
    const maxAttempts: int
    const base: int
    const batchSize: int
    var messages: seq<Message>

    constructor (mailEnabled: bool, maxAttempts: int, base: int, batchSize: int)
      ensures messages == [] && this.mailEnabled == mailEnabled && this.maxAttempts == maxAttempts
      ensures this.base == base && this.batchSize == batchSize
    {
      this.mailEnabled, this.maxAttempts, this.base, this.batchSize := mailEnabled, maxAttempts, base, batchSize;
      messages := [];
    }

    method Enqueue(now: Time) returns (queued: bool)
      modifies this
      ensures queued <==> mailEnabled
      ensures messages == if queued then old(messages) + [Enqueued(maxAttempts, now)] else old(messages)
    {
      if !mailEnabled { return false; }
      messages := messages + [Message(Pending, 0, maxAttempts, now, None, None, None)];
      return true;
    }

    /** One delivery; false when it failed (the method of the program raises). */
    method SendOne(k: nat, s: Send) returns (ok: bool)
      requires k < |messages|
      modifies this
      ensures messages == old(messages)[k := SentOne(old(messages)[k], s, base)] && ok == s.ok
    {
      var m := messages[k];
      m := m.(attempts := m.attempts + 1, last := Some(s.started));
      if !s.ok {
        m := m.(error := Some(s.error));
        if m.attempts >= m.max {
          m := m.(status := Failed);
        } else {
          m := m.(status := Retry, next := s.finished + Delay(base, m.attempts));
        }
        messages := messages[k := m];
        return false;
      }
      messages := messages[k := m.(status := Sent, sentAt := Some(s.finished), error := None)];
      return true;
    }

    /** Processes the rows that the query returned; the report counts what became of each. */
    method ProcessDue(limit: Option<int>, now: Time, batch: seq<nat>, sends: seq<Send>) returns (r: Report)
      requires Selects(messages, now, Limit(limit, batchSize), batch) && |sends| == |batch|
      modifies this
      ensures messages == Processed(old(messages), batch, sends, base)
      ensures r.processed == |batch| == r.sent + r.retry + r.failed
      ensures r.sent == CountStatus(messages, batch, Sent) && r.retry == CountStatus(messages, batch, Retry)
      ensures r.failed == CountStatus(messages, batch, Failed)
    {
      var sent, failed, retried := 0, 0, 0;
      for i := 0 to |batch|
        invariant messages == Processed(old(messages), batch[..i], sends[..i], base)
        invariant sent + failed + retried == i
        invariant sent == CountStatus(messages, batch[..i], Sent) && retried == CountStatus(messages, batch[..i], Retry)
        invariant failed == CountStatus(messages, batch[..i], Failed)
      {
        ghost var before := messages;
        ProcessedSnoc(old(messages), batch, sends, base, i);
        var ok := SendOne(batch[i], sends[i]);
        if ok { sent := sent + 1; }
        else if messages[batch[i]].status == Failed { failed := failed + 1; }
        else { retried := retried + 1; }
        assert forall j | 0 <= j < i :: batch[j] != batch[i] && messages[batch[j]] == before[batch[j]];
        TallyOne(before, messages, batch, i, Sent);
        TallyOne(before, messages, batch, i, Retry);
        TallyOne(before, messages, batch, i, Failed);
      }
      assert batch[..|batch|] == batch && sends[..|batch|] == sends;
      r := Report(|batch|, sent, retried, failed);
    }
  }
}
