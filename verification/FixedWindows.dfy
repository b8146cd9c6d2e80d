/** Counted calls in fixed windows: what a window's own count implies for an interval placed anywhere. */
module FixedWindows {

  /** One counted call: when it was counted, the deadline of its window, and its number in that window. */
  datatype Call = Call(at: real, window: real, number: nat)

  /** Consecutive calls either share a window, or the later one opens a new window of length `length` at its own
      time, no earlier than the deadline of the window before. */
  predicate Succeeds(c: Call, d: Call, length: real) {
    c.at <= d.at &&
    if d.window == c.window then d.number == c.number + 1
    else c.window <= d.at && Opens(d, length)
  }

  predicate Opens(d: Call, length: real) { d.number == 1 && d.window == d.at + length }

  predicate Windowed(calls: seq<Call>, length: real) {
    && (forall c <- calls :: c.number >= 1)
    && (forall i | 0 <= i < |calls| - 1 :: Succeeds(calls[i], calls[i + 1], length))
    && (calls != [] ==> Opens(calls[0], length))
  }

  lemma PrependCall(c: Call, rest: seq<Call>, length: real)
    requires rest != [] ==> Succeeds(c, rest[0], length)
    requires forall i | 0 <= i < |rest| - 1 :: Succeeds(rest[i], rest[i + 1], length)
    ensures forall i | 0 <= i < |[c] + rest| - 1 :: Succeeds(([c] + rest)[i], ([c] + rest)[i + 1], length)
  {
    var cs := [c] + rest;
    forall i | 0 <= i < |cs| - 1 ensures Succeeds(cs[i], cs[i + 1], length) {
      assert i > 0 ==> cs[i] == rest[i - 1] && cs[i + 1] == rest[(i - 1) + 1];
    }
  }

  /** The calls among the first `limit` of their window that fall in the half-open interval from `a` to `b`. */
  function Admitted(calls: seq<Call>, limit: nat, a: real, b: real): (n: nat) {
    if calls == [] then 0
    else (if a <= calls[0].at < b && calls[0].number <= limit then 1 else 0) + Admitted(calls[1..], limit, a, b)
  }

  /** How many of calls[..=i] lie in the window of calls[i]. */
  function Rank(calls: seq<Call>, i: nat): (n: nat)
    requires i < |calls|
  {
    |set j | 0 <= j <= i && calls[j].window == calls[i].window|
  }

  /** Time moves forward through the calls and a window, once left, never comes back. */
  lemma {:induction false} Ordered(calls: seq<Call>, length: real, i: nat, j: nat)
    requires length > 0.0 && Windowed(calls, length) && i <= j < |calls|
    ensures calls[i].at <= calls[j].at && calls[i].window <= calls[j].window
    ensures calls[i].window < calls[j].window ==> calls[i].window <= calls[j].at
    decreases j - i
  {
    if i < j {
      Ordered(calls, length, i, j - 1);
      assert Succeeds(calls[j - 1], calls[j], length);
      assert calls[j].window != calls[j - 1].window ==> calls[j].window >= calls[j - 1].window + length;
    }
  }

  lemma RankGrows(calls: seq<Call>, i: nat)
    requires 0 < i < |calls| && calls[i - 1].window == calls[i].window
    ensures Rank(calls, i) == Rank(calls, i - 1) + 1
  {
    var mine := set j | 0 <= j <= i && calls[j].window == calls[i].window;
    var before := set j | 0 <= j <= i - 1 && calls[j].window == calls[i - 1].window;
    assert mine == before + {i};
  }

  lemma RankStarts(calls: seq<Call>, i: nat)
    requires i < |calls| && forall j | 0 <= j < i :: calls[j].window != calls[i].window
    ensures Rank(calls, i) == 1
  {
    assert (set j | 0 <= j <= i && calls[j].window == calls[i].window) == {i};
  }

  /** The number of a call is its position among the calls of its window. */
  lemma {:induction false} NumberIsRank(calls: seq<Call>, length: real, i: nat)
    requires length > 0.0 && Windowed(calls, length) && i < |calls|
    ensures calls[i].number == Rank(calls, i)
  {
    if i > 0 && calls[i - 1].window == calls[i].window {
      NumberIsRank(calls, length, i - 1);
      assert Succeeds(calls[i - 1], calls[i], length);
      RankGrows(calls, i);
    } else {
      forall j | 0 <= j < i ensures calls[j].window != calls[i].window {
        Ordered(calls, length, j, i - 1);
        assert Succeeds(calls[i - 1], calls[i], length);
      }
      RankStarts(calls, i);
      assert i > 0 ==> Succeeds(calls[i - 1], calls[i], length);
    }
  }

  /** Calls of the head's window that may still be admitted. */
  function Left(c: Call, limit: nat): int { if c.number <= limit then limit - c.number + 1 else 0 }

  /** The bound that the head of the calls imposes on all of them. */
  function Bound(calls: seq<Call>, limit: nat, a: real, b: real): int {
    if calls == [] || calls[0].at >= b then 0
    else if calls[0].at < a then 2 * limit
    else if calls[0].window >= b then Left(calls[0], limit)
    else Left(calls[0], limit) + limit
  }

  lemma {:induction false} AdmittedWithinBound(calls: seq<Call>, limit: nat, a: real, length: real)
    requires length > 0.0
    requires forall c <- calls :: c.number >= 1
    requires forall i | 0 <= i < |calls| - 1 :: Succeeds(calls[i], calls[i + 1], length)
    ensures Admitted(calls, limit, a, a + length) <= Bound(calls, limit, a, a + length) <= 2 * limit
  {
    if calls != [] {
      var rest := calls[1..];
      forall i | 0 <= i < |rest| - 1 ensures Succeeds(rest[i], rest[i + 1], length) {
        assert Succeeds(calls[i + 1], calls[(i + 1) + 1], length);
      }
      AdmittedWithinBound(rest, limit, a, length);
      if rest != [] {
        assert Succeeds(calls[0], calls[0 + 1], length);
      }
    }
  }

  /** At most twice the limit is admitted in any interval as long as a window, wherever it starts. */
  lemma AnyInterval(calls: seq<Call>, limit: nat, a: real, length: real)
    requires length > 0.0 && Windowed(calls, length)
    ensures Admitted(calls, limit, a, a + length) <= 2 * limit
  {
    AdmittedWithinBound(calls, limit, a, length);
  }
}
