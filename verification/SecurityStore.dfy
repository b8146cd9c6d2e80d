/** The in-memory path of the security key-value store: a dictionary whose entries expire lazily. */
module SecurityStore {
  import opened Wrappers
  import Decimal

  datatype Entry = Entry(value: string, expires: Option<real>)
  type Entries = map<string, Entry>

  predicate Expired(e: Entry, now: real) { e.expires.Some? && e.expires.value <= now }

  /** Conversion of a float to an integer, which truncates toward zero. */
  function Truncate(x: real): int { if x >= 0.0 then x.Floor else -((-x).Floor) }

  /** A time to live is at least one second. */
  function Lifetime(ttl: int): int { if ttl >= 1 then ttl else 1 }

  /** What a reader of `key` can still see at time `now`. */
  function At(m: Entries, key: string, now: real): Option<Entry> {
    if key in m && !Expired(m[key], now) then Some(m[key]) else None
  }

  // ---------- Operations and their meaning on a plain dictionary ----------

  /** One call on the store, with its clock readings: `now` for the expiry check (or the write), `later` for
      the reading that follows it. */
  datatype Op =
    | Get(key: string, now: real)
    | Set(key: string, value: string, ttl: int, now: real)
    | Delete(keys: seq<string>, now: real)
    | Increment(key: string, ttl: int, now: real, later: real)
    | Ttl(key: string, now: real, later: real)
  {
    predicate Timed() { (Increment? || Ttl?) ==> now <= later }

    /** The last clock reading of the call. */
    function End(): real { if Increment? || Ttl? then later else now }
  }

  datatype Answer = Done | Text(text: Option<string>) | Count(count: int) | Seconds(seconds: Option<int>) | NotANumber

  /** The count held for a key: zero when there is none, nothing when the text is not a number. */
  function Held(e: Option<Entry>): Option<int> {
    if e.None? then Some(0) else Decimal.Parse(e.value.value)
  }

  /** The expiry an increment leaves behind: the one already there if it has one (a zero counts as none). */
  function Deadline(e: Option<Entry>, ttl: int, later: real): real {
    if e.Some? && e.value.expires.Some? && e.value.expires.value != 0.0 then e.value.expires.value
    else later + Lifetime(ttl) as real
  }

  function Without(m: Entries, keys: seq<string>): Entries { map k | k in m && k !in keys :: m[k] }

  /** An operation on a dictionary none of whose entries is stale. */
  function Plain(m: Entries, op: Op): (Entries, Answer) {
    match op
    case Get(k, _) => (m, Text(if k in m then Some(m[k].value) else None))
    case Set(k, v, ttl, now) => (m[k := Entry(v, Some(now + Lifetime(ttl) as real))], Done)
    case Delete(keys, _) => (Without(m, keys), Done)
    case Increment(k, ttl, _, later) =>
      var e := if k in m then Some(m[k]) else None;
      (match Held(e)
       case None => (m, NotANumber)
       case Some(n) => (m[k := Entry(Decimal.Written(n + 1), Some(Deadline(e, ttl, later)))], Count(n + 1)))
    case Ttl(k, _, later) =>
      (m, Seconds(if k in m && m[k].expires.Some? then Some(Remaining(m[k].expires.value, later)) else None))
  }

  /** Whole seconds until `expires`, never less than one. */
  function Remaining(expires: real, later: real): int { Lifetime(Truncate(expires - later)) }

  // ---------- The lazy store of the program and the eager store it stands for ----------

  /** The program drops a stale entry only when an operation reads its key. */
  function Purge(m: Entries, key: string, now: real): Entries {
    if key in m && Expired(m[key], now) then m - {key} else m
  }

  function Lazy(m: Entries, op: Op): (Entries, Answer) {
    if op.Set? || op.Delete? then Plain(m, op) else Plain(Purge(m, op.key, op.now), op)
  }

  /** The reference store drops every entry the moment it expires. */
  function Live(m: Entries, now: real): Entries { map k | k in m && !Expired(m[k], now) :: m[k] }

  function Eager(m: Entries, op: Op): (Entries, Answer) { Plain(Live(m, op.now), op) }

  function LazyAnswers(m: Entries, ops: seq<Op>): (r: seq<Answer>)
    decreases |ops|
  {
    if ops == [] then [] else var (m', a) := Lazy(m, ops[0]); [a] + LazyAnswers(m', ops[1..])
  }

  function EagerAnswers(m: Entries, ops: seq<Op>): (r: seq<Answer>)
    decreases |ops|
  {
    if ops == [] then [] else var (m', a) := Eager(m, ops[0]); [a] + EagerAnswers(m', ops[1..])
  }

  /** The clock never goes back within the calls, nor before `since`. */
  predicate Chronological(ops: seq<Op>, since: real) {
    ops == [] || (since <= ops[0].now && ops[0].Timed() && Chronological(ops[1..], ops[0].End()))
  }

  /** Two dictionaries that no reader can tell apart from `since` on. */
  ghost predicate Agree(m: Entries, n: Entries, since: real) {
    forall k, t: real | since <= t :: At(m, k, t) == At(n, k, t)
  }

  lemma StepsAgree(m: Entries, n: Entries, op: Op, since: real)
    requires Agree(m, n, since) && since <= op.now && op.Timed()
    ensures Lazy(m, op).1 == Eager(n, op).1
    ensures Agree(Lazy(m, op).0, Eager(n, op).0, op.End())
  {
    var m', n' := Lazy(m, op).0, Eager(n, op).0;
    if !op.Delete? {
      assert At(m, op.key, op.now) == At(n, op.key, op.now);
    }
    forall k, t: real | op.End() <= t ensures At(m', k, t) == At(n', k, t) {
      assert At(m, k, t) == At(n, k, t);
      assert At(m, k, op.now) == At(n, k, op.now);
    }
  }

  /** Lazy expiry is unobservable: every sequence of calls gets the answers of the eager store. */
  lemma {:induction false} LazyRefinesEager(m: Entries, n: Entries, ops: seq<Op>, since: real)
    requires Agree(m, n, since) && Chronological(ops, since)
    ensures LazyAnswers(m, ops) == EagerAnswers(n, ops)
    decreases |ops|
  {
    if ops != [] {
      StepsAgree(m, n, ops[0], since);
      LazyRefinesEager(Lazy(m, ops[0]).0, Eager(n, ops[0]).0, ops[1..], ops[0].End());
    }
  }

  /** A time to live that is reported is positive and rounds the remaining time r down: r < n + 1,
      and n <= r once r >= 1. */
  lemma TtlBounds(m: Entries, key: string, now: real, later: real)
    requires now <= later
    ensures
      match Lazy(m, Ttl(key, now, later)).1
      case Seconds(Some(n)) =>
        At(m, key, now).Some? && m[key].expires.Some? &&
        var r := m[key].expires.value - later;
        n >= 1 && r < (n + 1) as real && (r >= 1.0 ==> n as real <= r)
      case Seconds(None) => At(m, key, now).None? || m[key].expires.None?
      case _ => false
  {
    if At(m, key, now).Some? && m[key].expires.Some? {
      var r := m[key].expires.value - later;
      assert r >= 0.0 ==> r.Floor as real <= r < (r.Floor + 1) as real;
    }
  }

  // ---------- What is read after a call ----------

  /** The text of an entry whose deadline has not come. */
  function Read(m: Entries, key: string, t: real): Option<string> {
    if key in m && (m[key].expires.None? || t < m[key].expires.value) then Some(m[key].value) else None
  }

  /** A text that was written with this end. */
  function Until(text: string, end: real, t: real): Option<string> { if t < end then Some(text) else None }

  lemma GetReads(m: Entries, key: string, t: real)
    ensures Lazy(m, Get(key, t)).1 == Text(Read(m, key, t))
  {}

  /** A written text is read for its time to live and at least a second, a deleted one never, any other as before. */
  lemma ReadAfterWrite(m: Entries, key: string, value: string, ttl: int, keys: seq<string>, now: real, k: string,
      t: real)
    requires now <= t
    ensures Read(Lazy(m, Set(key, value, ttl, now)).0, k, t) ==
      if k != key then Read(m, k, t) else Until(value, now + (if ttl < 1 then 1 else ttl) as real, t)
    ensures Read(Lazy(m, Delete(keys, now)).0, k, t) == if k in keys then None else Read(m, k, t)
  {}

  /** Reading changes nothing that a reader sees from then on. */
  lemma ReadAfterRead(m: Entries, key: string, now: real, later: real, k: string, t: real)
    requires now <= later && now <= t
    ensures Read(Lazy(m, Get(key, now)).0, k, t) == Read(m, k, t)
    ensures Read(Lazy(m, Ttl(key, now, later)).0, k, t) == Read(m, k, t)
  {}

  /** An increment answers one more than the number held, or one if none is; the new number is read until the deadline
      that was there, or for the time to live given. What is no number stays, and so does every other key. */
  lemma ReadAfterIncrement(m: Entries, key: string, ttl: int, now: real, later: real, k: string, t: real)
    requires now <= later <= t
    ensures
      var (m', answer) := Lazy(m, Increment(key, ttl, now, later));
      var held := Read(m, key, now);
      var end := if held.Some? && m[key].expires.Some? && m[key].expires.value != 0.0 then m[key].expires.value
          else later + (if ttl < 1 then 1 else ttl) as real;
      if k != key then Read(m', k, t) == Read(m, k, t)
      else if held.None? then answer == Count(1) && Read(m', k, t) == Until("1", end, t)
      else match Decimal.Parse(held.value)
        case None => answer == NotANumber && Read(m', k, t) == Read(m, k, t)
        case Some(n) => answer == Count(n + 1) && Read(m', k, t) == Until(Decimal.Written(n + 1), end, t)
  {
    assert Decimal.Written(1) == "1";
  }

  // ---------- The store object ----------

  /** The store; `memory` says whether the in-memory path may be used (no client, and the fallback allowed). */
  class SecurityKeyValueStore {
    const memory: bool
    var entries: Entries

    constructor (memory: bool)
      ensures this.memory == memory && entries == map[]
    {
      this.memory := memory;
      entries := map[];
    }

    method DeleteIfExpired(key: string, now: real)
      modifies this`entries
      ensures entries == Purge(old(entries), key, now)
    {
      if key in entries {
        var e := entries[key];
        if e.expires.Some? && e.expires.value <= now {
          entries := entries - {key};
        }
      }
    }

    method Get(key: string, now: real) returns (r: Option<string>)
      modifies this`entries
      ensures memory ==> (entries, Text(r)) == Lazy(old(entries), Op.Get(key, now))
      ensures !memory ==> entries == old(entries) && r == None
    {
      if !memory { return None; }
      DeleteIfExpired(key, now);
      if key in entries { r := Some(entries[key].value); } else { r := None; }
    }

    method Set(key: string, value: string, ttl: int, now: real)
      modifies this`entries
      ensures entries == if memory then Lazy(old(entries), Op.Set(key, value, ttl, now)).0 else old(entries)
    {
      var life := if ttl < 1 then 1 else ttl;
      if memory {
        entries := entries[key := Entry(value, Some(now + life as real))];
      }
    }

    method Delete(keys: seq<string>)
      modifies this`entries
      ensures entries == if memory then Without(old(entries), keys) else old(entries)
    {
      if !memory { return; }
      for i := 0 to |keys|
        invariant entries == Without(old(entries), keys[..i])
      {
        entries := entries - {keys[i]};
      }
    }

    /** The new count, or nothing when the text held is not a number (the conversion raises). */
    method Increment(key: string, ttl: int, now: real, later: real) returns (r: Option<int>)
      modifies this`entries
      ensures memory ==>
        var answer := if r.Some? then Count(r.value) else NotANumber;
        (entries, answer) == Lazy(old(entries), Op.Increment(key, ttl, now, later))
      ensures !memory ==> entries == old(entries) && r == Some(1)
    {
      var life := if ttl < 1 then 1 else ttl;
      if !memory { return Some(1); }
      DeleteIfExpired(key, now);
      var entry := if key in entries then Some(entries[key]) else None;
      var held := Decimal.Parse(if entry.Some? then entry.value.value else "0");
      assert held == Held(entry) by { ZeroIsANumber(); }
      var expires := if entry.Some? then entry.value.expires else None;
      match held {
        case None => r := None;
        case Some(n) =>
          var deadline := if expires.Some? && expires.value != 0.0 then expires.value else later + life as real;
          entries := entries[key := Entry(Decimal.Written(n + 1), Some(deadline))];
          r := Some(n + 1);
      }
    }

    method Ttl(key: string, now: real, later: real) returns (r: Option<int>)
      modifies this`entries
      ensures memory ==> (entries, Seconds(r)) == Lazy(old(entries), Op.Ttl(key, now, later))
      ensures !memory ==> entries == old(entries) && r == None
    {
      if !memory { return None; }
      DeleteIfExpired(key, now);
      if key !in entries || entries[key].expires.None? { return None; }
      var left := Truncate(entries[key].expires.value - later);
      r := Some(if left < 1 then 1 else left);
    }
  }

  lemma ZeroIsANumber()
    ensures Decimal.Parse("0") == Some(0)
  {
    assert Decimal.Written(0) == "0";
    Decimal.ParseWritten(0);
  }
}
