/** Linking platform users to Telegram accounts: link rows that are merged, moved and reused, and
    one-time link sessions. */
module TelegramLinks {
  import opened Wrappers

  type Id = string
  type User = string
  type Telegram = int
  type Time = int

  datatype Link = Link(user: User, telegram: Telegram, linkedAt: Time, unlinkedAt: Option<Time>, active: bool)

  datatype Session = Session(user: User, token: string, code: string, expires: Time, used: Option<Time>,
      revoked: Option<Time>, active: bool)

  datatype Db = Db(links: map<Id, Link>, sessions: map<Id, Session>)

  /** The answers to a token or code. `Fault` is a lookup that finds two rows where the program expects at most one;
      `UserMissing` and `Fault` are raised, and like the refusals they commit nothing. */
  datatype Status = Unknown | Used | Invalid | Expired | UserMissing | AlreadyLinked | Taken | HasAnother
      | Linked | Fault

  // ---------- Lookups ----------

  datatype Lookup = NoRow | OneRow(id: Id) | ManyRows

  function RowsOfUser(links: map<Id, Link>, u: User): set<Id> { set k | k in links && links[k].user == u }
  function RowsOfTelegram(links: map<Id, Link>, t: Telegram): set<Id> { set k | k in links && links[k].telegram == t }
  function ActiveOf(links: map<Id, Link>, rows: set<Id>): set<Id> { set k | k in rows && k in links && links[k].active }

  ghost function Found(rows: set<Id>): (r: Lookup)
    ensures r.OneRow? ==> rows == {r.id}
    ensures r.NoRow? <==> rows == {}
  {
    if rows == {} then NoRow
    else if exists k :: rows == {k} then var k :| rows == {k}; OneRow(k)
    else ManyRows
  }

  // ---------- What the operations do ----------

  /** The row that a new link is written to, after the row of the Telegram account has been deleted if the user's own
      row takes its place. */
  function Resolved(links: map<Id, Link>, byUser: Lookup, byTelegram: Lookup, freshId: Id): (map<Id, Link>, Id) {
    if byUser.OneRow? && byTelegram.OneRow? then
      if byUser.id == byTelegram.id then (links, byUser.id) else (links - {byTelegram.id}, byUser.id)
    else if byUser.OneRow? then (links, byUser.id)
    else if byTelegram.OneRow? then (links, byTelegram.id)
    else (links, freshId)
  }

  function Spent(d: Db, sid: Id, now: Time): Db
    requires sid in d.sessions
  {
    d.(sessions := d.sessions[sid := d.sessions[sid].(used := Some(now), active := false)])
  }

  ghost function Consumed(d: Db, sid: Id, t: Telegram, userExists: bool, now: Time, freshId: Id): (Db, Status)
    requires sid in d.sessions
  {
    var s := d.sessions[sid];
    if s.used.Some? then (d, Used)
    else if !s.active || s.revoked.Some? then (d, Invalid)
    else if s.expires <= now then (d.(sessions := d.sessions[sid := s.(active := false)]), Expired)
    else if !userExists then (d, UserMissing)
    else
      var byUser := Found(RowsOfUser(d.links, s.user));
      if byUser.ManyRows? then (d, Fault)
      else if byUser.OneRow? && d.links[byUser.id].active && d.links[byUser.id].telegram == t
          then (Spent(d, sid, now), AlreadyLinked)
      else
        var byTelegram := Found(RowsOfTelegram(d.links, t));
        if byTelegram.ManyRows? then (d, Fault)
        else if byTelegram.OneRow? && d.links[byTelegram.id].active && d.links[byTelegram.id].user != s.user
            then (d, Taken)
        else if byUser.OneRow? && d.links[byUser.id].active && d.links[byUser.id].telegram != t then (d, HasAnother)
        else
          var (links, id) := Resolved(d.links, byUser, byTelegram, freshId);
          (Spent(d.(links := links[id := Link(s.user, t, now, None, true)]), sid, now), Linked)
  }

  /** The session that a token or a code names. */
  ghost function SessionBy(d: Db, secret: string, byToken: bool): Lookup {
    Found(set k | k in d.sessions && (if byToken then d.sessions[k].token else d.sessions[k].code) == secret)
  }

  ghost function Redeemed(d: Db, secret: string, byToken: bool, t: Telegram, userExists: bool, now: Time,
      freshId: Id): (Db, Status) {
    match SessionBy(d, secret, byToken)
    case NoRow => (d, Unknown)
    case ManyRows => (d, Fault)
    case OneRow(sid) => Consumed(d, sid, t, userExists, now, freshId)
  }

  /** A new link session revokes the user's active ones; a token or code already in the table fails and reverts. */
  function Created(d: Db, u: User, sid: Id, token: string, code: string, now: Time, ttl: int): (Db, bool) {
    if exists k | k in d.sessions :: d.sessions[k].token == token || d.sessions[k].code == code then (d, false)
    else
      (d.(sessions := Revoked(d.sessions, u, now)[sid := Session(u, token, code, now + ttl, None, None, true)]), true)
  }

  ghost function Unlinked(d: Db, rows: set<Id>, now: Time): (Db, Lookup) {
    var found := Found(ActiveOf(d.links, rows));
    (if found.OneRow? then d.(links :=
        d.links[found.id := d.links[found.id].(active := false, unlinkedAt := Some(now))]) else d, found)
  }

  // ---------- The abstract machine: a partial bijection ----------

  /** The pairs that are linked now. */
  function Pairs(d: Db): set<(User, Telegram)> {
    set k | k in d.links && d.links[k].active :: (d.links[k].user, d.links[k].telegram)
  }

  ghost predicate Bijection(pairs: set<(User, Telegram)>) {
    forall p, q | p in pairs && q in pairs :: p.0 == q.0 || p.1 == q.1 ==> p == q
  }

  /** Linking u and t: refused when either has another partner. */
  ghost function LinkPair(pairs: set<(User, Telegram)>, u: User, t: Telegram): (set<(User, Telegram)>, Status) {
    if (u, t) in pairs then (pairs, AlreadyLinked)
    else if exists p | p in pairs :: p.1 == t then (pairs, Taken)
    else if exists p | p in pairs :: p.0 == u then (pairs, HasAnother)
    else (pairs + {(u, t)}, Linked)
  }

  // ---------- Invariants ----------

  /** No two rows, active or not, share a user or a Telegram account. */
  predicate RowsApart(links: map<Id, Link>) {
    forall i, j | i in links && j in links && i != j ::
        links[i].user != links[j].user && links[i].telegram != links[j].telegram
  }

  predicate SessionsApart(sessions: map<Id, Session>) {
    && (forall i, j | i in sessions && j in sessions && i != j ::
          && sessions[i].token != sessions[j].token && sessions[i].code != sessions[j].code
          && (sessions[i].active && sessions[j].active ==> sessions[i].user != sessions[j].user))
    && (forall i | i in sessions :: sessions[i].used.Some? || sessions[i].revoked.Some? ==> !sessions[i].active)
  }

  predicate Inv(d: Db) { RowsApart(d.links) && SessionsApart(d.sessions) }

  lemma RowsApartMeansOne(links: map<Id, Link>, u: User, t: Telegram)
    requires RowsApart(links)
    ensures !Found(RowsOfUser(links, u)).ManyRows? && !Found(RowsOfTelegram(links, t)).ManyRows?
    ensures !Found(ActiveOf(links, RowsOfUser(links, u))).ManyRows? &&
        !Found(ActiveOf(links, RowsOfTelegram(links, t))).ManyRows?
  {
    AtMostOne(RowsOfUser(links, u));
    AtMostOne(RowsOfTelegram(links, t));
    AtMostOne(ActiveOf(links, RowsOfUser(links, u)));
    AtMostOne(ActiveOf(links, RowsOfTelegram(links, t)));
  }

  lemma AtMostOne(rows: set<Id>)
    requires forall i, j | i in rows && j in rows :: i == j
    ensures !Found(rows).ManyRows?
  {
    if k :| k in rows {
      assert rows == {k};
    }
  }

  // ---------- Consuming a session refines linking a pair ----------

  predicate Fresh(d: Db, id: Id) { id !in d.links && id !in d.sessions }

  /** What a link row means for the pairs. */
  lemma PairsOfRows(d: Db, u: User, t: Telegram)
    requires RowsApart(d.links)
    ensures Bijection(Pairs(d))
    ensures
      var byUser, byTelegram := Found(RowsOfUser(d.links, u)), Found(RowsOfTelegram(d.links, t));
      && ((u, t) in Pairs(d) <==> byUser.OneRow? && d.links[byUser.id].active && d.links[byUser.id].telegram == t)
      && ((exists p | p in Pairs(d) :: p.1 == t) <==> byTelegram.OneRow? && d.links[byTelegram.id].active)
      && ((exists p | p in Pairs(d) :: p.0 == u) <==> byUser.OneRow? && d.links[byUser.id].active)
  {
    RowsApartMeansOne(d.links, u, t);
    var byUser, byTelegram := Found(RowsOfUser(d.links, u)), Found(RowsOfTelegram(d.links, t));
    forall p | p in Pairs(d) ensures p.1 == t ==> byTelegram.OneRow? && d.links[byTelegram.id].active {
      var k :| k in d.links && d.links[k].active && p == (d.links[k].user, d.links[k].telegram);
      assert p.1 == t ==> k in RowsOfTelegram(d.links, t);
    }
    forall p | p in Pairs(d) ensures p.0 == u ==>
        byUser.OneRow? && d.links[byUser.id].active && d.links[byUser.id].telegram == p.1 {
      var k :| k in d.links && d.links[k].active && p == (d.links[k].user, d.links[k].telegram);
      assert p.0 == u ==> k in RowsOfUser(d.links, u);
    }
    if byTelegram.OneRow? && d.links[byTelegram.id].active {
      assert byTelegram.id in RowsOfTelegram(d.links, t);
      assert (d.links[byTelegram.id].user, t) in Pairs(d);
    }
    if byUser.OneRow? && d.links[byUser.id].active {
      assert byUser.id in RowsOfUser(d.links, u);
      assert (u, d.links[byUser.id].telegram) in Pairs(d);
    }
  }

  /** Writing the link keeps the rows apart and adds exactly the one pair, although it may delete or move a row. */
  lemma WritingLinks(d: Db, u: User, t: Telegram, now: Time, freshId: Id)
    requires RowsApart(d.links) && freshId !in d.links
    requires forall k | k in d.links && d.links[k].active :: d.links[k].user != u && d.links[k].telegram != t
    ensures
      var (links, id) := Resolved(d.links, Found(RowsOfUser(d.links, u)), Found(RowsOfTelegram(d.links, t)), freshId);
      var links' := links[id := Link(u, t, now, None, true)];
      RowsApart(links') && Pairs(d.(links := links')) == Pairs(d) + {(u, t)}
  {
    RowsApartMeansOne(d.links, u, t);
    var byUser, byTelegram := Found(RowsOfUser(d.links, u)), Found(RowsOfTelegram(d.links, t));
    var (links, id) := Resolved(d.links, byUser, byTelegram, freshId);
    var d' := d.(links := links[id := Link(u, t, now, None, true)]);
    forall k | k in links && k != id ensures links[k].user != u && links[k].telegram != t {
      assert links[k].user == u ==> k in RowsOfUser(d.links, u);
      assert links[k].telegram == t ==> k in RowsOfTelegram(d.links, t);
    }
    forall p | p in Pairs(d) ensures p in Pairs(d') {
      var k :| k in d.links && d.links[k].active && p == (d.links[k].user, d.links[k].telegram);
      assert k !in RowsOfUser(d.links, u) && k !in RowsOfTelegram(d.links, t);
      assert k in d'.links && d'.links[k] == d.links[k];
    }
    assert id in d'.links && d'.links[id].active;
  }

  /** A session that is still good acts on the pairs exactly as the abstract machine does; any
      other leaves them alone. */
  lemma ConsumeRefines(d: Db, sid: Id, t: Telegram, userExists: bool, now: Time, freshId: Id)
    requires Inv(d) && sid in d.sessions && Fresh(d, freshId)
    ensures
      var s := d.sessions[sid];
      var (d', status) := Consumed(d, sid, t, userExists, now, freshId);
      if s.used.None? && s.revoked.None? && s.active && s.expires > now && userExists
      then (Pairs(d'), status) == LinkPair(Pairs(d), s.user, t)
      else Pairs(d') == Pairs(d) && status in {Used, Invalid, Expired, UserMissing}
    ensures Inv(Consumed(d, sid, t, userExists, now, freshId).0)
    ensures Consumed(d, sid, t, userExists, now, freshId).1 in {AlreadyLinked, Linked} <==>
              d.sessions[sid].used.None? && Consumed(d, sid, t, userExists, now, freshId).0.sessions[sid].used.Some?
  {
    var s := d.sessions[sid];
    var u := s.user;
    PairsOfRows(d, u, t);
    RowsApartMeansOne(d.links, u, t);
    var (pairs', want) := LinkPair(Pairs(d), u, t);
    if s.used.None? && s.active && s.revoked.None? && s.expires > now && userExists {
      if want == Linked {
        forall k | k in d.links && d.links[k].active ensures d.links[k].user != u && d.links[k].telegram != t {
          assert (d.links[k].user, d.links[k].telegram) in Pairs(d);
        }
        WritingLinks(d, u, t, now, freshId);
      }
    }
  }

  // ---------- Runs ----------

  datatype Event =
    | Create(user: User, sid: Id, token: string, code: string, now: Time, ttl: int)
    | Redeem(secret: string, byToken: bool, telegram: Telegram, userExists: bool, now: Time, freshId: Id)
    | Unlink(user: User, now: Time)
    | UnlinkByTelegram(telegram: Telegram, userExists: bool, now: Time)

  ghost function Next(d: Db, e: Event): Db {
    match e
    case Create(u, sid, token, code, now, ttl) => Created(d, u, sid, token, code, now, ttl).0
    case Redeem(secret, byToken, t, ex, now, id) => Redeemed(d, secret, byToken, t, ex, now, id).0
    case Unlink(u, now) => Unlinked(d, RowsOfUser(d.links, u), now).0
    case UnlinkByTelegram(t, ex, now) => if ex then Unlinked(d, RowsOfTelegram(d.links, t), now).0 else d
  }

  predicate Possible(d: Db, e: Event) {
    (e.Create? ==> Fresh(d, e.sid)) && (e.Redeem? ==> Fresh(d, e.freshId))
  }

  ghost function After(d: Db, events: seq<Event>): Db
    decreases |events|
  {
    if events == [] then d else After(Next(d, events[0]), events[1..])
  }

  ghost predicate AllPossible(d: Db, events: seq<Event>)
    decreases |events|
  {
    events == [] || (Possible(d, events[0]) && AllPossible(Next(d, events[0]), events[1..]))
  }

  /** Unlinking takes exactly the pairs of the user (or of the Telegram account) out. */
  lemma UnlinkRefines(d: Db, u: User, t: Telegram, now: Time)
    requires RowsApart(d.links)
    ensures RowsApart(Unlinked(d, RowsOfUser(d.links, u), now).0.links) &&
        RowsApart(Unlinked(d, RowsOfTelegram(d.links, t), now).0.links)
    ensures Pairs(Unlinked(d, RowsOfUser(d.links, u), now).0) == set p | p in Pairs(d) && p.0 != u
    ensures Pairs(Unlinked(d, RowsOfTelegram(d.links, t), now).0) == set p | p in Pairs(d) && p.1 != t
  {
    UnlinkRows(d, RowsOfUser(d.links, u), now);
    UnlinkRows(d, RowsOfTelegram(d.links, t), now);
    var a, b := Unlinked(d, RowsOfUser(d.links, u), now).0, Unlinked(d, RowsOfTelegram(d.links, t), now).0;
    forall p ensures p in Pairs(a) <==> p in Pairs(d) && p.0 != u {
      if p in Pairs(a) {
        var k :| k in a.links && a.links[k].active && p == (a.links[k].user, a.links[k].telegram);
        assert k !in RowsOfUser(d.links, u) && d.links[k].active;
      }
      if p in Pairs(d) && p.0 != u {
        var k :| k in d.links && d.links[k].active && p == (d.links[k].user, d.links[k].telegram);
        assert a.links[k] == d.links[k];
      }
    }
    forall p ensures p in Pairs(b) <==> p in Pairs(d) && p.1 != t {
      if p in Pairs(b) {
        var k :| k in b.links && b.links[k].active && p == (b.links[k].user, b.links[k].telegram);
        assert k !in RowsOfTelegram(d.links, t) && d.links[k].active;
      }
      if p in Pairs(d) && p.1 != t {
        var k :| k in d.links && d.links[k].active && p == (d.links[k].user, d.links[k].telegram);
        assert b.links[k] == d.links[k];
      }
    }
  }

  /** Of rows that hold at most one active link, unlinking deactivates exactly the active one. */
  lemma UnlinkRows(d: Db, rows: set<Id>, now: Time)
    requires forall i, j | i in rows && j in rows && i in d.links && j in d.links :: i == j
    ensures
      var d' := Unlinked(d, rows, now).0;
      && d'.links.Keys == d.links.Keys && d'.sessions == d.sessions
      && forall k | k in d.links :: d'.links[k].user == d.links[k].user && d'.links[k].telegram == d.links[k].telegram
           && (d'.links[k].active <==> d.links[k].active && k !in rows) && (k !in rows ==> d'.links[k] == d.links[k])
           && (d.links[k].active && k in rows ==> d'.links[k].unlinkedAt == Some(now))
  {
    AtMostOne(ActiveOf(d.links, rows));
    var found := Found(ActiveOf(d.links, rows));
    forall k | k in d.links && k in rows && d.links[k].active ensures found.OneRow? && found.id == k {
      assert k in ActiveOf(d.links, rows);
    }
  }

  function Revoked(sessions: map<Id, Session>, u: User, now: Time): map<Id, Session> {
    map k | k in sessions :: if sessions[k].user == u && sessions[k].active
        then sessions[k].(active := false, revoked := Some(now)) else sessions[k]
  }

  lemma RevokedApart(sessions: map<Id, Session>, u: User, now: Time)
    requires SessionsApart(sessions)
    ensures SessionsApart(Revoked(sessions, u, now))
    ensures forall k | k in sessions ::
        Revoked(sessions, u, now)[k].token == sessions[k].token && Revoked(sessions, u, now)[k].code == sessions[k].code
    ensures forall k | k in sessions && Revoked(sessions, u, now)[k].active :: sessions[k].user != u
  {}

  lemma CreateKeepsInv(d: Db, u: User, sid: Id, token: string, code: string, now: Time, ttl: int)
    requires Inv(d) && Fresh(d, sid)
    ensures Inv(Created(d, u, sid, token, code, now, ttl).0)
    ensures Pairs(Created(d, u, sid, token, code, now, ttl).0) == Pairs(d)
  {
    RevokedApart(d.sessions, u, now);
  }

  lemma StepKeepsInv(d: Db, e: Event)
    requires Inv(d) && Possible(d, e)
    ensures Inv(Next(d, e))
  {
    match e {
      case Create(u, sid, token, code, now, ttl) => CreateKeepsInv(d, u, sid, token, code, now, ttl);
      case Redeem(secret, byToken, t, ex, now, id) =>
        var found := SessionBy(d, secret, byToken);
        if found.OneRow? { ConsumeRefines(d, found.id, t, ex, now, id); }
      case Unlink(u, now) =>
        UnlinkRefines(d, u, 0, now);
        UnlinkRows(d, RowsOfUser(d.links, u), now);
      case UnlinkByTelegram(t, ex, now) =>
        UnlinkRefines(d, "", t, now);
        UnlinkRows(d, RowsOfTelegram(d.links, t), now);
    }
  }

  /** In every run from empty tables the linked pairs are a partial bijection, no lookup ever finds two rows, and no
      user has two active sessions, although the link table relies on no database constraint. */
  lemma {:induction false} RunKeepsInv(d: Db, events: seq<Event>)
    requires Inv(d) && AllPossible(d, events)
    ensures Inv(After(d, events)) && Bijection(Pairs(After(d, events)))
    decreases |events|
  {
    if events != [] {
      StepKeepsInv(d, events[0]);
      RunKeepsInv(Next(d, events[0]), events[1..]);
    } else {
      PairsOfRows(d, "", 0);
    }
  }

  /** No answer is ever the fault of a duplicate row. */
  lemma NeverFaults(d: Db, secret: string, byToken: bool, t: Telegram, userExists: bool, now: Time, freshId: Id)
    requires Inv(d) && Fresh(d, freshId)
    ensures Redeemed(d, secret, byToken, t, userExists, now, freshId).1 != Fault
  {
    var rows := set k | k in d.sessions && (if byToken then d.sessions[k].token else d.sessions[k].code) == secret;
    AtMostOne(rows);
    var found := SessionBy(d, secret, byToken);
    if found.OneRow? {
      ConsumeRefines(d, found.id, t, userExists, now, freshId);
    }
  }

  predicate SameSession(s: Session, s': Session) {
    s'.user == s.user && s'.token == s.token && s'.code == s.code && s'.expires == s.expires
  }

  /** Sessions keep their user, secrets and expiry, and use, revocation and deactivation are final. */
  predicate SessionsPersist(s: map<Id, Session>, s': map<Id, Session>) {
    forall k | k in s :: k in s' && SameSession(s[k], s'[k])
      && (s[k].used.Some? ==> s'[k].used.Some?) && (!s[k].active ==> !s'[k].active)
  }

  lemma StepPersists(d: Db, e: Event)
    requires Possible(d, e)
    ensures SessionsPersist(d.sessions, Next(d, e).sessions)
  {
    match e {
      case Create(u, sid, token, code, now, ttl) => assert SessionsPersist(d.sessions,
          Created(d, u, sid, token, code, now, ttl).0.sessions);
      case Redeem(secret, byToken, t, ex, now, id) =>
        var found := SessionBy(d, secret, byToken);
        if found.OneRow? {
          assert found.id in (set k | k in d.sessions &&
              (if byToken then d.sessions[k].token else d.sessions[k].code) == secret);
          ConsumePersists(d, found.id, t, ex, now, id);
        }
      case Unlink(u, now) => assert Unlinked(d, RowsOfUser(d.links, u), now).0.sessions == d.sessions;
      case UnlinkByTelegram(t, ex, now) => assert Unlinked(d, RowsOfTelegram(d.links, t), now).0.sessions == d.sessions;
    }
  }

  lemma ConsumePersists(d: Db, sid: Id, t: Telegram, userExists: bool, now: Time, freshId: Id)
    requires sid in d.sessions
    ensures SessionsPersist(d.sessions, Consumed(d, sid, t, userExists, now, freshId).0.sessions)
  {}

  lemma {:induction false} RunPersists(d: Db, events: seq<Event>)
    requires AllPossible(d, events)
    ensures SessionsPersist(d.sessions, After(d, events).sessions)
    decreases |events|
  {
    if events != [] {
      StepPersists(d, events[0]);
      RunPersists(Next(d, events[0]), events[1..]);
    }
  }

  predicate Successful(s: Status) { s == Linked || s == AlreadyLinked }

  /** A link session succeeds at most once in any run, whether its token or its code is presented each time. */
  lemma ConsumedOnce(d: Db, first: Event, between: seq<Event>, again: Event)
    requires Inv(d) && first.Redeem? && again.Redeem? && Possible(d, first) && AllPossible(Next(d, first), between)
    requires Possible(After(Next(d, first), between), again)
    requires Successful(Redeemed(d, first.secret, first.byToken, first.telegram, first.userExists, first.now,
        first.freshId).1)
    ensures
      var d2 := After(Next(d, first), between);
      var sid := SessionBy(d, first.secret, first.byToken);
      SessionBy(d2, again.secret, again.byToken) == sid ==>
        Redeemed(d2, again.secret, again.byToken, again.telegram, again.userExists, again.now, again.freshId)
            == (d2, Used)
  {
    var sid := SessionBy(d, first.secret, first.byToken).id;
    assert sid in (set k | k in d.sessions &&
        (if first.byToken then d.sessions[k].token else d.sessions[k].code) == first.secret);
    ConsumeRefines(d, sid, first.telegram, first.userExists, first.now, first.freshId);
    RunPersists(Next(d, first), between);
  }

  // ---------- When a link session works ----------

  /** The session that a presented token or code names, if there is one. */
  lemma NamesSession(d: Db, secret: string, byToken: bool, sid: Id)
    requires Inv(d) && sid in d.sessions
    ensures SessionBy(d, secret, byToken) == OneRow(sid) <==>
      secret == if byToken then d.sessions[sid].token else d.sessions[sid].code
  {
    var rows := set k | k in d.sessions && (if byToken then d.sessions[k].token else d.sessions[k].code) == secret;
    AtMostOne(rows);
    assert sid in rows ==> rows == {sid};
  }

  /** A session is created unless its token or code is taken; it then works for its time to live, the user's active ones
      are revoked, and nothing else changes. */
  lemma CreatedSession(d: Db, u: User, sid: Id, token: string, code: string, now: Time, ttl: int)
    requires Inv(d) && Fresh(d, sid)
    ensures
      var (d', ok) := Created(d, u, sid, token, code, now, ttl);
      && (ok <==> forall k | k in d.sessions :: d.sessions[k].token != token && d.sessions[k].code != code)
      && d'.links == d.links && d'.sessions.Keys == d.sessions.Keys + (if ok then {sid} else {})
      && (!ok ==> d' == d)
      && (ok ==>
            && Open(d', sid) && d'.sessions[sid].user == u && d'.sessions[sid].expires == now + ttl
            && d'.sessions[sid].token == token && d'.sessions[sid].code == code)
      && (ok ==> forall k | k in d.sessions ::
            if d.sessions[k].user == u && d.sessions[k].active then !Open(d', k) && d'.sessions[k].revoked == Some(now)
            else d'.sessions[k] == d.sessions[k])
  {}

  /** A session that has not been used, revoked or found expired. */
  predicate Open(d: Db, sid: Id) {
    sid in d.sessions && d.sessions[sid].used.None? && d.sessions[sid].revoked.None? && d.sessions[sid].active
  }

  /** What closes an open session: a new one of its user, or its own token or code when it links or comes too late. */
  ghost predicate Closes(d: Db, e: Event, sid: Id)
    requires sid in d.sessions
  {
    var s := d.sessions[sid];
    match e
    case Create(u, _, token, code, _, _) =>
      u == s.user && forall k | k in d.sessions :: d.sessions[k].token != token && d.sessions[k].code != code
    case Redeem(secret, byToken, t, userExists, now, _) =>
      && secret == (if byToken then s.token else s.code)
      && (s.expires <= now || (userExists && LinkPair(Pairs(d), s.user, t).1 in {Linked, AlreadyLinked}))
    case _ => false
  }

  ghost predicate Closed(d: Db, events: seq<Event>, sid: Id)
    requires sid in d.sessions
    decreases |events|
  {
    events != [] &&
    (Closes(d, events[0], sid) ||
     (sid in Next(d, events[0]).sessions && Closed(Next(d, events[0]), events[1..], sid)))
  }

  lemma ConsumeCloses(d: Db, sid: Id, t: Telegram, userExists: bool, now: Time, freshId: Id)
    requires Inv(d) && Fresh(d, freshId) && Open(d, sid)
    ensures
      var s, d' := d.sessions[sid], Consumed(d, sid, t, userExists, now, freshId).0;
      && sid in d'.sessions && SameSession(s, d'.sessions[sid])
      && (Open(d', sid) <==>
            !(s.expires <= now || (userExists && LinkPair(Pairs(d), s.user, t).1 in {Linked, AlreadyLinked})))
      && forall k | k in d.sessions && k != sid :: k in d'.sessions && d'.sessions[k] == d.sessions[k]
  {
    ConsumeRefines(d, sid, t, userExists, now, freshId);
  }

  lemma ClosesIff(d: Db, e: Event, sid: Id)
    requires Inv(d) && Possible(d, e) && Open(d, sid)
    ensures var d' := Next(d, e);
      sid in d'.sessions && SameSession(d.sessions[sid], d'.sessions[sid]) && (Open(d', sid) <==> !Closes(d, e, sid))
  {
    match e {
      case Create(u, k, token, code, now, ttl) => CreatedSession(d, u, k, token, code, now, ttl);
      case Redeem(secret, byToken, t, ex, now, id) =>
        NamesSession(d, secret, byToken, sid);
        var found := SessionBy(d, secret, byToken);
        if found == OneRow(sid) {
          ConsumeCloses(d, sid, t, ex, now, id);
        } else if found.OneRow? {
          OtherConsumed(d, found.id, t, ex, now, id, sid);
        }
      case Unlink(u, now) => assert Unlinked(d, RowsOfUser(d.links, u), now).0.sessions == d.sessions;
      case UnlinkByTelegram(t, ex, now) => assert Unlinked(d, RowsOfTelegram(d.links, t), now).0.sessions == d.sessions;
    }
  }

  lemma OtherConsumed(d: Db, sid: Id, t: Telegram, userExists: bool, now: Time, freshId: Id, k: Id)
    requires sid in d.sessions && k in d.sessions && k != sid
    ensures var d' := Consumed(d, sid, t, userExists, now, freshId).0;
      k in d'.sessions && d'.sessions[k] == d.sessions[k]
  {}

  /** A session stays open exactly as long as nothing closes it. */
  lemma {:induction false} OpenUnlessClosed(d: Db, events: seq<Event>, sid: Id)
    requires Inv(d) && AllPossible(d, events) && Open(d, sid)
    ensures var d' := After(d, events);
      sid in d'.sessions && SameSession(d.sessions[sid], d'.sessions[sid])
      && (Open(d', sid) <==> !Closed(d, events, sid))
    decreases |events|
  {
    if events != [] {
      ClosesIff(d, events[0], sid);
      StepKeepsInv(d, events[0]);
      if !Closes(d, events[0], sid) {
        OpenUnlessClosed(Next(d, events[0]), events[1..], sid);
      } else {
        RunPersists(Next(d, events[0]), events[1..]);
      }
    }
  }

  /** A session works exactly while nothing has closed it: it links its user as the abstract machine does until it
      expires, and once closed it is refused. */
  lemma SessionWorksIff(d: Db, create: Event, between: seq<Event>, byToken: bool, t: Telegram, userExists: bool,
      now: Time, freshId: Id)
    requires Inv(d) && create.Create? && Possible(d, create) && create.sid in Next(d, create).sessions
    requires AllPossible(Next(d, create), between) && Fresh(After(Next(d, create), between), freshId)
    ensures
      var d1, sid := Next(d, create), create.sid;
      var d2 := After(d1, between);
      var (d3, status) :=
        Redeemed(d2, if byToken then create.token else create.code, byToken, t, userExists, now, freshId);
      if Closed(d1, between, sid) then d3 == d2 && status in {Used, Invalid}
      else if create.now + create.ttl <= now then Pairs(d3) == Pairs(d2) && status == Expired
      else if !userExists then d3 == d2 && status == UserMissing
      else (Pairs(d3), status) == LinkPair(Pairs(d2), create.user, t)
  {
    var d1, sid := Next(d, create), create.sid;
    CreatedSession(d, create.user, sid, create.token, create.code, create.now, create.ttl);
    StepKeepsInv(d, create);
    OpenUnlessClosed(d1, between, sid);
    RunKeepsInv(d1, between);
    WorksAt(After(d1, between), sid, byToken, t, userExists, now, freshId);
  }

  lemma WorksAt(d: Db, sid: Id, byToken: bool, t: Telegram, userExists: bool, now: Time, freshId: Id)
    requires Inv(d) && sid in d.sessions && Fresh(d, freshId)
    ensures
      var s := d.sessions[sid];
      var (d', status) := Redeemed(d, if byToken then s.token else s.code, byToken, t, userExists, now, freshId);
      if !Open(d, sid) then d' == d && status in {Used, Invalid}
      else if s.expires <= now then Pairs(d') == Pairs(d) && status == Expired
      else if !userExists then d' == d && status == UserMissing
      else (Pairs(d'), status) == LinkPair(Pairs(d), s.user, t)
  {
    var s := d.sessions[sid];
    NamesSession(d, if byToken then s.token else s.code, byToken, sid);
    ConsumeRefines(d, sid, t, userExists, now, freshId);
  }

  /** A session that the presented secret names and that still works. */
  predicate Works(d: Db, e: Event, sid: Id)
    requires e.Redeem?
  {
    && Open(d, sid) && e.userExists && e.now < d.sessions[sid].expires
    && e.secret == if e.byToken then d.sessions[sid].token else d.sessions[sid].code
  }

  /** What each event does to the linked pairs: unlinking takes out those of the user or the account, presenting a
      session that works does what the abstract machine does, and nothing else links or unlinks. */
  lemma EventRefines(d: Db, e: Event)
    requires Inv(d) && Possible(d, e)
    ensures
      var pairs, pairs' := Pairs(d), Pairs(Next(d, e));
      match e
      case Create(_, _, _, _, _, _) => pairs' == pairs
      case Unlink(u, _) => pairs' == set p | p in pairs && p.0 != u
      case UnlinkByTelegram(t, true, _) => pairs' == set p | p in pairs && p.1 != t
      case UnlinkByTelegram(_, false, _) => pairs' == pairs
      case Redeem(_, _, t, _, _, _) =>
        && (forall sid | Works(d, e, sid) :: pairs' == LinkPair(pairs, d.sessions[sid].user, t).0)
        && ((forall sid :: !Works(d, e, sid)) ==> pairs' == pairs)
  {
    match e {
      case Create(u, sid, token, code, now, ttl) => CreateKeepsInv(d, u, sid, token, code, now, ttl);
      case Unlink(u, now) => UnlinkRefines(d, u, 0, now);
      case UnlinkByTelegram(t, userExists, now) => UnlinkRefines(d, "", t, now);
      case Redeem(secret, byToken, t, userExists, now, id) => RedeemRefines(d, e);
    }
  }

  lemma RedeemRefines(d: Db, e: Event)
    requires Inv(d) && Possible(d, e) && e.Redeem?
    ensures forall sid | Works(d, e, sid) :: Pairs(Next(d, e)) == LinkPair(Pairs(d), d.sessions[sid].user, e.telegram).0
    ensures (forall sid :: !Works(d, e, sid)) ==> Pairs(Next(d, e)) == Pairs(d)
  {
    forall sid | Works(d, e, sid)
        ensures Pairs(Next(d, e)) == LinkPair(Pairs(d), d.sessions[sid].user, e.telegram).0 {
      WorksAt(d, sid, e.byToken, e.telegram, e.userExists, e.now, e.freshId);
    }
    var found := SessionBy(d, e.secret, e.byToken);
    if (forall sid :: !Works(d, e, sid)) && found.OneRow? {
      assert found.id in (set k | k in d.sessions &&
          (if e.byToken then d.sessions[k].token else d.sessions[k].code) == e.secret);
      assert !Works(d, e, found.id);
      WorksAt(d, found.id, e.byToken, e.telegram, e.userExists, e.now, e.freshId);
    }
  }

  /** Unlinking answers whether there was a pair to take out. */
  lemma UnlinkAnswers(d: Db, u: User, t: Telegram, now: Time)
    requires RowsApart(d.links)
    ensures Unlinked(d, RowsOfUser(d.links, u), now).1.OneRow? <==> exists p | p in Pairs(d) :: p.0 == u
    ensures Unlinked(d, RowsOfTelegram(d.links, t), now).1.OneRow? <==> exists p | p in Pairs(d) :: p.1 == t
  {
    RowsApartMeansOne(d.links, u, t);
    var byUser, byTelegram := ActiveOf(d.links, RowsOfUser(d.links, u)), ActiveOf(d.links, RowsOfTelegram(d.links, t));
    forall k | k in byUser ensures (u, d.links[k].telegram) in Pairs(d) {}
    forall k | k in byTelegram ensures (d.links[k].user, t) in Pairs(d) {}
    forall p | p in Pairs(d) ensures (p.0 == u ==> byUser != {}) && (p.1 == t ==> byTelegram != {}) {
      var k :| k in d.links && d.links[k].active && p == (d.links[k].user, d.links[k].telegram);
      assert (p.0 == u ==> k in byUser) && (p.1 == t ==> k in byTelegram);
    }
    assert Found(byUser).OneRow? ==> Found(byUser).id in byUser;
    assert Found(byTelegram).OneRow? ==> Found(byTelegram).id in byTelegram;
  }

  // ---------- The service object ----------

  class TelegramService {
    var links: map<Id, Link>
    var sessions: map<Id, Session>

    ghost function View(): Db
      reads this
    {
      Db(links, sessions)
    }

    constructor ()
      ensures View() == Db(map[], map[])
    {
      links, sessions := map[], map[];
    }

    method CreateLinkSession(u: User, sid: Id, token: string, code: string, now: Time, ttl: int) returns (ok: bool)
      requires sid !in sessions
      modifies this
      ensures (View(), ok) == Created(old(View()), u, sid, token, code, now, ttl)
    {
      var taken := exists k | k in sessions :: sessions[k].token == token || sessions[k].code == code;
      if taken { return false; }
      sessions := map k | k in sessions ::
        if sessions[k].user == u && sessions[k].active then sessions[k].(active := false, revoked := Some(now))
            else sessions[k];
      sessions := sessions[sid := Session(u, token, code, now + ttl, None, None, true)];
      return true;
    }

    /** The single row of a query, if the query has at most one. */
    method ScalarOneOrNone(rows: set<Id>) returns (r: Lookup)
      ensures r == Found(rows)
    {
      if rows == {} { return NoRow; }
      var k :| k in rows;
      if rows == {k} {
        return OneRow(k);
      }
      assert !exists j :: rows == {j};
      return ManyRows;
    }

    method Unlink(u: User, now: Time) returns (found: Lookup)
      modifies this
      ensures (View(), found) == Unlinked(old(View()), RowsOfUser(old(links), u), now)
    {
      found := ScalarOneOrNone(ActiveOf(links, RowsOfUser(links, u)));
      if found.OneRow? {
        assert found.id in ActiveOf(links, RowsOfUser(links, u));
        links := links[found.id := links[found.id].(active := false, unlinkedAt := Some(now))];
      }
    }

    method UnlinkByTelegramUserId(t: Telegram, userExists: bool, now: Time) returns (found: Lookup)
      modifies this
      ensures userExists ==> (View(), found) == Unlinked(old(View()), RowsOfTelegram(old(links), t), now)
      ensures !userExists ==>
        View() == old(View()) && found == Found(ActiveOf(old(links), RowsOfTelegram(old(links), t)))
    {
      found := ScalarOneOrNone(ActiveOf(links, RowsOfTelegram(links, t)));
      if found.OneRow? && userExists {
        assert found.id in ActiveOf(links, RowsOfTelegram(links, t));
        links := links[found.id := links[found.id].(active := false, unlinkedAt := Some(now))];
      }
    }

    method ResolveLinkRecord(byUser: Lookup, byTelegram: Lookup, freshId: Id) returns (id: Id)
      modifies this`links
      ensures (links, id) == Resolved(old(links), byUser, byTelegram, freshId)
    {
      if byUser.OneRow? && byTelegram.OneRow? {
        if byUser.id == byTelegram.id { return byUser.id; }
        links := links - {byTelegram.id};
        return byUser.id;
      }
      if byUser.OneRow? { return byUser.id; }
      if byTelegram.OneRow? { return byTelegram.id; }
      return freshId;
    }

    method ConsumeLinkSession(sid: Id, t: Telegram, userExists: bool, now: Time, freshId: Id) returns (status: Status)
      requires sid in sessions
      modifies this
      ensures (View(), status) == Consumed(old(View()), sid, t, userExists, now, freshId)
    {
      var s := sessions[sid];
      if s.used.Some? { return Used; }
      if !s.active || s.revoked.Some? { return Invalid; }
      if s.expires <= now {
        sessions := sessions[sid := s.(active := false)];
        return Expired;
      }
      if !userExists { return UserMissing; }
      var byUser := ScalarOneOrNone(RowsOfUser(links, s.user));
      if byUser.ManyRows? { return Fault; }
      assert byUser.OneRow? ==> byUser.id in RowsOfUser(links, s.user);
      if byUser.OneRow? && links[byUser.id].active && links[byUser.id].telegram == t {
        sessions := sessions[sid := s.(used := Some(now), active := false)];
        return AlreadyLinked;
      }
      var byTelegram := ScalarOneOrNone(RowsOfTelegram(links, t));
      if byTelegram.ManyRows? { return Fault; }
      assert byTelegram.OneRow? ==> byTelegram.id in RowsOfTelegram(links, t);
      if byTelegram.OneRow? && links[byTelegram.id].active && links[byTelegram.id].user != s.user { return Taken; }
      if byUser.OneRow? && links[byUser.id].active && links[byUser.id].telegram != t { return HasAnother; }
      var id := ResolveLinkRecord(byUser, byTelegram, freshId);
      links := links[id := Link(s.user, t, now, None, true)];
      sessions := sessions[sid := s.(used := Some(now), active := false)];
      return Linked;
    }

    /** Presenting a token (or, the other way in, a code). */
    method Redeem(secret: string, byToken: bool, t: Telegram, userExists: bool, now: Time, freshId: Id)
        returns (status: Status)
      modifies this
      ensures (View(), status) == Redeemed(old(View()), secret, byToken, t, userExists, now, freshId)
    {
      var rows := set k | k in sessions && (if byToken then sessions[k].token else sessions[k].code) == secret;
      var found := ScalarOneOrNone(rows);
      match found {
        case NoRow => return Unknown;
        case ManyRows => return Fault;
        case OneRow(sid) =>
          assert sid in rows;
          status := ConsumeLinkSession(sid, t, userExists, now, freshId);
      }
    }
  }
}
