/** Refresh-token rotation: every refresh replaces its session by a new one, and a replay revokes
    the user's sessions. */
module RefreshTokens {
  import opened FiniteSets
  import opened Wrappers

  type Jti = string
  type User = string
  type Time = int

  datatype Kind = AccessToken | RefreshToken

  /** A token that decodes. Two texts with the same hash are the same text, so a stored hash stands for the token. */
  datatype Token = Token(jti: Jti, sub: User, kind: Kind, exp: Time)

  datatype Session = Session(user: User, token: Token, expires: Time, used: Option<Time>, revoked: Option<Time>,
      replacedBy: Option<Jti>)
  {
    predicate Live() { used.None? && revoked.None? }
  }

  type Sessions = map<Jti, Session>

  datatype Account = Missing | Inactive | Active

  datatype Result = Issued(token: Token) | BadToken | WrongType | NoUser | Blocked | Invalid | Replayed

  // ---------- What the operations do to the session table ----------

  function AllRevoked(s: Sessions, user: User, now: Time): Sessions {
    map j | j in s :: if s[j].user == user && s[j].revoked.None? then s[j].(revoked := Some(now)) else s[j]
  }

  function Added(s: Sessions, t: Token): Sessions { s[t.jti := Session(t.sub, t, t.exp, None, None, None)] }

  function Rotated(s: Sessions, j: Jti, minted: Token, now: Time): Sessions
    requires j in s
  {
    Added(s[j := s[j].(used := Some(now), revoked := Some(now), replacedBy := Some(minted.jti))], minted)
  }

  function Refreshed(s: Sessions, presented: Option<Token>, account: Account, minted: Token, now: Time): (Sessions,
      Result) {
    match presented
    case None => (s, BadToken)
    case Some(t) =>
      if t.kind != RefreshToken then (s, WrongType)
      else if account == Missing then (s, NoUser)
      else if account == Inactive then (s, Blocked)
      else if t.jti !in s || s[t.jti].token != t || s[t.jti].user != t.sub then (AllRevoked(s, t.sub, now), Invalid)
      else if !s[t.jti].Live() || s[t.jti].expires <= now then (AllRevoked(s, t.sub, now), Replayed)
      else (Rotated(s, t.jti, minted, now), Issued(minted))
  }

  function LoggedOut(s: Sessions, presented: Option<Token>, now: Time): Sessions {
    match presented
    case None => s
    case Some(t) =>
      if t.kind != RefreshToken then s
      else if t.jti !in s || s[t.jti].token != t then AllRevoked(s, t.sub, now)
      else s[t.jti := s[t.jti].(revoked := Some(now))]
  }

  function SessionRevoked(s: Sessions, user: User, j: Jti, now: Time): Sessions {
    if j in s && s[j].user == user then s[j := s[j].(revoked := Some(now))] else s
  }

  // ---------- Runs ----------

  /** One committed call. `RevokeAll` is what logging out everywhere, resetting and changing a password have in
      common; an absent presented token is one that does not decode. */
  datatype Event =
    | Login(minted: Token)
    | Refresh(presented: Option<Token>, account: Account, minted: Token, now: Time)
    | Logout(presented: Option<Token>, now: Time)
    | RevokeSession(user: User, jti: Jti, now: Time)
    | RevokeAll(user: User, now: Time)

  function Next(s: Sessions, e: Event): Sessions {
    match e
    case Login(t) => Added(s, t)
    case Refresh(p, a, t, now) => Refreshed(s, p, a, t, now).0
    case Logout(p, now) => LoggedOut(s, p, now)
    case RevokeSession(u, j, now) => SessionRevoked(s, u, j, now)
    case RevokeAll(u, now) => AllRevoked(s, u, now)
  }

  /** New tokens are refresh tokens with an identifier never seen before; a refresh issues to its own subject. */
  predicate Possible(s: Sessions, e: Event) {
    (e.Login? || e.Refresh? ==> e.minted.jti !in s && e.minted.kind == RefreshToken) &&
    (e.Refresh? && e.presented.Some? ==> e.minted.sub == e.presented.value.sub)
  }

  /** The presented token whose refresh succeeds. */
  function Succeeds(s: Sessions, e: Event): Option<Token> {
    if e.Refresh? && Refreshed(s, e.presented, e.account, e.minted, e.now).1.Issued? then e.presented else None
  }

  /** The user all of whose sessions the event revokes. */
  function Sweeps(s: Sessions, e: Event): Option<User> {
    match e
    case Refresh(Some(t), a, f, now) =>
      var r := Refreshed(s, Some(t), a, f, now).1;
      if r.Invalid? || r.Replayed? then Some(t.sub) else None
    case Logout(Some(t), _) => if t.kind == RefreshToken && (t.jti !in s || s[t.jti].token != t)
        then Some(t.sub) else None
    case RevokeAll(u, _) => Some(u)
    case _ => None
  }

  /** The table together with its history: the order of issue, the sessions opened by a login, the session each other
      one was issued for, and for each user the number of logins since the last sweep. */
  datatype World = World(sessions: Sessions, born: map<Jti, nat>, roots: set<Jti>, parent: map<Jti, Jti>,
      logins: map<User, nat>)

  function Start(): World { World(map[], map[], {}, map[], map[]) }

  function LoginsOf(w: World, u: User): nat { if u in w.logins then w.logins[u] else 0 }

  function Step(w: World, e: Event): World {
    var s' := Next(w.sessions, e);
    var issues := e.Login? || Succeeds(w.sessions, e).Some?;
    World(s',
          if issues then w.born[e.minted.jti := |w.sessions|] else w.born,
          if e.Login? then w.roots + {e.minted.jti} else w.roots,
          if Succeeds(w.sessions, e).Some? then w.parent[e.minted.jti := Succeeds(w.sessions, e).value.jti]
              else w.parent,
          if e.Login? then w.logins[e.minted.sub := LoginsOf(w, e.minted.sub) + 1]
          else if Sweeps(w.sessions, e).Some? then w.logins[Sweeps(w.sessions, e).value := 0]
          else w.logins)
  }

  function After(w: World, events: seq<Event>): World
    decreases |events|
  {
    if events == [] then w else After(Step(w, events[0]), events[1..])
  }

  predicate AllPossible(w: World, events: seq<Event>)
    decreases |events|
  {
    events == [] || (Possible(w.sessions, events[0]) && AllPossible(Step(w, events[0]), events[1..]))
  }

  // ---------- The invariant of every run ----------

  function LiveOf(s: Sessions, u: User): set<Jti> { set j | j in s && s[j].user == u && s[j].Live() }

  /** A row names itself and its user; it is used exactly when it has a successor, and then it is revoked. */
  predicate RowsOk(s: Sessions) {
    forall j | j in s ::
      && s[j].token.jti == j && s[j].token.sub == s[j].user && s[j].token.kind == RefreshToken
      && (s[j].used.Some? <==> s[j].replacedBy.Some?) && (s[j].used.Some? ==> s[j].revoked.Some?)
  }

  predicate Younger(w: World, j: Jti, k: Jti) {
    && j in w.sessions && k in w.sessions && j in w.born && k in w.born && w.born[j] < w.born[k]
    && w.sessions[k].user == w.sessions[j].user
  }

  /** The successor of a session is the one issued for it. */
  predicate SuccessorOk(w: World, j: Jti) {
    j in w.sessions && w.sessions[j].replacedBy.Some? ==>
      w.sessions[j].replacedBy.value in w.parent && w.parent[w.sessions[j].replacedBy.value] == j
  }

  /** A session issued for another succeeds it, is younger and belongs to the same user. */
  predicate ParentOk(w: World, k: Jti) {
    k in w.parent ==> Younger(w, w.parent[k], k) && w.sessions[w.parent[k]].replacedBy == Some(k)
  }

  predicate BornOk(w: World, j: Jti) { j in w.born ==> w.born[j] < |w.sessions| }

  /** Every session was opened by a login or issued for the one that it succeeds. */
  ghost predicate LinksOk(w: World) {
    && w.born.Keys == w.sessions.Keys && w.roots == w.sessions.Keys - w.parent.Keys
    && (forall j :: BornOk(w, j)) && (forall j :: SuccessorOk(w, j)) && (forall k :: ParentOk(w, k))
  }

  ghost predicate LiveOk(w: World) { forall u: User :: |LiveOf(w.sessions, u)| <= LoginsOf(w, u) }

  ghost predicate Inv(w: World) { RowsOk(w.sessions) && LinksOk(w) && LiveOk(w) }

  /** Nothing but the revocation of some rows. */
  predicate Quiet(s: Sessions, s': Sessions) {
    s'.Keys == s.Keys &&
    forall j | j in s :: s'[j] == s[j] || (s'[j].revoked.Some? && s'[j] == s[j].(revoked := s'[j].revoked))
  }

  /** A step opens a session by a login, rotates a live session, or only revokes. */
  lemma StepKinds(s: Sessions, e: Event)
    ensures
      if e.Login? then Next(s, e) == Added(s, e.minted)
      else if Succeeds(s, e).Some? then
        var j := Succeeds(s, e).value.jti;
        j in s && s[j].Live() && s[j].user == e.presented.value.sub && Next(s, e) == Rotated(s, j, e.minted, e.now)
      else Quiet(s, Next(s, e))
    ensures Sweeps(s, e).Some? ==> !e.Login? && Succeeds(s, e).None?
    ensures Sweeps(s, e).Some? ==> forall j | j in s && s[j].user == Sweeps(s, e).value :: Next(s, e)[j].revoked.Some?
  {}

  /** Who is swept: the user himself when he asks for it, or the subject of a refresh token that has no session or a
      used, revoked or expired one. */
  lemma SweepsIff(s: Sessions, e: Event, user: User)
    ensures Sweeps(s, e) == Some(user) <==>
      match e
      case RevokeAll(u, _) => u == user
      case Logout(Some(t), _) => t.kind == RefreshToken && t.sub == user && (t.jti !in s || s[t.jti].token != t)
      case Refresh(Some(t), account, _, now) =>
        t.kind == RefreshToken && account == Active && t.sub == user &&
        !(t.jti in s && s[t.jti].token == t && s[t.jti].user == t.sub && s[t.jti].Live() && now < s[t.jti].expires)
      case _ => false
  {}

  /** A user's logins are counted one by one and start anew with a sweep. */
  lemma LoginsCounted(w: World, e: Event, user: User)
    ensures LoginsOf(Step(w, e), user) ==
      if e.Login? && e.minted.sub == user then LoginsOf(w, user) + 1
      else if Sweeps(w.sessions, e) == Some(user) then 0 else LoginsOf(w, user)
  {}

  predicate LinkOk(w: World, j: Jti) { BornOk(w, j) && SuccessorOk(w, j) && ParentOk(w, j) }

  lemma QuietAt(w: World, w': World, j: Jti)
    requires LinkOk(w, j) && Quiet(w.sessions, w'.sessions) && |w'.sessions| == |w.sessions|
    requires w'.born == w.born && w'.roots == w.roots && w'.parent == w.parent
    ensures LinkOk(w', j)
  {}

  lemma QuietRows(s: Sessions, s': Sessions)
    requires RowsOk(s) && Quiet(s, s')
    ensures RowsOk(s')
  {}

  lemma QuietKeepsLinks(w: World, w': World)
    requires RowsOk(w.sessions) && LinksOk(w) && Quiet(w.sessions, w'.sessions) && w'.born == w.born &&
        w'.roots == w.roots && w'.parent == w.parent
    ensures RowsOk(w'.sessions) && LinksOk(w')
  {
    QuietRows(w.sessions, w'.sessions);
    assert |w.sessions.Keys| == |w.sessions| && |w'.sessions.Keys| == |w'.sessions|;
    forall j ensures BornOk(w', j) && SuccessorOk(w', j) && ParentOk(w', j) {
      assert BornOk(w, j) && SuccessorOk(w, j) && ParentOk(w, j);
      QuietAt(w, w', j);
    }
  }

  lemma LoginAt(w: World, w': World, t: Token, j: Jti)
    requires LinkOk(w, j) && t.jti !in w.sessions && t.jti !in w.parent && |w'.sessions| == |w.sessions| + 1
    requires w'.sessions == Added(w.sessions, t) && w'.born == w.born[t.jti := |w.sessions|] && w'.parent == w.parent
    ensures LinkOk(w', j)
  {}

  lemma LoginKeepsLinks(w: World, w': World, t: Token)
    requires RowsOk(w.sessions) && LinksOk(w) && t.jti !in w.sessions && t.kind == RefreshToken
    requires w'.sessions == Added(w.sessions, t) && w'.born == w.born[t.jti := |w.sessions|]
    requires w'.roots == w.roots + {t.jti} && w'.parent == w.parent
    ensures RowsOk(w'.sessions) && LinksOk(w')
  {
    assert |w'.sessions| == |w.sessions| + 1;
    assert ParentOk(w, t.jti);
    forall j ensures BornOk(w', j) && SuccessorOk(w', j) && ParentOk(w', j) {
      assert BornOk(w, j) && SuccessorOk(w, j) && ParentOk(w, j);
      LoginAt(w, w', t, j);
    }
  }

  lemma RotationAt(w: World, w': World, j: Jti, t: Token, now: Time, i: Jti)
    requires LinkOk(w, i) && BornOk(w, j) && t.jti !in w.sessions && t.jti !in w.parent &&
        |w'.sessions| == |w.sessions| + 1
    requires j in w.sessions && j in w.born && w.sessions[j].replacedBy.None? && w.sessions[j].user == t.sub
    requires w'.sessions == Rotated(w.sessions, j, t, now) && w'.born == w.born[t.jti := |w.sessions|] &&
        w'.parent == w.parent[t.jti := j]
    ensures LinkOk(w', i)
  {}

  lemma RotationRows(s: Sessions, j: Jti, t: Token, now: Time)
    requires RowsOk(s) && t.jti !in s && t.kind == RefreshToken && j in s && s[j].Live() && s[j].user == t.sub
    ensures RowsOk(Rotated(s, j, t, now)) && Rotated(s, j, t, now).Keys == s.Keys + {t.jti}
    ensures s[j].replacedBy.None?
  {}

  lemma RotationDomains(w: World, w': World, j: Jti, t: Token, now: Time)
    requires w.born.Keys == w.sessions.Keys && w.roots == w.sessions.Keys - w.parent.Keys && t.jti !in w.sessions &&
        j in w.sessions
    requires w'.sessions == Rotated(w.sessions, j, t, now) && w'.born == w.born[t.jti := |w.sessions|]
    requires w'.roots == w.roots && w'.parent == w.parent[t.jti := j]
    ensures w'.born.Keys == w'.sessions.Keys && w'.roots == w'.sessions.Keys - w'.parent.Keys &&
        |w'.sessions| == |w.sessions| + 1
  {
    assert w'.sessions.Keys == w.sessions.Keys + {t.jti} && |w'.sessions.Keys| == |w'.sessions|;
    assert |w.sessions.Keys| == |w.sessions|;
  }

  lemma RotationKeepsLinks(w: World, w': World, j: Jti, t: Token, now: Time)
    requires RowsOk(w.sessions) && LinksOk(w) && t.jti !in w.sessions && t.kind == RefreshToken
    requires j in w.sessions && w.sessions[j].Live() && w.sessions[j].user == t.sub
    requires w'.sessions == Rotated(w.sessions, j, t, now) && w'.born == w.born[t.jti := |w.sessions|]
    requires w'.roots == w.roots && w'.parent == w.parent[t.jti := j]
    ensures RowsOk(w'.sessions) && LinksOk(w')
  {
    RotationRows(w.sessions, j, t, now);
    RotationDomains(w, w', j, t, now);
    assert t.jti !in w.parent by { assert ParentOk(w, t.jti); }
    assert BornOk(w, j);
    forall i ensures LinkOk(w', i) {
      assert BornOk(w, i) && SuccessorOk(w, i) && ParentOk(w, i);
      RotationAt(w, w', j, t, now, i);
    }
    assert forall i :: LinkOk(w', i) ==> BornOk(w', i) && SuccessorOk(w', i) && ParentOk(w', i);
  }

  lemma StepKeepsLinks(w: World, e: Event)
    requires RowsOk(w.sessions) && LinksOk(w) && Possible(w.sessions, e)
    ensures RowsOk(Step(w, e).sessions) && LinksOk(Step(w, e))
  {
    StepKinds(w.sessions, e);
    if e.Login? {
      LoginKeepsLinks(w, Step(w, e), e.minted);
    } else if Succeeds(w.sessions, e).Some? {
      RotationKeepsLinks(w, Step(w, e), Succeeds(w.sessions, e).value.jti, e.minted, e.now);
    } else {
      QuietKeepsLinks(w, Step(w, e));
    }
  }

  lemma LiveAfterLogin(s: Sessions, t: Token, u: User)
    requires t.jti !in s
    ensures |LiveOf(Added(s, t), u)| == |LiveOf(s, u)| + if u == t.sub then 1 else 0
  {
    assert LiveOf(Added(s, t), u) == LiveOf(s, u) + if u == t.sub then {t.jti} else {};
  }

  lemma LiveAfterRotation(s: Sessions, j: Jti, t: Token, now: Time, u: User)
    requires j in s && s[j].Live() && t.jti !in s && s[j].user == t.sub
    ensures |LiveOf(Rotated(s, j, t, now), u)| == |LiveOf(s, u)|
  {
    assert LiveOf(Rotated(s, j, t, now), u) == if u == t.sub then LiveOf(s, u) - {j} + {t.jti} else LiveOf(s, u);
  }

  lemma LiveAfterQuiet(s: Sessions, s': Sessions, u: User)
    requires Quiet(s, s')
    ensures |LiveOf(s', u)| <= |LiveOf(s, u)|
    ensures (forall j | j in s && s[j].user == u :: s'[j].revoked.Some?) ==> |LiveOf(s', u)| == 0
  {
    SubsetSize(LiveOf(s', u), LiveOf(s, u));
    if forall j | j in s && s[j].user == u :: s'[j].revoked.Some? {
      assert LiveOf(s', u) == {};
    }
  }

  lemma StepKeepsLive(w: World, e: Event)
    requires Inv(w) && Possible(w.sessions, e)
    ensures LiveOk(Step(w, e))
  {
    StepKinds(w.sessions, e);
    forall u: User ensures |LiveOf(Step(w, e).sessions, u)| <= LoginsOf(Step(w, e), u) {
      if e.Login? {
        LiveAfterLogin(w.sessions, e.minted, u);
      } else if Succeeds(w.sessions, e).Some? {
        LiveAfterRotation(w.sessions, Succeeds(w.sessions, e).value.jti, e.minted, e.now, u);
      } else {
        LiveAfterQuiet(w.sessions, Step(w, e).sessions, u);
      }
    }
  }

  /** The invariant holds in every reachable state. */
  lemma {:induction false} RunKeepsInv(w: World, events: seq<Event>)
    requires Inv(w) && AllPossible(w, events)
    ensures Inv(After(w, events))
    decreases |events|
  {
    if events != [] {
      StepKeepsLinks(w, events[0]);
      StepKeepsLive(w, events[0]);
      RunKeepsInv(Step(w, events[0]), events[1..]);
    }
  }

  /** In every reachable state a user's live sessions number at most the logins since the last sweep. */
  lemma LiveSessionsBounded(events: seq<Event>, u: User)
    requires AllPossible(Start(), events)
    ensures |LiveOf(After(Start(), events).sessions, u)| <= LoginsOf(After(Start(), events), u)
  {
    assert Inv(Start()) by {
      forall u: User ensures |LiveOf(map[], u)| <= LoginsOf(Start(), u) {
        assert LiveOf(map[], u) == {};
      }
    }
    RunKeepsInv(Start(), events);
  }

  // ---------- Chains ----------

  /** The sessions reached from `j` through successors. */
  ghost function Chain(w: World, j: Jti): (r: seq<Jti>)
    requires LinksOk(w) && j in w.sessions
    decreases |w.sessions| - w.born[j]
  {
    match w.sessions[j].replacedBy
    case None => [j]
    case Some(k) =>
      assert SuccessorOk(w, j) && ParentOk(w, k) && BornOk(w, k);
      [j] + Chain(w, k)
  }

  /** The login a session descends from, found backwards. */
  ghost function Root(w: World, k: Jti): (r: Jti)
    requires LinksOk(w) && k in w.sessions
    ensures r in w.roots && r in w.sessions && w.sessions[r].user == w.sessions[k].user
    decreases w.born[k]
  {
    if k in w.roots then k else
      assert ParentOk(w, k);
      Root(w, w.parent[k])
  }

  /** A chain starts at its session, follows successors, ends at a session without one, and grows younger all along;
      every member has the same root. */
  lemma {:induction false} ChainFacts(w: World, j: Jti)
    requires LinksOk(w) && j in w.sessions
    ensures
      var c := Chain(w, j);
      && c != [] && c[0] == j
      && (forall i | 0 <= i < |c| :: c[i] in w.sessions && Root(w, c[i]) == Root(w, j))
      && (forall i | 0 <= i < |c| - 1 :: w.sessions[c[i]].replacedBy == Some(c[i + 1]))
      && w.sessions[c[|c| - 1]].replacedBy == None
      && (forall a, b | 0 <= a < b < |c| :: w.born[c[a]] < w.born[c[b]])
    decreases |w.sessions| - w.born[j]
  {
    match w.sessions[j].replacedBy {
      case None =>
      case Some(k) =>
        assert SuccessorOk(w, j) && ParentOk(w, k) && BornOk(w, k);
        ChainFacts(w, k);
        var c, t := Chain(w, j), Chain(w, k);
        assert c == [j] + t;
        forall i | 0 <= i < |c| - 1 ensures w.sessions[c[i]].replacedBy == Some(c[i + 1]) {
          assert i > 0 ==> c[i] == t[i - 1] && c[i + 1] == t[(i - 1) + 1];
        }
        forall a, b | 0 <= a < b < |c| ensures w.born[c[a]] < w.born[c[b]] {
          assert c[b] == t[b - 1] && (a > 0 ==> c[a] == t[a - 1]);
          assert b > 1 ==> w.born[t[0]] < w.born[t[b - 1]];
        }
    }
  }

  lemma {:induction false} AncestorChainHas(w: World, k: Jti)
    requires LinksOk(w) && k in w.sessions
    ensures k in Chain(w, Root(w, k))
    decreases w.born[k]
  {
    ChainFacts(w, Root(w, k));
    if k !in w.roots {
      assert ParentOk(w, k);
      AncestorChainHas(w, w.parent[k]);
      var c := Chain(w, Root(w, k));
      var i :| 0 <= i < |c| && c[i] == w.parent[k];
      assert i < |c| - 1 && c[i + 1] == k;
    }
  }

  /** In every reachable state the successor links form disjoint acyclic chains, one for each login: a session lies in
      the chain of exactly one login, which is its own user's, no chain repeats a session, and only the last session
      of a chain can be live. */
  lemma ChainsPartition(w: World, r: Jti, k: Jti)
    requires Inv(w) && r in w.roots && k in w.sessions
    ensures k in Chain(w, r) <==> Root(w, k) == r
    ensures k in Chain(w, r) ==> w.sessions[k].user == w.sessions[r].user
    ensures forall a, b | 0 <= a < b < |Chain(w, r)| :: Chain(w, r)[a] != Chain(w, r)[b]
    ensures forall i | 0 <= i < |Chain(w, r)| - 1 :: Chain(w, r)[i] in w.sessions && !w.sessions[Chain(w, r)[i]].Live()
  {
    ChainFacts(w, r);
    AncestorChainHas(w, k);
    var c := Chain(w, r);
    forall a, b | 0 <= a < b < |c| ensures c[a] != c[b] {
      assert w.born[c[a]] < w.born[c[b]];
    }
    forall i | 0 <= i < |c| - 1 ensures c[i] in w.sessions && !w.sessions[c[i]].Live() {
      assert w.sessions[c[i]].replacedBy == Some(c[i + 1]);
    }
  }

  // ---------- What no run can undo ----------

  /** Sessions are never removed or reassigned, and use and revocation are final. */
  predicate Persists(s: Sessions, s': Sessions) {
    forall j | j in s ::
      && j in s' && s'[j].user == s[j].user && s'[j].token == s[j].token
      && (s[j].used.Some? ==> s'[j].used.Some?) && (s[j].revoked.Some? ==> s'[j].revoked.Some?)
  }

  lemma StepPersists(w: World, e: Event)
    requires Possible(w.sessions, e)
    ensures Persists(w.sessions, Step(w, e).sessions)
  {
    StepKinds(w.sessions, e);
  }

  lemma {:induction false} RunPersists(w: World, events: seq<Event>)
    requires AllPossible(w, events)
    ensures Persists(w.sessions, After(w, events).sessions)
    decreases |events|
  {
    if events != [] {
      var w1 := Step(w, events[0]);
      StepPersists(w, events[0]);
      RunPersists(w1, events[1..]);
    }
  }

  /** A refresh token succeeds at most once in any run. */
  lemma SucceedsOnce(w: World, first: Event, between: seq<Event>, again: Event)
    requires Possible(w.sessions, first) && Succeeds(w.sessions, first).Some?
    requires AllPossible(Step(w, first), between)
    ensures
      var later := Succeeds(After(Step(w, first), between).sessions, again);
      later.Some? ==> later.value.jti != Succeeds(w.sessions, first).value.jti
  {
    RunPersists(Step(w, first), between);
  }

  /** Once an event has swept a user, no refresh token of a session that user had by then succeeds
      in any continuation. */
  lemma SweptForever(w: World, sweep: Event, between: seq<Event>, again: Event)
    requires Possible(w.sessions, sweep) && Sweeps(w.sessions, sweep).Some?
    requires AllPossible(Step(w, sweep), between)
    ensures
      var later := Succeeds(After(Step(w, sweep), between).sessions, again);
      later.Some? && later.value.jti in w.sessions ==>
          w.sessions[later.value.jti].user != Sweeps(w.sessions, sweep).value
  {
    StepKinds(w.sessions, sweep);
    RunPersists(Step(w, sweep), between);
  }

  /** Replaying a used or revoked refresh token of an active user sweeps exactly that user, in every reachable state;
      and the test that a session belongs to the token's subject never fails once the token matches the session. */
  lemma ReplaySweeps(w: World, t: Token, minted: Token, now: Time)
    requires Inv(w) && t.jti in w.sessions && w.sessions[t.jti].token == t && !w.sessions[t.jti].Live()
    ensures Sweeps(w.sessions, Refresh(Some(t), Active, minted, now)) == Some(w.sessions[t.jti].user)
    ensures Refreshed(w.sessions, Some(t), Active, minted, now).1 == Replayed
  {}

  /** A refresh token that was logged out with never succeeds again. */
  lemma LoggedOutForever(w: World, t: Token, now: Time, between: seq<Event>, again: Event)
    requires t.kind == RefreshToken && t.jti in w.sessions && w.sessions[t.jti].token == t
    requires AllPossible(Step(w, Logout(Some(t), now)), between)
    ensures var later := Succeeds(After(Step(w, Logout(Some(t), now)), between).sessions, again);
      later.Some? ==> later.value.jti != t.jti
  {
    RunPersists(Step(w, Logout(Some(t), now)), between);
  }

  /** A session that its user has revoked never succeeds again. */
  lemma RevokedForever(w: World, user: User, j: Jti, now: Time, between: seq<Event>, again: Event)
    requires j in w.sessions && w.sessions[j].user == user
    requires AllPossible(Step(w, RevokeSession(user, j, now)), between)
    ensures var later := Succeeds(After(Step(w, RevokeSession(user, j, now)), between).sessions, again);
      later.Some? ==> later.value.jti != j
  {
    RunPersists(Step(w, RevokeSession(user, j, now)), between);
  }

  // ---------- When a refresh token works ----------

  /** The row that answers for a token, if it is one of its subject. */
  predicate Matches(s: Sessions, t: Token) { t.jti in s && s[t.jti].token == t && s[t.jti].user == t.sub }

  /** What a refresh answers, and when it changes nothing. */
  lemma RefreshAnswers(s: Sessions, presented: Option<Token>, account: Account, minted: Token, now: Time)
    ensures
      var (s', r) := Refreshed(s, presented, account, minted, now);
      && (r == BadToken <==> presented == None)
      && (presented.Some? ==>
            var t := presented.value;
            && (r == WrongType <==> t.kind == AccessToken)
            && (r == NoUser <==> t.kind == RefreshToken && account == Missing)
            && (r == Blocked <==> t.kind == RefreshToken && account == Inactive)
            && (r == Invalid <==> t.kind == RefreshToken && account == Active && !Matches(s, t))
            && (r.Issued? <==> (t.kind == RefreshToken && account == Active && Matches(s, t)
                && s[t.jti].used == None && s[t.jti].revoked == None && now < s[t.jti].expires))
            && (r.Issued? ==> r.token == minted))
      && (r in {BadToken, WrongType, NoUser, Blocked} ==> s' == s)
  {}

  /** What ends the live session of a refresh token: being presented by its active user, being logged out or revoked,
      or a sweep of its user, by him or by a token of his that does not work. */
  predicate Ends(s: Sessions, e: Event, t: Token) {
    match e
    case Login(_) => false
    case Refresh(None, _, _, _) => false
    case Refresh(Some(x), account, _, now) =>
      x.kind == RefreshToken && account == Active &&
      (x == t || (x.sub == t.sub && !(Matches(s, x) && s[x.jti].Live() && now < s[x.jti].expires)))
    case Logout(None, _) => false
    case Logout(Some(x), _) => x.kind == RefreshToken && (x == t || (x.sub == t.sub && !Matches(s, x)))
    case RevokeSession(user, j, _) => user == t.sub && j == t.jti
    case RevokeAll(user, _) => user == t.sub
  }

  /** Whether an event of the run ends it. */
  predicate Ended(w: World, events: seq<Event>, t: Token)
    decreases |events|
  {
    events != [] && (Ends(w.sessions, events[0], t) || Ended(Step(w, events[0]), events[1..], t))
  }

  lemma EndsIff(w: World, e: Event, t: Token)
    requires RowsOk(w.sessions) && Possible(w.sessions, e) && Matches(w.sessions, t) && w.sessions[t.jti].Live()
    ensures var s' := Step(w, e).sessions;
      Matches(s', t) && s'[t.jti].expires == w.sessions[t.jti].expires &&
          (s'[t.jti].Live() <==> !Ends(w.sessions, e, t))
  {}

  lemma OneStepKeepsInv(w: World, e: Event)
    requires Inv(w) && Possible(w.sessions, e)
    ensures Inv(Step(w, e))
  {
    StepKeepsLinks(w, e);
    StepKeepsLive(w, e);
  }

  /** Nothing else ends a session, and what has ended stays so. */
  lemma {:induction false} LiveUnlessEnded(w: World, events: seq<Event>, t: Token)
    requires Inv(w) && AllPossible(w, events) && Matches(w.sessions, t) && w.sessions[t.jti].Live()
    ensures var s' := After(w, events).sessions;
      Matches(s', t) && (s'[t.jti].Live() <==> !Ended(w, events, t))
    ensures !Ended(w, events, t) ==> After(w, events).sessions[t.jti].expires == w.sessions[t.jti].expires
    decreases |events|
  {
    if events != [] {
      EndsIff(w, events[0], t);
      OneStepKeepsInv(w, events[0]);
      if Ends(w.sessions, events[0], t) {
        RunPersists(Step(w, events[0]), events[1..]);
      } else {
        LiveUnlessEnded(Step(w, events[0]), events[1..], t);
      }
    }
  }

  lemma IssuedIsLive(w: World, issue: Event)
    requires Inv(w) && Possible(w.sessions, issue) && (issue.Login? || Succeeds(w.sessions, issue).Some?)
    ensures var t, w' := issue.minted, Step(w, issue);
      Inv(w') && Matches(w'.sessions, t) && w'.sessions[t.jti].Live() && w'.sessions[t.jti].expires == t.exp &&
          t.kind == RefreshToken
  {
    OneStepKeepsInv(w, issue);
  }

  /** A refresh token works exactly when its user is active, it has not expired, and nothing has ended its session since
      it was issued. */
  lemma RefreshWorksIff(w: World, issue: Event, between: seq<Event>, account: Account, minted: Token, now: Time)
    requires Inv(w) && Possible(w.sessions, issue) && (issue.Login? || Succeeds(w.sessions, issue).Some?)
    requires AllPossible(Step(w, issue), between)
    ensures
      var t, s := issue.minted, After(Step(w, issue), between).sessions;
      Refreshed(s, Some(t), account, minted, now).1 == Issued(minted) <==>
        account == Active && now < t.exp && !Ended(Step(w, issue), between, t)
  {
    IssuedIsLive(w, issue);
    LiveUnlessEnded(Step(w, issue), between, issue.minted);
    RefreshAnswers(After(Step(w, issue), between).sessions, Some(issue.minted), account, minted, now);
  }

  // ---------- The service object ----------

  class AuthService {
    var sessions: Sessions

    constructor ()
      ensures sessions == map[]
    {
      sessions := map[];
    }

    method RevokeAllRefreshTokens(user: User, now: Time)
      modifies this
      ensures sessions == AllRevoked(old(sessions), user, now)
    {
      sessions := map j | j in sessions ::
        if sessions[j].user == user && sessions[j].revoked.None? then sessions[j].(revoked := Some(now))
            else sessions[j];
    }

    method IssueTokenPair(minted: Token)
      modifies this
      ensures sessions == Added(old(sessions), minted)
    {
      sessions := sessions[minted.jti := Session(minted.sub, minted, minted.exp, None, None, None)];
    }

    /** The session of a presented refresh token; when there is none, or its hash differs, the subject is swept. */
    method GetRefreshSession(t: Token, now: Time) returns (row: Option<Session>)
      modifies this
      ensures row.Some? <==> t.jti in old(sessions) && old(sessions)[t.jti].token == t
      ensures row.Some? ==> sessions == old(sessions) && row.value == sessions[t.jti]
      ensures row.None? ==> sessions == AllRevoked(old(sessions), t.sub, now)
    {
      if t.jti !in sessions || sessions[t.jti].token != t {
        RevokeAllRefreshTokens(t.sub, now);
        return None;
      }
      return Some(sessions[t.jti]);
    }

    /** `known` says that the password is that of a user, `active` that the user is active. */
    method Login(known: bool, active: bool, minted: Token) returns (ok: bool)
      modifies this
      ensures ok <==> known && active
      ensures sessions == if ok then Next(old(sessions), Event.Login(minted)) else old(sessions)
    {
      if !known || !active { return false; }
      IssueTokenPair(minted);
      return true;
    }

    method Refresh(presented: Option<Token>, account: Account, minted: Token, now: Time) returns (r: Result)
      requires presented.Some? && presented.value.jti in sessions ==> minted.jti != presented.value.jti
      modifies this
      ensures (sessions, r) == Refreshed(old(sessions), presented, account, minted, now)
    {
      if presented.None? { return BadToken; }
      var t := presented.value;
      if t.kind != RefreshToken { return WrongType; }
      if account == Missing { return NoUser; }
      if account == Inactive { return Blocked; }
      var found := GetRefreshSession(t, now);
      if found.None? { return Invalid; }
      var row := found.value;
      if row.user != t.sub {
        RevokeAllRefreshTokens(t.sub, now);
        return Invalid;
      }
      if row.revoked.Some? || row.used.Some? || row.expires <= now {
        RevokeAllRefreshTokens(t.sub, now);
        return Replayed;
      }
      row := row.(used := Some(now));
      IssueTokenPair(minted);
      row := row.(replacedBy := Some(minted.jti));
      row := row.(revoked := row.used);
      sessions := sessions[t.jti := row];
      assert sessions == Rotated(old(sessions), t.jti, minted, now);
      return Issued(minted);
    }

    /** The access token is revoked first, which raises when its store is unavailable (`accessStore` is false); `given`
        says whether a refresh token was sent, `presented` is that token if it decodes. */
    method Logout(accessStore: bool, given: bool, presented: Option<Token>, now: Time) returns (ok: bool)
      modifies this
      ensures sessions == if accessStore && given then Next(old(sessions), Event.Logout(presented, now))
          else old(sessions)
      ensures ok <==> accessStore && (given ==>
        && presented.Some? && presented.value.kind == RefreshToken
        && presented.value.jti in old(sessions) && old(sessions)[presented.value.jti].token == presented.value)
    {
      if !accessStore { return false; }
      if !given { return true; }
      if presented.None? || presented.value.kind != RefreshToken { return false; }
      var t := presented.value;
      var found := GetRefreshSession(t, now);
      if found.None? { return false; }
      sessions := sessions[t.jti := found.value.(revoked := Some(now))];
      return true;
    }

    method RevokeSession(user: User, j: Jti, now: Time) returns (found: bool)
      modifies this
      ensures sessions == Next(old(sessions), Event.RevokeSession(user, j, now))
      ensures found <==> j in old(sessions) && old(sessions)[j].user == user
    {
      if j !in sessions || sessions[j].user != user { return false; }
      sessions := sessions[j := sessions[j].(revoked := Some(now))];
      return true;
    }

    method LogoutAll(user: User, now: Time)
      modifies this
      ensures sessions == Next(old(sessions), Event.RevokeAll(user, now))
    {
      RevokeAllRefreshTokens(user, now);
    }

    /** `resetUser` is the user of a valid, unconsumed and unexpired reset token, if the presented one is that. When the
        store of revoked access tokens is unavailable, the call raises before its commit and takes back what it did. */
    method ResetPassword(resetUser: Option<User>, accessStore: bool, now: Time) returns (ok: bool)
      modifies this
      ensures ok <==> resetUser.Some? && accessStore
      ensures sessions == if ok then Next(old(sessions), Event.RevokeAll(resetUser.value, now)) else old(sessions)
    {
      if resetUser.None? { return false; }
      var committed := sessions;
      RevokeAllRefreshTokens(resetUser.value, now);
      if !accessStore {
        sessions := committed;
        return false;
      }
      return true;
    }
  }
}
