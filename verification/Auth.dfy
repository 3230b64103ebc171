// Login sessions (backend/src/lifeos/domain/auth/service.py, sessions.py): refresh-token rotation with a replay
// alarm, invalidation, and the session cache.
// Tokens and session ids are fresh numbers; a token stands for its hash. Each operation, cache writes
// included, is one atomic step.
module Auth {
  import opened Prelude

  datatype Session = Session(user: int, current: int, version: int, expires: int, invalidated: bool)

  datatype Access = Access(user: int, sid: int, version: int)

  // `issued`, `accessIssued` and `redeemed` are bookkeeping: every refresh token handed out, every access
  // token handed out, and every refresh token successfully exchanged, in order.
  datatype State = State(
    now: int, ttl: int, sessions: map<int, Session>, retired: map<int, int>, cache: map<int, (int, bool)>,
    inactive: set<int>, nextToken: int, nextSid: int,
    issued: set<int>, accessIssued: set<Access>, redeemed: seq<int>)

  function Init(now: int, ttl: int): State {
    State(now, ttl, map[], map[], map[], {}, 0, 0, {}, {}, [])
  }

  // ---------------------------------------------------------------- what each operation does

  function Created(s: State, user: int): State {
    s.(sessions := s.sessions[s.nextSid := Session(user, s.nextToken, 1, s.now + s.ttl, false)],
       cache := s.cache[s.nextSid := (1, true)],
       nextToken := s.nextToken + 1,
       nextSid := s.nextSid + 1,
       issued := s.issued + {s.nextToken},
       accessIssued := s.accessIssued + {Access(user, s.nextSid, 1)})
  }

  function Ended(session: Session): Session {
    session.(version := session.version + 1, invalidated := true)
  }

  function Live(s: State, sids: set<int>): set<int> {
    set sid | sid in sids && sid in s.sessions && !s.sessions[sid].invalidated
  }

  function Invalidated(s: State, sids: set<int>): State {
    var live := Live(s, sids);
    s.(sessions := map sid | sid in s.sessions :: if sid in live then Ended(s.sessions[sid]) else s.sessions[sid],
       cache := map sid | sid in s.cache.Keys + live ::
         if sid in live then (s.sessions[sid].version + 1, false) else s.cache[sid])
  }

  function SessionsOf(s: State, user: int): set<int> {
    set sid | sid in s.sessions && s.sessions[sid].user == user
  }

  predicate MayRotate(s: State, sid: int)
    requires sid in s.sessions
  {
    !s.sessions[sid].invalidated && s.sessions[sid].expires > s.now && s.sessions[sid].user !in s.inactive
  }

  function Rotated(s: State, sid: int): State
    requires sid in s.sessions
  {
    var session := s.sessions[sid];
    s.(sessions := s.sessions[sid := session.(current := s.nextToken, expires := s.now + s.ttl)],
       retired := s.retired[session.current := sid],
       nextToken := s.nextToken + 1,
       issued := s.issued + {s.nextToken},
       accessIssued := s.accessIssued + {Access(session.user, sid, session.version)},
       redeemed := s.redeemed + [session.current])
  }

  ghost predicate Holds(s: State, sid: int, token: int) {
    sid in s.sessions && s.sessions[sid].current == token
  }

  ghost predicate Accepts(s: State, token: int) {
    exists sid :: Holds(s, sid, token) && MayRotate(s, sid)
  }

  // A current token rotates or is refused; a retired one ends its whole session; any other is refused.
  ghost function Refreshed(s: State, token: int): State {
    if exists sid :: Holds(s, sid, token) then
      var sid :| Holds(s, sid, token);
      if MayRotate(s, sid) then Rotated(s, sid) else s
    else if token in s.retired then Invalidated(s, {s.retired[token]})
    else s
  }

  // PostgreSQL's own answer: version and whether the session may be used.
  function Loaded(s: State, sid: int, user: int): Option<(int, bool)> {
    if sid in s.sessions && s.sessions[sid].user == user then
      Some((s.sessions[sid].version, !s.sessions[sid].invalidated && user !in s.inactive))
    else None
  }

  function Seen(s: State, sid: int, user: int): Option<(int, bool)> {
    if sid in s.cache then Some(s.cache[sid]) else Loaded(s, sid, user)
  }

  predicate Admits(entry: Option<(int, bool)>, version: int) {
    entry.Some? && entry.value.1 && entry.value.0 == version
  }

  predicate Authenticates(s: State, token: Access) {
    Admits(Seen(s, token.sid, token.user), token.version)
  }

  predicate AuthenticatesDirectly(s: State, token: Access) {
    Admits(Loaded(s, token.sid, token.user), token.version)
  }

  function AfterAuthenticate(s: State, token: Access): State {
    var seen := Seen(s, token.sid, token.user);
    if token.sid in s.cache || seen.None? then s else s.(cache := s.cache[token.sid := seen.value])
  }

  datatype Op =
    | Tick(instant: int)
    | Login(user: int)
    | Refresh(token: int)
    | Logout(sid: int)
    | ResetPassword(user: int)
    | Authenticate(access: Access)
    | Evict(sid: int)
    | SetStatus(user: int, active: bool)

  ghost function Next(s: State, op: Op): State {
    match op
    case Tick(instant) => if instant >= s.now then s.(now := instant) else s
    case Login(user) => Created(s, user)
    case Refresh(token) => Refreshed(s, token)
    case Logout(sid) => Invalidated(s, {sid})
    case ResetPassword(user) => Invalidated(s, SessionsOf(s, user))
    case Authenticate(token) => AfterAuthenticate(s, token)
    case Evict(sid) => s.(cache := s.cache - {sid})
    case SetStatus(user, active) => s.(inactive := if active then s.inactive - {user} else s.inactive + {user})
  }

  ghost function Run(s: State, ops: seq<Op>): State {
    if ops == [] then s else Next(Run(s, ops[..|ops| - 1]), ops[|ops| - 1])
  }

  // ---------------------------------------------------------------- the invariant

  ghost predicate TokensFresh(s: State) {
    && (forall t :: t in s.issued ==> t < s.nextToken)
    && (forall sid :: sid in s.sessions ==> sid < s.nextSid && s.sessions[sid].current in s.issued)
    && (forall t :: t in s.retired ==> t in s.issued && s.retired[t] in s.sessions)
    && (forall t :: t in s.issued ==> t in s.retired || exists sid :: Holds(s, sid, t))
  }

  ghost predicate TokensApart(s: State) {
    && (forall a, b :: a in s.sessions && b in s.sessions && s.sessions[a].current == s.sessions[b].current ==> a == b)
    && (forall sid :: sid in s.sessions ==> s.sessions[sid].current !in s.retired)
  }

  ghost predicate RedeemedOnce(s: State) {
    Distinct(s.redeemed) && (forall t :: t in s.redeemed <==> t in s.retired)
  }

  ghost predicate Versions(s: State) {
    && (forall sid :: sid in s.sessions ==> s.sessions[sid].version == if s.sessions[sid].invalidated then 2 else 1)
    && (forall a :: a in s.accessIssued ==>
          a.sid in s.sessions && a.user == s.sessions[a.sid].user && a.version == 1)
  }

  ghost predicate CacheSound(s: State) {
    forall sid :: sid in s.cache ==>
      && sid in s.sessions
      && s.cache[sid].0 == s.sessions[sid].version
      && (s.cache[sid].1 ==> !s.sessions[sid].invalidated)
  }

  ghost predicate CacheExact(s: State) {
    forall sid :: sid in s.cache && sid in s.sessions ==> s.cache[sid].1 == !s.sessions[sid].invalidated
  }

  ghost predicate Invariant(s: State) {
    TokensFresh(s) && TokensApart(s) && RedeemedOnce(s) && Versions(s) && CacheSound(s)
  }

  lemma CreatedKeeps(s: State, user: int)
    requires Invariant(s)
    ensures Invariant(Created(s, user))
  {
    var t := Created(s, user);
    assert Holds(t, s.nextSid, s.nextToken);
    assert forall sid, k :: Holds(s, sid, k) ==> Holds(t, sid, k);
  }

  lemma RotatedKeepsTokens(s: State, sid: int)
    requires TokensFresh(s) && TokensApart(s) && RedeemedOnce(s) && sid in s.sessions
    ensures TokensFresh(Rotated(s, sid)) && TokensApart(Rotated(s, sid)) && RedeemedOnce(Rotated(s, sid))
  {
    var t := Rotated(s, sid);
    assert Holds(t, sid, s.nextToken);
    assert forall other, k :: other != sid && Holds(s, other, k) ==> Holds(t, other, k);
    assert s.sessions[sid].current !in s.redeemed;
  }

  lemma RotatedKeeps(s: State, sid: int)
    requires Invariant(s) && sid in s.sessions && MayRotate(s, sid)
    ensures Invariant(Rotated(s, sid))
  {
    RotatedKeepsTokens(s, sid);
  }

  lemma InvalidatedKeepsTokens(s: State, sids: set<int>)
    requires TokensFresh(s) && TokensApart(s) && RedeemedOnce(s)
    ensures TokensFresh(Invalidated(s, sids)) && TokensApart(Invalidated(s, sids))
    ensures RedeemedOnce(Invalidated(s, sids))
  {
    var t := Invalidated(s, sids);
    assert t.sessions.Keys == s.sessions.Keys;
    assert forall sid :: sid in s.sessions ==> t.sessions[sid].current == s.sessions[sid].current;
    assert forall sid, k :: Holds(s, sid, k) ==> Holds(t, sid, k);
  }

  lemma InvalidatedKeepsVersions(s: State, sids: set<int>)
    requires Versions(s)
    ensures Versions(Invalidated(s, sids))
  {
    var t := Invalidated(s, sids);
    assert t.sessions.Keys == s.sessions.Keys;
    forall sid | sid in t.sessions
      ensures t.sessions[sid].user == s.sessions[sid].user
      ensures t.sessions[sid].version == if t.sessions[sid].invalidated then 2 else 1
    {
    }
  }

  lemma InvalidatedKeepsCache(s: State, sids: set<int>)
    requires CacheSound(s)
    ensures CacheSound(Invalidated(s, sids))
  {
    var t := Invalidated(s, sids);
    assert t.sessions.Keys == s.sessions.Keys;
    assert t.cache.Keys == s.cache.Keys + Live(s, sids);
  }

  lemma InvalidatedKeepsExact(s: State, sids: set<int>)
    requires CacheExact(s)
    ensures CacheExact(Invalidated(s, sids))
  {
    var t := Invalidated(s, sids);
    assert t.sessions.Keys == s.sessions.Keys;
    assert t.cache.Keys == s.cache.Keys + Live(s, sids);
  }

  lemma InvalidatedKeeps(s: State, sids: set<int>)
    requires Invariant(s)
    ensures Invariant(Invalidated(s, sids))
    ensures CacheExact(s) ==> CacheExact(Invalidated(s, sids))
  {
    InvalidatedKeepsTokens(s, sids);
    InvalidatedKeepsVersions(s, sids);
    InvalidatedKeepsCache(s, sids);
    if CacheExact(s) {
      InvalidatedKeepsExact(s, sids);
    }
  }

  lemma RefreshedKeeps(s: State, token: int)
    requires Invariant(s)
    ensures Invariant(Refreshed(s, token))
    ensures CacheExact(s) ==> CacheExact(Refreshed(s, token))
  {
    if exists sid :: Holds(s, sid, token) {
      var sid :| Holds(s, sid, token);
      assert forall other :: Holds(s, other, token) ==> other == sid;
      if MayRotate(s, sid) {
        RotatedKeeps(s, sid);
      }
    } else if token in s.retired {
      InvalidatedKeeps(s, {s.retired[token]});
    }
  }

  lemma SameTokensKeep(s: State, t: State)
    requires Invariant(s) && CacheSound(t)
    requires t.sessions == s.sessions && t.retired == s.retired && t.nextToken == s.nextToken
    requires t.nextSid == s.nextSid && t.issued == s.issued && t.accessIssued == s.accessIssued
    requires t.redeemed == s.redeemed
    ensures Invariant(t)
  {
    assert forall sid, k :: Holds(s, sid, k) ==> Holds(t, sid, k);
  }

  // Cache fills, evictions, the clock and user status leave sessions and tokens alone.
  lemma OthersKeep(s: State, op: Op)
    requires Invariant(s) && (op.Tick? || op.Authenticate? || op.Evict? || op.SetStatus?)
    ensures Invariant(Next(s, op))
    ensures CacheExact(s) && s.inactive == {} && !op.SetStatus? ==> CacheExact(Next(s, op))
  {
    SameTokensKeep(s, Next(s, op));
  }

  lemma NextKeepsInvariant(s: State, op: Op)
    requires Invariant(s)
    ensures Invariant(Next(s, op))
    ensures CacheExact(s) && s.inactive == {} && !op.SetStatus? ==> CacheExact(Next(s, op))
  {
    match op {
      case Login(user) => CreatedKeeps(s, user);
      case Refresh(token) => RefreshedKeeps(s, token);
      case Logout(sid) => InvalidatedKeeps(s, {sid});
      case ResetPassword(user) => InvalidatedKeeps(s, SessionsOf(s, user));
      case _ => OthersKeep(s, op);
    }
  }

  lemma {:induction false} RunKeepsInvariant(now: int, ttl: int, ops: seq<Op>)
    ensures Invariant(Run(Init(now, ttl), ops))
  {
    if ops != [] {
      RunKeepsInvariant(now, ttl, ops[..|ops| - 1]);
      NextKeepsInvariant(Run(Init(now, ttl), ops[..|ops| - 1]), ops[|ops| - 1]);
    }
  }

  // ---------------------------------------------------------------- rotation, over all runs

  // Every issued refresh token is either the current token of exactly one session or retired under exactly
  // one session, never both; and each is redeemed at most once, exactly when it is retired.
  lemma TokensPartition(now: int, ttl: int, ops: seq<Op>, token: int)
    requires token in Run(Init(now, ttl), ops).issued
    ensures var s := Run(Init(now, ttl), ops);
            && ((exists sid :: Holds(s, sid, token)) <==> token !in s.retired)
            && (forall a, b :: Holds(s, a, token) && Holds(s, b, token) ==> a == b)
            && multiset(s.redeemed)[token] == if token in s.retired then 1 else 0
  {
    RunKeepsInvariant(now, ttl, ops);
    var s := Run(Init(now, ttl), ops);
    DistinctCount(s.redeemed, token);
    assert multiset(s.redeemed)[token] > 0 <==> token in s.redeemed;
  }

  lemma VersionTellsInvalidation(now: int, ttl: int, ops: seq<Op>, sid: int)
    requires sid in Run(Init(now, ttl), ops).sessions
    ensures var session := Run(Init(now, ttl), ops).sessions[sid];
            session.version == if session.invalidated then 2 else 1
  {
    RunKeepsInvariant(now, ttl, ops);
  }

  ghost predicate Dead(s: State, sid: int) {
    sid in s.sessions && s.sessions[sid].invalidated
  }

  lemma DeadStaysDead(s: State, op: Op, sid: int)
    requires Invariant(s) && Dead(s, sid)
    ensures Dead(Next(s, op), sid)
    ensures Next(s, op).sessions[sid] == s.sessions[sid]
  {
  }

  lemma {:induction false} DeadForever(s: State, ops: seq<Op>, sid: int)
    requires Invariant(s) && Dead(s, sid)
    ensures Invariant(Run(s, ops)) && Dead(Run(s, ops), sid)
    ensures Run(s, ops).sessions[sid] == s.sessions[sid]
  {
    if ops != [] {
      DeadForever(s, ops[..|ops| - 1], sid);
      NextKeepsInvariant(Run(s, ops[..|ops| - 1]), ops[|ops| - 1]);
      DeadStaysDead(Run(s, ops[..|ops| - 1]), ops[|ops| - 1], sid);
    }
  }

  // No refresh token the session holds or held is exchanged, and no access token issued for it is accepted.
  ghost predicate IsOver(t: State, sid: int) {
    && Dead(t, sid)
    && (forall k :: Holds(t, sid, k) || (k in t.retired && t.retired[k] == sid) ==> !Accepts(t, k))
    && (forall a :: a in t.accessIssued && a.sid == sid ==> !Authenticates(t, a) && !AuthenticatesDirectly(t, a))
  }

  lemma DeadIsOver(s: State, sid: int)
    requires Invariant(s) && Dead(s, sid)
    ensures IsOver(s, sid)
  {
  }

  // Presenting a retired token ends its session for good, whatever happens after that.
  lemma ReplayEndsTheFamily(now: int, ttl: int, before: seq<Op>, token: int, after: seq<Op>)
    requires token in Run(Init(now, ttl), before).retired
    ensures var s := Run(Init(now, ttl), before);
            IsOver(Run(Next(s, Refresh(token)), after), s.retired[token])
  {
    RunKeepsInvariant(now, ttl, before);
    var s := Run(Init(now, ttl), before);
    var sid := s.retired[token];
    NextKeepsInvariant(s, Refresh(token));
    assert !exists other :: Holds(s, other, token);
    assert Dead(Next(s, Refresh(token)), sid);
    DeadForever(Next(s, Refresh(token)), after, sid);
    DeadIsOver(Run(Next(s, Refresh(token)), after), sid);
  }

  // So does its logout.
  lemma LogoutEndsTheSession(now: int, ttl: int, before: seq<Op>, sid: int, after: seq<Op>)
    requires sid in Run(Init(now, ttl), before).sessions
    ensures IsOver(Run(Next(Run(Init(now, ttl), before), Logout(sid)), after), sid)
  {
    RunKeepsInvariant(now, ttl, before);
    var s := Run(Init(now, ttl), before);
    NextKeepsInvariant(s, Logout(sid));
    DeadForever(Next(s, Logout(sid)), after, sid);
    DeadIsOver(Run(Next(s, Logout(sid)), after), sid);
  }

  // And a password reset ends every session of that user.
  lemma ResetEndsEverySession(now: int, ttl: int, before: seq<Op>, user: int, sid: int, after: seq<Op>)
    requires sid in SessionsOf(Run(Init(now, ttl), before), user)
    ensures IsOver(Run(Next(Run(Init(now, ttl), before), ResetPassword(user)), after), sid)
  {
    RunKeepsInvariant(now, ttl, before);
    var s := Run(Init(now, ttl), before);
    NextKeepsInvariant(s, ResetPassword(user));
    DeadForever(Next(s, ResetPassword(user)), after, sid);
    DeadIsOver(Run(Next(s, ResetPassword(user)), after), sid);
  }

  // ---------------------------------------------------------------- exactly when, and with what effect

  // The session holds the token and may exchange it: it is not invalidated, has not expired, and its user is active.
  ghost predicate Usable(s: State, sid: int, token: int) {
    && sid in s.sessions && s.sessions[sid].current == token
    && !s.sessions[sid].invalidated && s.now < s.sessions[sid].expires && s.sessions[sid].user !in s.inactive
  }

  // A refresh redeems its token exactly if some session may exchange it.
  lemma RefreshRedeemsExactly(now: int, ttl: int, ops: seq<Op>, token: int)
    ensures var s := Run(Init(now, ttl), ops);
            Next(s, Refresh(token)).redeemed == s.redeemed + [token] <==> exists sid :: Usable(s, sid, token)
  {
    RunKeepsInvariant(now, ttl, ops);
    var s := Run(Init(now, ttl), ops);
    RefreshEffect(s, token);
    if sid :| Usable(s, sid, token) {
      assert Next(s, Refresh(token)).redeemed == s.redeemed + [token];
    } else {
      assert |s.redeemed| < |s.redeemed + [token]|;
    }
  }

  // The effect of a refresh on everything stored. A usable session gets a fresh token and a full new term, the old
  // token is retired under it, and an access token of its user and version is issued; a held token that is not usable
  // changes nothing, nor does an unknown one; a retired one ends its session.
  lemma RefreshEffect(s: State, token: int)
    requires TokensApart(s)
    ensures var t := Next(s, Refresh(token));
            && (forall sid :: Usable(s, sid, token) ==>
                  var session := s.sessions[sid];
                  && t.sessions == s.sessions[sid :=
                       Session(session.user, s.nextToken, session.version, s.now + s.ttl, false)]
                  && t.retired == s.retired[token := sid] && t.redeemed == s.redeemed + [token]
                  && t.issued == s.issued + {s.nextToken} && t.nextToken == s.nextToken + 1
                  && t.accessIssued == s.accessIssued + {Access(session.user, sid, session.version)}
                  && t.cache == s.cache)
            && ((exists sid :: Holds(s, sid, token)) && !(exists sid :: Usable(s, sid, token)) ==> t == s)
            && (!(exists sid :: Holds(s, sid, token)) && token in s.retired ==>
                  OnlyEnded(s, t, sid => sid == s.retired[token]))
            && (!(exists sid :: Holds(s, sid, token)) && token !in s.retired ==> t == s)
            && t.now == s.now && t.ttl == s.ttl && t.inactive == s.inactive && t.nextSid == s.nextSid
  {
    forall sid, other | Holds(s, sid, token) && Holds(s, other, token) ensures sid == other {}
    if sid :| Usable(s, sid, token) {
      assert Holds(s, sid, token);
      assert Rotated(s, sid).sessions == s.sessions[sid :=
               Session(s.sessions[sid].user, s.nextToken, s.sessions[sid].version, s.now + s.ttl, false)];
    } else if token in s.retired && !exists sid :: Holds(s, sid, token) {
      EndingEffect(s, {s.retired[token]}, sid => sid == s.retired[token]);
    } else if sid :| Holds(s, sid, token) {
      assert !Usable(s, sid, token);
    }
  }

  // From `s` to `t` exactly the sessions chosen are invalidated: the live ones among them get the next version, and a
  // cache entry that says so.
  ghost predicate OnlyEnded(s: State, t: State, chosen: int -> bool) {
    && t == s.(sessions := t.sessions, cache := t.cache)
    && t.sessions.Keys == s.sessions.Keys
    && (forall sid :: sid in s.sessions ==>
          var session := s.sessions[sid];
          t.sessions[sid] == if chosen(sid) && !session.invalidated
                             then Session(session.user, session.current, session.version + 1, session.expires, true)
                             else session)
    && (forall sid :: sid in t.cache <==>
          sid in s.cache || (sid in s.sessions && chosen(sid) && !s.sessions[sid].invalidated))
    && (forall sid :: sid in t.cache ==>
          t.cache[sid] == if sid in s.sessions && chosen(sid) && !s.sessions[sid].invalidated
                          then (s.sessions[sid].version + 1, false) else s.cache[sid])
  }

  lemma EndingEffect(s: State, sids: set<int>, chosen: int -> bool)
    requires forall sid :: sid in s.sessions ==> (chosen(sid) <==> sid in sids)
    ensures OnlyEnded(s, Invalidated(s, sids), chosen)
  {
  }

  // A logout ends that session and no other, a password reset the sessions of that user and no other.
  lemma LogoutEndsOnly(s: State, sid: int)
    ensures OnlyEnded(s, Next(s, Logout(sid)), other => other == sid)
  {
    EndingEffect(s, {sid}, other => other == sid);
  }

  lemma ResetEndsOnly(s: State, user: int)
    ensures OnlyEnded(s, Next(s, ResetPassword(user)), sid => sid in s.sessions && s.sessions[sid].user == user)
  {
    EndingEffect(s, SessionsOf(s, user), sid => sid in s.sessions && s.sessions[sid].user == user);
  }

  // A login opens one session, valid for a full term from now, with a fresh token, cached as active.
  lemma LoginEffect(s: State, user: int)
    ensures var t := Next(s, Login(user));
            && t.sessions == s.sessions[s.nextSid := Session(user, s.nextToken, 1, s.now + s.ttl, false)]
            && t.cache == s.cache[s.nextSid := (1, true)]
            && t.issued == s.issued + {s.nextToken} && t.accessIssued == s.accessIssued + {Access(user, s.nextSid, 1)}
            && t.nextToken == s.nextToken + 1 && t.nextSid == s.nextSid + 1
            && t == s.(sessions := t.sessions, cache := t.cache, issued := t.issued, accessIssued := t.accessIssued,
                       nextToken := t.nextToken, nextSid := t.nextSid)
  {
  }

  // Everything else leaves the sessions alone; only an authentication that misses the cache, and finds the session,
  // fills it, with the table's own answer.
  lemma QuietEffects(s: State, op: Op)
    ensures op.Tick? ==> Next(s, op) == s.(now := Max(s.now, op.instant))
    ensures op.Evict? ==> Next(s, op) == s.(cache := s.cache - {op.sid})
    ensures op.SetStatus? ==>
              Next(s, op) == s.(inactive := if op.active then s.inactive - {op.user} else s.inactive + {op.user})
    ensures op.Authenticate? ==>
              var a := op.access;
              Next(s, op) == if a.sid !in s.cache && a.sid in s.sessions && s.sessions[a.sid].user == a.user
                             then s.(cache := s.cache[a.sid := (s.sessions[a.sid].version,
                                       !s.sessions[a.sid].invalidated && a.user !in s.inactive)])
                             else s
  {
  }

  // The instant of a session's login or latest exchange.
  ghost function GrantedAt(now: int, ttl: int, ops: seq<Op>, sid: int): int {
    if ops == [] then now
    else
      var before, last := ops[..|ops| - 1], ops[|ops| - 1];
      var s := Run(Init(now, ttl), before);
      if (last.Login? && s.nextSid == sid) || (last.Refresh? && Usable(s, sid, last.token)) then s.now
      else GrantedAt(now, ttl, before, sid)
  }

  // What ends a session: its logout, a password reset of its user, or a refresh with a token retired under it.
  ghost predicate Ends(s: State, op: Op, sid: int) {
    || op == Logout(sid)
    || (op.ResetPassword? && sid in s.sessions && s.sessions[sid].user == op.user)
    || (op.Refresh? && op.token in s.retired && s.retired[op.token] == sid)
  }

  ghost predicate EverEnded(now: int, ttl: int, ops: seq<Op>, sid: int) {
    if ops == [] then false
    else
      var before := ops[..|ops| - 1];
      var s := Run(Init(now, ttl), before);
      EverEnded(now, ttl, before, sid) || (sid in s.sessions && Ends(s, ops[|ops| - 1], sid))
  }

  // A session's whole state is told by the run: it expires one term after its login or latest exchange, and it is
  // invalidated exactly if something has ended it.
  lemma {:induction false} SessionTellsHistory(now: int, ttl: int, ops: seq<Op>, sid: int)
    requires sid in Run(Init(now, ttl), ops).sessions
    ensures var session := Run(Init(now, ttl), ops).sessions[sid];
            && session.expires == GrantedAt(now, ttl, ops, sid) + ttl
            && (session.invalidated <==> EverEnded(now, ttl, ops, sid))
    ensures Run(Init(now, ttl), ops).ttl == ttl
  {
    var before := ops[..|ops| - 1];
    var s, op := Run(Init(now, ttl), before), ops[|ops| - 1];
    RunKeepsInvariant(now, ttl, before);
    RunTtl(now, ttl, before);
    RunTtl(now, ttl, ops);
    if sid in s.sessions {
      SessionTellsHistory(now, ttl, before, sid);
      SessionStep(s, op, sid);
    } else {
      NotYetEnded(now, ttl, before, sid);
      NewSession(s, op, sid);
    }
  }

  lemma {:induction false} RunTtl(now: int, ttl: int, ops: seq<Op>)
    ensures Run(Init(now, ttl), ops).ttl == ttl
  {
    if ops != [] {
      RunTtl(now, ttl, ops[..|ops| - 1]);
    }
  }

  lemma NewSession(s: State, op: Op, sid: int)
    requires Invariant(s) && sid !in s.sessions && sid in Next(s, op).sessions
    ensures op.Login? && sid == s.nextSid
  {
    if op.Refresh? {
      RefreshEffect(s, op.token);
    } else if op.Logout? {
      LogoutEndsOnly(s, op.sid);
    } else if op.ResetPassword? {
      ResetEndsOnly(s, op.user);
    }
  }

  lemma SessionStep(s: State, op: Op, sid: int)
    requires Invariant(s) && sid in s.sessions
    ensures var t := Next(s, op);
            && sid in t.sessions
            && t.sessions[sid].expires ==
                 (if op.Refresh? && Usable(s, sid, op.token) then s.now + s.ttl else s.sessions[sid].expires)
            && (t.sessions[sid].invalidated <==> s.sessions[sid].invalidated || Ends(s, op, sid))
  {
    if op.Refresh? {
      RefreshEffect(s, op.token);
      assert op.token in s.retired ==> forall other :: !Holds(s, other, op.token);
    } else if op.Logout? {
      LogoutEndsOnly(s, op.sid);
    } else if op.ResetPassword? {
      ResetEndsOnly(s, op.user);
    }
  }

  lemma {:induction false} NotYetEnded(now: int, ttl: int, ops: seq<Op>, sid: int)
    requires sid !in Run(Init(now, ttl), ops).sessions
    ensures !EverEnded(now, ttl, ops, sid)
  {
    if ops != [] {
      var before := ops[..|ops| - 1];
      var s := Run(Init(now, ttl), before);
      RunKeepsInvariant(now, ttl, before);
      if sid in s.sessions {
        SessionStep(s, ops[|ops| - 1], sid);
      }
      NotYetEnded(now, ttl, before, sid);
    }
  }

  // What authentication answers: the cached flag and version if there is an entry, and otherwise whether the session
  // exists for that user, has that version, is not invalidated and its user is active.
  lemma AuthenticatesExactly(s: State, a: Access)
    ensures AuthenticatesDirectly(s, a) <==>
              && a.sid in s.sessions && s.sessions[a.sid].user == a.user && s.sessions[a.sid].version == a.version
              && !s.sessions[a.sid].invalidated && a.user !in s.inactive
    ensures Authenticates(s, a) <==>
              if a.sid in s.cache then s.cache[a.sid] == (a.version, true) else AuthenticatesDirectly(s, a)
  {
  }

  // ---------------------------------------------------------------- the cache answers as the database does

  predicate UsersStayActive(ops: seq<Op>) {
    forall i :: 0 <= i < |ops| ==> !ops[i].SetStatus?
  }

  lemma {:induction false} CacheStaysExact(now: int, ttl: int, ops: seq<Op>)
    requires UsersStayActive(ops)
    ensures Invariant(Run(Init(now, ttl), ops)) && CacheExact(Run(Init(now, ttl), ops))
    ensures Run(Init(now, ttl), ops).inactive == {}
  {
    if ops != [] {
      CacheStaysExact(now, ttl, ops[..|ops| - 1]);
      NextKeepsInvariant(Run(Init(now, ttl), ops[..|ops| - 1]), ops[|ops| - 1]);
    }
  }

  // With arbitrary evictions, a token the service issued is answered exactly as auth_sessions would.
  lemma CacheIsTransparent(now: int, ttl: int, ops: seq<Op>, token: Access)
    requires UsersStayActive(ops) && token in Run(Init(now, ttl), ops).accessIssued
    ensures var s := Run(Init(now, ttl), ops); Authenticates(s, token) == AuthenticatesDirectly(s, token)
  {
    CacheStaysExact(now, ttl, ops);
  }

  // When users do change status, the cache answers wrongly for exactly the live sessions whose cached flag
  // predates the change.
  lemma CacheWrongExactly(now: int, ttl: int, ops: seq<Op>, token: Access)
    requires token in Run(Init(now, ttl), ops).accessIssued
    ensures var s := Run(Init(now, ttl), ops);
            Authenticates(s, token) != AuthenticatesDirectly(s, token) <==>
              && token.sid in s.cache && token.sid in s.sessions
              && !s.sessions[token.sid].invalidated
              && s.cache[token.sid].1 == (token.user in s.inactive)
  {
    RunKeepsInvariant(now, ttl, ops);
  }

  lemma DeactivatedUserStaysCached()
    ensures var s := Run(Init(0, 100), [Login(1), SetStatus(1, false)]);
            var token := Access(1, 0, 1);
            token in s.accessIssued && Authenticates(s, token) && !AuthenticatesDirectly(s, token)
  {
    var ops := [Login(1), SetStatus(1, false)];
    assert ops[..1] == [Login(1)] && ops[..1][..0] == [];
    assert Run(Init(0, 100), [Login(1)]) == Created(Init(0, 100), 1);
  }

  // ---------------------------------------------------------------- the service

  lemma InvalidatedPointwise(s: State, sids: set<int>, sessions: map<int, Session>, cache: map<int, (int, bool)>)
    requires sessions.Keys == s.sessions.Keys && cache.Keys == s.cache.Keys + Live(s, sids)
    requires forall sid :: sid in sessions ==>
      sessions[sid] == if sid in Live(s, sids) then Ended(s.sessions[sid]) else s.sessions[sid]
    requires forall sid :: sid in cache ==>
      cache[sid] == if sid in Live(s, sids) then (s.sessions[sid].version + 1, false) else s.cache[sid]
    ensures s.(sessions := sessions, cache := cache) == Invalidated(s, sids)
  {
    var t := Invalidated(s, sids);
    assert t.sessions.Keys == sessions.Keys && t.cache.Keys == cache.Keys;
    forall sid | sid in sessions ensures t.sessions[sid] == sessions[sid] {}
    forall sid | sid in cache ensures t.cache[sid] == cache[sid] {}
    assert t.sessions == sessions && t.cache == cache;
  }

  class AuthService {
    const ttl: int
    var now: int
    var sessions: map<int, Session>
    var retired: map<int, int>
    var cache: map<int, (int, bool)>
    var inactive: set<int>
    var nextToken: int
    var nextSid: int
    ghost var issued: set<int>
    ghost var accessIssued: set<Access>
    ghost var redeemed: seq<int>

    ghost function Abstract(): State
      reads this
    {
      State(now, ttl, sessions, retired, cache, inactive, nextToken, nextSid, issued, accessIssued, redeemed)
    }

    constructor (now: int, ttl: int)
      ensures Abstract() == Init(now, ttl)
    {
      this.now, this.ttl, sessions, retired, cache, inactive := now, ttl, map[], map[], map[], {};
      nextToken, nextSid, issued, accessIssued, redeemed := 0, 0, {}, {}, [];
    }

    method CreateSession(user: int) returns (access: Access, refresh: int)
      modifies this
      ensures Abstract() == Created(old(Abstract()), user)
      ensures access == Access(user, old(nextSid), 1) && refresh == old(nextToken)
    {
      access, refresh := Access(user, nextSid, 1), nextToken;
      sessions := sessions[nextSid := Session(user, refresh, 1, now + ttl, false)];
      cache := cache[nextSid := (1, true)];
      issued, accessIssued := issued + {refresh}, accessIssued + {access};
      nextToken, nextSid := nextToken + 1, nextSid + 1;
    }

    // One cache write for each row the UPDATE returned.
    method RevokeRows(rows: map<int, int>)
      modifies this`cache
      ensures cache.Keys == old(cache).Keys + rows.Keys
      ensures forall sid :: sid in cache ==>
        cache[sid] == if sid in rows then (rows[sid], false) else old(cache)[sid]
    {
      var rest := rows.Keys;
      while rest != {}
        invariant rest <= rows.Keys
        invariant forall sid :: sid in cache <==> sid in old(cache) || (sid in rows && sid !in rest)
        invariant forall sid :: sid in cache ==>
          cache[sid] == if sid in rows && sid !in rest then (rows[sid], false) else old(cache)[sid]
        decreases |rest|
      {
        ghost var some := Inhabited(rest);
        var sid :| sid in rest;
        cache := cache[sid := (rows[sid], false)];
        rest := rest - {sid};
      }
      assert forall sid :: sid in cache.Keys <==> sid in old(cache).Keys + rows.Keys;
    }

    method InvalidateSessions(sids: set<int>)
      modifies this`sessions, this`cache
      ensures Abstract() == Invalidated(old(Abstract()), sids)
    {
      var live := set sid | sid in sids && sid in sessions && !sessions[sid].invalidated;
      assert live == Live(Abstract(), sids);
      var rows := map sid | sid in live :: sessions[sid].version + 1;
      assert rows.Keys == live;
      RevokeRows(rows);
      sessions := map sid | sid in sessions :: if sid in live then Ended(sessions[sid]) else sessions[sid];
      InvalidatedPointwise(old(Abstract()), sids, sessions, cache);
    }

    method Logout(sid: int)
      modifies this`sessions, this`cache
      ensures Abstract() == Next(old(Abstract()), Op.Logout(sid))
    {
      InvalidateSessions({sid});
    }

    method InvalidateAllSessions(user: int)
      modifies this`sessions, this`cache
      ensures Abstract() == Next(old(Abstract()), ResetPassword(user))
    {
      var sids := set sid | sid in sessions && sessions[sid].user == user;
      assert sids == SessionsOf(Abstract(), user);
      InvalidateSessions(sids);
    }

    method FindSession(token: int) returns (found: Option<int>)
      ensures found.Some? ==> Holds(Abstract(), found.value, token)
      ensures found.None? ==> forall sid :: !Holds(Abstract(), sid, token)
    {
      var rest := sessions.Keys;
      while rest != {}
        invariant rest <= sessions.Keys
        invariant forall sid :: Holds(Abstract(), sid, token) ==> sid in rest
        decreases |rest|
      {
        ghost var some := Inhabited(rest);
        var sid :| sid in rest;
        if sessions[sid].current == token {
          return Some(sid);
        }
        rest := rest - {sid};
      }
      return None;
    }

    method Refresh(token: int) returns (pair: Option<(Access, int)>)
      requires TokensApart(Abstract())
      modifies this
      ensures pair.Some? <==> Accepts(old(Abstract()), token)
      ensures Abstract() == Refreshed(old(Abstract()), token)
      ensures pair.Some? ==> pair.value.1 == old(nextToken) && Holds(Abstract(), pair.value.0.sid, pair.value.1)
                             && pair.value.0 in accessIssued
    {
      ghost var s := Abstract();
      var found := FindSession(token);
      if found.None? {
        assert s == Abstract();
        if token in retired {
          InvalidateSessions({retired[token]});
        }
        return None;
      }
      var sid := found.value;
      assert forall other :: Holds(Abstract(), other, token) ==> other == sid;
      pair := Rotate(sid);
    }

    method Rotate(sid: int) returns (pair: Option<(Access, int)>)
      requires sid in sessions
      modifies this
      ensures pair.Some? <==> MayRotate(old(Abstract()), sid)
      ensures Abstract() == if pair.Some? then Rotated(old(Abstract()), sid) else old(Abstract())
      ensures pair.Some? ==> pair.value.1 == old(nextToken) && Holds(Abstract(), sid, pair.value.1)
                             && pair.value.0 in accessIssued && pair.value.0.sid == sid
    {
      var session := sessions[sid];
      if session.invalidated || session.expires <= now || session.user in inactive {
        return None;
      }
      var access := Access(session.user, sid, session.version);
      retired := retired[session.current := sid];
      sessions := sessions[sid := session.(current := nextToken, expires := now + ttl)];
      issued, accessIssued, redeemed := issued + {nextToken}, accessIssued + {access}, redeemed + [session.current];
      nextToken := nextToken + 1;
      return Some((access, nextToken - 1));
    }

    method Authenticate(token: Access) returns (admitted: bool)
      modifies this`cache
      ensures admitted == Authenticates(old(Abstract()), token)
      ensures Abstract() == AfterAuthenticate(old(Abstract()), token)
    {
      var entry: Option<(int, bool)> := None;
      if token.sid in cache {
        entry := Some(cache[token.sid]);
      } else if token.sid in sessions && sessions[token.sid].user == token.user {
        var session := sessions[token.sid];
        entry := Some((session.version, !session.invalidated && token.user !in inactive));
        cache := cache[token.sid := entry.value];
      }
      return entry.Some? && entry.value.1 && entry.value.0 == token.version;
    }
  }
}
