/** Refresh sessions, token rotation and token versions, over whole runs of the authentication service. */
module Sessions {
  import opened Common

  type UserId = string

  datatype Role = Contributor | Reviewer | Admin | Superadmin
  datatype UserRow = UserRow(role: Role, active: bool, tokenVersion: nat)
  datatype Session = Session(user: UserId, jti: nat, revoked: bool)
  datatype RefreshToken = RefreshToken(sub: UserId, role: Role, ver: nat, rjti: nat, sid: nat)
  datatype AccessToken = AccessToken(sub: UserId, role: Role, ver: nat, sid: nat)

  /** The user and session tables, and every token signed so far. */
  datatype State = State(
    users: map<UserId, UserRow>, sessions: map<nat, Session>,
    refreshTokens: set<RefreshToken>, accessTokens: set<AccessToken>)

  /** A random value that no session and no token has carried. */
  predicate FreshJti(s: State, jti: nat) {
    (forall sid | sid in s.sessions :: s.sessions[sid].jti != jti) && (forall t | t in s.refreshTokens :: t.rjti != jti)
  }

  predicate FreshSid(s: State, sid: nat) {
    sid !in s.sessions && (forall t | t in s.refreshTokens :: t.sid != sid)
  }

  // ----- what the service does -----

  function IssueTokens(s: State, user: UserId, sid: nat, jti: nat): State
    requires user in s.users
  {
    var u := s.users[user];
    s.(refreshTokens := s.refreshTokens + {RefreshToken(user, u.role, u.tokenVersion, jti, sid)},
       accessTokens := s.accessTokens + {AccessToken(user, u.role, u.tokenVersion, sid)})
  }

  function StartSession(s: State, user: UserId, sid: nat, jti: nat): State
    requires user in s.users
  {
    IssueTokens(s.(sessions := s.sessions[sid := Session(user, jti, false)]), user, sid, jti)
  }

  function Revoke(s: State, sid: nat): State {
    if sid in s.sessions then s.(sessions := s.sessions[sid := s.sessions[sid].(revoked := true)]) else s
  }

  /** The access token is accepted by the guard: the user is active and at the token's version. */
  predicate AcceptsAccess(s: State, t: AccessToken) {
    t in s.accessTokens && t.sub in s.users && s.users[t.sub].active && s.users[t.sub].tokenVersion == t.ver
  }

  predicate AcceptsRefresh(s: State, t: RefreshToken) {
    && t in s.refreshTokens
    && t.sid in s.sessions && !s.sessions[t.sid].revoked && s.sessions[t.sid].jti == t.rjti
    && t.sub in s.users && s.users[t.sub].active && s.users[t.sub].tokenVersion == t.ver
  }

  /** `refresh` with a token whose signature and expiry were fine; `newJti` is the random value drawn. */
  function Refresh(s: State, t: RefreshToken, newJti: nat): State {
    if t.sid !in s.sessions || s.sessions[t.sid].revoked then s
    else if s.sessions[t.sid].jti != t.rjti then Revoke(s, t.sid)
    else if t.sub !in s.users || !s.users[t.sub].active || s.users[t.sub].tokenVersion != t.ver then s
    else IssueTokens(s.(sessions := s.sessions[t.sid := s.sessions[t.sid].(jti := newJti)]), t.sub, t.sid, newJti)
  }

  function RevokeSessionsOf(sessions: map<nat, Session>, user: UserId): map<nat, Session> {
    map sid | sid in sessions :: if sessions[sid].user == user then sessions[sid].(revoked := true) else sessions[sid]
  }

  /** A new version for the user, every session revoked. */
  function Bump(s: State, user: UserId, row: UserRow): State {
    s.(users := s.users[user := row], sessions := RevokeSessionsOf(s.sessions, user))
  }

  datatype Step =
    | AddUser(user: UserId, role: Role)
    | Start(user: UserId, sid: nat, jti: nat)
    | UseRefresh(token: RefreshToken, newJti: nat)
    | Logout(sid: nat)
    | RevokeAll(user: UserId)
    | Ban(user: UserId)
    | SetRole(user: UserId, role: Role)

  /** Only signed tokens can be presented, and drawn values are fresh; a step that is not enabled changes nothing. */
  function Apply(s: State, step: Step): State {
    match step
    case AddUser(user, role) => if user in s.users then s else s.(users := s.users[user := UserRow(role, true, 0)])
    case Start(user, sid, jti) =>
      if user in s.users && FreshSid(s, sid) && FreshJti(s, jti) then StartSession(s, user, sid, jti) else s
    case UseRefresh(t, newJti) => if t in s.refreshTokens && FreshJti(s, newJti) then Refresh(s, t, newJti) else s
    case Logout(sid) => Revoke(s, sid)
    case RevokeAll(user) =>
      if user in s.users then Bump(s, user, s.users[user].(tokenVersion := s.users[user].tokenVersion + 1)) else s
    case Ban(user) =>
      if user in s.users && (s.users[user].role == Contributor || s.users[user].role == Reviewer)
      then Bump(s, user, s.users[user].(active := false, tokenVersion := s.users[user].tokenVersion + 1)) else s
    case SetRole(user, role) =>
      if user !in s.users then s
      else Bump(s, user, s.users[user].(role := role, tokenVersion := s.users[user].tokenVersion + 1))
  }

  function Run(s: State, steps: seq<Step>): State
    decreases |steps|
  {
    if steps == [] then s else Run(Apply(s, steps[0]), steps[1..])
  }

  const EMPTY := State(map[], map[], {}, {})

  // ----- invariants -----

  /** A token belongs to a known session of its user and is not ahead of the user's version. */
  predicate Bound(s: State, t: RefreshToken) {
    && t.sid in s.sessions && s.sessions[t.sid].user == t.sub
    && t.sub in s.users && t.ver <= s.users[t.sub].tokenVersion
  }

  predicate Inv(s: State) {
    && (forall t | t in s.refreshTokens :: Bound(s, t))
    && (forall t | t in s.accessTokens :: t.sub in s.users && t.ver <= s.users[t.sub].tokenVersion)
    && (forall a, b | a in s.refreshTokens && b in s.refreshTokens && a.rjti == b.rjti :: a == b)
  }

  /** Users and sessions stay, versions never fall, a revoked session stays revoked and gets no further token. */
  ghost predicate Later(s: State, s': State) {
    && (forall u | u in s.users :: u in s'.users && s.users[u].tokenVersion <= s'.users[u].tokenVersion)
    && (forall sid | sid in s.sessions ::
          sid in s'.sessions && s'.sessions[sid].user == s.sessions[sid].user &&
            (s.sessions[sid].revoked ==> s'.sessions[sid].revoked))
    && s.refreshTokens <= s'.refreshTokens && s.accessTokens <= s'.accessTokens
    && (forall t | t in s'.refreshTokens - s.refreshTokens :: t.sid in s.sessions ==> !s.sessions[t.sid].revoked)
  }

  lemma BumpIsLater(s: State, user: UserId, row: UserRow)
    requires Inv(s) && user in s.users && s.users[user].tokenVersion <= row.tokenVersion
    ensures Later(s, Bump(s, user, row))
  {
  }

  lemma RefreshIsLater(s: State, t: RefreshToken, newJti: nat)
    requires Inv(s)
    ensures Later(s, Refresh(s, t, newJti))
  {
  }

  lemma StepIsLater(s: State, step: Step)
    requires Inv(s)
    ensures Later(s, Apply(s, step))
  {
    match step
    case UseRefresh(t, newJti) => RefreshIsLater(s, t, newJti);
    case RevokeAll(user) =>
      if user in s.users {
        BumpIsLater(s, user, s.users[user].(tokenVersion := s.users[user].tokenVersion + 1));
      }
    case Ban(user) =>
      if user in s.users {
        BumpIsLater(s, user, s.users[user].(active := false, tokenVersion := s.users[user].tokenVersion + 1));
      }
    case SetRole(user, role) =>
      if user in s.users {
        BumpIsLater(s, user, s.users[user].(role := role, tokenVersion := s.users[user].tokenVersion + 1));
      }
    case _ =>
  }

  lemma StepKeepsInv(s: State, step: Step)
    requires Inv(s)
    ensures Inv(Apply(s, step))
  {
    var s' := Apply(s, step);
    StepIsLater(s, step);
    forall t | t in s.refreshTokens ensures Bound(s', t) { assert Bound(s, t); }
  }

  lemma LaterTransitive(a: State, b: State, c: State)
    requires Later(a, b) && Later(b, c)
    ensures Later(a, c)
  {
  }

  lemma {:induction false} RunsKeepInv(s: State, steps: seq<Step>)
    requires Inv(s)
    ensures Inv(Run(s, steps)) && Later(s, Run(s, steps))
    decreases |steps|
  {
    if steps != [] {
      var s1 := Apply(s, steps[0]);
      StepKeepsInv(s, steps[0]);
      StepIsLater(s, steps[0]);
      RunsKeepInv(s1, steps[1..]);
      LaterTransitive(s, s1, Run(s1, steps[1..]));
    }
  }

  // ----- what follows over whole runs -----

  /** In every reachable state at most one issued refresh token per session is accepted. */
  lemma AtMostOneAccepted(steps: seq<Step>, a: RefreshToken, b: RefreshToken)
    requires AcceptsRefresh(Run(EMPTY, steps), a) && AcceptsRefresh(Run(EMPTY, steps), b) && a.sid == b.sid
    ensures a == b
  {
    RunsKeepInv(EMPTY, steps);
  }

  /** A refresh rotates: the new token is accepted, the one used is not. */
  lemma RefreshRotates(s: State, t: RefreshToken, newJti: nat)
    requires Inv(s) && AcceptsRefresh(s, t) && FreshJti(s, newJti)
    ensures var s' := Apply(s, UseRefresh(t, newJti));
      && AcceptsRefresh(s', RefreshToken(t.sub, s.users[t.sub].role, t.ver, newJti, t.sid))
      && !AcceptsRefresh(s', t)
  {
  }

  /** Using a superseded token of a live session revokes the session, issues nothing, and that is final. */
  lemma ReplayRevokesForGood(s: State, t: RefreshToken, newJti: nat, later: seq<Step>, u: RefreshToken)
    requires Inv(s) && t in s.refreshTokens && FreshJti(s, newJti)
    requires !s.sessions[t.sid].revoked && s.sessions[t.sid].jti != t.rjti
    requires u.sid == t.sid
    ensures var s' := Apply(s, UseRefresh(t, newJti));
      && s'.refreshTokens == s.refreshTokens && s'.accessTokens == s.accessTokens
      && s'.sessions[t.sid].revoked
      && !AcceptsRefresh(Run(s', later), u)
  {
    assert Bound(s, t);
    StepKeepsInv(s, UseRefresh(t, newJti));
    RunsKeepInv(Apply(s, UseRefresh(t, newJti)), later);
  }

  /** A revoked session never gets another token. */
  lemma RevokedSessionIssuesNothing(s: State, sid: nat, later: seq<Step>, t: RefreshToken)
    requires Inv(s) && sid in s.sessions && s.sessions[sid].revoked
    requires t in Run(s, later).refreshTokens && t.sid == sid
    ensures t in s.refreshTokens && !AcceptsRefresh(Run(s, later), t)
  {
    RunsKeepInv(s, later);
  }

  /** A version bump ends every earlier token of the user, refresh and access, for ever. */
  lemma BumpEndsOldTokens(s: State, bump: Step, user: UserId, later: seq<Step>, r: RefreshToken, a: AccessToken)
    requires Inv(s) && user in s.users
    requires bump == RevokeAll(user)
      || (bump == Ban(user) && (s.users[user].role == Contributor || s.users[user].role == Reviewer))
      || (bump.SetRole? && bump.user == user)
    requires r in s.refreshTokens && r.sub == user && a in s.accessTokens && a.sub == user
    ensures !AcceptsRefresh(Run(Apply(s, bump), later), r) && !AcceptsAccess(Run(Apply(s, bump), later), a)
  {
    assert Bound(s, r);
    StepKeepsInv(s, bump);
    RunsKeepInv(Apply(s, bump), later);
  }

  /** Every session of the user is revoked, and every other one stays as it is. */
  predicate AllRevoked(before: map<nat, Session>, after: map<nat, Session>, user: UserId) {
    && after.Keys == before.Keys
    && forall sid | sid in before ::
         after[sid] == if before[sid].user == user then Session(user, before[sid].jti, true) else before[sid]
  }

  /** An administrator bans contributors and reviewers only: they turn inactive and all their sessions end. */
  lemma BanEndsSessions(s: State, user: UserId, s': State)
    requires s' == Apply(s, Ban(user))
    ensures user !in s.users || s.users[user].role == Admin || s.users[user].role == Superadmin ==> s' == s
    ensures user in s.users && s.users[user].role != Admin && s.users[user].role != Superadmin ==>
      && s'.users == s.users[user := UserRow(s.users[user].role, false, s.users[user].tokenVersion + 1)]
      && AllRevoked(s.sessions, s'.sessions, user)
      && s'.refreshTokens == s.refreshTokens && s'.accessTokens == s.accessTokens
  {
  }

  /** A change of role ends all sessions of the user, so no token carries the former role any more. */
  lemma RoleChangeEndsSessions(s: State, user: UserId, role: Role, s': State)
    requires s' == Apply(s, SetRole(user, role)) && user in s.users
    ensures s'.users == s.users[user := UserRow(role, s.users[user].active, s.users[user].tokenVersion + 1)]
    ensures AllRevoked(s.sessions, s'.sessions, user)
    ensures s'.refreshTokens == s.refreshTokens && s'.accessTokens == s.accessTokens
  {
  }

  // ----- the service object -----

  class AuthService {
    var users: map<UserId, UserRow>
    var sessions: map<nat, Session>
    ghost var refreshTokens: set<RefreshToken>
    ghost var accessTokens: set<AccessToken>

    ghost function Snapshot(): State
      reads this
    {
      State(users, sessions, refreshTokens, accessTokens)
    }

    method SignTokens(user: UserId, sid: nat, jti: nat) returns (access: AccessToken, refresh: RefreshToken)
      requires user in users
      modifies this`refreshTokens, this`accessTokens
      ensures Snapshot() == IssueTokens(old(Snapshot()), user, sid, jti)
      ensures refresh in refreshTokens && access in accessTokens
      ensures refresh == RefreshToken(user, users[user].role, users[user].tokenVersion, jti, sid)
      ensures access == AccessToken(user, users[user].role, users[user].tokenVersion, sid)
    {
      var u := users[user];
      access := AccessToken(user, u.role, u.tokenVersion, sid);
      refresh := RefreshToken(user, u.role, u.tokenVersion, jti, sid);
      accessTokens, refreshTokens := accessTokens + {access}, refreshTokens + {refresh};
    }

    method StartNewSession(user: UserId, sid: nat, jti: nat) returns (access: AccessToken, refresh: RefreshToken)
      requires user in users
      modifies this
      ensures Snapshot() == StartSession(old(Snapshot()), user, sid, jti)
      ensures users == old(users) && sessions == old(sessions)[sid := Session(user, jti, false)]
      ensures refresh == RefreshToken(user, users[user].role, users[user].tokenVersion, jti, sid)
      ensures access == AccessToken(user, users[user].role, users[user].tokenVersion, sid)
    {
      sessions := sessions[sid := Session(user, jti, false)];
      access, refresh := SignTokens(user, sid, jti);
    }

    /**
     * New tokens come exactly for a live session that carries the token's value, of an active user at the token's
     * version. Another value on a live session revokes it; any other refusal changes nothing.
     */
    method RefreshTokens(t: RefreshToken, newJti: nat) returns (r: Option<RefreshToken>)
      modifies this
      ensures Snapshot() == Refresh(old(Snapshot()), t, newJti)
      ensures t in old(refreshTokens) ==> (r.Some? <==> AcceptsRefresh(old(Snapshot()), t))
      ensures users == old(users)
      ensures r.Some? <==>
        && t.sid in old(sessions) && old(sessions)[t.sid] == Session(old(sessions)[t.sid].user, t.rjti, false)
        && t.sub in old(users) && old(users)[t.sub] == UserRow(old(users)[t.sub].role, true, t.ver)
      ensures r.Some? ==>
        && sessions == old(sessions)[t.sid := Session(old(sessions)[t.sid].user, newJti, false)]
        && r.value == RefreshToken(t.sub, users[t.sub].role, t.ver, newJti, t.sid) && r.value in refreshTokens
      ensures r == None ==>
        sessions == if t.sid in old(sessions) && old(sessions)[t.sid].jti != t.rjti
                    then old(sessions)[t.sid := old(sessions)[t.sid].(revoked := true)] else old(sessions)
    {
      if t.sid !in sessions || sessions[t.sid].revoked {
        return None;
      }
      if sessions[t.sid].jti != t.rjti {
        sessions := sessions[t.sid := sessions[t.sid].(revoked := true)];
        return None;
      }
      if t.sub !in users || !users[t.sub].active || users[t.sub].tokenVersion != t.ver {
        return None;
      }
      sessions := sessions[t.sid := sessions[t.sid].(jti := newJti)];
      var access, refresh := SignTokens(t.sub, t.sid, newJti);
      r := Some(refresh);
    }

    method EndSession(sid: nat)
      modifies this`sessions
      ensures Snapshot() == Revoke(old(Snapshot()), sid)
      ensures sessions == if sid in old(sessions) then old(sessions)[sid := old(sessions)[sid].(revoked := true)]
                          else old(sessions)
    {
      if sid in sessions && !sessions[sid].revoked {
        sessions := sessions[sid := sessions[sid].(revoked := true)];
      }
    }

    method RevokeAllSessions(user: UserId)
      modifies this
      ensures Snapshot() == Apply(old(Snapshot()), RevokeAll(user))
      ensures user !in old(users) ==> users == old(users) && sessions == old(sessions)
      ensures user in old(users) ==>
        && users == old(users)[user := old(users)[user].(tokenVersion := old(users)[user].tokenVersion + 1)]
        && sessions.Keys == old(sessions).Keys
        && forall sid | sid in sessions ::
             sessions[sid] == if old(sessions)[sid].user == user then old(sessions)[sid].(revoked := true)
                              else old(sessions)[sid]
    {
      if user in users {
        users := users[user := users[user].(tokenVersion := users[user].tokenVersion + 1)];
        sessions := RevokeSessionsOf(sessions, user);
      }
    }
  }
}
