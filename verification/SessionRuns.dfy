/** Refresh calls whose reads and writes interleave with everything else: what of the session rules survives. */
module SessionRuns {
  import opened Common
  import S = Sessions

  /** A refresh that has read session and user, with the role it has read. */
  datatype Ready = Ready(token: S.RefreshToken, role: S.Role)

  /**
   * The tables and tokens, the refreshes between two of their statements, the sessions that a replay is about to
   * revoke, and how often each token has been exchanged for a new one.
   */
  datatype State = State(
    auth: S.State, reading: multiset<S.RefreshToken>, ready: multiset<Ready>, replayed: multiset<nat>,
    exchanged: multiset<S.RefreshToken>)

  datatype Step =
    | Other(step: S.Step)
    | ReadSession(token: S.RefreshToken)
    | RevokeReplayed(sid: nat)
    | ReadUser(token: S.RefreshToken)
    | Rotate(ready: Ready, newJti: nat)

  predicate UserPasses(s: S.State, t: S.RefreshToken) {
    t.sub in s.users && s.users[t.sub].active && s.users[t.sub].tokenVersion == t.ver
  }

  function StartRefresh(s: State, t: S.RefreshToken): State {
    if t !in s.auth.refreshTokens || t.sid !in s.auth.sessions || s.auth.sessions[t.sid].revoked then s
    else if s.auth.sessions[t.sid].jti != t.rjti then s.(replayed := s.replayed + multiset{t.sid})
    else s.(reading := s.reading + multiset{t})
  }

  function CheckUser(s: State, t: S.RefreshToken): State {
    if t !in s.reading then s else
    var s' := s.(reading := s.reading - multiset{t});
    if UserPasses(s.auth, t) then s'.(ready := s.ready + multiset{Ready(t, s.auth.users[t.sub].role)}) else s'
  }

  function NewToken(r: Ready, newJti: nat): S.RefreshToken {
    S.RefreshToken(r.token.sub, r.role, r.token.ver, newJti, r.token.sid)
  }

  /** The update of the session names its id only. */
  function Exchange(s: S.State, r: Ready, newJti: nat): S.State
    requires r.token.sid in s.sessions
  {
    s.(sessions := s.sessions[r.token.sid := s.sessions[r.token.sid].(jti := newJti)],
       refreshTokens := s.refreshTokens + {NewToken(r, newJti)},
       accessTokens := s.accessTokens + {S.AccessToken(r.token.sub, r.role, r.token.ver, r.token.sid)})
  }

  predicate Enabled(s: State, r: Ready, newJti: nat) {
    r in s.ready && S.FreshJti(s.auth, newJti) && r.token.sid in s.auth.sessions
  }

  function RotateNow(s: State, r: Ready, newJti: nat): State {
    if !Enabled(s, r, newJti) then s
    else s.(auth := Exchange(s.auth, r, newJti), ready := s.ready - multiset{r},
            exchanged := s.exchanged + multiset{r.token})
  }

  function RevokeNow(s: State, sid: nat): State {
    if sid in s.replayed then s.(auth := S.Revoke(s.auth, sid), replayed := s.replayed - multiset{sid}) else s
  }

  /** Every call but a refresh is one statement or transaction. */
  function OtherCall(s: State, step: S.Step): State {
    if step.UseRefresh? then s else s.(auth := S.Apply(s.auth, step))
  }

  function Apply(s: State, step: Step): State {
    match step
    case Other(other) => OtherCall(s, other)
    case ReadSession(t) => StartRefresh(s, t)
    case RevokeReplayed(sid) => RevokeNow(s, sid)
    case ReadUser(t) => CheckUser(s, t)
    case Rotate(r, newJti) => RotateNow(s, r, newJti)
  }

  function Run(s: State, steps: seq<Step>): State
    decreases |steps|
  {
    if steps == [] then s else Run(Apply(s, steps[0]), steps[1..])
  }

  const EMPTY := State(S.EMPTY, multiset{}, multiset{}, multiset{}, multiset{})

  // ----- a refresh that runs alone -----

  function Alone(auth: S.State): State { State(auth, multiset{}, multiset{}, multiset{}, multiset{}) }

  /** The statements of a refresh; those that do not apply change nothing. `role` is the one that it reads. */
  function AfterRefresh(s: State, t: S.RefreshToken, role: S.Role, newJti: nat): State {
    RotateNow(CheckUser(RevokeNow(StartRefresh(s, t), t.sid), t), Ready(t, role), newJti)
  }

  predicate FindsSession(auth: S.State, t: S.RefreshToken) {
    t in auth.refreshTokens && t.sid in auth.sessions && !auth.sessions[t.sid].revoked
  }

  lemma UnknownAlone(auth: S.State, t: S.RefreshToken, r: Ready, newJti: nat)
    requires !FindsSession(auth, t)
    ensures RotateNow(CheckUser(RevokeNow(StartRefresh(Alone(auth), t), t.sid), t), r, newJti) == Alone(auth)
  {
  }

  lemma ReplayedAlone(auth: S.State, t: S.RefreshToken, r: Ready, newJti: nat)
    requires FindsSession(auth, t) && auth.sessions[t.sid].jti != t.rjti
    ensures RotateNow(CheckUser(RevokeNow(StartRefresh(Alone(auth), t), t.sid), t), r, newJti)
         == Alone(S.Revoke(auth, t.sid))
  {
    var started := Alone(auth).(replayed := multiset{t.sid});
    assert StartRefresh(Alone(auth), t) == started;
    assert RevokeNow(started, t.sid) == Alone(S.Revoke(auth, t.sid));
  }

  lemma CheckedAlone(auth: S.State, t: S.RefreshToken)
    requires FindsSession(auth, t) && auth.sessions[t.sid].jti == t.rjti
    ensures CheckUser(RevokeNow(StartRefresh(Alone(auth), t), t.sid), t) ==
      Alone(auth).(ready := if UserPasses(auth, t) then multiset{Ready(t, auth.users[t.sub].role)} else multiset{})
  {
    var started := Alone(auth).(reading := multiset{t});
    assert StartRefresh(Alone(auth), t) == started && RevokeNow(started, t.sid) == started;
    assert started.reading - multiset{t} == multiset{};
  }

  lemma RotatedAlone(auth: S.State, t: S.RefreshToken, role: S.Role, newJti: nat)
    requires S.FreshJti(auth, newJti) && t.sid in auth.sessions && UserPasses(auth, t)
    requires role == auth.users[t.sub].role
    ensures RotateNow(Alone(auth).(ready := multiset{Ready(t, role)}), Ready(t, role), newJti).auth
         == S.IssueTokens(auth.(sessions := auth.sessions[t.sid := auth.sessions[t.sid].(jti := newJti)]), t.sub, t.sid,
                          newJti)
  {
  }

  /** Reads and writes of a refresh, one right after the other, do to the tables what the refresh does in one step. */
  lemma AloneIsRefresh(auth: S.State, t: S.RefreshToken, role: S.Role, newJti: nat, after: S.State)
    requires S.FreshJti(auth, newJti) && (t.sub in auth.users ==> role == auth.users[t.sub].role)
    requires after == AfterRefresh(Alone(auth), t, role, newJti).auth
    ensures after == S.Apply(auth, S.UseRefresh(t, newJti))
  {
    if !FindsSession(auth, t) {
      UnknownAlone(auth, t, Ready(t, role), newJti);
    } else if auth.sessions[t.sid].jti != t.rjti {
      ReplayedAlone(auth, t, Ready(t, role), newJti);
    } else {
      CheckedAlone(auth, t);
      if UserPasses(auth, t) {
        RotatedAlone(auth, t, role, newJti);
      }
    }
  }

  // ----- invariants -----

  predicate Inv(s: State) {
    && S.Inv(s.auth)
    && (forall t | t in s.reading :: t in s.auth.refreshTokens)
    && (forall r | r in s.ready :: r.token in s.auth.refreshTokens)
  }

  /** Users, sessions and tokens stay, versions never fall, a revoked session stays revoked. */
  ghost predicate Later(s: S.State, s': S.State) {
    && (forall u | u in s.users :: u in s'.users && s.users[u].tokenVersion <= s'.users[u].tokenVersion)
    && (forall sid | sid in s.sessions ::
          sid in s'.sessions && s'.sessions[sid].user == s.sessions[sid].user
          && (s.sessions[sid].revoked ==> s'.sessions[sid].revoked))
    && s.refreshTokens <= s'.refreshTokens
  }

  lemma ExchangeKeepsInv(s: S.State, r: Ready, newJti: nat)
    requires S.Inv(s) && r.token in s.refreshTokens && S.FreshJti(s, newJti) && r.token.sid in s.sessions
    ensures S.Inv(Exchange(s, r, newJti)) && Later(s, Exchange(s, r, newJti))
  {
    var s' := Exchange(s, r, newJti);
    assert S.Bound(s, r.token);
    forall t | t in s.refreshTokens ensures S.Bound(s', t) {
      assert S.Bound(s, t);
    }
  }

  lemma RevokeKeepsInv(s: S.State, sid: nat)
    requires S.Inv(s)
    ensures S.Inv(S.Revoke(s, sid)) && Later(s, S.Revoke(s, sid))
  {
    S.StepKeepsInv(s, S.Logout(sid));
    S.StepIsLater(s, S.Logout(sid));
  }

  lemma OtherKeepsInv(s: State, step: S.Step)
    requires Inv(s)
    ensures Inv(OtherCall(s, step)) && Later(s.auth, OtherCall(s, step).auth)
  {
    S.StepKeepsInv(s.auth, step);
    S.StepIsLater(s.auth, step);
  }

  lemma StartKeepsInv(s: State, t: S.RefreshToken)
    requires Inv(s)
    ensures Inv(StartRefresh(s, t)) && StartRefresh(s, t).auth == s.auth
  {
    var s' := StartRefresh(s, t);
    assert s'.auth == s.auth && s'.ready == s.ready;
    assert forall u | u in s'.reading :: u in s.reading || u == t;
  }

  lemma CheckKeepsInv(s: State, t: S.RefreshToken)
    requires Inv(s)
    ensures Inv(CheckUser(s, t)) && CheckUser(s, t).auth == s.auth
  {
    var s' := CheckUser(s, t);
    assert s'.auth == s.auth && s'.reading <= s.reading;
    assert forall r | r in s'.ready :: r in s.ready || (r.token == t && t in s.reading);
  }

  lemma RotateKeepsInv(s: State, r: Ready, newJti: nat)
    requires Inv(s)
    ensures Inv(RotateNow(s, r, newJti)) && Later(s.auth, RotateNow(s, r, newJti).auth)
  {
    if Enabled(s, r, newJti) {
      ExchangeKeepsInv(s.auth, r, newJti);
    }
  }

  lemma RevokeNowKeepsInv(s: State, sid: nat)
    requires Inv(s)
    ensures Inv(RevokeNow(s, sid)) && Later(s.auth, RevokeNow(s, sid).auth)
  {
    RevokeKeepsInv(s.auth, sid);
  }

  lemma StepKeepsInv(s: State, step: Step)
    requires Inv(s)
    ensures Inv(Apply(s, step)) && Later(s.auth, Apply(s, step).auth)
  {
    match step
    case Other(other) => OtherKeepsInv(s, other);
    case ReadSession(t) => StartKeepsInv(s, t);
    case RevokeReplayed(sid) => RevokeNowKeepsInv(s, sid);
    case ReadUser(t) => CheckKeepsInv(s, t);
    case Rotate(r, newJti) => RotateKeepsInv(s, r, newJti);
  }

  lemma LaterTransitive(a: S.State, b: S.State, c: S.State)
    requires Later(a, b) && Later(b, c)
    ensures Later(a, c)
  {
  }

  lemma {:induction false} RunsKeepInv(s: State, steps: seq<Step>)
    requires Inv(s)
    ensures Inv(Run(s, steps)) && Later(s.auth, Run(s, steps).auth)
    decreases |steps|
  {
    if steps != [] {
      var s1 := Apply(s, steps[0]);
      StepKeepsInv(s, steps[0]);
      RunsKeepInv(s1, steps[1..]);
      LaterTransitive(s.auth, s1.auth, Run(s1, steps[1..]).auth);
    }
  }

  // ----- what survives -----

  /** However refreshes interleave, at most one token per session is accepted. */
  lemma AtMostOneAccepted(steps: seq<Step>, a: S.RefreshToken, b: S.RefreshToken)
    requires S.AcceptsRefresh(Run(EMPTY, steps).auth, a) && S.AcceptsRefresh(Run(EMPTY, steps).auth, b)
    requires a.sid == b.sid
    ensures a == b
  {
    RunsKeepInv(EMPTY, steps);
  }

  /** A revoked session accepts no token any more, not even one that a late refresh issues. */
  lemma RevokedSessionAcceptsNothing(s: State, sid: nat, later: seq<Step>, t: S.RefreshToken)
    requires Inv(s) && sid in s.auth.sessions && s.auth.sessions[sid].revoked && t.sid == sid
    ensures !S.AcceptsRefresh(Run(s, later).auth, t)
  {
    RunsKeepInv(s, later);
  }

  /** No token below the user's version is ever accepted, not even one that a late refresh issues. */
  lemma OldVersionsStayRefused(s: State, later: seq<Step>, t: S.RefreshToken, a: S.AccessToken)
    requires Inv(s) && t.sub in s.auth.users && t.ver < s.auth.users[t.sub].tokenVersion
    requires a.sub == t.sub && a.ver == t.ver
    ensures !S.AcceptsRefresh(Run(s, later).auth, t) && !S.AcceptsAccess(Run(s, later).auth, a)
  {
    RunsKeepInv(s, later);
  }

  // ----- when a revoked session gets no further token -----

  ghost function TokensOf(s: State, sid: nat): set<S.RefreshToken> {
    set t | t in s.auth.refreshTokens && t.sid == sid
  }

  /** A refresh of the session has read user and session, or has read the session and its user still passes. */
  ghost predicate Ongoing(s: State, sid: nat) {
    || (exists r :: r in s.ready && r.token.sid == sid)
    || (exists t :: t in s.reading && t.sid == sid && UserPasses(s.auth, t))
  }

  ghost predicate Over(s: State, sid: nat) {
    Inv(s) && sid in s.auth.sessions && s.auth.sessions[sid].revoked && !Ongoing(s, sid)
  }

  /** A user who fails the check of a known token fails it for good. */
  lemma RefusedUserStaysRefused(s: S.State, step: S.Step, t: S.RefreshToken)
    requires S.Inv(s) && t in s.refreshTokens && !UserPasses(s, t)
    ensures !UserPasses(S.Apply(s, step), t)
  {
    assert S.Bound(s, t);
  }

  /** Nothing of the session is on its way, and it got no token. */
  ghost predicate Quiet(s: State, s': State, sid: nat) {
    !Ongoing(s', sid) && TokensOf(s', sid) == TokensOf(s, sid)
  }

  lemma LaterIssuesNothing(s: State, s': State, sid: nat)
    requires sid in s.auth.sessions && s.auth.sessions[sid].revoked
    requires s'.auth == s.auth || S.Later(s.auth, s'.auth)
    ensures TokensOf(s', sid) == TokensOf(s, sid)
  {
    var added := s'.auth.refreshTokens - s.auth.refreshTokens;
    assert forall t | t in added :: t.sid != sid;
    assert forall t | t in s'.auth.refreshTokens :: t in s.auth.refreshTokens || t in added;
  }

  lemma OtherKeepsOver(s: State, step: S.Step, sid: nat)
    requires Over(s, sid)
    ensures Quiet(s, OtherCall(s, step), sid)
  {
    var s' := OtherCall(s, step);
    S.StepIsLater(s.auth, step);
    LaterIssuesNothing(s, s', sid);
    forall t | t in s'.reading && t.sid == sid ensures !UserPasses(s'.auth, t) {
      if s' != s {
        RefusedUserStaysRefused(s.auth, step, t);
      }
    }
  }

  lemma StartKeepsOver(s: State, t: S.RefreshToken, sid: nat)
    requires Over(s, sid)
    ensures Quiet(s, StartRefresh(s, t), sid)
  {
    var s' := StartRefresh(s, t);
    assert s'.auth == s.auth && s'.ready == s.ready;
    assert forall u | u in s'.reading && u.sid == sid :: u in s.reading;
  }

  lemma RevokeKeepsOver(s: State, revoked: nat, sid: nat)
    requires Over(s, sid)
    ensures Quiet(s, RevokeNow(s, revoked), sid)
  {
    forall t | t in s.reading && t.sid == sid ensures !UserPasses(S.Revoke(s.auth, revoked), t) {
      assert !UserPasses(s.auth, t);
    }
  }

  lemma CheckKeepsOver(s: State, t: S.RefreshToken, sid: nat)
    requires Over(s, sid)
    ensures Quiet(s, CheckUser(s, t), sid)
  {
    if t in s.reading {
      assert t.sid == sid ==> !UserPasses(s.auth, t);
      forall r | r in CheckUser(s, t).ready ensures r.token.sid != sid {
        assert r in s.ready || r.token == t;
      }
    }
  }

  lemma RotateKeepsOver(s: State, r: Ready, newJti: nat, sid: nat)
    requires Over(s, sid)
    ensures Quiet(s, RotateNow(s, r, newJti), sid)
  {
    if Enabled(s, r, newJti) {
      assert r.token.sid != sid;
      forall t | t in s.reading && t.sid == sid ensures !UserPasses(Exchange(s.auth, r, newJti), t) {
        assert !UserPasses(s.auth, t);
      }
    }
  }

  lemma StepIsQuiet(s: State, step: Step, sid: nat)
    requires Over(s, sid)
    ensures Quiet(s, Apply(s, step), sid)
  {
    match step
    case Other(other) => OtherKeepsOver(s, other, sid);
    case ReadSession(t) => StartKeepsOver(s, t, sid);
    case RevokeReplayed(revoked) => RevokeKeepsOver(s, revoked, sid);
    case ReadUser(t) => CheckKeepsOver(s, t, sid);
    case Rotate(r, newJti) => RotateKeepsOver(s, r, newJti, sid);
  }

  lemma StepKeepsOver(s: State, step: Step, sid: nat)
    requires Over(s, sid)
    ensures Over(Apply(s, step), sid) && TokensOf(Apply(s, step), sid) == TokensOf(s, sid)
  {
    StepKeepsInv(s, step);
    StepIsQuiet(s, step, sid);
  }

  lemma {:induction false} OverForGood(s: State, later: seq<Step>, sid: nat)
    requires Over(s, sid)
    ensures TokensOf(Run(s, later), sid) == TokensOf(s, sid)
    decreases |later|
  {
    if later != [] {
      StepKeepsOver(s, later[0], sid);
      OverForGood(Apply(s, later[0]), later[1..], sid);
    }
  }

  lemma RunOne(s: State, step: Step)
    ensures Run(s, [step]) == Apply(s, step)
  {
    assert [step][1..] == [] && Run(Apply(s, step), []) == Apply(s, step);
  }

  lemma RunTwo(s: State, first: Step, second: Step)
    ensures Run(s, [first, second]) == Apply(Apply(s, first), second)
  {
    assert [first, second][1..] == [second];
    RunOne(Apply(s, first), second);
  }

  lemma RotateIssues(s: State, r: Ready, jti: nat)
    requires Inv(s) && r in s.ready && S.FreshJti(s.auth, jti)
    ensures TokensOf(Apply(s, Rotate(r, jti)), r.token.sid) != TokensOf(s, r.token.sid)
  {
    assert S.Bound(s.auth, r.token);
    assert NewToken(r, jti) in TokensOf(Apply(s, Rotate(r, jti)), r.token.sid);
    assert NewToken(r, jti) !in s.auth.refreshTokens;
  }

  lemma ReadingIssues(s: State, t: S.RefreshToken, jti: nat)
    requires Inv(s) && t in s.reading && UserPasses(s.auth, t) && S.FreshJti(s.auth, jti)
    ensures var r := Ready(t, s.auth.users[t.sub].role);
      TokensOf(Run(s, [ReadUser(t), Rotate(r, jti)]), t.sid) != TokensOf(s, t.sid)
  {
    var r := Ready(t, s.auth.users[t.sub].role);
    var s1 := CheckUser(s, t);
    CheckKeepsInv(s, t);
    assert r in s1.ready && TokensOf(s1, t.sid) == TokensOf(s, t.sid);
    RotateIssues(s1, r, jti);
    RunTwo(s, ReadUser(t), Rotate(r, jti));
  }

  lemma OngoingIssues(s: State, sid: nat, jti: nat) returns (later: seq<Step>)
    requires Inv(s) && Ongoing(s, sid) && S.FreshJti(s.auth, jti)
    ensures TokensOf(Run(s, later), sid) != TokensOf(s, sid)
  {
    if r :| r in s.ready && r.token.sid == sid {
      later := [Rotate(r, jti)];
      RotateIssues(s, r, jti);
      RunOne(s, Rotate(r, jti));
    } else {
      var t :| t in s.reading && t.sid == sid && UserPasses(s.auth, t);
      later := [ReadUser(t), Rotate(Ready(t, s.auth.users[t.sub].role), jti)];
      ReadingIssues(s, t, jti);
    }
  }

  /** A revoked session gets no further token in any later run exactly when no refresh of it is still on its way. */
  lemma RevokedSessionIssuesNothingIff(s: State, sid: nat, jti: nat)
    requires Inv(s) && sid in s.auth.sessions && s.auth.sessions[sid].revoked && S.FreshJti(s.auth, jti)
    ensures (forall later :: TokensOf(Run(s, later), sid) == TokensOf(s, sid)) <==> !Ongoing(s, sid)
  {
    if Ongoing(s, sid) {
      var later := OngoingIssues(s, sid, jti);
    } else {
      forall later ensures TokensOf(Run(s, later), sid) == TokensOf(s, sid) {
        OverForGood(s, later, sid);
      }
    }
  }

  // ----- when a token is exchanged at most once -----

  predicate UsedOnce(s: State) { forall t | t in s.exchanged :: s.exchanged[t] <= 1 }

  /** The guard that the update lacks: the session still carries the value of the token. */
  predicate FindsOwn(s: State, step: Step) {
    step.Rotate? && Enabled(s, step.ready, step.newJti) ==>
      s.auth.sessions[step.ready.token.sid].jti == step.ready.token.rjti
  }

  ghost predicate AlwaysFindsOwn(s: State, steps: seq<Step>)
    decreases |steps|
  {
    steps == [] || (FindsOwn(s, steps[0]) && AlwaysFindsOwn(Apply(s, steps[0]), steps[1..]))
  }

  ghost predicate AlwaysUsedOnce(s: State, steps: seq<Step>)
    decreases |steps|
  {
    UsedOnce(s) && (steps == [] || AlwaysUsedOnce(Apply(s, steps[0]), steps[1..]))
  }

  /** A token has been exchanged exactly when its session carries another value by now. */
  predicate Tracks(s: State) {
    && (forall t | t in s.exchanged :: t in s.auth.refreshTokens)
    && (forall t | t in s.auth.refreshTokens ::
          t.sid in s.auth.sessions && (t in s.exchanged <==> s.auth.sessions[t.sid].jti != t.rjti))
  }

  /** All steps but rotations leave the values of known sessions alone. */
  predicate SameValues(s: S.State, s': S.State) {
    && (forall sid | sid in s.sessions :: sid in s'.sessions && s'.sessions[sid].jti == s.sessions[sid].jti)
    && s.refreshTokens <= s'.refreshTokens
    && (forall t | t in s'.refreshTokens && t !in s.refreshTokens ::
          t.sid in s'.sessions && s'.sessions[t.sid].jti == t.rjti)
  }

  lemma OtherStepKeepsValues(s: S.State, step: S.Step)
    requires S.Inv(s) && !step.UseRefresh?
    ensures SameValues(s, S.Apply(s, step))
  {
  }

  lemma SameValuesTrack(s: State, s': State)
    requires Tracks(s) && UsedOnce(s) && SameValues(s.auth, s'.auth) && s'.exchanged == s.exchanged
    ensures Tracks(s') && UsedOnce(s')
  {
  }

  lemma GoodRotateTracks(s: State, r: Ready, newJti: nat)
    requires Inv(s) && Tracks(s) && UsedOnce(s) && Enabled(s, r, newJti)
    requires s.auth.sessions[r.token.sid].jti == r.token.rjti
    ensures Tracks(RotateNow(s, r, newJti)) && UsedOnce(RotateNow(s, r, newJti))
  {
    var s' := RotateNow(s, r, newJti);
    assert r.token in s.auth.refreshTokens && NewToken(r, newJti) !in s.auth.refreshTokens;
    assert r.token !in s.exchanged;
    forall t | t in s'.auth.refreshTokens ensures t in s'.exchanged <==> s'.auth.sessions[t.sid].jti != t.rjti {
      assert t in s.auth.refreshTokens || t == NewToken(r, newJti);
      assert t in s.auth.refreshTokens && t.rjti == r.token.rjti ==> t == r.token;
    }
  }

  lemma RotateTracksIff(s: State, r: Ready, newJti: nat)
    requires Inv(s) && Tracks(s) && UsedOnce(s)
    ensures FindsOwn(s, Rotate(r, newJti)) ==> Tracks(RotateNow(s, r, newJti))
    ensures UsedOnce(RotateNow(s, r, newJti)) <==> FindsOwn(s, Rotate(r, newJti))
  {
    if Enabled(s, r, newJti) {
      if s.auth.sessions[r.token.sid].jti == r.token.rjti {
        GoodRotateTracks(s, r, newJti);
      } else {
        assert r.token in s.exchanged && RotateNow(s, r, newJti).exchanged[r.token] >= 2;
      }
    }
  }

  lemma OtherTracks(s: State, step: S.Step)
    requires Inv(s) && Tracks(s) && UsedOnce(s)
    ensures Tracks(OtherCall(s, step)) && UsedOnce(OtherCall(s, step))
  {
    if !step.UseRefresh? {
      OtherStepKeepsValues(s.auth, step);
      SameValuesTrack(s, OtherCall(s, step));
    }
  }

  lemma RevokeTracks(s: State, sid: nat)
    requires Tracks(s) && UsedOnce(s)
    ensures Tracks(RevokeNow(s, sid)) && UsedOnce(RevokeNow(s, sid))
  {
    SameValuesTrack(s, RevokeNow(s, sid));
  }

  lemma NoRotationTracks(s: State, step: Step)
    requires Inv(s) && Tracks(s) && UsedOnce(s) && !step.Rotate?
    ensures Tracks(Apply(s, step)) && UsedOnce(Apply(s, step))
  {
    match step
    case Other(other) => OtherTracks(s, other);
    case ReadSession(t) => SameValuesTrack(s, StartRefresh(s, t));
    case RevokeReplayed(sid) => RevokeTracks(s, sid);
    case ReadUser(t) => SameValuesTrack(s, CheckUser(s, t));
  }

  lemma StepTracksIff(s: State, step: Step)
    requires Inv(s) && Tracks(s) && UsedOnce(s)
    ensures FindsOwn(s, step) ==> Tracks(Apply(s, step))
    ensures UsedOnce(Apply(s, step)) <==> FindsOwn(s, step)
  {
    if step.Rotate? {
      RotateTracksIff(s, step.ready, step.newJti);
    } else {
      NoRotationTracks(s, step);
    }
  }

  lemma {:induction false} UsedOnceIffFrom(s: State, steps: seq<Step>)
    requires Inv(s) && Tracks(s) && UsedOnce(s)
    ensures AlwaysUsedOnce(s, steps) <==> AlwaysFindsOwn(s, steps)
    decreases |steps|
  {
    if steps != [] {
      StepTracksIff(s, steps[0]);
      StepKeepsInv(s, steps[0]);
      if FindsOwn(s, steps[0]) {
        UsedOnceIffFrom(Apply(s, steps[0]), steps[1..]);
      }
    }
  }

  /** Over every run no token is exchanged twice exactly when each rotation finds the value of its own token. */
  lemma UsedOnceIff(steps: seq<Step>)
    ensures AlwaysUsedOnce(EMPTY, steps) <==> AlwaysFindsOwn(EMPTY, steps)
  {
    UsedOnceIffFrom(EMPTY, steps);
  }

  // ----- two refreshes with one token -----

  /** One user with one session, which carries the value `jti`, and the tokens issued for it. */
  function OneSession(user: S.UserId, role: S.Role, sid: nat, jti: nat, tokens: set<S.RefreshToken>): S.State {
    S.State(map[user := S.UserRow(role, true, 0)], map[sid := S.Session(user, jti, false)], tokens,
            {S.AccessToken(user, role, 0, sid)})
  }

  function TokenOf(user: S.UserId, role: S.Role, sid: nat, jti: nat): S.RefreshToken {
    S.RefreshToken(user, role, 0, jti, sid)
  }

  function Opening(user: S.UserId, role: S.Role, sid: nat, jti: nat): seq<Step> {
    [Other(S.AddUser(user, role)), Other(S.Start(user, sid, jti))]
  }

  lemma OpeningEnds(user: S.UserId, role: S.Role, sid: nat, jti: nat)
    ensures Run(EMPTY, Opening(user, role, sid, jti))
         == EMPTY.(auth := OneSession(user, role, sid, jti, {TokenOf(user, role, sid, jti)}))
  {
    RunTwo(EMPTY, Other(S.AddUser(user, role)), Other(S.Start(user, sid, jti)));
    var added := EMPTY.(auth := S.State(map[user := S.UserRow(role, true, 0)], map[], {}, {}));
    assert Apply(EMPTY, Other(S.AddUser(user, role))) == added;
  }

  /** A state with one session, and `n` refreshes that have read everything. */
  function Waiting(user: S.UserId, role: S.Role, sid: nat, jti: nat, n: nat): State {
    EMPTY.(auth := OneSession(user, role, sid, jti, {TokenOf(user, role, sid, jti)}),
           ready := multiset{}[Ready(TokenOf(user, role, sid, jti), role) := n])
  }

  function Reads(t: S.RefreshToken): seq<Step> { [ReadSession(t), ReadUser(t)] }

  lemma ReadsEnd(user: S.UserId, role: S.Role, sid: nat, jti: nat, n: nat)
    ensures Run(Waiting(user, role, sid, jti, n), Reads(TokenOf(user, role, sid, jti)))
         == Waiting(user, role, sid, jti, n + 1)
  {
    var s, t := Waiting(user, role, sid, jti, n), TokenOf(user, role, sid, jti);
    RunTwo(s, ReadSession(t), ReadUser(t));
    var s1 := s.(reading := multiset{t});
    assert StartRefresh(s, t) == s1;
    assert s1.reading - multiset{t} == multiset{};
    assert s1.ready + multiset{Ready(t, role)} == Waiting(user, role, sid, jti, n + 1).ready;
    assert CheckUser(s1, t) == Waiting(user, role, sid, jti, n + 1);
  }

  lemma {:induction false} RunAppend(s: State, front: seq<Step>, rest: seq<Step>)
    ensures Run(s, front + rest) == Run(Run(s, front), rest)
    decreases |front|
  {
    if front == [] {
      assert front + rest == rest;
    } else {
      assert (front + rest)[0] == front[0] && (front + rest)[1..] == front[1..] + rest;
      RunAppend(Apply(s, front[0]), front[1..], rest);
    }
  }

  lemma Rotated(user: S.UserId, role: S.Role, sid: nat, jti: nat, was: nat, newJti: nat, s: State,
                tokens: set<S.RefreshToken>)
    requires S.FreshJti(s.auth, newJti) && Ready(TokenOf(user, role, sid, jti), role) in s.ready
    requires s.auth == OneSession(user, role, sid, was, tokens)
    ensures var s' := RotateNow(s, Ready(TokenOf(user, role, sid, jti), role), newJti);
      && s'.auth == OneSession(user, role, sid, newJti, tokens + {TokenOf(user, role, sid, newJti)})
      && s'.exchanged == s.exchanged + multiset{TokenOf(user, role, sid, jti)}
      && s'.ready == s.ready - multiset{Ready(TokenOf(user, role, sid, jti), role)}
  {
  }

  lemma FreshInOneSession(
      user: S.UserId, role: S.Role, sid: nat, was: nat, tokens: set<S.RefreshToken>, newJti: nat)
    requires was != newJti && forall t | t in tokens :: t.rjti != newJti
    ensures S.FreshJti(OneSession(user, role, sid, was, tokens), newJti)
  {
  }

  lemma FirstRotation(user: S.UserId, role: S.Role, sid: nat, jti: nat, first: nat, s: State, s': State)
    requires jti != first && s == Waiting(user, role, sid, jti, 2)
    requires s' == RotateNow(s, Ready(TokenOf(user, role, sid, jti), role), first)
    ensures var t := TokenOf(user, role, sid, jti);
      && Ready(t, role) in s'.ready && s'.exchanged == multiset{t}
      && s'.auth == OneSession(user, role, sid, first, {t, TokenOf(user, role, sid, first)})
  {
    var t := TokenOf(user, role, sid, jti);
    FreshInOneSession(user, role, sid, jti, {t}, first);
    Rotated(user, role, sid, jti, jti, first, s, {t});
    assert {t} + {TokenOf(user, role, sid, first)} == {t, TokenOf(user, role, sid, first)};
  }

  lemma RotationsEnd(user: S.UserId, role: S.Role, sid: nat, jti: nat, first: nat, second: nat, s: State)
    requires jti != first && jti != second && first != second && s == Waiting(user, role, sid, jti, 2)
    ensures var t := TokenOf(user, role, sid, jti);
      var s' := Run(s, [Rotate(Ready(t, role), first), Rotate(Ready(t, role), second)]);
      && s'.exchanged[t] == 2
      && s'.auth == OneSession(user, role, sid, second,
           {t, TokenOf(user, role, sid, first)} + {TokenOf(user, role, sid, second)})
  {
    var t := TokenOf(user, role, sid, jti);
    var r := Ready(t, role);
    var s1, tokens := RotateNow(s, r, first), {t, TokenOf(user, role, sid, first)};
    RunTwo(s, Rotate(r, first), Rotate(r, second));
    FirstRotation(user, role, sid, jti, first, s, s1);
    FreshInOneSession(user, role, sid, first, tokens, second);
    Rotated(user, role, sid, jti, first, second, s1, tokens);
  }

  lemma BothHaveRead(user: S.UserId, role: S.Role, sid: nat, jti: nat, steps: seq<Step>)
    requires var t := TokenOf(user, role, sid, jti); steps == Opening(user, role, sid, jti) + Reads(t) + Reads(t)
    ensures Run(EMPTY, steps) == Waiting(user, role, sid, jti, 2)
  {
    var t, open := TokenOf(user, role, sid, jti), Opening(user, role, sid, jti);
    OpeningEnds(user, role, sid, jti);
    assert Run(EMPTY, open) == Waiting(user, role, sid, jti, 0);
    ReadsEnd(user, role, sid, jti, 0);
    ReadsEnd(user, role, sid, jti, 1);
    RunAppend(EMPTY, open, Reads(t));
    RunAppend(EMPTY, open + Reads(t), Reads(t));
  }

  function TwoRefreshes(user: S.UserId, role: S.Role, sid: nat, jti: nat, first: nat, second: nat): seq<Step> {
    var t := TokenOf(user, role, sid, jti);
    Opening(user, role, sid, jti) + Reads(t) + Reads(t)
    + [Rotate(Ready(t, role), first), Rotate(Ready(t, role), second)]
  }

  /**
   * Two refreshes that both read before either writes exchange one token twice: both callers get a token, and the one
   * that the first caller gets is not accepted.
   */
  lemma OverlappingRefreshesExchangeTwice(
      user: S.UserId, role: S.Role, sid: nat, jti: nat, first: nat, second: nat)
    requires jti != first && jti != second && first != second
    ensures var s := Run(EMPTY, TwoRefreshes(user, role, sid, jti, first, second));
      && s.exchanged[TokenOf(user, role, sid, jti)] == 2
      && S.AcceptsRefresh(s.auth, TokenOf(user, role, sid, second))
      && TokenOf(user, role, sid, first) in s.auth.refreshTokens
      && !S.AcceptsRefresh(s.auth, TokenOf(user, role, sid, first))
  {
    var t := TokenOf(user, role, sid, jti);
    var both := Opening(user, role, sid, jti) + Reads(t) + Reads(t);
    BothHaveRead(user, role, sid, jti, both);
    RunAppend(EMPTY, both, [Rotate(Ready(t, role), first), Rotate(Ready(t, role), second)]);
    RotationsEnd(user, role, sid, jti, first, second, Run(EMPTY, both));
  }
}
