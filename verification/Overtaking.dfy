/** Concrete runs in which the decision record's rule, that using an old refresh token revokes its
    family, does not come about: one for each way it fails. */
module Overtaking {
  import opened Common
  import opened Jwt
  import opened Persistence
  import opened Rotation
  import opened Ledgers
  import opened Interleaved
  import opened Presentation
  import Serial

  // ---------------------------------------------------------------- a closing request is overtaken

  /** A plan that closes a family: a reuse report, or a logout with the family's newest token. */
  ghost predicate Closes(t: Table, f: Id, plan: Plan) {
    match plan
    case Reuse(g) => g == f
    case Revoke(id) => id in t && t[id].familyId == f && t[id].replacedBy.None?
    case _ => false
  }

  function ClosingAnswer(plan: Plan): Answer {
    if plan.Reuse? then ReuseDetected else LoggedOut
  }

  lemma CloseApplied(cfg: Config, users: Users, t: Table, l: Ledger, f: Id, plan: Plan, ids: Ids, writeAt: real,
      issueAt: real)
    requires Refines(t, l) && Closes(t, f, plan)
    ensures var (t', answer) := Apply(cfg, users, t, plan, ids, writeAt, issueAt);
            answer == ClosingAnswer(plan) && OnlyRevokes(t, t') && Serial.AllRevoked(t', f)
  {
    if plan.Reuse? {
      ReuseRefines(cfg, users, t, l, f, ids, writeAt, issueAt);
      FamilyRevokedOnlyRevokes(t, f, writeAt);
    } else {
      RevokeRefines(cfg, users, t, l, plan.tokenId, ids, writeAt, issueAt);
      RevokedOnlyRevokes(t, plan.tokenId, writeAt);
      LogoutRevokesAll(t, l, plan.tokenId, writeAt);
    }
  }

  lemma LogoutRevokesAll(t: Table, l: Ledger, head: Id, at: real)
    requires Refines(t, l) && head in t && t[head].replacedBy.None?
    ensures Serial.AllRevoked(Revoked(t, head, at), t[head].familyId)
  {
    OthersAreRevoked(t, l, head);
  }

  lemma OthersAreRevoked(t: Table, l: Ledger, head: Id)
    requires Refines(t, l) && head in t && t[head].replacedBy.None?
    ensures forall i | i in t && t[i].familyId == t[head].familyId && i != head :: t[i].revokedAt.Some?
  {
    ConstraintsHold(t, l);
    forall i | i in t && t[i].familyId == t[head].familyId && i != head ensures t[i].replacedBy.Some? {
      var k := Located(t, l, head);
      HeadOf(t, l, t[head].familyId);
    }
  }

  /** A request that closes a family leaves the requests that hold its head to hold it. */
  lemma ClosingKeepsHolders(cfg: Config, s: State, l: Ledger, f: Id, e: Event, r: nat)
    requires Good(s, l) && e.Finish? && e.req in s.inflight && Closes(s.tokens, f, s.inflight[e.req])
    requires r != e.req && r in s.inflight && RotatesHead(s.tokens, f, s.inflight[r])
    ensures var (s1, closed) := Next(cfg, s, e);
            && closed == Some(ClosingAnswer(s.inflight[e.req])) && OnlyRevokes(s.tokens, s1.tokens)
            && Serial.AllRevoked(s1.tokens, f) && r in s1.inflight && RotatesHead(s1.tokens, f, s1.inflight[r])
  {
    CloseApplied(cfg, s.users, s.tokens, l, f, s.inflight[e.req], e.ids, e.writeAt, e.issueAt);
  }

  lemma SameFamilyIds(t: Table, t': Table, f: Id)
    requires OnlyRevokes(t, t')
    ensures Serial.FamilyIds(t', f) == Serial.FamilyIds(t, f)
  {
  }

  /** A refresh that holds a family's head commits under any unused id. */
  lemma RaceIsWon(cfg: Config, s: State, l: Ledger, f: Id, e: Event)
    requires Good(s, l) && e.Finish? && e.req in s.inflight && RotatesHead(s.tokens, f, s.inflight[e.req])
    requires e.ids.tokenId !in s.tokens
    ensures var (s1, issued) := Next(cfg, s, e);
            && issued.Some? && issued.value.Issued? && !Serial.AllRevoked(s1.tokens, f)
            && s.inflight[e.req].row.id in s1.tokens && s1.tokens[s.inflight[e.req].row.id].replacedBy.Some?
  {
    var plan := s.inflight[e.req];
    assert PlanOk(s.users, s.tokens, plan);
    HeadRotates(cfg, s.users, s.tokens, l, f, plan, e.ids, e.writeAt, e.issueAt);
    ExchangeReplaces(cfg, s, l, plan.row.id, e);
  }

  /** In any state with a ledger: if one request closes a family while another holds its head, the one is
      answered and every row is revoked, and then the other commits an unrevoked row. */
  lemma ClosingIsOvertaken(cfg: Config, s: State, l: Ledger, f: Id, e: Event, e': Event)
    requires Good(s, l) && e.Finish? && e.req in s.inflight && Closes(s.tokens, f, s.inflight[e.req])
    requires e'.Finish? && e'.req in s.inflight && RotatesHead(s.tokens, f, s.inflight[e'.req])
    requires e'.req != e.req && e'.ids.tokenId !in s.tokens
    ensures var (s1, closed) := Next(cfg, s, e);
            var (s2, issued) := Next(cfg, s1, e');
            && closed == Some(ClosingAnswer(s.inflight[e.req])) && HoldsHead(s1, f)
            && Serial.AllRevoked(s1.tokens, f) && Serial.FamilyIds(s1.tokens, f) == Serial.FamilyIds(s.tokens, f)
            && issued.Some? && issued.value.Issued? && !Serial.AllRevoked(s2.tokens, f)
  {
    var s1 := Next(cfg, s, e).0;
    ClosingKeepsHolders(cfg, s, l, f, e, e'.req);
    SameFamilyIds(s.tokens, s1.tokens, f);
    NextGood(cfg, s, l, e);
    RaceIsWon(cfg, s1, NextLedger(cfg, s, l, e), f, e');
  }

  // ---------------------------------------------------------------- a race is lost

  /** In any state with a ledger: if two requests hold a family's head, the one that finishes first
      commits, and the other is an integrity error; nothing is revoked. */
  lemma RaceIsLost(cfg: Config, s: State, l: Ledger, f: Id, e: Event, e': Event)
    requires Good(s, l) && e.Finish? && e.req in s.inflight && RotatesHead(s.tokens, f, s.inflight[e.req])
    requires e'.Finish? && e'.req in s.inflight && RotatesHead(s.tokens, f, s.inflight[e'.req])
    requires e'.req != e.req && e.ids.tokenId !in s.tokens
    ensures var (s1, issued) := Next(cfg, s, e);
            var (s2, lost) := Next(cfg, s1, e');
            && issued.Some? && issued.value.Issued? && lost == Some(IntegrityError)
            && s2.tokens == s1.tokens && !Serial.AllRevoked(s2.tokens, f)
            && s.inflight[e'.req].row.id in s1.tokens && s1.tokens[s.inflight[e'.req].row.id].replacedBy.Some?
  {
    var i := s.inflight[e'.req].row.id;
    SameHead(s.tokens, l, s.inflight[e.req].row.id, i);
    RaceIsWon(cfg, s, l, f, e);
    NextGood(cfg, s, l, e);
    StaleRotationFails(cfg, Next(cfg, s, e).0, NextLedger(cfg, s, l, e), i, e');
  }

  lemma SameHead(t: Table, l: Ledger, i: Id, j: Id)
    requires Refines(t, l) && i in t && j in t && t[i].familyId == t[j].familyId
    requires t[i].replacedBy.None? && t[j].replacedBy.None?
    ensures i == j
  {
    ConstraintsHold(t, l);
  }

  // ---------------------------------------------------------------- a revocation waits

  /** A family update that found its rows in `seen` and, after waiting for their locks, checks its
      condition again on what they have become: rows added since are not among them. */
  function RevokedAfterWaiting(seen: Table, t: Table, f: Id, at: real): Table {
    map i | i in t :: if LiveIn(seen, f, i) && LiveIn(t, f, i) then t[i].(revokedAt := Some(at)) else t[i]
  }

  /** A family-wide revocation that waits for a rotation of the family's head to commit ends as if it had
      run before that rotation, so taking the two as whole steps leaves no outcome out. */
  lemma WaitingRevocationRunsFirst(cfg: Config, users: Users, t: Table, l: Ledger, f: Id, row: Row,
      user: UserAuthRecord, ids: Ids, at: real, writeAt: real, issueAt: real)
    requires Refines(t, l) && PlanOk(users, t, Rotate(row, user)) && RotatesHead(t, f, Rotate(row, user))
    requires ids.tokenId !in t
    ensures var rotated := Apply(cfg, users, t, Rotate(row, user), ids, writeAt, issueAt);
            var revoked := Apply(cfg, users, t, Reuse(f), ids, at, issueAt);
            var (t', answer) := Apply(cfg, users, revoked.0, Rotate(row, user), ids, writeAt, issueAt);
            && revoked.1 == ReuseDetected && answer == rotated.1 && answer.Issued?
            && RevokedAfterWaiting(t, rotated.0, f, at) == t'
  {
    ReuseRefines(cfg, users, t, l, f, ids, at, issueAt);
    RotationCommits(cfg, users, t, l, row, user, ids, writeAt, issueAt);
    OnlyHeadIsLive(t, l, f, row.id);
    MarkedHidesRevocation(t, f, row.id, ids.tokenId, at, writeAt);
    OnlyTheMarkedTableMatters(cfg, users, t, FamilyRevoked(t, f, at), row, user, ids, writeAt, issueAt);
    NothingLeftToRevoke(t, Apply(cfg, users, t, Rotate(row, user), ids, writeAt, issueAt).0, f, row.id, at);
  }

  lemma RotationCommits(cfg: Config, users: Users, t: Table, l: Ledger, row: Row, user: UserAuthRecord, ids: Ids,
      writeAt: real, issueAt: real)
    requires Refines(t, l) && PlanOk(users, t, Rotate(row, user)) && t[row.id].replacedBy.None? && ids.tokenId !in t
    ensures var (t', answer) := Apply(cfg, users, t, Rotate(row, user), ids, writeAt, issueAt);
            answer.Issued? && row.id in t' && t'[row.id].revokedAt.Some?
  {
    RotateRefines(cfg, users, t, l, row, user, ids, writeAt, issueAt);
  }

  /** A rotation that commits sees of its table only what its own update leaves of it. */
  lemma OnlyTheMarkedTableMatters(cfg: Config, users: Users, t: Table, u: Table, row: Row, user: UserAuthRecord,
      ids: Ids, writeAt: real, issueAt: real)
    requires Marked(u, row.id, ids.tokenId, writeAt) == Marked(t, row.id, ids.tokenId, writeAt)
    requires Apply(cfg, users, t, Rotate(row, user), ids, writeAt, issueAt).1.Issued?
    ensures Apply(cfg, users, u, Rotate(row, user), ids, writeAt, issueAt)
         == Apply(cfg, users, t, Rotate(row, user), ids, writeAt, issueAt)
  {
  }

  lemma NothingLeftToRevoke(t: Table, t': Table, f: Id, head: Id, at: real)
    requires forall i | LiveIn(t, f, i) :: i == head
    requires head in t' && t'[head].revokedAt.Some?
    ensures RevokedAfterWaiting(t, t', f, at) == t'
  {
  }

  lemma OnlyHeadIsLive(t: Table, l: Ledger, f: Id, head: Id)
    requires Refines(t, l) && head in t && t[head].familyId == f && t[head].replacedBy.None?
    ensures forall i | LiveIn(t, f, i) :: i == head
  {
    ConstraintsHold(t, l);
    forall i | LiveIn(t, f, i) ensures i == head { SameHead(t, l, i, head); }
  }

  lemma MarkedHidesRevocation(t: Table, f: Id, head: Id, next: Id, at: real, writeAt: real)
    requires head in t && forall i | LiveIn(t, f, i) :: i == head
    ensures Marked(FamilyRevoked(t, f, at), head, next, writeAt) == Marked(t, head, next, writeAt)
  {
  }

  // ---------------------------------------------------------------- the common beginning of the runs

  /** A user logs in at time zero and is given token 1 of family 2. */
  function LoginRun(user: UserAuthRecord, secret: string): seq<Event> {
    [Start(0, Login(user.email, secret), 0.0, 0.0), Finish(0, Ids(1, 2, 3), 0.0, 0.0)]
  }

  /** At the last moment, the user refreshes token 1 and is given token 4. */
  function RefreshRun(cfg: Config, user: UserAuthRecord, secret: string): seq<Event> {
    var at := cfg.RefreshExpiry(0.0);
    LoginRun(user, secret) + [Start(0, Refresh(FirstToken(cfg, user)), at, at), Finish(0, Ids(4, 5, 6), at, at)]
  }

  function FirstToken(cfg: Config, user: UserAuthRecord): Token {
    cfg.RefreshToken(user.id, 1, 0.0, 1)
  }

  function SecondToken(cfg: Config, user: UserAuthRecord): Token {
    cfg.RefreshToken(user.id, 4, cfg.RefreshExpiry(0.0), 4)
  }

  function FirstRow(cfg: Config, user: UserAuthRecord): Row {
    NewRow(cfg, user.id, 2, 1, 0.0)
  }

  /** The table after the refresh. */
  function TwoRows(cfg: Config, user: UserAuthRecord): Table {
    var at := cfg.RefreshExpiry(0.0);
    map[1 := FirstRow(cfg, user).(replacedBy := Some(4), revokedAt := Some(at)), 4 := NewRow(cfg, user.id, 2, 4, at)]
  }

  lemma AfterTwo(cfg: Config, s: State, e: Event, e': Event)
    ensures After(cfg, s, [e, e']) == Next(cfg, Next(cfg, s, e).0, e').0
  {
    assert [e, e'][1..] == [e'];
    AfterOne(cfg, Next(cfg, s, e).0, e');
  }

  lemma FinishOnly(cfg: Config, users: Users, t: Table, plan: Plan, ids: Ids, at: real)
    ensures var (t', answer) := Apply(cfg, users, t, plan, ids, at, at);
            Next(cfg, State(users, t, map[0 := plan]), Finish(0, ids, at, at))
            == (State(users, t', map[]), Some(answer))
  {
    assert map[0 := plan] - {0} == map[];
  }

  /** Two requests started at the same moment from an idle server. */
  lemma TwoStarts(cfg: Config, users: Users, t: Table, request: Request, request': Request, at: real)
    ensures var plan, plan' := PlanFor(cfg, users, t, request, at, at), PlanFor(cfg, users, t, request', at, at);
            After(cfg, State(users, t, map[]), [Start(0, request, at, at), Start(1, request', at, at)])
            == State(users, t, map[0 := plan, 1 := plan'])
  {
    var plan, plan' := PlanFor(cfg, users, t, request, at, at), PlanFor(cfg, users, t, request', at, at);
    AfterTwo(cfg, State(users, t, map[]), Start(0, request, at, at), Start(1, request', at, at));
    assert map[][0 := plan][1 := plan'] == map[0 := plan, 1 := plan'];
  }

  lemma FirstLogin(cfg: Config, user: UserAuthRecord, secret: string)
    requires !user.disabled && user.passwordHash == Digest(secret)
    ensures var users: Users := map[user.id := user];
            After(cfg, Empty(users), LoginRun(user, secret)) == State(users, map[1 := FirstRow(cfg, user)], map[])
  {
    var users: Users := map[user.id := user];
    assert user.id in users && users[user.id].email == user.email;
    var s1 := State(users, map[], map[0 := Open(user)]);
    assert Next(cfg, Empty(users), LoginRun(user, secret)[0]).0 == s1;
    assert s1.inflight - {0} == map[];
    AfterTwo(cfg, Empty(users), LoginRun(user, secret)[0], LoginRun(user, secret)[1]);
  }

  /** Token 1 can be rotated until it expires. */
  lemma FirstTokenIsUsable(cfg: Config, user: UserAuthRecord, now: real)
    requires !user.disabled && 0.0 <= now <= cfg.RefreshExpiry(0.0)
    ensures PlanRefresh(cfg, map[user.id := user], map[1 := FirstRow(cfg, user)], FirstToken(cfg, user), now, now)
         == Rotate(FirstRow(cfg, user), user)
  {
    Decided(cfg, map[user.id := user], map[1 := FirstRow(cfg, user)], 1, now, now);
    VerdictOnOneClock(map[user.id := user], FirstRow(cfg, user), now);
  }

  lemma FirstRotation(cfg: Config, user: UserAuthRecord, secret: string)
    requires !user.disabled && user.passwordHash == Digest(secret)
    ensures var at, row := cfg.RefreshExpiry(0.0), FirstRow(cfg, user);
            Apply(cfg, map[user.id := user], map[1 := row], Rotate(row, user), Ids(4, 5, 6), at, at).0
            == TwoRows(cfg, user)
  {
    var users: Users := map[user.id := user];
    var at, t := cfg.RefreshExpiry(0.0), map[1 := FirstRow(cfg, user)];
    FirstLogin(cfg, user, secret);
    var l := Reached(cfg, users, LoginRun(user, secret));
    RotateRefines(cfg, users, t, l, t[1], user, Ids(4, 5, 6), at, at);
  }

  lemma FirstRefresh(cfg: Config, user: UserAuthRecord, secret: string)
    requires cfg.refreshDays >= 1 && !user.disabled && user.passwordHash == Digest(secret)
    ensures var users: Users := map[user.id := user];
            After(cfg, Empty(users), RefreshRun(cfg, user, secret)) == State(users, TwoRows(cfg, user), map[])
  {
    var users: Users := map[user.id := user];
    var at, t := cfg.RefreshExpiry(0.0), map[1 := FirstRow(cfg, user)];
    var e, e' := Start(0, Refresh(FirstToken(cfg, user)), at, at), Finish(0, Ids(4, 5, 6), at, at);
    FirstLogin(cfg, user, secret);
    FirstTokenIsUsable(cfg, user, at);
    FirstRotation(cfg, user, secret);
    FinishOnly(cfg, users, t, Rotate(t[1], user), Ids(4, 5, 6), at);
    AfterTwo(cfg, State(users, t, map[]), e, e');
    AfterSplits(cfg, Empty(users), LoginRun(user, secret), [e, e']);
  }

  /** What the two tokens are good for once the first is replaced. */
  lemma TwoTokens(cfg: Config, user: UserAuthRecord, now: real)
    requires cfg.refreshDays >= 1 && !user.disabled && cfg.RefreshExpiry(0.0) <= now
    ensures var users: Users := map[user.id := user];
            && PlanRefresh(cfg, users, TwoRows(cfg, user), FirstToken(cfg, user), now, now)
               == (if now < cfg.RefreshExpiry(0.0) + 30.0 then Reuse(2) else Reject(InvalidCredentials))
            && (now <= cfg.RefreshExpiry(0.0) + 30.0 ==>
                PlanRefresh(cfg, users, TwoRows(cfg, user), SecondToken(cfg, user), now, now)
                == Rotate(TwoRows(cfg, user)[4], user))
  {
    var users: Users := map[user.id := user];
    var t := TwoRows(cfg, user);
    Decided(cfg, users, t, 1, now, now);
    VerdictOnOneClock(users, t[1], now);
    Decided(cfg, users, t, 4, now, now);
    VerdictOnOneClock(users, t[4], now);
    assert Truncated(cfg.RefreshExpiry(0.0)) as real == cfg.RefreshExpiry(0.0);
  }

  // ---------------------------------------------------------------- four runs

  /** A refresh and a logout have both read the family's only token. */
  function LogoutRace(cfg: Config, user: UserAuthRecord, secret: string): seq<Event> {
    LoginRun(user, secret)
    + [Start(0, Refresh(FirstToken(cfg, user)), 0.0, 0.0), Start(1, Logout(FirstToken(cfg, user)), 0.0, 0.0)]
  }

  lemma FirstTokenIsRead(cfg: Config, user: UserAuthRecord)
    requires cfg.refreshDays >= 0
    ensures ReadToken(cfg, FirstToken(cfg, user), 0.0) == TokenId(1)
    ensures PlanLogout(cfg, FirstToken(cfg, user), 0.0) == Revoke(1)
  {
    ReadGenuine(cfg, FirstRow(cfg, user), 0.0);
    TruncatedNear(cfg.RefreshExpiry(0.0));
  }

  lemma LogoutRaces(cfg: Config, user: UserAuthRecord, secret: string)
    requires cfg.refreshDays >= 0 && !user.disabled && user.passwordHash == Digest(secret)
    ensures var users: Users := map[user.id := user];
            var row := FirstRow(cfg, user);
            After(cfg, Empty(users), LogoutRace(cfg, user, secret))
            == State(users, map[1 := row], map[0 := Rotate(row, user), 1 := Revoke(1)])
  {
    var users: Users := map[user.id := user];
    var token, t := FirstToken(cfg, user), map[1 := FirstRow(cfg, user)];
    FirstLogin(cfg, user, secret);
    FirstTokenIsUsable(cfg, user, 0.0);
    FirstTokenIsRead(cfg, user);
    TwoStarts(cfg, users, t, Refresh(token), Logout(token), 0.0);
    AfterSplits(cfg, Empty(users), LoginRun(user, secret),
                [Start(0, Refresh(token), 0.0, 0.0), Start(1, Logout(token), 0.0, 0.0)]);
  }

  /** A logout is overtaken: a refresh reads its row, a logout with the same token is answered and has
      revoked the family's only row, and then the refresh is answered with new tokens. */
  lemma LogoutCanBeOvertaken(cfg: Config, user: UserAuthRecord, secret: string)
    requires cfg.refreshDays >= 0 && !user.disabled && user.passwordHash == Digest(secret)
    ensures var s := After(cfg, Empty(map[user.id := user]), LogoutRace(cfg, user, secret));
            var (s1, loggedOut) := Next(cfg, s, Finish(1, Ids(4, 5, 6), 0.0, 0.0));
            var (s2, refreshed) := Next(cfg, s1, Finish(0, Ids(7, 8, 9), 0.0, 0.0));
            && loggedOut == Some(LoggedOut) && HoldsHead(s1, 2)
            && Serial.AllRevoked(s1.tokens, 2) && Serial.FamilyIds(s1.tokens, 2) == {1}
            && refreshed.Some? && refreshed.value.Issued? && !Serial.AllRevoked(s2.tokens, 2)
  {
    LogoutRaces(cfg, user, secret);
    var row := FirstRow(cfg, user);
    var s := State(map[user.id := user], map[1 := row], map[0 := Rotate(row, user), 1 := Revoke(1)]);
    var l := Reached(cfg, s.users, LogoutRace(cfg, user, secret));
    ClosingIsOvertaken(cfg, s, l, 2, Finish(1, Ids(4, 5, 6), 0.0, 0.0), Finish(0, Ids(7, 8, 9), 0.0, 0.0));
  }

  /** A refresh has read the family's new token, another its old one. */
  function ReuseRace(cfg: Config, user: UserAuthRecord, secret: string): seq<Event> {
    var at := cfg.RefreshExpiry(0.0);
    RefreshRun(cfg, user, secret)
    + [Start(0, Refresh(SecondToken(cfg, user)), at, at), Start(1, Refresh(FirstToken(cfg, user)), at, at)]
  }

  lemma ReuseRaces(cfg: Config, user: UserAuthRecord, secret: string)
    requires cfg.refreshDays >= 1 && !user.disabled && user.passwordHash == Digest(secret)
    ensures var users: Users := map[user.id := user];
            var t := TwoRows(cfg, user);
            After(cfg, Empty(users), ReuseRace(cfg, user, secret))
            == State(users, t, map[0 := Rotate(t[4], user), 1 := Reuse(2)])
  {
    var users: Users := map[user.id := user];
    var at := cfg.RefreshExpiry(0.0);
    var first, second := FirstToken(cfg, user), SecondToken(cfg, user);
    FirstRefresh(cfg, user, secret);
    TwoTokens(cfg, user, at);
    TwoStarts(cfg, users, TwoRows(cfg, user), Refresh(second), Refresh(first), at);
    AfterSplits(cfg, Empty(users), RefreshRun(cfg, user, secret),
                [Start(0, Refresh(second), at, at), Start(1, Refresh(first), at, at)]);
  }

  lemma TwoRowsRace(cfg: Config, user: UserAuthRecord)
    ensures var t := TwoRows(cfg, user);
            && RotatesHead(t, 2, Rotate(t[4], user)) && Closes(t, 2, Reuse(2)) && Serial.FamilyIds(t, 2) == {1, 4}
            && t.Keys == {1, 4}
  {
  }

  /** A reuse report is overtaken: while a refresh with the new token is in flight, the old token is
      presented, answered as reused, and the whole family revoked; then the refresh in flight is
      answered with new tokens and the family is open again. */
  lemma ReuseCanBeOvertaken(cfg: Config, user: UserAuthRecord, secret: string)
    requires cfg.refreshDays >= 1 && !user.disabled && user.passwordHash == Digest(secret)
    ensures var at := cfg.RefreshExpiry(0.0);
            var s := After(cfg, Empty(map[user.id := user]), ReuseRace(cfg, user, secret));
            var (s1, reused) := Next(cfg, s, Finish(1, Ids(7, 8, 9), at, at));
            var (s2, refreshed) := Next(cfg, s1, Finish(0, Ids(10, 11, 12), at, at));
            && reused == Some(ReuseDetected) && HoldsHead(s1, 2)
            && Serial.AllRevoked(s1.tokens, 2) && Serial.FamilyIds(s1.tokens, 2) == {1, 4}
            && refreshed.Some? && refreshed.value.Issued? && !Serial.AllRevoked(s2.tokens, 2)
  {
    ReuseRaces(cfg, user, secret);
    TwoRowsRace(cfg, user);
    var t := TwoRows(cfg, user);
    var s := State(map[user.id := user], t, map[0 := Rotate(t[4], user), 1 := Reuse(2)]);
    var l := Reached(cfg, s.users, ReuseRace(cfg, user, secret));
    var at := cfg.RefreshExpiry(0.0);
    ClosingIsOvertaken(cfg, s, l, 2, Finish(1, Ids(7, 8, 9), at, at), Finish(0, Ids(10, 11, 12), at, at));
  }

  /** An old token is too old to be noticed: presented once its own expiry and the leeway are over, it is
      merely invalid, nothing is revoked, and the new token can still be rotated at that moment. */
  lemma ExpiredReuseIsMissed(cfg: Config, user: UserAuthRecord, secret: string)
    requires cfg.refreshDays >= 1 && !user.disabled && user.passwordHash == Digest(secret)
    ensures var users: Users := map[user.id := user];
            var late := cfg.RefreshExpiry(0.0) + 30.0;
            var s := After(cfg, Empty(users), RefreshRun(cfg, user, secret));
            var (s1, _) := Next(cfg, s, Start(0, Refresh(FirstToken(cfg, user)), late, late));
            var (s2, answer) := Next(cfg, s1, Finish(0, Ids(7, 8, 9), late, late));
            && 1 in s.tokens && s.tokens[1].replacedBy.Some? && s.tokens[1].hash.preimage == FirstToken(cfg, user)
            && answer == Some(InvalidCredentials) && s2.tokens == s.tokens && !Serial.AllRevoked(s2.tokens, 2)
            && PlanRefresh(cfg, s2.users, s2.tokens, SecondToken(cfg, user), late, late).Rotate?
  {
    FirstRefresh(cfg, user, secret);
    TwoTokens(cfg, user, cfg.RefreshExpiry(0.0) + 30.0);
    var t := TwoRows(cfg, user);
    assert t[4].familyId == 2 && t[4].revokedAt.None?;
  }

  /** Two refreshes have read the family's only token. */
  function RefreshRace(cfg: Config, user: UserAuthRecord, secret: string): seq<Event> {
    var request := Refresh(FirstToken(cfg, user));
    LoginRun(user, secret) + [Start(0, request, 0.0, 0.0), Start(1, request, 0.0, 0.0)]
  }

  lemma RefreshRaces(cfg: Config, user: UserAuthRecord, secret: string)
    requires cfg.refreshDays >= 0 && !user.disabled && user.passwordHash == Digest(secret)
    ensures var users: Users := map[user.id := user];
            var row := FirstRow(cfg, user);
            After(cfg, Empty(users), RefreshRace(cfg, user, secret))
            == State(users, map[1 := row], map[0 := Rotate(row, user), 1 := Rotate(row, user)])
  {
    var users: Users := map[user.id := user];
    var request, t := Refresh(FirstToken(cfg, user)), map[1 := FirstRow(cfg, user)];
    FirstLogin(cfg, user, secret);
    FirstTokenIsUsable(cfg, user, 0.0);
    TwoStarts(cfg, users, t, request, request, 0.0);
    AfterSplits(cfg, Empty(users), LoginRun(user, secret), [Start(0, request, 0.0, 0.0), Start(1, request, 0.0, 0.0)]);
  }

  /** Two uses race: both read token 1 while it is unreplaced, one commits, and the other, whose token
      still verifies, is an integrity error; nothing is revoked and the family stays open. */
  lemma RacingReuseIsMissed(cfg: Config, user: UserAuthRecord, secret: string)
    requires cfg.refreshDays >= 0 && !user.disabled && user.passwordHash == Digest(secret)
    ensures var s := After(cfg, Empty(map[user.id := user]), RefreshRace(cfg, user, secret));
            var (s1, winner) := Next(cfg, s, Finish(0, Ids(4, 5, 6), 0.0, 0.0));
            var (s2, loser) := Next(cfg, s1, Finish(1, Ids(7, 8, 9), 0.0, 0.0));
            && winner.Some? && winner.value.Issued? && 1 in s1.tokens && s1.tokens[1].replacedBy.Some?
            && ReadToken(cfg, FirstToken(cfg, user), 0.0) == TokenId(1)
            && loser == Some(IntegrityError) && s2.tokens == s1.tokens && !Serial.AllRevoked(s2.tokens, 2)
  {
    RefreshRaces(cfg, user, secret);
    FirstTokenIsRead(cfg, user);
    var row := FirstRow(cfg, user);
    var s := State(map[user.id := user], map[1 := row], map[0 := Rotate(row, user), 1 := Rotate(row, user)]);
    var l := Reached(cfg, s.users, RefreshRace(cfg, user, secret));
    RaceIsLost(cfg, s, l, 2, Finish(0, Ids(4, 5, 6), 0.0, 0.0), Finish(1, Ids(7, 8, 9), 0.0, 0.0));
  }
}
