/** What becomes of every genuine refresh token, in every reachable state of the interleaved server
    (and so of the serial one), when it is presented. */
module Presentation {
  import opened Common
  import opened Jwt
  import opened Persistence
  import opened Rotation
  import opened Ledgers
  import opened Interleaved
  import Serial

  /** Every row stores the digest of the one token issued under its id, and that token's expiry. */
  ghost predicate IssuedRow(cfg: Config, row: Row) {
    && row.hash == Digest(cfg.RefreshToken(row.userId, row.id, row.issuedAt, row.id))
    && row.expiresAt == cfg.RefreshExpiry(row.issuedAt)
  }

  ghost predicate IssuedRows(cfg: Config, t: Table) {
    forall i | i in t :: t[i].id == i && IssuedRow(cfg, t[i])
  }

  lemma IssueKeepsIssued(cfg: Config, users: Users, t: Table, working: Table, user: UserAuthRecord, f: Id,
      ids: Ids, issueAt: real)
    requires IssuedRows(cfg, t) && IssuedRows(cfg, working)
    ensures IssuedRows(cfg, IssueAndCommit(cfg, users, t, working, user, f, ids, issueAt).0)
  {
  }

  lemma ApplyKeepsIssued(cfg: Config, users: Users, t: Table, plan: Plan, ids: Ids, writeAt: real, issueAt: real)
    requires IssuedRows(cfg, t) && (plan.Rotate? ==> plan.row.id in t)
    ensures IssuedRows(cfg, Apply(cfg, users, t, plan, ids, writeAt, issueAt).0)
  {
    match plan
    case Open(user) => IssueKeepsIssued(cfg, users, t, t, user, ids.familyId, ids, issueAt);
    case Rotate(row, user) =>
      IssueKeepsIssued(cfg, users, t, Marked(t, row.id, ids.tokenId, writeAt), user, row.familyId, ids, issueAt);
    case _ =>
  }

  lemma {:induction false} AfterKeepsIssued(cfg: Config, s: State, l: Ledger, events: seq<Event>)
    requires Good(s, l) && IssuedRows(cfg, s.tokens)
    ensures IssuedRows(cfg, After(cfg, s, events).tokens)
    decreases |events|
  {
    if events != [] {
      var e := events[0];
      if e.Finish? && e.req in s.inflight {
        assert PlanOk(s.users, s.tokens, s.inflight[e.req]);
        ApplyKeepsIssued(cfg, s.users, s.tokens, s.inflight[e.req], e.ids, e.writeAt, e.issueAt);
      }
      NextGood(cfg, s, l, e);
      AfterKeepsIssued(cfg, Next(cfg, s, e).0, NextLedger(cfg, s, l, e), events[1..]);
    }
  }

  /** The signer accepts the genuine token of a row at this reading of its clock. */
  ghost predicate StillVerifies(row: Row, verifyAt: real) {
    Truncated(row.issuedAt) as real <= verifyAt + 30.0 && verifyAt - 30.0 < Truncated(row.expiresAt) as real
  }

  /** The verdict on the genuine token of a row, as a rule over the row and the two clocks. */
  ghost function Verdict(users: Users, row: Row, verifyAt: real, checkAt: real): Plan {
    if !StillVerifies(row, verifyAt) then Reject(InvalidCredentials)
    else if row.replacedBy.Some? then Reuse(row.familyId)
    else if row.revokedAt.None? && checkAt <= row.expiresAt && row.userId in users && !users[row.userId].disabled then
      Rotate(row, users[row.userId])
    else Reject(InvalidCredentials)
  }

  /** On one clock that does not go back before the issue, a replaced token is reported as reused exactly
      while its own expiry and the leeway last, and an unreplaced one is rotated exactly when it is
      unrevoked, `now <= expires_at` and its user is enabled. */
  lemma VerdictOnOneClock(users: Users, row: Row, now: real)
    requires row.issuedAt <= now
    ensures var enabled := row.userId in users && !users[row.userId].disabled;
            Verdict(users, row, now, now)
            == if row.replacedBy.Some? && now - 30.0 < Truncated(row.expiresAt) as real then Reuse(row.familyId)
               else if row.replacedBy.None? && row.revokedAt.None? && now <= row.expiresAt && enabled then
                 Rotate(row, users[row.userId])
               else Reject(InvalidCredentials)
  {
    TruncatedNear(row.issuedAt);
    TruncatedNear(row.expiresAt);
  }

  lemma RowIsIssued(cfg: Config, users: Users, events: seq<Event>, i: Id)
    requires ValidUsers(users) && i in After(cfg, Empty(users), events).tokens
    ensures var row := After(cfg, Empty(users), events).tokens[i]; row.id == i && IssuedRow(cfg, row)
  {
    var s0 := Empty(users);
    assert Good(s0, map[]) && IssuedRows(cfg, s0.tokens);
    AfterKeepsIssued(cfg, s0, map[], events);
  }

  /** In every reachable state, the token whose digest a row stores names that row, its user and its
      times: nothing else is needed to find the row again. */
  lemma TokensNameTheirRows(cfg: Config, users: Users, events: seq<Event>, i: Id)
    requires ValidUsers(users) && i in After(cfg, Empty(users), events).tokens
    ensures var row := After(cfg, Empty(users), events).tokens[i];
            var p := row.hash.preimage.payload;
            && p == map[Sub := Uuid(row.userId), Jti := Uuid(i), Typ := Str("refresh"),
                        Exp := Num(Truncated(row.expiresAt)), Iat := Num(Truncated(row.issuedAt)),
                        Iss := Str(cfg.signer.issuer), Aud := Str(cfg.signer.audience)]
            && row.hash.preimage.key == cfg.signer.key
            && row.expiresAt == row.issuedAt + (86400 * cfg.refreshDays) as real
  {
    RowIsIssued(cfg, users, events, i);
  }

  /** In every reachable state, presenting the genuine token of any committed row is decided by that
      rule, whatever the signer's clock and the service's clock show. */
  lemma EveryTokenIsDecided(cfg: Config, users: Users, events: seq<Event>, i: Id, verifyAt: real, checkAt: real)
    requires ValidUsers(users) && i in After(cfg, Empty(users), events).tokens
    ensures var s := After(cfg, Empty(users), events);
            PlanRefresh(cfg, s.users, s.tokens, s.tokens[i].hash.preimage, verifyAt, checkAt)
            == Verdict(s.users, s.tokens[i], verifyAt, checkAt)
  {
    RowIsIssued(cfg, users, events, i);
    var l := Reached(cfg, users, events);
    var s := After(cfg, Empty(users), events);
    ConstraintsHold(s.tokens, l);
    var k := Located(s.tokens, l, i);
    assert s.tokens[i].replacedBy.Some? ==> s.tokens[i].revokedAt.Some?;
    Decided(cfg, s.users, s.tokens, i, verifyAt, checkAt);
  }

  lemma Decided(cfg: Config, users: Users, t: Table, i: Id, verifyAt: real, checkAt: real)
    requires i in t && t[i].id == i && IssuedRow(cfg, t[i])
    requires t[i].replacedBy.Some? ==> t[i].revokedAt.Some?
    ensures PlanRefresh(cfg, users, t, t[i].hash.preimage, verifyAt, checkAt) == Verdict(users, t[i], verifyAt, checkAt)
  {
    ReadGenuine(cfg, t[i], verifyAt);
  }

  /** A genuine token is read as its id exactly while it verifies. */
  lemma ReadGenuine(cfg: Config, row: Row, verifyAt: real)
    requires IssuedRow(cfg, row)
    ensures ReadToken(cfg, row.hash.preimage, verifyAt)
         == if StillVerifies(row, verifyAt) then TokenId(row.id) else NotVerified
  {
    var token, claims := row.hash.preimage, RefreshClaims(row.userId, row.id, row.issuedAt, row.expiresAt);
    IssuedVerifies(cfg, claims, row.issuedAt, row.expiresAt, row.id, verifyAt);
    assert token.payload[Typ] == Str("refresh") && token.payload[Jti] == Uuid(row.id);
  }

  // ---------------------------------------------------------------- how a refresh ends

  /** Nothing in these events ends request `req`. */
  ghost predicate LeavesAlone(events: seq<Event>, req: nat) {
    forall e | e in events :: !(e.Finish? && e.req == req) && !(e.Abandon? && e.req == req)
  }

  lemma {:induction false} StaysInFlight(cfg: Config, s: State, events: seq<Event>, req: nat)
    requires req in s.inflight && LeavesAlone(events, req)
    ensures req in After(cfg, s, events).inflight && After(cfg, s, events).inflight[req] == s.inflight[req]
    decreases |events|
  {
    if events != [] {
      assert events[0] in events;
      StaysInFlight(cfg, Next(cfg, s, events[0]).0, events[1..], req);
    }
  }

  /** The state in which a request is about to write: it was started, and then `between` happened. */
  ghost function BeforeWrite(cfg: Config, s: State, req: nat, request: Request, verifyAt: real, checkAt: real,
      between: seq<Event>): State {
    After(cfg, Next(cfg, s, Start(req, request, verifyAt, checkAt)).0, between)
  }

  /** How every presentation of a genuine token that is not abandoned ends, whatever the clocks show and
      whatever happens between its reads and its writes. A token that was replaced at the start is
      answered as reuse, and the family revoked, exactly if it still verified. A token that is replaced
      only in between is not: its refresh is an integrity error that changes nothing, and neither
      does any rejection. */
  lemma EveryRefreshEnds(cfg: Config, users: Users, before: seq<Event>, i: Id, verifyAt: real, checkAt: real,
      between: seq<Event>, e: Event)
    requires ValidUsers(users) && e.Finish? && LeavesAlone(between, e.req)
    requires var s := After(cfg, Empty(users), before); i in s.tokens && e.req !in s.inflight
    ensures var s := After(cfg, Empty(users), before);
            var row := s.tokens[i];
            var verdict := Verdict(s.users, row, verifyAt, checkAt);
            var s2 := BeforeWrite(cfg, s, e.req, Refresh(row.hash.preimage), verifyAt, checkAt, between);
            var (s3, answer) := Next(cfg, s2, e);
            && i in s2.tokens && answer.Some?
            && (answer.value.ReuseDetected? <==> row.replacedBy.Some? && StillVerifies(row, verifyAt))
            && (answer.value.ReuseDetected? ==> FamilyStamped(s2.tokens, s3.tokens, row.familyId, e.writeAt))
            && (answer.value.IntegrityError? <==>
                verdict.Rotate? && (s2.tokens[i].replacedBy.Some? || e.ids.tokenId in s2.tokens))
            && (answer.value.Issued? <==>
                verdict.Rotate? && s2.tokens[i].replacedBy.None? && e.ids.tokenId !in s2.tokens)
            && (answer.value.Issued? ==>
                Exchanged(cfg, s2.tokens, s3.tokens, i, e.ids, e.writeAt, e.issueAt, answer.value.grant))
            && (answer.value.InvalidCredentials? <==> verdict.Reject?)
            && (answer.value.IntegrityError? || answer.value.InvalidCredentials? ==> s3.tokens == s2.tokens)
  {
    var s := After(cfg, Empty(users), before);
    var row := s.tokens[i];
    EveryTokenIsDecided(cfg, users, before, i, verifyAt, checkAt);
    var verdict := Verdict(s.users, row, verifyAt, checkAt);
    var s2, l2 := Carried(cfg, users, before, e.req, Refresh(row.hash.preimage), verifyAt, checkAt, between);
    RowIsIssued(cfg, users, before, i);
    VerdictApplied(cfg, verdict, s2, l2, e);
  }

  /** A request that is left alone still has the plan it was started with, in a state with a ledger. */
  lemma Carried(cfg: Config, users: Users, before: seq<Event>, req: nat, request: Request, verifyAt: real,
      checkAt: real, between: seq<Event>) returns (s2: State, l2: Ledger)
    requires ValidUsers(users) && LeavesAlone(between, req) && req !in After(cfg, Empty(users), before).inflight
    ensures var s := After(cfg, Empty(users), before);
            && s2 == BeforeWrite(cfg, s, req, request, verifyAt, checkAt, between) && Good(s2, l2)
            && req in s2.inflight
            && s2.inflight[req] == PlanFor(cfg, s.users, s.tokens, request, verifyAt, checkAt)
            && s.tokens.Keys <= s2.tokens.Keys
            && s.users.Keys <= s2.users.Keys && ValidUsers(s.users)
  {
    var s := After(cfg, Empty(users), before);
    var l := Reached(cfg, users, before);
    NextGood(cfg, s, l, Start(req, request, verifyAt, checkAt));
    var s1 := Next(cfg, s, Start(req, request, verifyAt, checkAt)).0;
    AfterGood(cfg, s1, l, between);
    StaysInFlight(cfg, s1, between, req);
    UsersStay(cfg, s1, between);
    s2, l2 := After(cfg, s1, between), LedgerAfter(cfg, s1, l, between);
  }

  lemma {:induction false} UsersStay(cfg: Config, s: State, events: seq<Event>)
    ensures s.users.Keys <= After(cfg, s, events).users.Keys
    decreases |events|
  {
    if events != [] { UsersStay(cfg, Next(cfg, s, events[0]).0, events[1..]); }
  }

  lemma VerdictApplied(cfg: Config, plan: Plan, s: State, l: Ledger, e: Event)
    requires Good(s, l) && e.Finish? && e.req in s.inflight && s.inflight[e.req] == plan
    requires plan == Reject(InvalidCredentials) || plan.Reuse? || plan.Rotate?
    requires plan.Rotate? ==> plan.row.id in s.tokens
    ensures var (s', answer) := Next(cfg, s, e);
            && answer.Some?
            && match plan
               case Reuse(f) => answer.value == ReuseDetected && FamilyStamped(s.tokens, s'.tokens, f, e.writeAt)
               case Rotate(row, _) =>
                 if s.tokens[row.id].replacedBy.None? && e.ids.tokenId !in s.tokens then
                   && answer.value.Issued?
                   && Exchanged(cfg, s.tokens, s'.tokens, row.id, e.ids, e.writeAt, e.issueAt, answer.value.grant)
                 else answer.value == IntegrityError && s'.tokens == s.tokens
               case _ => answer.value == InvalidCredentials && s'.tokens == s.tokens
  {
    match plan
    case Reuse(f) => ReuseRefines(cfg, s.users, s.tokens, l, f, e.ids, e.writeAt, e.issueAt);
    case Rotate(_, _) => RotationApplied(cfg, plan, s, l, e);
    case Reject(_) =>
  }

  lemma RotationApplied(cfg: Config, plan: Plan, s: State, l: Ledger, e: Event)
    requires Good(s, l) && e.Finish? && e.req in s.inflight && s.inflight[e.req] == plan && plan.Rotate?
    requires plan.row.id in s.tokens
    ensures var (s', answer) := Next(cfg, s, e);
            && answer.Some?
            && if s.tokens[plan.row.id].replacedBy.None? && e.ids.tokenId !in s.tokens then
                 && answer.value.Issued?
                 && Exchanged(cfg, s.tokens, s'.tokens, plan.row.id, e.ids, e.writeAt, e.issueAt, answer.value.grant)
               else answer.value == IntegrityError && s'.tokens == s.tokens
  {
    assert PlanOk(s.users, s.tokens, plan);
    RotateRefines(cfg, s.users, s.tokens, l, plan.row, plan.user, e.ids, e.writeAt, e.issueAt);
    if s.tokens[plan.row.id].replacedBy.None? && e.ids.tokenId !in s.tokens {
      RotationWrites(cfg, s.users, s.tokens, plan.row, plan.user, e.ids, e.writeAt, e.issueAt);
    } else {
      ErrorRollsBack(cfg, s.users, s.tokens, plan, e.ids, e.writeAt, e.issueAt);
    }
  }

  // ---------------------------------------------------------------- how a login and a logout end

  ghost predicate MayLogIn(users: Users, user: UserAuthRecord, username: string, password: string) {
    user in users.Values && user.email == username && !user.disabled && user.passwordHash == Digest(password)
  }

  /** How every login ends: an enabled user with that email and that password is given the first row of a
      new family, unless a drawn id is taken, and nobody else is given anything. */
  lemma EveryLoginEnds(cfg: Config, users: Users, before: seq<Event>, username: string, password: string,
      verifyAt: real, checkAt: real, between: seq<Event>, e: Event)
    requires ValidUsers(users) && e.Finish? && LeavesAlone(between, e.req)
    requires e.req !in After(cfg, Empty(users), before).inflight
    ensures var s := After(cfg, Empty(users), before);
            var s2 := BeforeWrite(cfg, s, e.req, Login(username, password), verifyAt, checkAt, between);
            var (s3, answer) := Next(cfg, s2, e);
            var known := exists user :: MayLogIn(s.users, user, username, password);
            var taken := e.ids.tokenId in s2.tokens || Serial.FamilyIds(s2.tokens, e.ids.familyId) != {};
            && answer.Some?
            && (answer.value.InvalidCredentials? <==> !known)
            && (answer.value.IntegrityError? <==> known && taken)
            && (answer.value.Issued? <==> known && !taken)
            && (answer.value.Issued? ==>
                forall user | MayLogIn(s.users, user, username, password) ::
                  Opened(cfg, s2.tokens, s3.tokens, user.id, e.ids, e.issueAt, answer.value.grant))
            && (!answer.value.Issued? ==> s3.tokens == s2.tokens)
  {
    var s := After(cfg, Empty(users), before);
    var s2, l2 := Carried(cfg, users, before, e.req, Login(username, password), verifyAt, checkAt, between);
    var plan := PlanLogin(s.users, username, password);
    forall user ensures MayLogIn(s.users, user, username, password) <==> plan == Open(user) {
      LoginOpensIff(s.users, username, password, user);
    }
    if plan.Open? { LoginApplied(cfg, plan.user, s2, l2, e); }
    else { LoginOpensIff(s.users, username, password, UserAuthRecord(0, "", Digest(""), None, true)); }
  }

  lemma LoginApplied(cfg: Config, user: UserAuthRecord, s: State, l: Ledger, e: Event)
    requires Good(s, l) && e.Finish? && e.req in s.inflight && s.inflight[e.req] == Open(user)
    ensures var (s', answer) := Next(cfg, s, e);
            && answer.Some?
            && if e.ids.tokenId !in s.tokens && Serial.FamilyIds(s.tokens, e.ids.familyId) == {} then
                 && answer.value.Issued?
                 && Opened(cfg, s.tokens, s'.tokens, user.id, e.ids, e.issueAt, answer.value.grant)
               else answer.value == IntegrityError && s'.tokens == s.tokens
  {
    assert PlanOk(s.users, s.tokens, Open(user));
    OpenRefines(cfg, s.users, s.tokens, l, user, e.ids, e.writeAt, e.issueAt);
    FamilyKnown(s.tokens, l, e.ids.familyId);
    if e.ids.tokenId !in s.tokens && e.ids.familyId !in l {
      LoginWrites(cfg, s.users, s.tokens, user, e.ids, e.writeAt, e.issueAt);
    } else {
      ErrorRollsBack(cfg, s.users, s.tokens, Open(user), e.ids, e.writeAt, e.issueAt);
    }
  }

  /** A family is in the ledger exactly if it has a row. */
  lemma FamilyKnown(t: Table, l: Ledger, f: Id)
    requires Refines(t, l)
    ensures f in l <==> Serial.FamilyIds(t, f) != {}
  {
    if f in l {
      HeadOf(t, l, f);
      assert Last(l[f]).id in Serial.FamilyIds(t, f);
    }
    if Serial.FamilyIds(t, f) != {} {
      var i :| i in Serial.FamilyIds(t, f);
      var k := Located(t, l, i);
    }
  }

  /** How every logout with a genuine token ends: it is answered, and if the token verified then the time
      of the write is put into its row, and nothing else changes. */
  lemma EveryLogoutEnds(cfg: Config, users: Users, before: seq<Event>, i: Id, verifyAt: real, checkAt: real,
      between: seq<Event>, e: Event)
    requires ValidUsers(users) && e.Finish? && LeavesAlone(between, e.req)
    requires var s := After(cfg, Empty(users), before); i in s.tokens && e.req !in s.inflight
    ensures var s := After(cfg, Empty(users), before);
            var row := s.tokens[i];
            var s2 := BeforeWrite(cfg, s, e.req, Logout(row.hash.preimage), verifyAt, checkAt, between);
            var (s3, answer) := Next(cfg, s2, e);
            && i in s2.tokens && answer == Some(LoggedOut)
            && (!StillVerifies(row, verifyAt) ==> s3.tokens == s2.tokens)
            && (StillVerifies(row, verifyAt) ==>
                s3.tokens == s2.tokens[i := s2.tokens[i].(revokedAt := Some(e.writeAt))])
  {
    var s := After(cfg, Empty(users), before);
    var row := s.tokens[i];
    var s2, l2 := Carried(cfg, users, before, e.req, Logout(row.hash.preimage), verifyAt, checkAt, between);
    RowIsIssued(cfg, users, before, i);
    ReadGenuine(cfg, row, verifyAt);
    if StillVerifies(row, verifyAt) {
      RevokeRefines(cfg, s2.users, s2.tokens, l2, i, e.ids, e.writeAt, e.issueAt);
    }
  }

  // ---------------------------------------------------------------- what is handed out works

  /** A usable row for the refresh token that was handed out. */
  ghost predicate Holds(row: Row, user: UserAuthRecord, grant: Grant, issueAt: real) {
    && row.revokedAt.None? && row.replacedBy.None? && row.userId == user.id && row.issuedAt == issueAt
    && row.hash.preimage == grant.refresh && row.expiresAt == grant.refreshExpiresAt
  }

  /** Whatever a login or a refresh hands out works: the refresh token is the genuine token of a new
      row that is the family's usable one; presented from its issue until it expires, and no later, it
      is rotated, if its user is still enabled then; and the access token is accepted as its user
      exactly within its window. */
  lemma GrantsWork(cfg: Config, users: Users, events: seq<Event>, req: nat, ids: Ids, writeAt: real,
      issueAt: real, now: real, later: Users)
    requires ValidUsers(users)
    requires var s := After(cfg, Empty(users), events);
             req in s.inflight && (s.inflight[req].Open? || s.inflight[req].Rotate?)
             && Next(cfg, s, Finish(req, ids, writeAt, issueAt)).1.value.Issued?
    ensures var s := After(cfg, Empty(users), events);
            var (s', answer) := Next(cfg, s, Finish(req, ids, writeAt, issueAt));
            var user, grant := s.inflight[req].user, answer.value.grant;
            ids.tokenId !in s.tokens && ids.tokenId in s'.tokens && Holds(s'.tokens[ids.tokenId], user, grant, issueAt)
    ensures var s := After(cfg, Empty(users), events);
            var user, grant := s.inflight[req].user, Next(cfg, s, Finish(req, ids, writeAt, issueAt)).1.value.grant;
            var seen := GetCurrentUser(cfg.signer, Some(grant.access), now);
            && (seen.Success? <==>
                && !user.disabled && user.email != "" && Truncated(issueAt) as real <= now + 30.0
                && now - 30.0 < Truncated(grant.accessExpiresAt) as real)
            && (seen.Success? ==> seen.value == AuthenticatedUser(user.id, user.email, user.tenantId, {"user"}))
    ensures var s := After(cfg, Empty(users), events);
            var (s', answer) := Next(cfg, s, Finish(req, ids, writeAt, issueAt));
            var id, grant := s.inflight[req].user.id, answer.value.grant;
            issueAt <= now ==>
              PlanRefresh(cfg, later, s'.tokens, grant.refresh, now, now)
              == if now <= grant.refreshExpiresAt && id in later && !later[id].disabled
                 then Rotate(s'.tokens[ids.tokenId], later[id]) else Reject(InvalidCredentials)
  {
    var l := Reached(cfg, users, events);
    var s := After(cfg, Empty(users), events);
    var plan := s.inflight[req];
    assert PlanOk(s.users, s.tokens, plan);
    var t' := Apply(cfg, s.users, s.tokens, plan, ids, writeAt, issueAt).0;
    if plan.Open? { OpenRefines(cfg, s.users, s.tokens, l, plan.user, ids, writeAt, issueAt); }
    if plan.Rotate? { RotateRefines(cfg, s.users, s.tokens, l, plan.row, plan.user, ids, writeAt, issueAt); }
    GrantStored(cfg, s.users, s.tokens, plan, ids, writeAt, issueAt);
    ClaimsRoundTrip(cfg, plan.user, issueAt, ids.accessJti, now);
    if issueAt <= now {
      Decided(cfg, later, t', ids.tokenId, now, now);
      VerdictOnOneClock(later, t'[ids.tokenId], now);
    }
  }

  lemma GrantStored(cfg: Config, users: Users, t: Table, plan: Plan, ids: Ids, writeAt: real, issueAt: real)
    requires plan.Open? || plan.Rotate?
    ensures var (t', answer) := Apply(cfg, users, t, plan, ids, writeAt, issueAt);
            answer.Issued? ==>
              && ids.tokenId in t' && answer.grant == GrantFor(cfg, plan.user, ids, issueAt)
              && exists f :: t'[ids.tokenId] == NewRow(cfg, plan.user.id, f, ids.tokenId, issueAt)
  {
  }
}
