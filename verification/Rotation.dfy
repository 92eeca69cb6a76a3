/** Login, refresh and logout. Each request is split where the code first touches the table to
    change it: `PlanFor` is everything read and checked before, `Apply` the statements and the
    commit after. A serial server applies a plan at once; an interleaved one applies it later, to
    a table other requests may have changed. */
module Rotation {
  import opened Common
  import opened Jwt
  import opened Persistence

  datatype Request = Login(username: string, password: string) | Refresh(token: Token) | Logout(token: Token)

  /** The UUIDs one request draws. */
  datatype Ids = Ids(tokenId: Id, familyId: Id, accessJti: Id)

  /** The clock readings of one request, in the order it takes them. */
  datatype Instants = Instants(verify: real, check: real, write: real, issue: real)

  datatype Grant = Grant(access: Token, accessExpiresAt: real, refresh: Token, refreshExpiresAt: real)

  datatype Answer = Issued(grant: Grant) | InvalidCredentials | ReuseDetected | LoggedOut | IntegrityError | ServerError

  datatype Plan =
    | Reject(answer: Answer)
    | Open(user: UserAuthRecord)
    | Rotate(row: Row, user: UserAuthRecord)
    | Reuse(familyId: Id)
    | Revoke(tokenId: Id)

  ghost predicate ValidUsers(users: Users) {
    && (forall i | i in users :: users[i].id == i)
    && (forall i, j | i in users && j in users && users[i].email == users[j].email :: i == j)
  }

  ghost function UserByEmail(users: Users, email: string): Option<UserAuthRecord> {
    if i :| i in users && users[i].email == email then Some(users[i]) else None
  }

  // ---------------------------------------------------------------- reading

  datatype Claimed = TokenId(id: Id) | NotVerified | WrongType | NoJti | BadUuid

  /** What refresh and logout make of a presented token before they look at the table. */
  function ReadToken(cfg: Config, token: Token, now: real): Claimed {
    match cfg.signer.Verify(token, now)
    case Failure(_) => NotVerified
    case Success(p) =>
      if !(Typ in p && p[Typ] == Str("refresh")) then WrongType
      else if !Truthy(p, Jti) then NoJti
      else if !p[Jti].Uuid? then BadUuid
      else TokenId(p[Jti].id)
  }

  ghost function PlanLogin(users: Users, username: string, password: string): Plan {
    match UserByEmail(users, username)
    case None => Reject(InvalidCredentials)
    case Some(user) =>
      if user.disabled || !Verifies(password, user.passwordHash) then Reject(InvalidCredentials) else Open(user)
  }

  function PlanRefresh(cfg: Config, users: Users, t: Table, token: Token, verifyAt: real, checkAt: real): Plan {
    match ReadToken(cfg, token, verifyAt)
    case BadUuid => Reject(ServerError)
    case TokenId(id) =>
      if id !in t then Reject(InvalidCredentials)
      else
        var row := t[id];
        if !Verifies(token, row.hash) then Reject(InvalidCredentials)
        else if row.revokedAt.Some? && row.replacedBy.Some? then Reuse(row.familyId)
        else if row.revokedAt.Some? then Reject(InvalidCredentials)
        else if row.expiresAt < checkAt then Reject(InvalidCredentials)
        else if row.userId !in users || users[row.userId].disabled then Reject(InvalidCredentials)
        else Rotate(row, users[row.userId])
    case _ => Reject(InvalidCredentials)
  }

  function PlanLogout(cfg: Config, token: Token, verifyAt: real): Plan {
    match ReadToken(cfg, token, verifyAt)
    case BadUuid => Reject(ServerError)
    case TokenId(id) => Revoke(id)
    case _ => Reject(LoggedOut)
  }

  ghost function PlanFor(cfg: Config, users: Users, t: Table, request: Request, verifyAt: real, checkAt: real): Plan {
    match request
    case Login(username, password) => PlanLogin(users, username, password)
    case Refresh(token) => PlanRefresh(cfg, users, t, token, verifyAt, checkAt)
    case Logout(token) => PlanLogout(cfg, token, verifyAt)
  }

  // ---------------------------------------------------------------- writing

  function NewRow(cfg: Config, userId: Id, familyId: Id, tokenId: Id, now: real): Row {
    Row(tokenId, userId, familyId, Digest(cfg.RefreshToken(userId, tokenId, now, tokenId)),
        now, cfg.RefreshExpiry(now), None, None)
  }

  function GrantFor(cfg: Config, user: UserAuthRecord, ids: Ids, now: real): Grant {
    Grant(cfg.AccessToken(user, now, ids.accessJti), cfg.AccessExpiry(now),
          cfg.RefreshToken(user.id, ids.tokenId, now, ids.tokenId), cfg.RefreshExpiry(now))
  }

  /** A commit: the new table if its deferred references hold, the old one otherwise. */
  function Committed(t: Table, t': Table, answer: Answer): (Table, Answer) {
    if ReplacedByOk(t') then (t', answer) else (t, IntegrityError)
  }

  function IssueAndCommit(cfg: Config, users: Users, t: Table, working: Table, user: UserAuthRecord,
      familyId: Id, ids: Ids, issueAt: real)
    : (Table, Answer)
  {
    match InsertStatement(users, working, NewRow(cfg, user.id, familyId, ids.tokenId, issueAt))
    case Failure(_) => (t, IntegrityError)
    case Success(t') => Committed(t, t', Issued(GrantFor(cfg, user, ids, issueAt)))
  }

  function Apply(cfg: Config, users: Users, t: Table, plan: Plan, ids: Ids, writeAt: real,
      issueAt: real): (Table, Answer) {
    match plan
    case Reject(answer) => (t, answer)
    case Open(user) => IssueAndCommit(cfg, users, t, t, user, ids.familyId, ids, issueAt)
    case Rotate(row, user) =>
      (match MarkStatement(t, row.id, ids.tokenId, writeAt)
       case Failure(_) => (t, IntegrityError)
       case Success(marked) => IssueAndCommit(cfg, users, t, marked, user, row.familyId, ids, issueAt))
    case Reuse(familyId) => Committed(t, FamilyRevoked(t, familyId, writeAt), ReuseDetected)
    case Revoke(tokenId) => Committed(t, Revoked(t, tokenId, writeAt), LoggedOut)
  }

  /** A whole request without interference. */
  ghost function Serve(cfg: Config, users: Users, t: Table, request: Request, ids: Ids, at: Instants): (Table, Answer) {
    Apply(cfg, users, t, PlanFor(cfg, users, t, request, at.verify, at.check), ids, at.write, at.issue)
  }

  // ---------------------------------------------------------------- the service

  class AuthService {
    const cfg: Config
    const session: Session

    constructor (cfg: Config, session: Session)
      ensures this.cfg == cfg && this.session == session
    {
      this.cfg := cfg;
      this.session := session;
    }

    /** Sign both tokens and insert the refresh token's row; an integrity error ends the transaction. */
    method IssueTokens(user: UserAuthRecord, familyId: Id, ids: Ids, now: real) returns (r: Result<Grant, DbError>)
      modifies session`working
      ensures var row := NewRow(cfg, user.id, familyId, ids.tokenId, now);
              match InsertStatement(session.users, old(session.working), row)
              case Success(t) => session.working == t && r == Success(GrantFor(cfg, user, ids, now))
              case Failure(e) => session.working == old(session.working) && r == Failure(e)
      ensures r.Success? ==>
                Opened(cfg, old(session.working), session.working, user.id, ids.(familyId := familyId), now, r.value)
    {
      var accessExpires := cfg.AccessExpiry(now);
      var refreshExpires := cfg.RefreshExpiry(now);
      var access := cfg.signer.Sign(AccessClaims(user, now, accessExpires), now, ids.accessJti);
      var refresh := cfg.signer.Sign(RefreshClaims(user.id, ids.tokenId, now, refreshExpires), now, ids.tokenId);
      var row := Row(ids.tokenId, user.id, familyId, Digest(refresh), now, refreshExpires, None, None);
      var inserted := session.InsertRefreshToken(row);
      match inserted
      case Failure(e) => r := Failure(e);
      case Success(_) => r := Success(Grant(access, accessExpires, refresh, refreshExpires));
    }

    method Login(username: string, password: string, ids: Ids, at: Instants) returns (answer: Answer)
      requires session.Idle() && ValidUsers(session.users)
      modifies session`working, session`committed
      ensures session.Idle()
      ensures (session.committed, answer)
           == Serve(cfg, session.users, old(session.committed), Request.Login(username, password), ids, at)
    {
      var found := session.GetUserByEmail(username);
      assert found == UserByEmail(session.users, username);
      if found.None? || found.value.disabled { return InvalidCredentials; }
      var user := found.value;
      if !Verifies(password, user.passwordHash) { return InvalidCredentials; }
      var tokens := IssueTokens(user, ids.familyId, ids, at.issue);
      if tokens.Failure? { session.Rollback(); return IntegrityError; }
      var ok := session.Commit();
      answer := if ok then Issued(tokens.value) else IntegrityError;
    }

    method Refresh(token: Token, ids: Ids, at: Instants) returns (answer: Answer)
      requires session.Idle()
      modifies session`working, session`committed
      ensures session.Idle()
      ensures (session.committed, answer)
           == Serve(cfg, session.users, old(session.committed), Request.Refresh(token), ids, at)
    {
      var claimed := ReadToken(cfg, token, at.verify);
      if claimed.BadUuid? { return ServerError; }
      if !claimed.TokenId? { return InvalidCredentials; }
      var record := session.GetRefreshTokenById(claimed.id);
      if record.None? { return InvalidCredentials; }
      var row := record.value;
      if !Verifies(token, row.hash) { return InvalidCredentials; }
      if row.revokedAt.Some? && row.replacedBy.Some? {
        var _ := session.RevokeRefreshTokenFamily(row.familyId, at.write);
        var ok := session.Commit();
        return if ok then ReuseDetected else IntegrityError;
      }
      if row.revokedAt.Some? { return InvalidCredentials; }
      if row.expiresAt < at.check { return InvalidCredentials; }
      var user := session.GetUserById(row.userId);
      if user.None? || user.value.disabled { return InvalidCredentials; }
      answer := RotateAndCommit(row, user.value, ids, at);
    }

    /** The second half of a refresh, entered with a row and a user read earlier: mark the
        presented token replaced, insert its successor, commit. */
    method RotateAndCommit(row: Row, user: UserAuthRecord, ids: Ids, at: Instants) returns (answer: Answer)
      requires session.Idle()
      modifies session`working, session`committed
      ensures session.Idle()
      ensures (session.committed, answer)
           == Apply(cfg, session.users, old(session.committed), Rotate(row, user), ids, at.write, at.issue)
    {
      var marked := session.MarkRefreshTokenReplaced(row.id, ids.tokenId, at.write);
      if marked.Failure? { session.Rollback(); return IntegrityError; }
      var tokens := IssueTokens(user, row.familyId, ids, at.issue);
      if tokens.Failure? { session.Rollback(); return IntegrityError; }
      var ok := session.Commit();
      answer := if ok then Issued(tokens.value) else IntegrityError;
    }

    method Logout(token: Token, ids: Ids, at: Instants) returns (answer: Answer)
      requires session.Idle()
      modifies session`working, session`committed
      ensures session.Idle()
      ensures (session.committed, answer)
           == Serve(cfg, session.users, old(session.committed), Request.Logout(token), ids, at)
    {
      var claimed := ReadToken(cfg, token, at.verify);
      if claimed.BadUuid? { return ServerError; }
      if !claimed.TokenId? { return LoggedOut; }
      var _ := session.RevokeRefreshToken(claimed.id, at.write);
      var ok := session.Commit();
      answer := if ok then LoggedOut else IntegrityError;
    }
  }

  // ---------------------------------------------------------------- what a token is read as

  /** A presented token names a row exactly if it verifies, is a refresh token, and its `jti` is a UUID;
      a `jti` that is there and is no UUID is the one thing the service has no answer for. */
  lemma ReadTokenIff(cfg: Config, token: Token, now: real)
    ensures var read, p := ReadToken(cfg, token, now), token.payload;
            var genuine := cfg.signer.Verify(token, now).Success?;
            && (read.NotVerified? <==> !genuine)
            && (read.WrongType? <==> genuine && !(Typ in p && p[Typ] == Str("refresh")))
            && (forall id: Id :: read == TokenId(id) <==>
                  genuine && Typ in p && p[Typ] == Str("refresh") && Jti in p && p[Jti] == Uuid(id))
            && (read.BadUuid? <==>
                && genuine && Typ in p && p[Typ] == Str("refresh") && Jti in p && !p[Jti].Uuid?
                && p[Jti] !in {Null, Str(""), Num(0), Bool(false), List([])})
  {
    VerifyAccepts(cfg.signer, token, now);
  }

  /** Such a token is a server error that changes nothing, in refresh and in logout, and nothing else is. */
  lemma ServerErrorIff(cfg: Config, users: Users, t: Table, request: Request, ids: Ids, at: Instants)
    requires !request.Login?
    ensures var (t', answer) := Serve(cfg, users, t, request, ids, at);
            && (answer == ServerError <==> ReadToken(cfg, request.token, at.verify).BadUuid?)
            && (answer == ServerError ==> t' == t)
  {
  }

  // ---------------------------------------------------------------- what a request writes

  /** The row of a token just handed out. */
  ghost predicate IsNewRow(cfg: Config, row: Row, userId: Id, familyId: Id, tokenId: Id, issueAt: real, grant: Grant) {
    && row == Row(tokenId, userId, familyId, Digest(grant.refresh), issueAt, grant.refreshExpiresAt, None, None)
    && grant.refreshExpiresAt == issueAt + (86400 * cfg.refreshDays) as real
    && grant.accessExpiresAt == issueAt + (60 * cfg.accessMinutes) as real
  }

  /** A row is added, and nothing else happens. */
  ghost predicate Opened(cfg: Config, t: Table, t': Table, userId: Id, ids: Ids, issueAt: real, grant: Grant) {
    && ids.tokenId !in t && t'.Keys == t.Keys + {ids.tokenId}
    && (forall j | j in t :: t'[j] == t[j])
    && IsNewRow(cfg, t'[ids.tokenId], userId, ids.familyId, ids.tokenId, issueAt, grant)
  }

  /** The presented row `i` is exchanged for a new one, and nothing else happens. */
  ghost predicate Exchanged(cfg: Config, t: Table, t': Table, i: Id, ids: Ids, writeAt: real, issueAt: real,
      grant: Grant)
    requires i in t
  {
    && ids.tokenId !in t && t'.Keys == t.Keys + {ids.tokenId}
    && (forall j | j in t && j != i :: t'[j] == t[j])
    && t'[i] == t[i].(replacedBy := Some(ids.tokenId), revokedAt := Some(writeAt))
    && IsNewRow(cfg, t'[ids.tokenId], t[i].userId, t[i].familyId, ids.tokenId, issueAt, grant)
  }

  /** The unrevoked rows of family `f` are revoked at `at`, and nothing else happens. */
  ghost predicate FamilyStamped(t: Table, t': Table, f: Id, at: real) {
    && t'.Keys == t.Keys
    && forall j | j in t ::
         t'[j] == if t[j].familyId == f && t[j].revokedAt.None? then t[j].(revokedAt := Some(at)) else t[j]
  }

  /** What the access token of a grant says of its user and its times. */
  lemma AccessGrantSays(cfg: Config, user: UserAuthRecord, ids: Ids, now: real)
    ensures var grant := GrantFor(cfg, user, ids, now);
            var p := grant.access.payload;
            && p.Keys >= {Sub, Email, TenantId, Typ, Active, Exp, Iat, Scopes}
            && p[Sub] == Uuid(user.id) && p[Email] == Str(user.email) && p[Active] == Bool(!user.disabled)
            && p[TenantId] == (match user.tenantId case Some(t) => Uuid(t) case None => Null)
            && p[Typ] == Str("access") && p[Scopes] == List(["user"])
            && p[Iat] == Num(Truncated(now)) && p[Exp] == Num(Truncated(grant.accessExpiresAt))
  {
    var claims := AccessClaims(user, now, cfg.AccessExpiry(now));
    cfg.signer.SignedKeeps(claims, now, ids.accessJti);
    assert claims.Keys >= {Sub, Email, TenantId, Typ, Active, Exp, Iat, Scopes};
  }

  /** What the signer adds to it. */
  lemma AccessGrantIsSigned(cfg: Config, user: UserAuthRecord, ids: Ids, now: real)
    ensures var p := GrantFor(cfg, user, ids, now).access.payload;
            && p.Keys >= {Iss, Aud, Jti}
            && p[Iss] == Str(cfg.signer.issuer) && p[Aud] == Str(cfg.signer.audience) && p[Jti] == Uuid(ids.accessJti)
  {
    cfg.signer.SignedFills(AccessClaims(user, now, cfg.AccessExpiry(now)), now, ids.accessJti);
  }

  /** What the refresh token of a grant says. */
  lemma RefreshGrantSays(cfg: Config, user: UserAuthRecord, ids: Ids, now: real)
    ensures var grant := GrantFor(cfg, user, ids, now);
            var p := grant.refresh.payload;
            && p.Keys == {Sub, Jti, Typ, Exp, Iat, Iss, Aud}
            && p[Sub] == Uuid(user.id) && p[Jti] == Uuid(ids.tokenId) && p[Typ] == Str("refresh")
            && p[Iat] == Num(Truncated(now)) && p[Exp] == Num(Truncated(grant.refreshExpiresAt))
            && p[Iss] == Str(cfg.signer.issuer) && p[Aud] == Str(cfg.signer.audience)
  {
    cfg.signer.SignedKeeps(RefreshClaims(user.id, ids.tokenId, now, cfg.RefreshExpiry(now)), now, ids.tokenId);
  }

  lemma LoginWrites(cfg: Config, users: Users, t: Table, user: UserAuthRecord, ids: Ids, writeAt: real, issueAt: real)
    ensures var (t', answer) := Apply(cfg, users, t, Open(user), ids, writeAt, issueAt);
            if answer.Issued? then Opened(cfg, t, t', user.id, ids, issueAt, answer.grant) else t' == t
  {
  }

  lemma RotationWrites(cfg: Config, users: Users, t: Table, row: Row, user: UserAuthRecord, ids: Ids, writeAt: real,
      issueAt: real)
    requires row.id in t && t[row.id].familyId == row.familyId && t[row.id].userId == user.id
    ensures var (t', answer) := Apply(cfg, users, t, Rotate(row, user), ids, writeAt, issueAt);
            if answer.Issued? then Exchanged(cfg, t, t', row.id, ids, writeAt, issueAt, answer.grant) else t' == t
  {
  }

  lemma ReuseWrites(cfg: Config, users: Users, t: Table, f: Id, ids: Ids, writeAt: real, issueAt: real)
    ensures var (t', answer) := Apply(cfg, users, t, Reuse(f), ids, writeAt, issueAt);
            if answer.ReuseDetected? then FamilyStamped(t, t', f, writeAt) else t' == t
  {
  }

  /** What a refresh leaves in the table, answer by answer, with the clock reading each value comes from. */
  lemma RefreshEffects(cfg: Config, users: Users, t: Table, token: Token, ids: Ids, at: Instants)
    requires Keyed(t) && ValidUsers(users)
    ensures var (t', answer) := Serve(cfg, users, t, Request.Refresh(token), ids, at);
            var read := ReadToken(cfg, token, at.verify);
            && (answer.Issued? || answer.ReuseDetected? ==>
                read.TokenId? && read.id in t && t[read.id].hash.preimage == token)
            && (answer.Issued? ==>
                && at.check <= t[read.id].expiresAt && t[read.id].revokedAt.None?
                && t[read.id].userId in users && !users[t[read.id].userId].disabled
                && Exchanged(cfg, t, t', read.id, ids, at.write, at.issue, answer.grant))
            && (answer.ReuseDetected? ==>
                && t[read.id].revokedAt.Some? && t[read.id].replacedBy.Some?
                && FamilyStamped(t, t', t[read.id].familyId, at.write))
            && (!answer.Issued? && !answer.ReuseDetected? ==> t' == t)
  {
    var plan := PlanRefresh(cfg, users, t, token, at.verify, at.check);
    if plan.Rotate? { RotationWrites(cfg, users, t, plan.row, plan.user, ids, at.write, at.issue); }
    if plan.Reuse? { ReuseWrites(cfg, users, t, plan.familyId, ids, at.write, at.issue); }
  }

  /** What a login and a logout leave in the table. */
  lemma LoginEffects(cfg: Config, users: Users, t: Table, username: string, password: string, ids: Ids, at: Instants)
    requires ValidUsers(users)
    ensures var (t', answer) := Serve(cfg, users, t, Request.Login(username, password), ids, at);
            if answer.Issued? then
              exists i | i in users && users[i].email == username ::
                users[i].id == i && Opened(cfg, t, t', i, ids, at.issue, answer.grant)
            else t' == t
  {
    var plan := PlanLogin(users, username, password);
    if plan.Open? { LoginWrites(cfg, users, t, plan.user, ids, at.write, at.issue); }
  }

  lemma LogoutEffects(cfg: Config, users: Users, t: Table, token: Token, ids: Ids, at: Instants)
    requires ReplacedByOk(t)
    ensures var (t', answer) := Serve(cfg, users, t, Request.Logout(token), ids, at);
            var read := ReadToken(cfg, token, at.verify);
            && answer == (if read.BadUuid? then ServerError else LoggedOut)
            && t' == if read.TokenId? && read.id in t then t[read.id := t[read.id].(revokedAt := Some(at.write))] else t
  {
    var read := ReadToken(cfg, token, at.verify);
    if read.TokenId? { assert ReplacedByOk(Revoked(t, read.id, at.write)); }
  }

  // ---------------------------------------------------------------- who gets in

  /** A login is granted for exactly the enabled user with that email and that password. */
  lemma LoginOpensIff(users: Users, username: string, password: string, user: UserAuthRecord)
    requires ValidUsers(users)
    ensures PlanLogin(users, username, password) == Open(user)
            <==>
            && user in users.Values && user.email == username
            && !user.disabled && user.passwordHash == Digest(password)
    ensures var plan := PlanLogin(users, username, password); plan.Open? || plan == Reject(InvalidCredentials)
  {
    var found := UserByEmail(users, username);
    if user in users.Values && user.email == username {
      var i :| i in users && users[i] == user;
      assert found == Some(user);
    }
  }

  /** An access token is useless to refresh and logout, a refresh token to `get_current_user`,
      whatever the table holds and whenever they are presented. */
  lemma TypesStayApart(cfg: Config, users: Users, t: Table, user: UserAuthRecord, tokenId: Id, jti: Id,
      issued: real, verifyAt: real, checkAt: real)
    ensures var access := cfg.AccessToken(user, issued, jti);
            && PlanRefresh(cfg, users, t, access, verifyAt, checkAt) == Reject(InvalidCredentials)
            && PlanLogout(cfg, access, verifyAt) == Reject(LoggedOut)
    ensures var refresh := cfg.RefreshToken(user.id, tokenId, issued, jti);
            GetCurrentUser(cfg.signer, Some(refresh), verifyAt).Failure?
  {
    assert cfg.AccessToken(user, issued, jti).payload[Typ] == Str("access");
    assert cfg.RefreshToken(user.id, tokenId, issued, jti).payload[Typ] == Str("refresh");
    assert |"access"| != |"refresh"|;
  }
}
