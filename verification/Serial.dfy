/** The serial server: every request runs alone. Its rows simulate the ledger answer for answer,
    and a closed family stays closed. */
module Serial {
  import opened Common
  import opened Jwt
  import opened Persistence
  import opened Rotation
  import opened Ledgers

  datatype Db = Db(users: Users, tokens: Table)

  /** One thing that happens: a request, or a change to the user table that deletes nobody. */
  datatype Event = Call(request: Request, ids: Ids, at: Instants) | Administer(users: Users)

  ghost predicate Admissible(users: Users, users': Users) {
    users.Keys <= users'.Keys && ValidUsers(users')
  }

  ghost function Step(cfg: Config, db: Db, e: Event): (Db, Option<Answer>) {
    match e
    case Call(request, ids, at) =>
      var (t, answer) := Serve(cfg, db.users, db.tokens, request, ids, at);
      (Db(db.users, t), Some(answer))
    case Administer(users) => (if Admissible(db.users, users) then db.(users := users) else db, None)
  }

  ghost function Run(cfg: Config, db: Db, events: seq<Event>): Db
    decreases |events|
  {
    if events == [] then db else Run(cfg, Step(cfg, db, events[0]).0, events[1..])
  }

  ghost function Answers(cfg: Config, db: Db, events: seq<Event>): seq<Option<Answer>>
    decreases |events|
  {
    if events == [] then []
    else [Step(cfg, db, events[0]).1] + Answers(cfg, Step(cfg, db, events[0]).0, events[1..])
  }

  // ---------------------------------------------------------------- the abstract ledger machine

  ghost function Find(l: Ledger, id: Id): Option<(Id, nat)> {
    if f: Id, k: nat :| At(l, f, k, id) then Some((f, k)) else None
  }

  ghost function LedgerRefresh(cfg: Config, users: Users, l: Ledger, token: Token, ids: Ids,
      at: Instants): (Ledger, Answer) {
    match ReadToken(cfg, token, at.verify)
    case BadUuid => (l, ServerError)
    case TokenId(id) =>
      (match Find(l, id)
       case None => (l, InvalidCredentials)
       case Some((f, k)) =>
         var fam := l[f];
         if fam.chain[k].token != token then (l, InvalidCredentials)
         else if k + 1 < |fam.chain| then (l[f := fam.(open := false)], ReuseDetected)
         else if !fam.open then (l, InvalidCredentials)
         else if fam.chain[k].expiresAt < at.check then (l, InvalidCredentials)
         else if fam.user !in users || users[fam.user].disabled then (l, InvalidCredentials)
         else if Find(l, ids.tokenId).Some? then (l, IntegrityError)
         else
           (l[f := fam.(chain := fam.chain + [NewEntry(cfg, fam.user, ids.tokenId, at.issue)])],
            Issued(GrantFor(cfg, users[fam.user], ids, at.issue))))
    case _ => (l, InvalidCredentials)
  }

  ghost function LedgerLogin(cfg: Config, users: Users, l: Ledger, username: string, password: string,
      ids: Ids, at: Instants): (Ledger, Answer) {
    match PlanLogin(users, username, password)
    case Open(user) =>
      if ids.familyId in l || Find(l, ids.tokenId).Some? then (l, IntegrityError)
      else (l[ids.familyId := Family(user.id, [NewEntry(cfg, user.id, ids.tokenId, at.issue)], true)],
            Issued(GrantFor(cfg, user, ids, at.issue)))
    case _ => (l, InvalidCredentials)
  }

  ghost function LedgerLogout(cfg: Config, l: Ledger, token: Token, at: Instants): (Ledger, Answer) {
    match ReadToken(cfg, token, at.verify)
    case BadUuid => (l, ServerError)
    case TokenId(id) =>
      (match Find(l, id)
       case Some((f, k)) => (if k + 1 == |l[f].chain| then l[f := l[f].(open := false)] else l, LoggedOut)
       case None => (l, LoggedOut))
    case _ => (l, LoggedOut)
  }

  ghost function LedgerServe(cfg: Config, users: Users, l: Ledger, request: Request, ids: Ids,
      at: Instants): (Ledger, Answer) {
    match request
    case Login(username, password) => LedgerLogin(cfg, users, l, username, password, ids, at)
    case Refresh(token) => LedgerRefresh(cfg, users, l, token, ids, at)
    case Logout(token) => LedgerLogout(cfg, l, token, at)
  }

  ghost function LedgerStep(cfg: Config, users: Users, l: Ledger, e: Event): (Users, Ledger, Option<Answer>) {
    match e
    case Call(request, ids, at) =>
      var (l', answer) := LedgerServe(cfg, users, l, request, ids, at);
      (users, l', Some(answer))
    case Administer(users') => (if Admissible(users, users') then users' else users, l, None)
  }

  ghost function LedgerRun(cfg: Config, users: Users, l: Ledger, events: seq<Event>): Ledger
    decreases |events|
  {
    if events == [] then l
    else var (users', l', _) := LedgerStep(cfg, users, l, events[0]); LedgerRun(cfg, users', l', events[1..])
  }

  ghost function LedgerAnswers(cfg: Config, users: Users, l: Ledger, events: seq<Event>): seq<Option<Answer>>
    decreases |events|
  {
    if events == [] then []
    else
      var (users', l', answer) := LedgerStep(cfg, users, l, events[0]);
      [answer] + LedgerAnswers(cfg, users', l', events[1..])
  }

  // ---------------------------------------------------------------- simulation

  lemma FindMatches(t: Table, l: Ledger, id: Id)
    requires Refines(t, l)
    ensures id in t <==> Find(l, id).Some?
    ensures id in t ==> var (f, k) := Find(l, id).value;
              && At(l, f, k, id) && t[id].familyId == f && EntryRefines(t, f, l[f], k)
              && (forall g, j | At(l, g, j, id) :: g == f && j == k)
  {
    if id in t { var k := Located(t, l, id); }
    if Find(l, id).Some? {
      var (f, k) := Find(l, id).value;
      assert FamilyRefines(t, f, l[f]) && EntryRefines(t, f, l[f], k);
      forall g, j | At(l, g, j, id)
        ensures g == f && j == k
      {
        assert FamilyRefines(t, g, l[g]) && EntryRefines(t, g, l[g], j);
      }
    }
  }

  lemma RefreshSimulates(cfg: Config, users: Users, t: Table, l: Ledger, token: Token, ids: Ids, at: Instants)
    requires Refines(t, l) && ValidUsers(users)
    ensures var (t', answer) := Serve(cfg, users, t, Request.Refresh(token), ids, at);
            var (l', answer') := LedgerRefresh(cfg, users, l, token, ids, at);
            Refines(t', l') && answer == answer'
  {
    var plan := PlanRefresh(cfg, users, t, token, at.verify, at.check);
    match ReadToken(cfg, token, at.verify)
    case TokenId(id) =>
      FindMatches(t, l, id);
      FindMatches(t, l, ids.tokenId);
      if id in t && t[id].hash == Digest(token) {
        var (f, k) := Find(l, id).value;
        assert FamilyRefines(t, f, l[f]);
        if plan.Reuse? { ReuseRefines(cfg, users, t, l, f, ids, at.write, at.issue); }
        if plan.Rotate? { RotateRefines(cfg, users, t, l, plan.row, plan.user, ids, at.write, at.issue); }
      }
    case _ =>
  }

  /** The family whose newest token has this id, if any, is the one where the ledger finds the id. */
  lemma HeadIsFound(t: Table, l: Ledger, id: Id)
    requires Refines(t, l)
    ensures HeadFamily(l, id)
         == match Find(l, id)
            case Some((f, k)) => if k + 1 == |l[f].chain| then Some(f) else None
            case None => None
  {
    FindMatches(t, l, id);
    var h := HeadFamily(l, id);
    if h.Some? { assert At(l, h.value, |l[h.value].chain| - 1, id); }
    if Find(l, id).Some? {
      var (f, k) := Find(l, id).value;
      assert At(l, f, k, id);
      assert k + 1 == |l[f].chain| ==> Last(l[f]).id == id;
    }
  }

  lemma LogoutSimulates(cfg: Config, users: Users, t: Table, l: Ledger, token: Token, ids: Ids, at: Instants)
    requires Refines(t, l)
    ensures var (t', answer) := Serve(cfg, users, t, Request.Logout(token), ids, at);
            var (l', answer') := LedgerLogout(cfg, l, token, at);
            Refines(t', l') && answer == answer'
  {
    match ReadToken(cfg, token, at.verify)
    case TokenId(id) =>
      FindMatches(t, l, id);
      HeadIsFound(t, l, id);
      RevokeRefines(cfg, users, t, l, id, ids, at.write, at.issue);
    case _ =>
  }

  lemma LoginSimulates(cfg: Config, users: Users, t: Table, l: Ledger, username: string, password: string,
      ids: Ids, at: Instants)
    requires Refines(t, l) && ValidUsers(users)
    ensures var (t', answer) := Serve(cfg, users, t, Request.Login(username, password), ids, at);
            var (l', answer') := LedgerLogin(cfg, users, l, username, password, ids, at);
            Refines(t', l') && answer == answer'
  {
    var plan := PlanLogin(users, username, password);
    if plan.Open? {
      FindMatches(t, l, ids.tokenId);
      OpenRefines(cfg, users, t, l, plan.user, ids, at.write, at.issue);
    }
  }

  lemma StepSimulates(cfg: Config, db: Db, l: Ledger, e: Event)
    requires Refines(db.tokens, l) && ValidUsers(db.users)
    ensures var (db', answer) := Step(cfg, db, e);
            var (users', l', answer') := LedgerStep(cfg, db.users, l, e);
            Refines(db'.tokens, l') && answer == answer' && db'.users == users' && ValidUsers(users')
  {
    match e
    case Administer(_) =>
    case Call(request, ids, at) =>
      match request
      case Login(u, p) => LoginSimulates(cfg, db.users, db.tokens, l, u, p, ids, at);
      case Refresh(token) => RefreshSimulates(cfg, db.users, db.tokens, l, token, ids, at);
      case Logout(token) => LogoutSimulates(cfg, db.users, db.tokens, l, token, ids, at);
  }

  /** Over every run, the table refines the ledger the abstract machine reaches, and the two give
      the same answers. */
  lemma {:induction false} RunSimulates(cfg: Config, db: Db, l: Ledger, events: seq<Event>)
    requires Refines(db.tokens, l) && ValidUsers(db.users)
    ensures Refines(Run(cfg, db, events).tokens, LedgerRun(cfg, db.users, l, events))
    ensures ValidUsers(Run(cfg, db, events).users)
    ensures Answers(cfg, db, events) == LedgerAnswers(cfg, db.users, l, events)
    decreases |events|
  {
    if events != [] {
      StepSimulates(cfg, db, l, events[0]);
      var (_, l', _) := LedgerStep(cfg, db.users, l, events[0]);
      RunSimulates(cfg, Step(cfg, db, events[0]).0, l', events[1..]);
    }
  }

  /** What a change of family `f` may be, by the answer. */
  ghost predicate Moved(l: Ledger, request: Request, ids: Ids, f: Id, l': Ledger, answer: Answer) {
    match answer
    case Issued(grant) =>
      && f in l' && l'[f].open && |l'[f].chain| > 0
      && Last(l'[f]).token == grant.refresh && Last(l'[f]).id == ids.tokenId
      && Last(l'[f]).expiresAt == grant.refreshExpiresAt
      && (request.Login? ==> f !in l && |l'[f].chain| == 1)
      && (request.Refresh? ==>
          && f in l && l[f].open && l'[f].user == l[f].user
          && l'[f].chain[..|l'[f].chain| - 1] == l[f].chain
          && |l[f].chain| > 0 && Last(l[f]).token == request.token)
    case ReuseDetected =>
      && request.Refresh? && f in l && l' == l[f := l[f].(open := false)]
      && exists k :: 0 <= k < |l[f].chain| - 1 && l[f].chain[k].token == request.token
    case LoggedOut => request.Logout? && f in l && l' == l[f := l[f].(open := false)]
    case _ => false
  }

  ghost predicate OnlyFamily(l: Ledger, f: Id, l': Ledger) {
    forall g | g != f :: (g in l <==> g in l') && (g in l ==> l'[g] == l[g])
  }

  lemma RefreshMoves(cfg: Config, users: Users, l: Ledger, token: Token, ids: Ids, at: Instants) returns (f: Id)
    requires ValidUsers(users)
    ensures var (l', answer) := LedgerRefresh(cfg, users, l, token, ids, at);
            OnlyFamily(l, f, l') && (l' != l ==> Moved(l, Request.Refresh(token), ids, f, l', answer))
  {
    f := 0;
    var read := ReadToken(cfg, token, at.verify);
    if read.TokenId? && Find(l, read.id).Some? {
      f := Find(l, read.id).value.0;
      assert At(l, f, Find(l, read.id).value.1, read.id);
    }
  }

  lemma LogoutMoves(cfg: Config, l: Ledger, token: Token, ids: Ids, at: Instants) returns (f: Id)
    ensures var (l', answer) := LedgerLogout(cfg, l, token, at);
            OnlyFamily(l, f, l') && (l' != l ==> Moved(l, Request.Logout(token), ids, f, l', answer))
  {
    f := 0;
    var read := ReadToken(cfg, token, at.verify);
    if read.TokenId? && Find(l, read.id).Some? {
      f := Find(l, read.id).value.0;
      assert At(l, f, Find(l, read.id).value.1, read.id);
    }
  }

  lemma LoginMoves(cfg: Config, users: Users, l: Ledger, username: string, password: string, ids: Ids, at: Instants)
    ensures var (l', answer) := LedgerLogin(cfg, users, l, username, password, ids, at);
            OnlyFamily(l, ids.familyId, l')
            && (l' != l ==> Moved(l, Request.Login(username, password), ids, ids.familyId, l', answer))
  {
  }

  /** A request changes the ledger in one family at most, and only as its answer says. */
  lemma LedgerMoves(cfg: Config, users: Users, l: Ledger, request: Request, ids: Ids, at: Instants) returns (f: Id)
    requires ValidUsers(users)
    ensures var (l', answer) := LedgerServe(cfg, users, l, request, ids, at);
            OnlyFamily(l, f, l') && (l' != l ==> Moved(l, request, ids, f, l', answer))
  {
    match request
    case Login(username, password) =>
      f := ids.familyId;
      LoginMoves(cfg, users, l, username, password, ids, at);
    case Refresh(token) => f := RefreshMoves(cfg, users, l, token, ids, at);
    case Logout(token) => f := LogoutMoves(cfg, l, token, ids, at);
  }

  // ---------------------------------------------------------------- lockout

  function FamilyIds(t: Table, f: Id): set<Id> {
    set i | i in t && t[i].familyId == f
  }

  ghost predicate AllRevoked(t: Table, f: Id) {
    forall i | i in t && t[i].familyId == f :: t[i].revokedAt.Some?
  }

  lemma ClosedMeansRevoked(t: Table, l: Ledger, f: Id)
    requires Refines(t, l) && f in l
    ensures AllRevoked(t, f) <==> !l[f].open
    ensures FamilyIds(t, f) == set e | e in l[f].chain :: e.id
  {
    var chain := l[f].chain;
    assert FamilyRefines(t, f, l[f]);
    forall k | 0 <= k < |chain|
      ensures chain[k].id in t && t[chain[k].id].familyId == f && EntryRefines(t, f, l[f], k)
    {
      assert EntryRefines(t, f, l[f], k);
    }
    forall i | i in t && t[i].familyId == f
      ensures (t[i].revokedAt.None? ==> l[f].open) && exists e :: e in chain && e.id == i
    {
      var k := Located(t, l, i);
      assert chain[k] in chain;
    }
    HeadOf(t, l, f);
    assert EntryRefines(t, f, l[f], |chain| - 1);
  }

  lemma ClosedStaysClosed(cfg: Config, users: Users, l: Ledger, e: Event, f: Id)
    requires f in l && !l[f].open && ValidUsers(users)
    ensures var (_, l', _) := LedgerStep(cfg, users, l, e); f in l' && l'[f] == l[f]
  {
    if e.Call? { var g := LedgerMoves(cfg, users, l, e.request, e.ids, e.at); }
  }

  /** The events of a run whose answers matter to a family: refreshes with one of its tokens. */
  ghost predicate Presents(cfg: Config, e: Event, ids: set<Id>) {
    e.Call? && e.request.Refresh? &&
    var read := ReadToken(cfg, e.request.token, e.at.verify); read.TokenId? && read.id in ids
  }

  ghost predicate NoneSucceeds(cfg: Config, events: seq<Event>, answers: seq<Option<Answer>>, ids: set<Id>)
    requires |answers| == |events|
  {
    forall n | 0 <= n < |events| && Presents(cfg, events[n], ids) :: answers[n].Some? && !answers[n].value.Issued?
  }

  lemma {:induction false} AnswersLength(cfg: Config, db: Db, events: seq<Event>)
    ensures |Answers(cfg, db, events)| == |events|
    decreases |events|
  {
    if events != [] { AnswersLength(cfg, Step(cfg, db, events[0]).0, events[1..]); }
  }

  lemma LockedStep(cfg: Config, db: Db, l: Ledger, f: Id, e: Event)
    requires Refines(db.tokens, l) && ValidUsers(db.users) && f in l && !l[f].open
    ensures var (db', answer) := Step(cfg, db, e);
            var (_, l', _) := LedgerStep(cfg, db.users, l, e);
            && Refines(db'.tokens, l') && ValidUsers(db'.users) && db'.users == LedgerStep(cfg, db.users, l, e).0
            && f in l' && !l'[f].open
            && FamilyIds(db'.tokens, f) == FamilyIds(db.tokens, f)
            && (Presents(cfg, e, FamilyIds(db.tokens, f)) ==> answer.Some? && !answer.value.Issued?)
  {
    var db' := Step(cfg, db, e).0;
    var (_, l', _) := LedgerStep(cfg, db.users, l, e);
    StepSimulates(cfg, db, l, e);
    ClosedStaysClosed(cfg, db.users, l, e, f);
    ClosedMeansRevoked(db.tokens, l, f);
    ClosedMeansRevoked(db'.tokens, l', f);
    if Presents(cfg, e, FamilyIds(db.tokens, f)) {
      FindMatches(db.tokens, l, ReadToken(cfg, e.request.token, e.at.verify).id);
    }
  }

  /** A family whose rows are all revoked is locked for good: whatever happens next, no row joins
      it, its rows stay revoked, and no refresh with one of its tokens succeeds. */
  lemma {:induction false} LockedForGood(cfg: Config, db: Db, l: Ledger, f: Id, events: seq<Event>)
    requires Refines(db.tokens, l) && ValidUsers(db.users) && f in l && !l[f].open
    ensures FamilyIds(Run(cfg, db, events).tokens, f) == FamilyIds(db.tokens, f)
    ensures AllRevoked(Run(cfg, db, events).tokens, f)
    ensures |Answers(cfg, db, events)| == |events|
    ensures NoneSucceeds(cfg, events, Answers(cfg, db, events), FamilyIds(db.tokens, f))
    decreases |events|
  {
    ClosedMeansRevoked(db.tokens, l, f);
    AnswersLength(cfg, db, events);
    if events != [] {
      LockedStep(cfg, db, l, f, events[0]);
      var db' := Step(cfg, db, events[0]).0;
      var (_, l', _) := LedgerStep(cfg, db.users, l, events[0]);
      LockedForGood(cfg, db', l', f, events[1..]);
      var answers, rest := Answers(cfg, db, events), Answers(cfg, db', events[1..]);
      forall n | 0 <= n < |events| && Presents(cfg, events[n], FamilyIds(db.tokens, f))
        ensures answers[n].Some? && !answers[n].value.Issued?
      {
        if n > 0 { assert events[n] == events[1..][n - 1] && answers[n] == rest[n - 1]; }
      }
    }
  }

  /** The state after a run from an empty table has a ledger. */
  lemma Reached(cfg: Config, users: Users, events: seq<Event>) returns (l: Ledger)
    requires ValidUsers(users)
    ensures var db := Run(cfg, Db(users, map[]), events); Refines(db.tokens, l) && ValidUsers(db.users)
  {
    assert Refines(map[], map[]);
    RunSimulates(cfg, Db(users, map[]), map[], events);
    l := LedgerRun(cfg, users, map[], events);
  }

  /** The family is locked from `db` on, through the events `after`. */
  ghost predicate Locked(cfg: Config, db: Db, f: Id, after: seq<Event>) {
    && AllRevoked(db.tokens, f)
    && FamilyIds(Run(cfg, db, after).tokens, f) == FamilyIds(db.tokens, f)
    && AllRevoked(Run(cfg, db, after).tokens, f)
    && |Answers(cfg, db, after)| == |after|
    && NoneSucceeds(cfg, after, Answers(cfg, db, after), FamilyIds(db.tokens, f))
  }

  lemma LocksFrom(cfg: Config, db: Db, l: Ledger, f: Id, e: Event, after: seq<Event>)
    requires Refines(db.tokens, l) && ValidUsers(db.users)
    requires f in l && LedgerStep(cfg, db.users, l, e).1 == l[f := l[f].(open := false)]
    ensures var db1 := Step(cfg, db, e).0;
            FamilyIds(db1.tokens, f) == FamilyIds(db.tokens, f) && Locked(cfg, db1, f, after)
  {
    var db1 := Step(cfg, db, e).0;
    var l1 := LedgerStep(cfg, db.users, l, e).1;
    StepSimulates(cfg, db, l, e);
    ClosedMeansRevoked(db.tokens, l, f);
    ClosedMeansRevoked(db1.tokens, l1, f);
    LockedForGood(cfg, db1, l1, f, after);
  }

  /** Reuse detection, over whole serial runs from an empty table: once a refresh answers
      reuse-detected, every row of its family is revoked and the family is locked for good. */
  lemma ReuseLocksFamily(cfg: Config, users: Users, before: seq<Event>, token: Token, ids: Ids, at: Instants,
      after: seq<Event>)
    requires ValidUsers(users)
    requires var db := Run(cfg, Db(users, map[]), before);
             Serve(cfg, db.users, db.tokens, Request.Refresh(token), ids, at).1 == ReuseDetected
    ensures var db := Run(cfg, Db(users, map[]), before);
            var read := ReadToken(cfg, token, at.verify);
            && read.TokenId? && read.id in db.tokens
            && var f := db.tokens[read.id].familyId;
               var (db1, _) := Step(cfg, db, Call(Request.Refresh(token), ids, at));
               read.id in FamilyIds(db1.tokens, f) && Locked(cfg, db1, f, after)
  {
    var db := Run(cfg, Db(users, map[]), before);
    var l := Reached(cfg, users, before);
    RefreshSimulates(cfg, db.users, db.tokens, l, token, ids, at);
    var read := ReadToken(cfg, token, at.verify);
    assert read.TokenId?;
    FindMatches(db.tokens, l, read.id);
    LocksFrom(cfg, db, l, db.tokens[read.id].familyId, Call(Request.Refresh(token), ids, at), after);
  }

  /** Logging out the newest token of a family locks it in the same way. */
  lemma LogoutLocksFamily(cfg: Config, users: Users, before: seq<Event>, token: Token, ids: Ids, at: Instants,
      after: seq<Event>)
    requires ValidUsers(users)
    requires var db := Run(cfg, Db(users, map[]), before);
             var read := ReadToken(cfg, token, at.verify);
             read.TokenId? && read.id in db.tokens && db.tokens[read.id].replacedBy.None?
    ensures var db := Run(cfg, Db(users, map[]), before);
            var id := ReadToken(cfg, token, at.verify).id;
            var f := db.tokens[id].familyId;
            var (db1, answer) := Step(cfg, db, Call(Request.Logout(token), ids, at));
            answer == Some(LoggedOut) && id in FamilyIds(db1.tokens, f) && Locked(cfg, db1, f, after)
  {
    var db := Run(cfg, Db(users, map[]), before);
    var l := Reached(cfg, users, before);
    var id := ReadToken(cfg, token, at.verify).id;
    FindMatches(db.tokens, l, id);
    var k := Located(db.tokens, l, id);
    LogoutSimulates(cfg, db.users, db.tokens, l, token, ids, at);
    LocksFrom(cfg, db, l, db.tokens[id].familyId, Call(Request.Logout(token), ids, at), after);
  }

  // ---------------------------------------------------------------- the order of the statements

  lemma StatementOrderAt(cfg: Config, users: Users, t: Table, l: Ledger, head: Id, userId: Id, ids: Ids,
      writeAt: real, issueAt: real)
    requires Refines(t, l) && head in t && t[head].replacedBy.None?
    requires t[head].userId == userId && userId in users && ids.tokenId !in t
    ensures var next := NewRow(cfg, userId, t[head].familyId, ids.tokenId, issueAt);
            var marked := MarkStatement(t, head, ids.tokenId, writeAt);
            && marked.Success? && !ReplacedByOk(marked.value)
            && InsertStatement(users, marked.value, next).Success?
            && ReplacedByOk(InsertStatement(users, marked.value, next).value)
            && InsertStatement(users, t, next) == Failure(FamilyActive)
  {
    ConstraintsHold(t, l);
    HeadInsertSucceeds(cfg, users, t, l, head, userId, ids, writeAt, issueAt);
    HashesAreFresh(cfg, t, l, userId, t[head].familyId, ids.tokenId, issueAt);
    var marked := Marked(t, head, ids.tokenId, writeAt);
    assert FamilyActiveOk(marked);
    assert marked[head].replacedBy == Some(ids.tokenId) && ids.tokenId !in marked;
    var t' := t[ids.tokenId := NewRow(cfg, userId, t[head].familyId, ids.tokenId, issueAt)];
    assert head in t' && ids.tokenId in t' && head != ids.tokenId && t'[head].replacedBy.None?;
    assert !FamilyActiveOk(t');
  }

  /** Why the old row is marked before the new one is inserted, and why the self reference is
      deferred: in that order both constraints are met, with a dangling reference in between; in
      the other order the insert always breaks the index. */
  lemma StatementOrder(cfg: Config, users: Users, before: seq<Event>, token: Token, ids: Ids, at: Instants)
    requires ValidUsers(users)
    requires var db := Run(cfg, Db(users, map[]), before);
             ids.tokenId !in db.tokens && PlanRefresh(cfg, db.users, db.tokens, token, at.verify, at.check).Rotate?
    ensures var db := Run(cfg, Db(users, map[]), before);
            var plan := PlanRefresh(cfg, db.users, db.tokens, token, at.verify, at.check);
            var next := NewRow(cfg, plan.user.id, plan.row.familyId, ids.tokenId, at.issue);
            var marked := MarkStatement(db.tokens, plan.row.id, ids.tokenId, at.write);
            && marked.Success? && !ReplacedByOk(marked.value)
            && InsertStatement(db.users, marked.value, next).Success?
            && ReplacedByOk(InsertStatement(db.users, marked.value, next).value)
            && InsertStatement(db.users, db.tokens, next) == Failure(FamilyActive)
  {
    var db := Run(cfg, Db(users, map[]), before);
    var l := Reached(cfg, users, before);
    var plan := PlanRefresh(cfg, db.users, db.tokens, token, at.verify, at.check);
    ConstraintsHold(db.tokens, l);
    StatementOrderAt(cfg, db.users, db.tokens, l, plan.row.id, plan.user.id, ids, at.write, at.issue);
  }
}
