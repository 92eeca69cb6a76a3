/** The interleaved server: any number of requests are in flight, each holding a plan made from
    the table it read; a plan is applied later, to whatever the table has become. */
module Interleaved {
  import opened Common
  import opened Jwt
  import opened Persistence
  import opened Rotation
  import opened Ledgers
  import Serial

  datatype State = State(users: Users, tokens: Table, inflight: map<nat, Plan>)

  datatype Event =
    | Start(req: nat, request: Request, verifyAt: real, checkAt: real)
    | Finish(req: nat, ids: Ids, writeAt: real, issueAt: real)
    | Abandon(req: nat)
    | Administer(users: Users)

  ghost function Next(cfg: Config, s: State, e: Event): (State, Option<Answer>) {
    match e
    case Start(req, request, verifyAt, checkAt) =>
      if req in s.inflight then (s, None)
      else (s.(inflight := s.inflight[req := PlanFor(cfg, s.users, s.tokens, request, verifyAt, checkAt)]), None)
    case Finish(req, ids, writeAt, issueAt) =>
      if req !in s.inflight then (s, None)
      else
        var (t, answer) := Apply(cfg, s.users, s.tokens, s.inflight[req], ids, writeAt, issueAt);
        (State(s.users, t, s.inflight - {req}), Some(answer))
    case Abandon(req) => (s.(inflight := s.inflight - {req}), None)
    case Administer(users) => (if Serial.Admissible(s.users, users) then s.(users := users) else s, None)
  }

  ghost function After(cfg: Config, s: State, events: seq<Event>): State
    decreases |events|
  {
    if events == [] then s else After(cfg, Next(cfg, s, events[0]).0, events[1..])
  }

  ghost function Empty(users: Users): State {
    State(users, map[], map[])
  }

  // ---------------------------------------------------------------- the invariant

  ghost predicate Good(s: State, l: Ledger) {
    && Refines(s.tokens, l) && ValidUsers(s.users)
    && forall r | r in s.inflight :: PlanOk(s.users, s.tokens, s.inflight[r])
  }

  ghost function NextLedger(cfg: Config, s: State, l: Ledger, e: Event): Ledger {
    if e.Finish? && e.req in s.inflight then
      ApplyLedger(cfg, l, s.inflight[e.req], e.ids, e.issueAt, Next(cfg, s, e).1.value)
    else l
  }

  ghost function LedgerAfter(cfg: Config, s: State, l: Ledger, events: seq<Event>): Ledger
    decreases |events|
  {
    if events == [] then l
    else LedgerAfter(cfg, Next(cfg, s, events[0]).0, NextLedger(cfg, s, l, events[0]), events[1..])
  }

  /** How a table may change: no row disappears, nothing but `revoked_at` and `replaced_by` is
      updated, a revoked row stays revoked, and a replaced row keeps its successor. */
  ghost predicate Evolves(t: Table, t': Table) {
    forall i | i in t ::
      && i in t' && t'[i] == t[i].(revokedAt := t'[i].revokedAt, replacedBy := t'[i].replacedBy)
      && (t[i].revokedAt.Some? ==> t'[i].revokedAt.Some?)
      && (t[i].replacedBy.Some? ==> t'[i].replacedBy == t[i].replacedBy)
  }

  /** The family a plan writes to. */
  function Target(t: Table, plan: Plan, ids: Ids): Id {
    match plan
    case Reject(_) => 0
    case Open(_) => ids.familyId
    case Rotate(row, _) => row.familyId
    case Reuse(f) => f
    case Revoke(id) => if id in t then t[id].familyId else 0
  }

  lemma IssueEvolves(cfg: Config, users: Users, t: Table, working: Table, user: UserAuthRecord, f: Id,
      ids: Ids, issueAt: real)
    requires Evolves(t, working) && t.Keys == working.Keys
    requires forall i | i in t && t[i].familyId != f :: working[i] == t[i]
    ensures var t' := IssueAndCommit(cfg, users, t, working, user, f, ids, issueAt).0;
            && Evolves(t, t')
            && (forall i | i in t && t[i].familyId != f :: t'[i] == t[i])
            && (forall i | i in t' && i !in t :: t'[i].familyId == f)
  {
  }

  /** An integrity error rolls the whole transaction back. */
  lemma ErrorRollsBack(cfg: Config, users: Users, t: Table, plan: Plan, ids: Ids, writeAt: real, issueAt: real)
    requires plan != Reject(IntegrityError)
    ensures var (t', answer) := Apply(cfg, users, t, plan, ids, writeAt, issueAt);
            answer.IntegrityError? ==> t' == t
  {
  }

  lemma AppendEvolves(t: Table, head: Id, tokenId: Id, writeAt: real, next: Row)
    requires head in t && t[head].replacedBy.None? && tokenId !in t && next.familyId == t[head].familyId
    ensures var t' := Marked(t, head, tokenId, writeAt)[tokenId := next];
            && Evolves(t, t')
            && (forall i | i in t && t[i].familyId != next.familyId :: t'[i] == t[i])
            && (forall i | i in t' && i !in t :: t'[i].familyId == next.familyId)
  {
  }

  /** Applying any plan, however stale, only evolves the table, and only in the plan's family. */
  lemma ApplyEvolves(cfg: Config, users: Users, t: Table, l: Ledger, plan: Plan, ids: Ids, writeAt: real, issueAt: real)
    requires Refines(t, l) && PlanOk(users, t, plan)
    ensures var t' := Apply(cfg, users, t, plan, ids, writeAt, issueAt).0;
            && Evolves(t, t')
            && (forall i | i in t && t[i].familyId != Target(t, plan, ids) :: t'[i] == t[i])
            && (forall i | i in t' && i !in t :: t'[i].familyId == Target(t, plan, ids))
  {
    match plan
    case Reject(_) =>
    case Open(user) => IssueEvolves(cfg, users, t, t, user, ids.familyId, ids, issueAt);
    case Rotate(row, user) =>
      RotateRefines(cfg, users, t, l, row, user, ids, writeAt, issueAt);
      ErrorRollsBack(cfg, users, t, plan, ids, writeAt, issueAt);
      if t[row.id].replacedBy.None? && ids.tokenId !in t {
        AppendEvolves(t, row.id, ids.tokenId, writeAt, NewRow(cfg, user.id, row.familyId, ids.tokenId, issueAt));
      }
    case Reuse(f) =>
    case Revoke(id) =>
  }

  /** A rotation is planned for the row and the user as the table has them, and only for an unrevoked row. */
  lemma RotatedIsLive(cfg: Config, users: Users, t: Table, token: Token, verifyAt: real, checkAt: real)
    requires Keyed(t)
    ensures var plan := PlanRefresh(cfg, users, t, token, verifyAt, checkAt);
            && !plan.Open?
            && (plan.Rotate? ==>
                && plan.row.id in t && t[plan.row.id] == plan.row && plan.row.revokedAt.None?
                && plan.row.userId in users && plan.user == users[plan.row.userId])
  {
  }

  lemma PlanIsOk(cfg: Config, users: Users, t: Table, l: Ledger, request: Request, verifyAt: real, checkAt: real)
    requires Refines(t, l) && ValidUsers(users)
    ensures PlanOk(users, t, PlanFor(cfg, users, t, request, verifyAt, checkAt))
  {
    match request
    case Login(_, _) =>
    case Logout(_) =>
    case Refresh(token) =>
      ConstraintsHold(t, l);
      RotatedIsLive(cfg, users, t, token, verifyAt, checkAt);
  }

  lemma NextGood(cfg: Config, s: State, l: Ledger, e: Event)
    requires Good(s, l)
    ensures Good(Next(cfg, s, e).0, NextLedger(cfg, s, l, e))
    ensures Evolves(s.tokens, Next(cfg, s, e).0.tokens)
  {
    match e
    case Start(req, request, verifyAt, checkAt) => PlanIsOk(cfg, s.users, s.tokens, l, request, verifyAt, checkAt);
    case Finish(req, ids, writeAt, issueAt) =>
      if req in s.inflight {
        ApplyRefines(cfg, s.users, s.tokens, l, s.inflight[req], ids, writeAt, issueAt);
        ApplyEvolves(cfg, s.users, s.tokens, l, s.inflight[req], ids, writeAt, issueAt);
        var s' := Next(cfg, s, e).0;
        forall r | r in s'.inflight ensures PlanOk(s'.users, s'.tokens, s'.inflight[r]) {
          assert PlanOk(s.users, s.tokens, s.inflight[r]);
        }
      }
    case Abandon(_) =>
    case Administer(users) =>
      var s' := Next(cfg, s, e).0;
      forall r | r in s'.inflight ensures PlanOk(s'.users, s'.tokens, s'.inflight[r]) {
        assert PlanOk(s.users, s.tokens, s.inflight[r]);
      }
  }

  lemma {:induction false} AfterGood(cfg: Config, s: State, l: Ledger, events: seq<Event>)
    requires Good(s, l)
    ensures Good(After(cfg, s, events), LedgerAfter(cfg, s, l, events))
    ensures Evolves(s.tokens, After(cfg, s, events).tokens)
    decreases |events|
  {
    if events != [] {
      NextGood(cfg, s, l, events[0]);
      AfterGood(cfg, Next(cfg, s, events[0]).0, NextLedger(cfg, s, l, events[0]), events[1..]);
    }
  }

  lemma {:induction false} AfterSplits(cfg: Config, s: State, before: seq<Event>, after: seq<Event>)
    ensures After(cfg, s, before + after) == After(cfg, After(cfg, s, before), after)
    decreases |before|
  {
    if before == [] {
      assert before + after == after;
    } else {
      assert (before + after)[1..] == before[1..] + after;
      AfterSplits(cfg, Next(cfg, s, before[0]).0, before[1..], after);
    }
  }

  // ---------------------------------------------------------------- chains of rows

  /** The rows of a family, from the first token to the newest: all of them, once each, all of one
      user, each replaced by the next and the newest by none. */
  ghost predicate IsChain(t: Table, f: Id, c: seq<Id>) {
    && |c| > 0
    && (forall k | 0 <= k < |c| :: c[k] in t && t[c[k]].familyId == f)
    && (forall k | 0 <= k < |c| :: t[c[k]].userId == t[c[0]].userId)
    && (forall j, k | 0 <= j < k < |c| :: c[j] != c[k])
    && (forall i | i in t && t[i].familyId == f :: i in c)
    && (forall k | 0 <= k < |c| - 1 :: t[c[k]].replacedBy == Some(c[k + 1]))
    && t[c[|c| - 1]].replacedBy.None?
  }

  function ChainIds(chain: seq<Entry>): seq<Id> {
    seq(|chain|, k requires 0 <= k < |chain| => chain[k].id)
  }

  lemma RefinedIsChain(t: Table, l: Ledger, f: Id)
    requires Refines(t, l) && f in l
    ensures IsChain(t, f, ChainIds(l[f].chain))
  {
    var c := ChainIds(l[f].chain);
    assert FamilyRefines(t, f, l[f]);
    forall k | 0 <= k < |c|
      ensures c[k] in t && t[c[k]].familyId == f && t[c[k]].userId == l[f].user
      ensures k < |c| - 1 ==> t[c[k]].replacedBy == Some(c[k + 1])
      ensures k == |c| - 1 ==> t[c[k]].replacedBy.None?
    {
      assert EntryRefines(t, f, l[f], k);
    }
    forall i | i in t && t[i].familyId == f ensures i in c {
      var k := Located(t, l, i);
      assert c[k] == i;
    }
  }

  lemma Link(t: Table, f: Id, c: seq<Id>, p: nat)
    requires IsChain(t, f, c) && p < |c|
    ensures c[p] in t && t[c[p]].replacedBy == if p == |c| - 1 then None else Some(c[p + 1])
  {
  }

  lemma {:induction false} ChainsAgreeFromTheEnd(t: Table, f: Id, c: seq<Id>, d: seq<Id>, n: nat)
    requires IsChain(t, f, c) && IsChain(t, f, d) && n < |c| && n < |d|
    ensures c[|c| - 1 - n] == d[|d| - 1 - n]
  {
    var x := c[|c| - 1 - n];
    Link(t, f, c, |c| - 1 - n);
    assert x in d;
    var p :| 0 <= p < |d| && d[p] == x;
    Link(t, f, d, p);
    if n > 0 {
      ChainsAgreeFromTheEnd(t, f, c, d, n - 1);
      assert p < |d| - 1 && d[p + 1] == d[|d| - n];
    }
  }

  /** A family has only one chain. */
  lemma ChainIsUnique(t: Table, f: Id, c: seq<Id>, d: seq<Id>)
    requires IsChain(t, f, c) && IsChain(t, f, d)
    ensures c == d
  {
    if |c| < |d| { ChainCovers(t, f, c, d); }
    if |d| < |c| { ChainCovers(t, f, d, c); }
    forall k | 0 <= k < |c| ensures c[k] == d[k] { ChainsAgreeFromTheEnd(t, f, c, d, |c| - 1 - k); }
  }

  lemma ChainCovers(t: Table, f: Id, c: seq<Id>, d: seq<Id>)
    requires IsChain(t, f, c) && IsChain(t, f, d)
    ensures |c| >= |d|
  {
    forall k | 0 <= k < |c|
      ensures t[c[k]].replacedBy != Some(c[0])
    {
      if k < |c| - 1 { assert c[0] != c[k + 1]; }
    }
    if |c| < |d| {
      var previous := d[|d| - |c| - 1];
      ChainsAgreeFromTheEnd(t, f, c, d, |c| - 1);
    }
  }

  /** Every row of a table belongs to exactly one chain. */
  ghost predicate Chained(t: Table) {
    && (forall i | i in t :: exists c :: IsChain(t, t[i].familyId, c))
    && (forall f, c, d | IsChain(t, f, c) && IsChain(t, f, d) :: c == d)
  }

  lemma RefinedIsChained(t: Table, l: Ledger)
    requires Refines(t, l)
    ensures Chained(t)
  {
    forall i | i in t ensures exists c :: IsChain(t, t[i].familyId, c) {
      var k := Located(t, l, i);
      RefinedIsChain(t, l, t[i].familyId);
    }
    forall f, c, d | IsChain(t, f, c) && IsChain(t, f, d) ensures c == d { ChainIsUnique(t, f, c, d); }
  }

  /** The state after a run from an empty table has a ledger. */
  lemma Reached(cfg: Config, users: Users, events: seq<Event>) returns (l: Ledger)
    requires ValidUsers(users)
    ensures Good(After(cfg, Empty(users), events), l)
  {
    assert Good(Empty(users), map[]);
    AfterGood(cfg, Empty(users), map[], events);
    l := LedgerAfter(cfg, Empty(users), map[], events);
  }

  /** Chain integrity, for every interleaving: the committed rows of each family form exactly one
      chain, both constraints hold, and from any earlier point of the run on the table has only
      evolved, so a token never gets a second successor. */
  lemma ChainIntegrity(cfg: Config, users: Users, before: seq<Event>, after: seq<Event>)
    requires ValidUsers(users)
    ensures var t := After(cfg, Empty(users), before).tokens;
            var t' := After(cfg, Empty(users), before + after).tokens;
            Evolves(t, t') && Chained(t') && FamilyActiveOk(t') && ReplacedByOk(t')
  {
    AfterSplits(cfg, Empty(users), before, after);
    var s := After(cfg, Empty(users), before);
    var l := Reached(cfg, users, before);
    AfterGood(cfg, s, l, after);
    var l' := LedgerAfter(cfg, s, l, after);
    ConstraintsHold(After(cfg, s, after).tokens, l');
    RefinedIsChained(After(cfg, s, after).tokens, l');
  }

  lemma LiveIsHead(t: Table, l: Ledger, f: Id, i: Id)
    requires Refines(t, l) && LiveIn(t, f, i)
    ensures f in l && |l[f].chain| > 0 && i == Last(l[f]).id && t[i].replacedBy.None?
  {
    ConstraintsHold(t, l);
    var k := Located(t, l, i);
    HeadOf(t, l, f);
  }

  /** In every reachable state an unrevoked row is the unreplaced one of its family, so a family has
      at most one usable token and a family-wide revoke changes, and counts, at most one row. */
  lemma UnrevokedIsHead(cfg: Config, users: Users, events: seq<Event>, f: Id)
    requires ValidUsers(users)
    ensures var t := After(cfg, Empty(users), events).tokens;
            && (forall i | i in t && t[i].revokedAt.None? :: t[i].replacedBy.None?)
            && (forall i, j | LiveIn(t, f, i) && LiveIn(t, f, j) :: i == j)
            && |set i | i in t && LiveIn(t, f, i)| <= 1
  {
    var l := Reached(cfg, users, events);
    var t := After(cfg, Empty(users), events).tokens;
    ConstraintsHold(t, l);
    forall i | LiveIn(t, f, i) ensures f in l && |l[f].chain| > 0 && i == Last(l[f]).id { LiveIsHead(t, l, f, i); }
    var live := set i | i in t && LiveIn(t, f, i);
    if live != {} {
      var i :| i in live;
      assert live == {i};
    }
  }

  // ---------------------------------------------------------------- a token is exchanged once

  ghost predicate Rotates(s: State, req: nat, i: Id) {
    req in s.inflight && s.inflight[req].Rotate? && s.inflight[req].row.id == i
  }

  /** A rotation that is answered with tokens leaves its row replaced. */
  lemma ExchangeReplaces(cfg: Config, s: State, l: Ledger, i: Id, e: Event)
    requires Good(s, l) && e.Finish? && Rotates(s, e.req, i)
    ensures var (s', answer) := Next(cfg, s, e);
            answer.Some? && (answer.value.Issued? ==> i in s'.tokens && s'.tokens[i].replacedBy.Some?)
  {
    var plan := s.inflight[e.req];
    assert PlanOk(s.users, s.tokens, plan);
    RotateRefines(cfg, s.users, s.tokens, l, plan.row, plan.user, e.ids, e.writeAt, e.issueAt);
  }

  /** A rotation of a row that is replaced by now is an integrity error and changes nothing. */
  lemma StaleRotationFails(cfg: Config, s: State, l: Ledger, i: Id, e: Event)
    requires Good(s, l) && e.Finish? && Rotates(s, e.req, i) && i in s.tokens && s.tokens[i].replacedBy.Some?
    ensures var (s', answer) := Next(cfg, s, e); answer == Some(IntegrityError) && s'.tokens == s.tokens
  {
    var plan := s.inflight[e.req];
    assert PlanOk(s.users, s.tokens, plan);
    RotateRefines(cfg, s.users, s.tokens, l, plan.row, plan.user, e.ids, e.writeAt, e.issueAt);
    ErrorRollsBack(cfg, s.users, s.tokens, plan, e.ids, e.writeAt, e.issueAt);
  }

  /** A refresh token is exchanged at most once: when a rotation of row `i` has been answered with
      tokens, every later one of the same row, whatever happens in between and whenever it was
      planned, is an integrity error that changes nothing. */
  lemma ExchangedAtMostOnce(cfg: Config, users: Users, before: seq<Event>, i: Id, e: Event, between: seq<Event>,
      e': Event)
    requires ValidUsers(users) && e.Finish? && e'.Finish?
    requires var s := After(cfg, Empty(users), before);
             && Rotates(s, e.req, i) && Next(cfg, s, e).1.value.Issued?
             && Rotates(After(cfg, Next(cfg, s, e).0, between), e'.req, i)
    ensures var s := After(cfg, Next(cfg, After(cfg, Empty(users), before), e).0, between);
            var (s', answer) := Next(cfg, s, e');
            answer == Some(IntegrityError) && s'.tokens == s.tokens
  {
    var l := Reached(cfg, users, before);
    var s := After(cfg, Empty(users), before);
    ExchangeReplaces(cfg, s, l, i, e);
    NextGood(cfg, s, l, e);
    var s1, l1 := Next(cfg, s, e).0, NextLedger(cfg, s, l, e);
    AfterGood(cfg, s1, l1, between);
    StaleRotationFails(cfg, After(cfg, s1, between), LedgerAfter(cfg, s1, l1, between), i, e');
  }

  // ---------------------------------------------------------------- a request ends once

  ghost predicate StartsNone(events: seq<Event>, req: nat) {
    forall e | e in events :: !(e.Start? && e.req == req)
  }

  lemma {:induction false} StaysEnded(cfg: Config, s: State, events: seq<Event>, req: nat)
    requires req !in s.inflight && StartsNone(events, req)
    ensures req !in After(cfg, s, events).inflight
    decreases |events|
  {
    if events != [] {
      assert events[0] in events;
      StaysEnded(cfg, Next(cfg, s, events[0]).0, events[1..], req);
    }
  }

  /** A request that was answered or abandoned gives no answer and changes nothing until its number is
      started again. */
  lemma RequestsEndOnce(cfg: Config, s: State, e: Event, events: seq<Event>, e': Event)
    requires (e.Finish? || e.Abandon?) && StartsNone(events, e.req) && e'.Finish? && e'.req == e.req
    ensures var s' := After(cfg, Next(cfg, s, e).0, events); Next(cfg, s', e') == (s', None)
  {
    StaysEnded(cfg, Next(cfg, s, e).0, events, e.req);
  }

  // ---------------------------------------------------------------- serial runs are interleaved runs

  function Expand(events: seq<Serial.Event>): seq<Event> {
    if events == [] then []
    else
      (match events[0]
       case Call(request, ids, at) => [Start(0, request, at.verify, at.check), Finish(0, ids, at.write, at.issue)]
       case Administer(users) => [Event.Administer(users)])
      + Expand(events[1..])
  }

  lemma {:induction false} SerialIsInterleaved(cfg: Config, db: Serial.Db, events: seq<Serial.Event>)
    ensures After(cfg, State(db.users, db.tokens, map[]), Expand(events))
         == State(Serial.Run(cfg, db, events).users, Serial.Run(cfg, db, events).tokens, map[])
    decreases |events|
  {
    if events != [] {
      var s := State(db.users, db.tokens, map[]);
      var db' := Serial.Step(cfg, db, events[0]).0;
      var s' := State(db'.users, db'.tokens, map[]);
      SerialIsInterleaved(cfg, db', events[1..]);
      match events[0]
      case Call(request, ids, at) =>
        var start, finish := Start(0, request, at.verify, at.check), Finish(0, ids, at.write, at.issue);
        var s1 := Next(cfg, s, start).0;
        assert s1.inflight - {0} == map[];
        assert Next(cfg, s1, finish).0 == s';
        assert After(cfg, s1, [finish]) == s' && [start, finish][1..] == [finish];
        assert After(cfg, s, [start, finish]) == s';
        AfterSplits(cfg, s, [start, finish], Expand(events[1..]));
      case Administer(users) =>
        assert After(cfg, s, [Event.Administer(users)]) == s';
        AfterSplits(cfg, s, [Event.Administer(users)], Expand(events[1..]));
    }
  }

  // ---------------------------------------------------------------- when a lock holds

  /** Some request in flight has read a family's unreplaced row and means to rotate it. */
  ghost predicate HoldsHead(s: State, f: Id) {
    exists r | r in s.inflight :: RotatesHead(s.tokens, f, s.inflight[r])
  }

  ghost predicate RotatesHead(t: Table, f: Id, plan: Plan) {
    plan.Rotate? && plan.row.id in t && t[plan.row.id].familyId == f && t[plan.row.id].replacedBy.None?
  }

  /** A plan that does not rotate a closed family's head leaves that family's entry alone. */
  lemma LockedApply(cfg: Config, users: Users, t: Table, l: Ledger, f: Id, plan: Plan, ids: Ids, writeAt: real,
      issueAt: real)
    requires Refines(t, l) && PlanOk(users, t, plan) && f in l && !l[f].open && !RotatesHead(t, f, plan)
    ensures var answer := Apply(cfg, users, t, plan, ids, writeAt, issueAt).1;
            var l' := ApplyLedger(cfg, l, plan, ids, issueAt, answer);
            f in l' && l'[f] == l[f]
  {
    match plan
    case Reject(_) =>
    case Open(user) => OpenRefines(cfg, users, t, l, user, ids, writeAt, issueAt);
    case Rotate(row, user) => RotateRefines(cfg, users, t, l, row, user, ids, writeAt, issueAt);
    case Reuse(_) =>
    case Revoke(_) =>
  }

  /** A plan made now does not rotate the head of a family whose rows are all revoked. */
  lemma LockedPlan(cfg: Config, users: Users, t: Table, l: Ledger, f: Id, request: Request, verifyAt: real,
      checkAt: real)
    requires Refines(t, l) && Serial.AllRevoked(t, f)
    ensures !RotatesHead(t, f, PlanFor(cfg, users, t, request, verifyAt, checkAt))
  {
    match request
    case Login(_, _) =>
    case Logout(_) =>
    case Refresh(token) =>
      ConstraintsHold(t, l);
      RotatedIsLive(cfg, users, t, token, verifyAt, checkAt);
  }

  lemma LockedNext(cfg: Config, s: State, l: Ledger, f: Id, e: Event)
    requires Good(s, l) && f in l && !l[f].open && !HoldsHead(s, f)
    ensures var s', l' := Next(cfg, s, e).0, NextLedger(cfg, s, l, e);
            && Good(s', l') && f in l' && l'[f] == l[f] && !HoldsHead(s', f)
  {
    NextGood(cfg, s, l, e);
    Serial.ClosedMeansRevoked(s.tokens, l, f);
    var s', l' := Next(cfg, s, e).0, NextLedger(cfg, s, l, e);
    if e.Finish? && e.req in s.inflight {
      assert !RotatesHead(s.tokens, f, s.inflight[e.req]);
      LockedApply(cfg, s.users, s.tokens, l, f, s.inflight[e.req], e.ids, e.writeAt, e.issueAt);
    }
    if e.Start? { LockedPlan(cfg, s.users, s.tokens, l, f, e.request, e.verifyAt, e.checkAt); }
    HeadOf(s.tokens, l, f);
    HeadOf(s'.tokens, l', f);
    forall r | r in s'.inflight
      ensures !RotatesHead(s'.tokens, f, s'.inflight[r])
    {
      if r in s.inflight { assert !RotatesHead(s.tokens, f, s.inflight[r]); }
    }
  }

  lemma {:induction false} LockedAfter(cfg: Config, s: State, l: Ledger, f: Id, events: seq<Event>)
    requires Good(s, l) && f in l && !l[f].open && !HoldsHead(s, f)
    ensures Serial.AllRevoked(After(cfg, s, events).tokens, f)
    ensures Serial.FamilyIds(After(cfg, s, events).tokens, f) == Serial.FamilyIds(s.tokens, f)
    decreases |events|
  {
    Serial.ClosedMeansRevoked(s.tokens, l, f);
    if events != [] {
      LockedNext(cfg, s, l, f, events[0]);
      var s', l' := Next(cfg, s, events[0]).0, NextLedger(cfg, s, l, events[0]);
      Serial.ClosedMeansRevoked(s'.tokens, l', f);
      LockedAfter(cfg, s', l', f, events[1..]);
    }
  }

  /** A plan that rotates a head commits under any unused id, and its new row is unrevoked. */
  lemma HeadRotates(cfg: Config, users: Users, t: Table, l: Ledger, f: Id, plan: Plan, ids: Ids, writeAt: real,
      issueAt: real)
    requires Refines(t, l) && PlanOk(users, t, plan) && RotatesHead(t, f, plan) && ids.tokenId !in t
    ensures var (t', answer) := Apply(cfg, users, t, plan, ids, writeAt, issueAt);
            answer.Issued? && ids.tokenId in t' && !Serial.AllRevoked(t', f)
  {
    RotateRefines(cfg, users, t, l, plan.row, plan.user, ids, writeAt, issueAt);
    var t' := Apply(cfg, users, t, plan, ids, writeAt, issueAt).0;
    assert ids.tokenId in t' && t'[ids.tokenId].familyId == f && t'[ids.tokenId].revokedAt.None?;
  }

  /** A stale reader that holds the head can always reopen the family. */
  lemma HeldReopens(cfg: Config, s: State, l: Ledger, f: Id, r: nat) returns (e: Event)
    requires Good(s, l) && r in s.inflight && RotatesHead(s.tokens, f, s.inflight[r])
    ensures var (s', answer) := Next(cfg, s, e);
            && answer.Some? && answer.value.Issued?
            && !Serial.AllRevoked(s'.tokens, f) && After(cfg, s, [e]) == s'
  {
    assert PlanOk(s.users, s.tokens, s.inflight[r]);
    var ids := Ids(Above(s.tokens.Keys), 0, 0);
    e := Finish(r, ids, 0.0, 0.0);
    HeadRotates(cfg, s.users, s.tokens, l, f, s.inflight[r], ids, 0.0, 0.0);
    AfterOne(cfg, s, e);
  }

  lemma AfterOne(cfg: Config, s: State, e: Event)
    ensures After(cfg, s, [e]) == Next(cfg, s, e).0
  {
    assert [e][1..] == [];
  }

  /** Under interleaving a revoked family stays revoked through every continuation exactly when no
      request in flight has read its unreplaced row in order to rotate it: the update is by id only
      and does not look at `revoked_at` again. */
  lemma LockHoldsIff(cfg: Config, users: Users, before: seq<Event>, f: Id)
    requires ValidUsers(users)
    requires var t := After(cfg, Empty(users), before).tokens;
             Serial.FamilyIds(t, f) != {} && Serial.AllRevoked(t, f)
    ensures var s := After(cfg, Empty(users), before);
            (forall after :: Serial.AllRevoked(After(cfg, s, after).tokens, f)) <==> !HoldsHead(s, f)
  {
    var l := Reached(cfg, users, before);
    var s := After(cfg, Empty(users), before);
    var i :| i in Serial.FamilyIds(s.tokens, f);
    var k := Located(s.tokens, l, i);
    Serial.ClosedMeansRevoked(s.tokens, l, f);
    if HoldsHead(s, f) {
      var r :| r in s.inflight && RotatesHead(s.tokens, f, s.inflight[r]);
      var e := HeldReopens(cfg, s, l, f, r);
      assert !Serial.AllRevoked(After(cfg, s, [e]).tokens, f);
    } else {
      forall after ensures Serial.AllRevoked(After(cfg, s, after).tokens, f) { LockedAfter(cfg, s, l, f, after); }
    }
  }
}
