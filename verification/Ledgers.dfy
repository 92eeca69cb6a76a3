/** What the rows are for: an abstract ledger holding, for each token family, its user, the
    sequence of tokens issued to it and whether it is still open. `Refines` ties a table to a
    ledger; every plan that is applied keeps it, and the lemmas here say exactly when a plan
    succeeds. */
module Ledgers {
  import opened Common
  import opened Jwt
  import opened Persistence
  import opened Rotation

  datatype Entry = Entry(id: Id, token: Token, issuedAt: real, expiresAt: real)

  datatype Family = Family(user: Id, chain: seq<Entry>, open: bool)

  type Ledger = map<Id, Family>

  ghost predicate HasJti(token: Token, id: Id) {
    Jti in token.payload && token.payload[Jti] == Uuid(id)
  }

  /** Row of entry `k`: it points to entry `k + 1` and is revoked, or it is the last one, points
      nowhere and is unrevoked exactly while the family is open. */
  ghost predicate EntryRefines(t: Table, f: Id, fam: Family, k: nat)
    requires k < |fam.chain|
  {
    var e := fam.chain[k];
    && e.id in t
    && HasJti(e.token, e.id)
    && t[e.id].id == e.id && t[e.id].familyId == f && t[e.id].userId == fam.user
    && t[e.id].hash == Digest(e.token) && t[e.id].issuedAt == e.issuedAt && t[e.id].expiresAt == e.expiresAt
    && (k + 1 < |fam.chain| ==> t[e.id].replacedBy == Some(fam.chain[k + 1].id) && t[e.id].revokedAt.Some?)
    && (k + 1 == |fam.chain| ==> t[e.id].replacedBy.None? && (t[e.id].revokedAt.None? <==> fam.open))
  }

  ghost predicate FamilyRefines(t: Table, f: Id, fam: Family) {
    && |fam.chain| > 0
    && (forall k | 0 <= k < |fam.chain| :: EntryRefines(t, f, fam, k))
    && (forall j, k | 0 <= j < k < |fam.chain| :: fam.chain[j].id != fam.chain[k].id)
  }

  ghost predicate At(l: Ledger, f: Id, k: int, id: Id) {
    f in l && 0 <= k < |l[f].chain| && l[f].chain[k].id == id
  }

  ghost predicate Refines(t: Table, l: Ledger) {
    && (forall f | f in l :: FamilyRefines(t, f, l[f]))
    && (forall i | i in t :: exists k :: At(l, t[i].familyId, k, i))
  }

  function Last(fam: Family): Entry
    requires |fam.chain| > 0
  {
    fam.chain[|fam.chain| - 1]
  }

  function NewEntry(cfg: Config, userId: Id, tokenId: Id, now: real): Entry {
    Entry(tokenId, cfg.RefreshToken(userId, tokenId, now, tokenId), now, cfg.RefreshExpiry(now))
  }

  /** What a plan relies on when it is applied: its user exists, and its row, whatever became of
      it, is still there with the same family and user. */
  ghost predicate PlanOk(users: Users, t: Table, plan: Plan) {
    match plan
    case Open(user) => user.id in users
    case Rotate(row, user) =>
      && user.id in users && row.id in t
      && t[row.id].familyId == row.familyId && t[row.id].userId == row.userId == user.id
    case _ => true
  }

  // ---------------------------------------------------------------- reading a refined table

  lemma Located(t: Table, l: Ledger, i: Id) returns (k: nat)
    requires Refines(t, l) && i in t
    ensures At(l, t[i].familyId, k, i) && EntryRefines(t, t[i].familyId, l[t[i].familyId], k)
    ensures t[i].replacedBy.None? <==> k + 1 == |l[t[i].familyId].chain|
  {
    var f := t[i].familyId;
    var k' :| At(l, f, k', i);
    k := k';
    assert FamilyRefines(t, f, l[f]) && EntryRefines(t, f, l[f], k);
  }

  /** The last entry of a family has a row, the only one of the family that is not replaced. */
  lemma HeadOf(t: Table, l: Ledger, f: Id)
    requires Refines(t, l) && f in l
    ensures |l[f].chain| > 0
    ensures var h := Last(l[f]).id;
            && h in t && t[h].familyId == f && t[h].replacedBy.None?
            && forall i | i in t && t[i].familyId == f && t[i].replacedBy.None? :: i == h
  {
    assert FamilyRefines(t, f, l[f]) && EntryRefines(t, f, l[f], |l[f].chain| - 1);
    forall i | i in t && t[i].familyId == f && t[i].replacedBy.None?
      ensures i == Last(l[f]).id
    {
      var k := Located(t, l, i);
    }
  }

  /** Both constraints hold of every refined table. */
  lemma ConstraintsHold(t: Table, l: Ledger)
    requires Refines(t, l)
    ensures FamilyActiveOk(t) && ReplacedByOk(t) && Keyed(t)
    ensures forall i | i in t && t[i].revokedAt.None? :: t[i].replacedBy.None?
  {
    forall i | i in t
      ensures t[i].id == i && t[i].familyId in l
      ensures t[i].replacedBy.Some? ==> t[i].replacedBy.value in t && t[i].revokedAt.Some?
      ensures t[i].replacedBy.None? ==> |l[t[i].familyId].chain| > 0 && i == Last(l[t[i].familyId]).id
    {
      var k := Located(t, l, i);
      var f := t[i].familyId;
      if k + 1 < |l[f].chain| { assert EntryRefines(t, f, l[f], k + 1); }
      HeadOf(t, l, f);
    }
  }

  /** Distinct tokens have distinct hashes, because the hash covers the `jti`. */
  lemma HashesAreFresh(cfg: Config, t: Table, l: Ledger, userId: Id, familyId: Id, tokenId: Id, now: real)
    requires Refines(t, l) && tokenId !in t
    ensures forall i | i in t :: t[i].hash != NewRow(cfg, userId, familyId, tokenId, now).hash
  {
    var token := cfg.RefreshToken(userId, tokenId, now, tokenId);
    assert HasJti(token, tokenId);
    forall i | i in t
      ensures t[i].hash != Digest(token)
    {
      var k := Located(t, l, i);
    }
  }

  // ---------------------------------------------------------------- what each plan does to the ledger

  /** The ledger after a plan answered `answer`. */
  ghost function ApplyLedger(cfg: Config, l: Ledger, plan: Plan, ids: Ids, issueAt: real, answer: Answer): Ledger {
    if answer.IntegrityError? then l
    else match plan
      case Reject(_) => l
      case Open(user) => l[ids.familyId := Family(user.id, [NewEntry(cfg, user.id, ids.tokenId, issueAt)], true)]
      case Rotate(row, user) =>
        if row.familyId in l then
          var fam := l[row.familyId];
          l[row.familyId := Family(fam.user, fam.chain + [NewEntry(cfg, user.id, ids.tokenId, issueAt)], true)]
        else l
      case Reuse(familyId) => Closed(l, Some(familyId))
      case Revoke(tokenId) => Closed(l, HeadFamily(l, tokenId))
  }

  /** The family whose last token has this id. */
  ghost function HeadFamily(l: Ledger, id: Id): (f: Option<Id>)
    ensures f.Some? ==> f.value in l && |l[f.value].chain| > 0 && Last(l[f.value]).id == id
    ensures f.None? ==> forall g | g in l && |l[g].chain| > 0 :: Last(l[g]).id != id
  {
    if f :| f in l && |l[f].chain| > 0 && Last(l[f]).id == id then Some(f) else None
  }

  lemma OpenRefines(cfg: Config, users: Users, t: Table, l: Ledger, user: UserAuthRecord, ids: Ids,
      writeAt: real, issueAt: real)
    requires Refines(t, l) && user.id in users
    ensures var (t', answer) := Apply(cfg, users, t, Open(user), ids, writeAt, issueAt);
            && Refines(t', ApplyLedger(cfg, l, Open(user), ids, issueAt, answer))
            && (answer.Issued? || answer.IntegrityError?)
            && (answer.Issued? <==> ids.tokenId !in t && ids.familyId !in l)
  {
    var row := NewRow(cfg, user.id, ids.familyId, ids.tokenId, issueAt);
    var t' := t[row.id := row];
    if ids.tokenId !in t {
      HashesAreFresh(cfg, t, l, user.id, ids.familyId, ids.tokenId, issueAt);
      if ids.familyId in l {
        HeadOf(t, l, ids.familyId);
        var h := Last(l[ids.familyId]).id;
        assert h in t' && row.id in t' && h != row.id && t'[h].replacedBy.None?;
        assert !FamilyActiveOk(t');
      } else {
        ConstraintsHold(t, l);
        FreshFamilyRefines(cfg, t, l, user.id, ids, issueAt);
        ConstraintsHold(t', l[ids.familyId := Family(user.id, [NewEntry(cfg, user.id, ids.tokenId, issueAt)], true)]);
      }
    }
  }

  lemma FreshFamilyRefines(cfg: Config, t: Table, l: Ledger, userId: Id, ids: Ids, issueAt: real)
    requires Refines(t, l) && ids.tokenId !in t && ids.familyId !in l
    ensures Refines(t[ids.tokenId := NewRow(cfg, userId, ids.familyId, ids.tokenId, issueAt)],
                    l[ids.familyId := Family(userId, [NewEntry(cfg, userId, ids.tokenId, issueAt)], true)])
  {
    var t' := t[ids.tokenId := NewRow(cfg, userId, ids.familyId, ids.tokenId, issueAt)];
    var l' := l[ids.familyId := Family(userId, [NewEntry(cfg, userId, ids.tokenId, issueAt)], true)];
    forall f | f in l'
      ensures FamilyRefines(t', f, l'[f])
    {
      if f != ids.familyId {
        assert FamilyRefines(t, f, l[f]);
        forall k | 0 <= k < |l[f].chain| ensures EntryRefines(t', f, l'[f], k) { assert EntryRefines(t, f, l[f], k); }
      }
    }
    forall i | i in t'
      ensures exists k :: At(l', t'[i].familyId, k, i)
    {
      if i == ids.tokenId { assert At(l', ids.familyId, 0, i); }
      else { var k := Located(t, l, i); assert At(l', t'[i].familyId, k, i); }
    }
  }

  /** Exactly when a rotation commits, however stale its row: the row must still be the family's
      unreplaced row and the new id unused. Whether the row was revoked meanwhile plays no part. */
  lemma RotateRefines(cfg: Config, users: Users, t: Table, l: Ledger, row: Row, user: UserAuthRecord, ids: Ids,
      writeAt: real, issueAt: real)
    requires Refines(t, l) && PlanOk(users, t, Rotate(row, user))
    ensures var (t', answer) := Apply(cfg, users, t, Rotate(row, user), ids, writeAt, issueAt);
            && (answer.Issued? || answer.IntegrityError?)
            && (answer.Issued? <==> t[row.id].replacedBy.None? && ids.tokenId !in t)
            && (answer.Issued? ==>
                var next := NewRow(cfg, user.id, row.familyId, ids.tokenId, issueAt);
                t' == Marked(t, row.id, ids.tokenId, writeAt)[ids.tokenId := next])
            && Refines(t', ApplyLedger(cfg, l, Rotate(row, user), ids, issueAt, answer))
  {
    var marked := Marked(t, row.id, ids.tokenId, writeAt);
    ConstraintsHold(t, l);
    assert FamilyActiveOk(marked);
    if ids.tokenId !in t {
      if t[row.id].replacedBy.Some? {
        var next := NewRow(cfg, user.id, row.familyId, ids.tokenId, issueAt);
        StaleInsertFails(users, t, l, row.id, ids.tokenId, writeAt, next);
      } else {
        HeadInsertSucceeds(cfg, users, t, l, row.id, user.id, ids, writeAt, issueAt);
      }
    }
  }

  /** Once a token is replaced, its family's unreplaced row is another one, so the successor that a
      stale reader inserts is a second one and breaks the index. */
  lemma StaleInsertFails(users: Users, t: Table, l: Ledger, stale: Id, tokenId: Id, writeAt: real, next: Row)
    requires Refines(t, l) && stale in t && t[stale].replacedBy.Some? && tokenId !in t
    requires next.id == tokenId && next.familyId == t[stale].familyId && next.replacedBy.None?
    ensures InsertStatement(users, Marked(t, stale, tokenId, writeAt), next).Failure?
  {
    var k := Located(t, l, stale);
    HeadOf(t, l, next.familyId);
    var h := Last(l[next.familyId]).id;
    var t' := Marked(t, stale, tokenId, writeAt)[tokenId := next];
    assert h in t' && tokenId in t' && h != tokenId && t'[h].replacedBy.None? && t'[h].familyId == next.familyId;
    assert !FamilyActiveOk(t');
  }

  lemma HeadInsertSucceeds(cfg: Config, users: Users, t: Table, l: Ledger, head: Id, userId: Id, ids: Ids,
      writeAt: real, issueAt: real)
    requires Refines(t, l) && head in t && t[head].replacedBy.None?
    requires t[head].userId == userId && userId in users && ids.tokenId !in t
    ensures t[head].familyId in l
    ensures var f := t[head].familyId;
            var marked := Marked(t, head, ids.tokenId, writeAt);
            var row := NewRow(cfg, userId, f, ids.tokenId, issueAt);
            var t' := marked[ids.tokenId := row];
            && InsertStatement(users, marked, row) == Success(t') && ReplacedByOk(t')
            && Refines(t', l[f := Family(l[f].user, l[f].chain + [NewEntry(cfg, userId, ids.tokenId, issueAt)], true)])
  {
    var f := t[head].familyId;
    var k := Located(t, l, head);
    var row := NewRow(cfg, userId, f, ids.tokenId, issueAt);
    var marked := Marked(t, head, ids.tokenId, writeAt);
    HashesAreFresh(cfg, t, l, userId, f, ids.tokenId, issueAt);
    forall i | i in marked ensures marked[i].hash != row.hash { assert marked[i].hash == t[i].hash; }
    AppendRefines(cfg, t, l, head, userId, ids, writeAt, issueAt);
    var fam' := Family(l[f].user, l[f].chain + [NewEntry(cfg, userId, ids.tokenId, issueAt)], true);
    ConstraintsHold(marked[ids.tokenId := row], l[f := fam']);
  }

  lemma AppendRefines(cfg: Config, t: Table, l: Ledger, head: Id, userId: Id, ids: Ids, writeAt: real, issueAt: real)
    requires Refines(t, l) && head in t && t[head].replacedBy.None? && t[head].userId == userId && ids.tokenId !in t
    requires t[head].familyId in l
    ensures var f := t[head].familyId;
            Refines(Marked(t, head, ids.tokenId, writeAt)[ids.tokenId := NewRow(cfg, userId, f, ids.tokenId, issueAt)],
                    l[f := Family(l[f].user, l[f].chain + [NewEntry(cfg, userId, ids.tokenId, issueAt)], true)])
  {
    var f := t[head].familyId;
    var next := NewRow(cfg, userId, f, ids.tokenId, issueAt);
    var t' := Marked(t, head, ids.tokenId, writeAt)[ids.tokenId := next];
    var l' := l[f := Family(l[f].user, l[f].chain + [NewEntry(cfg, userId, ids.tokenId, issueAt)], true)];
    AppendToFamily(cfg, t, l, head, userId, ids, writeAt, issueAt);
    forall g | g in l && g != f ensures FamilyRefines(t', g, l[g]) { OtherFamily(t, l, head, writeAt, next, g); }
    forall i | i in t' ensures exists k :: At(l', t'[i].familyId, k, i) {
      if i == ids.tokenId {
        assert At(l', f, |l[f].chain|, i);
      } else {
        var k := Located(t, l, i);
        assert At(l', t'[i].familyId, k, i);
      }
    }
  }

  lemma OtherFamily(t: Table, l: Ledger, head: Id, writeAt: real, next: Row, g: Id)
    requires Refines(t, l) && head in t && g in l && g != t[head].familyId && next.id !in t
    ensures FamilyRefines(Marked(t, head, next.id, writeAt)[next.id := next], g, l[g])
  {
    var t' := Marked(t, head, next.id, writeAt)[next.id := next];
    assert FamilyRefines(t, g, l[g]);
    forall k | 0 <= k < |l[g].chain| ensures EntryRefines(t', g, l[g], k) { assert EntryRefines(t, g, l[g], k); }
  }

  lemma AppendToFamily(cfg: Config, t: Table, l: Ledger, head: Id, userId: Id, ids: Ids, writeAt: real, issueAt: real)
    requires Refines(t, l) && head in t && t[head].replacedBy.None? && t[head].userId == userId && ids.tokenId !in t
    requires t[head].familyId in l
    ensures var f := t[head].familyId;
            var row := NewRow(cfg, userId, f, ids.tokenId, issueAt);
            FamilyRefines(Marked(t, head, ids.tokenId, writeAt)[ids.tokenId := row], f,
                          Family(l[f].user, l[f].chain + [NewEntry(cfg, userId, ids.tokenId, issueAt)], true))
  {
    var f := t[head].familyId;
    var t' := Marked(t, head, ids.tokenId, writeAt)[ids.tokenId := NewRow(cfg, userId, f, ids.tokenId, issueAt)];
    var fam, n := l[f], |l[f].chain|;
    var fam' := Family(fam.user, fam.chain + [NewEntry(cfg, userId, ids.tokenId, issueAt)], true);
    var h := Located(t, l, head);
    assert FamilyRefines(t, f, fam);
    forall k | 0 <= k < n
      ensures EntryRefines(t', f, fam', k) && fam'.chain[k].id != ids.tokenId
    {
      assert EntryRefines(t, f, fam, k);
    }
    assert EntryRefines(t', f, fam', n);
  }

  /** The newest token of family `g` is revoked in `t'` exactly if `g` is `f` or it was so in `t`. */
  ghost predicate HeadCloses(t: Table, l: Ledger, t': Table, f: Option<Id>, g: Id)
    requires g in l
  {
    && |l[g].chain| > 0 && Last(l[g]).id in t && Last(l[g]).id in t'
    && (t'[Last(l[g]).id].revokedAt.Some? <==> f == Some(g) || t[Last(l[g]).id].revokedAt.Some?)
  }

  /** The same rows, but for some that are newly revoked or revoked again. */
  ghost predicate OnlyRevokes(t: Table, t': Table) {
    && t'.Keys == t.Keys
    && forall i | i in t ::
         t'[i] == t[i].(revokedAt := t'[i].revokedAt) && (t[i].revokedAt.Some? ==> t'[i].revokedAt.Some?)
  }

  function Closed(l: Ledger, f: Option<Id>): Ledger {
    if f.Some? && f.value in l then l[f.value := l[f.value].(open := false)] else l
  }

  lemma CloseFamily(t: Table, l: Ledger, t': Table, f: Option<Id>, g: Id)
    requires Refines(t, l) && OnlyRevokes(t, t') && g in l && HeadCloses(t, l, t', f, g)
    ensures FamilyRefines(t', g, Closed(l, f)[g])
  {
    assert FamilyRefines(t, g, l[g]);
    forall k | 0 <= k < |l[g].chain| ensures EntryRefines(t', g, Closed(l, f)[g], k) {
      assert EntryRefines(t, g, l[g], k);
    }
  }

  lemma CloseCovers(t: Table, l: Ledger, t': Table, f: Option<Id>, i: Id)
    requires Refines(t, l) && OnlyRevokes(t, t') && i in t'
    ensures exists k :: At(Closed(l, f), t'[i].familyId, k, i)
  {
    var k := Located(t, l, i);
    assert At(Closed(l, f), t'[i].familyId, k, i);
  }

  ghost predicate HeadsClose(t: Table, l: Ledger, t': Table, f: Option<Id>) {
    forall g | g in l :: HeadCloses(t, l, t', f, g)
  }

  /** A table in which only `revoked_at` is filled in, and of the newest tokens only that of `f`. */
  lemma CloseRefines(t: Table, l: Ledger, t': Table, f: Option<Id>)
    requires Refines(t, l) && OnlyRevokes(t, t') && HeadsClose(t, l, t', f)
    ensures Refines(t', Closed(l, f))
  {
    var l' := Closed(l, f);
    forall g | g in l' ensures FamilyRefines(t', g, l'[g]) {
      assert HeadCloses(t, l, t', f, g);
      CloseFamily(t, l, t', f, g);
    }
    forall i | i in t' ensures exists k :: At(l', t'[i].familyId, k, i) { CloseCovers(t, l, t', f, i); }
  }

  lemma FamilyRevokedHeads(t: Table, l: Ledger, f: Id, at: real)
    requires Refines(t, l)
    ensures HeadsClose(t, l, FamilyRevoked(t, f, at), Some(f))
  {
    forall g | g in l ensures HeadCloses(t, l, FamilyRevoked(t, f, at), Some(f), g) { HeadOf(t, l, g); }
  }

  lemma FamilyRevokedOnlyRevokes(t: Table, f: Id, at: real)
    ensures OnlyRevokes(t, FamilyRevoked(t, f, at))
  {
  }

  lemma FamilyRevokedRefines(t: Table, l: Ledger, f: Id, at: real)
    requires Refines(t, l)
    ensures Refines(FamilyRevoked(t, f, at), Closed(l, Some(f))) && ReplacedByOk(FamilyRevoked(t, f, at))
  {
    FamilyRevokedHeads(t, l, f, at);
    FamilyRevokedOnlyRevokes(t, f, at);
    CloseRefines(t, l, FamilyRevoked(t, f, at), Some(f));
    ConstraintsHold(FamilyRevoked(t, f, at), Closed(l, Some(f)));
  }

  lemma ReuseRefines(cfg: Config, users: Users, t: Table, l: Ledger, f: Id, ids: Ids, writeAt: real, issueAt: real)
    requires Refines(t, l)
    ensures var (t', answer) := Apply(cfg, users, t, Reuse(f), ids, writeAt, issueAt);
            && answer == ReuseDetected && t' == FamilyRevoked(t, f, writeAt)
            && Refines(t', ApplyLedger(cfg, l, Reuse(f), ids, issueAt, answer))
  {
    FamilyRevokedRefines(t, l, f, writeAt);
  }

  /** A logout revokes the newest token of a family exactly when it names it. */
  lemma RevokedHead(t: Table, l: Ledger, tokenId: Id, at: real, g: Id)
    requires Refines(t, l) && g in l
    ensures HeadCloses(t, l, Revoked(t, tokenId, at), HeadFamily(l, tokenId), g)
  {
    HeadOf(t, l, g);
    var f := HeadFamily(l, tokenId);
    if f.Some? { HeadOf(t, l, f.value); }
  }

  lemma RevokedHeads(t: Table, l: Ledger, tokenId: Id, at: real)
    requires Refines(t, l)
    ensures HeadsClose(t, l, Revoked(t, tokenId, at), HeadFamily(l, tokenId))
  {
    forall g | g in l ensures HeadCloses(t, l, Revoked(t, tokenId, at), HeadFamily(l, tokenId), g) {
      RevokedHead(t, l, tokenId, at, g);
    }
  }

  lemma RevokedOnlyRevokes(t: Table, tokenId: Id, at: real)
    ensures OnlyRevokes(t, Revoked(t, tokenId, at))
  {
  }

  lemma RevokedRefines(t: Table, l: Ledger, tokenId: Id, at: real)
    requires Refines(t, l)
    ensures Refines(Revoked(t, tokenId, at), Closed(l, HeadFamily(l, tokenId))) && ReplacedByOk(Revoked(t, tokenId, at))
  {
    RevokedHeads(t, l, tokenId, at);
    RevokedOnlyRevokes(t, tokenId, at);
    CloseRefines(t, l, Revoked(t, tokenId, at), HeadFamily(l, tokenId));
    ConstraintsHold(Revoked(t, tokenId, at), Closed(l, HeadFamily(l, tokenId)));
  }

  lemma RevokeRefines(cfg: Config, users: Users, t: Table, l: Ledger, tokenId: Id, ids: Ids, writeAt: real,
      issueAt: real)
    requires Refines(t, l)
    ensures var (t', answer) := Apply(cfg, users, t, Revoke(tokenId), ids, writeAt, issueAt);
            && answer == LoggedOut && t' == Revoked(t, tokenId, writeAt)
            && Refines(t', ApplyLedger(cfg, l, Revoke(tokenId), ids, issueAt, answer))
  {
    RevokedRefines(t, l, tokenId, writeAt);
  }

  /** Every plan, applied to any refined table, leaves a refined table. */
  lemma ApplyRefines(cfg: Config, users: Users, t: Table, l: Ledger, plan: Plan, ids: Ids, writeAt: real, issueAt: real)
    requires Refines(t, l) && PlanOk(users, t, plan)
    ensures var (t', answer) := Apply(cfg, users, t, plan, ids, writeAt, issueAt);
            Refines(t', ApplyLedger(cfg, l, plan, ids, issueAt, answer))
  {
    match plan
    case Reject(_) =>
    case Open(user) => OpenRefines(cfg, users, t, l, user, ids, writeAt, issueAt);
    case Rotate(row, user) => RotateRefines(cfg, users, t, l, row, user, ids, writeAt, issueAt);
    case Reuse(f) => ReuseRefines(cfg, users, t, l, f, ids, writeAt, issueAt);
    case Revoke(id) => RevokeRefines(cfg, users, t, l, id, ids, writeAt, issueAt);
  }
}
