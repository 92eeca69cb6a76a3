/** The `refresh_tokens` table: rows, the constraints the database enforces, and the session whose
    statements read and change it. */
module Persistence {
  import opened Common
  import opened Jwt

  datatype Row = Row(
    id: Id, userId: Id, familyId: Id, hash: Digest<Token>, issuedAt: real, expiresAt: real,
    revokedAt: Option<real>, replacedBy: Option<Id>)

  type Table = map<Id, Row>
  type Users = map<Id, UserAuthRecord>

  datatype DbError = PrimaryKey | UniqueHash | FamilyActive | UserKey | ReplacedByKey

  // ---------------------------------------------------------------- constraints

  /** `ix_refresh_tokens_family_active`: one row per family with `replaced_by IS NULL`. */
  predicate FamilyActiveOk(t: Table) {
    forall i, j | i in t && j in t && i != j && t[i].familyId == t[j].familyId ::
      t[i].replacedBy.Some? || t[j].replacedBy.Some?
  }

  /** The self reference, which is deferred to commit. */
  predicate ReplacedByOk(t: Table) {
    forall i | i in t && t[i].replacedBy.Some? :: t[i].replacedBy.value in t
  }

  // ---------------------------------------------------------------- statements

  function Marked(t: Table, id: Id, replacedBy: Id, revokedAt: real): Table {
    if id in t then t[id := t[id].(replacedBy := Some(replacedBy), revokedAt := Some(revokedAt))] else t
  }

  function MarkStatement(t: Table, id: Id, replacedBy: Id, revokedAt: real): Result<Table, DbError> {
    var t' := Marked(t, id, replacedBy, revokedAt);
    if FamilyActiveOk(t') then Success(t') else Failure(FamilyActive)
  }

  function InsertStatement(users: Users, t: Table, row: Row): Result<Table, DbError> {
    if row.id in t then Failure(PrimaryKey)
    else if exists i | i in t :: t[i].hash == row.hash then Failure(UniqueHash)
    else if !FamilyActiveOk(t[row.id := row]) then Failure(FamilyActive)
    else if row.userId !in users then Failure(UserKey)
    else Success(t[row.id := row])
  }

  function Revoked(t: Table, id: Id, revokedAt: real): Table {
    if id in t then t[id := t[id].(revokedAt := Some(revokedAt))] else t
  }

  predicate LiveIn(t: Table, familyId: Id, i: Id) {
    i in t && t[i].familyId == familyId && t[i].revokedAt.None?
  }

  function FamilyRevoked(t: Table, familyId: Id, revokedAt: real): Table {
    map i | i in t :: if LiveIn(t, familyId, i) then t[i].(revokedAt := Some(revokedAt)) else t[i]
  }

  ghost predicate HashTaken(t: Table, hash: Digest<Token>) {
    exists i | i in t :: t[i].hash == hash
  }

  ghost predicate HasUnreplaced(t: Table, familyId: Id) {
    exists i | i in t :: t[i].familyId == familyId && t[i].replacedBy.None?
  }

  /** The same rows before and after, all but one of them untouched. */
  ghost predicate OnlyRowChanges(t: Table, t': Table, id: Id) {
    t'.Keys == t.Keys && forall i | i in t && i != id :: t'[i] == t[i]
  }

  /** The result of a family query: all rows of the family, once each, oldest issue first. */
  ghost predicate IsFamilyState(t: Table, familyId: Id, rows: seq<Row>) {
    && (forall r | r in rows :: r.id in t && t[r.id] == r && r.familyId == familyId)
    && (forall i | i in t && t[i].familyId == familyId :: t[i] in rows)
    && (forall j, k | 0 <= j < k < |rows| :: rows[j].issuedAt <= rows[k].issuedAt && rows[j].id != rows[k].id)
  }

  /** Primary keys name their rows. */
  ghost predicate Keyed(t: Table) {
    forall i | i in t :: t[i].id == i
  }

  // ---------------------------------------------------------------- the session

  /** One transaction over the shared table: `working` is what its statements see and change,
      `committed` is what everybody else sees. */
  class Session {
    var users: Users
    var committed: Table
    var working: Table

    ghost predicate Idle()
      reads this
    {
      working == committed
    }

    constructor (users: Users)
      ensures Idle() && committed == map[] && this.users == users
    {
      this.users := users;
      committed, working := map[], map[];
    }

    method Rollback()
      modifies this`working
      ensures Idle()
    {
      working := committed;
    }

    method Commit() returns (ok: bool)
      modifies this`committed, this`working
      ensures Idle() && ok == ReplacedByOk(old(working))
      ensures committed == if ok then old(working) else old(committed)
    {
      ok := ReplacedByOk(working);
      if ok { committed := working; } else { working := committed; }
    }

    method GetUserById(userId: Id) returns (user: Option<UserAuthRecord>)
      ensures user == if userId in users then Some(users[userId]) else None
    {
      if userId in users { user := Some(users[userId]); } else { user := None; }
    }

    method GetUserByEmail(email: string) returns (user: Option<UserAuthRecord>)
      ensures user.None? ==> forall i | i in users :: users[i].email != email
      ensures user.Some? ==> user.value.email == email && exists i :: i in users && users[i] == user.value
    {
      if i :| i in users && users[i].email == email { user := Some(users[i]); } else { user := None; }
    }

    method GetRefreshTokenById(tokenId: Id) returns (row: Option<Row>)
      ensures row == if tokenId in working then Some(working[tokenId]) else None
    {
      if tokenId in working { row := Some(working[tokenId]); } else { row := None; }
    }

    /** One new row and nothing else, unless a constraint forbids it; the error then names the first
        constraint that does. */
    method InsertRefreshToken(row: Row) returns (r: Result<Row, DbError>)
      modifies this`working
      ensures r.Success? ==> r.value == row && row.id !in old(working) && working == old(working)[row.id := row]
      ensures r.Failure? ==> working == old(working)
      ensures r == Failure(PrimaryKey) <==> row.id in old(working)
      ensures r == Failure(UniqueHash) <==> row.id !in old(working) && HashTaken(old(working), row.hash)
      ensures FamilyActiveOk(old(working)) ==>
                (r == Failure(FamilyActive) <==>
                  && row.id !in old(working) && !HashTaken(old(working), row.hash)
                  && row.replacedBy.None? && HasUnreplaced(old(working), row.familyId))
      ensures FamilyActiveOk(old(working)) ==>
                (r == Failure(UserKey) <==>
                  && row.id !in old(working) && !HashTaken(old(working), row.hash)
                  && !(row.replacedBy.None? && HasUnreplaced(old(working), row.familyId)) && row.userId !in users)
      ensures r.Success? ==> row.userId in users && FamilyActiveOk(working)
      ensures r != Failure(ReplacedByKey)
      ensures r == (match InsertStatement(users, old(working), row)
                    case Success(_) => Success(row)
                    case Failure(e) => Failure(e))
    {
      if row.id in working { return Failure(PrimaryKey); }
      if exists i | i in working :: working[i].hash == row.hash { return Failure(UniqueHash); }
      var changed := working[row.id := row];
      InsertedIndex(working, row);
      if !FamilyActiveOk(changed) { return Failure(FamilyActive); }
      if row.userId !in users { return Failure(UserKey); }
      working := changed;
      r := Success(row);
    }

    /** Update by id only: the row gets both values, whatever it held, and no other row changes. The
        index cannot stop it, because the update leaves its family with fewer unreplaced rows. */
    method MarkRefreshTokenReplaced(tokenId: Id, replacedBy: Id, revokedAt: real)
      returns (r: Result<Option<Row>, DbError>)
      modifies this`working
      ensures FamilyActiveOk(old(working)) ==> r.Success?
      ensures r.Success? ==> OnlyRowChanges(old(working), working, tokenId)
      ensures r.Success? && tokenId in old(working) ==>
                && working[tokenId]
                   == old(working)[tokenId].(replacedBy := Some(replacedBy), revokedAt := Some(revokedAt))
                && r.value == Some(working[tokenId])
      ensures r.Success? && tokenId !in old(working) ==> r.value == None
      ensures r.Failure? ==> working == old(working) && r.error == FamilyActive
      ensures r.Success? <==> MarkStatement(old(working), tokenId, replacedBy, revokedAt).Success?
      ensures r.Success? ==> working == Marked(old(working), tokenId, replacedBy, revokedAt)
    {
      var changed := working;
      if tokenId in working {
        changed := working[tokenId := working[tokenId].(replacedBy := Some(replacedBy), revokedAt := Some(revokedAt))];
      }
      if !FamilyActiveOk(changed) { return Failure(FamilyActive); }
      working := changed;
      r := Success(if tokenId in working then Some(working[tokenId]) else None);
    }

    /** Update by id only: `revoked_at` is overwritten, and no other field and no other row changes. */
    method RevokeRefreshToken(tokenId: Id, revokedAt: real) returns (row: Option<Row>)
      modifies this`working
      ensures OnlyRowChanges(old(working), working, tokenId)
      ensures tokenId in old(working) ==>
                && working[tokenId] == old(working)[tokenId].(revokedAt := Some(revokedAt))
                && row == Some(working[tokenId])
      ensures tokenId !in old(working) ==> row == None
      ensures working == Revoked(old(working), tokenId, revokedAt)
    {
      if tokenId !in working { return None; }
      working := working[tokenId := working[tokenId].(revokedAt := Some(revokedAt))];
      row := Some(working[tokenId]);
    }

    method RevokeRefreshTokenFamily(familyId: Id, revokedAt: real) returns (count: nat)
      modifies this`working
      ensures working.Keys == old(working).Keys
      ensures forall i | i in old(working) ::
                var row := old(working)[i];
                working[i] == if row.familyId == familyId && row.revokedAt.None? then row.(revokedAt := Some(revokedAt))
                              else row
      ensures working == FamilyRevoked(old(working), familyId, revokedAt)
      ensures count == |set i | i in old(working) && LiveIn(old(working), familyId, i)|
    {
      var hits := set i | i in working && LiveIn(working, familyId, i);
      working := map i | i in working :: if i in hits then working[i].(revokedAt := Some(revokedAt)) else working[i];
      count := |hits|;
    }

    /** `ORDER BY issued_at`: repeatedly take an oldest remaining row. */
    method GetRefreshTokenFamilyState(familyId: Id) returns (rows: seq<Row>)
      requires Keyed(working)
      ensures IsFamilyState(working, familyId, rows)
    {
      rows := [];
      var todo := set i | i in working && working[i].familyId == familyId;
      while todo != {}
        invariant StateSoFar(working, familyId, todo, rows)
        decreases todo
      {
        OldestExists(working, todo);
        var m :| m in todo && forall i | i in todo :: working[m].issuedAt <= working[i].issuedAt;
        StateGrows(working, familyId, todo, rows, m);
        rows := rows + [working[m]];
        todo := todo - {m};
      }
    }
  }

  /** In terms of rows: an insert breaks the index exactly when it would be a second unreplaced row. */
  lemma InsertedIndex(t: Table, row: Row)
    requires row.id !in t
    ensures FamilyActiveOk(t) ==>
              (FamilyActiveOk(t[row.id := row]) <==> !(row.replacedBy.None? && HasUnreplaced(t, row.familyId)))
  {
    var t' := t[row.id := row];
    if row.replacedBy.None? && HasUnreplaced(t, row.familyId) {
      var i :| i in t && t[i].familyId == row.familyId && t[i].replacedBy.None?;
      assert i in t' && row.id in t' && i != row.id;
    }
  }

  lemma {:induction false} OldestExists(t: Table, s: set<Id>)
    requires s != {} && s <= t.Keys
    ensures exists m :: m in s && forall i | i in s :: t[m].issuedAt <= t[i].issuedAt
  {
    var x :| x in s;
    if s != {x} {
      OldestExists(t, s - {x});
      var y :| y in s - {x} && forall i | i in s - {x} :: t[y].issuedAt <= t[i].issuedAt;
      var m := if t[x].issuedAt <= t[y].issuedAt then x else y;
      assert forall i | i in s :: i == x || i in s - {x};
      assert m in s && forall i | i in s :: t[m].issuedAt <= t[i].issuedAt;
    }
  }

  /** Sorting in progress: `rows` is a sorted family query over the rows not in `todo`, and none of
      the rows in `todo` is older than any of them. */
  ghost predicate StateSoFar(t: Table, familyId: Id, todo: set<Id>, rows: seq<Row>) {
    && (forall i | i in todo :: i in t && t[i].familyId == familyId)
    && (forall k | 0 <= k < |rows| ::
          rows[k].id in t && rows[k].id !in todo && t[rows[k].id] == rows[k] && rows[k].familyId == familyId)
    && (forall i | i in t && t[i].familyId == familyId :: i in todo || t[i] in rows)
    && (forall j, k | 0 <= j < k < |rows| :: rows[j].issuedAt <= rows[k].issuedAt && rows[j].id != rows[k].id)
    && (forall k, i | 0 <= k < |rows| && i in todo :: rows[k].issuedAt <= t[i].issuedAt)
  }

  lemma StateGrows(t: Table, familyId: Id, todo: set<Id>, rows: seq<Row>, m: Id)
    requires Keyed(t) && StateSoFar(t, familyId, todo, rows)
    requires m in todo && forall i | i in todo :: t[m].issuedAt <= t[i].issuedAt
    ensures StateSoFar(t, familyId, todo - {m}, rows + [t[m]])
  {
    var rows' := rows + [t[m]];
    forall i | i in t && t[i].familyId == familyId
      ensures i in todo - {m} || t[i] in rows'
    {
      if i == m { assert rows'[|rows|] == t[i]; }
      else if i !in todo { var k :| 0 <= k < |rows| && rows[k] == t[i]; assert rows'[k] == t[i]; }
    }
  }
}
