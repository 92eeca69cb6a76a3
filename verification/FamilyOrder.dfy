/** `get_refresh_token_family_state` sorts by `issued_at`: exactly when that is the replacement order. */
module FamilyOrder {
  import opened Common
  import opened Jwt
  import opened Persistence
  import opened Rotation
  import opened Ledgers
  import opened Interleaved

  // ---------------------------------------------------------------- the issue times of a family

  /** Event `e` adds a row to family `f`. */
  ghost predicate AddsRow(cfg: Config, s: State, e: Event, f: Id) {
    var t' := Next(cfg, s, e).0.tokens;
    e.Finish? && exists i | i in t' :: i !in s.tokens && t'[i].familyId == f
  }

  ghost function StepTimes(cfg: Config, s: State, e: Event, f: Id): seq<real> {
    if AddsRow(cfg, s, e, f) then [e.issueAt] else []
  }

  /** The issue times of the requests that add a row to family `f`, in the order they commit. */
  ghost function IssueTimes(cfg: Config, s: State, events: seq<Event>, f: Id): seq<real>
    decreases |events|
  {
    if events == [] then []
    else StepTimes(cfg, s, events[0], f) + IssueTimes(cfg, Next(cfg, s, events[0]).0, events[1..], f)
  }

  ghost predicate Increasing(times: seq<real>) {
    forall j, k | 0 <= j < k < |times| :: times[j] < times[k]
  }

  function ChainTimes(chain: seq<Entry>): seq<real> {
    seq(|chain|, k requires 0 <= k < |chain| => chain[k].issuedAt)
  }

  ghost function Times(l: Ledger, f: Id): seq<real> {
    if f in l then ChainTimes(l[f].chain) else []
  }

  /** A request that is answered with tokens adds one row, and any other adds none. */
  ghost predicate Adds(t: Table, l: Ledger, plan: Plan, ids: Ids, issueAt: real, t': Table, l': Ledger, answer: Answer,
      f: Id)
  {
    if answer.Issued? && (plan.Open? || plan.Rotate?) then
      && ids.tokenId !in t && t'.Keys == t.Keys + {ids.tokenId} && t'[ids.tokenId].familyId == Target(t, plan, ids)
      && Times(l', f) == Times(l, f) + if Target(t, plan, ids) == f then [issueAt] else []
    else t'.Keys == t.Keys && Times(l', f) == Times(l, f)
  }

  lemma OpenKeys(cfg: Config, users: Users, t: Table, l: Ledger, user: UserAuthRecord, ids: Ids, writeAt: real,
      issueAt: real)
    requires Refines(t, l) && user.id in users
    ensures var (t', answer) := Apply(cfg, users, t, Open(user), ids, writeAt, issueAt);
            && (answer.Issued? || answer.IntegrityError?)
            && (answer.IntegrityError? ==> t' == t)
            && (answer.Issued? ==>
                && ids.familyId !in l && ids.tokenId !in t && t'.Keys == t.Keys + {ids.tokenId}
                && t'[ids.tokenId].familyId == ids.familyId)
  {
    OpenRefines(cfg, users, t, l, user, ids, writeAt, issueAt);
    ErrorRollsBack(cfg, users, t, Open(user), ids, writeAt, issueAt);
  }

  lemma OpenAdds(cfg: Config, users: Users, t: Table, l: Ledger, user: UserAuthRecord, ids: Ids, writeAt: real,
      issueAt: real, f: Id)
    requires Refines(t, l) && user.id in users
    ensures var (t', answer) := Apply(cfg, users, t, Open(user), ids, writeAt, issueAt);
            Adds(t, l, Open(user), ids, issueAt, t', ApplyLedger(cfg, l, Open(user), ids, issueAt, answer), answer, f)
  {
    OpenKeys(cfg, users, t, l, user, ids, writeAt, issueAt);
  }

  lemma AppendTimes(l: Ledger, g: Id, user: Id, entry: Entry, f: Id)
    requires g in l
    ensures Times(l[g := Family(user, l[g].chain + [entry], true)], f)
         == Times(l, f) + if g == f then [entry.issuedAt] else []
  {
  }

  lemma RotateAdds(cfg: Config, users: Users, t: Table, l: Ledger, row: Row, user: UserAuthRecord, ids: Ids,
      writeAt: real, issueAt: real, f: Id)
    requires Refines(t, l) && PlanOk(users, t, Rotate(row, user))
    ensures var plan := Rotate(row, user);
            var (t', answer) := Apply(cfg, users, t, plan, ids, writeAt, issueAt);
            Adds(t, l, plan, ids, issueAt, t', ApplyLedger(cfg, l, plan, ids, issueAt, answer), answer, f)
  {
    RotateKeys(cfg, users, t, l, row, user, ids, writeAt, issueAt);
    AppendTimes(l, row.familyId, l[row.familyId].user, NewEntry(cfg, user.id, ids.tokenId, issueAt), f);
  }

  lemma RotateKeys(cfg: Config, users: Users, t: Table, l: Ledger, row: Row, user: UserAuthRecord, ids: Ids,
      writeAt: real, issueAt: real)
    requires Refines(t, l) && PlanOk(users, t, Rotate(row, user))
    ensures var (t', answer) := Apply(cfg, users, t, Rotate(row, user), ids, writeAt, issueAt);
            && row.familyId in l && (answer.Issued? || answer.IntegrityError?)
            && (answer.IntegrityError? ==> t'.Keys == t.Keys)
            && (answer.Issued? ==>
                ids.tokenId !in t && t'.Keys == t.Keys + {ids.tokenId} && t'[ids.tokenId].familyId == row.familyId)
  {
    RotateRefines(cfg, users, t, l, row, user, ids, writeAt, issueAt);
    ErrorRollsBack(cfg, users, t, Rotate(row, user), ids, writeAt, issueAt);
    var k := Located(t, l, row.id);
  }

  lemma RevocationAdds(cfg: Config, users: Users, t: Table, l: Ledger, plan: Plan, ids: Ids, writeAt: real,
      issueAt: real, f: Id)
    requires !plan.Open? && !plan.Rotate?
    ensures var (t', answer) := Apply(cfg, users, t, plan, ids, writeAt, issueAt);
            Adds(t, l, plan, ids, issueAt, t', ApplyLedger(cfg, l, plan, ids, issueAt, answer), answer, f)
  {
  }

  lemma ApplyAdds(cfg: Config, users: Users, t: Table, l: Ledger, plan: Plan, ids: Ids, writeAt: real, issueAt: real,
      f: Id)
    requires Refines(t, l) && PlanOk(users, t, plan)
    ensures var (t', answer) := Apply(cfg, users, t, plan, ids, writeAt, issueAt);
            Adds(t, l, plan, ids, issueAt, t', ApplyLedger(cfg, l, plan, ids, issueAt, answer), answer, f)
  {
    match plan
    case Open(user) => OpenAdds(cfg, users, t, l, user, ids, writeAt, issueAt, f);
    case Rotate(row, user) => RotateAdds(cfg, users, t, l, row, user, ids, writeAt, issueAt, f);
    case _ => RevocationAdds(cfg, users, t, l, plan, ids, writeAt, issueAt, f);
  }

  /** A family's chain in the ledger records just those times. */
  lemma TimesNext(cfg: Config, s: State, l: Ledger, e: Event, f: Id)
    requires Good(s, l)
    ensures Times(NextLedger(cfg, s, l, e), f) == Times(l, f) + StepTimes(cfg, s, e, f)
  {
    if e.Finish? && e.req in s.inflight {
      var plan := s.inflight[e.req];
      assert PlanOk(s.users, s.tokens, plan);
      ApplyAdds(cfg, s.users, s.tokens, l, plan, e.ids, e.writeAt, e.issueAt, f);
    }
  }

  lemma {:induction false} TimesAfter(cfg: Config, s: State, l: Ledger, events: seq<Event>, f: Id)
    requires Good(s, l)
    ensures Times(LedgerAfter(cfg, s, l, events), f) == Times(l, f) + IssueTimes(cfg, s, events, f)
    decreases |events|
  {
    if events != [] {
      NextGood(cfg, s, l, events[0]);
      TimesNext(cfg, s, l, events[0], f);
      TimesAfter(cfg, Next(cfg, s, events[0]).0, NextLedger(cfg, s, l, events[0]), events[1..], f);
      Regroup(Times(l, f), StepTimes(cfg, s, events[0], f), IssueTimes(cfg, Next(cfg, s, events[0]).0, events[1..], f));
    }
  }

  lemma Regroup(a: seq<real>, b: seq<real>, c: seq<real>)
    ensures a + b + c == a + (b + c)
  {
  }

  /** The rows of a chain carry the issue times of its family. */
  lemma ChainCarriesTimes(t: Table, l: Ledger, f: Id, c: seq<Id>)
    requires Refines(t, l) && IsChain(t, f, c)
    ensures |c| == |Times(l, f)| && forall k | 0 <= k < |c| :: t[c[k]].issuedAt == Times(l, f)[k]
  {
    var k0 := Located(t, l, c[0]);
    RefinedIsChain(t, l, f);
    ChainIsUnique(t, f, c, ChainIds(l[f].chain));
    forall k | 0 <= k < |c| ensures t[c[k]].issuedAt == l[f].chain[k].issuedAt {
      assert FamilyRefines(t, f, l[f]) && EntryRefines(t, f, l[f], k);
    }
  }

  // ---------------------------------------------------------------- sorting a chain

  /** If the first `m` rows are the first `m` of the chain, so is the next one. */
  lemma NextIsSame(t: Table, f: Id, c: seq<Id>, rows: seq<Row>, m: nat)
    requires IsChain(t, f, c) && IsFamilyState(t, f, rows) && Keyed(t) && m < |c| && m < |rows|
    requires forall j, k | 0 <= j < k < |c| :: t[c[j]].issuedAt < t[c[k]].issuedAt
    requires forall k | 0 <= k < m :: rows[k].id == c[k]
    ensures rows[m].id == c[m]
  {
    assert rows[m] in rows;
    assert rows[m].id in c;
    var p :| 0 <= p < |c| && c[p] == rows[m].id;
    assert p >= m;
    assert t[c[m]] in rows;
    var q :| 0 <= q < |rows| && rows[q] == t[c[m]];
    assert rows[q].id == c[m];
    assert q >= m;
    assert rows[m].issuedAt <= rows[q].issuedAt;
    assert t[c[p]].issuedAt <= t[c[m]].issuedAt;
  }

  /** Two enumerations of the same rows that both increase are equal, if one of them does strictly. */
  lemma {:induction false} SameOrder(t: Table, f: Id, c: seq<Id>, rows: seq<Row>, n: nat)
    requires IsChain(t, f, c) && IsFamilyState(t, f, rows) && Keyed(t)
    requires forall j, k | 0 <= j < k < |c| :: t[c[j]].issuedAt < t[c[k]].issuedAt
    requires n <= |c| && n <= |rows|
    ensures forall k | 0 <= k < n :: rows[k].id == c[k]
  {
    if n > 0 {
      SameOrder(t, f, c, rows, n - 1);
      NextIsSame(t, f, c, rows, n - 1);
    }
  }

  lemma SameLength(t: Table, f: Id, c: seq<Id>, rows: seq<Row>)
    requires IsChain(t, f, c) && IsFamilyState(t, f, rows) && Keyed(t)
    ensures |c| == |rows|
  {
    var ids := seq(|rows|, k requires 0 <= k < |rows| => rows[k].id);
    var a, b := Members(c), Members(ids);
    forall i | i in a ensures i in b {
      var q :| 0 <= q < |rows| && rows[q] == t[i];
      assert ids[q] == i;
    }
    forall i | i in b ensures i in a {
      var q :| 0 <= q < |ids| && ids[q] == i;
      assert rows[q] in rows;
    }
    assert a == b;
    DistinctSize(c);
    DistinctSize(ids);
  }

  function Members(c: seq<Id>): set<Id> {
    set i | i in c
  }

  lemma {:induction false} DistinctSize(c: seq<Id>)
    requires forall j, k | 0 <= j < k < |c| :: c[j] != c[k]
    ensures |Members(c)| == |c|
  {
    if c != [] {
      var n := |c| - 1;
      DistinctSize(c[..n]);
      assert c[n] !in Members(c[..n]);
      assert Members(c) == Members(c[..n]) + {c[n]};
    }
  }

  ghost predicate Follows(rows: seq<Row>, c: seq<Id>) {
    |rows| == |c| && forall k | 0 <= k < |rows| :: rows[k].id == c[k]
  }

  /** Whichever order the database gives equal keys, the family query returns the chain `c`. */
  ghost predicate SortGives(t: Table, f: Id, c: seq<Id>) {
    forall rows | IsFamilyState(t, f, rows) :: Follows(rows, c)
  }

  ghost predicate Strict(t: Table, c: seq<Id>)
    requires forall i | i in c :: i in t
  {
    forall j, k | 0 <= j < k < |c| :: t[c[j]].issuedAt < t[c[k]].issuedAt
  }

  /** A sort in progress can be finished. */
  lemma {:induction false} StateExists(t: Table, f: Id, todo: set<Id>, rows: seq<Row>) returns (all: seq<Row>)
    requires Keyed(t) && StateSoFar(t, f, todo, rows)
    ensures IsFamilyState(t, f, all)
    decreases todo
  {
    all := rows;
    if todo != {} {
      OldestExists(t, todo);
      var m :| m in todo && forall i | i in todo :: t[m].issuedAt <= t[i].issuedAt;
      StateGrows(t, f, todo, rows, m);
      all := StateExists(t, f, todo - {m}, rows + [t[m]]);
    }
  }

  /** Two neighbours with equal keys may come in either order. */
  lemma SwapIsState(t: Table, f: Id, rows: seq<Row>, k: nat)
    requires IsFamilyState(t, f, rows) && k + 1 < |rows| && rows[k].issuedAt == rows[k + 1].issuedAt
    ensures IsFamilyState(t, f, rows[k := rows[k + 1]][k + 1 := rows[k]])
  {
    var swapped := rows[k := rows[k + 1]][k + 1 := rows[k]];
    forall r | r in rows ensures r in swapped {
      var q :| 0 <= q < |rows| && rows[q] == r;
      assert swapped[if q == k then k + 1 else if q == k + 1 then k else q] == r;
    }
  }

  /** The query is certain to return the chain only if issue times increase along it. */
  lemma CertainMeansStrict(t: Table, f: Id, c: seq<Id>)
    requires IsChain(t, f, c) && Keyed(t) && SortGives(t, f, c)
    ensures Strict(t, c)
  {
    var rows := StateExists(t, f, set i | i in t && t[i].familyId == f, []);
    assert Follows(rows, c);
    forall k | 0 <= k < |c| - 1 ensures t[c[k]].issuedAt < t[c[k + 1]].issuedAt {
      NeighboursDiffer(t, f, c, rows, k);
    }
    StepsMakeStrict(t, c);
  }

  lemma RowOfChain(t: Table, f: Id, c: seq<Id>, rows: seq<Row>, k: nat)
    requires IsFamilyState(t, f, rows) && Follows(rows, c) && k < |c|
    ensures c[k] in t && rows[k] == t[c[k]]
  {
    assert rows[k] in rows;
  }

  lemma NeighboursDiffer(t: Table, f: Id, c: seq<Id>, rows: seq<Row>, k: nat)
    requires IsChain(t, f, c) && SortGives(t, f, c) && IsFamilyState(t, f, rows) && k + 1 < |c|
    ensures t[c[k]].issuedAt < t[c[k + 1]].issuedAt
  {
    assert Follows(rows, c);
    RowOfChain(t, f, c, rows, k);
    RowOfChain(t, f, c, rows, k + 1);
    if rows[k].issuedAt == rows[k + 1].issuedAt {
      SwapIsState(t, f, rows, k);
      SwapDiffers(c, rows, k);
    }
  }

  lemma SwapDiffers(c: seq<Id>, rows: seq<Row>, k: nat)
    requires Follows(rows, c) && k + 1 < |rows| && rows[k].id != rows[k + 1].id
    ensures !Follows(rows[k := rows[k + 1]][k + 1 := rows[k]], c)
  {
    assert rows[k := rows[k + 1]][k + 1 := rows[k]][k] == rows[k + 1];
  }

  lemma {:induction false} StepsMakeStrict(t: Table, c: seq<Id>)
    requires forall i | i in c :: i in t
    requires forall k | 0 <= k < |c| - 1 :: t[c[k]].issuedAt < t[c[k + 1]].issuedAt
    ensures Strict(t, c)
  {
    if c != [] {
      var d := c[..|c| - 1];
      StepsMakeStrict(t, d);
      forall j, k | 0 <= j < k < |c| ensures t[c[j]].issuedAt < t[c[k]].issuedAt {
        if j < k - 1 { assert t[d[j]].issuedAt < t[d[k - 1]].issuedAt; }
      }
    }
  }

  /** The query is certain to return the chain if and only if issue times increase along it. */
  lemma SortGivesIff(t: Table, f: Id, c: seq<Id>)
    requires IsChain(t, f, c) && Keyed(t)
    ensures SortGives(t, f, c) <==> Strict(t, c)
  {
    if Strict(t, c) {
      forall rows | IsFamilyState(t, f, rows) ensures Follows(rows, c) {
        SameLength(t, f, c, rows);
        SameOrder(t, f, c, rows, |c|);
      }
    }
    if SortGives(t, f, c) { CertainMeansStrict(t, f, c); }
  }

  /** The family query is certain to return the replacement chain, first token first and the unreplaced
      one last, if and only if the requests that added a row to this family did so at increasing
      times. Stated for every interleaving, hence for serial runs too. */
  lemma SortIsChainOrder(cfg: Config, users: Users, events: seq<Event>, f: Id, c: seq<Id>)
    requires ValidUsers(users) && IsChain(After(cfg, Empty(users), events).tokens, f, c)
    ensures SortGives(After(cfg, Empty(users), events).tokens, f, c)
            <==> Increasing(IssueTimes(cfg, Empty(users), events, f))
  {
    var s := Empty(users);
    assert Good(s, map[]);
    AfterGood(cfg, s, map[], events);
    TimesAfter(cfg, s, map[], events, f);
    var t, l := After(cfg, s, events).tokens, LedgerAfter(cfg, s, map[], events);
    assert Times(map[], f) + IssueTimes(cfg, s, events, f) == IssueTimes(cfg, s, events, f);
    ConstraintsHold(t, l);
    StrictIffIncreasing(t, l, f, c);
    SortGivesIff(t, f, c);
  }

  lemma StrictIffIncreasing(t: Table, l: Ledger, f: Id, c: seq<Id>)
    requires Refines(t, l) && IsChain(t, f, c)
    ensures Strict(t, c) <==> Increasing(Times(l, f))
  {
    ChainCarriesTimes(t, l, f, c);
    var times := Times(l, f);
    if Strict(t, c) {
      forall j, k | 0 <= j < k < |times| ensures times[j] < times[k] { assert t[c[j]].issuedAt < t[c[k]].issuedAt; }
    }
    if Increasing(times) {
      forall j, k | 0 <= j < k < |c| ensures t[c[j]].issuedAt < t[c[k]].issuedAt { assert times[j] < times[k]; }
    }
  }
}
