/** The idempotency store: a key moves from absent to in flight to done under a lease that only its
    deadline ends. `Begin` is two Redis commands, between which other clients may run. */
module Idempotency {
  import opened Common

  datatype Record = New | InFlight | Done(responseHash: string)

  datatype Entry = Entry(value: string, deadline: real)

  type Store = map<string, Entry>

  const IN_FLIGHT := "in_flight"
  const DONE := "done:"

  function RedisKey(key: string): string { "idem:" + key }

  /** What `get` makes of a stored value. */
  function Decode(value: string): Option<Record> {
    if value == IN_FLIGHT then Some(InFlight)
    else if DONE <= value then Some(Done(value[|DONE|..]))
    else None
  }

  /** SET key in_flight NX EX ttl. */
  function SetNx(store: Store, redisKey: string, ttl: int, now: real): (Store, bool) {
    if redisKey in store then (store, false) else (store[redisKey := Entry(IN_FLIGHT, now + ttl as real)], true)
  }

  /** SET key value XX KEEPTTL. */
  function SetXx(store: Store, redisKey: string, value: string): Store {
    if redisKey in store then store[redisKey := store[redisKey].(value := value)] else store
  }

  function Lookup(store: Store, redisKey: string): Option<Record> {
    if redisKey in store then Decode(store[redisKey].value) else None
  }

  /** The second command of `begin`: what another client's key says, or in flight if it is gone. */
  function Fallback(found: Option<Record>): Record {
    match found case Some(r) => r case None => InFlight
  }

  datatype RedisError = InvalidExpireTime

  class RedisIdempotencyStore {
    var store: Store

    constructor ()
      ensures store == map[]
    {
      store := map[];
    }

    method Get(key: string) returns (r: Option<Record>)
      ensures r == Lookup(store, RedisKey(key))
      ensures var k := "idem:" + key;
              && (r == Some(InFlight) <==> k in store && store[k].value == "in_flight")
              && (forall hash :: r == Some(Done(hash)) <==> k in store && store[k].value == "done:" + hash)
              && r != Some(New)
    {
      var redisKey := RedisKey(key);
      if redisKey !in store { return None; }
      var value := store[redisKey].value;
      forall hash { DecodeInvertsEncode(value, hash); }
      if value == IN_FLIGHT { return Some(InFlight); }
      if DONE <= value { return Some(Done(value[|DONE|..])); }
      r := None;
    }

    /** Both commands with nothing between them. */
    method Begin(key: string, ttl: int, now: real) returns (r: Result<Record, RedisError>)
      modifies this
      ensures ttl <= 0 ==> r == Failure(InvalidExpireTime) && store == old(store)
      ensures var k := "idem:" + key;
              && (ttl > 0 && k !in old(store) ==> store == old(store)[k := Entry("in_flight", now + ttl as real)])
              && (k in old(store) ==> store == old(store))
              && (r == Success(New) <==> ttl > 0 && k !in old(store))
      ensures ttl > 0 ==> store == SetNx(old(store), RedisKey(key), ttl, now).0
      ensures ttl > 0 ==>
                r == Success(if RedisKey(key) in old(store) then Fallback(Lookup(old(store), RedisKey(key))) else New)
    {
      if ttl <= 0 { return Failure(InvalidExpireTime); }
      var success;
      store, success := SetNx(store, RedisKey(key), ttl, now).0, SetNx(store, RedisKey(key), ttl, now).1;
      if success { return Success(New); }
      var found := Get(key);
      r := Success(match found case Some(record) => record case None => InFlight);
    }

    method Complete(key: string, responseHash: string)
      modifies this
      ensures var k := "idem:" + key;
              store == if k in old(store) then old(store)[k := Entry("done:" + responseHash, old(store)[k].deadline)]
                       else old(store)
      ensures store == SetXx(old(store), RedisKey(key), DONE + responseHash)
    {
      var redisKey := RedisKey(key);
      if redisKey in store { store := store[redisKey := store[redisKey].(value := DONE + responseHash)]; }
    }
  }

  // ---------------------------------------------------------------- the encoding

  /** Decoding inverts the encoding for every response hash, even an empty one or one that reads
      `in_flight`, and it accepts nothing else. */
  lemma DecodeInvertsEncode(value: string, hash: string)
    ensures Decode(value) == Some(InFlight) <==> value == IN_FLIGHT
    ensures Decode(value) == Some(Done(hash)) <==> value == DONE + hash
    ensures Decode(value) != Some(New)
  {
    assert (DONE + hash)[0] != IN_FLIGHT[0];
    assert (DONE + hash)[|DONE|..] == hash;
    if DONE <= value { assert value == DONE + value[|DONE|..]; }
  }

  lemma KeysStayApart(a: string, b: string)
    ensures RedisKey(a) == RedisKey(b) ==> a == b
  {
    assert RedisKey(a)[5..] == a && RedisKey(b)[5..] == b;
  }

  // ---------------------------------------------------------------- interleaved clients

  datatype State = State(store: Store, now: real, waiting: map<nat, string>)

  /** A completion carries the number of the event that won what it completes; the store never sees it. */
  datatype Event =
    | BeginSet(client: nat, key: string, ttl: int)
    | BeginGet(client: nat)
    | Complete(win: nat, key: string, hash: string)
    | Read(key: string)
    | Tick(dt: real)
    | Expire(key: string)

  function Next(s: State, e: Event): (State, Option<Record>) {
    match e
    case BeginSet(client, key, ttl) =>
      if client in s.waiting || ttl <= 0 then (s, None)
      else
        var (store, success) := SetNx(s.store, RedisKey(key), ttl, s.now);
        if success then (s.(store := store), Some(New)) else (s.(waiting := s.waiting[client := key]), None)
    case BeginGet(client) =>
      if client !in s.waiting then (s, None)
      else (s.(waiting := s.waiting - {client}), Some(Fallback(Lookup(s.store, RedisKey(s.waiting[client])))))
    case Complete(_, key, hash) => (s.(store := SetXx(s.store, RedisKey(key), DONE + hash)), None)
    case Read(key) => (s, Lookup(s.store, RedisKey(key)))
    case Tick(dt) => (if dt >= 0.0 then s.(now := s.now + dt) else s, None)
    case Expire(key) =>
      var k := RedisKey(key);
      (if k in s.store && s.store[k].deadline <= s.now then s.(store := s.store - {k}) else s, None)
  }

  const EMPTY := State(map[], 0.0, map[])

  /** The state before event `i` of a run. */
  function At(events: seq<Event>, i: nat): State
    requires i <= |events|
  {
    if i == 0 then EMPTY else Next(At(events, i - 1), events[i - 1]).0
  }

  function Answer(events: seq<Event>, i: nat): Option<Record>
    requires i < |events|
  {
    Next(At(events, i), events[i]).1
  }

  predicate Alive(events: seq<Event>, key: string, i: nat)
    requires i <= |events|
  {
    RedisKey(key) in At(events, i).store
  }

  /** Event `i` wins the key: a `begin` answered `new`. */
  predicate Wins(events: seq<Event>, key: string, i: nat)
    requires i < |events|
  {
    events[i].BeginSet? && events[i].key == key && Answer(events, i) == Some(New)
  }

  predicate Completes(events: seq<Event>, key: string, i: nat)
    requires i < |events|
  {
    events[i].Complete? && events[i].key == key
  }

  /** Event `i` reports on `key`: a `get`, or the second half of a `begin`. */
  predicate Reports(events: seq<Event>, key: string, i: nat)
    requires i < |events|
  {
    match events[i]
    case Read(k) => k == key
    case BeginGet(client) => client in At(events, i).waiting && At(events, i).waiting[client] == key
    case _ => false
  }

  // ---------------------------------------------------------------- one winner per lease

  lemma {:induction false} LeaseLasts(events: seq<Event>, key: string, i: nat, m: nat)
    requires i < m <= |events| && Wins(events, key, i)
    ensures var ends := At(events, i).now + events[i].ttl as real;
            At(events, m).now >= ends || (Alive(events, key, m) && At(events, m).store[RedisKey(key)].deadline == ends)
  {
    if i + 1 < m {
      LeaseLasts(events, key, i, m - 1);
      var e := events[m - 1];
      if !e.BeginGet? && !e.Read? && !e.Tick? { KeysStayApart(e.key, key); }
    }
  }

  /** Of all clients, in every interleaving, two `new` answers for a key are at least the first one's
      `ttl_s` apart. */
  lemma SingleWinnerPerLease(events: seq<Event>, key: string, i: nat, j: nat)
    requires i < j < |events| && Wins(events, key, i) && Wins(events, key, j)
    ensures At(events, j).now >= At(events, i).now + events[i].ttl as real
  {
    LeaseLasts(events, key, i, j);
  }

  // ---------------------------------------------------------------- what a stored value means

  /** The lease won at `n` has lasted until `i`. */
  ghost predicate LeaseSince(events: seq<Event>, key: string, n: nat, i: nat) {
    n < i <= |events| && Wins(events, key, n) && forall m: nat | n < m <= i :: Alive(events, key, m)
  }

  /** The last completion in the lease of `n`, up to `i`, is event `j`. */
  ghost predicate LastCompletion(events: seq<Event>, key: string, n: nat, j: nat, i: nat)
    requires i <= |events|
  {
    && n < j < i && LeaseSince(events, key, n, i)
    && Completes(events, key, j)
    && forall m: nat | j < m < i :: !Completes(events, key, m)
  }

  /** No completion has happened in the lease of `n`, up to `i`. */
  ghost predicate NoCompletion(events: seq<Event>, key: string, n: nat, i: nat)
    requires i <= |events|
  {
    && n < i && LeaseSince(events, key, n, i)
    && forall m: nat | n < m < i :: !Completes(events, key, m)
  }

  /** The whole meaning of a live key: it was won once, has been there since, and its value is the
      last completion of that lease, or `in_flight` if there was none. */
  ghost predicate Explained(events: seq<Event>, key: string, i: nat)
    requires i <= |events| && Alive(events, key, i)
  {
    var value := At(events, i).store[RedisKey(key)].value;
    || (value == IN_FLIGHT && exists n: nat :: NoCompletion(events, key, n, i))
    || (exists n: nat, j: nat :: LastCompletion(events, key, n, j, i) && value == DONE + events[j].hash)
  }

  lemma LeaseGrows(events: seq<Event>, key: string, n: nat, i: nat)
    requires n < i < |events| && LeaseSince(events, key, n, i) && Alive(events, key, i + 1)
    ensures LeaseSince(events, key, n, i + 1)
  {
  }

  /** How one event changes the value of a key that is alive after it. */
  lemma ValueNext(events: seq<Event>, key: string, p: nat)
    requires p < |events| && Alive(events, key, p + 1)
    ensures var value := At(events, p + 1).store[RedisKey(key)].value;
            && (!Alive(events, key, p) ==> Wins(events, key, p) && value == IN_FLIGHT)
            && (Alive(events, key, p) && Completes(events, key, p) ==> value == DONE + events[p].hash)
            && (Alive(events, key, p) && !Completes(events, key, p) ==>
                value == At(events, p).store[RedisKey(key)].value)
  {
    var e := events[p];
    if !e.BeginGet? && !e.Read? && !e.Tick? { KeysStayApart(e.key, key); }
  }

  lemma ExplainedNext(events: seq<Event>, key: string, p: nat)
    requires p < |events| && Alive(events, key, p) && Alive(events, key, p + 1) && Explained(events, key, p)
    ensures Explained(events, key, p + 1)
  {
    ValueNext(events, key, p);
    var was := At(events, p).store[RedisKey(key)].value;
    if was == IN_FLIGHT && exists n: nat :: NoCompletion(events, key, n, p) {
      var n: nat :| NoCompletion(events, key, n, p);
      LeaseGrows(events, key, n, p);
      if Completes(events, key, p) {
        assert LastCompletion(events, key, n, p, p + 1);
      } else {
        assert NoCompletion(events, key, n, p + 1);
      }
    } else {
      var n: nat, j: nat :| LastCompletion(events, key, n, j, p) && was == DONE + events[j].hash;
      LeaseGrows(events, key, n, p);
      if Completes(events, key, p) {
        assert LastCompletion(events, key, n, p, p + 1);
      } else {
        assert LastCompletion(events, key, n, j, p + 1);
      }
    }
  }

  lemma {:induction false} LiveKeysAreExplained(events: seq<Event>, key: string, i: nat)
    requires i <= |events| && Alive(events, key, i)
    ensures Explained(events, key, i)
  {
    var p := i - 1;
    ValueNext(events, key, p);
    if Alive(events, key, p) {
      LiveKeysAreExplained(events, key, p);
      ExplainedNext(events, key, p);
    } else {
      assert NoCompletion(events, key, p, i);
    }
  }

  /** Done soundness: in every interleaving a `done` answer carries the hash of the last completion
      that took effect in the key's current lease. */
  lemma DoneIsSound(events: seq<Event>, key: string, i: nat, hash: string)
    requires i < |events| && Reports(events, key, i) && Answer(events, i) == Some(Done(hash))
    ensures exists n: nat, j: nat :: LastCompletion(events, key, n, j, i) && events[j].hash == hash
  {
    assert Alive(events, key, i);
    LiveKeysAreExplained(events, key, i);
    var value := At(events, i).store[RedisKey(key)].value;
    DecodeInvertsEncode(value, hash);
    var n: nat, j: nat :| LastCompletion(events, key, n, j, i) && value == DONE + events[j].hash;
    DecodeInvertsEncode(value, events[j].hash);
  }

  /** And completely so: whenever a lease is alive, a report says `done` exactly when a completion
      has happened in it; it says `in_flight` otherwise, and `begin` also says so of a key that died
      between its two commands. */
  lemma ReportsSay(events: seq<Event>, key: string, i: nat)
    requires i < |events| && Reports(events, key, i)
    ensures Alive(events, key, i) ==>
              (Answer(events, i) == Some(InFlight) <==> exists n: nat :: NoCompletion(events, key, n, i))
    ensures Alive(events, key, i) ==>
              Answer(events, i) == Some(InFlight) || (Answer(events, i).Some? && Answer(events, i).value.Done?)
    ensures !Alive(events, key, i) ==> Answer(events, i) == if events[i].Read? then None else Some(InFlight)
  {
    if Alive(events, key, i) {
      LiveKeysAreExplained(events, key, i);
      var value := At(events, i).store[RedisKey(key)].value;
      DecodeInvertsEncode(value, "");
      if exists n: nat, j: nat :: LastCompletion(events, key, n, j, i) && value == DONE + events[j].hash {
        var n: nat, j: nat :| LastCompletion(events, key, n, j, i) && value == DONE + events[j].hash;
        DecodeInvertsEncode(value, events[j].hash);
        forall n': nat | NoCompletion(events, key, n', i) ensures false { LeaseIsUnique(events, key, n, n', i); }
      }
    }
  }

  lemma LeaseIsUnique(events: seq<Event>, key: string, n: nat, n': nat, i: nat)
    requires n < i <= |events| && n' < i && LeaseSince(events, key, n, i) && LeaseSince(events, key, n', i)
    ensures n == n'
  {
    assert !Alive(events, key, n) && !Alive(events, key, n');
  }

  // ---------------------------------------------------------------- phases

  datatype Phase = Absent | Running | Finished

  function PhaseAt(events: seq<Event>, key: string, i: nat): Phase
    requires i <= |events|
  {
    if !Alive(events, key, i) then Absent
    else if At(events, i).store[RedisKey(key)].value == IN_FLIGHT then Running else Finished
  }

  /** A key only moves forward, absent to in flight to done and done again, until it expires, and it
      expires only at its deadline, which nothing moves. */
  lemma PhasesMoveForward(events: seq<Event>, key: string, i: nat)
    requires i < |events|
    ensures var before, after := PhaseAt(events, key, i), PhaseAt(events, key, i + 1);
            && (before.Absent? ==> !after.Finished?)
            && (before.Absent? && after.Running? <==> Wins(events, key, i))
            && (before.Finished? ==> !after.Running?)
            && (before.Running? && after.Finished? <==> before.Running? && Completes(events, key, i))
            && (!before.Absent? && after.Absent? ==>
                events[i] == Expire(key) && At(events, i).store[RedisKey(key)].deadline <= At(events, i).now)
            && (!before.Absent? && !after.Absent? ==>
                At(events, i + 1).store[RedisKey(key)].deadline == At(events, i).store[RedisKey(key)].deadline)
  {
    var e := events[i];
    if !e.BeginGet? && !e.Read? && !e.Tick? { KeysStayApart(e.key, key); }
    if e.Complete? { assert (DONE + e.hash)[0] != IN_FLIGHT[0]; }
  }

  lemma {:induction false} NotWaiting(events: seq<Event>, client: nat, i: nat, j: nat)
    requires i < j <= |events| && events[i] == BeginGet(client)
    requires forall k | i < k < j :: !(events[k].BeginSet? && events[k].client == client)
    ensures client !in At(events, j).waiting
  {
    if i + 1 < j { NotWaiting(events, client, i, j - 1); }
  }

  /** One `begin` is answered once: after its second command a client has nothing to wait for until it
      begins again. */
  lemma BeginsAnswerOnce(events: seq<Event>, client: nat, i: nat, j: nat)
    requires i < j < |events| && events[i] == BeginGet(client) && events[j] == BeginGet(client)
    requires forall k | i < k < j :: !(events[k].BeginSet? && events[k].client == client)
    ensures Answer(events, j) == None && At(events, j + 1) == At(events, j)
  {
    NotWaiting(events, client, i, j);
  }

  /** `begin` is not atomic: a client can be told `in_flight` of a key that nobody holds. */
  lemma BeginMayReportADeadLease(key: string)
    ensures var events := [BeginSet(0, key, 1), BeginSet(1, key, 1), Tick(1.0), Expire(key), BeginGet(1)];
            Answer(events, 4) == Some(InFlight) && !Alive(events, key, 4)
  {
    var events := [BeginSet(0, key, 1), BeginSet(1, key, 1), Tick(1.0), Expire(key), BeginGet(1)];
    assert At(events, 1) == State(map[RedisKey(key) := Entry(IN_FLIGHT, 1.0)], 0.0, map[]);
    assert At(events, 2) == At(events, 1).(waiting := map[1 := key]);
    assert At(events, 3) == At(events, 2).(now := 1.0);
    assert At(events, 4).store == map[];
  }

  // ---------------------------------------------------------------- whose completion it is

  /** Clients keep to the protocol: each completion finishes a `begin` that was answered `new`. */
  ghost predicate WinnersComplete(events: seq<Event>, key: string) {
    forall j: nat | j < |events| && Completes(events, key, j) :: events[j].win < j && Wins(events, key, events[j].win)
  }

  /** When the lease won at `m` may end. */
  function Deadline(events: seq<Event>, m: nat): real
    requires m < |events| && events[m].BeginSet?
  {
    At(events, m).now + events[m].ttl as real
  }

  /** The caller's own check: completion `j` comes before its own win's deadline. */
  ghost predicate Timely(events: seq<Event>, key: string, j: nat)
    requires j < |events| && events[j].Complete?
  {
    events[j].win < j && Wins(events, key, events[j].win) && At(events, j).now < Deadline(events, events[j].win)
  }

  /** Every completion after `n` and before `end` is timely. */
  ghost predicate TimelySince(events: seq<Event>, key: string, n: nat, end: nat)
    requires end <= |events|
  {
    forall j: nat | n < j < end && Completes(events, key, j) :: Timely(events, key, j)
  }

  /** The lease of `n` speaks for its own win up to `end`: at every moment, the completion that the key
      shows, if any, is that of the `begin` that won the lease. */
  ghost predicate SpeaksForWinner(events: seq<Event>, key: string, n: nat, end: nat)
    requires end <= |events|
  {
    forall i: nat, j: nat | i <= end && LastCompletion(events, key, n, j, i) :: events[j].win == n
  }

  lemma {:induction false} ClockAdvances(events: seq<Event>, i: nat, j: nat)
    requires i <= j <= |events|
    ensures At(events, i).now <= At(events, j).now
  {
    if i < j { ClockAdvances(events, i, j - 1); }
  }

  /** Before its deadline a lease cannot have ended. */
  lemma LeaseHolds(events: seq<Event>, key: string, m: nat, i: nat)
    requires m < i <= |events| && Wins(events, key, m) && At(events, i).now < Deadline(events, m)
    ensures LeaseSince(events, key, m, i)
  {
    forall k: nat | m < k <= i ensures Alive(events, key, k) {
      ClockAdvances(events, k, i);
      LeaseLasts(events, key, m, k);
    }
  }

  /** If every completion comes before its own deadline, a lease speaks for its own win. */
  lemma TimelyLeasesSpeak(events: seq<Event>, key: string, n: nat, end: nat)
    requires end <= |events| && TimelySince(events, key, n, end)
    ensures SpeaksForWinner(events, key, n, end)
  {
    forall i: nat, j: nat | i <= end && LastCompletion(events, key, n, j, i) ensures events[j].win == n {
      assert Timely(events, key, j) && LeaseSince(events, key, n, j);
      LeaseHolds(events, key, events[j].win, j);
      LeaseIsUnique(events, key, n, events[j].win, j);
    }
  }

  /** And then a report in the lease answers `done` with a hash exactly if the win the lease began with
      has been completed, and last with that hash. */
  lemma DoneIsTheWinnersIff(events: seq<Event>, key: string, n: nat, i: nat, hash: string)
    requires i < |events| && Reports(events, key, i) && LeaseSince(events, key, n, i) && TimelySince(events, key, n, i)
    ensures Answer(events, i) == Some(Done(hash))
            <==> exists j: nat :: LastCompletion(events, key, n, j, i) && events[j].win == n && events[j].hash == hash
  {
    if Answer(events, i) == Some(Done(hash)) {
      DoneIsSound(events, key, i, hash);
      var n': nat, j: nat :| LastCompletion(events, key, n', j, i) && events[j].hash == hash;
      LeaseIsUnique(events, key, n, n', i);
      TimelyLeasesSpeak(events, key, n, i);
    }
    forall j: nat | LastCompletion(events, key, n, j, i) && events[j].hash == hash
      ensures Answer(events, i) == Some(Done(hash))
    {
      DoneIsComplete(events, key, n, j, i);
    }
  }

  /** A report within a lease gives its last completion. */
  lemma DoneIsComplete(events: seq<Event>, key: string, n: nat, j: nat, i: nat)
    requires i < |events| && Reports(events, key, i) && LastCompletion(events, key, n, j, i)
    ensures Answer(events, i) == Some(Done(events[j].hash))
  {
    LiveKeysAreExplained(events, key, i);
    var value := At(events, i).store[RedisKey(key)].value;
    forall n': nat | NoCompletion(events, key, n', i) ensures false { LeaseIsUnique(events, key, n, n', i); }
    var n': nat, j': nat :| LastCompletion(events, key, n', j', i) && value == DONE + events[j'].hash;
    LeaseIsUnique(events, key, n, n', i);
    assert j' == j;
    DecodeInvertsEncode(value, events[j].hash);
  }

  // ---------------------------------------------------------------- the deadline is the exact guard

  lemma {:induction false} PrefixAt(events: seq<Event>, more: seq<Event>, i: nat)
    requires i <= |events|
    ensures At(events + more, i) == At(events, i)
  {
    if i > 0 {
      PrefixAt(events, more, i - 1);
      assert (events + more)[i - 1] == events[i - 1];
    }
  }

  lemma PrefixWins(events: seq<Event>, more: seq<Event>, key: string, m: nat)
    requires m < |events| && Wins(events, key, m)
    ensures Wins(events + more, key, m) && Deadline(events + more, m) == Deadline(events, m)
  {
    PrefixAt(events, more, m);
    assert (events + more)[m] == events[m];
  }

  lemma {:induction false} DeadlineKept(events: seq<Event>, key: string, m: nat, i: nat)
    requires LeaseSince(events, key, m, i)
    ensures Alive(events, key, i) && At(events, i).store[RedisKey(key)].deadline == Deadline(events, m)
  {
    PhasesMoveForward(events, key, i - 1);
    if m + 1 < i {
      assert LeaseSince(events, key, m, i - 1);
      DeadlineKept(events, key, m, i - 1);
    } else {
      assert At(events, i).store[RedisKey(key)] == Entry(IN_FLIGHT, Deadline(events, m));
    }
  }

  /** However the run goes on until the clock shows `t`, the lease of `m` is still the key's. */
  ghost predicate AlwaysLands(events: seq<Event>, key: string, m: nat, t: real) {
    forall more | At(events + more, |events + more|).now == t :: LeaseSince(events + more, key, m, |events + more|)
  }

  /** However the run goes on until the clock shows `t`, no other lease is then the key's. */
  ghost predicate NeverStrays(events: seq<Event>, key: string, m: nat, t: real) {
    forall more, n: nat |
      At(events + more, |events + more|).now == t && LeaseSince(events + more, key, n, |events + more|) :: n == m
  }

  /** A completion that its caller sends at time `t` is certain to take effect in the caller's own lease
      if and only if `t` is before that lease's deadline, and under the same condition, and no other, it
      is certain not to take effect in a lease that someone has won since. */
  lemma DeadlineGuardIsExact(events: seq<Event>, key: string, m: nat, t: real)
    requires LeaseSince(events, key, m, |events|) && At(events, |events|).now <= t
    ensures AlwaysLands(events, key, m, t) <==> t < Deadline(events, m)
    ensures NeverStrays(events, key, m, t) <==> t < Deadline(events, m)
  {
    if t < Deadline(events, m) {
      forall more | At(events + more, |events + more|).now == t
        ensures LeaseSince(events + more, key, m, |events + more|)
      {
        PrefixWins(events, more, key, m);
        LeaseHolds(events + more, key, m, |events + more|);
      }
      forall more, n: nat
        | At(events + more, |events + more|).now == t && LeaseSince(events + more, key, n, |events + more|)
        ensures n == m
      {
        LeaseIsUnique(events + more, key, n, m, |events + more|);
      }
    } else {
      var more := LateRun(events, key, m, t);
      LeaseIsLost(events, key, m, t);
      assert !LeaseSince(events + more, key, m, |events + more|);
    }
  }

  /** The clock moves to `t`, the key expires, and a client that waits for nothing wins it. */
  ghost function LateRun(events: seq<Event>, key: string, m: nat, t: real): seq<Event> {
    var s := At(events, |events|);
    [Tick(t - s.now), Expire(key), BeginSet(Above(s.waiting.Keys), key, 1)]
  }

  lemma LeaseIsLost(events: seq<Event>, key: string, m: nat, t: real)
    requires LeaseSince(events, key, m, |events|) && At(events, |events|).now <= t && Deadline(events, m) <= t
    ensures var run := events + LateRun(events, key, m, t);
            && At(run, |run|).now == t && LeaseSince(run, key, |run| - 1, |run|) && !LeaseSince(run, key, m, |run|)
  {
    var more := LateRun(events, key, m, t);
    var run, n, s, k := events + more, |events|, At(events, |events|), RedisKey(key);
    PrefixAt(events, more, n);
    DeadlineKept(events, key, m, n);
    assert run[n] == more[0] && run[n + 1] == more[1] && run[n + 2] == more[2];
    assert At(run, n + 1) == s.(now := t);
    assert At(run, n + 2) == s.(now := t, store := s.store - {k});
    assert more[2].client !in s.waiting;
    assert Wins(run, key, n + 2);
    assert !Alive(run, key, n + 2) && Alive(run, key, n + 3);
  }

  /** A run in which the guard is missed: a client wins, lets its lease run out, and completes the lease
      won next, by another client or by itself, so that the key answers with the result of the lost
      lease while the new one is still worked on. */
  lemma StaleCompletionHappens(key: string, hash: string, client: nat)
    ensures var events :=
              [BeginSet(0, key, 1), Tick(1.0), Expire(key), BeginSet(client, key, 1), Complete(0, key, hash),
               Read(key)];
            && WinnersComplete(events, key) && LeaseSince(events, key, 3, 5) && !Timely(events, key, 4)
            && LastCompletion(events, key, 3, 4, 5) && !SpeaksForWinner(events, key, 3, 5)
            && Answer(events, 5) == Some(Done(hash))
  {
    var events :=
      [BeginSet(0, key, 1), Tick(1.0), Expire(key), BeginSet(client, key, 1), Complete(0, key, hash), Read(key)];
    var k := RedisKey(key);
    assert At(events, 1) == State(map[k := Entry(IN_FLIGHT, 1.0)], 0.0, map[]);
    assert At(events, 2) == At(events, 1).(now := 1.0);
    assert At(events, 3) == State(map[], 1.0, map[]);
    assert At(events, 4) == State(map[k := Entry(IN_FLIGHT, 2.0)], 1.0, map[]);
    assert At(events, 5) == State(map[k := Entry(DONE + hash, 2.0)], 1.0, map[]);
    DecodeInvertsEncode(DONE + hash, hash);
    assert Wins(events, key, 0) && Wins(events, key, 3);
    assert forall j: nat | j < 6 && Completes(events, key, j) :: j == 4;
    assert LeaseSince(events, key, 3, 5);
    assert LastCompletion(events, key, 3, 4, 5);
  }
}
