/** The token bucket kept in Redis: what the script does to one key, and the class that runs it. */
module RateLimit {
  import opened Common

  datatype Bucket = Bucket(tokens: real, ts: real)

  datatype Decision = Decision(allowed: bool, remaining: int, resetAfter: real)

  function Min(a: real, b: real): real { if a <= b then a else b }

  function Max(a: real, b: real): real { if a >= b then a else b }

  function Ceiling(x: real): int { -((-x).Floor) }

  /** What a gap of `dt` seconds refills. */
  function Gain(q: nat, w: real, dt: real): real
    requires w > 0.0
  {
    dt * (q as real / w)
  }

  /** The tokens a call at `now` finds, after the lazy refill; a missing key is a full bucket. */
  function Level(q: nat, w: real, b: Option<Bucket>, now: real): real
    requires w > 0.0
  {
    match b
    case None => q as real
    case Some(b) => Min(q as real, b.tokens + Gain(q, w, Max(0.0, now - b.ts)))
  }

  function Call(q: nat, w: real, b: Option<Bucket>, now: real): (Bucket, Decision)
    requires w > 0.0
  {
    var level := Level(q, w, b, now);
    var tokens := if level >= 1.0 then level - 1.0 else level;
    (Bucket(tokens, now), Decision(level >= 1.0, tokens.Floor, w))
  }

  datatype Entry = Entry(bucket: Bucket, deadline: real)

  class RedisRateLimiter {
    var store: map<string, Entry>

    constructor ()
      ensures store == map[]
    {
      store := map[];
    }

    /** What the script reads for a key. */
    function Stored(redisKey: string): Option<Bucket>
      reads this
    {
      if redisKey in store then Some(store[redisKey].bucket) else None
    }

    method Allow(key: string, quota: nat, window: real, now: real) returns (d: Decision)
      requires window > 0.0
      modifies this
      ensures var redisKey := "rl:" + key;
              var (bucket, decision) := Call(quota, window, old(Stored(redisKey)), now);
              && d == decision
              && store == old(store)[redisKey := Entry(bucket, now + Ceiling(window) as real)]
      ensures d.resetAfter == window && d.remaining == store["rl:" + key].bucket.tokens.Floor
      ensures var e := store["rl:" + key];
              var life := e.deadline - now;
              e.bucket.ts == now && life == life.Floor as real && window <= life < window + 1.0
      ensures (store, Some(d)) == OnStore(_ => Limit(quota, window), old(store), KeyEvent(key, CallAt(now)))
    {
      var redisKey := "rl:" + key;
      var tokens, ts;
      if redisKey !in store {
        tokens := quota as real;
        ts := now;
      } else {
        tokens, ts := store[redisKey].bucket.tokens, store[redisKey].bucket.ts;
        var elapsed := Max(0.0, now - ts);
        var refill := elapsed * (quota as real / window);
        assert refill == Gain(quota, window, elapsed);
        tokens := Min(quota as real, tokens + refill);
        ts := now;
      }
      assert tokens == Level(quota, window, Stored(redisKey), now);
      var allowed := false;
      if tokens >= 1.0 {
        tokens := tokens - 1.0;
        allowed := true;
      }
      store := store[redisKey := Entry(Bucket(tokens, ts), now + Ceiling(window) as real)];
      d := Decision(allowed, tokens.Floor, window);
      CeilingIs(window);
    }

    /** Redis drops a key once its deadline has come; until then this does nothing. */
    method Expire(key: string, now: real)
      modifies this
      ensures var k := "rl:" + key;
              store == if k in old(store) && old(store)[k].deadline <= now then old(store) - {k} else old(store)
    {
      var redisKey := "rl:" + key;
      if redisKey in store && store[redisKey].deadline <= now { store := store - {redisKey}; }
    }
  }

  // ---------------------------------------------------------------- refill arithmetic

  /** The least whole number of seconds that is not less than `x`. */
  lemma CeilingIs(x: real)
    ensures x <= Ceiling(x) as real < x + 1.0
  {
  }

  lemma GainAdds(q: nat, w: real, a: real, b: real)
    requires w > 0.0
    ensures Gain(q, w, a + b) == Gain(q, w, a) + Gain(q, w, b)
  {
  }

  lemma GainMonotone(q: nat, w: real, a: real, b: real)
    requires w > 0.0 && a <= b
    ensures Gain(q, w, a) <= Gain(q, w, b)
    ensures 0.0 <= a ==> 0.0 <= Gain(q, w, a)
  {
    var r := q as real / w;
    assert r >= 0.0;
    assert (b - a) * r >= 0.0;
    assert 0.0 <= a ==> a * r >= 0.0;
  }

  lemma GainWindow(q: nat, w: real)
    requires w > 0.0
    ensures Gain(q, w, w) == q as real
  {
  }

  /** The gain as the formula of the envelope writes it. */
  lemma GainIs(q: nat, w: real, dt: real)
    requires w > 0.0
    ensures Gain(q, w, dt) == dt * q as real / w
  {
  }

  ghost predicate InRange(q: nat, b: Option<Bucket>) {
    b.Some? ==> 0.0 <= b.value.tokens <= q as real
  }

  /** Stored tokens stay between zero and the quota, whatever the clock does. */
  lemma TokensInRange(q: nat, w: real, b: Option<Bucket>, now: real)
    requires w > 0.0 && InRange(q, b)
    ensures 0.0 <= Level(q, w, b, now) <= q as real
    ensures InRange(q, Some(Call(q, w, b, now).0))
    ensures 0 <= Call(q, w, b, now).1.remaining <= q
    ensures b.Some? ==> b.value.tokens <= Level(q, w, b, now)
  {
    if b.Some? { GainMonotone(q, w, 0.0, Max(0.0, now - b.value.ts)); }
  }

  /** Refilling over two adjacent gaps, clamped at each, is refilling over their sum. */
  lemma RefillSplits(q: nat, w: real, b: Option<Bucket>, t: real, t': real)
    requires w > 0.0 && (b.Some? ==> b.value.ts <= t) && t <= t'
    ensures Level(q, w, Some(Bucket(Level(q, w, b, t), t)), t') == Level(q, w, b, t')
  {
    GainMonotone(q, w, 0.0, t' - t);
    if b.Some? { GainAdds(q, w, t - b.value.ts, t' - t); }
  }

  /** An idle window refills any bucket. */
  lemma FullAfterWindow(q: nat, w: real, b: Option<Bucket>, now: real)
    requires w > 0.0 && InRange(q, b) && (b.Some? ==> b.value.ts + w <= now)
    ensures Level(q, w, b, now) == q as real
  {
    if b.Some? {
      GainMonotone(q, w, w, now - b.value.ts);
      GainWindow(q, w);
    }
  }

  // ---------------------------------------------------------------- runs

  /** The decisions of successive calls on one key. */
  function Decisions(q: nat, w: real, b: Option<Bucket>, times: seq<real>): (ds: seq<Decision>)
    requires w > 0.0
    ensures |ds| == |times|
    decreases |times|
  {
    if times == [] then []
    else [Call(q, w, b, times[0]).1] + Decisions(q, w, Some(Call(q, w, b, times[0]).0), times[1..])
  }

  ghost predicate NonDecreasing(times: seq<real>) {
    forall i, j | 0 <= i < j < |times| :: times[i] <= times[j]
  }

  // ---------------------------------------------------------------- remaining and reset

  /** A bucket holding at least `n` tokens admits the next `n` calls, at whatever times they come. */
  lemma {:induction false} TokensAdmit(q: nat, w: real, b: Bucket, times: seq<real>)
    requires w > 0.0 && InRange(q, Some(b)) && |times| as real <= b.tokens
    ensures |Decisions(q, w, Some(b), times)| == |times|
    ensures forall d | d in Decisions(q, w, Some(b), times) :: d.allowed
    decreases |times|
  {
    if times != [] {
      TokensInRange(q, w, Some(b), times[0]);
      var (b', d) := Call(q, w, Some(b), times[0]);
      TokensAdmit(q, w, b', times[1..]);
    }
  }

  /** With no time passing, a bucket admits exactly as many calls as it holds whole tokens. */
  lemma {:induction false} TokensRunOut(q: nat, w: real, b: Bucket, n: nat)
    requires w > 0.0 && InRange(q, Some(b)) && n == b.tokens.Floor
    ensures var ds := Decisions(q, w, Some(b), seq(n + 1, _ => b.ts)); |ds| == n + 1 && !ds[n].allowed
    decreases n
  {
    var times := seq(n + 1, _ => b.ts);
    var (b', d) := Call(q, w, Some(b), b.ts);
    assert Gain(q, w, 0.0) == 0.0;
    assert Level(q, w, Some(b), b.ts) == b.tokens;
    if n > 0 {
      assert times[1..] == seq(n, _ => b'.ts);
      TokensRunOut(q, w, b', n - 1);
    } else {
      assert times[1..] == [];
    }
  }

  lemma HonestFrom(q: nat, w: real, b: Option<Bucket>, now: real, soon: seq<real>, late: seq<real>)
    requires w > 0.0 && InRange(q, b)
    requires |soon| == Call(q, w, b, now).1.remaining
    requires |late| == q && (q > 0 ==> late[0] >= now + Call(q, w, b, now).1.resetAfter)
    ensures var (after, d) := Call(q, w, b, now);
            && (forall e | e in Decisions(q, w, Some(after), soon) :: e.allowed)
            && (forall e | e in Decisions(q, w, Some(after), late) :: e.allowed)
            && var burst := Decisions(q, w, Some(after), seq(d.remaining + 1, _ => now));
               |burst| == d.remaining + 1 && !burst[d.remaining].allowed
  {
    var (after, d) := Call(q, w, b, now);
    TokensInRange(q, w, b, now);
    TokensAdmit(q, w, after, soon);
    TokensRunOut(q, w, after, d.remaining);
    if q > 0 {
      FullAfterWindow(q, w, Some(after), late[0]);
      TokensInRange(q, w, Some(after), late[0]);
      TokensAdmit(q, w, Call(q, w, Some(after), late[0]).0, late[1..]);
    }
  }

  // ---------------------------------------------------------------- denied calls

  function Kept<T>(items: seq<T>, keep: seq<bool>): seq<T>
    requires |items| == |keep|
    decreases |items|
  {
    if items == [] then [] else (if keep[0] then [items[0]] else []) + Kept(items[1..], keep[1..])
  }

  /** Two bucket states no later call can tell apart. */
  ghost predicate SameFrom(q: nat, w: real, a: Option<Bucket>, b: Option<Bucket>, from: real)
    requires w > 0.0
  {
    && (a.Some? ==> a.value.ts <= from)
    && (b.Some? ==> b.value.ts <= from)
    && forall t | from <= t :: Level(q, w, a, t) == Level(q, w, b, t)
  }

  lemma {:induction false} DeniedDropOut(q: nat, w: real, a: Option<Bucket>, b: Option<Bucket>,
      times: seq<real>, keep: seq<bool>, from: real)
    requires w > 0.0 && |times| == |keep| && NonDecreasing([from] + times) && SameFrom(q, w, a, b, from)
    requires forall i | 0 <= i < |times| && !keep[i] :: !Decisions(q, w, a, times)[i].allowed
    ensures Decisions(q, w, b, Kept(times, keep)) == Kept(Decisions(q, w, a, times), keep)
    decreases |times|
  {
    if times != [] {
      var t := times[0];
      assert ([from] + times)[0] <= ([from] + times)[1];
      var (a', d) := Call(q, w, a, t);
      assert Decisions(q, w, a, times)[1..] == Decisions(q, w, Some(a'), times[1..]);
      assert [t] + times[1..] == ([from] + times)[1..];
      forall i | 0 <= i < |times[1..]| && !keep[1..][i] ensures !Decisions(q, w, Some(a'), times[1..])[i].allowed {
        assert Decisions(q, w, a, times)[i + 1] == Decisions(q, w, Some(a'), times[1..])[i];
      }
      if keep[0] {
        assert Call(q, w, b, t) == (a', d);
        DeniedDropOut(q, w, Some(a'), Some(a'), times[1..], keep[1..], t);
        assert Kept(times, keep)[1..] == Kept(times[1..], keep[1..]);
      } else {
        forall t' | t <= t' ensures Level(q, w, Some(a'), t') == Level(q, w, b, t') { RefillSplits(q, w, a, t, t'); }
        DeniedDropOut(q, w, Some(a'), b, times[1..], keep[1..], t);
        assert Kept(times, keep) == Kept(times[1..], keep[1..]);
        assert Kept(Decisions(q, w, a, times), keep) == Kept(Decisions(q, w, a, times)[1..], keep[1..]);
      }
    }
  }

  /** Denied calls are invisible: deleting any set of them from a run changes no other decision. */
  lemma DeniedCallsAreInvisible(q: nat, w: real, times: seq<real>, keep: seq<bool>)
    requires w > 0.0 && |times| == |keep| && NonDecreasing(times)
    requires forall i | 0 <= i < |times| && !keep[i] :: !Decisions(q, w, None, times)[i].allowed
    ensures Decisions(q, w, None, Kept(times, keep)) == Kept(Decisions(q, w, None, times), keep)
  {
    if times != [] { DeniedDropOut(q, w, None, None, times, keep, times[0]); }
  }

  // ---------------------------------------------------------------- expiry

  datatype Event = CallAt(at: real) | DropAt(at: real)

  /** Decisions on one key when Redis may also drop it. */
  function WithDrops(q: nat, w: real, e: Option<Entry>, events: seq<Event>): seq<Decision>
    requires w > 0.0
    decreases |events|
  {
    if events == [] then []
    else match events[0]
      case DropAt(at) =>
        WithDrops(q, w, if e.Some? && e.value.deadline <= at then None else e, events[1..])
      case CallAt(at) =>
        var (bucket, d) := Call(q, w, if e.Some? then Some(e.value.bucket) else None, at);
        [d] + WithDrops(q, w, Some(Entry(bucket, at + Ceiling(w) as real)), events[1..])
  }

  function CallTimes(events: seq<Event>): seq<real>
    decreases |events|
  {
    if events == [] then [] else (if events[0].CallAt? then [events[0].at] else []) + CallTimes(events[1..])
  }

  /** The key as Redis has it and the bucket as it would be without expiry: the same, or the key is
      gone and the bucket has been idle for a whole window. */
  ghost predicate DropInvisible(w: real, e: Option<Entry>, b: Option<Bucket>, from: real) {
    match e
    case Some(e) => b == Some(e.bucket) && e.deadline == e.bucket.ts + Ceiling(w) as real
    case None => b.Some? ==> b.value.ts + Ceiling(w) as real <= from
  }

  lemma SameCall(q: nat, w: real, e: Option<Entry>, b: Option<Bucket>, at: real, from: real)
    requires w > 0.0 && InRange(q, b) && from <= at && DropInvisible(w, e, b, from)
    ensures Call(q, w, if e.Some? then Some(e.value.bucket) else None, at) == Call(q, w, b, at)
    ensures InRange(q, Some(Call(q, w, b, at).0))
  {
    TokensInRange(q, w, b, at);
    if e.None? { FullAfterWindow(q, w, b, at); }
  }

  lemma {:induction false} DropsChangeNothing(q: nat, w: real, e: Option<Entry>, b: Option<Bucket>,
      events: seq<Event>, from: real)
    requires w > 0.0 && InRange(q, b)
    requires forall i | 0 <= i < |events| :: from <= events[i].at
    requires forall i, j | 0 <= i < j < |events| :: events[i].at <= events[j].at
    requires DropInvisible(w, e, b, from)
    ensures WithDrops(q, w, e, events) == Decisions(q, w, b, CallTimes(events))
    decreases |events|
  {
    if events != [] {
      var at := events[0].at;
      if events[0].DropAt? {
        DropsChangeNothing(q, w, if e.Some? && e.value.deadline <= at then None else e, b, events[1..], at);
        assert CallTimes(events) == CallTimes(events[1..]);
      } else {
        SameCall(q, w, e, b, at, from);
        var bucket := Call(q, w, b, at).0;
        DropsChangeNothing(q, w, Some(Entry(bucket, at + Ceiling(w) as real)), Some(bucket), events[1..], at);
        assert CallTimes(events) == [at] + CallTimes(events[1..]);
        assert CallTimes(events)[1..] == CallTimes(events[1..]);
      }
    }
  }

  /** Expiry is transparent: with a clock that does not go back, dropping the key at any moment from
      `ceil(window)` after its last write leaves every decision as if it were never dropped. */
  lemma ExpiryIsTransparent(q: nat, w: real, events: seq<Event>)
    requires w > 0.0 && forall i, j | 0 <= i < j < |events| :: events[i].at <= events[j].at
    ensures WithDrops(q, w, None, events) == Decisions(q, w, None, CallTimes(events))
  {
    if events != [] { DropsChangeNothing(q, w, None, None, events, events[0].at); }
  }

  // ---------------------------------------------------------------- many keys

  /** A call or an expiry on one of many keys, each with its own constant quota and window. */
  datatype KeyEvent = KeyEvent(key: string, event: Event)

  datatype Limit = Limit(quota: nat, window: real)

  /** The store after an event, as `Allow` and `Expire` leave it, and the decision if it was a call. */
  function OnStore(limits: string -> Limit, store: map<string, Entry>, e: KeyEvent): (map<string, Entry>,
      Option<Decision>)
    requires limits(e.key).window > 0.0
  {
    var k := "rl:" + e.key;
    match e.event
    case DropAt(at) => (if k in store && store[k].deadline <= at then store - {k} else store, None)
    case CallAt(at) =>
      var found := if k in store then Some(store[k].bucket) else None;
      var (bucket, d) := Call(limits(e.key).quota, limits(e.key).window, found, at);
      (store[k := Entry(bucket, at + Ceiling(limits(e.key).window) as real)], Some(d))
  }

  /** The decisions a run on the whole store gives for one key. */
  function DecisionsFor(limits: string -> Limit, store: map<string, Entry>, events: seq<KeyEvent>,
      key: string): seq<Decision>
    requires forall e | e in events :: limits(e.key).window > 0.0
    decreases |events|
  {
    if events == [] then []
    else
      var (store', d) := OnStore(limits, store, events[0]);
      (if d.Some? && events[0].key == key then [d.value] else []) + DecisionsFor(limits, store', events[1..], key)
  }

  function EventsOf(events: seq<KeyEvent>, key: string): seq<Event>
    decreases |events|
  {
    if events == [] then []
    else (if events[0].key == key then [events[0].event] else []) + EventsOf(events[1..], key)
  }

  /** Keys do not affect each other: in any run on the whole store, a key gets the decisions of its
      own events alone. So all that is said of one bucket holds of each. */
  lemma {:induction false} KeysAreIndependent(limits: string -> Limit, store: map<string, Entry>,
      events: seq<KeyEvent>, key: string)
    requires limits(key).window > 0.0 && forall e | e in events :: limits(e.key).window > 0.0
    ensures DecisionsFor(limits, store, events, key)
         == WithDrops(limits(key).quota, limits(key).window,
                      if "rl:" + key in store then Some(store["rl:" + key]) else None, EventsOf(events, key))
    decreases |events|
  {
    if events != [] {
      var e := events[0];
      var store' := OnStore(limits, store, e).0;
      KeysAreIndependent(limits, store', events[1..], key);
      if e.key == key {
        assert EventsOf(events, key)[1..] == EventsOf(events[1..], key);
      } else {
        assert ("rl:" + e.key)[3..] == e.key && ("rl:" + key)[3..] == key;
        assert EventsOf(events, key) == EventsOf(events[1..], key);
      }
    }
  }
}
