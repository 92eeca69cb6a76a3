/** Exactly which calls a bucket admits. */
module RateEnvelope {
  import opened Common
  import opened RateLimit

  /** The stored bucket before call `i` of a run on a fresh key. */
  function Before(q: nat, w: real, times: seq<real>, i: nat): Option<Bucket>
    requires w > 0.0 && i <= |times|
  {
    if i == 0 then None else Some(Call(q, w, Before(q, w, times, i - 1), times[i - 1]).0)
  }

  predicate Admitted(q: nat, w: real, times: seq<real>, i: nat)
    requires w > 0.0 && i < |times|
  {
    Call(q, w, Before(q, w, times, i), times[i]).1.allowed
  }

  /** How many of the calls from `j` up to but excluding `i` are admitted. */
  function Count(q: nat, w: real, times: seq<real>, j: nat, i: nat): nat
    requires w > 0.0 && j <= i <= |times|
  {
    if j == i then 0 else Count(q, w, times, j, i - 1) + if Admitted(q, w, times, i - 1) then 1 else 0
  }

  /** Both descriptions of a run agree. */
  lemma {:induction false} RunsAgree(q: nat, w: real, times: seq<real>, n: nat)
    requires w > 0.0 && n <= |times|
    ensures var rest := Decisions(q, w, Before(q, w, times, n), times[n..]);
            |rest| == |times| - n && forall i | n <= i < |times| :: rest[i - n].allowed == Admitted(q, w, times, i)
    decreases |times| - n
  {
    if n < |times| {
      RunsAgree(q, w, times, n + 1);
      assert times[n..][1..] == times[n + 1..];
    }
  }

  lemma {:induction false} BeforeInRange(q: nat, w: real, times: seq<real>, i: nat)
    requires w > 0.0 && i <= |times|
    ensures InRange(q, Before(q, w, times, i))
  {
    if i > 0 {
      BeforeInRange(q, w, times, i - 1);
      TokensInRange(q, w, Before(q, w, times, i - 1), times[i - 1]);
    }
  }

  /** `remaining` and `reset_after_s` are honest after every call of every run, whatever the clock
      does: tokens are within [0, quota]; the next `remaining` calls are admitted whenever they come,
      one more in the same instant is denied; and if the next call comes `reset_after_s` later, it
      and the following ones up to the quota are admitted. */
  lemma DecisionsAreHonest(q: nat, w: real, times: seq<real>, i: nat, soon: seq<real>, late: seq<real>)
    requires w > 0.0 && i < |times|
    requires var d := Call(q, w, Before(q, w, times, i), times[i]).1;
             |soon| == d.remaining && |late| == q && (q > 0 ==> late[0] >= times[i] + d.resetAfter)
    ensures var (after, d) := Call(q, w, Before(q, w, times, i), times[i]);
            && 0.0 <= after.tokens <= q as real && 0 <= d.remaining <= q && d.resetAfter == w
            && (forall e | e in Decisions(q, w, Some(after), soon) :: e.allowed)
            && (forall e | e in Decisions(q, w, Some(after), late) :: e.allowed)
            && var burst := Decisions(q, w, Some(after), seq(d.remaining + 1, _ => times[i]));
               |burst| == d.remaining + 1 && !burst[d.remaining].allowed
  {
    BeforeInRange(q, w, times, i);
    TokensInRange(q, w, Before(q, w, times, i), times[i]);
    HonestFrom(q, w, Before(q, w, times, i), times[i], soon, late);
  }

  // ---------------------------------------------------------------- the envelope

  /** What the admission at `j` leaves for call `i`. */
  function Left(q: nat, w: real, times: seq<real>, j: nat, i: nat): real
    requires w > 0.0 && j <= i < |times|
  {
    q as real + Gain(q, w, times[i] - times[j]) - Count(q, w, times, j, i) as real
  }

  ghost predicate Binding(q: nat, w: real, times: seq<real>, j: nat, i: nat)
    requires w > 0.0 && i < |times|
  {
    j < i && Admitted(q, w, times, j) && Level(q, w, Before(q, w, times, i), times[i]) == Left(q, w, times, j, i)
  }

  /** The level is the least of the quota and of what each earlier admission leaves. */
  lemma {:induction false} LevelIsLeast(q: nat, w: real, times: seq<real>, i: nat)
    requires w > 0.0 && i < |times| && NonDecreasing(times)
    ensures var level := Level(q, w, Before(q, w, times, i), times[i]);
            && level <= q as real
            && (forall j: nat | j < i && Admitted(q, w, times, j) :: level <= Left(q, w, times, j, i))
            && (level == q as real || exists j: nat :: Binding(q, w, times, j, i))
  {
    if i > 0 {
      LevelIsLeast(q, w, times, i - 1);
      var dt := times[i] - times[i - 1];
      var was := Level(q, w, Before(q, w, times, i - 1), times[i - 1]);
      var now := Level(q, w, Before(q, w, times, i), times[i]);
      var spent := if Admitted(q, w, times, i - 1) then 1.0 else 0.0;
      assert times[i - 1] <= times[i];
      GainMonotone(q, w, 0.0, dt);
      assert now == Min(q as real, was - spent + Gain(q, w, dt));
      forall j: nat | j < i - 1
        ensures Left(q, w, times, j, i) == Left(q, w, times, j, i - 1) - spent + Gain(q, w, dt)
      {
        GainAdds(q, w, times[i - 1] - times[j], dt);
        assert times[i] - times[j] == (times[i - 1] - times[j]) + dt;
      }
      assert Count(q, w, times, i - 1, i - 1) == 0;
      assert Left(q, w, times, i - 1, i) == q as real - spent + Gain(q, w, dt);
      if now != q as real {
        if was == q as real {
          assert Binding(q, w, times, i - 1, i);
        } else {
          var j: nat :| Binding(q, w, times, j, i - 1);
          assert Binding(q, w, times, j, i);
        }
      }
    }
  }

  lemma AdmittedIffLeft(q: nat, w: real, times: seq<real>, i: nat)
    requires w > 0.0 && i < |times| && NonDecreasing(times)
    ensures Admitted(q, w, times, i) <==>
            q >= 1 && forall j: nat | j < i && Admitted(q, w, times, j) :: Left(q, w, times, j, i) >= 1.0
  {
    LevelIsLeast(q, w, times, i);
    var level := Level(q, w, Before(q, w, times, i), times[i]);
    if level != q as real {
      var j: nat :| Binding(q, w, times, j, i);
    }
  }

  /** What a burst and the refill of `dt` seconds can admit. */
  function Envelope(q: nat, w: real, dt: real): real
    requires w > 0.0
  {
    q as real + dt * q as real / w
  }

  lemma RoomForOne(q: nat, w: real, dt: real, n: nat)
    requires w > 0.0
    ensures q as real + Gain(q, w, dt) - n as real >= 1.0 <==> (n + 1) as real <= Envelope(q, w, dt)
  {
    GainIs(q, w, dt);
  }

  /** The exact envelope: with constant quota and window and a clock that does not go back, a call
      is admitted if and only if the quota is not zero and, for every earlier admitted call, the
      admissions from that one through this one fit into the burst and the refill between them. */
  lemma ExactEnvelope(q: nat, w: real, times: seq<real>, i: nat)
    requires w > 0.0 && i < |times| && NonDecreasing(times)
    ensures Admitted(q, w, times, i) <==>
            q >= 1 && forall j: nat | j < i && Admitted(q, w, times, j) ::
              (Count(q, w, times, j, i) + 1) as real <= Envelope(q, w, times[i] - times[j])
  {
    AdmittedIffLeft(q, w, times, i);
    forall j: nat | j < i
      ensures Left(q, w, times, j, i) >= 1.0
              <==> (Count(q, w, times, j, i) + 1) as real <= Envelope(q, w, times[i] - times[j])
    {
      RoomForOne(q, w, times[i] - times[j], Count(q, w, times, j, i));
    }
  }

  lemma {:induction false} CountFirst(q: nat, w: real, times: seq<real>, j: nat, i: nat)
    requires w > 0.0 && j < i <= |times|
    ensures Count(q, w, times, j, i) == (if Admitted(q, w, times, j) then 1 else 0) + Count(q, w, times, j + 1, i)
  {
    if j + 1 < i { CountFirst(q, w, times, j, i - 1); }
  }

  lemma EnvelopeMonotone(q: nat, w: real, a: real, b: real)
    requires w > 0.0 && a <= b
    ensures Envelope(q, w, a) <= Envelope(q, w, b)
    ensures 0.0 <= a ==> q as real <= Envelope(q, w, a)
  {
    GainIs(q, w, a);
    GainIs(q, w, b);
    GainMonotone(q, w, a, b);
  }

  /** Hence the bound on admissions holds on every interval of every run. */
  lemma {:induction false} AdmissionsInInterval(q: nat, w: real, times: seq<real>, j: nat, i: nat)
    requires w > 0.0 && j <= i < |times| && NonDecreasing(times)
    ensures Count(q, w, times, j, i + 1) as real <= Envelope(q, w, times[i] - times[j])
    decreases i - j
  {
    assert j < i ==> times[j] <= times[i];
    EnvelopeMonotone(q, w, 0.0, times[i] - times[j]);
    if Admitted(q, w, times, i) && Admitted(q, w, times, j) {
      if j < i {
        ExactEnvelope(q, w, times, i);
      } else {
        ExactEnvelope(q, w, times, i);
        assert Count(q, w, times, i, i) == 0;
      }
    } else if j == i {
      assert Count(q, w, times, i, i) == 0;
    } else if !Admitted(q, w, times, i) {
      AdmissionsInInterval(q, w, times, j, i - 1);
      assert times[i - 1] <= times[i];
      EnvelopeMonotone(q, w, times[i - 1] - times[j], times[i] - times[j]);
    } else {
      AdmissionsInInterval(q, w, times, j + 1, i);
      CountFirst(q, w, times, j, i + 1);
      assert times[j] <= times[j + 1];
      EnvelopeMonotone(q, w, times[i] - times[j + 1], times[i] - times[j]);
    }
  }

  // ---------------------------------------------------------------- the reset is the least

  /** `q` calls at once on a fresh key, and `q` more after a wait of `dt`. */
  function TwoBursts(q: nat, now: real, dt: real): seq<real> {
    seq(2 * q, k => if k < q then now else now + dt)
  }

  ghost predicate AllAdmitted(q: nat, w: real, times: seq<real>)
    requires w > 0.0
  {
    forall i: nat | i < |times| :: Admitted(q, w, times, i)
  }

  /** A window, and no less, refills a whole quota. */
  lemma WindowRefills(q: nat, w: real, dt: real)
    requires w > 0.0 && q >= 1
    ensures Envelope(q, w, dt) >= (2 * q) as real <==> dt >= w
    ensures Envelope(q, w, 0.0) == q as real
  {
    GainIs(q, w, dt);
    GainWindow(q, w);
    assert Gain(q, w, dt) - Gain(q, w, w) == (dt - w) * (q as real / w);
    assert q as real / w > 0.0;
    if dt < w { assert (w - dt) * (q as real / w) > 0.0; }
  }

  lemma LateEnough(q: nat, w: real, now: real, dt: real, i: nat)
    requires w > 0.0 && q >= 1 && dt >= w && i < 2 * q
    ensures Admitted(q, w, TwoBursts(q, now, dt), i)
  {
    var times := TwoBursts(q, now, dt);
    ExactEnvelope(q, w, times, i);
    WindowRefills(q, w, dt);
    forall j: nat | j < i
      ensures (Count(q, w, times, j, i) + 1) as real <= Envelope(q, w, times[i] - times[j])
    {
      CountAtMost(q, w, times, j, i);
      assert times[i] - times[j] == if j < q <= i then dt else 0.0;
    }
  }

  lemma TooEarly(q: nat, w: real, now: real, dt: real)
    requires w > 0.0 && q >= 1 && dt >= 0.0 && AllAdmitted(q, w, TwoBursts(q, now, dt))
    ensures dt >= w
  {
    var times := TwoBursts(q, now, dt);
    CountAtMost(q, w, times, 0, 2 * q);
    AdmissionsInInterval(q, w, times, 0, 2 * q - 1);
    WindowRefills(q, w, dt);
  }

  /** `reset_after_s` is the least wait: when a whole quota has just been used up, the next whole quota
      is admitted at once if and only if the wait was as long as every one of those decisions says. */
  lemma ResetIsExact(q: nat, w: real, now: real, dt: real)
    requires w > 0.0 && q >= 1 && dt >= 0.0
    ensures var times := TwoBursts(q, now, dt);
            AllAdmitted(q, w, times)
            <==> forall i: nat | i < q :: dt >= Call(q, w, Before(q, w, times, i), times[i]).1.resetAfter
  {
    var times := TwoBursts(q, now, dt);
    if dt >= w {
      forall i: nat | i < |times| ensures Admitted(q, w, times, i) { LateEnough(q, w, now, dt, i); }
    }
    if AllAdmitted(q, w, times) { TooEarly(q, w, now, dt); }
    assert Call(q, w, Before(q, w, times, 0), times[0]).1.resetAfter == w;
  }

  // ---------------------------------------------------------------- not a sliding window

  /** The limit the port's documentation names: at most `quota` admissions in any window. */
  ghost predicate SlidingWindowHolds(q: nat, w: real)
    requires w > 0.0
  {
    forall times: seq<real>, j: nat, i: nat |
      NonDecreasing(times) && j <= i < |times| && times[i] - times[j] < w :: Count(q, w, times, j, i + 1) <= q
  }

  lemma {:induction false} CountAtMost(q: nat, w: real, times: seq<real>, j: nat, i: nat)
    requires w > 0.0 && j <= i <= |times|
    ensures Count(q, w, times, j, i) <= i - j
    ensures (forall k: nat | j <= k < i :: Admitted(q, w, times, k)) ==> Count(q, w, times, j, i) == i - j
  {
    if j < i { CountAtMost(q, w, times, j, i - 1); }
  }

  /** Less than a window refills less than a bucket of one. */
  lemma LessThanOneToken(w: real, dt: real)
    requires w > 0.0 && dt < w
    ensures Envelope(1, w, dt) < 2.0
  {
    GainIs(1, w, dt);
    GainWindow(1, w);
    assert Gain(1, w, w) - Gain(1, w, dt) == (w - dt) * (1.0 / w);
    assert 1.0 / w > 0.0;
    assert (w - dt) * (1.0 / w) > 0.0;
  }

  lemma EnvelopeValues(q: nat, w: real, dt: real)
    requires w > 0.0
    ensures Envelope(q, w, 0.0) == q as real
    ensures q >= 1 ==> 0.0 < w / q as real && Envelope(q, w, w / q as real) == (q + 1) as real
    ensures q >= 2 ==> w / q as real < w
    ensures dt < w ==> Envelope(1, w, dt) < 2.0
    ensures Envelope(0, w, dt) == 0.0
  {
    if q >= 1 {
      var gap := w / q as real;
      assert gap * q as real == w;
      assert w / w == 1.0;
      assert gap > 0.0;
    }
    if dt < w { LessThanOneToken(w, dt); }
  }

  function Burst(q: nat, gap: real): seq<real> {
    seq(q + 1, k => if k < q then 0.0 else gap)
  }

  lemma BurstAdmits(q: nat, w: real, gap: real, i: nat)
    requires w > 0.0 && 1 <= q && i <= q && gap > 0.0
    requires Envelope(q, w, 0.0) == q as real && Envelope(q, w, gap) == (q + 1) as real
    ensures Admitted(q, w, Burst(q, gap), i)
  {
    var times := Burst(q, gap);
    ExactEnvelope(q, w, times, i);
    forall j: nat | j < i
      ensures (Count(q, w, times, j, i) + 1) as real <= Envelope(q, w, times[i] - times[j])
    {
      CountAtMost(q, w, times, j, i);
      assert times[i] - times[j] == if i < q then 0.0 else gap;
    }
  }

  /** A burst of `q` calls at once and one more as soon as a single token is back. */
  lemma BurstThenRefill(q: nat, w: real) returns (times: seq<real>)
    requires w > 0.0 && q >= 1
    ensures NonDecreasing(times) && |times| == q + 1 && times[q] - times[0] == w / q as real
    ensures Count(q, w, times, 0, q + 1) == q + 1
  {
    var gap := w / q as real;
    EnvelopeValues(q, w, 0.0);
    times := Burst(q, gap);
    forall i: nat | i < q + 1
      ensures Admitted(q, w, times, i)
    {
      BurstAdmits(q, w, gap, i);
    }
    CountAtMost(q, w, times, 0, q + 1);
  }

  /** The bucket keeps the sliding-window promise exactly for quotas of at most one. */
  lemma SlidingWindowIff(q: nat, w: real)
    requires w > 0.0
    ensures SlidingWindowHolds(q, w) <==> q <= 1
  {
    if q <= 1 {
      forall times: seq<real>, j: nat, i: nat | NonDecreasing(times) && j <= i < |times| && times[i] - times[j] < w
        ensures Count(q, w, times, j, i + 1) <= q
      {
        AdmissionsInInterval(q, w, times, j, i);
        EnvelopeValues(q, w, times[i] - times[j]);
      }
    } else {
      var times := BurstThenRefill(q, w);
      EnvelopeValues(q, w, 0.0);
      assert Count(q, w, times, 0, q + 1) > q;
    }
  }
}
