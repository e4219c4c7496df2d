/**
  Interaction boosts of hidl/power/power-8084.c and the clock arithmetic they rest on.  `half` is 2^(w-1) for a
  `long` of w bits: the seconds are multiplied in `long`, which is taken to wrap.
*/
module InteractionBoost {
  import opened Units
  import opened PowerProfile

  /** struct timespec. */
  datatype RawTimespec = Timespec(sec: int, nsec: int)
  type Timespec = t: RawTimespec | 0 <= t.nsec < 1_000_000_000 witness Timespec(0, 0)

  function Nanos(t: Timespec): int {
    t.sec * 1_000_000_000 + t.nsec
  }

  /** C division by a positive constant: toward zero. */
  function TruncDiv(a: int, b: int): int
    requires b > 0
  {
    if a >= 0 then a / b else -((-a) / b)
  }

  function WrapLong(x: int, half: int): int
    requires half > 0
  {
    (x + half) % (2 * half) - half
  }

  /** `calc_timespan_us`. */
  function CalcTimespanUs(start: Timespec, end: Timespec, half: int): int
    requires half > 0
  {
    WrapLong((end.sec - start.sec) * 1_000_000, half) + TruncDiv(end.nsec - start.nsec, 1000)
  }

  lemma WrapLongInRange(x: int, half: int)
    requires half > 0
    ensures WrapLong(x, half) == x <==> -half <= x < half
  {
    var m := 2 * half;
    assert 0 <= (x + half) % m < m;
    if -half <= x < half {
      SmallMod(x + half, m);
    }
  }

  lemma SmallMod(x: nat, m: nat)
    requires x < m
    ensures x % m == x
  {
  }

  /**
    The span is the floor or the ceiling of the true microseconds, never further off than one, exactly when the
    seconds fit: 2147 seconds for a 32-bit `long`.
  */
  lemma TimespanIsRounded(start: Timespec, end: Timespec, half: int)
    requires half >= 0x8000_0000
    ensures var us := CalcTimespanUs(start, end, half);
            var diff := Nanos(end) - Nanos(start);
            (us == diff / 1000 || us == diff / 1000 + 1) && -1000 < 1000 * us - diff < 1000
            <==> -half <= (end.sec - start.sec) * 1_000_000 < half
  {
    var ds, dn := end.sec - start.sec, end.nsec - start.nsec;
    var x := ds * 1_000_000;
    WrapLongInRange(x, half);
    var diff := Nanos(end) - Nanos(start);
    assert diff == ds * 1_000_000_000 + dn;
    assert diff == 1000 * x + dn;
    var w := WrapLong(x, half);
    if w != x {
      WrapOff(x, half);
    }
  }

  lemma DivMod(a: int, m: int, q: int, r: int)
    requires m > 0 && q == a / m && r == a % m
    ensures a == r || a - r >= m || a - r <= -m
  {
  }

  /** A wrapped product is off by at least a whole modulus. */
  lemma WrapOff(x: int, half: int)
    requires half > 0 && WrapLong(x, half) != x
    ensures WrapLong(x, half) <= x - 2 * half || WrapLong(x, half) >= x + 2 * half
  {
    var m := 2 * half;
    DivMod(x + half, m, (x + half) / m, (x + half) % m);
  }

  /** The nanoseconds are rounded toward zero, so a span is rounded up just when they run against it. */
  lemma NanosRoundTowardZero(start: Timespec, end: Timespec, half: int)
    requires half > 0 && -half <= (end.sec - start.sec) * 1_000_000 < half
    ensures var diff, nanos := Nanos(end) - Nanos(start), end.nsec - start.nsec;
            CalcTimespanUs(start, end, half) == diff / 1000 + if nanos < 0 && nanos % 1000 != 0 then 1 else 0
  {
    WrapLongInRange((end.sec - start.sec) * 1_000_000, half);
    var ds, dn := end.sec - start.sec, end.nsec - start.nsec;
    assert Nanos(end) - Nanos(start) == 1000 * (ds * 1_000_000) + dn;
    hide WrapLong;
  }

  /** A product that does not fit is off by a multiple of 2^w, and in the range of a `long`. */
  lemma WrapLongIsModular(x: int, half: int) returns (q: int)
    requires half > 0
    ensures -half <= WrapLong(x, half) < half && WrapLong(x, half) == x - q * (2 * half)
  {
    var m := 2 * half;
    q := (x + half) / m;
    assert x + half == q * m + (x + half) % m;
  }

  // ----- Boosts -----

  const DEFAULT_INTERACTIVE_DURATION := 200
  const PERF_INTERACTIVE_DURATION := 500
  const MIN_FLING_DURATION := 1500
  const MAX_INTERACTIVE_DURATION := 5000

  /** An issued boost: when, how long, and which of the four resource lists. */
  datatype Boost = Boost(time: Timespec, duration: int, perfList: bool, flingList: bool)

  /** One POWER_HINT_INTERACTION: the profile in force, the requested duration if any, and the clock. */
  datatype Request = Request(profile: int, data: Option<int>, now: Timespec)

  function Duration(profile: int, data: Option<int>): int {
    var base := if profile == PROFILE_BIAS_POWER || profile == PROFILE_HIGH_PERFORMANCE
                then PERF_INTERACTIVE_DURATION else DEFAULT_INTERACTIVE_DURATION;
    if data.Some? && data.value > base then Min(data.value, MAX_INTERACTIVE_DURATION) else base
  }

  /** The boost a request issues, given the time of the previous one. */
  function Issue(previous: Timespec, r: Request, half: int): (issued: Option<Boost>)
    requires half > 0
    ensures issued.Some? ==>
              && issued.value.time == r.now && issued.value.duration == Duration(r.profile, r.data)
              && 200 <= issued.value.duration <= 5000
  {
    var duration := Duration(r.profile, r.data);
    if r.profile == PROFILE_POWER_SAVE then
      None
    else if CalcTimespanUs(previous, r.now, half) < 250000 && duration <= 750 then
      None
    else
      Some(Boost(r.now, duration, r.profile == PROFILE_BIAS_POWER, duration >= MIN_FLING_DURATION))
  }

  /** The boosts of the first `n` requests of a run, oldest first. */
  function Boosts(rs: seq<Request>, n: nat, half: int): (bs: seq<Boost>)
    requires half > 0 && n <= |rs|
  {
    if n == 0 then
      []
    else
      var before := Boosts(rs, n - 1, half);
      match Issue(Previous(before), rs[n - 1], half)
      case None => before
      case Some(b) => before + [b]
  }

  /** The static starts at time zero. */
  function Previous(bs: seq<Boost>): Timespec {
    if bs == [] then Timespec(0, 0) else bs[|bs| - 1].time
  }

  predicate Monotonic(rs: seq<Request>) {
    && (forall i :: 0 <= i < |rs| ==> rs[i].now.sec >= 0)
    && (forall i, j :: 0 <= i < j < |rs| ==> Nanos(rs[i].now) <= Nanos(rs[j].now))
  }

  /**
    A boost lasts 500 ms at BIAS_POWER (3) and HIGH_PERFORMANCE (2) and 200 ms otherwise, or as long as requested if
    that is longer, up to 5000 ms.
  */
  lemma BoostDuration(r: Request)
    ensures var base := if r.profile == 2 || r.profile == 3 then 500 else 200;
            Duration(r.profile, r.data) == if r.data == None || r.data.value <= base then base
                                           else if r.data.value > 5000 then 5000 else r.data.value
  {
  }

  /**
    A request is dropped exactly at POWER_SAVE (0), or if it asks for at most 750 ms within 250 ms by the clock's span;
    BIAS_POWER has lists of its own, and from 1500 ms on it is a fling.
  */
  lemma WhenBoosted(previous: Timespec, r: Request, half: int)
    requires half > 0
    ensures var b, ms := Issue(previous, r, half), Duration(r.profile, r.data);
            && (b == None <==> r.profile == 0 || (ms <= 750 && CalcTimespanUs(previous, r.now, half) < 250_000))
            && (b != None ==> b == Some(Boost(r.now, ms, r.profile == 3, ms >= 1500)))
  {
    hide Duration, CalcTimespanUs;
  }

  /** Even when the product wraps, a short boost is never more than a microsecond early. */
  lemma ShortBoostNotEarly(previous: Timespec, r: Request, half: int)
    requires half >= 0x8000_0000 && Nanos(previous) <= Nanos(r.now)
    requires Issue(previous, r, half).Some? && Duration(r.profile, r.data) <= 750
    ensures Nanos(r.now) - Nanos(previous) > 249_999_000
  {
    TimespanIsRounded(previous, r.now, half);
  }

  /**
    A drop is right, that is, within 250 ms of the previous boost, if and only if the seconds since then fit the
    product; only boosts of at most 750 ms are dropped.
  */
  lemma DropIsRightUnlessWrapped(previous: Timespec, r: Request, half: int)
    requires half >= 0x8000_0000 && Nanos(previous) <= Nanos(r.now)
    requires r.profile != PROFILE_POWER_SAVE && Issue(previous, r, half).None?
    ensures Duration(r.profile, r.data) <= 750
    ensures Nanos(r.now) - Nanos(previous) < 250_000_000 <==> (r.now.sec - previous.sec) * 1_000_000 < half
  {
    TimespanIsRounded(previous, r.now, half);
  }

  /** With a 32-bit `long` the wrap does drop a boost: here 3000 seconds after the previous one. */
  lemma WrapDropsABoost()
    ensures Issue(Timespec(0, 0), Request(PROFILE_BALANCED, None, Timespec(3000, 0)), 0x8000_0000).None?
  {
  }

  lemma AfterZero(t: Timespec)
    requires t.sec >= 0
    ensures Nanos(Timespec(0, 0)) <= Nanos(t)
  {
  }

  lemma {:induction false} PreviousInPast(rs: seq<Request>, n: nat, half: int)
    requires half > 0 && n < |rs| && Monotonic(rs)
    ensures Nanos(Previous(Boosts(rs, n, half))) <= Nanos(rs[n].now)
  {
    hide Issue, Duration, Nanos;
    if n == 0 {
      AfterZero(rs[0].now);
    } else {
      PreviousInPast(rs, n - 1, half);
      assert Nanos(rs[n - 1].now) <= Nanos(rs[n].now);
    }
  }

  /**
    Over every run with a monotonic clock each boost lasts 200 to 5000 ms, and one of at most 750 ms comes more
    than 249.999 ms after the boost before it.
  */
  lemma {:induction false} BoostsAreSpaced(rs: seq<Request>, n: nat, half: int)
    requires half >= 0x8000_0000 && n <= |rs| && Monotonic(rs)
    ensures var bs := Boosts(rs, n, half);
            && (forall i :: 0 <= i < |bs| ==> 200 <= bs[i].duration <= 5000)
            && (forall i :: 1 <= i < |bs| && bs[i].duration <= 750
                  ==> Nanos(bs[i].time) - Nanos(bs[i - 1].time) > 249_999_000)
  {
    hide Issue, Duration, Nanos;
    if n != 0 {
      BoostsAreSpaced(rs, n - 1, half);
      PreviousInPast(rs, n - 1, half);
      var previous, r := Previous(Boosts(rs, n - 1, half)), rs[n - 1];
      if Issue(previous, r, half).Some? && Duration(r.profile, r.data) <= 750 {
        ShortBoostNotEarly(previous, r, half);
      }
    }
  }

  /** The static of `process_interaction_hint`. */
  class InteractionHint {
    var previousBoost: Timespec

    constructor ()
      ensures previousBoost == Timespec(0, 0)
    {
      previousBoost := Timespec(0, 0);
    }

    /** `process_interaction_hint`, reached through `power_hint_override`. */
    method ProcessInteractionHint(r: Request, half: int) returns (issued: Option<Boost>)
      requires half > 0
      modifies this
      ensures issued == Issue(old(previousBoost), r, half)
      ensures previousBoost == if issued.Some? then r.now else old(previousBoost)
    {
      if r.profile == PROFILE_POWER_SAVE {
        return None;
      }
      var duration := DEFAULT_INTERACTIVE_DURATION;
      if r.profile == PROFILE_BIAS_POWER || r.profile == PROFILE_HIGH_PERFORMANCE {
        duration := PERF_INTERACTIVE_DURATION;
      }
      if r.data.Some? {
        var input := r.data.value;
        if input > duration {
          duration := if input > MAX_INTERACTIVE_DURATION then MAX_INTERACTIVE_DURATION else input;
        }
      }
      var elapsed := CalcTimespanUs(previousBoost, r.now, half);
      if elapsed < 250000 && duration <= 750 {
        return None;
      }
      previousBoost := r.now;
      issued := Some(Boost(r.now, duration, r.profile == PROFILE_BIAS_POWER, duration >= MIN_FLING_DURATION));
    }
  }
}
