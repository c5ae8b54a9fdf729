/** The daemon's clock (clock.hpp) and `synchronize_time` (discovery_service.cpp). */
module TimeSync {

  const HYSTERESIS_MS: int := 250

  /** The system clock and the offset the daemon adds to it. */
  datatype ClockState = ClockState(systemMs: int, offsetMs: int) {
    function Local(): int { systemMs + offsetMs }

    /** Time passes on the system clock, and so on the local one. */
    function Tick(elapsedMs: nat): (after: ClockState)
      ensures after.Local() == Local() + elapsedMs && after.offsetMs == offsetMs
    {
      this.(systemMs := systemMs + elapsedMs)
    }
  }

  class Clock {
    var systemMs: int
    var offsetMs: int

    constructor (systemMs: int)
      ensures State() == ClockState(systemMs, 0)
    {
      this.systemMs, offsetMs := systemMs, 0;
    }

    function State(): ClockState
      reads this
    {
      ClockState(systemMs, offsetMs)
    }

    method CurrentTimeMs() returns (now: int)
      ensures now == State().Local() && now == systemMs + offsetMs
    {
      now := systemMs + offsetMs;
    }

    method SetTimeOffsetMs(offset: int)
      modifies this`offsetMs
      ensures offsetMs == offset
    {
      offsetMs := offset;
    }

    /** `permitted` is whether the kernel lets the process set the clock. */
    method SetSystemTimeMs(timestamp: int, permitted: bool) returns (done: bool)
      modifies this
      ensures done <==> timestamp >= 0 && permitted
      ensures State() == if done then ClockState(timestamp, 0) else old(State())
    {
      if timestamp < 0 {
        return false;
      }
      var seconds, nanoseconds := timestamp / 1000, timestamp % 1000 * 1000000;
      if !permitted {
        return false;
      }
      systemMs := seconds * 1000 + nanoseconds / 1000000;
      SetTimeOffsetMs(0);
      return true;
    }

    method SynchronizeTime(authorityTimeMs: int, permitted: bool)
      modifies this
      ensures State() == Synchronized(old(State()), authorityTimeMs, permitted)
    {
      if authorityTimeMs <= 0 {
        return;
      }
      var measuredOffset := authorityTimeMs - systemMs;
      var offsetDelta := measuredOffset - offsetMs;
      if -HYSTERESIS_MS < offsetDelta < HYSTERESIS_MS {
        return;
      }
      var done := SetSystemTimeMs(authorityTimeMs, permitted);
      if done {
        return;
      }
      SetTimeOffsetMs(measuredOffset);
    }
  }

  /** Whether an authority time moves the clock. */
  predicate Adjusts(clock: ClockState, authorityTimeMs: int) {
    authorityTimeMs > 0 && !(-HYSTERESIS_MS < authorityTimeMs - clock.Local() < HYSTERESIS_MS)
  }

  /**
   * After any authority time the local clock is within 250 ms of it, and exactly
   * on it if it had to move: by the system clock where that can be set, and else
   * by the offset.
   */
  function Synchronized(clock: ClockState, authorityTimeMs: int, permitted: bool): (after: ClockState)
    ensures authorityTimeMs > 0 ==> -HYSTERESIS_MS < authorityTimeMs - after.Local() < HYSTERESIS_MS
    ensures after.Local() != clock.Local() <==> Adjusts(clock, authorityTimeMs)
    ensures after.Local() == clock.Local() || after.Local() == authorityTimeMs
    ensures Adjusts(clock, authorityTimeMs) <==>
              && authorityTimeMs > 0
              && (authorityTimeMs - clock.Local() <= -250 || authorityTimeMs - clock.Local() >= 250)
    ensures !Adjusts(clock, authorityTimeMs) ==> after == clock
    ensures Adjusts(clock, authorityTimeMs) && permitted ==> after == ClockState(authorityTimeMs, 0)
    ensures Adjusts(clock, authorityTimeMs) && !permitted ==>
              after.systemMs == clock.systemMs && after.offsetMs == authorityTimeMs - clock.systemMs
  {
    if !Adjusts(clock, authorityTimeMs) then clock
    else if permitted then ClockState(authorityTimeMs, 0)
    else ClockState(clock.systemMs, authorityTimeMs - clock.systemMs)
  }

  /** An authority time that arrives `elapsedMs` after the one before it. */
  datatype Signal = Signal(elapsedMs: nat, authorityTimeMs: int, permitted: bool)

  datatype Watch = Watch(clock: ClockState, adjustments: nat)

  function After(clock: ClockState, signals: seq<Signal>): Watch {
    if signals == [] then Watch(clock, 0)
    else
      var before := After(clock, signals[..|signals| - 1]);
      var s := signals[|signals| - 1];
      var ticked := before.clock.Tick(s.elapsedMs);
      Watch(Synchronized(ticked, s.authorityTimeMs, s.permitted),
            before.adjustments + if Adjusts(ticked, s.authorityTimeMs) then 1 else 0)
  }

  /** Time since the run began, on a clock that nobody adjusts. */
  function Uptime(signals: seq<Signal>): nat {
    if signals == [] then 0 else Uptime(signals[..|signals| - 1]) + signals[|signals| - 1].elapsedMs
  }

  /** What signal `i` says the authority's clock shows at uptime 0. */
  function Origin(signals: seq<Signal>, i: nat): int
    requires i < |signals|
  {
    signals[i].authorityTimeMs - Uptime(signals[..i + 1])
  }

  /** Any two signals disagree by less than the hysteresis, and carry real times. */
  ghost predicate Steady(signals: seq<Signal>) {
    && (forall i :: 0 <= i < |signals| ==> signals[i].authorityTimeMs > 0)
    && (forall i, j :: 0 <= i < |signals| && 0 <= j < |signals| ==>
          Origin(signals, i) - Origin(signals, j) < HYSTERESIS_MS)
  }

  /** That is: what two signals show, each less the time gone by, differs by less than 250 ms. */
  lemma SteadyMeans(signals: seq<Signal>)
    ensures Steady(signals) <==>
              && (forall i :: 0 <= i < |signals| ==> signals[i].authorityTimeMs > 0)
              && (forall i, j :: 0 <= i < |signals| && 0 <= j < |signals| ==>
                    (signals[i].authorityTimeMs - Uptime(signals[..i + 1]))
                    - (signals[j].authorityTimeMs - Uptime(signals[..j + 1])) < 250)
  {
    forall i, j | 0 <= i < |signals| && 0 <= j < |signals|
      ensures Origin(signals, i) - Origin(signals, j) ==
              (signals[i].authorityTimeMs - Uptime(signals[..i + 1]))
              - (signals[j].authorityTimeMs - Uptime(signals[..j + 1]))
    {
    }
  }

  /** Signal `i` is off the starting clock by the hysteresis or more. */
  predicate FarFromStart(clock: ClockState, signals: seq<Signal>, i: nat)
    requires i < |signals|
  {
    !(-HYSTERESIS_MS < Origin(signals, i) - clock.Local() < HYSTERESIS_MS)
  }

  ghost predicate SomeFarFromStart(clock: ClockState, signals: seq<Signal>) {
    exists i :: 0 <= i < |signals| && FarFromStart(clock, signals, i)
  }

  lemma OriginOfPrefix(signals: seq<Signal>, n: nat, i: nat)
    requires i < n <= |signals|
    ensures Origin(signals[..n], i) == Origin(signals, i)
  {
    assert signals[..n][..i + 1] == signals[..i + 1];
  }

  /**
   * Stability: over any run of signals from one authority whose jitter stays
   * below 250 ms, with clocks of equal rate, the clock moves at most once, and
   * it moves at all exactly if some signal is 250 ms or more off the clock the
   * run began with. Whether the system clock can be set may change at any time.
   */
  lemma {:induction false} AtMostOneAdjustment(clock: ClockState, signals: seq<Signal>)
    requires Steady(signals)
    ensures After(clock, signals).adjustments == if SomeFarFromStart(clock, signals) then 1 else 0
  {
    Settles(clock, signals);
  }

  /** The clock runs on from its start until the first far signal, and from that signal's time ever after. */
  lemma {:induction false} Settles(clock: ClockState, signals: seq<Signal>)
    requires Steady(signals)
    ensures var w := After(clock, signals);
            if SomeFarFromStart(clock, signals)
            then && w.adjustments == 1
                 && exists i :: 0 <= i < |signals| && w.clock.Local() == Origin(signals, i) + Uptime(signals)
            else w.adjustments == 0 && w.clock.Local() == clock.Local() + Uptime(signals)
  {
    if signals != [] {
      var n := |signals| - 1;
      var prefix := signals[..n];
      forall i | 0 <= i < n ensures Origin(prefix, i) == Origin(signals, i) {
        OriginOfPrefix(signals, n, i);
      }
      assert Steady(prefix);
      Settles(clock, prefix);
      assert signals[..n + 1] == signals;
      assert Origin(signals, n) == signals[n].authorityTimeMs - Uptime(signals);
      if SomeFarFromStart(clock, prefix) {
        var i :| 0 <= i < n && FarFromStart(clock, prefix, i);
        assert FarFromStart(clock, signals, i);
        var k :| 0 <= k < n && After(clock, prefix).clock.Local() == Origin(prefix, k) + Uptime(prefix);
        assert Origin(signals, n) - Origin(signals, k) < HYSTERESIS_MS;
        assert Origin(signals, k) - Origin(signals, n) < HYSTERESIS_MS;
        assert After(clock, signals).clock.Local() == Origin(signals, k) + Uptime(signals);
      } else {
        forall i | 0 <= i < n ensures !FarFromStart(clock, signals, i) {
          assert !FarFromStart(clock, prefix, i);
        }
        if FarFromStart(clock, signals, n) {
          assert After(clock, signals).clock.Local() == Origin(signals, n) + Uptime(signals);
        }
      }
    }
  }

  /** Two signals in turn, exactly 250 ms apart. */
  function Wavering(base: int, n: nat): seq<Signal> {
    seq(n, i requires 0 <= i < n => Signal(0, base + (if i % 2 == 0 then HYSTERESIS_MS else 0), true))
  }

  /** The bound is sharp: jitter of exactly 250 ms can move the clock at every signal. */
  lemma {:induction false} SharpBound(base: int, n: nat)
    requires base > 0
    ensures After(ClockState(base, 0), Wavering(base, n)).adjustments == n
    ensures After(ClockState(base, 0), Wavering(base, n)).clock.Local() ==
            base + (if n % 2 == 1 then HYSTERESIS_MS else 0)
  {
    if n > 0 {
      SharpBound(base, n - 1);
      assert Wavering(base, n)[..n - 1] == Wavering(base, n - 1);
    }
  }
}
