/** The 32-bit FreeRTOS tick counter and the elapsed-time test built on it.
    One tick is one millisecond (CONFIG_FREERTOS_HZ is 1000). */
module Ticks {

  const TICK_MODULUS: nat := 0x1_0000_0000
  const HALF_RANGE: nat := 0x8000_0000

  type Tick = t: nat | t < 0x1_0000_0000
  /** Durations are cast to a signed 32-bit integer by the source, so they stay below 2^31. */
  type Duration = d: nat | d < 0x8000_0000

  /** What the tick counter shows at an absolute time. */
  function TickAt(time: nat): Tick {
    time % TICK_MODULUS
  }

  /** `now - start` in unsigned 32-bit arithmetic, reinterpreted as a signed integer. */
  function SignedDifference(start: Tick, now: Tick): int {
    var difference := (now - start) % TICK_MODULUS;
    if difference < HALF_RANGE then difference else difference - TICK_MODULUS
  }

  /** A start tick of 0 means "never started". */
  predicate TickElapsed(start: Tick, now: Tick, duration: Duration) {
    start != 0 && SignedDifference(start, now) >= duration
  }

  /** Wrap-around is harmless while the true gap stays below 2^31 ticks. */
  lemma TickElapsedIsTrueElapsed(startTime: nat, nowTime: nat, duration: Duration)
    requires startTime <= nowTime < startTime + HALF_RANGE
    requires TickAt(startTime) != 0
    ensures TickElapsed(TickAt(startTime), TickAt(nowTime), duration) <==> nowTime - startTime >= duration
  {
    var q, r := startTime / TICK_MODULUS, nowTime / TICK_MODULUS;
    var gap := nowTime - startTime;
    assert TickAt(nowTime) - TickAt(startTime) == gap - (r - q) * TICK_MODULUS;
    assert r - q == 0 || r - q == 1;
    assert (TickAt(nowTime) - TickAt(startTime)) % TICK_MODULUS == gap;
  }

  /** The signed difference is the true gap modulo 2^32. */
  lemma SignedDifferenceIsTheGap(startTime: nat, nowTime: nat)
    requires startTime <= nowTime
    ensures var d, gap := SignedDifference(TickAt(startTime), TickAt(nowTime)), (nowTime - startTime) % TICK_MODULUS;
      d == if gap < HALF_RANGE then gap else gap - TICK_MODULUS
  {
    var q, r := startTime / TICK_MODULUS, nowTime / TICK_MODULUS;
    var gap := nowTime - startTime;
    var k := gap / TICK_MODULUS;
    assert TickAt(nowTime) - TickAt(startTime) == gap % TICK_MODULUS + (k - r + q) * TICK_MODULUS;
    var m := k - r + q;
    assert m == 0 || m == -1;
  }

  /** The test is right about a gap, for every duration, exactly below 2^31 ticks and at the one residue
      that still reads as the longest possible wait. */
  lemma TickTestIsRightExactly(startTime: nat, nowTime: nat)
    requires startTime <= nowTime && TickAt(startTime) != 0
    ensures (forall d: Duration :: TickElapsed(TickAt(startTime), TickAt(nowTime), d) <==> nowTime - startTime >= d)
            <==> nowTime - startTime < HALF_RANGE || (nowTime - startTime) % TICK_MODULUS == HALF_RANGE - 1
  {
    SignedDifferenceIsTheGap(startTime, nowTime);
    var gap := nowTime - startTime;
    var longest: Duration := 0x7FFF_FFFF;
    if gap >= HALF_RANGE {
      assert gap >= longest;
      if gap % TICK_MODULUS != HALF_RANGE - 1 {
        assert !TickElapsed(TickAt(startTime), TickAt(nowTime), longest);
      }
    } else {
      assert gap % TICK_MODULUS == gap;
    }
  }

  /** At a gap of exactly 2^31 the test answers "not elapsed" for every duration. */
  lemma HalfRangeGapReadsAsFuture(startTime: nat, duration: Duration)
    requires TickAt(startTime) != 0
    ensures !TickElapsed(TickAt(startTime), TickAt(startTime + HALF_RANGE), duration)
  {
    SignedDifferenceIsTheGap(startTime, startTime + HALF_RANGE);
  }
}
