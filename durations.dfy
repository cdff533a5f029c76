/**
 * Go's time.Duration arithmetic that fmtDuration relies on: a Duration is a
 * signed 64-bit count of nanoseconds, `/` on it truncates toward zero, and
 * Round rounds half away from zero, saturating at the ends of the range.
 */
module Durations {

  const MICROSECOND: int := 1_000
  const MILLISECOND: int := 1_000_000
  const SECOND: int := 1_000_000_000
  const MINUTE: int := 60_000_000_000

  const MIN_DURATION: int := -0x8000_0000_0000_0000
  const MAX_DURATION: int := 0x7FFF_FFFF_FFFF_FFFF

  predicate InRange(d: int) {
    MIN_DURATION <= d <= MAX_DURATION
  }

  /** Go's integer division, which truncates toward zero. */
  function Quo(a: int, b: int): int
    requires b > 0
  {
    if a >= 0 then a / b else -((-a) / b)
  }

  /** Go's `%`, whose result has the sign of the dividend. */
  function Rem(a: int, b: int): int
    requires b > 0
  {
    a - b * Quo(a, b)
  }

  /** Quotient and remainder put the dividend back together; the remainder has its sign. */
  lemma QuoRem(a: int, b: int)
    requires b > 0
    ensures a == b * Quo(a, b) + Rem(a, b)
    ensures a >= 0 ==> Quo(a, b) == a / b && 0 <= Rem(a, b) < b
    ensures a < 0 ==> Quo(a, b) == -((-a) / b) && -b < Rem(a, b) <= 0
  {
    if a < 0 {
      assert -a == b * ((-a) / b) + (-a) % b;
    } else {
      assert a == b * (a / b) + a % b;
    }
  }

  /**
   * Duration.Round(m): a non-positive m leaves d as it is; when the
   * rounded multiple would leave the range, the result saturates.
   */
  function Round(d: int, m: int): (r: int)
    requires InRange(d) && InRange(m)
    ensures InRange(r)
    ensures m <= 0 ==> r == d
    ensures m > 0 && d >= 0 && Rem(d, m) + Rem(d, m) >= m && d + m - Rem(d, m) > MAX_DURATION
      ==> r == MAX_DURATION
    ensures m > 0 && d < 0 && -Rem(d, m) - Rem(d, m) >= m && d - m - Rem(d, m) < MIN_DURATION
      ==> r == MIN_DURATION
  {
    if m <= 0 then d
    else
      QuoRem(d, m);
      var rem := Rem(d, m);
      if d < 0 then
        var rem' := -rem;
        if rem' + rem' < m then d + rem'
        else if d - m + rem' >= MIN_DURATION then d - m + rem'
        else MIN_DURATION
      else
        if rem + rem < m then d - rem
        else if d + m - rem <= MAX_DURATION then d + m - rem
        else MAX_DURATION
  }

  /**
   * When the multiple Round would step to lies in the range (the two cases
   * Round's own contract leaves out, where it saturates), Round gives a
   * multiple of m next to d (the one toward zero, or the next one away from
   * zero) within half of m, and a tie goes away from zero.
   */
  lemma RoundNearest(d: int, m: int)
    requires InRange(d) && InRange(m) && m > 0
    ensures var r := Round(d, m); var q := Quo(d, m); var x := Rem(d, m);
      (d >= 0 ==> x + x < m || d + m - x <= MAX_DURATION)
      && (d < 0 ==> -x - x < m || d - m - x >= MIN_DURATION)
      ==>
        (r == m * q || r == m * q + (if d >= 0 then m else -m))
        && -m <= (r - d) * 2 <= m
        && ((r - d) * 2 == m ==> d >= 0)
        && ((r - d) * 2 == -m ==> d < 0)
  {
    QuoRem(d, m);
  }

  /**
   * Away from the ends of the range, rounding to a microsecond gives the
   * nearest multiple of a microsecond, a tie going away from zero.
   */
  lemma RoundToMicrosecond(d: int)
    requires MIN_DURATION + MICROSECOND <= d <= MAX_DURATION - MICROSECOND
    ensures var r := Round(d, MICROSECOND);
      r % MICROSECOND == 0 && -500 <= r - d <= 500
      && (r - d == 500 ==> d >= 0)
      && (r - d == -500 ==> d < 0)
  {
    QuoRem(d, MICROSECOND);
    RoundNearest(d, MICROSECOND);
  }

  /** A quotient and remainder of the right sign are Go's quotient and remainder. */
  lemma QuoUnique(a: int, b: int, q: int, x: int)
    requires b > 0 && a == b * q + x
    requires a >= 0 ==> 0 <= x < b
    requires a < 0 ==> -b < x <= 0
    ensures Quo(a, b) == q && Rem(a, b) == x
  {
    QuoRem(a, b);
    var k := Quo(a, b) - q;
    assert b * k == x - Rem(a, b);
  }

  /** What is left below a minute holds fewer than 60 whole seconds. */
  lemma SecondsBelow(a: int)
    requires -MINUTE < a < MINUTE
    ensures -60 < Quo(a, SECOND) < 60
  {
  }

  /** What is left below a second holds fewer than 1000 whole milliseconds. */
  lemma MillisBelow(a: int)
    requires -SECOND < a < SECOND
    ensures -1000 < Quo(a, MILLISECOND) < 1000
  {
  }

  /** The three numbers fmtDuration prints. */
  datatype Clock = Clock(minutes: int, seconds: int, millis: int)

  /** The remainders taken in turn by fmtDuration, each with the sign of r. */
  lemma ClockParts(r: int, m: int, s: int, ms: int)
    requires m == Quo(r, MINUTE) && s == Quo(r - m * MINUTE, SECOND)
    requires ms == Quo(r - m * MINUTE - s * SECOND, MILLISECOND)
    ensures var x := r - m * MINUTE - s * SECOND - ms * MILLISECOND;
      (r >= 0 ==> 0 <= x < MILLISECOND && 0 <= s < 60 && 0 <= ms < 1000)
      && (r < 0 ==> -MILLISECOND < x <= 0 && -60 < s <= 0 && -1000 < ms <= 0)
  {
    var d2 := r - m * MINUTE;
    var d3 := d2 - s * SECOND;
    QuoRem(r, MINUTE);
    QuoRem(d2, SECOND);
    QuoRem(d3, MILLISECOND);
    SecondsBelow(d2);
    MillisBelow(d3);
  }

  /** The parts add up to r less its sub-millisecond remainder. */
  lemma ClockSum(r: int, m: int, s: int, ms: int)
    requires m == Quo(r, MINUTE) && s == Quo(r - m * MINUTE, SECOND)
    requires ms == Quo(r - m * MINUTE - s * SECOND, MILLISECOND)
    ensures m * MINUTE + s * SECOND + ms * MILLISECOND == r - Rem(r, MILLISECOND)
  {
    ClockParts(r, m, s, ms);
    var x := r - m * MINUTE - s * SECOND - ms * MILLISECOND;
    var k := m * 60_000 + s * 1_000 + ms;
    assert m * MINUTE == (m * 60_000) * MILLISECOND;
    assert s * SECOND == (s * 1_000) * MILLISECOND;
    assert r == MILLISECOND * k + x;
    QuoUnique(r, MILLISECOND, k, x);
  }

  /**
   * fmtDuration without the text formatting: round to a microsecond, then
   * split off whole minutes, whole seconds and whole milliseconds, each
   * with Go's truncating division.
   */
  function FmtDuration(d: int): (c: Clock)
    requires InRange(d)
    ensures var r := Round(d, MICROSECOND);
      c.minutes * MINUTE + c.seconds * SECOND + c.millis * MILLISECOND == r - Rem(r, MILLISECOND)
    ensures var r := Round(d, MICROSECOND);
      r >= 0 ==>
        c.minutes == r / MINUTE && 0 <= c.seconds < 60 && 0 <= c.millis < 1000
        && c.minutes * MINUTE + c.seconds * SECOND + c.millis * MILLISECOND <= r
        && r < c.minutes * MINUTE + c.seconds * SECOND + (c.millis + 1) * MILLISECOND
    ensures var r := Round(d, MICROSECOND);
      r < 0 ==>
        c.minutes == -((-r) / MINUTE) && -60 < c.seconds <= 0 && -1000 < c.millis <= 0
        && c.minutes * MINUTE + c.seconds * SECOND + (c.millis - 1) * MILLISECOND < r
        && r <= c.minutes * MINUTE + c.seconds * SECOND + c.millis * MILLISECOND
  {
    var d1 := Round(d, MICROSECOND);
    var m := Quo(d1, MINUTE);
    var d2 := d1 - m * MINUTE;
    var s := Quo(d2, SECOND);
    var d3 := d2 - s * SECOND;
    var ms := Quo(d3, MILLISECOND);
    QuoRem(d1, MINUTE);
    ClockParts(d1, m, s, ms);
    ClockSum(d1, m, s, ms);
    Clock(m, s, ms)
  }
}
