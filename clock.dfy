/** Wall-clock arithmetic shared by the scheduler and the clicker. Instants
    are integer epoch milliseconds; the JavaScript `Date` getters read the
    local time, which the model takes as the instant plus a fixed offset
    (the local zone's offset from UTC, in milliseconds). */
module Clock {

  const SecondMs: int := 1000
  const MinuteMs: int := 60 * SecondMs
  const HalfHourMs: int := 30 * MinuteMs
  const HourMs: int := 60 * MinuteMs

  /** What `getMinutes()`, `getSeconds()` and `getMilliseconds()` return. */
  datatype LocalTime = LocalTime(minute: int, second: int, millis: int)

  function LocalFields(t: int, offset: int): (f: LocalTime)
    ensures 0 <= f.minute < 60 && 0 <= f.second < 60 && 0 <= f.millis < 1000
  {
    var l := t + offset;
    LocalTime((l / MinuteMs) % 60, (l / SecondMs) % 60, l % SecondMs)
  }

  /** A registration boundary: local minute 0 or 30, second 0, millisecond 0. */
  predicate IsBoundary(t: int, offset: int) {
    (t + offset) % HalfHourMs == 0
  }

  /** The local time splits into whole minutes, seconds and milliseconds, and
      its position inside the current half hour is fixed by the three fields. */
  lemma LocalFieldsSplit(t: int, offset: int)
    ensures var l, f := t + offset, LocalFields(t, offset);
            l == MinuteMs * (l / MinuteMs) + SecondMs * f.second + f.millis &&
            f.minute == (l / MinuteMs) % 60 &&
            l % HalfHourMs == MinuteMs * (f.minute % 30) + SecondMs * f.second + f.millis
  {
    var l := t + offset;
    var a, ms := l / 1000, l % 1000;
    var b, s := a / 60, a % 60;
    assert l == 1000 * a + ms;
    assert a == 60 * b + s;
    assert l == 60000 * b + (1000 * s + ms);
    assert 0 <= 1000 * s + ms < 60000;
    assert l / 60000 == b;
    var c, m := b / 60, b % 60;
    assert b == 60 * c + m;
    assert b == 30 * (2 * c + m / 30) + m % 30;
    assert l == 1800000 * (2 * c + m / 30) + (60000 * (m % 30) + 1000 * s + ms);
    assert 0 <= 60000 * (m % 30) + 1000 * s + ms < 1800000;
  }

  /** The first boundary strictly after `t`: an independent reference for the
      targets the scheduler computes from the clock fields. */
  function NextBoundary(t: int, offset: int): (b: int)
    ensures IsBoundary(b, offset)
    ensures t < b <= t + HalfHourMs
    ensures forall c :: IsBoundary(c, offset) && t < c ==> b <= c
  {
    var l := t + offset;
    var b := l - l % HalfHourMs + HalfHourMs - offset;
    assert b + offset == HalfHourMs * (l / HalfHourMs + 1);
    forall c | IsBoundary(c, offset) && t < c ensures b <= c {
      var k := (c + offset) / HalfHourMs;
      assert c + offset == HalfHourMs * k;
      assert HalfHourMs * k > HalfHourMs * (l / HalfHourMs);
    }
    b
  }
}
