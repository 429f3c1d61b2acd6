/** `startTimedClicker`: a 5 ms polling loop that attempts the login click in
    the last 200 to 100 milliseconds before a boundary and gives up after two
    minutes. Each tick is a method call carrying the instant it runs at. */
module Clicker {
  import opened Clock

  /** Polling stops once more than this many milliseconds passed since start. */
  const KillAfterMs: int := 120000

  /** The fire test of a tick: minute 29 or 59, second 59, millisecond 800 to 899. */
  predicate InClickWindow(f: LocalTime) {
    f.minute % 30 == 29 && f.second == 59 && 800 <= f.millis < 900
  }

  /** A tick fires exactly when it runs between 200 and 100 milliseconds
      (inclusive, exclusive) before the next boundary. */
  lemma ClickWindowBeforeBoundary(t: int, offset: int)
    ensures InClickWindow(LocalFields(t, offset)) <==>
            NextBoundary(t, offset) - 200 <= t < NextBoundary(t, offset) - 100
  {
    LocalFieldsSplit(t, offset);
    var f := LocalFields(t, offset);
    var pos := (t + offset) % HalfHourMs;
    assert pos == MinuteMs * (f.minute % 30) + SecondMs * f.second + f.millis;
    assert NextBoundary(t, offset) - t == HalfHourMs - pos;
    if HalfHourMs - 200 <= pos < HalfHourMs - 100 {
      assert f.minute % 30 == 29 && f.second == 59;
    }
  }

  class TimedClicker {
    /** `Date.now()` when the clicker was started. */
    const start: int
    /** The interval is still installed. */
    var polling: bool
    /** Click attempts launched so far. */
    var clicksLaunched: nat
    /** Launched click attempts whose promise has not settled yet. */
    var unsettled: nat

    /** `startTimedClicker(targetMs)`: the target is accepted and not used. */
    constructor (startMs: int, targetMs: int)
      ensures start == startMs && polling
      ensures clicksLaunched == 0 && unsettled == 0
    {
      start := startMs;
      polling := true;
      clicksLaunched := 0;
      unsettled := 0;
    }

    /** One interval callback at instant `now`; a cleared interval runs no more
        callbacks, so a stopped clicker ignores the tick. */
    method Tick(now: int, offset: int) returns (clicked: bool)
      modifies this
      ensures clicked <==> old(polling) && InClickWindow(LocalFields(now, offset))
      ensures clicksLaunched == old(clicksLaunched) + (if clicked then 1 else 0)
      ensures unsettled == old(unsettled) + (if clicked then 1 else 0)
      ensures polling <==> old(polling) && now - start <= KillAfterMs
    {
      clicked := false;
      if polling {
        var f := LocalFields(now, offset);
        if InClickWindow(f) {
          clicked := true;
          clicksLaunched := clicksLaunched + 1;
          unsettled := unsettled + 1;
        }
        if now - start > KillAfterMs {
          polling := false;
        }
      }
    }

    /** A launched click settles: its `finally` clears the interval. */
    method Settle()
      requires unsettled > 0
      modifies this
      ensures !polling
      ensures unsettled == old(unsettled) - 1 && clicksLaunched == old(clicksLaunched)
    {
      unsettled := unsettled - 1;
      polling := false;
    }
  }
}
