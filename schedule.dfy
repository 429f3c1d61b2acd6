/** The arithmetic of `scheduleAutoLogin`: the wait to the next :00 or :30,
    the three timer delays armed before that boundary, and the 30-minute
    repeat cycle. The current instant is a parameter instead of a clock read. */
module Schedule {
  import opened Clock

  /** The clicker timer starts this long before the boundary. */
  const ClickerLeadMs: int := 90 * SecondMs
  /** The prefill refresh runs this long before the boundary. */
  const PrefillRefreshLeadMs: int := 1200
  /** Period of the repeat cycle. */
  const RepeatPeriodMs: int := 30 * MinuteMs

  /** `waitMinutes * 60 - seconds`: seconds from minute `m`, second `s` to
      the next :00 or :30. At exactly :00:00 or :30:00 it is a full half hour. */
  function WaitSeconds(m: int, s: int): (w: int)
    requires 0 <= m < 60 && 0 <= s < 60
    ensures 1 <= w <= 1800
    ensures (m * 60 + s + w) % 1800 == 0
    ensures w == 1800 <==> m % 30 == 0 && s == 0
  {
    var waitMinutes := if m < 30 then 30 - m else 60 - m;
    waitMinutes * 60 - s
  }

  /** `d.setSeconds(0, 0)`: the same local minute with seconds and
      milliseconds cleared. */
  function SetSecondsZero(t: int, offset: int): int {
    var f := LocalFields(t, offset);
    t - f.second * SecondMs - f.millis
  }

  /** The first target of `scheduleAutoLogin`: `now + waitSeconds * 1000`,
      then seconds and milliseconds cleared. */
  function FirstTarget(now: int, offset: int): int {
    var f := LocalFields(now, offset);
    SetSecondsZero(now + WaitSeconds(f.minute, f.second) * SecondMs, offset)
  }

  /** The target a repeat-cycle callback computes at `now2`: :30 of this hour
      when the minute is below 30, otherwise :00 of the next hour, with
      seconds and milliseconds cleared. */
  function CycleTarget(now2: int, offset: int): int {
    var f := LocalFields(now2, offset);
    var t0 := SetSecondsZero(now2, offset);
    if f.minute < 30 then t0 + (30 - f.minute) * MinuteMs
    else t0 - f.minute * MinuteMs + HourMs
  }

  /** The first target is the first boundary strictly after `now`: never
      `now` itself, at most half an hour away. */
  lemma FirstTargetIsNextBoundary(now: int, offset: int)
    ensures FirstTarget(now, offset) == NextBoundary(now, offset)
  {
    var f := LocalFields(now, offset);
    var waitMinutes := 30 - f.minute % 30;
    assert WaitSeconds(f.minute, f.second) == waitMinutes * 60 - f.second;
    var later := now + (waitMinutes * 60 - f.second) * SecondMs;
    LaterFields(now, offset, waitMinutes);
    assert SetSecondsZero(later, offset) == now + waitMinutes * MinuteMs - f.second * SecondMs - f.millis;
    LocalFieldsSplit(now, offset);
  }

  /** Adding whole minutes minus the current seconds lands on second 0 with
      the milliseconds unchanged. */
  lemma LaterFields(now: int, offset: int, waitMinutes: int)
    ensures var f := LocalFields(now, offset);
            var g := LocalFields(now + (waitMinutes * 60 - f.second) * SecondMs, offset);
            g.second == 0 && g.millis == f.millis
  {
    var f := LocalFields(now, offset);
    LocalFieldsSplit(now, offset);
    var bm := (now + offset) / MinuteMs;
    var later := now + (waitMinutes * 60 - f.second) * SecondMs;
    var x := bm + waitMinutes;
    assert later + offset == SecondMs * (60 * x) + f.millis;
    SplitSeconds(60 * x, f.millis);
    assert (60 * x) % 60 == 0;
  }

  lemma SplitSeconds(q: int, ms: int)
    requires 0 <= ms < SecondMs
    ensures (SecondMs * q + ms) / SecondMs == q && (SecondMs * q + ms) % SecondMs == ms
  {
  }

  /** The repeat cycle computes the same boundary as the first schedule. */
  lemma CycleTargetIsNextBoundary(now2: int, offset: int)
    ensures CycleTarget(now2, offset) == NextBoundary(now2, offset)
  {
    var f := LocalFields(now2, offset);
    LocalFieldsSplit(now2, offset);
    var bm := (now2 + offset) / MinuteMs;
    assert bm == 60 * (bm / 60) + f.minute;
  }

  /** `Math.max(target - now - lead, 0)`. */
  function TimerDelay(target: int, now: int, lead: int): (d: int)
    ensures d >= 0
    ensures now + d == if target - lead > now then target - lead else now
  {
    if target - now - lead > 0 then target - now - lead else 0
  }

  /** The three timers `scheduleAutoLogin` arms for one target. */
  datatype Plan = Plan(target: int, clickerDelay: int, prefillDelay: int, repeatDelay: int)

  function PlanAutoLogin(now: int, offset: int): (p: Plan)
    ensures p.target == NextBoundary(now, offset)
    ensures 0 <= p.clickerDelay <= p.prefillDelay <= p.repeatDelay
    ensures p.repeatDelay == p.target - now
    ensures p.clickerDelay == p.target - now - ClickerLeadMs || (p.clickerDelay == 0 && p.target - now <= ClickerLeadMs)
    ensures p.prefillDelay == p.target - now - PrefillRefreshLeadMs || (p.prefillDelay == 0 && p.target - now <= PrefillRefreshLeadMs)
  {
    var target := FirstTarget(now, offset);
    FirstTargetIsNextBoundary(now, offset);
    Plan(target, TimerDelay(target, now, ClickerLeadMs), TimerDelay(target, now, PrefillRefreshLeadMs),
         TimerDelay(target, now, 0))
  }

  /* The repeat chain. The repeat-start timer fires at the first target `t`
     and starts a 30-minute interval; its k-th callback (k >= 1) runs at
     `t + k * RepeatPeriodMs`, some `late` milliseconds behind. */

  /** Targets armed by the chain as written: the first target, then one per
      interval callback, the (k+1)-th entry computed at `t + k * period + lates[k-1]`. */
  function ArmedTargetsAsWritten(t: int, offset: int, lates: seq<int>): (r: seq<int>)
    ensures |r| == |lates| + 1 && r[0] == t
  {
    [t] + seq(|lates|, k requires 0 <= k < |lates| => CycleTarget(t + (k + 1) * RepeatPeriodMs + lates[k], offset))
  }

  /** Each callback, running less than a period behind its slot, arms the
      boundary after the one it runs at. */
  lemma CallbackArmsFollowingBoundary(t: int, offset: int, k: int, late: int)
    requires IsBoundary(t, offset) && 0 <= late < RepeatPeriodMs
    ensures CycleTarget(t + k * RepeatPeriodMs + late, offset) == t + (k + 1) * RepeatPeriodMs
  {
    var c := t + k * RepeatPeriodMs + late;
    var q := (t + offset) / HalfHourMs;
    assert t + offset == HalfHourMs * q;
    assert c + offset == HalfHourMs * (q + k) + late;
    ModOfMultiplePlus(q + k, late);
    assert (c + offset) % HalfHourMs == late;
    CycleTargetIsNextBoundary(c, offset);
  }

  lemma ModOfMultiplePlus(n: int, r: int)
    requires 0 <= r < HalfHourMs
    ensures (HalfHourMs * n + r) % HalfHourMs == r
  {
  }

  /** The boundary half an hour after the first target is armed by no
      callback: the first callback runs at it and computes the next one. */
  lemma {:induction false} SecondBoundaryNeverArmed(t: int, offset: int, lates: seq<int>)
    requires IsBoundary(t, offset)
    requires forall k :: 0 <= k < |lates| ==> 0 <= lates[k] < RepeatPeriodMs
    ensures t + RepeatPeriodMs !in ArmedTargetsAsWritten(t, offset, lates)
  {
    var r := ArmedTargetsAsWritten(t, offset, lates);
    forall i | 0 <= i < |r| ensures r[i] != t + RepeatPeriodMs {
      if i > 0 {
        CallbackArmsFollowingBoundary(t, offset, i, lates[i - 1]);
      }
    }
  }

  /** Concrete instance in UTC: scheduling at 12:17:45 targets 12:30, and no
      callback ever targets 13:00. */
  lemma MissedBoundaryExample(lates: seq<int>)
    requires forall k :: 0 <= k < |lates| ==> 0 <= lates[k] < RepeatPeriodMs
    ensures FirstTarget(12 * HourMs + 17 * MinuteMs + 45 * SecondMs, 0) == 12 * HourMs + 30 * MinuteMs
    ensures 13 * HourMs !in ArmedTargetsAsWritten(12 * HourMs + 30 * MinuteMs, 0, lates)
  {
    FirstTargetIsNextBoundary(12 * HourMs + 17 * MinuteMs + 45 * SecondMs, 0);
    SecondBoundaryNeverArmed(12 * HourMs + 30 * MinuteMs, 0, lates);
  }

  /** Targets armed by the corrected chain: the repeat-start timer also arms
      the next boundary at once, so callback k (k >= 0) runs at
      `t + k * period + lates[k]`. */
  function ArmedTargets(t: int, offset: int, lates: seq<int>): (r: seq<int>)
    ensures |r| == |lates| + 1 && r[0] == t
  {
    [t] + seq(|lates|, k requires 0 <= k < |lates| => CycleTarget(t + k * RepeatPeriodMs + lates[k], offset))
  }

  /** The corrected chain arms consecutive boundaries, none skipped, none twice. */
  lemma {:induction false} ArmedTargetsConsecutive(t: int, offset: int, lates: seq<int>)
    requires IsBoundary(t, offset)
    requires forall k :: 0 <= k < |lates| ==> 0 <= lates[k] < RepeatPeriodMs
    ensures forall i :: 0 <= i < |ArmedTargets(t, offset, lates)| ==>
              ArmedTargets(t, offset, lates)[i] == t + i * RepeatPeriodMs
  {
    var r := ArmedTargets(t, offset, lates);
    forall i | 0 <= i < |r| ensures r[i] == t + i * RepeatPeriodMs {
      if i > 0 {
        CallbackArmsFollowingBoundary(t, offset, i - 1, lates[i - 1]);
      }
    }
  }
}
