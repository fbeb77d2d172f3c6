/** The application shell of `app/page.tsx`: its state, the day-rollover rule that
    turns the `"HH:MM"` target into an instant, and the choice of calculator.

    The clock is a parameter: `nowMs` is the reading of `new Date()` / `Date.now()`
    in local wall-clock milliseconds, so `nowMs / 60000` is a local minute. */
module Page {
  import opened Wrappers
  import opened Text
  import opened Sleep

  datatype Mode = WakeMode | SleepMode

  const MsPerMinute: int := 60000
  const TwelveHoursMs: int := 12 * 60 * 60 * 1000

  const InitialTargetTime: string := "07:00"
  const InitialFallAsleepTime: int := 15
  const InitialCycleDuration: int := 90

  /** Local midnight of the day holding `nowMs`, in minutes (`new Date(y, m, d)` of today). */
  function TodayStart(nowMs: int): (d: int)
    ensures d % MinutesPerDay == 0
    ensures d * MsPerMinute <= nowMs < (d + MinutesPerDay) * MsPerMinute
  {
    var nowMinute := nowMs / MsPerMinute;
    nowMinute - nowMinute % MinutesPerDay
  }

  /** `new Date(today.getFullYear(), today.getMonth(), today.getDate(), hours, minutes)`;
      fields past their range carry into the following hours and days. */
  function TodayAt(nowMs: int, hours: nat, minutes: nat): (t: int)
    ensures TodayStart(nowMs) <= t
    ensures hours < 24 && minutes < MinutesPerHour ==>
      t < TodayStart(nowMs) + MinutesPerDay && HourOf(t) == hours && MinuteOf(t) == minutes
  {
    var d := TodayStart(nowMs);
    var t := d + hours * MinutesPerHour + minutes;
    if hours < 24 && minutes < MinutesPerHour then
      assert d == MinutesPerDay * (d / MinutesPerDay) + d % MinutesPerDay;
      ClockOf(t, d / MinutesPerDay, hours, minutes);
      t
    else t
  }

  /** Wake mode: today at the target time, moved to tomorrow when it is already past. */
  function WakeUpDate(nowMs: int, hours: nat, minutes: nat): (t: int)
    ensures var today := TodayAt(nowMs, hours, minutes);
      && (t == today || t == today + MinutesPerDay)
      && (t == today + MinutesPerDay <==> today * MsPerMinute < nowMs)
    ensures t * MsPerMinute >= nowMs
  {
    var wakeUpDate := TodayAt(nowMs, hours, minutes);
    if wakeUpDate * MsPerMinute < nowMs then wakeUpDate + MinutesPerDay else wakeUpDate
  }

  /** Sleep mode: today at the target time, moved to tomorrow only when it lies more
      than twelve hours in the past. */
  function SleepDate(nowMs: int, hours: nat, minutes: nat): (t: int)
    ensures var today := TodayAt(nowMs, hours, minutes);
      && (t == today || t == today + MinutesPerDay)
      && (t == today + MinutesPerDay <==> today * MsPerMinute < nowMs - TwelveHoursMs)
    ensures t * MsPerMinute >= nowMs - TwelveHoursMs
  {
    var sleepDate := TodayAt(nowMs, hours, minutes);
    if sleepDate * MsPerMinute < nowMs - TwelveHoursMs then sleepDate + MinutesPerDay else sleepDate
  }

  /** The body of the recompute effect: what `setResults` receives. None stands for a
      target text whose fields are not numbers. */
  function Results(mode: Mode, targetTime: string, fallAsleepTime: int, cycleDuration: int, nowMs: int)
    : (r: Option<seq<SleepCycle>>)
    ensures r.Some? <==> ParseClock(targetTime).Some?
    ensures r.Some? ==> |r.value| == |CyclesToCalculate|
    ensures r.Some? && mode == WakeMode ==> SortedByTime(r.value)
    ensures r.Some? && mode == SleepMode ==> forall i :: 0 <= i < |r.value| ==> r.value[i].cycles == i + 1
  {
    match ParseClock(targetTime)
    case None => None
    case Some((hours, minutes)) =>
      if mode == WakeMode then
        Some(CalculateBedTimes(WakeUpDate(nowMs, hours, minutes), fallAsleepTime, cycleDuration))
      else
        Some(CalculateWakeUpTimes(SleepDate(nowMs, hours, minutes), fallAsleepTime, cycleDuration))
  }

  /** In wake mode every suggested bed time leaves at least its cycles plus the latency
      before the wake instant, which is never in the past; the slack is under ten minutes. */
  lemma WakeModeBedTimesFitBeforeTarget(targetTime: string, fallAsleepTime: int, cycleDuration: int, nowMs: int, k: int)
    requires ParseClock(targetTime).Some?
    requires 0 <= k < |CyclesToCalculate|
    ensures var (hours, minutes) := ParseClock(targetTime).value;
      var wakeUpDate := WakeUpDate(nowMs, hours, minutes);
      var e := Results(WakeMode, targetTime, fallAsleepTime, cycleDuration, nowMs).value[k];
      && wakeUpDate * MsPerMinute >= nowMs
      && e.time + e.cycles * cycleDuration + fallAsleepTime <= wakeUpDate
      && wakeUpDate < e.time + e.cycles * cycleDuration + fallAsleepTime + 10
  {
    var (hours, minutes) := ParseClock(targetTime).value;
    BedTimesEntries(WakeUpDate(nowMs, hours, minutes), fallAsleepTime, cycleDuration, k);
  }

  /** In sleep mode the n-th wake time lies at least the latency plus n cycles after the
      bedtime instant, and less than ten minutes beyond that. */
  lemma SleepModeWakeTimesFollowTarget(targetTime: string, fallAsleepTime: int, cycleDuration: int, nowMs: int, k: int)
    requires ParseClock(targetTime).Some?
    requires 0 <= k < |CyclesToCalculate|
    ensures var (hours, minutes) := ParseClock(targetTime).value;
      var sleepDate := SleepDate(nowMs, hours, minutes);
      var e := Results(SleepMode, targetTime, fallAsleepTime, cycleDuration, nowMs).value[k];
      && e.cycles == k + 1
      && sleepDate + fallAsleepTime + e.cycles * cycleDuration <= e.time
      && e.time < sleepDate + fallAsleepTime + e.cycles * cycleDuration + 10
  {
  }

  /** The initial target `"07:00"` parses as 7 hours and 0 minutes. */
  lemma InitialTargetParses()
    ensures ParseClock(InitialTargetTime) == Some((7, 0))
  {
    ParseClockText(7, 0);
    assert ClockText(7, 0) == InitialTargetTime;
  }

  /** The state of `Home`. `computedAt` records the clock reading the last run of the
      recompute effect saw; the effect runs on mount and whenever one of its four
      dependencies takes a new value. */
  class Home {
    var mode: Mode
    var targetTime: string
    var fallAsleepTime: int
    var cycleDuration: int
    var isSettingsOpen: bool
    var results: Option<seq<SleepCycle>>
    ghost var computedAt: int

    /** `results` is always the effect's value for the current inputs. */
    ghost predicate Valid()
      reads this
    {
      results == Results(mode, targetTime, fallAsleepTime, cycleDuration, computedAt)
    }

    /** The state after the first render and the mount run of the effect at `nowMs`. */
    constructor (nowMs: int)
      ensures Valid() && computedAt == nowMs
      ensures mode == SleepMode && targetTime == InitialTargetTime
      ensures fallAsleepTime == InitialFallAsleepTime && cycleDuration == InitialCycleDuration
      ensures !isSettingsOpen
      ensures results.Some?
    {
      mode := SleepMode;
      targetTime := InitialTargetTime;
      fallAsleepTime := InitialFallAsleepTime;
      cycleDuration := InitialCycleDuration;
      isSettingsOpen := false;
      InitialTargetParses();
      results := Results(SleepMode, InitialTargetTime, InitialFallAsleepTime, InitialCycleDuration, nowMs);
      computedAt := nowMs;
    }

    /** The recompute effect run at `nowMs`. */
    method Recompute(nowMs: int)
      modifies this`results, this`computedAt
      ensures Valid() && computedAt == nowMs
    {
      results := Results(mode, targetTime, fallAsleepTime, cycleDuration, nowMs);
      computedAt := nowMs;
    }

    /** `setMode`: a new value reruns the effect; the same value changes nothing. */
    method SetMode(m: Mode, nowMs: int)
      requires Valid()
      modifies this
      ensures Valid() && mode == m
      ensures targetTime == old(targetTime) && fallAsleepTime == old(fallAsleepTime)
      ensures cycleDuration == old(cycleDuration) && isSettingsOpen == old(isSettingsOpen)
      ensures m == old(mode) ==> results == old(results) && computedAt == old(computedAt)
      ensures m != old(mode) ==> computedAt == nowMs
    {
      if m != mode {
        mode := m;
        Recompute(nowMs);
      }
    }

    /** `setTargetTime`, called by the time wheel. */
    method SetTargetTime(t: string, nowMs: int)
      requires Valid()
      modifies this
      ensures Valid() && targetTime == t
      ensures mode == old(mode) && fallAsleepTime == old(fallAsleepTime)
      ensures cycleDuration == old(cycleDuration) && isSettingsOpen == old(isSettingsOpen)
      ensures t == old(targetTime) ==> results == old(results) && computedAt == old(computedAt)
      ensures t != old(targetTime) ==> computedAt == nowMs
    {
      if t != targetTime {
        targetTime := t;
        Recompute(nowMs);
      }
    }

    /** `setFallAsleepTime`, called by the latency slider. */
    method SetFallAsleepTime(minutes: int, nowMs: int)
      requires Valid()
      modifies this
      ensures Valid() && fallAsleepTime == minutes
      ensures mode == old(mode) && targetTime == old(targetTime)
      ensures cycleDuration == old(cycleDuration) && isSettingsOpen == old(isSettingsOpen)
      ensures minutes == old(fallAsleepTime) ==> results == old(results) && computedAt == old(computedAt)
      ensures minutes != old(fallAsleepTime) ==> computedAt == nowMs
    {
      if minutes != fallAsleepTime {
        fallAsleepTime := minutes;
        Recompute(nowMs);
      }
    }

    /** `setCycleDuration`, the settings dialog's `onDurationChange`. */
    method SetCycleDuration(duration: int, nowMs: int)
      requires Valid()
      modifies this
      ensures Valid() && cycleDuration == duration
      ensures mode == old(mode) && targetTime == old(targetTime)
      ensures fallAsleepTime == old(fallAsleepTime) && isSettingsOpen == old(isSettingsOpen)
      ensures duration == old(cycleDuration) ==> results == old(results) && computedAt == old(computedAt)
      ensures duration != old(cycleDuration) ==> computedAt == nowMs
    {
      if duration != cycleDuration {
        cycleDuration := duration;
        Recompute(nowMs);
      }
    }

    /** The menu button: opens the settings dialog. */
    method OpenSettings()
      modifies this`isSettingsOpen
      ensures isSettingsOpen
    {
      isSettingsOpen := true;
    }

    /** The dialog's `onClose`: closes it and leaves everything else as it was. */
    method CloseSettings()
      modifies this`isSettingsOpen
      ensures !isSettingsOpen
    {
      isSettingsOpen := false;
    }
  }
}
