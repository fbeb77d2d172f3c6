/** The cycle calculator of `app/utils/sleep.ts`.

    An instant is an integer count of local wall-clock minutes (minute 0 is a
    local midnight). The app only ever hands the calculator whole-minute
    instants, so seconds and milliseconds never appear. */
module Sleep {
  import opened Wrappers
  import opened Text
  import opened JsMath
  import opened Arith

  const MinutesPerHour: int := 60
  const MinutesPerDay: int := 1440

  /** `cyclesToCalculate`: the candidate cycle counts, in the order the calculator visits them. */
  const CyclesToCalculate: seq<int> := [1, 2, 3, 4, 5, 6, 7]

  datatype Label = Okay | Good | Best

  /** `SleepCycle`: one candidate bed or wake time; `quality` is the record's `label` field. */
  datatype SleepCycle = SleepCycle(cycles: int, time: int, formattedTime: string, quality: Label)

  /** `getMinutes()`: the minute of the hour. */
  function MinuteOf(t: int): (m: int)
    ensures 0 <= m < MinutesPerHour
    ensures (t - m) % MinutesPerHour == 0
  {
    DivMod(t - t % MinutesPerHour, MinutesPerHour, t / MinutesPerHour, 0);
    t % MinutesPerHour
  }

  /** `getHours()`: the hour of the day; together with the minute it names the minute of the day. */
  function HourOf(t: int): (h: int)
    ensures 0 <= h < 24
    ensures h * MinutesPerHour + MinuteOf(t) == t % MinutesPerDay
  {
    var d := t % MinutesPerDay;
    DivMod(t, MinutesPerHour, 24 * (t / MinutesPerDay) + d / MinutesPerHour, d % MinutesPerHour);
    d / MinutesPerHour
  }

  /** `formatTime`: the instant as 24-hour `HH:MM`. */
  function FormatTime(t: int): (s: string)
    ensures |s| == 5 && s[2] == Colon
    ensures AllDigits(s[..2]) && AllDigits(s[3..])
  {
    ParseClockText(HourOf(t), MinuteOf(t));
    ClockText(HourOf(t), MinuteOf(t))
  }

  /** Splitting the formatted time on ':' gives back the hour and minute of the instant. */
  lemma FormatTimeRoundTrip(t: int)
    ensures ParseClock(FormatTime(t)) == Some((HourOf(t), MinuteOf(t)))
  {
    ParseClockText(HourOf(t), MinuteOf(t));
  }

  /** The quality label: `Best` for 5 or 6 cycles, `Good` for 4, `Okay` otherwise. */
  function LabelFor(cycleCount: int): (l: Label)
    ensures l == Best <==> cycleCount == 5 || cycleCount == 6
    ensures l == Good <==> cycleCount == 4
    ensures l == Okay <==> cycleCount != 4 && cycleCount != 5 && cycleCount != 6
  {
    var l := if cycleCount == 5 || cycleCount == 6 then Best else Okay;
    if cycleCount == 4 then Good else l
  }

  /** What every candidate keeps: its label follows from its count and its text from its time. */
  predicate Consistent(e: SleepCycle)
  {
    e.quality == LabelFor(e.cycles) && e.formattedTime == FormatTime(e.time)
  }

  /** `setMinutes(Math.ceil(getMinutes() / 10) * 10, 0, 0)` on a whole-minute instant:
      the next multiple of ten minutes; minute 60 carries into the next hour. */
  function RoundUpMinute(t: int): (r: int)
    ensures r % 10 == 0 && t <= r < t + 10
    ensures MinuteOf(t) > 50 ==> r == t - MinuteOf(t) + MinutesPerHour
  {
    var c := CeilDiv(MinuteOf(t), 10);
    DivMod(t - MinuteOf(t), MinutesPerHour, t / MinutesPerHour, 0);
    DivMod(t - MinuteOf(t) + c * 10, 10, 6 * (t / MinutesPerHour) + c, 0);
    t - MinuteOf(t) + c * 10
  }

  /** `setMinutes(Math.floor(getMinutes() / 10) * 10, 0, 0)` on a whole-minute instant. */
  function RoundDownMinute(t: int): (r: int)
    ensures r % 10 == 0 && t - 10 < r <= t
    ensures MinuteOf(r) == MinuteOf(t) - MinuteOf(t) % 10
  {
    var m, f := MinuteOf(t), FloorDiv(MinuteOf(t), 10);
    DivMod(t - m, MinutesPerHour, t / MinutesPerHour, 0);
    DivMod(t - m + f * 10, 10, 6 * (t / MinutesPerHour) + f, 0);
    DivMod(t - m + f * 10, MinutesPerHour, t / MinutesPerHour, f * 10);
    DivMod(m, 10, f, m - f * 10);
    t - m + f * 10
  }

  /** Rounding the minute component up is the ceiling of the whole instant to ten minutes. */
  lemma RoundUpMinuteIsCeiling(t: int)
    ensures RoundUpMinute(t) == CeilDiv(t, 10) * 10
  {
    var r := RoundUpMinute(t);
    assert r == 10 * (r / 10) + r % 10;
  }

  /** Rounding the minute component down is the floor of the whole instant to ten minutes. */
  lemma RoundDownMinuteIsFloor(t: int)
    ensures RoundDownMinute(t) == FloorDiv(t, 10) * 10
  {
    var r := RoundDownMinute(t);
    assert r == 10 * (r / 10) + r % 10;
  }

  /** Two multiples of ten less than ten apart in one direction are ordered. */
  lemma TensBelow(x: int, y: int)
    requires x % 10 == 0 && y % 10 == 0 && x < y + 10
    ensures x <= y
  {
    assert x == 10 * (x / 10) + x % 10 && y == 10 * (y / 10) + y % 10;
  }

  /** A later raw time never rounds up to an earlier one. */
  lemma RoundUpMinuteMonotone(a: int, b: int)
    requires a <= b
    ensures RoundUpMinute(a) <= RoundUpMinute(b)
  {
    TensBelow(RoundUpMinute(a), RoundUpMinute(b));
  }

  /** Multiplying by a non-negative factor keeps order. */
  lemma MulMonotone(a: int, b: int, c: int)
    requires a <= b && c >= 0
    ensures a * c <= b * c
  {
    assert b * c - a * c == (b - a) * c;
  }

  /** The wake candidate for `cycleCount` cycles after `baseTime` (the loop body of `calculateWakeUpTimes`). */
  function WakeUpEntry(baseTime: int, cycleDurationMinutes: int, cycleCount: int): (e: SleepCycle)
    ensures e.cycles == cycleCount && Consistent(e)
    ensures var raw := baseTime + cycleCount * cycleDurationMinutes;
      e.time % 10 == 0 && raw <= e.time < raw + 10
  {
    var wakeUpTime := RoundUpMinute(baseTime + cycleCount * cycleDurationMinutes);
    SleepCycle(cycleCount, wakeUpTime, FormatTime(wakeUpTime), LabelFor(cycleCount))
  }

  /** `calculateWakeUpTimes`: seven candidates, one per cycle count 1..7 in that order,
      each the raw time start + latency + n * cycle rounded up to ten minutes. */
  function CalculateWakeUpTimes(startTime: int, fallAsleepMinutes: int, cycleDurationMinutes: int): (r: seq<SleepCycle>)
    ensures |r| == |CyclesToCalculate|
    ensures forall i :: 0 <= i < |r| ==>
      var raw := startTime + fallAsleepMinutes + (i + 1) * cycleDurationMinutes;
      && r[i].cycles == i + 1
      && Consistent(r[i])
      && r[i].time % 10 == 0 && raw <= r[i].time < raw + 10
  {
    var baseTime := startTime + fallAsleepMinutes;
    seq(|CyclesToCalculate|, i requires 0 <= i < |CyclesToCalculate| =>
      WakeUpEntry(baseTime, cycleDurationMinutes, CyclesToCalculate[i]))
  }

  /** The bed candidate for `cycleCount` cycles before `wakeUpTime` (the loop body of `calculateBedTimes`). */
  function BedEntry(wakeUpTime: int, fallAsleepMinutes: int, cycleDurationMinutes: int, cycleCount: int): (e: SleepCycle)
    ensures e.cycles == cycleCount && Consistent(e)
    ensures var raw := wakeUpTime - cycleCount * cycleDurationMinutes - fallAsleepMinutes;
      e.time % 10 == 0 && raw - 10 < e.time <= raw
  {
    var bedTime := RoundDownMinute(wakeUpTime - cycleCount * cycleDurationMinutes - fallAsleepMinutes);
    SleepCycle(cycleCount, bedTime, FormatTime(bedTime), LabelFor(cycleCount))
  }

  /** The `result` array of `calculateBedTimes` before it is sorted: one candidate per
      cycle count 1..7, each the raw time wake - n * cycle - latency rounded down to ten minutes. */
  function ComputedBedTimes(wakeUpTime: int, fallAsleepMinutes: int, cycleDurationMinutes: int): (r: seq<SleepCycle>)
    ensures |r| == |CyclesToCalculate|
    ensures forall i :: 0 <= i < |r| ==>
      var raw := wakeUpTime - (i + 1) * cycleDurationMinutes - fallAsleepMinutes;
      && r[i].cycles == i + 1
      && Consistent(r[i])
      && r[i].time % 10 == 0 && raw - 10 < r[i].time <= raw
  {
    seq(|CyclesToCalculate|, i requires 0 <= i < |CyclesToCalculate| =>
      BedEntry(wakeUpTime, fallAsleepMinutes, cycleDurationMinutes, CyclesToCalculate[i]))
  }

  /** Earliest first: no entry is later than one after it. */
  predicate SortedByTime(s: seq<SleepCycle>)
  {
    forall i, j :: 0 <= i < j < |s| ==> s[i].time <= s[j].time
  }

  /** Inserts `x` in front of the first entry that is not earlier than it. */
  function InsertByTime(x: SleepCycle, s: seq<SleepCycle>): (r: seq<SleepCycle>)
    ensures |r| == |s| + 1
    ensures multiset(r) == multiset(s) + multiset{x}
    decreases |s|
  {
    if s == [] then [x]
    else if x.time <= s[0].time then [x] + s
    else
      assert s == [s[0]] + s[1..];
      [s[0]] + InsertByTime(x, s[1..])
  }

  /** Inserting into a sorted list keeps it sorted. */
  lemma {:induction false} InsertKeepsSorted(x: SleepCycle, s: seq<SleepCycle>)
    requires SortedByTime(s)
    ensures SortedByTime(InsertByTime(x, s))
    decreases |s|
  {
    if s != [] && x.time > s[0].time {
      var t := s[1..];
      InsertKeepsSorted(x, t);
      var r := InsertByTime(x, t);
      forall k | 0 <= k < |r|
        ensures s[0].time <= r[k].time
      {
        assert r[k] in multiset(r);
        if r[k] != x {
          assert r[k] in multiset(t);
          var j :| 0 <= j < |t| && t[j] == r[k];
          assert t[j] == s[j + 1];
        }
      }
      assert InsertByTime(x, s) == [s[0]] + r;
    }
  }

  /** `Array.prototype.sort` with the comparator `a.time - b.time`: a stable sort by time. */
  function SortByTime(s: seq<SleepCycle>): (r: seq<SleepCycle>)
    ensures |r| == |s|
    ensures multiset(r) == multiset(s)
    decreases |s|
  {
    if s == [] then []
    else
      assert s == [s[0]] + s[1..];
      InsertByTime(s[0], SortByTime(s[1..]))
  }

  /** The sort puts the entries earliest first. */
  lemma {:induction false} SortByTimeSorted(s: seq<SleepCycle>)
    ensures SortedByTime(SortByTime(s))
    decreases |s|
  {
    if s != [] {
      SortByTimeSorted(s[1..]);
      InsertKeepsSorted(s[0], SortByTime(s[1..]));
    }
  }

  /** `calculateBedTimes`: the seven computed candidates, sorted earliest first. */
  function CalculateBedTimes(wakeUpTime: int, fallAsleepMinutes: int, cycleDurationMinutes: int): (r: seq<SleepCycle>)
    ensures |r| == |CyclesToCalculate|
    ensures SortedByTime(r)
    ensures multiset(r) == multiset(ComputedBedTimes(wakeUpTime, fallAsleepMinutes, cycleDurationMinutes))
  {
    SortByTimeSorted(ComputedBedTimes(wakeUpTime, fallAsleepMinutes, cycleDurationMinutes));
    SortByTime(ComputedBedTimes(wakeUpTime, fallAsleepMinutes, cycleDurationMinutes))
  }

  /** Every sorted bed candidate is one of the computed ones: a count in 1..7, its label
      and text consistent, its time the raw time rounded down to ten minutes. */
  lemma BedTimesEntries(wakeUpTime: int, fallAsleepMinutes: int, cycleDurationMinutes: int, k: int)
    requires 0 <= k < |CyclesToCalculate|
    ensures var e := CalculateBedTimes(wakeUpTime, fallAsleepMinutes, cycleDurationMinutes)[k];
      var raw := wakeUpTime - e.cycles * cycleDurationMinutes - fallAsleepMinutes;
      && 1 <= e.cycles <= 7
      && Consistent(e)
      && e.time % 10 == 0 && raw - 10 < e.time <= raw
  {
    var c := ComputedBedTimes(wakeUpTime, fallAsleepMinutes, cycleDurationMinutes);
    var r := CalculateBedTimes(wakeUpTime, fallAsleepMinutes, cycleDurationMinutes);
    assert r[k] in multiset(r);
    assert r[k] in multiset(c);
    var j :| 0 <= j < |c| && c[j] == r[k];
  }

  /** `calculateWakeUpTimes` lists its candidates earliest first whenever the cycle is not negative. */
  lemma WakeUpTimesAscending(startTime: int, fallAsleepMinutes: int, cycleDurationMinutes: int)
    requires cycleDurationMinutes >= 0
    ensures SortedByTime(CalculateWakeUpTimes(startTime, fallAsleepMinutes, cycleDurationMinutes))
  {
    var r := CalculateWakeUpTimes(startTime, fallAsleepMinutes, cycleDurationMinutes);
    forall i, j | 0 <= i < j < |r|
      ensures r[i].time <= r[j].time
    {
      MulMonotone(i + 1, j + 1, cycleDurationMinutes);
      TensBelow(r[i].time, r[j].time);
    }
  }

  /** The list back to front. */
  function Reverse<T>(s: seq<T>): (r: seq<T>)
    ensures |r| == |s|
    ensures forall i :: 0 <= i < |s| ==> r[i] == s[|s| - 1 - i]
    decreases |s|
  {
    if s == [] then [] else Reverse(s[1..]) + [s[0]]
  }

  /** An entry later than everything in a list is inserted at its end. */
  lemma {:induction false} InsertLatest(x: SleepCycle, s: seq<SleepCycle>)
    requires forall k :: 0 <= k < |s| ==> s[k].time < x.time
    ensures InsertByTime(x, s) == s + [x]
    decreases |s|
  {
    if s != [] {
      InsertLatest(x, s[1..]);
      assert [s[0]] + (s[1..] + [x]) == s + [x];
    }
  }

  /** Sorting a list whose times strictly decrease reverses it. */
  lemma {:induction false} SortReversesDescending(s: seq<SleepCycle>)
    requires forall i, j :: 0 <= i < j < |s| ==> s[i].time > s[j].time
    ensures SortByTime(s) == Reverse(s)
    decreases |s|
  {
    if s != [] {
      SortReversesDescending(s[1..]);
      InsertLatest(s[0], Reverse(s[1..]));
    }
  }

  /** With cycles of ten minutes or more the rounded bed times strictly decrease with
      the cycle count, so the sorted result lists the counts 7, 6, ..., 1. */
  lemma BedTimesDescendingCycles(wakeUpTime: int, fallAsleepMinutes: int, cycleDurationMinutes: int)
    requires cycleDurationMinutes >= 10
    ensures CalculateBedTimes(wakeUpTime, fallAsleepMinutes, cycleDurationMinutes)
         == Reverse(ComputedBedTimes(wakeUpTime, fallAsleepMinutes, cycleDurationMinutes))
    ensures forall k :: 0 <= k < |CyclesToCalculate| ==>
      CalculateBedTimes(wakeUpTime, fallAsleepMinutes, cycleDurationMinutes)[k].cycles == 7 - k
  {
    var c := ComputedBedTimes(wakeUpTime, fallAsleepMinutes, cycleDurationMinutes);
    forall i, j | 0 <= i < j < |c|
      ensures c[i].time > c[j].time
    {
      MulMonotone(i + 2, j + 1, cycleDurationMinutes);
      assert (i + 2) * cycleDurationMinutes == (i + 1) * cycleDurationMinutes + cycleDurationMinutes;
    }
    SortReversesDescending(c);
  }

  /** With cycles of ten minutes or more, position k of the sorted bed times holds the
      candidate for 7 - k cycles. */
  lemma BedTimeAt(wakeUpTime: int, fallAsleepMinutes: int, cycleDurationMinutes: int, k: int)
    requires cycleDurationMinutes >= 10 && 0 <= k < |CyclesToCalculate|
    ensures CalculateBedTimes(wakeUpTime, fallAsleepMinutes, cycleDurationMinutes)[k]
         == BedEntry(wakeUpTime, fallAsleepMinutes, cycleDurationMinutes, 7 - k)
  {
    BedTimesDescendingCycles(wakeUpTime, fallAsleepMinutes, cycleDurationMinutes);
    var c := ComputedBedTimes(wakeUpTime, fallAsleepMinutes, cycleDurationMinutes);
    assert c[6 - k] == BedEntry(wakeUpTime, fallAsleepMinutes, cycleDurationMinutes, CyclesToCalculate[6 - k]);
  }

  /** Going back from a wake candidate undoes it up to the two roundings: the bed
      candidate for the same count lies within ten minutes of the sleep instant, and is
      that instant when it already falls on a ten-minute mark. The latency added on the
      way forward is subtracted again on the way back. */
  lemma BedAfterWake(startTime: int, fallAsleepMinutes: int, cycleDurationMinutes: int, k: int)
    requires 0 <= k < |CyclesToCalculate|
    ensures var w := CalculateWakeUpTimes(startTime, fallAsleepMinutes, cycleDurationMinutes)[k];
      var b := BedEntry(w.time, fallAsleepMinutes, cycleDurationMinutes, k + 1);
      && startTime - 10 < b.time < startTime + 10
      && (startTime % 10 == 0 ==> b.time == startTime)
  {
    var w := CalculateWakeUpTimes(startTime, fallAsleepMinutes, cycleDurationMinutes)[k];
    var b := BedEntry(w.time, fallAsleepMinutes, cycleDurationMinutes, k + 1);
    if startTime % 10 == 0 {
      TensBelow(b.time, startTime);
      TensBelow(startTime, b.time);
    }
  }

  /** The same round trip through the sorted bed times: for cycles of ten minutes or
      more, the wake time for k + 1 cycles leads back, at position 6 - k, to a bed time
      for k + 1 cycles within ten minutes of the sleep instant. */
  lemma BedTimesAfterWake(startTime: int, fallAsleepMinutes: int, cycleDurationMinutes: int, k: int)
    requires cycleDurationMinutes >= 10 && 0 <= k < |CyclesToCalculate|
    ensures var w := CalculateWakeUpTimes(startTime, fallAsleepMinutes, cycleDurationMinutes)[k];
      var b := CalculateBedTimes(w.time, fallAsleepMinutes, cycleDurationMinutes)[6 - k];
      && b.cycles == k + 1
      && startTime - 10 < b.time < startTime + 10
      && (startTime % 10 == 0 ==> b.time == startTime)
  {
    var w := CalculateWakeUpTimes(startTime, fallAsleepMinutes, cycleDurationMinutes)[k];
    BedTimeAt(w.time, fallAsleepMinutes, cycleDurationMinutes, 6 - k);
    BedAfterWake(startTime, fallAsleepMinutes, cycleDurationMinutes, k);
  }

  /** The clock texts the examples below need, digit by digit. */
  lemma ClockTextExamples()
    ensures ClockText(23, 10) == "23:10"
    ensures ClockText(23, 40) == "23:40"
    ensures ClockText(5, 40) == "05:40"
    ensures ClockText(8, 20) == "08:20"
  {
    assert Digits(23) == Digits(2) + [DigitChar(3)] == "23";
    assert Digits(10) == Digits(1) + [DigitChar(0)] == "10";
    assert Digits(40) == Digits(4) + [DigitChar(0)] == "40";
    assert Digits(20) == Digits(2) + [DigitChar(0)] == "20";
    assert Digits(5) == "5" && Digits(8) == "8";
  }

  /** The formatted text of an instant with a known hour and minute. */
  lemma FormatTimeAt(t: int, h: nat, m: nat)
    requires HourOf(t) == h && MinuteOf(t) == m
    ensures FormatTime(t) == ClockText(h, m)
  {
  }

  /** A bed candidate once its rounded time is known. */
  lemma BedEntryAt(wakeUpTime: int, fallAsleepMinutes: int, cycleDurationMinutes: int, cycleCount: int, bedTime: int)
    requires RoundDownMinute(wakeUpTime - cycleCount * cycleDurationMinutes - fallAsleepMinutes) == bedTime
    ensures BedEntry(wakeUpTime, fallAsleepMinutes, cycleDurationMinutes, cycleCount)
         == SleepCycle(cycleCount, bedTime, FormatTime(bedTime), LabelFor(cycleCount))
  {
  }

  /** The hour and minute of the instant `h:m` on day `day`. */
  lemma ClockOf(t: int, day: int, h: int, m: int)
    requires 0 <= h < 24 && 0 <= m < MinutesPerHour
    requires t == day * MinutesPerDay + h * MinutesPerHour + m
    ensures HourOf(t) == h && MinuteOf(t) == m
  {
    var q := h * MinutesPerHour + m;
    DivMod(t, MinutesPerDay, day, q);
    DivMod(t, MinutesPerHour, 24 * day + h, m);
    DivMod(q, MinutesPerHour, h, m);
  }

  /** Wake at 07:00 on any day with 15 minutes to fall asleep and 90-minute cycles: the
      five-cycle bed time is raw 23:15 the previous evening, shown as 23:10 and labelled Best. */
  lemma BedTimesExample(day: int)
    ensures CalculateBedTimes(day * MinutesPerDay + 7 * 60, 15, 90)[2]
         == SleepCycle(5, (day - 1) * MinutesPerDay + 23 * 60 + 10, "23:10", Best)
  {
    var wakeUpTime := day * MinutesPerDay + 7 * 60;
    var raw, bedTime := (day - 1) * MinutesPerDay + 23 * 60 + 15, (day - 1) * MinutesPerDay + 23 * 60 + 10;
    ClockOf(raw, day - 1, 23, 15);
    ClockOf(bedTime, day - 1, 23, 10);
    BedEntryAt(wakeUpTime, 15, 90, 5, bedTime);
    FormatTimeAt(bedTime, 23, 10);
    ClockTextExamples();
    BedTimeAt(wakeUpTime, 15, 90, 2);
  }

  /** Wake at 07:00 with 15 minutes to fall asleep and 60-minute cycles: earliest 23:40
      the previous evening (seven cycles), latest 05:40 (one cycle). */
  lemma BedTimesSixtyMinuteExample(day: int)
    ensures CalculateBedTimes(day * MinutesPerDay + 7 * 60, 15, 60)[0]
         == SleepCycle(7, (day - 1) * MinutesPerDay + 23 * 60 + 40, "23:40", Okay)
    ensures CalculateBedTimes(day * MinutesPerDay + 7 * 60, 15, 60)[6]
         == SleepCycle(1, day * MinutesPerDay + 5 * 60 + 40, "05:40", Okay)
  {
    var wakeUpTime := day * MinutesPerDay + 7 * 60;
    var earliest, latest := (day - 1) * MinutesPerDay + 23 * 60 + 40, day * MinutesPerDay + 5 * 60 + 40;
    ClockOf(earliest + 5, day - 1, 23, 45);
    ClockOf(earliest, day - 1, 23, 40);
    ClockOf(latest + 5, day, 5, 45);
    ClockOf(latest, day, 5, 40);
    BedEntryAt(wakeUpTime, 15, 60, 7, earliest);
    BedEntryAt(wakeUpTime, 15, 60, 1, latest);
    FormatTimeAt(earliest, 23, 40);
    FormatTimeAt(latest, 5, 40);
    ClockTextExamples();
    BedTimeAt(wakeUpTime, 15, 60, 0);
    BedTimeAt(wakeUpTime, 15, 60, 6);
  }

  /** A wake candidate once its rounded time is known. */
  lemma WakeUpEntryAt(baseTime: int, cycleDurationMinutes: int, cycleCount: int, wakeUpTime: int)
    requires RoundUpMinute(baseTime + cycleCount * cycleDurationMinutes) == wakeUpTime
    ensures WakeUpEntry(baseTime, cycleDurationMinutes, cycleCount)
         == SleepCycle(cycleCount, wakeUpTime, FormatTime(wakeUpTime), LabelFor(cycleCount))
  {
  }

  /** Sleep at 23:00 on any day with 15 minutes to fall asleep and 90-minute cycles: the
      six-cycle wake time is raw 08:15 the next morning, shown as 08:20 and labelled Best. */
  lemma WakeUpTimesExample(day: int)
    ensures CalculateWakeUpTimes(day * MinutesPerDay + 23 * 60, 15, 90)[5]
         == SleepCycle(6, (day + 1) * MinutesPerDay + 8 * 60 + 20, "08:20", Best)
  {
    var startTime := day * MinutesPerDay + 23 * 60;
    var wakeUpTime := (day + 1) * MinutesPerDay + 8 * 60 + 20;
    ClockOf(wakeUpTime - 5, day + 1, 8, 15);
    ClockOf(wakeUpTime, day + 1, 8, 20);
    WakeUpEntryAt(startTime + 15, 90, 6, wakeUpTime);
    FormatTimeAt(wakeUpTime, 8, 20);
    ClockTextExamples();
  }
}
