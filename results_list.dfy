/** The two result groups of `app/components/ResultsList.tsx` and the `HH:MM` duration
    shown beside each entry. */
module ResultsList {
  import opened Text
  import opened Sleep

  /** `r.cycles >= 5 && r.cycles <= 6`. */
  predicate IsSuggested(e: SleepCycle)
  {
    5 <= e.cycles <= 6
  }

  /** `r.cycles < 5 || r.cycles > 6`. */
  predicate IsOther(e: SleepCycle)
  {
    e.cycles < 5 || e.cycles > 6
  }

  /** `Array.prototype.filter`: the entries that pass `keep`, in their original order. */
  function Filter<T(!new)>(s: seq<T>, keep: T -> bool): (r: seq<T>)
    ensures |r| <= |s|
    ensures forall x :: x in r <==> x in s && keep(x)
    decreases |s|
  {
    if s == [] then []
    else if keep(s[0]) then [s[0]] + Filter(s[1..], keep)
    else Filter(s[1..], keep)
  }

  /** `suggested`. */
  function Suggested(results: seq<SleepCycle>): (r: seq<SleepCycle>)
    ensures forall e :: e in r <==> e in results && 5 <= e.cycles <= 6
  {
    Filter(results, IsSuggested)
  }

  /** `others`. */
  function Others(results: seq<SleepCycle>): (r: seq<SleepCycle>)
    ensures forall e :: e in r <==> e in results && (e.cycles < 5 || e.cycles > 6)
  {
    Filter(results, IsOther)
  }

  /** The two tests are complements: every entry belongs to exactly one group. */
  lemma GroupsComplementary(e: SleepCycle)
    ensures IsSuggested(e) <==> !IsOther(e)
  {
  }

  /** Filtering a concatenation filters each part: the order of the input is kept. */
  lemma {:induction false} FilterAppend<T(!new)>(a: seq<T>, b: seq<T>, keep: T -> bool)
    ensures Filter(a + b, keep) == Filter(a, keep) + Filter(b, keep)
    decreases |a|
  {
    if a == [] {
      assert a + b == b;
    } else {
      var ab := a + b;
      assert ab[0] == a[0] && ab[1..] == a[1..] + b;
      FilterAppend(a[1..], b, keep);
      if keep(a[0]) {
        assert Filter(a, keep) == [a[0]] + Filter(a[1..], keep);
        assert Filter(ab, keep) == [a[0]] + (Filter(a[1..], keep) + Filter(b, keep));
      } else {
        assert Filter(a, keep) == Filter(a[1..], keep);
        assert Filter(ab, keep) == Filter(a[1..] + b, keep);
      }
    }
  }

  /** A single entry is kept exactly when it passes the test. */
  lemma FilterSingle<T(!new)>(x: T, keep: T -> bool)
    ensures Filter([x], keep) == if keep(x) then [x] else []
  {
    assert [x][1..] == [];
  }

  /** The groups split the results: no entry is lost, added or duplicated. */
  lemma {:induction false} GroupsPartition(results: seq<SleepCycle>)
    ensures multiset(Suggested(results)) + multiset(Others(results)) == multiset(results)
    ensures |Suggested(results)| + |Others(results)| == |results|
    decreases |results|
  {
    if results != [] {
      GroupsPartition(results[1..]);
      assert results == [results[0]] + results[1..];
    }
  }

  /** A group of a list sorted by time is itself sorted by time. */
  lemma {:induction false} FilterKeepsSorted(s: seq<SleepCycle>, keep: SleepCycle -> bool)
    requires SortedByTime(s)
    ensures SortedByTime(Filter(s, keep))
    decreases |s|
  {
    if s != [] {
      FilterKeepsSorted(s[1..], keep);
      var rest := Filter(s[1..], keep);
      if keep(s[0]) {
        forall j | 0 <= j < |rest|
          ensures s[0].time <= rest[j].time
        {
          assert rest[j] in s[1..];
        }
      }
    }
  }

  /** `formatDuration(cycles, durationPerCycle)`: the total as hours and remaining
      minutes, each padded to two digits. */
  function FormatDuration(cycles: nat, durationPerCycle: nat): (s: string)
    ensures |s| == 5 <==> cycles * durationPerCycle < 6000
  {
    var totalMinutes := cycles * durationPerCycle;
    ParseClockText(totalMinutes / 60, totalMinutes % 60);
    ClockText(totalMinutes / 60, totalMinutes % 60)
  }

  /** The text reads back as whole hours and a remainder below 60 that together make
      up the total. */
  lemma FormatDurationParses(cycles: nat, durationPerCycle: nat)
    ensures ParseClock(FormatDuration(cycles, durationPerCycle)).Some?
    ensures var (h, m) := ParseClock(FormatDuration(cycles, durationPerCycle)).value;
      h * 60 + m == cycles * durationPerCycle && m < 60
  {
    var total := cycles * durationPerCycle;
    ParseClockText(total / 60, total % 60);
  }

  /** Five and six 90-minute cycles read 07:30 and 09:00. */
  lemma FormatDurationExamples()
    ensures FormatDuration(5, 90) == "07:30"
    ensures FormatDuration(6, 90) == "09:00"
  {
    FormatDurationAt(5, 90, 7, 30);
    FormatDurationAt(6, 90, 9, 0);
    ClockTextDurations();
  }

  /** The duration text once the hours and minutes of the total are known. */
  lemma FormatDurationAt(cycles: nat, durationPerCycle: nat, h: nat, m: nat)
    requires cycles * durationPerCycle == h * 60 + m && m < 60
    ensures FormatDuration(cycles, durationPerCycle) == ClockText(h, m)
  {
  }

  /** The two duration texts, digit by digit. */
  lemma ClockTextDurations()
    ensures ClockText(7, 30) == "07:30" && ClockText(9, 0) == "09:00"
  {
    assert Digits(30) == Digits(3) + [DigitChar(0)] == "30";
    assert Digits(7) == "7" && Digits(9) == "9" && Digits(0) == "0";
  }
}
