# Somnus sleep-cycle calculator, modelled in Dafny

Somnus is a small web app that suggests bed or wake-up times so that sleep ends at
the end of a cycle. This project models its logic: the cycle calculator, the page
that turns an `"HH:MM"` target into an instant and picks a calculator, the infinite
time wheel, the drag-to-open bottom sheet, the cycle-length picker, and the results
list. It also proves properties of that model.

- `text.dfy` holds four modules:
  - `Wrappers`: the `Option` type.
  - `Text`: `toString`, `padStart(2, '0')`, `split(":")`, `Number`, and the
    `HH:MM` text with its parser.
  - `JsMath`: `Math.round`, `Math.ceil` and `Math.floor` of a quotient, and JavaScript's `%`.
  - `Arith`: uniqueness of Euclidean quotient and remainder.
- `sleep.dfy` models `app/utils/sleep.ts`. Time is a whole number of local
  wall-clock minutes, and minute 0 is a local midnight.
- `page.dfy` models `app/page.tsx`. The clock is an explicit `nowMs` parameter in
  local milliseconds.
- `time_wheel.dfy`, `bottom_sheet.dfy`, `cycle_settings_modal.dfy` and
  `results_list.dfy` each model the component of the same name.

Where the code changes state, the model does too:
- `Page.Home`, `TimeWheel.Wheel`, `BottomSheet.Sheet` and `CycleSettingsModal.Modal`
  are classes.
- Each of their methods is one event handler or effect run, as one atomic step.

The app's pure helpers are functions, and the lemmas beside them state what they promise.

Three consequences of the code as written, all kept by the model:
- **Bed-time example.** With wake 07:00, latency 15 and five 90-minute cycles the
  code computes 07:00 − 450 − 15 = 23:15 on the previous day and rounds it down to
  23:10 (`Sleep.BedTimesExample`).
- **Drag offset after a drag.** The drag offset is not always zero once a drag has
  ended. Both refs are tested with `!ref.current`, so a coordinate of exactly 0 reads
  as "no drag". A release whose last pointer report was y = 0 takes the early return
  in `handleTouchEnd` (app/components/BottomSheet.tsx:55) and keeps its offset
  (`BottomSheet.DragEndingAtZero`).
- **Mouse drag followed by a click.** A mouse drag that closes the sheet is followed
  by the click the browser fires after the mouse-up. The release has already cleared
  the offset, so that click counts as a tap and opens the sheet again
  (`BottomSheet.MouseDragThenClickReopens`).

## Model

| member | source | states |
|---|---|---|
| `Text.Digits` | app/components/ResultsList.tsx:56 | `n.toString()` is a non-empty digit string; one digit exactly when n < 10, two exactly when 10 ≤ n < 100 |
| `Text.ParseNumber` | app/page.tsx:23 | `Number(s)` gives a value exactly when `s` is all digits |
| `Text.DecimalValueOfDigits` | app/page.tsx:23 | `Number(n.toString()) == n` |
| `Text.PadStart2` | app/components/ResultsList.tsx:56 | the padded text is all digits, two long for n < 100 and otherwise as long as the plain numeral |
| `Text.PadStart2RoundTrip` | app/components/TimeWheel.tsx:63 | reading a padded number back gives the number |
| `Text.Split` | app/page.tsx:23 | `split` yields at least one piece and no piece contains the separator |
| `Text.JoinSplit` | app/page.tsx:23 | joining the pieces with the separator rebuilds the string |
| `Text.SplitAtFirst` | app/page.tsx:23 | a separator-free head is the first piece and the rest splits on its own |
| `Text.SplitNoSeparator` | app/page.tsx:23 | a string without the separator is one piece |
| `Text.ClockText` | app/components/TimeWheel.tsx:63 | `HH:MM` of two numbers: the padded hour, one colon right after it, the padded minute; every other character is a digit and the text is at least five long |
| `Text.ParseClock` | app/page.tsx:23 | the parse only succeeds when the text has at least two pieces |
| `Text.ParseClockText` | app/components/TimeWheel.tsx:63 | the `HH:MM` text of (h, m) parses back to (h, m); it is five characters exactly when both are below 100 |
| `JsMath.RoundDiv` | app/components/TimeWheel.tsx:58 | the result is the nearest integer to a/b, halves going up |
| `JsMath.CeilDiv` | app/utils/sleep.ts:24 | the result is the least integer not below a/b |
| `JsMath.FloorDiv` | app/utils/sleep.ts:66 | the result is the greatest integer not above a/b |
| `JsMath.JsRem` | app/components/TimeWheel.tsx:59 | `a % n` agrees with Euclidean remainder for a ≥ 0 and is non-positive with the dividend's sign for a < 0 |
| `Sleep.MinuteOf` | app/utils/sleep.ts:23 | `getMinutes()` lies in 0..59 and subtracting it leaves a whole hour |
| `Sleep.HourOf` | app/utils/sleep.ts:92 | the hour lies in 0..23 and hour·60 + minute is the minute of the day |
| `Sleep.FormatTime` | app/utils/sleep.ts:91-93 | the 24-hour time is five characters, two digits, a colon, two digits |
| `Sleep.FormatTimeRoundTrip` | app/utils/sleep.ts:91-93 | the formatted time parses back to the instant's hour and minute |
| `Sleep.LabelFor` | app/utils/sleep.ts:31-33 | Best exactly for 5 or 6 cycles, Good exactly for 4, Okay exactly otherwise |
| `Sleep.RoundUpMinute` | app/utils/sleep.ts:23-28 | the result is a multiple of ten in [t, t+10); minutes 51..59 carry into the next hour |
| `Sleep.RoundDownMinute` | app/utils/sleep.ts:65-69 | the result is a multiple of ten in (t−10, t], and its minute is the old minute with the units digit dropped |
| `Sleep.RoundUpMinuteIsCeiling` | app/utils/sleep.ts:23-28 | rounding the minute component up equals the ceiling of the whole instant to ten minutes |
| `Sleep.RoundDownMinuteIsFloor` | app/utils/sleep.ts:65-69 | rounding the minute component down equals the floor of the whole instant to ten minutes |
| `Sleep.RoundUpMinuteMonotone` | app/utils/sleep.ts:24-28 | a later raw time never rounds up to an earlier time |
| `Sleep.WakeUpEntry` | app/utils/sleep.ts:16-41 | the candidate for n cycles has count n, a consistent label and text, and a time that is a multiple of ten in [raw, raw+10) for raw = base + n·C |
| `Sleep.BedEntry` | app/utils/sleep.ts:57-81 | the candidate for n cycles has count n, a consistent label and text, and a time that is a multiple of ten in (raw−10, raw] for raw = wake − n·C − latency |
| `Sleep.CalculateWakeUpTimes` | app/utils/sleep.ts:8-42 | seven entries with counts 1..7 in order; each has a consistent label and text and a time that is the raw start+latency+n·C rounded up to ten minutes |
| `Sleep.ComputedBedTimes` | app/utils/sleep.ts:57-81 | seven entries with counts 1..7; each has a consistent label and text and a time that is wake−n·C−latency rounded down to ten minutes |
| `Sleep.InsertByTime` | app/utils/sleep.ts:84 | inserting adds exactly one entry and keeps every other |
| `Sleep.InsertKeepsSorted` | app/utils/sleep.ts:84 | inserting into an earliest-first list keeps it earliest first |
| `Sleep.SortByTime` | app/utils/sleep.ts:84 | the sort is a permutation of its input |
| `Sleep.SortByTimeSorted` | app/utils/sleep.ts:84 | the sort lists entries earliest first |
| `Sleep.CalculateBedTimes` | app/utils/sleep.ts:51-85 | seven entries, earliest first, a permutation of the computed candidates |
| `Sleep.BedTimesEntries` | app/utils/sleep.ts:57-84 | every sorted entry has a count in 1..7, a consistent label and text, and its count's rounded-down raw time |
| `Sleep.WakeUpTimesAscending` | app/utils/sleep.ts:14-28 | for a non-negative cycle length the wake times are earliest first |
| `Sleep.InsertLatest` | app/utils/sleep.ts:84 | an entry later than all others is inserted at the end |
| `Sleep.SortReversesDescending` | app/utils/sleep.ts:84 | sorting a list whose times strictly decrease reverses it |
| `Sleep.BedTimesDescendingCycles` | app/utils/sleep.ts:57-84 | for cycles of at least ten minutes the sorted bed times are the computed ones reversed, counts 7, 6, …, 1 |
| `Sleep.BedTimeAt` | app/utils/sleep.ts:57-84 | for cycles of at least ten minutes position k holds the candidate for 7−k cycles |
| `Sleep.BedAfterWake` | app/utils/sleep.ts:12-69 | the bed candidate computed back from the wake time for n cycles lies within ten minutes of the sleep instant, and equals it when the instant is on a ten-minute mark |
| `Sleep.BedTimesAfterWake` | app/utils/sleep.ts:12-84 | for cycles of at least ten minutes, the sorted bed times for the wake time for k+1 cycles hold at position 6−k a (k+1)-cycle bed time within ten minutes of the sleep instant, equal to it on a ten-minute mark |
| `Sleep.BedTimesExample` | app/utils/sleep.ts:57-73 | wake 07:00, latency 15, 90-minute cycles: the five-cycle bed time is 23:10 the evening before, labelled Best |
| `Sleep.BedTimesSixtyMinuteExample` | app/utils/sleep.ts:57-84 | wake 07:00, latency 15, 60-minute cycles: the earliest bed time is 23:40 with seven cycles and the latest is 05:40 with one |
| `Sleep.WakeUpTimesExample` | app/utils/sleep.ts:12-33 | sleep at 23:00, latency 15, 90-minute cycles: the six-cycle wake time is 08:20 the next morning, labelled Best |
| `Page.TodayStart` | app/page.tsx:22-24 | today's midnight is a multiple of a day, at most `now`, less than a day before it |
| `Page.TodayAt` | app/page.tsx:24 | the date built from today and (h, m) is not before today's midnight; for h < 24 and m < 60 it lies on today and its `getHours()` and `getMinutes()` are h and m |
| `Page.WakeUpDate` | app/page.tsx:24-29 | the wake instant is today's target, moved one day on exactly when it is before `now`, and is never before `now` |
| `Page.SleepDate` | app/page.tsx:36-40 | the sleep instant is today's target, moved one day on exactly when it is more than 12 h before `now` |
| `Page.Results` | app/page.tsx:19-44 | results exist exactly when the target parses; seven entries, earliest first in wake mode, counts 1..7 in sleep mode |
| `Page.WakeModeBedTimesFitBeforeTarget` | app/page.tsx:20-31 | in wake mode each bed time plus its cycles and the latency reaches the wake instant, less than ten minutes short, and the wake instant is not before `now` |
| `Page.SleepModeWakeTimesFollowTarget` | app/page.tsx:33-42 | in sleep mode the n-th wake time is the sleep instant plus latency plus n cycles, within ten minutes |
| `Page.InitialTargetParses` | app/page.tsx:11 | the initial target "07:00" parses as 7:00 |
| `Page.Home.constructor` | app/page.tsx:10-16 | initial state is sleep mode, "07:00", latency 15, 90-minute cycles, settings closed, with results computed on mount |
| `Page.Home.Recompute` | app/page.tsx:19-44 | results become the recompute of the current inputs at `now` |
| `Page.Home.SetMode` | app/page.tsx:44 | a new mode recomputes; the same mode changes nothing; the other inputs are kept |
| `Page.Home.SetTargetTime` | app/page.tsx:44 | a new target recomputes; the same target changes nothing; the other inputs are kept |
| `Page.Home.SetFallAsleepTime` | app/page.tsx:44 | a new latency recomputes; the same latency changes nothing; the other inputs are kept |
| `Page.Home.SetCycleDuration` | app/page.tsx:54 | a new cycle length recomputes; the same length changes nothing; the other inputs are kept |
| `Page.Home.OpenSettings` | app/page.tsx:61-62 | the menu button opens the settings |
| `Page.Home.CloseSettings` | app/page.tsx:52 | closing the settings changes only the open flag |
| `TimeWheel.Count` | app/components/TimeWheel.tsx:42 | a column has 24 or 60 values |
| `TimeWheel.InfiniteList` | app/components/TimeWheel.tsx:15-20 | the replicated list has 5·count entries and entry i is i mod count |
| `TimeWheel.ClampTop` | app/components/TimeWheel.tsx:30 | a stored scroll position lies in the scrollable range and in-range values are stored as given |
| `TimeWheel.Teleport` | app/components/TimeWheel.tsx:51-55 | a teleport moves the position by 0 or ±2S, leaves positions in [S, 4S] alone, and brings every position of the scrollable range into [S, 4S] inside that range |
| `TimeWheel.InitialTop` | app/components/TimeWheel.tsx:29-30 | the mount position centres item val + 2·count, lies on an item boundary less the centre offset, and lies in [S, 4S] for a value of the list |
| `TimeWheel.RawIndex` | app/components/TimeWheel.tsx:58 | the centred item is the one whose 40-pixel slot, half an item either side, holds position + 44 |
| `TimeWheel.ValueAt` | app/components/TimeWheel.tsx:59 | for a non-negative index the value is its remainder mod count, in [0, count); for a negative index it is non-positive and above −count |
| `TimeWheel.ChangeText` | app/components/TimeWheel.tsx:61-69 | the emitted text parses to the old pair with only the scrolled field replaced |
| `TimeWheel.RawIndexShift` | app/components/TimeWheel.tsx:58 | moving the position by k items moves the centred index by k |
| `TimeWheel.ValueShift` | app/components/TimeWheel.tsx:59 | adding whole lists to an index keeps its value |
| `TimeWheel.ValueInRange` | app/components/TimeWheel.tsx:58-59 | any non-negative position selects a value in [0, count) |
| `TimeWheel.ValueIsCentredEntry` | app/components/TimeWheel.tsx:58-59 | the selected value is the replicated-list entry centred in the viewport |
| `TimeWheel.InitialTopRoundTrip` | app/components/TimeWheel.tsx:26-31 | the mount position of a value lies in [S, 4S], needs no clamp or teleport, and selects the value again |
| `TimeWheel.TeleportPreservesValue` | app/components/TimeWheel.tsx:51-59 | a teleport lands in [S, 4S] within range and selects the same value |
| `TimeWheel.ChangeTextWidth` | app/components/TimeWheel.tsx:63-67 | for an hour below 24 and a minute below 60 the emitted text is five characters |
| `TimeWheel.Wheel.constructor` | app/components/TimeWheel.tsx:34-37 | on mount each column is scrolled to its value's position in the middle copy |
| `TimeWheel.Wheel.HandleScroll` | app/components/TimeWheel.tsx:40-70 | after teleporting, the position lies in [S, 4S] and selects the value the user scrolled to, and the other column stays put; text is emitted exactly when that value differs from the current field |
| `BottomSheet.Abs` | app/components/BottomSheet.tsx:77 | `Math.abs` is non-negative and equal to x or −x |
| `BottomSheet.Released` | app/components/BottomSheet.tsx:57-68 | a release flips the sheet exactly when it was open and pulled down more than 50, or closed and pulled up more than 50 |
| `BottomSheet.ThresholdIsExclusive` | app/components/BottomSheet.tsx:58-66 | a pull of exactly 50 never flips and 51 does |
| `BottomSheet.Displayed` | app/components/BottomSheet.tsx:87-90 | an open sheet shows max(0, offset) and a closed one min(0, offset) past the collapsed base |
| `BottomSheet.Sheet.constructor` | app/components/BottomSheet.tsx:25-29 | starts open, not dragging, offset 0, refs null |
| `BottomSheet.Sheet.TouchStart` | app/components/BottomSheet.tsx:31-37 | dragging starts and both refs hold y, with nothing else changed |
| `BottomSheet.Sheet.TouchMove` | app/components/BottomSheet.tsx:39-51 | nothing changes while the start is null or 0; otherwise `currentY` is y, and the offset follows the delta only downwards when open and only upwards when closed, otherwise kept |
| `BottomSheet.Sheet.MouseMove` | app/components/BottomSheet.tsx:104 | outside a drag nothing changes; during a drag the move acts exactly as `handleTouchMove`, with the same falsy guard and direction-gated offset |
| `BottomSheet.Sheet.TouchEnd` | app/components/BottomSheet.tsx:53-73 | dragging stops; with a falsy ref nothing else changes, otherwise the sheet settles by the dragged distance and the offset and refs are cleared |
| `BottomSheet.Sheet.HandleClick` | app/components/BottomSheet.tsx:75-80 | a click flips the sheet exactly when the offset is below 5 in absolute value |
| `BottomSheet.DragEndingAtZero` | app/components/BottomSheet.tsx:39-55 | a drag from 100 to 200 whose last move reports 0 ends not dragging, still open, with a 100-pixel offset shown |
| `BottomSheet.TapCloses` | app/components/BottomSheet.tsx:53-80 | a press, release and click on the fresh sheet closes it with no offset |
| `BottomSheet.MouseDragThenClickReopens` | app/components/BottomSheet.tsx:53-80 | a mouse drag from 100 to 200 closes the sheet on release, and the click that follows the mouse-up opens it again with no offset |
| `CycleSettingsModal.Values` | app/components/CycleSettingsModal.tsx:17 | seven values, entry i being 60 + 10·i |
| `CycleSettingsModal.ValuesIncreasing` | app/components/CycleSettingsModal.tsx:17 | the table strictly increases |
| `CycleSettingsModal.ValuesTable` | app/components/CycleSettingsModal.tsx:16-17 | the table is exactly [60, 70, 80, 90, 100, 110, 120] |
| `CycleSettingsModal.IndexOf` | app/components/CycleSettingsModal.tsx:29 | −1 exactly when the value is absent, otherwise the first index holding it |
| `CycleSettingsModal.Lookup` | app/components/CycleSettingsModal.tsx:42 | an array read is defined exactly for an index in range, and gives that entry |
| `CycleSettingsModal.IndexAt` | app/components/CycleSettingsModal.tsx:41 | the index is the item whose 80-pixel slot, half an item either side, holds the scroll position |
| `CycleSettingsModal.ScrollValue` | app/components/CycleSettingsModal.tsx:41-44 | a position selects a value exactly when its index is in 0..6, and the value is the table entry 60 + 10·index |
| `CycleSettingsModal.IndexOfValue` | app/components/CycleSettingsModal.tsx:93 | each table entry is found at its own index |
| `CycleSettingsModal.IndexAtItem` | app/components/CycleSettingsModal.tsx:41 | the position i·80 rounds back to index i |
| `CycleSettingsModal.ScrollValueDefined` | app/components/CycleSettingsModal.tsx:41-44 | a position selects an entry exactly when it lies in [−40, 520) |
| `CycleSettingsModal.CentreRoundTrip` | app/components/CycleSettingsModal.tsx:29-32 | scrolling a table value into the centre and reading it back gives that value |
| `CycleSettingsModal.Modal.constructor` | app/components/CycleSettingsModal.tsx:14 | the draft starts as the committed duration |
| `CycleSettingsModal.Modal.SyncOnOpen` | app/components/CycleSettingsModal.tsx:20-24 | while open the draft is reset to the committed duration; while closed it is kept |
| `CycleSettingsModal.Modal.CentreSelected` | app/components/CycleSettingsModal.tsx:26-35 | while open, a draft in the table is scrolled to its item, which selects it again; otherwise the strip stays |
| `CycleSettingsModal.Modal.HandleScroll` | app/components/CycleSettingsModal.tsx:37-47 | a position over an entry makes it the draft; an out-of-range index changes nothing; a draft in the table stays in the table |
| `CycleSettingsModal.Modal.ClickItem` | app/components/CycleSettingsModal.tsx:90-100 | a clicked item becomes the draft and the strip scrolls to a position that selects it |
| `CycleSettingsModal.Modal.Done` | app/components/CycleSettingsModal.tsx:49-52 | Done commits the draft and changes nothing in the picker |
| `ResultsList.Filter` | app/components/ResultsList.tsx:12-13 | `filter` keeps exactly the entries that pass, never adding any |
| `ResultsList.Suggested` | app/components/ResultsList.tsx:12 | `suggested` holds exactly the results with 5 or 6 cycles |
| `ResultsList.Others` | app/components/ResultsList.tsx:13 | `others` holds exactly the results with fewer than 5 or more than 6 cycles |
| `ResultsList.GroupsComplementary` | app/components/ResultsList.tsx:12-13 | an entry is suggested exactly when it is not among the others |
| `ResultsList.FilterAppend` | app/components/ResultsList.tsx:12-13 | filtering a concatenation concatenates the filtered parts, so input order is kept |
| `ResultsList.FilterSingle` | app/components/ResultsList.tsx:12 | a single entry is kept exactly when it passes |
| `ResultsList.GroupsPartition` | app/components/ResultsList.tsx:12-13 | the two groups together are a permutation of the results, the lengths summing to its length |
| `ResultsList.FilterKeepsSorted` | app/components/ResultsList.tsx:12-13 | a group of an earliest-first list is earliest first |
| `ResultsList.FormatDuration` | app/components/ResultsList.tsx:52-56 | the duration text is five characters exactly when the total is under 100 hours |
| `ResultsList.FormatDurationParses` | app/components/ResultsList.tsx:52-56 | the duration text parses to (h, m) with h·60 + m = cycles·duration and m < 60 |
| `ResultsList.FormatDurationExamples` | app/components/ResultsList.tsx:56 | five 90-minute cycles read "07:30" and six read "09:00" |

## Left out

- Rendering, Tailwind classes, transitions and browser scroll snapping are left out, because they are presentation only.
- React scheduling is not modelled: when effects run, batched `setState`, the order of click against mouse-up, and closures that see an older render. Each handler is one atomic step on explicit state.
- Sleep.HourOf: `toLocaleTimeString` with `hour12: false` is modelled as the two-digit 24-hour clock. How a locale formats the time, including a possible "24:00", is not modelled.
- Time zones, daylight-saving changes and `Date` internals are left out. An instant is a count of local wall-clock minutes, and every day has 1440 of them.
- Seconds and milliseconds are left out, because the app only builds whole-minute dates. The two clock readings of one effect run are taken as one `nowMs`.
- Text.ParseNumber: `Number` is modelled only on digit strings. Any other piece makes the parse fail, and `Page.Results` is then `None`, because the app's NaN dates are not modelled. `TimeWheel.Wheel.constructor` and `TimeWheel.Wheel.HandleScroll` require a value that parses.
- Text.ParseClock: its own contract only says that a parse needs two pieces. What it gives on the texts the app builds is stated by `Text.ParseClockText`, and its result on other inputs is not specified further.
- Scroll positions and pointer coordinates are whole pixels. Fractional positions are not modelled.
- Smooth scrolling is modelled as its final position. The intermediate scroll events it fires are not modelled, and neither is the scroll event that assigning `scrollTop` or `scrollLeft` itself fires.
- The null-ref guards are left out, because the refs are always attached while a component is shown: `if (!container) return` in `scrollToValue`, and `scrollRef.current` checks in the picker.
- CycleSettingsModal.Modal.HandleScroll: the strip's scroll range is not modelled, so the handler takes any position. `CycleSettingsModal.ScrollValueDefined` states which positions select an entry.
- ResultsList.FormatDurationParses: arguments are the natural numbers the app passes. Negative or fractional totals would round differently and are not modelled.
- Sleep.CalculateWakeUpTimes: the default argument `cycleDurationMinutes = 90` is not modelled, and neither is it for `Sleep.CalculateBedTimes`. Every call passes the argument (app/page.tsx:31, 42).
- Sleep.SortByTime: the sort is modelled as a stable insertion sort by time. The engine's own algorithm is not modelled, but it is stable too, so both give the same order.
- `app/components/FallAsleepSlider.tsx` is not part of this model. It only displays a value, and its one computation is a floating-point percentage.
- `app/components/ModeToggle.tsx` is not part of this model. It is a two-button display with no logic.
- `verify_calculation.ts` is a console script, so it is left out. Its scenario is `Sleep.BedTimesSixtyMinuteExample`.
- `next.config.ts` is build configuration, so it is left out.
