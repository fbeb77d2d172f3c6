/** The infinite hour/minute picker of `app/components/TimeWheel.tsx`.

    Each column shows its value list (24 hours or 60 minutes) five times over and
    is scrolled so that the middle copy is in view. A scroll position is a whole
    number of pixels; the browser keeps it between 0 and the content height minus
    the 128-pixel viewport. */
module TimeWheel {
  import opened Wrappers
  import opened Text
  import opened JsMath
  import opened Arith

  datatype Column = Hour | Minute

  /** The length of a column's value list. */
  function Count(col: Column): (n: nat)
    ensures n == 24 || n == 60
  {
    match col
    case Hour => 24
    case Minute => 60
  }

  const ItemHeight: int := 40
  /** Distance from the viewport top to the top of the centred item: (128 - 40) / 2. */
  const CenterOffset: int := 44
  const ViewportHeight: int := 128
  const Copies: int := 5

  /** `Array.from({ length: count }, (_, i) => i)`. */
  function BaseList(col: Column): seq<int>
  {
    seq(Count(col), i => i)
  }

  /** `infiniteHours` / `infiniteMinutes`: five copies of the base list one after the other. */
  function InfiniteList(col: Column): (r: seq<int>)
    ensures |r| == Copies * Count(col)
    ensures forall i :: 0 <= i < |r| ==> r[i] == i % Count(col)
  {
    var l := BaseList(col);
    var r := l + l + l + l + l;
    var n := Count(col);
    assert forall i :: 0 <= i < |r| ==> r[i] == i % n by {
      forall i | 0 <= i < |r|
        ensures r[i] == i % n
      {
        var k := if i < n then 0 else if i < 2 * n then 1 else if i < 3 * n then 2 else if i < 4 * n then 3 else 4;
        DivMod(i, n, k, i - k * n);
      }
    }
    r
  }

  /** `singleSetHeight`: the pixel height of one copy. */
  function SetHeight(col: Column): int
  {
    Count(col) * ItemHeight
  }

  /** The largest scroll position the browser allows: content height minus viewport. */
  function MaxTop(col: Column): int
  {
    Copies * SetHeight(col) - ViewportHeight
  }

  /** Assigning `scrollTop`: the browser stores the value clamped to the scrollable range. */
  function ClampTop(col: Column, p: int): (r: int)
    ensures 0 <= r <= MaxTop(col)
    ensures 0 <= p <= MaxTop(col) ==> r == p
    ensures p < 0 ==> r == 0
    ensures p > MaxTop(col) ==> r == MaxTop(col)
  {
    if p < 0 then 0 else if p > MaxTop(col) then MaxTop(col) else p
  }

  /** The teleport rule: in the first copy jump two copies down, in the last copy two up. */
  function Teleport(col: Column, p: int): (r: int)
    ensures r == p || r == p + 2 * SetHeight(col) || r == p - 2 * SetHeight(col)
    ensures SetHeight(col) <= p <= 4 * SetHeight(col) ==> r == p
    ensures 0 <= p <= MaxTop(col) ==> SetHeight(col) <= r <= 4 * SetHeight(col) && r <= MaxTop(col)
  {
    var s := SetHeight(col);
    if p < s then p + 2 * s else if p > 4 * s then p - 2 * s else p
  }

  /** `Math.round((scrollTop + CENTER_OFFSET) / ITEM_HEIGHT)`: the index of the centred item. */
  function RawIndex(p: int): (r: int)
    ensures r * ItemHeight - ItemHeight / 2 <= p + CenterOffset < r * ItemHeight + ItemHeight / 2
  {
    RoundDiv(p + CenterOffset, ItemHeight)
  }

  /** `rawIndex % count`: the value the position selects. */
  function ValueAt(col: Column, p: int): (v: int)
    ensures RawIndex(p) >= 0 ==> 0 <= v < Count(col) && v == RawIndex(p) % Count(col)
    ensures RawIndex(p) < 0 ==> v <= 0 && v + Count(col) > 0
  {
    JsRem(RawIndex(p), Count(col))
  }

  /** `scrollToValue`: the position that centres `val` in the middle copy. */
  function InitialTop(col: Column, val: int): (p: int)
    ensures RawIndex(p) == val + 2 * Count(col)
    ensures (p + CenterOffset) % ItemHeight == 0
    ensures 0 <= val < Count(col) ==> SetHeight(col) <= p <= 4 * SetHeight(col)
  {
    var p := (val + Count(col) * 2) * ItemHeight - CenterOffset;
    RawIndexShift(-CenterOffset, val + Count(col) * 2);
    assert RawIndex(-CenterOffset) == 0;
    DivMod(p + CenterOffset, ItemHeight, val + Count(col) * 2, 0);
    p
  }

  /** The text passed to `onChange`: the scrolled field replaced by `v`, the other kept,
      both zero-padded to two digits. */
  function ChangeText(col: Column, v: nat, hours: nat, minutes: nat): (s: string)
    ensures ParseClock(s) == Some(if col == Hour then (v, minutes) else (hours, v))
  {
    if col == Hour then
      ParseClockText(v, minutes);
      ClockText(v, minutes)
    else
      ParseClockText(hours, v);
      ClockText(hours, v)
  }

  /** Shifting a position by `k` items shifts the centred index by exactly `k`. */
  lemma RawIndexShift(p: int, k: int)
    ensures RawIndex(p + k * ItemHeight) == RawIndex(p) + k
  {
  }

  /** Adding whole lists to a non-negative index does not change the value it selects. */
  lemma ValueShift(col: Column, raw: int, k: int)
    requires raw >= 0 && raw + k * Count(col) >= 0
    ensures JsRem(raw + k * Count(col), Count(col)) == JsRem(raw, Count(col))
  {
    var n := Count(col);
    DivMod(raw + k * n, n, raw / n + k, raw % n);
  }

  /** Every scroll position the browser can hold selects a value of the column's list. */
  lemma ValueInRange(col: Column, p: int)
    requires p >= 0
    ensures 0 <= ValueAt(col, p) < Count(col)
  {
  }

  /** The value a position selects is the entry of the replicated list centred in the
      viewport. */
  lemma ValueIsCentredEntry(col: Column, p: int)
    requires 0 <= p <= MaxTop(col)
    ensures 0 <= RawIndex(p) < |InfiniteList(col)|
    ensures InfiniteList(col)[RawIndex(p)] == ValueAt(col, p)
  {
  }

  /** The mount position of a value of the list lies in the middle three copies, so it
      needs no clamping and no teleport, and it selects that value again. */
  lemma InitialTopRoundTrip(col: Column, val: int)
    requires 0 <= val < Count(col)
    ensures SetHeight(col) <= InitialTop(col, val) <= 4 * SetHeight(col)
    ensures ClampTop(col, InitialTop(col, val)) == InitialTop(col, val)
    ensures Teleport(col, InitialTop(col, val)) == InitialTop(col, val)
    ensures ValueAt(col, InitialTop(col, val)) == val
  {
    var p := InitialTop(col, val);
    RawIndexShift(-CenterOffset, val + Count(col) * 2);
    assert RawIndex(-CenterOffset) == 0;
    ValueShift(col, val, 2);
  }

  /** After a teleport the position is in the middle three copies, still inside the
      scrollable range, and it selects the same value as before. */
  lemma TeleportPreservesValue(col: Column, p: int)
    requires 0 <= p <= MaxTop(col)
    ensures SetHeight(col) <= Teleport(col, p) <= 4 * SetHeight(col)
    ensures ClampTop(col, Teleport(col, p)) == Teleport(col, p)
    ensures ValueAt(col, Teleport(col, p)) == ValueAt(col, p)
  {
    var s, n: int := SetHeight(col), Count(col);
    if p < s {
      RawIndexShift(p, 2 * n);
      ValueShift(col, RawIndex(p), 2);
    } else if p > 4 * s {
      RawIndexShift(p, -2 * n);
      ValueShift(col, RawIndex(p), -2);
    }
  }

  /** For an hour below 24 and a minute below 60 the emitted text is five characters
      long, both fields zero-padded to two digits. */
  lemma ChangeTextWidth(col: Column, v: nat, hours: nat, minutes: nat)
    ensures v < Count(col) && hours < 24 && minutes < 60 ==> |ChangeText(col, v, hours, minutes)| == 5
  {
    if col == Hour {
      ParseClockText(v, minutes);
    } else {
      ParseClockText(hours, v);
    }
  }

  /** The scroll positions of the two columns. */
  class Wheel {
    var hoursTop: int
    var minutesTop: int

    ghost predicate Valid()
      reads this
    {
      0 <= hoursTop <= MaxTop(Hour) && 0 <= minutesTop <= MaxTop(Minute)
    }

    function Top(col: Column): int
      reads this
    {
      if col == Hour then hoursTop else minutesTop
    }

    /** The mount effect: both columns scrolled to the value of the `value` prop. */
    constructor (value: string)
      requires ParseClock(value).Some?
      ensures Valid()
      ensures var (hours, minutes) := ParseClock(value).value;
        hoursTop == ClampTop(Hour, InitialTop(Hour, hours))
        && minutesTop == ClampTop(Minute, InitialTop(Minute, minutes))
    {
      var (hours, minutes) := ParseClock(value).value;
      hoursTop := ClampTop(Hour, InitialTop(Hour, hours));
      minutesTop := ClampTop(Minute, InitialTop(Minute, minutes));
    }

    /** The user scrolls column `col` to `top` and `handleScroll` runs with the current
        `value` prop: teleport, derive the value, emit a new text when it differs. */
    method HandleScroll(col: Column, top: int, value: string) returns (emitted: Option<string>)
      requires Valid() && ParseClock(value).Some?
      modifies this
      ensures Valid()
      ensures Top(col) == Teleport(col, ClampTop(col, top))
      ensures Top(if col == Hour then Minute else Hour) == old(Top(if col == Hour then Minute else Hour))
      ensures SetHeight(col) <= Top(col) <= 4 * SetHeight(col)
      ensures ValueAt(col, Top(col)) == ValueAt(col, ClampTop(col, top))
      ensures var (hours, minutes) := ParseClock(value).value;
        var v := ValueAt(col, Top(col));
        && (emitted.Some? <==> v != (if col == Hour then hours else minutes))
        && (emitted.Some? ==> 0 <= v && emitted.value == ChangeText(col, v, hours, minutes))
    {
      var (hours, minutes) := ParseClock(value).value;
      var p := ClampTop(col, top);
      var s := SetHeight(col);
      TeleportPreservesValue(col, p);
      if p < s {
        p := ClampTop(col, p + s * 2);
      } else if p > s * 4 {
        p := ClampTop(col, p - s * 2);
      }
      if col == Hour {
        hoursTop := p;
      } else {
        minutesTop := p;
      }
      var newValue := JsRem(RawIndex(p), Count(col));
      if col == Hour {
        emitted := if newValue != hours then Some(ClockText(newValue, minutes)) else None;
      } else {
        emitted := if newValue != minutes then Some(ClockText(hours, newValue)) else None;
      }
    }
  }
}
