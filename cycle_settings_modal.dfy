/** The cycle-length picker of `app/components/CycleSettingsModal.tsx`: a horizontal
    strip of seven 80-pixel items holding a draft `localDuration` that Done hands back
    to the page and the close button throws away. */
module CycleSettingsModal {
  import opened Wrappers
  import opened JsMath

  const ItemWidth: int := 80
  const ValueCount: int := 7

  /** `values`: 60, 70, ..., 120 minutes. */
  function Values(): (r: seq<int>)
    ensures |r| == ValueCount
    ensures forall i :: 0 <= i < |r| ==> r[i] == 60 + i * 10
  {
    seq(ValueCount, i => 60 + i * 10)
  }

  /** The table is strictly increasing, so each value sits at exactly one index. */
  lemma ValuesIncreasing(i: int, j: int)
    requires 0 <= i < j < ValueCount
    ensures Values()[i] < Values()[j]
  {
  }

  /** `Array.prototype.indexOf`: the first index holding `v`, or -1 when there is none. */
  function IndexOf(s: seq<int>, v: int): (i: int)
    ensures i == -1 <==> v !in s
    ensures i != -1 ==> 0 <= i < |s| && s[i] == v && forall j :: 0 <= j < i ==> s[j] != v
    decreases |s|
  {
    if s == [] then -1
    else if s[0] == v then 0
    else
      var r := IndexOf(s[1..], v);
      if r == -1 then -1 else r + 1
  }

  /** `values[index]`: the entry, or `undefined` for an index outside the table. */
  function Lookup(s: seq<int>, index: int): (r: Option<int>)
    ensures r.Some? <==> 0 <= index < |s|
    ensures r.Some? ==> r.value == s[index]
  {
    if 0 <= index < |s| then Some(s[index]) else None
  }

  /** `Math.round(scrollLeft / itemWidth)`: the item under the centre of the strip. */
  function IndexAt(left: int): (i: int)
    ensures i * ItemWidth - ItemWidth / 2 <= left < i * ItemWidth + ItemWidth / 2
  {
    RoundDiv(left, ItemWidth)
  }

  /** The value a scroll position selects. The table holds no 0, so the truthiness test
      on it only rejects `undefined`. */
  function ScrollValue(left: int): (r: Option<int>)
    ensures r.Some? <==> 0 <= IndexAt(left) < ValueCount
    ensures r.Some? ==> r.value == 60 + IndexAt(left) * 10 && r.value in Values()
  {
    Lookup(Values(), IndexAt(left))
  }

  /** The table as a literal list. */
  lemma ValuesTable()
    ensures Values() == [60, 70, 80, 90, 100, 110, 120]
  {
  }

  /** Every entry of the table is found at its own index. */
  lemma IndexOfValue(i: int)
    requires 0 <= i < ValueCount
    ensures IndexOf(Values(), Values()[i]) == i
  {
    var k := IndexOf(Values(), Values()[i]);
    if k < i {
      ValuesIncreasing(k, i);
    }
  }

  /** The position `i * 80` written for item `i` rounds back to index `i`. */
  lemma IndexAtItem(i: int)
    ensures IndexAt(i * ItemWidth) == i
  {
  }

  /** A scroll position selects an entry exactly when it is at most half an item
      outside the strip's range of item positions. */
  lemma ScrollValueDefined(left: int)
    ensures ScrollValue(left).Some? <==> -ItemWidth / 2 <= left < ValueCount * ItemWidth - ItemWidth / 2
  {
  }

  /** Centring a table value and then reading the scroll position gives that value back. */
  lemma CentreRoundTrip(v: int)
    requires v in Values()
    ensures ScrollValue(IndexOf(Values(), v) * ItemWidth) == Some(v)
  {
    IndexAtItem(IndexOf(Values(), v));
  }

  /** The picker: the draft duration and the strip's scroll position. */
  class Modal {
    var localDuration: int
    var scrollLeft: int

    /** `useState(cycleDuration)` on the first render. */
    constructor (cycleDuration: int)
      ensures localDuration == cycleDuration && scrollLeft == 0
    {
      localDuration := cycleDuration;
      scrollLeft := 0;
    }

    /** The sync effect: while open, the draft follows the committed duration. */
    method SyncOnOpen(isOpen: bool, cycleDuration: int)
      modifies this`localDuration
      ensures localDuration == if isOpen then cycleDuration else old(localDuration)
    {
      if isOpen {
        localDuration := cycleDuration;
      }
    }

    /** The centring effect: while open, a draft found in the table is scrolled into the
        centre; a draft outside the table leaves the strip where it is. */
    method CentreSelected(isOpen: bool)
      modifies this`scrollLeft
      ensures isOpen && localDuration in Values() ==>
        scrollLeft == IndexOf(Values(), localDuration) * ItemWidth
        && ScrollValue(scrollLeft) == Some(localDuration)
      ensures !isOpen || localDuration !in Values() ==> scrollLeft == old(scrollLeft)
    {
      if isOpen {
        var index := IndexOf(Values(), localDuration);
        if index != -1 {
          scrollLeft := index * ItemWidth;
          CentreRoundTrip(localDuration);
        }
      }
    }

    /** `handleScroll` for the strip scrolled to `left`: a position over an item other
        than the draft makes that item the draft; any other position changes nothing. */
    method HandleScroll(left: int)
      modifies this
      ensures scrollLeft == left
      ensures ScrollValue(left).Some? ==> localDuration == ScrollValue(left).value
      ensures ScrollValue(left).None? ==> localDuration == old(localDuration)
      ensures old(localDuration) in Values() ==> localDuration in Values()
    {
      scrollLeft := left;
      var index := IndexAt(scrollLeft);
      var value := Lookup(Values(), index);
      if value.Some? && value.value != localDuration {
        localDuration := value.value;
      }
    }

    /** Clicking the item showing `val`: it becomes the draft and the strip scrolls to it. */
    method ClickItem(val: int)
      requires val in Values()
      modifies this
      ensures localDuration == val
      ensures scrollLeft == IndexOf(Values(), val) * ItemWidth
      ensures ScrollValue(scrollLeft) == Some(val)
    {
      localDuration := val;
      var index := IndexOf(Values(), val);
      scrollLeft := index * ItemWidth;
      CentreRoundTrip(val);
    }

    /** `handleDone`: the draft is what `onDurationChange` receives; the page then closes
        the dialog. */
    method Done() returns (committed: int)
      ensures committed == localDuration
    {
      committed := localDuration;
    }
  }
}
