/** The drag controller of `app/components/BottomSheet.tsx`.

    Touch and mouse events reach the handle as vertical coordinates (`clientY`, whole
    pixels, growing downwards). Each handler is one atomic step on the sheet's state;
    the two refs are `Option`s, `None` standing for `null`. */
module BottomSheet {
  import opened Wrappers

  /** Dragged distance beyond which a release flips the sheet. */
  const Threshold: int := 50
  /** Largest offset, in absolute value, that still counts as a tap. */
  const TapEpsilon: int := 5

  /** `!ref.current` on a `number | null` ref: true for `null` and also for the coordinate 0. */
  predicate Falsy(r: Option<int>)
  {
    r == None || r == Some(0)
  }

  function Abs(x: int): (r: int)
    ensures r >= 0 && (r == x || r == -x)
  {
    if x < 0 then -x else x
  }

  /** The open state after a release that moved `delta` pixels: an open sheet closes on a
      pull down of more than the threshold, a closed one opens on a pull up of more than
      the threshold, and nothing else flips it. */
  function Released(isOpen: bool, delta: int): (open: bool)
    ensures open != isOpen <==> (isOpen && delta > Threshold) || (!isOpen && delta < -Threshold)
  {
    if isOpen then !(delta > Threshold) else delta < -Threshold
  }

  /** A release exactly at the threshold never flips the sheet; one pixel further does. */
  lemma ThresholdIsExclusive()
    ensures Released(true, Threshold) && !Released(true, Threshold + 1)
    ensures !Released(false, -Threshold) && Released(false, -Threshold - 1)
  {
  }

  /** The translation the sheet is drawn with: a pixel offset from the open position, or
      a pixel offset from the collapsed position `100% - 90px`. */
  datatype Translate = FromOpen(px: int) | FromCollapsed(px: int)

  /** The `translateY` of the sheet: an open sheet only follows downward offsets, a
      closed one only upward offsets. */
  function Displayed(isOpen: bool, dragOffset: int): (t: Translate)
    ensures isOpen <==> t.FromOpen?
    ensures isOpen ==> t.px >= 0 && (t.px == dragOffset <==> dragOffset >= 0)
    ensures !isOpen ==> t.px <= 0 && (t.px == dragOffset <==> dragOffset <= 0)
    ensures t.px == 0 || t.px == dragOffset
  {
    if isOpen then FromOpen(if dragOffset > 0 then dragOffset else 0)
    else FromCollapsed(if dragOffset < 0 then dragOffset else 0)
  }

  class Sheet {
    var isOpen: bool
    var isDragging: bool
    var dragOffset: int
    var startY: Option<int>
    var currentY: Option<int>

    /** The refs are set and cleared together, an offset is only held while a drag start
        is recorded, and a drag in progress always has its start recorded. */
    ghost predicate Valid()
      reads this
    {
      && (startY.None? <==> currentY.None?)
      && (startY.None? ==> dragOffset == 0)
      && (isDragging ==> startY.Some?)
    }

    /** The first render: open, not dragging, no offset, both refs `null`. */
    constructor ()
      ensures Valid()
      ensures isOpen && !isDragging && dragOffset == 0 && startY == None && currentY == None
    {
      isOpen := true;
      isDragging := false;
      dragOffset := 0;
      startY := None;
      currentY := None;
    }

    /** `handleTouchStart` (also `onMouseDown`): a drag begins at `y`. */
    method TouchStart(y: int)
      requires Valid()
      modifies this
      ensures Valid()
      ensures isDragging && startY == Some(y) && currentY == Some(y)
      ensures isOpen == old(isOpen) && dragOffset == old(dragOffset)
    {
      isDragging := true;
      startY := Some(y);
      currentY := Some(y);
    }

    /** `handleTouchMove`: ignored while the start is falsy; otherwise records `y` and
        follows the pointer only in the direction the sheet can move. */
    method TouchMove(y: int)
      requires Valid()
      modifies this
      ensures Valid()
      ensures isOpen == old(isOpen) && isDragging == old(isDragging) && startY == old(startY)
      ensures Falsy(old(startY)) ==> (currentY == old(currentY) && dragOffset == old(dragOffset))
      ensures !Falsy(old(startY)) ==>
        var delta := y - old(startY).value;
        && currentY == Some(y)
        && ((delta > 0 && isOpen) || (delta < 0 && !isOpen) ==> dragOffset == delta)
        && (!((delta > 0 && isOpen) || (delta < 0 && !isOpen)) ==> dragOffset == old(dragOffset))
    {
      if Falsy(startY) {
        return;
      }
      currentY := Some(y);
      var delta := y - startY.value;
      if delta > 0 && isOpen {
        dragOffset := delta;
      } else if delta < 0 && !isOpen {
        dragOffset := delta;
      }
    }

    /** `onMouseMove`: a move is handled only while a drag is in progress. */
    method MouseMove(y: int)
      requires Valid()
      modifies this
      ensures Valid()
      ensures isOpen == old(isOpen) && isDragging == old(isDragging) && startY == old(startY)
      ensures !old(isDragging) || Falsy(old(startY)) ==>
        (dragOffset == old(dragOffset) && currentY == old(currentY))
      ensures old(isDragging) && !Falsy(old(startY)) ==>
        var delta := y - old(startY).value;
        && currentY == Some(y)
        && ((delta > 0 && isOpen) || (delta < 0 && !isOpen) ==> dragOffset == delta)
        && (!((delta > 0 && isOpen) || (delta < 0 && !isOpen)) ==> dragOffset == old(dragOffset))
    {
      if isDragging {
        TouchMove(y);
      }
    }

    /** `handleTouchEnd` (also `onMouseUp` and `onMouseLeave`): the drag stops; when both
        refs hold truthy coordinates the sheet settles by the dragged distance and the
        offset and refs are cleared, otherwise everything else stays as it was. */
    method TouchEnd()
      requires Valid()
      modifies this
      ensures Valid()
      ensures !isDragging
      ensures Falsy(old(startY)) || Falsy(old(currentY)) ==>
        (isOpen == old(isOpen) && dragOffset == old(dragOffset)
         && startY == old(startY) && currentY == old(currentY))
      ensures !Falsy(old(startY)) && !Falsy(old(currentY)) ==>
        (isOpen == Released(old(isOpen), old(currentY).value - old(startY).value)
         && dragOffset == 0 && startY == None && currentY == None)
    {
      isDragging := false;
      if Falsy(startY) || Falsy(currentY) {
        return;
      }
      var delta := currentY.value - startY.value;
      if isOpen {
        if delta > Threshold {
          isOpen := false;
        }
      } else {
        if delta < -Threshold {
          isOpen := true;
        }
      }
      dragOffset := 0;
      startY := None;
      currentY := None;
    }

    /** `handleHandleClick`: a tap flips the sheet unless the offset shows it was a drag. */
    method HandleClick()
      requires Valid()
      modifies this`isOpen
      ensures Valid()
      ensures isOpen == (if Abs(dragOffset) < TapEpsilon then !old(isOpen) else old(isOpen))
    {
      if Abs(dragOffset) < TapEpsilon {
        isOpen := !isOpen;
      }
    }
  }

  /** A drag on the open sheet from y = 100 down to y = 200 that the pointer leaves at
      the coordinate 0: the release takes the early return, so the sheet is no longer
      dragging yet keeps its 100-pixel offset and stays open. */
  method DragEndingAtZero() returns (s: Sheet)
    ensures s.Valid()
    ensures s.isOpen && !s.isDragging && s.dragOffset == 100
    ensures Displayed(s.isOpen, s.dragOffset) == FromOpen(100)
  {
    s := new Sheet();
    s.TouchStart(100);
    s.TouchMove(200);
    s.TouchMove(0);
    s.TouchEnd();
  }

  /** A press and release at the same point followed by the click flips the open sheet
      closed: the release clears the offset, so the click counts as a tap. */
  method TapCloses(y: int) returns (s: Sheet)
    ensures s.Valid()
    ensures !s.isOpen && !s.isDragging && s.dragOffset == 0
  {
    s := new Sheet();
    s.TouchStart(y);
    s.TouchEnd();
    s.HandleClick();
  }

  /** A mouse drag that closes the sheet is undone by the click the browser fires after
      the mouse-up: the release has already cleared the offset, so the click counts as a
      tap and opens the sheet again. */
  method MouseDragThenClickReopens() returns (s: Sheet)
    ensures s.Valid()
    ensures s.isOpen && !s.isDragging && s.dragOffset == 0
  {
    s := new Sheet();
    s.TouchStart(100);
    s.MouseMove(200);
    assert s.dragOffset == 100;
    s.TouchEnd();
    assert !s.isOpen;
    s.HandleClick();
  }
}
