/** The month carousel of the results page (components/seiseki/MonthCarousel.tsx):
    arrows and horizontal swipes step through the months of a year, one at a time,
    never past either end, and not while a slide animation is running. The index of
    the month shown and the number of months are the parent's; the carousel asks
    for a new index through its callback, returned here as a request. */
module MonthCarousel {
  import opened Common

  const MinSwipeDistance := 50

  /** A touch coordinate counts only when present and non-zero (a JavaScript
      truthiness test, so an x of 0 reads as no touch). */
  predicate Present(x: Option<int>)
  {
    x.Some? && x.value != 0
  }

  /** The slide direction of a move from `current` to `target`. */
  function Direction(current: int, target: int): (d: int)
    ensures d == 1 || d == -1
    ensures d == 1 <==> target > current
  {
    if target > current then 1 else -1
  }

  /** hasPrev and hasNext. */
  predicate HasPrev(current: int)
  {
    current > 0
  }

  predicate HasNext(current: int, monthCount: nat)
  {
    current < monthCount - 1
  }

  /** The index a finished swipe asks for, if any. */
  function SwipeTarget(touchStart: Option<int>, touchEnd: Option<int>, isAnimating: bool, current: int, monthCount: nat): (t: Option<int>)
    ensures t.Some? ==> t.value == current + 1 || t.value == current - 1
  {
    if !Present(touchStart) || !Present(touchEnd) || isAnimating then None
    else
      var distance := touchStart.value - touchEnd.value;
      if distance > MinSwipeDistance && current < monthCount - 1 then Some(current + 1)
      else if distance < -MinSwipeDistance && current > 0 then Some(current - 1)
      else None
  }

  /** A swipe moves one month towards the finger's travel: a swipe to the left of
      more than 50 goes to the next month exactly when there is one, a swipe to the
      right of more than 50 to the previous one exactly when there is one, and
      anything shorter, a missing or zero coordinate, or a running animation does
      nothing. */
  lemma SwipeMeaning(touchStart: Option<int>, touchEnd: Option<int>, isAnimating: bool, current: int, monthCount: nat)
    ensures var t := SwipeTarget(touchStart, touchEnd, isAnimating, current, monthCount);
      && (!Present(touchStart) || !Present(touchEnd) || isAnimating ==> t == None)
      && (Present(touchStart) && Present(touchEnd) && !isAnimating ==>
            var distance := touchStart.value - touchEnd.value;
            && (t == Some(current + 1) <==> distance > MinSwipeDistance && HasNext(current, monthCount))
            && (t == Some(current - 1) <==> distance < -MinSwipeDistance && HasPrev(current))
            && (-MinSwipeDistance <= distance <= MinSwipeDistance ==> t == None))
  {
  }

  /** Swipes never leave the months: from a month in range, the target is in range. */
  lemma SwipeStaysInRange(touchStart: Option<int>, touchEnd: Option<int>, isAnimating: bool, current: int, monthCount: nat)
    requires 0 <= current < monthCount
    ensures var t := SwipeTarget(touchStart, touchEnd, isAnimating, current, monthCount);
      t.Some? ==> 0 <= t.value < monthCount
  {
  }

  /** The arrows are shown exactly when the neighbouring month exists. */
  lemma ArrowsMatchBounds(current: int, monthCount: nat)
    requires 0 <= current < monthCount
    ensures HasPrev(current) <==> 0 <= current - 1 < monthCount
    ensures HasNext(current, monthCount) <==> 0 <= current + 1 < monthCount
  {
  }

  class Carousel {
    var touchStart: Option<int>
    var touchEnd: Option<int>
    var isAnimating: bool
    var direction: int

    constructor ()
      ensures touchStart == None && touchEnd == None && !isAnimating && direction == 0
    {
      touchStart := None;
      touchEnd := None;
      isAnimating := false;
      direction := 0;
    }

    /** handleMonthChange: ignored while animating or for the month already shown;
        otherwise the slide direction is set, the animation starts and the new index
        is requested. */
    method HandleMonthChange(current: int, newIndex: int) returns (request: Option<int>)
      modifies this`isAnimating, this`direction
      ensures old(isAnimating) || newIndex == current ==>
        request == None && isAnimating == old(isAnimating) && direction == old(direction)
      ensures !old(isAnimating) && newIndex != current ==>
        request == Some(newIndex) && isAnimating && direction == Direction(current, newIndex)
    {
      if isAnimating || newIndex == current {
        return None;
      }
      direction := Direction(current, newIndex);
      isAnimating := true;
      request := Some(newIndex);
    }

    /** The timer that ends the slide. */
    method AnimationFinished()
      modifies this`isAnimating
      ensures !isAnimating
    {
      isAnimating := false;
    }

    /** onTouchStart: a new touch forgets the old end point. */
    method OnTouchStart(x: int)
      modifies this`touchStart, this`touchEnd
      ensures old(isAnimating) ==> touchStart == old(touchStart) && touchEnd == old(touchEnd)
      ensures !old(isAnimating) ==> touchStart == Some(x) && touchEnd == None
    {
      if isAnimating {
        return;
      }
      touchEnd := None;
      touchStart := Some(x);
    }

    /** onTouchMove. */
    method OnTouchMove(x: int)
      modifies this`touchEnd
      ensures old(isAnimating) ==> touchEnd == old(touchEnd)
      ensures !old(isAnimating) ==> touchEnd == Some(x)
    {
      if isAnimating {
        return;
      }
      touchEnd := Some(x);
    }

    /** onTouchEnd: asks for the swipe's target, if any. */
    method OnTouchEnd(current: int, monthCount: nat) returns (request: Option<int>)
      modifies this`isAnimating, this`direction
      ensures request == SwipeTarget(touchStart, touchEnd, old(isAnimating), current, monthCount)
      ensures request.Some? ==> isAnimating && direction == Direction(current, request.value)
      ensures request.None? ==> isAnimating == old(isAnimating) && direction == old(direction)
    {
      if !Present(touchStart) || !Present(touchEnd) || isAnimating {
        return None;
      }
      var distance := touchStart.value - touchEnd.value;
      var isLeftSwipe := distance > MinSwipeDistance;
      var isRightSwipe := distance < -MinSwipeDistance;
      request := None;
      if isLeftSwipe && current < monthCount - 1 {
        request := HandleMonthChange(current, current + 1);
      }
      if isRightSwipe && current > 0 {
        request := HandleMonthChange(current, current - 1);
      }
    }

    /** The left arrow, shown only when there is a previous month. */
    method PrevClick(current: int) returns (request: Option<int>)
      requires HasPrev(current)
      modifies this`isAnimating, this`direction
      ensures !old(isAnimating) ==> request == Some(current - 1) && direction == -1 && isAnimating
      ensures old(isAnimating) ==> request == None && direction == old(direction) && isAnimating
    {
      request := HandleMonthChange(current, current - 1);
    }

    /** The right arrow, shown only when there is a next month. */
    method NextClick(current: int, monthCount: nat) returns (request: Option<int>)
      requires HasNext(current, monthCount)
      modifies this`isAnimating, this`direction
      ensures !old(isAnimating) ==> request == Some(current + 1) && direction == 1 && isAnimating
      ensures old(isAnimating) ==> request == None && direction == old(direction) && isAnimating
    {
      request := HandleMonthChange(current, current + 1);
    }
  }
}
