/** The events list shown for a track (src/components/ResponsiveEventsLayout.tsx):
    a grid on wide screens and, on phones, a horizontally scrolling carousel whose
    current card index follows swipes, scrolling and the progress dots. Touch
    positions and scroll offsets are whole CSS pixels. */
module Carousel {
  import opened Wrappers
  import Viewport
  import Jsx
  import Text
  import Catalog

  const CardWidth: int := 280
  const CardGap: int := 16
  /** Distance between the left edges of neighbouring cards. */
  const CardStride: int := CardWidth + CardGap
  /** A horizontal move longer than this is a swipe. */
  const SwipeThreshold: int := 50

  datatype Layout = Grid | Swipeable

  /** `isMobile` picks the carousel; otherwise the grid. */
  function LayoutFor(width: int): (l: Layout)
    ensures l == Swipeable <==> width < 768
  {
    if Viewport.IsMobile(width) then Swipeable else Grid
  }

  /** The component's `currentIndex`, `touchStartX` and `touchEndX` state. */
  datatype Carousel = Carousel(index: int, touchStartX: int, touchEndX: int)

  /** The state when the list is mounted. */
  const Mounted: Carousel := Carousel(0, 0, 0)

  /** `handleTouchStart`: records where the finger went down, nothing else. */
  function TouchStart(c: Carousel, x: int): (r: Carousel)
    ensures r.touchStartX == x
    ensures r.index == c.index && r.touchEndX == c.touchEndX
  {
    c.(touchStartX := x)
  }

  /** `handleTouchMove`: records the finger's latest position, nothing else. */
  function TouchMove(c: Carousel, x: int): (r: Carousel)
    ensures r.touchEndX == x
    ensures r.index == c.index && r.touchStartX == c.touchStartX
  {
    c.(touchEndX := x)
  }

  /** The effect of `handleTouchEnd`: the new state, and the offset the container
      is told to scroll to, if any. */
  datatype TouchEndEffect = TouchEndEffect(after: Carousel, scrollTo: Option<int>)

  /** `handleTouchEnd` for a list of `len` events. A zero (falsy) start or end
      position ends the handler at once. Otherwise a move of more than 50 px to the
      left advances unless on the last card, more than 50 px to the right goes back
      unless on the first card, and the container is scrolled to the card at the
      index read BEFORE the update (the state update is not yet visible to the
      handler). Touch positions are never reset. */
  function TouchEnd(c: Carousel, len: int): (r: TouchEndEffect)
    ensures c.touchStartX == 0 || c.touchEndX == 0 ==> r.after == c && r.scrollTo.None?
    ensures c.touchStartX != 0 && c.touchEndX != 0 ==> r.scrollTo == Some(c.index * CardStride)
    ensures r.after.touchStartX == c.touchStartX && r.after.touchEndX == c.touchEndX
    ensures -SwipeThreshold <= c.touchStartX - c.touchEndX <= SwipeThreshold ==> r.after.index == c.index
    ensures r.after.index == c.index + 1 ==> c.index < len - 1 && c.touchStartX - c.touchEndX > SwipeThreshold
    ensures r.after.index == c.index - 1 ==> c.index > 0 && c.touchStartX - c.touchEndX < -SwipeThreshold
    ensures r.after.index - c.index in {-1, 0, 1}
    ensures c.touchStartX != 0 && c.touchEndX != 0 && c.touchStartX - c.touchEndX > SwipeThreshold && c.index < len - 1
      ==> r.after.index == c.index + 1
    ensures c.touchStartX != 0 && c.touchEndX != 0 && c.touchStartX - c.touchEndX < -SwipeThreshold && c.index > 0
      ==> r.after.index == c.index - 1
    ensures r.after == c.(index := r.after.index)
  {
    if c.touchStartX == 0 || c.touchEndX == 0 then TouchEndEffect(c, None)
    else
      var distance := c.touchStartX - c.touchEndX;
      var isLeftSwipe := distance > SwipeThreshold;
      var isRightSwipe := distance < -SwipeThreshold;
      var i1 := if isLeftSwipe && c.index < len - 1 then c.index + 1 else c.index;
      var i2 := if isRightSwipe && c.index > 0 then c.index - 1 else i1;
      TouchEndEffect(c.(index := i2), Some(c.index * CardStride))
  }

  /** `Math.round(x / d)` for a non-negative whole `x` and a positive even `d`:
      the nearest whole number, halves rounding up. */
  function RoundDiv(x: nat, d: int): (q: nat)
    requires d > 0 && d % 2 == 0
    ensures q * d - d / 2 <= x < q * d + d / 2
  {
    (x + d / 2) / d
  }

  /** `handleScroll`: the index of the card nearest the scroll offset, capped at the
      last index. Below the last card the index is the card whose half-stride window
      holds the offset; the last index is taken exactly when the offset is at or
      past the last card's window. */
  function Scroll(c: Carousel, len: int, scrollLeft: nat): (r: Carousel)
    ensures r.index <= len - 1
    ensures r.index < len - 1 ==> r.index * CardStride - CardStride / 2 <= scrollLeft < r.index * CardStride + CardStride / 2
    ensures r.index == len - 1 <==> scrollLeft >= (len - 1) * CardStride - CardStride / 2
    ensures r == c.(index := r.index)
  {
    var nearest := RoundDiv(scrollLeft, CardStride);
    c.(index := if nearest < len - 1 then nearest else len - 1)
  }

  /** A click on progress dot `i`: the index becomes `i` and the container scrolls
      to that card. */
  function DotClick(c: Carousel, i: nat): (r: TouchEndEffect)
    ensures r.after.index == i && r.scrollTo == Some(i * CardStride)
    ensures r.after.touchStartX == c.touchStartX && r.after.touchEndX == c.touchEndX
  {
    TouchEndEffect(c.(index := i), Some(i * CardStride))
  }

  /** Scrolling to a dot's offset lands on that dot's card again. */
  lemma DotScrollRoundTrip(c: Carousel, len: int, i: nat)
    requires i < len
    ensures Scroll(DotClick(c, i).after, len, i * CardStride).index == i
  {
    var q := RoundDiv(i * CardStride, CardStride);
    assert q == i;
  }

  // ---------------------------------------------------------------------------
  // The index stays on a card
  // ---------------------------------------------------------------------------

  datatype Gesture =
    | TouchStartAt(x: int)
    | TouchMoveTo(x: int)
    | TouchEndNow
    | ScrolledTo(scrollLeft: nat)
    | DotClicked(dot: nat)

  /** One gesture on a list of `len` events; there is one dot per event, so a dot
      beyond the list cannot be clicked. */
  function Apply(c: Carousel, len: int, g: Gesture): (r: Carousel)
    ensures !g.TouchStartAt? ==> r.touchStartX == c.touchStartX
    ensures !g.TouchMoveTo? ==> r.touchEndX == c.touchEndX
    ensures g.TouchStartAt? || g.TouchMoveTo? ==> r.index == c.index
  {
    match g
    case TouchStartAt(x) => TouchStart(c, x)
    case TouchMoveTo(x) => TouchMove(c, x)
    case TouchEndNow => TouchEnd(c, len).after
    case ScrolledTo(left) => Scroll(c, len, left)
    case DotClicked(i) => if i < len then DotClick(c, i).after else c
  }

  /** A sequence of gestures: the touch positions change only through touch
      starts and moves. */
  function ApplyAll(c: Carousel, len: int, gs: seq<Gesture>): (r: Carousel)
    ensures (forall k | 0 <= k < |gs| :: !gs[k].TouchStartAt?) ==> r.touchStartX == c.touchStartX
    ensures (forall k | 0 <= k < |gs| :: !gs[k].TouchMoveTo?) ==> r.touchEndX == c.touchEndX
    decreases |gs|
  {
    if |gs| == 0 then c else ApplyAll(Apply(c, len, gs[0]), len, gs[1..])
  }

  predicate OnACard(c: Carousel, len: int)
  {
    0 <= c.index < len
  }

  /** On a non-empty list every gesture keeps the index on a card. */
  lemma ApplyKeepsOnACard(c: Carousel, len: int, g: Gesture)
    requires len >= 1 && OnACard(c, len)
    ensures OnACard(Apply(c, len, g), len)
  {
  }

  /** Whatever sequence of gestures, the index of a non-empty list stays within
      `[0, len - 1]`. */
  lemma {:induction false} GesturesKeepOnACard(c: Carousel, len: int, gs: seq<Gesture>)
    requires len >= 1 && OnACard(c, len)
    ensures OnACard(ApplyAll(c, len, gs), len)
    decreases |gs|
  {
    if |gs| > 0 {
      ApplyKeepsOnACard(c, len, gs[0]);
      GesturesKeepOnACard(Apply(c, len, gs[0]), len, gs[1..]);
    }
  }

  /** A completed touch moves to another card exactly when both positions are set
      and the finger travelled more than 50 px towards a card that exists. */
  lemma SwipeMovesExactlyWhenItCan(c: Carousel, len: int)
    ensures TouchEnd(c, len).after.index != c.index <==>
      && c.touchStartX != 0 && c.touchEndX != 0
      && ((c.touchStartX - c.touchEndX > SwipeThreshold && c.index < len - 1)
          || (c.touchStartX - c.touchEndX < -SwipeThreshold && c.index > 0))
  {
  }

  /** The stale index: a left swipe from the first card moves the index to 1 but
      scrolls the container back to the first card's offset. */
  lemma SwipeScrollsToPreviousCard()
    ensures
      var r := TouchEnd(TouchMove(TouchStart(Mounted, 300), 100), 10);
      r.after.index == 1 && r.scrollTo == Some(0)
  {
  }

  /** The end position is never reset: after a left swipe, a tap (touch start and
      end with no move) further right than the old end counts as another swipe. */
  lemma TapAfterSwipeRepeatsIt()
    ensures
      var swiped := TouchEnd(TouchMove(TouchStart(Mounted, 300), 100), 10).after;
      var tapped := TouchEnd(TouchStart(swiped, 300), 10).after;
      swiped.index == 1 && tapped.index == 2
  {
  }

  // ---------------------------------------------------------------------------
  // Fee badge
  // ---------------------------------------------------------------------------

  /** `{event.fee && <badge>₹{event.fee}</badge>}` on a card; the badge carries its
      text. */
  function FeeBadge(e: Catalog.Event): (b: Jsx.Child<string>)
    ensures b.Node? <==> e.fee.Some? && e.fee.value != 0
    ensures b.Node? ==> b.node == "₹" + Text.IntToString(e.fee.value)
  {
    Jsx.AndNumber(e.fee, if e.fee.Some? then "₹" + Text.IntToString(e.fee.value) else "")
  }

  /** On every catalog card the badge is either absent or shows the fee: no card
      has a zero fee, so no stray "0" appears. */
  lemma CatalogFeeBadges()
    ensures forall i | 0 <= i < |Catalog.EventsData| ::
      var b := FeeBadge(Catalog.EventsData[i]);
      (b.Nothing? <==> Catalog.EventsData[i].fee.None?) && !b.NumberText?
  {
    Catalog.CatalogFees();
  }
}
