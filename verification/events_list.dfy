/** The alternative events list (src/components/EventsList.tsx): previous/next
    stepping through the list, a document-wide swipe handler on phones, and the
    zero-padded position labels on the cards. The component is not mounted by the
    site (the root component's `EventsList` is the carousel layout), and the index
    these handlers maintain is never read by its own rendering: no card is chosen
    by it, and nothing calls the previous, next and go-to handlers. The model
    states what the handlers would do. */
module EventsList {
  import Text
  import Viewport

  /** `nextEvent`: `Math.min(prev + 1, len - 1)`. */
  function Next(prev: int, len: int): (r: int)
    ensures r <= len - 1 && r <= prev + 1
    ensures r == prev + 1 || r == len - 1
  {
    if prev + 1 < len - 1 then prev + 1 else len - 1
  }

  /** `prevEvent`: `Math.max(prev - 1, 0)`. */
  function Prev(prev: int): (r: int)
    ensures r >= 0 && r >= prev - 1
    ensures r == prev - 1 || r == 0
  {
    if prev - 1 > 0 then prev - 1 else 0
  }

  /** `goToEvent(i)`: the index is set to `i` with no bounds check at all. */
  function GoTo(prev: int, i: int): (r: int)
    ensures r == i
  {
    i
  }

  /** `goToEvent` takes any index, even one past the last card. */
  lemma GoToHasNoBoundsCheck(prev: int, len: nat)
    ensures GoTo(prev, len) == len
    ensures !(0 <= GoTo(prev, len) < len)
  {
  }

  /** On a non-empty list, next and previous keep the index on a
      card. */
  lemma StepsStayOnACard(i: int, len: int)
    requires len >= 1 && 0 <= i < len
    ensures 0 <= Next(i, len) < len
    ensures 0 <= Prev(i) < len
  {
  }

  /** At the last card `next` changes nothing, at the first `prev` changes nothing;
      applied twice they are the same as once there. */
  lemma StepsIdleAtTheEnds(len: int)
    requires len >= 1
    ensures Next(len - 1, len) == len - 1
    ensures Prev(0) == 0
    ensures Next(Next(len - 1, len), len) == Next(len - 1, len)
  {
  }

  /** Away from the ends, next and previous undo each other. */
  lemma NextPrevInverse(i: int, len: int)
    requires 0 <= i < len
    ensures i > 0 ==> Next(Prev(i), len) == i
    ensures i < len - 1 ==> Prev(Next(i, len)) == i
  {
  }

  // ---------------------------------------------------------------------------
  // Swipes
  // ---------------------------------------------------------------------------

  /** The effect's local `startX` and `endX`, both 0 when the effect runs. */
  datatype Touch = Touch(startX: int, endX: int)

  const FreshTouch: Touch := Touch(0, 0)

  /** The `touchend` handler: a move of more than 50 px to the left goes to the
      next card, else one of more than 50 px to the right goes to the previous one,
      with the same clamps as the buttons; positions are not reset. */
  function SwipeEnd(index: int, t: Touch, len: int): (r: int)
    ensures t.startX - t.endX > 50 ==> r == Next(index, len)
    ensures t.startX - t.endX <= 50 && t.endX - t.startX > 50 ==> r == Prev(index)
    ensures -50 <= t.startX - t.endX <= 50 ==> r == index
  {
    if t.startX - t.endX > 50 then Next(index, len)
    else if t.endX - t.startX > 50 then Prev(index)
    else index
  }

  /** A `touchstart` records `startX`, a `touchmove` records `endX`; neither is
      cleared by `touchend`. */
  function RecordStart(t: Touch, x: int): (r: Touch)
    ensures r.startX == x && r.endX == t.endX
  {
    t.(startX := x)
  }

  function RecordEnd(t: Touch, x: int): (r: Touch)
    ensures r.endX == x && r.startX == t.startX
  {
    t.(endX := x)
  }

  /** Because `endX` survives a gesture, a tap with no move that starts where the
      last swipe started counts as the same swipe again. */
  lemma TapRepeatsLastSwipe(index: int, len: int, x: int, y: int)
    requires x - y > 50
    ensures
      var swipe := RecordEnd(RecordStart(FreshTouch, x), y);
      var tap := RecordStart(swipe, x);
      SwipeEnd(SwipeEnd(index, swipe, len), tap, len) == Next(Next(index, len), len)
  {
  }

  /** A swipe only moves the index across a strict 50 px threshold, and only in the
      swipe's direction. */
  lemma SwipeDirection(index: int, t: Touch, len: int)
    requires 0 <= index < len
    ensures SwipeEnd(index, t, len) > index ==> t.startX - t.endX > 50
    ensures SwipeEnd(index, t, len) < index ==> t.endX - t.startX > 50
  {
  }

  /** The touch listeners an effect run leaves on the document. */
  datatype Listener = TouchStartListener | TouchMoveListener | TouchEndListener

  const AllTouchListeners: set<Listener> := {TouchStartListener, TouchMoveListener, TouchEndListener}

  /** Mounting attaches the three listeners only on a phone-width window. */
  function AttachListeners(attached: set<Listener>, width: int): (r: set<Listener>)
    ensures Viewport.IsMobile(width) ==> r == attached + AllTouchListeners
    ensures !Viewport.IsMobile(width) ==> r == attached
  {
    if width < 768 then attached + AllTouchListeners else attached
  }

  /** Clean-up removes all three whether or not they were attached. */
  function DetachListeners(attached: set<Listener>): (r: set<Listener>)
    ensures r !! AllTouchListeners
    ensures r <= attached
  {
    attached - AllTouchListeners
  }

  /** Mounting and then cleaning up leaves no touch listener behind, at any width. */
  lemma NoListenerLeak(width: int)
    ensures DetachListeners(AttachListeners({}, width)) == {}
  {
  }

  // ---------------------------------------------------------------------------
  // Position labels
  // ---------------------------------------------------------------------------

  /** `String(n).padStart(2, '0')`. */
  function TwoDigitLabel(n: nat): (r: string)
    ensures n < 100 ==> |r| == 2
    ensures n >= 10 ==> r == Text.NatToString(n)
  {
    Text.PadStart(Text.NatToString(n), 2, '0')
  }

  /** The padded label is made of decimal digits only. */
  lemma TwoDigitLabelDigits(n: nat)
    ensures forall i | 0 <= i < |TwoDigitLabel(n)| :: Text.IsDigit(TwoDigitLabel(n)[i])
  {
    var s := Text.NatToString(n);
    var r := TwoDigitLabel(n);
    assert r[|r| - |s|..] == s;
  }

  /** The padded label always reads back as the number it was made from. */
  lemma TwoDigitLabelReadsBack(n: nat)
    ensures Text.ParseNat(TwoDigitLabel(n)) == n
  {
    var s := Text.NatToString(n);
    var r := TwoDigitLabel(n);
    Text.ParseNatToString(n);
    if |s| < 2 {
      var zeros := r[..|r| - |s|];
      assert r == zeros + s;
      Text.ParseNatLeadingZeros(zeros, s);
    } else {
      assert r == s;
    }
  }

  /** The label of the card at `index` and the list-length label on the phone
      layout: `01 / 10` and so on. */
  function PositionLabel(index: nat, len: nat): (r: string)
    ensures index + 1 < 100 && len < 100 ==> |r| == 7
  {
    TwoDigitLabel(index + 1) + " / " + TwoDigitLabel(len)
  }

  /** Up to 99 cards, a label is two digits for the card's 1-based position, " / ",
      and two digits for the list's length, and both numbers read back. */
  lemma PositionLabelReadsBack(index: nat, len: nat)
    requires index + 1 < 100 && len < 100
    ensures var r := PositionLabel(index, len);
      && r[2..5] == " / "
      && Text.ParseNat(r[..2]) == index + 1
      && Text.ParseNat(r[5..]) == len
  {
    var r := PositionLabel(index, len);
    assert r[..2] == TwoDigitLabel(index + 1);
    assert r[5..] == TwoDigitLabel(len);
    TwoDigitLabelReadsBack(index + 1);
    TwoDigitLabelReadsBack(len);
  }

  /** For ten events the first card reads "01 / 10" and the last "10 / 10". */
  lemma PositionLabelsOfTen()
    ensures PositionLabel(0, 10) == "01 / 10"
    ensures PositionLabel(9, 10) == "10 / 10"
  {
    assert Text.NatToString(1) == "1";
    assert Text.NatToString(10) == Text.NatToString(1) + "0";
    assert Text.Repeat('0', 1) == "0";
    assert TwoDigitLabel(1) == "01";
    assert TwoDigitLabel(10) == "10";
  }
}
