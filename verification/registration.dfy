/** The registration page (src/components/RegistrationPage.tsx): an animated
    background, a spinner for the first 8 seconds, then a card whose layout and
    labels depend on whether the window is phone- or tablet-sized. Time is whole
    milliseconds since the page was mounted. */
module Registration {
  import Viewport

  /** The `showContent` timer. */
  const ContentDelay: nat := 8000

  /** `isTablet`. */
  predicate IsTablet(width: int)
  {
    width >= 768 && width < 1024
  }

  /** The page's `isMobile` (the shared phone test) and `isTablet` are the shared
      breakpoints: never both, and neither exactly on a desktop-sized window. */
  lemma BreakpointsAgree(width: int)
    ensures Viewport.IsMobile(width) <==> Viewport.Classify(width) == Viewport.Mobile
    ensures IsTablet(width) <==> Viewport.Classify(width) == Viewport.Tablet
    ensures !(Viewport.IsMobile(width) && IsTablet(width))
    ensures !Viewport.IsMobile(width) && !IsTablet(width) <==> Viewport.Classify(width) == Viewport.Desktop
  {
  }

  /** The card's width class: `max-w-sm`, `max-w-lg` or `max-w-xl`. */
  function CardWidthClass(width: int): (c: string)
    ensures Viewport.Classify(width) == Viewport.Mobile ==> c == "max-w-sm"
    ensures Viewport.Classify(width) == Viewport.Tablet ==> c == "max-w-lg"
    ensures Viewport.Classify(width) == Viewport.Desktop ==> c == "max-w-xl"
  {
    if Viewport.IsMobile(width) then "max-w-sm" else if IsTablet(width) then "max-w-lg" else "max-w-xl"
  }

  /** The page's state: the clock, `showContent`, `windowWidth`, and whether the
      parent passed an `onBack` callback. */
  datatype Page = Page(now: nat, showContent: bool, width: int, hasOnBack: bool)

  function Mount(width: int, hasOnBack: bool): (p: Page)
    ensures !p.showContent && p.now == 0
  {
    Page(0, false, width, hasOnBack)
  }

  datatype Input = Tick(dt: nat) | Resize(w: int)

  /** Time passing fires the 8000 ms timer once it is due; a resize only changes
      the width. */
  function Step(p: Page, i: Input): (r: Page)
    ensures r.hasOnBack == p.hasOnBack
    ensures p.showContent ==> r.showContent
  {
    match i
    case Tick(dt) => p.(now := p.now + dt, showContent := p.showContent || p.now + dt >= ContentDelay)
    case Resize(w) => p.(width := w)
  }

  /** Any inputs: `onBack` stays as given and the content, once shown, stays. */
  function Run(p: Page, inputs: seq<Input>): (r: Page)
    ensures r.hasOnBack == p.hasOnBack
    ensures p.showContent ==> r.showContent
    decreases |inputs|
  {
    if |inputs| == 0 then p else Run(Step(p, inputs[0]), inputs[1..])
  }

  /** From mount on, the content is shown exactly when 8000 ms have passed, and once
      shown it is never hidden again. */
  lemma {:induction false} ContentGate(p: Page, inputs: seq<Input>)
    requires p.showContent <==> p.now >= ContentDelay
    ensures Run(p, inputs).showContent <==> Run(p, inputs).now >= ContentDelay
    ensures p.showContent ==> Run(p, inputs).showContent
    ensures Run(p, inputs).now >= p.now
    decreases |inputs|
  {
    if |inputs| > 0 {
      ContentGate(Step(p, inputs[0]), inputs[1..]);
    }
  }

  /** The spinner shows until the content does; never both, never neither. */
  predicate ShowsSpinner(p: Page)
    ensures ShowsSpinner(p) ==> !ShowsNewTabHint(p) && !ShowsBackButton(p)
  {
    !p.showContent
  }

  /** The back button: only on a phone, only when the parent gave `onBack`, and
      only inside the card, which appears with the content. */
  predicate ShowsBackButton(p: Page)
    ensures ShowsBackButton(p) ==> ShowsNewTabHint(p) && p.hasOnBack
  {
    p.showContent && Viewport.IsMobile(p.width) && p.hasOnBack
  }

  /** The call-to-action's text. */
  function CtaLabel(width: int): (r: string)
    ensures Viewport.IsMobile(width) <==> r == "Register Now"
    ensures !Viewport.IsMobile(width) <==> r == "Open Registration Form"
  {
    if Viewport.IsMobile(width) then "Register Now" else "Open Registration Form"
  }

  /** The "Opens in new tab" hint under the button on phones. */
  predicate ShowsNewTabHint(p: Page)
    ensures ShowsNewTabHint(p) ==> CtaLabel(p.width) == "Register Now"
  {
    p.showContent && Viewport.IsMobile(p.width)
  }

  /** Before 8000 ms nothing of the card is on screen; the back button goes with
      the phone layout and the new-tab hint, and with the short label. */
  lemma CardParts(p: Page)
    ensures ShowsSpinner(p) ==> !ShowsBackButton(p) && !ShowsNewTabHint(p)
    ensures ShowsBackButton(p) ==> ShowsNewTabHint(p) && CtaLabel(p.width) == "Register Now"
    ensures ShowsNewTabHint(p) && p.hasOnBack ==> ShowsBackButton(p)
  {
  }

  /** A phone-sized page mounted with `onBack` shows its back button after exactly
      8000 ms, and not at 7999 ms. */
  lemma BackButtonAfterDelay(width: int)
    requires Viewport.IsMobile(width)
    ensures !ShowsBackButton(Step(Mount(width, true), Tick(ContentDelay - 1)))
    ensures ShowsBackButton(Step(Mount(width, true), Tick(ContentDelay)))
  {
  }
}
