/** The intro screen (src/components/LoadingScreen.tsx), shown while the app's
    `isLoading` flag is set. Once the 3-D scene reports it has loaded, a 5000 ms
    timer shows the enter button; once the button is shown, a 12000 ms timer calls
    `onComplete` unless the button is clicked first. `onComplete` clears
    `isLoading`, which unmounts the screen and cancels its timers. Time is whole
    milliseconds on a clock that only `Tick` advances. */
module LoadingScreen {
  import Viewport

  /** Scene load to button. */
  const ButtonDelay: nat := 5000
  /** Button to automatic completion. */
  const RedirectDelay: nat := 12000

  datatype CompletedBy = Clicked | TimedOut

  datatype Phase =
    | Loading
      /** The scene loaded at `readyAt`; the button timer is pending. */
    | Ready(readyAt: nat)
      /** The button is shown (since `readyAt + ButtonDelay`); the redirect timer
          is pending. */
    | Shown(readyAt: nat)
      /** `onComplete` ran at `at`; the screen is gone. */
    | Completed(readyAt: nat, at: nat, how: CompletedBy)

  /** The screen's phase, the clock, `windowWidth`, and how many times `onComplete`
      has been called. */
  datatype Screen = Screen(phase: Phase, now: nat, width: int, completions: nat)

  function Initial(width: int): (s: Screen)
    ensures s.phase == Loading && s.completions == 0
  {
    Screen(Loading, 0, width, 0)
  }

  datatype Input =
    | SceneLoaded        // Spline's `onLoad`
    | Tick(dt: nat)      // time passes; due timers fire in order
    | Click              // a click on the enter button
    | Resize(w: int)     // the window's resize listener

  /** Advances the clock to `t`, firing the button timer and then the redirect
      timer if they fall due on the way. */
  function Advance(s: Screen, t: nat): (r: Screen)
    requires t >= s.now
    ensures r.now == t && r.width == s.width
    ensures s.phase.Loading? ==> r == s.(now := t)
    ensures s.phase.Completed? ==> r == s.(now := t)
    ensures r.phase.Completed? && !s.phase.Completed? ==>
      r.phase.how == TimedOut && r.phase.at == r.phase.readyAt + ButtonDelay + RedirectDelay
  {
    match s.phase
    case Ready(r) =>
      if t < r + ButtonDelay then s.(now := t)
      else if t < r + ButtonDelay + RedirectDelay then Screen(Shown(r), t, s.width, s.completions)
      else Screen(Completed(r, r + ButtonDelay + RedirectDelay, TimedOut), t, s.width, s.completions + 1)
    case Shown(r) =>
      if t < r + ButtonDelay + RedirectDelay then s.(now := t)
      else Screen(Completed(r, r + ButtonDelay + RedirectDelay, TimedOut), t, s.width, s.completions + 1)
    case _ => s.(now := t)
  }

  /** One input. After completion the screen is unmounted and nothing reaches it;
      the scene loading again does not restart the button timer; a click only
      lands while the button is shown. */
  function Step(s: Screen, i: Input): (r: Screen)
    ensures r.now >= s.now
    ensures s.phase.Completed? ==> r.phase == s.phase && r.completions == s.completions
    ensures r.completions == s.completions || (r.completions == s.completions + 1 && r.phase.Completed? && !s.phase.Completed?)
  {
    match i
    case SceneLoaded =>
      if s.phase.Loading? then s.(phase := Ready(s.now)) else s
    case Tick(dt) => Advance(s, s.now + dt)
    case Click =>
      if s.phase.Shown? then Screen(Completed(s.phase.readyAt, s.now, Clicked), s.now, s.width, s.completions + 1)
      else s
    case Resize(w) => if s.phase.Completed? then s else s.(width := w)
  }

  function Run(s: Screen, inputs: seq<Input>): Screen
    decreases |inputs|
  {
    if |inputs| == 0 then s else Run(Step(s, inputs[0]), inputs[1..])
  }

  /** What holds of every screen: `onComplete` has run once exactly when the screen
      is completed and never otherwise; the timers are pending exactly while not
      yet due; completion came no sooner than the button and no later than the
      redirect timer. */
  predicate Valid(s: Screen)
    ensures Valid(s) ==> s.completions <= 1
    ensures Valid(s) && s.completions == 1 ==> s.phase.Completed? && s.phase.at <= s.now
  {
    && s.completions == (if s.phase.Completed? then 1 else 0)
    && (s.phase.Ready? ==> s.phase.readyAt <= s.now < s.phase.readyAt + ButtonDelay)
    && (s.phase.Shown? ==> s.phase.readyAt + ButtonDelay <= s.now < s.phase.readyAt + ButtonDelay + RedirectDelay)
    && (s.phase.Completed? ==>
          s.phase.readyAt + ButtonDelay <= s.phase.at <= s.phase.readyAt + ButtonDelay + RedirectDelay
          && s.phase.at <= s.now)
  }

  lemma StepPreservesValid(s: Screen, i: Input)
    requires Valid(s)
    ensures Valid(Step(s, i))
  {
  }

  /** Over any sequence of inputs from mount, `onComplete` runs at most once, and
      when it has run it did so at least 5000 ms after the scene loaded and at the
      latest when the 12000 ms redirect timer fired. */
  lemma {:induction false} CompletesAtMostOnce(width: int, inputs: seq<Input>)
    ensures var s := Run(Initial(width), inputs);
      Valid(s) && s.completions <= 1
  {
    RunPreservesValid(Initial(width), inputs);
  }

  lemma {:induction false} RunPreservesValid(s: Screen, inputs: seq<Input>)
    requires Valid(s)
    ensures Valid(Run(s, inputs))
    decreases |inputs|
  {
    if |inputs| > 0 {
      StepPreservesValid(s, inputs[0]);
      RunPreservesValid(Step(s, inputs[0]), inputs[1..]);
    }
  }

  /** The component's `isSplineReady` flag. */
  predicate IsSplineReady(p: Phase)
  {
    !p.Loading?
  }

  /** The component's `showButton` flag. */
  predicate ShowButton(p: Phase)
  {
    p.Shown? || p.Completed?
  }

  /** The button is on screen while `showButton` is set and the screen is
      mounted. */
  predicate ButtonVisible(s: Screen)
  {
    ShowButton(s.phase) && !s.phase.Completed?
  }

  /** Without the scene loading, nothing ever completes and the button never
      shows, however much time passes. */
  lemma {:induction false} NothingBeforeTheScene(s: Screen, inputs: seq<Input>)
    requires s.phase.Loading? && s.completions == 0
    requires forall k | 0 <= k < |inputs| :: !inputs[k].SceneLoaded?
    ensures Run(s, inputs).phase.Loading? && Run(s, inputs).completions == 0
    decreases |inputs|
  {
    if |inputs| > 0 {
      NothingBeforeTheScene(Step(s, inputs[0]), inputs[1..]);
    }
  }

  /** Left alone after the scene loads, the screen completes by itself once
      17000 ms have passed, and not a moment earlier: 16999 ms leave the button
      shown. */
  lemma RedirectsOnItsOwn(s: Screen)
    requires Valid(s) && s.phase.Ready? && s.phase.readyAt == s.now
    ensures ButtonVisible(Step(s, Tick(ButtonDelay + RedirectDelay - 1)))
    ensures Step(s, Tick(ButtonDelay + RedirectDelay)).phase == Completed(s.now, s.now + 17000, TimedOut)
    ensures !ButtonVisible(Step(s, Tick(ButtonDelay - 1)))
  {
  }

  // ---------------------------------------------------------------------------
  // Responsive styling
  // ---------------------------------------------------------------------------

  datatype SplineStyle = SplineStyle(height: string, transform: string, marginTop: string)
  datatype ButtonStyle = ButtonStyle(padding: string, fontSize: string, bottom: string, borderRadius: string)

  /** The scene's size per device class. */
  function SplineStyleOf(d: Viewport.DeviceClass): SplineStyle
  {
    match d
    case Desktop => SplineStyle("100vh", "scale(1)", "0")
    case Tablet => SplineStyle("90vh", "scale(0.95)", "5vh")
    case Mobile => SplineStyle("85vh", "scale(0.9)", "7.5vh")
  }

  function ButtonStyleOf(d: Viewport.DeviceClass): ButtonStyle
  {
    match d
    case Desktop => ButtonStyle("1.5rem 4rem", "1.5rem", "6rem", "1rem")
    case Tablet => ButtonStyle("1.25rem 3rem", "1.25rem", "5rem", "0.875rem")
    case Mobile => ButtonStyle("1rem 2rem", "1.125rem", "4rem", "0.75rem")
  }

  /** `getSplineStyles`: a cascade of width tests, which picks the same style as
      the device class of the width. */
  function SplineStyles(width: int): (st: SplineStyle)
    ensures st == SplineStyleOf(Viewport.Classify(width))
  {
    if width >= 1024 then SplineStyle("100vh", "scale(1)", "0")
    else if width >= 768 then SplineStyle("90vh", "scale(0.95)", "5vh")
    else SplineStyle("85vh", "scale(0.9)", "7.5vh")
  }

  /** `getButtonStyles`: the same cascade for the button. */
  function ButtonStyles(width: int): (st: ButtonStyle)
    ensures st == ButtonStyleOf(Viewport.Classify(width))
  {
    if width >= 1024 then ButtonStyle("1.5rem 4rem", "1.5rem", "6rem", "1rem")
    else if width >= 768 then ButtonStyle("1.25rem 3rem", "1.25rem", "5rem", "0.875rem")
    else ButtonStyle("1rem 2rem", "1.125rem", "4rem", "0.75rem")
  }

  /** The three styles are distinct, so the style seen tells the device class. */
  lemma StylesTellTheClass(w1: int, w2: int)
    ensures SplineStyles(w1) == SplineStyles(w2) <==> Viewport.Classify(w1) == Viewport.Classify(w2)
    ensures ButtonStyles(w1) == ButtonStyles(w2) <==> Viewport.Classify(w1) == Viewport.Classify(w2)
  {
    assert "100vh"[0] != "90vh"[0] && "100vh"[0] != "85vh"[0] && "90vh"[0] != "85vh"[0];
    assert "6rem"[0] != "5rem"[0] && "6rem"[0] != "4rem"[0] && "5rem"[0] != "4rem"[0];
  }

  /** The button's text. */
  function ButtonLabel(width: int): (r: string)
    ensures !Viewport.IsMobile(width) ==> r == "🚀 Enter EKNA 2025"
    ensures Viewport.IsMobile(width) ==> r == "🚀 Enter"
  {
    if width >= 768 then "🚀 Enter EKNA 2025" else "🚀 Enter"
  }

  /** The phone-only hint shown while waiting for the button. */
  predicate ShowsSkipHint(s: Screen)
  {
    s.width < 768 && IsSplineReady(s.phase) && !ShowButton(s.phase) && !s.phase.Completed?
  }

  /** The hint and the button are never on screen together, and the hint only
      appears on phones between the scene loading and the button. */
  lemma HintAndButtonExclusive(s: Screen)
    ensures !(ShowsSkipHint(s) && ButtonVisible(s))
    ensures ShowsSkipHint(s) <==> Viewport.IsMobile(s.width) && s.phase.Ready?
  {
  }
}
