/** The page router held by the root component (src/App.tsx): a record of the
    current page, the selected track and the selected event, the five transition
    handlers that change it, the filtered event list, the transition effect per
    page, and the wiring that decides which handler each visible control calls. */
module Router {
  import opened Wrappers
  import opened PageType
  import opened Catalog
  import Navigation

  /** The root component's `useState` hooks. */
  datatype AppState = AppState(
    isLoading: bool,
    page: Page,
    track: Option<Category>,
    selected: Option<Event>)

  /** The state at start-up: the intro is showing, the home page is current and
      nothing is selected. */
  function Initial(): (s: AppState)
    ensures s.isLoading && s.page == Home && s.track.None? && s.selected.None?
  {
    AppState(true, Home, None, None)
  }

  /** `handleLoadingComplete`: the intro is dismissed; nothing else changes. */
  function LoadingComplete(s: AppState): (r: AppState)
    ensures !r.isLoading
    ensures r.page == s.page && r.track == s.track && r.selected == s.selected
  {
    s.(isLoading := false)
  }

  /** `handlePageChange(p)`: go to `p` and forget both selections, whatever they
      were. */
  function PageChange(s: AppState, p: Page): (r: AppState)
    ensures r.page == p && r.track.None? && r.selected.None?
    ensures r.isLoading == s.isLoading
  {
    s.(page := p, track := None, selected := None)
  }

  /** `handleTrackSelection(t)`: remember the track and show the list; a selected
      event is left as it was. */
  function TrackSelection(s: AppState, t: Category): (r: AppState)
    ensures r.page == EventsList && r.track == Some(t)
    ensures r.selected == s.selected && r.isLoading == s.isLoading
  {
    s.(track := Some(t), page := EventsList)
  }

  /** `handleEventSelection(e)`: remember the event and show its detail; the track
      is left as it was. */
  function EventSelection(s: AppState, e: Event): (r: AppState)
    ensures r.page == EventDetail && r.selected == Some(e)
    ensures r.track == s.track && r.isLoading == s.isLoading
  {
    s.(selected := Some(e), page := EventDetail)
  }

  /** `handleBackToEvents`: back to the track gateway with both selections cleared. */
  function BackToEvents(s: AppState): (r: AppState)
    ensures r.page == Events && r.track.None? && r.selected.None?
    ensures r.isLoading == s.isLoading
  {
    s.(page := Events, track := None, selected := None)
  }

  /** `handleBackToEventsList`: back to the list, forgetting only the event. */
  function BackToEventsList(s: AppState): (r: AppState)
    ensures r.page == EventsList && r.selected.None?
    ensures r.track == s.track && r.isLoading == s.isLoading
  {
    s.(page := EventsList, selected := None)
  }

  /** `getFilteredEvents` over a catalog: the whole catalog without a track,
      otherwise exactly the events of that track, in catalog order. The handlers
      and their wiring below take the catalog as a parameter; `EventsData` is the
      one the site ships. */
  function FilteredEvents(catalog: seq<Event>, track: Option<Category>): (r: seq<Event>)
    ensures track.None? ==> r == catalog
    ensures |r| <= |catalog|
  {
    match track
    case None => catalog
    case Some(t) => FilterByCategory(catalog, t)
  }

  /** With a track, the list holds exactly the catalog's events of that track. */
  lemma FilteredEventsMembers(catalog: seq<Event>, t: Category)
    ensures forall e | e in FilteredEvents(catalog, Some(t)) :: e in catalog && e.category == t
    ensures forall e | e in catalog && e.category == t :: e in FilteredEvents(catalog, Some(t))
  {
  }

  /** The list keeps the catalog's order. */
  lemma FilteredEventsKeepOrder(catalog: seq<Event>, track: Option<Category>)
    ensures IsSubsequence(FilteredEvents(catalog, track), catalog)
  {
    match track
    case None => IsSubsequenceRefl(catalog);
    case Some(t) => FilterIsSubsequence(catalog, t);
  }

  lemma {:induction false} IsSubsequenceRefl(s: seq<Event>)
    ensures IsSubsequence(s, s)
  {
    if |s| > 0 {
      IsSubsequenceRefl(s[1..]);
    }
  }

  /** Filtering the filtered list by its own track again changes nothing. */
  lemma FilteredEventsIdempotent(catalog: seq<Event>, t: Category)
    ensures FilterByCategory(FilteredEvents(catalog, Some(t)), t) == FilteredEvents(catalog, Some(t))
  {
    FilterIdempotent(catalog, t);
  }

  /** With the shipped catalog the list shows all twenty events without a track
      and ten events with one. */
  lemma ShippedFilteredEvents(track: Option<Category>)
    ensures |FilteredEvents(EventsData, track)| == if track.None? then 20 else 10
  {
    if track.Some? {
      TrackSize(track.value);
    }
  }

  // ---------------------------------------------------------------------------
  // Transition effect per page
  // ---------------------------------------------------------------------------

  datatype Transition = Hologram | Matrix | Slide | Scale | Rotate | Fade

  /** `getTransitionType`, a switch over the current page's name with a `default`
      branch for any other string. */
  function TransitionType(current: string): (t: Transition)
    ensures FromName(current).None? ==> t == Fade
  {
    if current == "home" then Hologram
    else if current == "events" then Matrix
    else if current == "events-list" then Slide
    else if current == "event-detail" then Scale
    else if current == "register" then Rotate
    else if current == "schedule" then Fade
    else if current == "sponsors" then Hologram
    else Fade
  }

  /** Home and sponsors share the hologram effect; every page has an effect and
      only schedule among the pages gets the fade of the `default` branch. */
  lemma TransitionTypeOfPages()
    ensures TransitionType(Name(Home)) == Hologram && TransitionType(Name(Sponsors)) == Hologram
    ensures forall p: Page :: TransitionType(Name(p)) == Fade <==> p == Schedule
  {
  }

  // ---------------------------------------------------------------------------
  // UI wiring: which control calls which handler
  // ---------------------------------------------------------------------------

  /** A user action on a control that the current screen may or may not show. */
  datatype UiAction =
    | IntroComplete             // the intro screen's `onComplete`
    | NavSelect(item: nat)      // the navigation bar's item at this index
    | HomeNavigate(target: Page) // a call-to-action button of the home page
    | BackHome                  // the back button of schedule, sponsors or registration
    | SelectTrack(t: Category)  // a card of the track gateway
    | SelectEvent(index: nat)   // a card of the events list, by position
    | ListBack                  // "Back to Gateway" on the events list
    | DetailBack                // the back button of the detail view
    | DetailRegister            // the register button of the detail view

  /** Whether the control the action stands for may be on the current screen.
      This over-approximates what is shown: the registration page's back button
      appears only on phones after its 8000 ms gate, and on phones the bar's items
      only while the menu is open; allowing more actions only strengthens the
      invariants proved over them. */
  predicate Enabled(catalog: seq<Event>, s: AppState, a: UiAction)
    ensures Enabled(catalog, s, a) ==> (s.isLoading <==> a == IntroComplete)
    ensures Enabled(catalog, s, a) && a.SelectEvent? ==> a.index < |FilteredEvents(catalog, s.track)|
  {
    match a
    case IntroComplete => s.isLoading
    case NavSelect(i) => !s.isLoading && i < |Navigation.NavItems|
    case HomeNavigate(target) => !s.isLoading && s.page == Home && (target == Events || target == Register)
    case BackHome => !s.isLoading && (s.page == Schedule || s.page == Sponsors || s.page == Register)
    case SelectTrack(_) => !s.isLoading && s.page == Events
    case SelectEvent(i) => !s.isLoading && s.page == EventsList && i < |FilteredEvents(catalog, s.track)|
    case ListBack => !s.isLoading && s.page == EventsList
    case DetailBack => !s.isLoading && s.page == EventDetail
    case DetailRegister => !s.isLoading && s.page == EventDetail
  }

  /** One user action: the handler wired to that control, or no change when the
      control is not on screen. */
  function Step(catalog: seq<Event>, s: AppState, a: UiAction): (r: AppState)
    ensures !Enabled(catalog, s, a) ==> r == s
    ensures r.isLoading ==> r == s
    ensures Enabled(catalog, s, a) && a.NavSelect? ==> r.page == Navigation.NavItems[a.item].id
    ensures Enabled(catalog, s, a) && a.SelectEvent? ==>
      r.page == EventDetail && r.selected == Some(FilteredEvents(catalog, s.track)[a.index])
  {
    if !Enabled(catalog, s, a) then s
    else match a
      case IntroComplete => LoadingComplete(s)
      case NavSelect(i) => PageChange(s, Navigation.ChooseItem(false, Navigation.NavItems[i]).forwarded)
      case HomeNavigate(target) => PageChange(s, target)
      case BackHome => PageChange(s, Home)
      case SelectTrack(t) => TrackSelection(s, t)
      case SelectEvent(i) => EventSelection(s, FilteredEvents(catalog, s.track)[i])
      case ListBack => BackToEvents(s)
      case DetailBack => BackToEventsList(s)
      case DetailRegister => PageChange(s, Register)
  }

  /** The state after a sequence of actions. */
  function Run(catalog: seq<Event>, s: AppState, actions: seq<UiAction>): (r: AppState)
    ensures !s.isLoading ==> !r.isLoading
    ensures r.isLoading ==> r == s
    decreases |actions|
  {
    if |actions| == 0 then s else Run(catalog, Step(catalog, s, actions[0]), actions[1..])
  }

  /** What every reachable state satisfies: the list page has a track and no
      event; the detail page has a track and a catalog event of that track; every
      other page has neither; and while the intro shows, the home page is current. */
  predicate Consistent(catalog: seq<Event>, s: AppState)
    ensures Consistent(catalog, s) ==> (s.selected.Some? <==> s.page == EventDetail)
    ensures Consistent(catalog, s) ==> (s.track.Some? <==> s.page == EventsList || s.page == EventDetail)
  {
    && (s.isLoading ==> s.page == Home)
    && match s.page
       case EventsList => s.track.Some? && s.selected.None?
       case EventDetail =>
         && s.track.Some? && s.selected.Some?
         && s.selected.value in catalog
         && s.selected.value.category == s.track.value
       case _ => s.track.None? && s.selected.None?
  }

  /** Every action keeps the state consistent. */
  lemma StepPreservesConsistent(catalog: seq<Event>, s: AppState, a: UiAction)
    requires Consistent(catalog, s)
    ensures Consistent(catalog, Step(catalog, s, a))
  {
    if Enabled(catalog, s, a) && a.SelectEvent? {
      var list := FilteredEvents(catalog, s.track);
      FilteredEventsMembers(catalog, s.track.value);
      assert list[a.index] in list;
    }
  }

  /** The reachability invariant: whatever the user does from start-up, on the
      detail page an event is selected and its category is the selected track. */
  lemma {:induction false} ReachableConsistent(catalog: seq<Event>, s: AppState, actions: seq<UiAction>)
    requires Consistent(catalog, s)
    ensures Consistent(catalog, Run(catalog, s, actions))
    decreases |actions|
  {
    if |actions| > 0 {
      StepPreservesConsistent(catalog, s, actions[0]);
      ReachableConsistent(catalog, Step(catalog, s, actions[0]), actions[1..]);
    }
  }

  lemma InitialConsistent(catalog: seq<Event>)
    ensures Consistent(catalog, Initial())
  {
  }

  // ---------------------------------------------------------------------------
  // Rendering the current page
  // ---------------------------------------------------------------------------

  datatype View =
    | IntroView
    | HomeView
    | ScheduleView
    | GatewayView
    | SponsorsView
    | ListView(events: seq<Event>, track: Option<Category>)
    | DetailView(event: Event)
    | RegisterView(events: seq<Event>)

  /** The detail view reads fields of `selectedEvent!`; with no event selected that
      dereferences `null` and the render throws. */
  datatype RenderError = NullSelectedEvent

  /** `renderCurrentPage` behind the loading gate. */
  function Render(catalog: seq<Event>, s: AppState): (r: Result<View, RenderError>)
    ensures r.Failure? <==> !s.isLoading && s.page == EventDetail && s.selected.None?
    ensures s.isLoading ==> r == Success(IntroView)
  {
    if s.isLoading then Success(IntroView)
    else match s.page
      case Home => Success(HomeView)
      case Schedule => Success(ScheduleView)
      case Events => Success(GatewayView)
      case Sponsors => Success(SponsorsView)
      case EventsList => Success(ListView(FilteredEvents(catalog, s.track), s.track))
      case EventDetail =>
        if s.selected.None? then Failure(NullSelectedEvent) else Success(DetailView(s.selected.value))
      case Register => Success(RegisterView(catalog))
  }

  /** In every reachable state the page renders: the list shows the events of the
      selected track, and the detail view shows a catalog event of that track. */
  lemma ReachableRenders(catalog: seq<Event>, actions: seq<UiAction>)
    ensures Render(catalog, Run(catalog, Initial(), actions)).Success?
    ensures var s := Run(catalog, Initial(), actions);
      match Render(catalog, s).value
      case ListView(events, track) =>
        track.Some? && forall e | e in events :: e in catalog && e.category == track.value
      case DetailView(e) => s.track == Some(e.category) && e in catalog
      case _ => true
  {
    InitialConsistent(catalog);
    ReachableConsistent(catalog, Initial(), actions);
    var s := Run(catalog, Initial(), actions);
    if s.track.Some? {
      FilteredEventsMembers(catalog, s.track.value);
    }
  }

  /** On the shipped site, every list page that can be reached shows ten events. */
  lemma ShippedListsShowTen(actions: seq<UiAction>)
    ensures var s := Run(EventsData, Initial(), actions);
      !s.isLoading && s.page == EventsList ==>
        Render(EventsData, s) == Success(ListView(FilteredEvents(EventsData, s.track), s.track)) &&
        |FilteredEvents(EventsData, s.track)| == 10
  {
    var s := Run(EventsData, Initial(), actions);
    InitialConsistent(EventsData);
    ReachableConsistent(EventsData, Initial(), actions);
    ShippedFilteredEvents(s.track);
  }

  // ---------------------------------------------------------------------------
  // Relations between handlers
  // ---------------------------------------------------------------------------

  /** Direct navigation forgets history: two states that differ only in page and
      selections lead to the same state. */
  lemma PageChangeForgets(s1: AppState, s2: AppState, p: Page)
    requires s1.isLoading == s2.isLoading
    ensures PageChange(s1, p) == PageChange(s2, p)
    ensures PageChange(PageChange(s1, p), p) == PageChange(s1, p)
  {
  }

  /** The gateway's back handler is direct navigation to the gateway. */
  lemma BackToEventsIsPageChange(s: AppState)
    ensures BackToEvents(s) == PageChange(s, Events)
  {
  }

  /** Opening an event from the list and going back returns the list state
      exactly. */
  lemma BackUndoesEventSelection(s: AppState, e: Event)
    requires s.page == EventsList && s.selected.None?
    ensures BackToEventsList(EventSelection(s, e)) == s
  {
  }

  /** The round trip gateway -> technical list -> hackathon -> list -> gateway
      ends at the gateway with nothing selected. */
  lemma HackathonRoundTrip()
    ensures
      var s0 := PageChange(LoadingComplete(Initial()), Events);
      var s1 := TrackSelection(s0, Technical);
      var s2 := EventSelection(s1, Hackathon);
      var s3 := BackToEventsList(s2);
      var s4 := BackToEvents(s3);
      && s2.page == EventDetail && s2.selected == Some(Hackathon) && s2.track == Some(Technical)
      && s3 == s1
      && s4 == AppState(false, Events, None, None)
  {
  }
}
