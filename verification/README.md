# EKNA 2025 site core in Dafny

This project models the sequential core of the EKNA 2025 symposium website. The site is a
single-page React application: the root component keeps the current page, the selected
track and the selected event, and hands callbacks down to the pages. The model covers:

- **Page router** (`Router`, `PageType`, `Navigation`): the root component's state record,
  its five transition handlers, the filtered event list, the per-page transition effect,
  and the navigation bar's items, mobile menu and active-item highlight. Which visible
  control calls which handler is modelled as a step function over user actions. For every
  reachable state it is proved that the events list has a track, that the detail page
  shows a catalog event of that track, and that the page never dereferences a missing
  event.
- **Catalog** (`Catalog`): the twenty literal event records and `filter` by category, with
  order preservation, partition, idempotence and the shape of the shipped data. The
  router's handlers and wiring take the catalog as a parameter. They are proved for any
  catalog, and the shipped `eventsData` gives ten events per track.
- **Events carousel** (`Carousel`): the phone carousel of the events list. It covers
  swipe handling with its zero-position guard, the stale index used for the scroll target,
  index recovery from the scroll offset, and the progress dots. An older list component
  (`EventsList`) has clamped previous/next handlers, a document-wide swipe listener and
  zero-padded position labels. That component is not mounted by the site, nothing
  calls its previous, next and go-to handlers, and the index they maintain is never
  rendered; the model states what the handlers would do.
- **Event detail** (`EventDetail`): the `safeEvent` fallbacks, the fee, register and
  category labels, rule numbering, coordinator initials, and the five tabs.
- **Image URL rewriting** (`OptimizedImage`, `FormUrlEncoded`): Unsplash URLs get `w`, `h`,
  `q` and `auto` parameters, serialized as section 5.2 of the WHATWG URL Standard
  describes. The model also covers the in-view / loaded / error flags and the choice of
  `src`.
- **Timed gates and breakpoints** (`LoadingScreen`, `Registration`, `Viewport`): the intro
  screen's scene → button (5000 ms) → completion (click or 12000 ms) machine and its
  responsive styles, the registration page's 8000 ms content gate, and the 768 / 1024 px
  breakpoints.
- **Preload counter** (`Preload`): the shared load counter, the progress capped at 100,
  the completion callback scheduled on every count from 50 on, and the top-up at 3 s.

Supporting modules: `Wrappers` (Option/Result), `Text` (JavaScript `split`/`join`, decimal
`toString`, `padStart`, `toUpperCase` on ASCII), and `Jsx`. `Jsx` models how React renders
`{n && <node/>}` for a number `n`: 0 is printed as text.

The catalog holds 10 technical and 10 non-technical events. The track gateway's page id
is `'events'`.

## Model

| member | source | states |
|---|---|---|
| PageType.FromName | src/App.tsx:19 | a string is recognised as a page only if it is that page's name |
| PageType.FromNameOfName | src/App.tsx:19 | every page is recovered from its name, so the seven page names are distinct |
| Router.Initial | src/App.tsx:22-25 | start-up shows the intro on the home page with no track and no event |
| Router.LoadingComplete | src/App.tsx:81-83 | dismissing the intro changes nothing but the loading flag |
| Router.PageChange | src/App.tsx:85-89 | direct navigation lands on the requested page with both selections cleared, whatever they were |
| Router.TrackSelection | src/App.tsx:91-94 | choosing a track shows the list for it and leaves the selected event as it was |
| Router.EventSelection | src/App.tsx:96-99 | choosing an event shows its detail and leaves the track as it was |
| Router.BackToEvents | src/App.tsx:101-105 | going back to the gateway clears both selections |
| Router.BackToEventsList | src/App.tsx:107-110 | going back to the list clears the event and keeps the track |
| Router.FilteredEvents | src/App.tsx:112-115 | without a track the list is the whole catalog, and it is never longer than the catalog |
| Router.FilteredEventsMembers | src/App.tsx:112-115 | with a track the list holds exactly the catalog's events of that track (both directions) |
| Router.FilteredEventsKeepOrder | src/App.tsx:112-115 | the list keeps the catalog's order |
| Router.ShippedFilteredEvents | src/App.tsx:112-115 | with the shipped catalog the list has twenty events without a track and ten with one |
| Router.FilteredEventsIdempotent | src/App.tsx:112-115 | filtering the filtered list by its own track gives the same list |
| Router.TransitionType | src/App.tsx:129-140 | any string that is not a page name gets the default fade |
| Router.TransitionTypeOfPages | src/App.tsx:129-140 | home and sponsors share the hologram effect, and schedule is the only page that fades |
| Router.Enabled | src/App.tsx:142-185 | while the intro shows, only its completion is possible, and afterwards it is not; an event card picked from the list is within the filtered list |
| Router.Step | src/App.tsx:142-185 | a control not on screen changes nothing; once the intro is gone it never returns; a bar item lands on its page; a list card opens the detail of that card's event |
| Router.Run | src/App.tsx:81-115 | once the intro is dismissed it never comes back, whatever actions follow |
| Router.Consistent | src/App.tsx:156-173 | in a consistent state an event is selected exactly on the detail page, and a track exactly on the list and detail pages |
| Router.StepPreservesConsistent | src/App.tsx:142-185 | every control wired on the current page keeps the state consistent: the list has a track; the detail has a track and a catalog event of it; other pages have neither |
| Router.ReachableConsistent | src/App.tsx:85-115 | consistency survives any sequence of user actions |
| Router.InitialConsistent | src/App.tsx:22-25 | the start-up state is consistent |
| Router.Render | src/App.tsx:156-173 | rendering fails exactly on the detail page with no selected event, and shows the intro while loading |
| Router.ReachableRenders | src/App.tsx:156-173 | for any catalog, every reachable state renders; the list shows only catalog events of the selected track; the detail event is a catalog event of the track |
| Router.ShippedListsShowTen | src/App.tsx:156-164 | on the shipped site every reachable list page shows ten events |
| Router.PageChangeForgets | src/App.tsx:85-89 | the result of direct navigation does not depend on the previous page or selections, and repeating it changes nothing |
| Router.BackToEventsIsPageChange | src/App.tsx:101-105 | going back to the gateway is the same as navigating to it |
| Router.BackUndoesEventSelection | src/App.tsx:96-110 | opening an event from the list and going back restores the list state exactly |
| Router.HackathonRoundTrip | src/App.tsx:85-110 | gateway → technical list → hackathon → list → gateway ends on the gateway with nothing selected, and the list state after "back" equals the state before selection |
| Navigation.NavItemIds | src/components/Navigation.tsx:12-18 | the bar lists home, schedule, events, sponsors and register with no repeats, and no item for the list or detail pages |
| Navigation.ChooseItem | src/components/Navigation.tsx:20-23 | choosing an item forwards its page id and closes the menu |
| Navigation.ToggleMenu | src/components/Navigation.tsx:76 | the menu button flips the open flag |
| Navigation.ToggleTwice | src/components/Navigation.tsx:76 | pressing the menu button twice restores the menu |
| Navigation.MenuStep | src/components/Navigation.tsx:20-23 | only the menu button opens the menu; a backdrop click or an item choice always leaves it closed; only an item choice forwards a page id, that item's; a backdrop click on a closed menu does nothing |
| Navigation.MenuOpenAfter | src/components/Navigation.tsx:76-132 | after any events the menu is open exactly when an odd number of menu-button presses follow the last backdrop click or item choice |
| Navigation.MobileMenuItems | src/components/Navigation.tsx:99-132 | the drop-down lists every item while open and nothing while closed |
| Navigation.IsActive | src/components/Navigation.tsx:54 | no item of the bar is highlighted on the events list or an event's detail page |
| Navigation.ActiveAmong | src/components/Navigation.tsx:53-62 | the highlighted items are exactly the items whose id is the current page |
| Navigation.ActiveAmongDistinct | src/components/Navigation.tsx:53-62 | with distinct ids, one item is highlighted if the page has an item and none otherwise |
| Navigation.AtMostOneActive | src/components/Navigation.tsx:53-62 | at most one item is highlighted, and none exactly on the list and detail pages |
| Catalog.FilterByCategory | src/App.tsx:114 | the filter keeps exactly the events of the category (both directions) and never lengthens the list |
| Catalog.FilterIsSubsequence | src/App.tsx:114 | the filter keeps the catalog's relative order |
| Catalog.FilterPartition | src/App.tsx:114 | the two category filters split any list with nothing lost or repeated |
| Catalog.FilterIdempotent | src/App.tsx:114 | filtering twice equals filtering once |
| Catalog.FilterAppend | src/App.tsx:114 | filtering a concatenation filters each part |
| Catalog.FilterUniform | src/App.tsx:114 | a list of one category passes its own filter whole and the other filter empty |
| Catalog.CatalogIdList | src/components/EventsData.ts:13-321 | the catalog's ids, in order, are the twenty listed ids |
| Catalog.CatalogIdsDistinct | src/components/EventsData.ts:13-321 | no two catalog events share an id |
| Catalog.FilterBlocks | src/App.tsx:114 | on a block of one category followed by a block of another, each filter keeps exactly its own block |
| Catalog.CatalogCounts | src/components/EventsData.ts:13-321 | each track has ten events: the first ten records are technical, the last ten non-technical |
| Catalog.TrackSize | src/components/EventsData.ts:13-321 | either track lists ten events |
| Catalog.TechnicalBeforeNonTechnical | src/components/EventsData.ts:13-321 | every technical event precedes every non-technical one |
| Catalog.EveryEventHasFourRules | src/components/EventsData.ts:13-321 | every event has four rules, so no rules list is empty |
| Catalog.CatalogFees | src/components/EventsData.ts:10-321 | every fee given is positive; the hackathon costs 200; circuit debugging has no fee |
| Carousel.LayoutFor | src/components/ResponsiveEventsLayout.tsx:23-31 | the swipe carousel is used exactly below 768 px |
| Carousel.TouchStart | src/components/ResponsiveEventsLayout.tsx:34-36 | touch start records the start position and nothing else |
| Carousel.TouchMove | src/components/ResponsiveEventsLayout.tsx:38-40 | touch move records the end position and nothing else |
| Carousel.TouchEnd | src/components/ResponsiveEventsLayout.tsx:42-66 | a zero start or end position does nothing. Otherwise a move of over 50 px to the left advances unless on the last card, one of over 50 px to the right goes back unless on the first card, and nothing else moves the index. The scroll target is the card at the index before the update. Only the index changes |
| Carousel.SwipeMovesExactlyWhenItCan | src/components/ResponsiveEventsLayout.tsx:42-66 | the card changes exactly when both positions are set and the finger travelled over 50 px towards a card that exists |
| Carousel.RoundDiv | src/components/ResponsiveEventsLayout.tsx:75 | rounding a division gives the nearest quotient, halves rounding up |
| Carousel.Scroll | src/components/ResponsiveEventsLayout.tsx:69-76 | below the last card the index is the card whose half-stride window holds the offset; the last card is chosen exactly when the offset is at or past its window; nothing else changes |
| Carousel.DotClick | src/components/ResponsiveEventsLayout.tsx:271-280 | a dot click selects that card and scrolls to its offset |
| Carousel.DotScrollRoundTrip | src/components/ResponsiveEventsLayout.tsx:69-76 | scrolling to a dot's offset selects that dot's card again |
| Carousel.Apply | src/components/ResponsiveEventsLayout.tsx:34-76 | only a touch start moves the start position, only a touch move the end position, and neither moves the index |
| Carousel.ApplyAll | src/components/ResponsiveEventsLayout.tsx:34-76 | over any gestures, the start and end positions change only through touch starts and touch moves |
| Carousel.GesturesKeepOnACard | src/components/ResponsiveEventsLayout.tsx:42-76 | on a non-empty list, any gesture sequence keeps the index on a card |
| Carousel.SwipeScrollsToPreviousCard | src/components/ResponsiveEventsLayout.tsx:49-64 | a left swipe from the first card selects card 1 but scrolls to card 0 |
| Carousel.TapAfterSwipeRepeatsIt | src/components/ResponsiveEventsLayout.tsx:34-55 | since positions are never reset, a tap after a swipe counts as another swipe |
| Carousel.FeeBadge | src/components/ResponsiveEventsLayout.tsx:110-114 | the card's badge shows the fee exactly when it is present and nonzero |
| Carousel.CatalogFeeBadges | src/components/ResponsiveEventsLayout.tsx:110-114 | no catalog card prints a stray "0"; badges are absent exactly for events without a fee |
| EventsList.Next | src/components/EventsList.tsx:19-21 | the (unrendered) index steps one on, never past the last card |
| EventsList.Prev | src/components/EventsList.tsx:23-25 | the (unrendered) index steps one back, never before the first |
| EventsList.GoTo | src/components/EventsList.tsx:27-29 | going to a card sets the index to the card asked for |
| EventsList.GoToHasNoBoundsCheck | src/components/EventsList.tsx:27-29 | going to a card past the end is accepted: the index leaves the list |
| EventsList.StepsStayOnACard | src/components/EventsList.tsx:19-25 | on a non-empty list, next and previous keep the index on a card |
| EventsList.StepsIdleAtTheEnds | src/components/EventsList.tsx:19-25 | next on the last card and previous on the first change nothing |
| EventsList.NextPrevInverse | src/components/EventsList.tsx:19-25 | away from the ends, next and previous undo each other |
| EventsList.SwipeEnd | src/components/EventsList.tsx:44-52 | a move of over 50 px left goes next, else over 50 px right goes back, else nothing |
| EventsList.RecordStart | src/components/EventsList.tsx:36-38 | a touch start records the start position and keeps the end position |
| EventsList.RecordEnd | src/components/EventsList.tsx:40-42 | a touch move records the end position and keeps the start position |
| EventsList.SwipeDirection | src/components/EventsList.tsx:44-52 | the index only moves in the swipe's direction and only past the threshold |
| EventsList.TapRepeatsLastSwipe | src/components/EventsList.tsx:33-52 | since the positions persist, a tap at the last swipe's start repeats that swipe |
| EventsList.AttachListeners | src/components/EventsList.tsx:54-59 | the touch listeners are attached only below 768 px |
| EventsList.DetachListeners | src/components/EventsList.tsx:61-65 | clean-up removes all three touch listeners |
| EventsList.NoListenerLeak | src/components/EventsList.tsx:54-65 | mount followed by clean-up leaves no listener at any width |
| EventsList.TwoDigitLabel | src/components/EventsList.tsx:162 | a padded number under 100 has two digits, and from 10 on is the plain decimal |
| EventsList.TwoDigitLabelDigits | src/components/EventsList.tsx:162 | the padded label is decimal digits only |
| EventsList.TwoDigitLabelReadsBack | src/components/EventsList.tsx:162 | the padded label reads back as the number |
| EventsList.PositionLabel | src/components/EventsList.tsx:162 | below 100 cards the label is seven characters |
| EventsList.PositionLabelReadsBack | src/components/EventsList.tsx:162 | the label is the card's position and the list length, two digits each around " / ", and both read back |
| EventsList.PositionLabelsOfTen | src/components/EventsList.tsx:162 | with ten events the cards read "01 / 10" to "10 / 10" |
| EventDetail.FeeOrZero | src/components/ResponsiveEventDetail.tsx:31 | the fee becomes 0 exactly when missing or 0, and keeps its value otherwise |
| EventDetail.Normalize | src/components/ResponsiveEventDetail.tsx:28-34 | coordinators and prizes are never empty afterwards, and non-empty ones are kept. The fee is 0 exactly when missing or 0. Rules and every other field are unchanged |
| EventDetail.NormalizeIdempotent | src/components/ResponsiveEventDetail.tsx:28-34 | normalising a normalised record changes nothing |
| EventDetail.NormalizeKeepsCompleteRecords | src/components/ResponsiveEventDetail.tsx:28-34 | a record with coordinators, prizes and a fee comes back unchanged |
| EventDetail.FeeLabel | src/components/ResponsiveEventDetail.tsx:78 | the label is "Free" exactly for fee 0, otherwise a rupee amount |
| EventDetail.FeeLabelReadsBack | src/components/ResponsiveEventDetail.tsx:78 | the label of a non-negative fee reads back as that fee |
| EventDetail.RegisterLabel | src/components/ResponsiveEventDetail.tsx:420 | the register button reads "Register Now - " followed by the registration card's fee label |
| EventDetail.CategoryLabel | src/components/ResponsiveEventDetail.tsx:70 | "Technical Event" exactly for technical events, "Creative Event" exactly for the others |
| EventDetail.DetailsFeeRowAsWritten | src/components/ResponsiveEventDetail.tsx:133-145 | the Details tab's fee slot is never empty: it prints the number 0 exactly when the fee is 0 |
| EventDetail.FreeEventShowsStrayZero | src/components/ResponsiveEventDetail.tsx:133 | for circuit debugging the Details tab prints a bare "0" |
| EventDetail.DetailsFeeRow | src/components/ResponsiveEventDetail.tsx:133-145 | the fee row appears exactly when there is a fee, never as stray text |
| EventDetail.DetailsFeeRowAgrees | src/components/ResponsiveEventDetail.tsx:133-145 | the row is shown exactly when the card's label is not "Free", and matches the as-written row when there is a fee |
| EventDetail.NumberRules | src/components/ResponsiveEventDetail.tsx:164-168 | every rule is listed, in order, with its text |
| EventDetail.RuleNumbersCount | src/components/ResponsiveEventDetail.tsx:166 | the rule numbers read 1, 2, 3, … in order |
| EventDetail.Initials | src/components/ResponsiveEventDetail.tsx:255 | the initials are at most two characters with no lower-case ASCII letter |
| EventDetail.LeadingLetters | src/components/ResponsiveEventDetail.tsx:255 | the first characters of the first two words, or of the one word |
| EventDetail.InitialsOfTwoWords | src/components/ResponsiveEventDetail.tsx:255 | a name's initials are the first word's first character and the next word's |
| EventDetail.InitialsOfNames | src/components/ResponsiveEventDetail.tsx:255 | two space-free words at the start give their two first characters, upper-cased |
| EventDetail.InitialsOfOneWord | src/components/ResponsiveEventDetail.tsx:255 | a one-word name gives one initial |
| EventDetail.ContactAvatar | src/components/ResponsiveEventDetail.tsx:255 | the avatar shows initials for non-empty coordinators and "EC" otherwise |
| EventDetail.AvatarAfterNormalize | src/components/ResponsiveEventDetail.tsx:28-34 | after normalisation the "EC" branch is dead; missing coordinators show "CO" |
| EventDetail.PaperPresentationAvatar | src/components/ResponsiveEventDetail.tsx:255 | "A. Kumar, B. Devi" gives "AK" |
| EventDetail.TabContent | src/components/ResponsiveEventDetail.tsx:46-321 | there is content exactly for tabs 0 to 4. Overview carries the category and fee labels; Details the event type and the fee row as written, a bare "0" exactly for a free event and the fee text otherwise; Rules every rule in order; Prizes the winners' prize; Contact the avatar and the coordinators |
| EventDetail.IntendedTabContent | src/components/ResponsiveEventDetail.tsx:133-145 | the tabs as intended: content for tabs 0 to 4, with no stray text in the Details tab |
| EventDetail.TabsDifferOnlyInStrayZero | src/components/ResponsiveEventDetail.tsx:133 | the tabs as written and as intended differ exactly on the Details tab of a free event |
| EventDetail.RulesTabNumbersEveryRule | src/components/ResponsiveEventDetail.tsx:164-168 | the Rules tab lists every rule in order, numbered 1, 2, 3, … |
| EventDetail.ClickTab | src/components/ResponsiveEventDetail.tsx:429-432 | clicking a tab of the bar makes an index active whose tab has content for every event |
| EventDetail.ActiveAfter | src/components/ResponsiveEventDetail.tsx:14 | from the first tab, any clicks on the bar leave the active tab within the bar |
| EventDetail.TabsAlwaysHaveContent | src/components/ResponsiveEventDetail.tsx:14 | from the first tab, after any clicks on the bar, the active tab has content |
| FormUrlEncoded.Encode | src/components/OptimizedImage.tsx:38-44 | the encoding uses only safe characters, `+` and `%`, and leaves safe text unchanged |
| FormUrlEncoded.SerializeHasNoQuestionMark | src/components/OptimizedImage.tsx:44 | a serialized parameter list never contains `?` |
| FormUrlEncoded.ReadSerialize | src/components/OptimizedImage.tsx:38-44 | reading back a serialized list of safe pairs gives the list, in order |
| OptimizedImage.Params | src/components/OptimizedImage.tsx:38-42 | `w` first if width is truthy, `h` if height is; then `q` and `auto=format`, in that order |
| OptimizedImage.QualityProp | src/components/OptimizedImage.tsx:25 | the quality is 80 when the prop is left out and the prop's value otherwise |
| OptimizedImage.DefaultQualityParam | src/components/OptimizedImage.tsx:25-41 | without a quality prop the query carries `q=80` |
| OptimizedImage.GetOptimizedSrc | src/components/OptimizedImage.tsx:36-47 | a URL without "unsplash.com" is returned unchanged |
| OptimizedImage.RewrittenUrlShape | src/components/OptimizedImage.tsx:43-44 | a rewritten URL has exactly one `?` after the original's pre-query part, ends with `auto=format`, and its query reads back as the parameters |
| OptimizedImage.GetOptimizedSrcIdempotent | src/components/OptimizedImage.tsx:36-47 | rewriting a rewritten URL with the same props changes nothing |
| OptimizedImage.Mount | src/components/OptimizedImage.tsx:29-31 | an image starts in view exactly when eager or priority, not loaded and without error |
| OptimizedImage.Step | src/components/OptimizedImage.tsx:50-85 | no flag is ever cleared; load and error come only from an image in view |
| OptimizedImage.FlagsOnlyRise | src/components/OptimizedImage.tsx:50-85 | over any events, in-view, loaded and error stay set once set |
| OptimizedImage.OutOfViewStaysBlank | src/components/OptimizedImage.tsx:122-124 | an image never in view never loads or fails |
| OptimizedImage.RenderedSrc | src/components/OptimizedImage.tsx:122-124 | an `<img>` is rendered exactly while in view, with the fallback after an error and the rewritten URL otherwise |
| OptimizedImage.ShowsPlaceholder | src/components/OptimizedImage.tsx:93 | while the placeholder shows, a load or an error takes effect at once |
| OptimizedImage.AfterErrorFallback | src/components/OptimizedImage.tsx:82-124 | after an error the image shows the fallback, and never the placeholder, whatever follows |
| LoadingScreen.Advance | src/components/LoadingScreen.tsx:22-45 | passing time completes the screen only through the redirect timer, at exactly 17000 ms after the scene loaded |
| LoadingScreen.Step | src/components/LoadingScreen.tsx:22-49 | one input adds at most one completion, only by completing the screen; a completed screen stays as it is |
| LoadingScreen.Valid | src/components/LoadingScreen.tsx:22-49 | the timing invariant allows at most one completion, and a completion only after it happened |
| LoadingScreen.CompletesAtMostOnce | src/components/LoadingScreen.tsx:35-45 | from mount, `onComplete` runs at most once, no earlier than 5000 ms and no later than 17000 ms after the scene loaded |
| LoadingScreen.RunPreservesValid | src/components/LoadingScreen.tsx:22-49 | the timing invariant holds over any input sequence |
| LoadingScreen.NothingBeforeTheScene | src/components/LoadingScreen.tsx:22-32 | until the scene loads, no button and no completion, whatever time passes |
| LoadingScreen.RedirectsOnItsOwn | src/components/LoadingScreen.tsx:22-45 | left alone, the button shows at 5000 ms and completion comes at exactly 17000 ms |
| LoadingScreen.SplineStyles | src/components/LoadingScreen.tsx:52-75 | the scene style is the one for the width's device class |
| LoadingScreen.ButtonStyles | src/components/LoadingScreen.tsx:77-100 | the button style is the one for the width's device class |
| LoadingScreen.StylesTellTheClass | src/components/LoadingScreen.tsx:52-100 | two widths get the same style exactly when they are in the same device class |
| LoadingScreen.ButtonLabel | src/components/LoadingScreen.tsx:200 | the label is "🚀 Enter EKNA 2025" from 768 px and "🚀 Enter" below |
| LoadingScreen.HintAndButtonExclusive | src/components/LoadingScreen.tsx:233 | the skip hint shows exactly on phones between scene load and button, never with the button |
| Viewport.Classify | src/components/LoadingScreen.tsx:53-61 | mobile below 768, tablet from 768 below 1024, desktop from 1024: each class exactly |
| Registration.BreakpointsAgree | src/components/RegistrationPage.tsx:32-33 | the phone and tablet tests never both hold and match the shared device classes |
| Registration.CardWidthClass | src/components/RegistrationPage.tsx:95 | the card is small on phones, large on tablets, extra-large on desktops |
| Registration.ContentGate | src/components/RegistrationPage.tsx:24-30 | the content shows exactly once 8000 ms have passed and is never hidden again |
| Registration.Step | src/components/RegistrationPage.tsx:17-30 | a resize or time passing keeps `onBack`, and never hides content once shown |
| Registration.Run | src/components/RegistrationPage.tsx:17-30 | over any inputs `onBack` is kept and shown content stays shown |
| Registration.ShowsSpinner | src/components/RegistrationPage.tsx:67 | with the spinner, neither the back button nor the new-tab hint shows |
| Registration.ShowsBackButton | src/components/RegistrationPage.tsx:136 | the back button shows only with `onBack` and only along with the new-tab hint |
| Registration.ShowsNewTabHint | src/components/RegistrationPage.tsx:280-289 | the new-tab hint shows only with the short "Register Now" label |
| Registration.CtaLabel | src/components/RegistrationPage.tsx:262 | "Register Now" exactly on phones, "Open Registration Form" exactly otherwise |
| Registration.CardParts | src/components/RegistrationPage.tsx:67-287 | nothing of the card shows with the spinner; the back button goes with the phone layout, the new-tab hint and the short label |
| Registration.BackButtonAfterDelay | src/components/RegistrationPage.tsx:24-30 | a phone page with `onBack` shows its back button at 8000 ms and not at 7999 ms |
| Preload.Progress | src/components/PreloadManager.tsx:15 | progress is at most 100, reaches 100 exactly from 50 counts, and is twice the count below that |
| Preload.ProgressMonotone | src/components/PreloadManager.tsx:15 | progress never decreases as the count grows |
| Preload.UpdateProgress | src/components/PreloadManager.tsx:13-21 | each call counts one, reports the new progress, and schedules completion exactly when the count is 50 or more |
| Preload.FailureCountsLikeSuccess | src/components/PreloadManager.tsx:50-51 | a failed load counts exactly like a successful one |
| Preload.CallsKeepReportsOrdered | src/components/PreloadManager.tsx:13-21 | the reported progress values never decrease and never exceed 100 |
| Preload.CompletionsScheduled | src/components/PreloadManager.tsx:18-20 | completion is scheduled once for the call reaching 50 and again for every later call |
| Preload.TopUp | src/components/PreloadManager.tsx:116-123 | the top-up brings a count short of 50 to exactly 50 and adds nothing otherwise |
| Preload.SourceCalls | src/components/PreloadManager.tsx:48-98 | the sources make between 11 calls (every font and image stalls) and 53 (every load settles and every image counts twice), 53 only in that case, and at least 33 when every load settles |
| Preload.TotalCalls | src/components/PreloadManager.tsx:104-123 | a run makes at least 50 calls, the top-up adding exactly what the count lacked at 3 s |
| Preload.CompletionOfARun | src/components/PreloadManager.tsx:104-123 | whatever loads stall, every run schedules completion at least once; exactly once if and only if every call the sources made had counted by 3 s, or the sources alone made 50 calls |
| Preload.StalledRunCompletesOnce | src/components/PreloadManager.tsx:104-123 | when every font and image stalls, the top-up brings 11 calls to 50 and completion is scheduled once |
| Preload.ImagesCanCountTwice | src/components/PreloadManager.tsx:48-57 | with every image counted twice the count reaches 53 with no top-up, and completion is scheduled four times |
| Text.JoinSplit | src/components/ResponsiveEventDetail.tsx:255 | joining the pieces of a split with the separator gives the original string |
| Text.SplitJoin | src/components/OptimizedImage.tsx:44 | splitting a join of separator-free pieces gives the pieces back |
| Text.ParseNatToString | src/components/EventsList.tsx:162 | a number's decimal text reads back as the number |
| Text.PadStart | src/components/EventsList.tsx:162 | padding reaches the width, ends with the original, and is filled before it |

## Left out

- Start-up side effects in the root component are I/O and not modelled: font preloading,
  image warm-up, service-worker registration and performance logging.
- Iframes, `window.open`, the 3-D scene, image fetching, IntersectionObserver geometry, and
  the `MobileOptimizer` wrapper are foreign calls. Load, intersection and timer events are
  inputs of the models.
- Animations, colours, class names and decorative background components are not modelled,
  except for class choices that depend on a breakpoint.
- The schedule, sponsors and home pages are not modelled, beyond the navigation calls
  their buttons make (`HomeNavigate`, `BackHome` in `Router`).
- Widths, touch positions, scroll offsets and image sizes are whole pixels. Fractional
  values, `NaN` and floating-point rounding are not modelled.
- Preload.Progress: the model uses `2 * count` capped at 100. `count / 50 * 100` can differ
  from that by floating-point noise below 100; the 100 threshold itself is exact.
- Event descriptions: the free-text `description` of each event is display copy that no
  behaviour depends on, and the record does not carry it; every other field of the
  twenty records is kept as written.
- EventDetail.Normalize: the fallback for a missing `rules` array is not modelled. The
  record type requires the field, and an empty array is truthy, so the fallback never
  applies to a typed record.
- EventDetail.Initials: upper-casing covers ASCII letters only, and strings are sequences
  of code points rather than UTF-16 units. A name starting with a non-ASCII or astral
  character may differ.
- FormUrlEncoded.Encode: assumes characters are Unicode scalar values. Lone surrogates,
  which the serializer replaces with U+FFFD, are not modelled.
- LoadingScreen.Step: completion stands for the root component unmounting the screen, so
  clicks after completion are not delivered. The screen alone, left mounted, would call
  `onComplete` again on a second click.
- Router.Enabled: a control counts as available when it may be on screen. The registration
  page's back button shows only on phones after 8000 ms, and on phones the bar's items
  only while the menu is open; the model allows those actions more often, which only
  widens the set of states the invariants are proved for.
- Carousel.TouchEnd: the smooth-scroll animation and its later `scroll` events are left to
  the caller, which can apply `Scroll` separately.
- Preload: the preloader's mount and the 500 ms delay before `onComplete` are not
  modelled. The model counts scheduled completions; it does not fire them.

## Findings

| source | as written | input that shows it | evidently intended | confidence | as-written member | corrected member |
|---|---|---|---|---|---|---|
| src/components/ResponsiveEventDetail.tsx:133 | `{safeEvent.fee && (<fee row/>)}`. The fee has just been normalised to a number (`event.fee \|\| 0`), so for a free event the expression is the number 0, which React renders as the text "0" | the circuit-debugging event (no `fee`), Details tab | no fee row and no stray text for a free event, as the Overview tab's `fee ? … : 'Free'` does | high (not executed) | EventDetail.DetailsFeeRowAsWritten, EventDetail.TabContent, EventDetail.FreeEventShowsStrayZero | EventDetail.DetailsFeeRow, EventDetail.IntendedTabContent, EventDetail.TabsDifferOnlyInStrayZero |
