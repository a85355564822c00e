/** The fixed navigation bar (src/components/Navigation.tsx): five items, a
    mobile drop-down menu that opens and closes, and the highlight of the item
    for the current page. */
module Navigation {
  import opened PageType
  import opened Wrappers

  datatype NavItem = NavItem(id: Page, caption: string)

  /** `navItems`, in display order. */
  const NavItems: seq<NavItem> := [
    NavItem(Home, "Home"),
    NavItem(Schedule, "Schedule"),
    NavItem(Events, "Events"),
    NavItem(Sponsors, "Sponsors"),
    NavItem(Register, "Register")
  ]

  function ItemIds(items: seq<NavItem>): seq<Page>
  {
    if |items| == 0 then [] else [items[0].id] + ItemIds(items[1..])
  }

  predicate DistinctIds(items: seq<NavItem>)
  {
    forall i, j | 0 <= i < j < |items| :: items[i].id != items[j].id
  }

  /** The items are exactly home, schedule, events, sponsors and register, with no
      repeats; the list and detail pages have no item. */
  lemma NavItemIds()
    ensures ItemIds(NavItems) == [Home, Schedule, Events, Sponsors, Register]
    ensures DistinctIds(NavItems)
    ensures forall i | 0 <= i < |NavItems| :: NavItems[i].id != EventsList && NavItems[i].id != EventDetail
  {
  }

  // ---------------------------------------------------------------------------
  // Mobile menu
  // ---------------------------------------------------------------------------

  /** What choosing an item does: the page id handed to `onPageChange`, and the
      menu's new open flag. */
  datatype Choice = Choice(forwarded: Page, menuOpen: bool)

  /** `handlePageChange(item.id)`: forward the id, close the menu. */
  function ChooseItem(menuOpen: bool, item: NavItem): (c: Choice)
    ensures c.forwarded == item.id
    ensures !c.menuOpen
  {
    Choice(item.id, false)
  }

  /** The menu button: `setIsMobileMenuOpen(!isMobileMenuOpen)`. */
  function ToggleMenu(menuOpen: bool): (r: bool)
    ensures r != menuOpen
  {
    !menuOpen
  }

  /** A click on the backdrop behind the open menu closes it. */
  function BackdropClick(menuOpen: bool): (r: bool)
    ensures !r
  {
    false
  }

  /** The items in the drop-down: all of them while open, none while closed. */
  function MobileMenuItems(menuOpen: bool): (r: seq<NavItem>)
    ensures menuOpen ==> r == NavItems
    ensures !menuOpen ==> |r| == 0
  {
    if menuOpen then NavItems else []
  }

  /** What can be done to the menu: press the menu button, click the backdrop
      behind the open drop-down, or choose the item at an index of the bar. */
  datatype MenuEvent = MenuButton | Backdrop | ItemChosen(index: nat)

  /** The menu after an event, and the page id forwarded to `onPageChange`, if
      any. The backdrop and the drop-down's items exist only while the menu is
      open; the bar's own items are always there on wide screens, and also close
      the menu. */
  datatype MenuState = MenuState(open: bool, forwarded: Option<Page>)

  /** An item choice names an item of the bar. */
  predicate ValidMenuEvent(e: MenuEvent)
  {
    e.ItemChosen? ==> e.index < |NavItems|
  }

  function MenuStep(open: bool, e: MenuEvent): (r: MenuState)
    requires ValidMenuEvent(e)
    ensures r.open && !open ==> e == MenuButton
    ensures e.Backdrop? || e.ItemChosen? ==> !r.open
    ensures r.forwarded.Some? <==> e.ItemChosen?
    ensures e.ItemChosen? ==> r.forwarded == Some(NavItems[e.index].id)
    ensures e.Backdrop? && !open ==> r == MenuState(open, None)
  {
    match e
    case MenuButton => MenuState(ToggleMenu(open), None)
    case Backdrop => if open then MenuState(BackdropClick(open), None) else MenuState(open, None)
    case ItemChosen(i) =>
      var c := ChooseItem(open, NavItems[i]);
      MenuState(c.menuOpen, Some(c.forwarded))
  }

  predicate ValidMenuEvents(es: seq<MenuEvent>)
  {
    forall e | e in es :: ValidMenuEvent(e)
  }

  /** The menu's open flag after a sequence of events. */
  function MenuRun(open: bool, es: seq<MenuEvent>): bool
    requires ValidMenuEvents(es)
    decreases |es|
  {
    if |es| == 0 then open else MenuRun(MenuStep(open, es[0]).open, es[1..])
  }

  /** The number of events from the last backdrop click or item choice on, all of
      which are menu-button presses; the whole sequence when there is none. */
  function TrailingPresses(es: seq<MenuEvent>): (n: nat)
    ensures n <= |es|
    ensures forall k | |es| - n <= k < |es| :: es[k] == MenuButton
    ensures n < |es| ==> es[|es| - n - 1] != MenuButton
    decreases |es|
  {
    if |es| == 0 || es[|es| - 1] != MenuButton then 0
    else 1 + TrailingPresses(es[..|es| - 1])
  }

  /** After any events, the menu is open exactly when an odd number of menu-button
      presses follow the last backdrop click or item choice (counting from the
      starting state when there is none): only the button opens it, and the
      backdrop and the items always close it. */
  lemma {:induction false} MenuOpenAfter(open: bool, es: seq<MenuEvent>)
    requires ValidMenuEvents(es)
    ensures MenuRun(open, es) ==
      (if TrailingPresses(es) == |es| then open != (|es| % 2 == 1) else TrailingPresses(es) % 2 == 1)
    decreases |es|
  {
    if |es| > 0 {
      var init := es[..|es| - 1];
      var last := es[|es| - 1];
      assert es == init + [last];
      MenuRunSnoc(open, init, last);
      MenuOpenAfter(open, init);
      if last == MenuButton {
        assert es[..|es| - 1] == init;
      }
    }
  }

  lemma {:induction false} MenuRunSnoc(open: bool, es: seq<MenuEvent>, e: MenuEvent)
    requires ValidMenuEvents(es) && ValidMenuEvent(e)
    ensures MenuRun(open, es + [e]) == MenuStep(MenuRun(open, es), e).open
    decreases |es|
  {
    if |es| == 0 {
      assert es + [e] == [e];
    } else {
      assert (es + [e])[1..] == es[1..] + [e];
      MenuRunSnoc(MenuStep(open, es[0]).open, es[1..], e);
    }
  }

  /** Pressing the menu button twice leaves the menu as it was. */
  lemma ToggleTwice(menuOpen: bool)
    ensures ToggleMenu(ToggleMenu(menuOpen)) == menuOpen
  {
  }

  // ---------------------------------------------------------------------------
  // Highlighted item
  // ---------------------------------------------------------------------------

  /** `currentPage === item.id`. */
  predicate IsActive(current: Page, item: NavItem)
    ensures item in NavItems && IsActive(current, item) ==> current != EventsList && current != EventDetail
  {
    current == item.id
  }

  /** The highlighted items among `items`, in order. */
  function ActiveAmong(items: seq<NavItem>, current: Page): (r: seq<NavItem>)
    ensures forall x | x in r :: x in items && IsActive(current, x)
    ensures forall x | x in items && IsActive(current, x) :: x in r
  {
    if |items| == 0 then []
    else if IsActive(current, items[0]) then [items[0]] + ActiveAmong(items[1..], current)
    else ActiveAmong(items[1..], current)
  }

  /** Among items with distinct ids, one item is highlighted when some item has the
      current page's id, and none otherwise. */
  lemma {:induction false} ActiveAmongDistinct(items: seq<NavItem>, current: Page)
    requires DistinctIds(items)
    ensures |ActiveAmong(items, current)| == if current in ItemIds(items) then 1 else 0
  {
    if |items| > 0 {
      assert DistinctIds(items[1..]);
      ActiveAmongDistinct(items[1..], current);
      if IsActive(current, items[0]) {
        IdsNotInRest(items);
      }
    }
  }

  lemma {:induction false} IdsNotInRest(items: seq<NavItem>)
    requires |items| > 0 && DistinctIds(items)
    ensures items[0].id !in ItemIds(items[1..])
  {
    ItemIdsIndex(items[1..]);
  }

  lemma {:induction false} ItemIdsIndex(items: seq<NavItem>)
    ensures |ItemIds(items)| == |items|
    ensures forall i | 0 <= i < |items| :: ItemIds(items)[i] == items[i].id
  {
    if |items| > 0 {
      ItemIdsIndex(items[1..]);
    }
  }

  /** At most one item of the bar is highlighted: the one for the current page;
      on the events list and on an event's detail page none is. */
  lemma AtMostOneActive(current: Page)
    ensures |ActiveAmong(NavItems, current)| <= 1
    ensures |ActiveAmong(NavItems, current)| == 0 <==> current == EventsList || current == EventDetail
  {
    NavItemIds();
    ActiveAmongDistinct(NavItems, current);
  }
}
