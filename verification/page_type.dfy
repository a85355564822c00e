/** The view-states of the single-page application (`PageType` in src/App.tsx)
    and their string names, which the navigation bar passes around as plain
    strings. */
module PageType {
  import opened Wrappers

  datatype Page = Home | Schedule | Events | Register | Sponsors | EventsList | EventDetail

  /** The string a page is called by in the code. */
  function Name(p: Page): string
  {
    match p
    case Home => "home"
    case Schedule => "schedule"
    case Events => "events"
    case Register => "register"
    case Sponsors => "sponsors"
    case EventsList => "events-list"
    case EventDetail => "event-detail"
  }

  /** The page a string names, if any. */
  function FromName(s: string): (p: Option<Page>)
    ensures p.Some? ==> Name(p.value) == s
  {
    if s == "home" then Some(Home)
    else if s == "schedule" then Some(Schedule)
    else if s == "events" then Some(Events)
    else if s == "register" then Some(Register)
    else if s == "sponsors" then Some(Sponsors)
    else if s == "events-list" then Some(EventsList)
    else if s == "event-detail" then Some(EventDetail)
    else None
  }

  /** Every page is found again from its name, so no two pages share a name. */
  lemma FromNameOfName(p: Page)
    ensures FromName(Name(p)) == Some(p)
  {
  }
}
