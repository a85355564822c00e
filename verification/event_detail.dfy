/** The detail page of one event (src/components/ResponsiveEventDetail.tsx): the
    record is first normalised with fallbacks (`safeEvent`), then shown as five
    tabs together with a registration card and a register button whose labels
    are derived from the fee. */
module EventDetail {
  import opened Wrappers
  import Text
  import Jsx
  import Catalog

  /** `safeEvent`: an event whose fee is always a number. */
  datatype SafeEvent = SafeEvent(
    id: string,
    name: string,
    rules: seq<string>,
    prizes: string,
    coordinators: string,
    imageUrl: string,
    category: Catalog.Category,
    fee: int)

  const NoCoordinators: string := "Contact organizers"
  const NoPrizes: string := "Prizes to be announced"

  /** `x || fallback` for a string: the empty string is the only falsy one. */
  function OrElse(x: string, fallback: string): (r: string)
    ensures x != "" ==> r == x
    ensures x == "" ==> r == fallback
  {
    if x != "" then x else fallback
  }

  /** `event.fee || 0`: a missing fee and a fee of 0 both become 0. */
  function FeeOrZero(fee: Option<int>): (r: int)
    ensures r == 0 <==> fee.None? || fee.value == 0
    ensures r != 0 ==> fee == Some(r)
  {
    if fee.Some? && fee.value != 0 then fee.value else 0
  }

  /** The fallbacks: empty coordinators and prizes are replaced by fixed texts, a
      missing fee by 0; the rules array is kept as it is (an array, even an empty
      one, is truthy); every other field is copied. */
  function Normalize(e: Catalog.Event): (s: SafeEvent)
    ensures s.coordinators != "" && s.prizes != ""
    ensures e.coordinators != "" ==> s.coordinators == e.coordinators
    ensures e.prizes != "" ==> s.prizes == e.prizes
    ensures s.fee == 0 <==> e.fee.None? || e.fee == Some(0)
    ensures s.fee != 0 ==> e.fee == Some(s.fee)
    ensures s.rules == e.rules
    ensures s.id == e.id && s.name == e.name
    ensures s.imageUrl == e.imageUrl && s.category == e.category
  {
    SafeEvent(e.id, e.name, e.rules,
      OrElse(e.prizes, NoPrizes), OrElse(e.coordinators, NoCoordinators),
      e.imageUrl, e.category, FeeOrZero(e.fee))
  }

  /** The normalised record seen again as a catalog record. */
  function AsEvent(s: SafeEvent): Catalog.Event
  {
    Catalog.Event(s.id, s.name, s.rules, s.prizes, s.coordinators,
      s.imageUrl, s.category, Some(s.fee))
  }

  /** Normalising twice is normalising once: the fallbacks are fixed points. */
  lemma NormalizeIdempotent(e: Catalog.Event)
    ensures Normalize(AsEvent(Normalize(e))) == Normalize(e)
  {
  }

  /** A record without fallback needs is unchanged by normalisation, apart from its
      fee becoming a plain number. */
  lemma NormalizeKeepsCompleteRecords(e: Catalog.Event)
    requires e.coordinators != "" && e.prizes != "" && e.fee.Some?
    ensures AsEvent(Normalize(e)) == e
  {
  }

  // ---------------------------------------------------------------------------
  // Labels
  // ---------------------------------------------------------------------------

  /** `safeEvent.fee ? `₹${fee}` : 'Free'` on the registration card. */
  function FeeLabel(fee: int): (r: string)
    ensures r == "Free" <==> fee == 0
    ensures fee != 0 ==> |r| >= 2 && r[0] == '₹'
  {
    if fee != 0 then
      var r := "₹" + Text.IntToString(fee);
      assert r[0] != "Free"[0];
      r
    else "Free"
  }

  /** Reads a fee label back: "Free" is 0, "₹" followed by digits is that
      number. */
  function FeeOfLabel(shown: string): Option<nat>
  {
    if shown == "Free" then Some(0)
    else if |shown| >= 2 && shown[0] == '₹'
      && forall i | 1 <= i < |shown| :: Text.IsDigit(shown[i])
    then Some(Text.ParseNat(shown[1..]))
    else None
  }

  /** The fee label of a non-negative fee reads back as that fee, so two different
      fees never share a label. */
  lemma FeeLabelReadsBack(fee: int)
    requires fee >= 0
    ensures FeeOfLabel(FeeLabel(fee)) == Some(fee)
  {
    if fee != 0 {
      var digits := Text.NatToString(fee);
      var shown := FeeLabel(fee);
      assert shown == "₹" + digits;
      assert shown[1..] == digits;
      Text.ParseNatToString(fee);
    }
  }

  /** The register button: `Register Now - ₹fee`, or `Register Now - Free`. */
  function RegisterLabel(fee: int): (r: string)
    ensures r == "Register Now - " + FeeLabel(fee)
    ensures Text.StartsWith(r, "Register Now")
  {
    "Register Now" + (if fee != 0 then " - ₹" + Text.IntToString(fee) else " - Free")
  }

  /** The category card and the header badge. */
  function CategoryLabel(c: Catalog.Category): (r: string)
    ensures r == "Technical Event" <==> c == Catalog.Technical
    ensures r == "Creative Event" <==> c == Catalog.NonTechnical
  {
    match c
    case Technical => assert "Technical Event"[0] != "Creative Event"[0]; "Technical Event"
    case NonTechnical => assert "Technical Event"[0] != "Creative Event"[0]; "Creative Event"
  }

  // ---------------------------------------------------------------------------
  // The fee row of the Details tab
  // ---------------------------------------------------------------------------

  const PerParticipant: string := " per participant/team"

  /** The fee row as the component writes it: `{safeEvent.fee && <row/>}`. The fee
      is always a number here, so a fee of 0 does not hide the row's slot but puts
      the number 0 into the page as text. */
  function DetailsFeeRowAsWritten(s: SafeEvent): (c: Jsx.Child<string>)
    ensures !c.Nothing?
    ensures c.NumberText? <==> s.fee == 0
    ensures c.Node? ==> c.node == FeeLabel(s.fee) + PerParticipant
  {
    Jsx.AndNumber(Some(s.fee), "₹" + Text.IntToString(s.fee) + PerParticipant)
  }

  /** The row as intended: shown exactly when there is a fee, and nothing at all
      otherwise. */
  function DetailsFeeRow(s: SafeEvent): (c: Jsx.Child<string>)
    ensures !c.NumberText?
    ensures c.Node? <==> s.fee != 0
    ensures c.Node? ==> c.node == FeeLabel(s.fee) + PerParticipant
  {
    if s.fee != 0 then Jsx.Node("₹" + Text.IntToString(s.fee) + PerParticipant) else Jsx.Nothing
  }

  /** For the circuit-debugging event, which has no fee, the Details tab as written
      shows a bare "0" where the fee row would be. */
  lemma FreeEventShowsStrayZero()
    ensures Jsx.LooseText(DetailsFeeRowAsWritten(Normalize(Catalog.CircuitDebugging))) == "0"
  {
    Catalog.CatalogFees();
    assert Normalize(Catalog.CircuitDebugging).fee == 0;
  }

  /** The intended row never leaves stray text, shows the fee exactly when the
      registration card does not say "Free", and agrees with the row as written
      whenever there is a fee. */
  lemma DetailsFeeRowAgrees(s: SafeEvent)
    ensures Jsx.LooseText(DetailsFeeRow(s)) == ""
    ensures DetailsFeeRow(s).Node? <==> FeeLabel(s.fee) != "Free"
    ensures s.fee != 0 ==> DetailsFeeRow(s) == DetailsFeeRowAsWritten(s)
  {
  }

  // ---------------------------------------------------------------------------
  // Rules and coordinators
  // ---------------------------------------------------------------------------

  /** A rule as listed: its 1-based number and its text. */
  datatype NumberedRule = NumberedRule(number: string, text: string)

  function NumberRules(rules: seq<string>): (r: seq<NumberedRule>)
    ensures |r| == |rules|
    ensures forall i | 0 <= i < |r| :: r[i].text == rules[i]
  {
    seq(|rules|, i requires 0 <= i < |rules| => NumberedRule(Text.NatToString(i + 1), rules[i]))
  }

  /** The rule numbers count 1, 2, 3, … in list order. */
  lemma RuleNumbersCount(rules: seq<string>)
    ensures forall i | 0 <= i < |rules| ::
      Text.ParseNat(NumberRules(rules)[i].number) == i + 1
  {
    forall i | 0 <= i < |rules|
      ensures Text.ParseNat(NumberRules(rules)[i].number) == i + 1
    {
      Text.ParseNatToString(i + 1);
    }
  }

  /** `n[0]` of a word, where the first character of an empty word is `undefined`
      and joins as the empty string. */
  function FirstChar(w: string): (r: string)
    ensures |r| == if |w| == 0 then 0 else 1
    ensures |r| == 1 ==> r[0] == w[0]
  {
    if |w| == 0 then "" else [w[0]]
  }

  /** `.slice(0, 2).map(n => n[0]).join('')`: the first characters of the first
      two words (of the one word, if there is only one). */
  function LeadingLetters(words: seq<string>): (r: string)
    requires |words| >= 1
    ensures |words| == 1 ==> r == FirstChar(words[0])
    ensures |words| >= 2 ==> r == FirstChar(words[0]) + FirstChar(words[1])
  {
    var firstTwo := if |words| >= 2 then words[..2] else words;
    var letters := seq(|firstTwo|, i requires 0 <= i < |firstTwo| => FirstChar(firstTwo[i]));
    if |words| >= 2 then
      assert letters == [FirstChar(words[0]), FirstChar(words[1])];
      Text.ConcatOfOneOrTwo(letters[0], letters[1]);
      Text.Concat(letters)
    else
      assert letters == [FirstChar(words[0])];
      Text.ConcatOfOneOrTwo(letters[0], "");
      Text.Concat(letters)
  }

  /** The avatar text: the upper-cased first characters of the first two
      space-separated words. */
  function Initials(coordinators: string): (r: string)
    ensures |r| <= 2
    ensures forall i | 0 <= i < |r| :: !('a' <= r[i] <= 'z')
  {
    Text.ToUpper(LeadingLetters(Text.Split(coordinators, ' ')))
  }

  /** The initials of a name made of a first word and a rest: the first word's
      first character and the first character of the rest's first word. */
  lemma InitialsOfTwoWords(first: string, rest: string)
    requires |first| >= 1 && ' ' !in first
    ensures Initials(first + " " + rest) == Text.ToUpper([first[0]] + FirstChar(Text.Split(rest, ' ')[0]))
  {
    Text.SplitAtFirstSeparator(first, ' ', rest);
    var words := Text.Split(first + " " + rest, ' ');
    assert words == [first] + Text.Split(rest, ' ');
  }

  /** A name of one word has its first character as initials. */
  lemma InitialsOfOneWord(word: string)
    requires ' ' !in word
    ensures Initials(word) == Text.ToUpper(FirstChar(word))
  {
    Text.SplitWithoutSeparator(word, ' ');
  }

  /** `coordinators ? <initials> : 'EC'`. */
  function ContactAvatar(s: SafeEvent): (r: string)
    ensures s.coordinators != "" ==> r == Initials(s.coordinators)
    ensures s.coordinators == "" ==> r == "EC"
  {
    if s.coordinators != "" then Initials(s.coordinators) else "EC"
  }

  /** The initials of a name whose first two words are `first` and `second`. */
  lemma InitialsOfNames(first: string, second: string, rest: string)
    requires |first| >= 1 && ' ' !in first
    requires |second| >= 1 && ' ' !in second
    requires rest == "" || rest[0] == ' '
    ensures Initials(first + " " + second + rest) == Text.ToUpper([first[0], second[0]])
  {
    assert first + " " + second + rest == first + " " + (second + rest);
    InitialsOfTwoWords(first, second + rest);
    if rest == "" {
      assert second + rest == second;
      Text.SplitWithoutSeparator(second, ' ');
    } else {
      assert second + rest == second + [' '] + rest[1..];
      Text.SplitAtFirstSeparator(second, ' ', rest[1..]);
    }
  }

  /** After normalisation the `'EC'` branch is dead: the avatar always shows the
      initials, which for a record without coordinators are those of "Contact
      organizers". */
  lemma AvatarAfterNormalize(e: Catalog.Event)
    ensures ContactAvatar(Normalize(e)) == Initials(Normalize(e).coordinators)
    ensures e.coordinators == "" ==> ContactAvatar(Normalize(e)) == "CO"
  {
    if e.coordinators == "" {
      var first, second := "Contact", "organizers";
      assert NoCoordinators == first + " " + second + "";
      InitialsOfNames(first, second, "");
    }
  }

  /** The first catalog event's coordinators, "A. Kumar, B. Devi", give "AK". */
  lemma PaperPresentationAvatar()
    ensures ContactAvatar(Normalize(Catalog.PaperPresentation)) == "AK"
  {
    var first, second, rest := "A.", "Kumar,", " B. Devi";
    assert Catalog.PaperPresentation.coordinators == first + " " + second + rest;
    InitialsOfNames(first, second, rest);
  }

  // ---------------------------------------------------------------------------
  // Tabs
  // ---------------------------------------------------------------------------

  datatype Tab = Tab(id: string, caption: string, icon: string)

  const Tabs: seq<Tab> := [
    Tab("overview", "Overview", "📋"),
    Tab("details", "Details", "📝"),
    Tab("rules", "Rules", "📏"),
    Tab("prizes", "Prizes", "🏆"),
    Tab("contact", "Contact", "📞")
  ]

  /** What each tab shows, as far as it depends on the event. */
  datatype TabView =
    | Overview(category: string, registration: string, coordinators: string)
    | Details(technical: bool, feeRow: Jsx.Child<string>)
    | RulesList(rules: seq<NumberedRule>)
    | PrizeList(winners: string)
    | Contact(avatar: string, coordinators: string)

  /** `renderTabContent()`: one view per tab index, and nothing (`null`) for any
      other index. The Details tab carries the fee row as written, so a free event
      puts a bare "0" there. */
  function TabContent(s: SafeEvent, activeTab: int): (r: Option<TabView>)
    ensures r.Some? <==> 0 <= activeTab < |Tabs|
    ensures activeTab == 0 ==> r == Some(Overview(CategoryLabel(s.category), FeeLabel(s.fee), s.coordinators))
    ensures activeTab == 1 ==> r.value.Details? && (r.value.technical <==> s.category == Catalog.Technical)
    ensures activeTab == 1 ==> (r.value.feeRow.NumberText? <==> s.fee == 0)
    ensures activeTab == 1 && s.fee != 0 ==> r.value.feeRow == Jsx.Node(FeeLabel(s.fee) + PerParticipant)
    ensures activeTab == 2 ==> r.value.RulesList? && |r.value.rules| == |s.rules|
    ensures activeTab == 2 ==> forall i | 0 <= i < |s.rules| :: r.value.rules[i].text == s.rules[i]
    ensures activeTab == 3 ==> r == Some(PrizeList(s.prizes))
    ensures activeTab == 4 ==> r == Some(Contact(ContactAvatar(s), s.coordinators))
  {
    if activeTab == 0 then Some(Overview(CategoryLabel(s.category), FeeLabel(s.fee), s.coordinators))
    else if activeTab == 1 then Some(Details(s.category == Catalog.Technical, DetailsFeeRowAsWritten(s)))
    else if activeTab == 2 then Some(RulesList(NumberRules(s.rules)))
    else if activeTab == 3 then Some(PrizeList(s.prizes))
    else if activeTab == 4 then Some(Contact(ContactAvatar(s), s.coordinators))
    else None
  }

  /** The tabs as intended: the same views, with the Details tab's fee row left
      out for a free event. */
  function IntendedTabContent(s: SafeEvent, activeTab: int): (r: Option<TabView>)
    ensures r.Some? <==> 0 <= activeTab < |Tabs|
    ensures activeTab == 1 ==> r.value.Details? && Jsx.LooseText(r.value.feeRow) == ""
  {
    if activeTab == 1 then Some(Details(s.category == Catalog.Technical, DetailsFeeRow(s)))
    else TabContent(s, activeTab)
  }

  /** The tabs as written and as intended differ in one place only: the Details
      tab of a free event. */
  lemma TabsDifferOnlyInStrayZero(s: SafeEvent, activeTab: int)
    ensures TabContent(s, activeTab) != IntendedTabContent(s, activeTab) <==> activeTab == 1 && s.fee == 0
  {
    if activeTab == 1 {
      DetailsFeeRowAgrees(s);
    }
  }

  /** The Rules tab lists every rule in order, numbered 1, 2, 3, …. */
  lemma RulesTabNumbersEveryRule(s: SafeEvent)
    ensures var r := TabContent(s, 2).value;
      && |r.rules| == |s.rules|
      && forall i | 0 <= i < |s.rules| :: r.rules[i].text == s.rules[i] && Text.ParseNat(r.rules[i].number) == i + 1
  {
    RuleNumbersCount(s.rules);
  }

  /** The tab bar's click handler, `setActiveTab(index)`: the clicked button's
      index becomes the active tab, and every button of the bar has content. */
  function ClickTab(activeTab: int, index: nat): (r: int)
    requires index < |Tabs|
    ensures 0 <= r < |Tabs|
    ensures forall s: SafeEvent :: TabContent(s, r).Some?
  {
    index
  }

  /** The active tab after a sequence of clicks on the bar; the page opens on the
      first tab. */
  function ActiveAfter(clicks: seq<nat>): (r: int)
    requires forall i | 0 <= i < |clicks| :: clicks[i] < |Tabs|
    ensures 0 <= r < |Tabs|
    decreases |clicks|
  {
    if |clicks| == 0 then 0
    else ClickTab(ActiveAfter(clicks[..|clicks| - 1]), clicks[|clicks| - 1])
  }

  /** Every tab in the bar has content, starting with the one the page opens on,
      so the `null` branch is never rendered. */
  lemma TabsAlwaysHaveContent(s: SafeEvent, clicks: seq<nat>)
    requires forall i | 0 <= i < |clicks| :: clicks[i] < |Tabs|
    ensures TabContent(s, ActiveAfter(clicks)).Some?
  {
  }
}
