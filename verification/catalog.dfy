/** The static event catalog (`eventsData` in src/components/EventsData.ts): twenty
    literal event records, ten technical followed by ten non-technical, and the
    filter-by-category view the router shows. */
module Catalog {
  import opened Wrappers

  /** The two tracks (`'technical' | 'non_technical'`). */
  datatype Category = Technical | NonTechnical

  function CategoryName(c: Category): string
  {
    match c
    case Technical => "technical"
    case NonTechnical => "non_technical"
  }

  /** One catalog entry. `fee` is optional: `None` stands for a record without a
      `fee` property. The free-text `description` is display copy that no
      behaviour depends on and is not part of the record here. */
  datatype Event = Event(
    id: string,
    name: string,
    rules: seq<string>,
    prizes: string,
    coordinators: string,
    imageUrl: string,
    category: Category,
    fee: Option<int>)

  // ---------------------------------------------------------------------------
  // The literal catalog, in source order
  // ---------------------------------------------------------------------------

  const PaperPresentation: Event := Event(
    "paper-presentation",
    "Paper Presentation",
    [
      "Maximum 2 members per team",
      "Presentation time: 8 minutes + 2 minutes Q&A",
      "Topics must be related to EEE domain",
      "Original work only - plagiarism will be disqualified"
    ],
    "1st: ₹5000, 2nd: ₹3000, 3rd: ₹1500",
    "A. Kumar, B. Devi",
    "https://images.unsplash.com/photo-1581091226649-bf2f2b7c4a24",
    Technical,
    Some(100))

  const CircuitDebugging: Event := Event(
    "circuit-debugging",
    "Circuit Debugging",
    [
      "Individual participation only",
      "Time limit: 45 minutes",
      "Basic tools will be provided",
      "Multiple rounds with increasing difficulty"
    ],
    "1st: ₹4000, 2nd: ₹2500, 3rd: ₹1000",
    "C. Mohan, D. Priya",
    "https://images.unsplash.com/photo-1640552421163-5a8e34827550?crop=entropy&cs=tinysrgb&fit=max&fm=jpg&q=80&w=1080",
    Technical,
    None)

  const RoboRace: Event := Event(
    "robo-race",
    "Robo Race",
    [
      "Maximum 4 members per team",
      "Robot dimensions: 25cm x 25cm x 25cm max",
      "Wireless control only",
      "No ready-made kits allowed"
    ],
    "1st: ₹6000, 2nd: ₹4000, 3rd: ₹2000",
    "E. Rahul, F. Swetha",
    "https://images.unsplash.com/photo-1742767069929-0c663150b164",
    Technical,
    Some(150))

  const Hackathon: Event := Event(
    "hackathon",
    "Hackathon",
    [
      "Maximum 3 members per team",
      "Duration: 24 hours",
      "Any programming language allowed",
      "Internet access provided"
    ],
    "1st: ₹10000, 2nd: ₹7000, 3rd: ₹3000",
    "G. Vishal, H. Anjali",
    "https://images.unsplash.com/photo-1638029202288-451a89e0d55f",
    Technical,
    Some(200))

  const TechnicalQuiz: Event := Event(
    "technical-quiz",
    "Technical Quiz",
    [
      "Team of 2 members",
      "Multiple rounds: written, buzzer, rapid fire",
      "Topics: Basic EEE, current affairs, general tech",
      "No electronic devices allowed"
    ],
    "1st: ₹2000, 2nd: ₹1000, 3rd: ₹500",
    "I. Vivek, J. Kavitha",
    "https://images.unsplash.com/photo-1581091226649-bf2f2b7c4a24",
    Technical,
    None)

  const ProjectExpo: Event := Event(
    "project-expo",
    "Project Expo",
    [
      "Maximum 4 members per team",
      "Working prototype required",
      "Project report submission mandatory",
      "10 minutes presentation + 5 minutes demo"
    ],
    "1st: ₹7000, 2nd: ₹5000, 3rd: ₹2500",
    "K. Sangeetha, L. Mahesh",
    "https://images.unsplash.com/photo-1581091226649-bf2f2b7c4a24",
    Technical,
    None)

  const PosterDesign: Event := Event(
    "poster-design",
    "Poster Design",
    [
      "Individual or team of 2",
      "A1 size poster (594mm × 841mm)",
      "Digital design tools allowed",
      "Theme will be announced on spot"
    ],
    "1st: ₹2500, 2nd: ₹1500, 3rd: ₹750",
    "M. Divya, N. Vignesh",
    "https://images.unsplash.com/photo-1581091226649-bf2f2b7c4a24",
    Technical,
    None)

  const Cadathon: Event := Event(
    "cadathon",
    "Cadathon",
    [
      "Individual participation",
      "Software: AutoCAD, SolidWorks, or Fusion 360",
      "Time limit: 2 hours",
      "Drawing will be provided on spot"
    ],
    "1st: ₹3000, 2nd: ₹2000, 3rd: ₹1000",
    "O. Prakash, P. Sumathi",
    "https://images.unsplash.com/photo-1581091226649-bf2f2b7c4a24",
    Technical,
    None)

  const TechTalk: Event := Event(
    "tech-talk",
    "Tech Talk",
    [
      "Individual participation",
      "Duration: 5 minutes presentation",
      "Topic: Emerging technologies",
      "Visual aids encouraged"
    ],
    "1st: ₹4000, 2nd: ₹2500, 3rd: ₹1000",
    "Q. Arjun, R. Nila",
    "https://images.unsplash.com/photo-1581091226649-bf2f2b7c4a24",
    Technical,
    None)

  const LineFollower: Event := Event(
    "line-follower",
    "Line Follower Robot",
    [
      "Maximum 3 members per team",
      "Robot must be autonomous",
      "Line detection using sensors only",
      "Fastest completion wins"
    ],
    "1st: ₹5000, 2nd: ₹3000, 3rd: ₹1500",
    "S. Harish, T. Sneha",
    "https://images.unsplash.com/photo-1742767069929-0c663150b164",
    Technical,
    None)

  const Gaming: Event := Event(
    "gaming",
    "Gaming Tournament",
    [
      "Individual and team events",
      "Games: FIFA, Call of Duty, Valorant",
      "Knockout tournament format",
      "Bring your own peripherals"
    ],
    "1st: ₹5000, 2nd: ₹3000, 3rd: ₹1500",
    "U. Adithya, V. Shruti",
    "https://images.unsplash.com/photo-1675310854573-c5c8e4089426",
    NonTechnical,
    Some(50))

  const Photography: Event := Event(
    "photography",
    "Photography Contest",
    [
      "Individual participation",
      "Theme: \"Innovation in Motion\"",
      "DSLR or smartphone allowed",
      "Submit 3 best shots"
    ],
    "1st: ₹2000, 2nd: ₹1000, 3rd: ₹500",
    "W. Charan, X. Janani",
    "https://images.unsplash.com/photo-1675310854573-c5c8e4089426",
    NonTechnical,
    None)

  const TreasureHunt: Event := Event(
    "treasure-hunt",
    "Treasure Hunt",
    [
      "Team of 3-4 members",
      "Multiple checkpoints across campus",
      "Time limit: 2 hours",
      "Smartphones allowed for clues"
    ],
    "1st: ₹3000, 2nd: ₹2000, 3rd: ₹1000",
    "Y. Rajesh, Z. Preethi",
    "https://images.unsplash.com/photo-1675310854573-c5c8e4089426",
    NonTechnical,
    None)

  const Chess: Event := Event(
    "chess",
    "Chess Tournament",
    [
      "Individual tournament",
      "Swiss system format",
      "Time control: 15+10 minutes",
      "FIDE rules applicable"
    ],
    "1st: ₹2000, 2nd: ₹1000, 3rd: ₹500",
    "AA. Ajay, AB. Deepika",
    "https://images.unsplash.com/photo-1675310854573-c5c8e4089426",
    NonTechnical,
    None)

  const Debate: Event := Event(
    "debate",
    "Parliamentary Debate",
    [
      "Team of 2 speakers",
      "Format: Parliamentary style",
      "Topics announced 30 minutes prior",
      "Time limit: 6 minutes per speaker"
    ],
    "1st: ₹2500, 2nd: ₹1500, 3rd: ₹750",
    "AC. Manoj, AD. Vimala",
    "https://images.unsplash.com/photo-1675310854573-c5c8e4089426",
    NonTechnical,
    None)

  const Jam: Event := Event(
    "jam",
    "Just a Minute (JAM)",
    [
      "Individual participation",
      "Duration: 1 minute per topic",
      "Multiple rounds with elimination",
      "Topics given on the spot"
    ],
    "1st: ₹1500, 2nd: ₹1000, 3rd: ₹500",
    "AE. Ganesh, AF. Shreya",
    "https://images.unsplash.com/photo-1675310854573-c5c8e4089426",
    NonTechnical,
    None)

  const Comedy: Event := Event(
    "comedy",
    "Stand-up Comedy",
    [
      "Individual performance",
      "Duration: 5 minutes maximum",
      "Content must be appropriate",
      "Props allowed"
    ],
    "1st: ₹2000, 2nd: ₹1000, 3rd: ₹500",
    "AG. Rohit, AH. Meena",
    "https://images.unsplash.com/photo-1675310854573-c5c8e4089426",
    NonTechnical,
    None)

  const Music: Event := Event(
    "music",
    "Music Mania",
    [
      "Solo or group (max 5 members)",
      "Duration: 6 minutes maximum",
      "Any genre welcome",
      "Backing tracks allowed"
    ],
    "1st: ₹3000, 2nd: ₹2000, 3rd: ₹1000",
    "AI. Vikram, AJ. Nithya",
    "https://images.unsplash.com/photo-1675310854573-c5c8e4089426",
    NonTechnical,
    None)

  const ShortFilm: Event := Event(
    "short-film",
    "Short Film Festival",
    [
      "Team of maximum 6 members",
      "Duration: 10 minutes maximum",
      "Theme: Technology and Human Connection",
      "Submit in MP4 format"
    ],
    "1st: ₹5000, 2nd: ₹3000, 3rd: ₹1500",
    "AK. Senthil, AL. Sujatha",
    "https://images.unsplash.com/photo-1675310854573-c5c8e4089426",
    NonTechnical,
    Some(100))

  const GeneralQuiz: Event := Event(
    "general-quiz",
    "General Knowledge Quiz",
    [
      "Team of 2 members",
      "Topics: GK, current affairs, sports, entertainment",
      "Multiple rounds with different formats",
      "No electronic devices allowed"
    ],
    "1st: ₹2500, 2nd: ₹1500, 3rd: ₹750",
    "AM. Prasanna, AN. Aishwarya",
    "https://images.unsplash.com/photo-1675310854573-c5c8e4089426",
    NonTechnical,
    None)

  const TechnicalEvents: seq<Event> := [
    PaperPresentation, CircuitDebugging, RoboRace, Hackathon, TechnicalQuiz,
    ProjectExpo, PosterDesign, Cadathon, TechTalk, LineFollower
  ]

  const NonTechnicalEvents: seq<Event> := [
    Gaming, Photography, TreasureHunt, Chess, Debate,
    Jam, Comedy, Music, ShortFilm, GeneralQuiz
  ]

  /** `eventsData`: the technical block followed by the non-technical block. */
  const EventsData: seq<Event> := TechnicalEvents + NonTechnicalEvents

  // ---------------------------------------------------------------------------
  // Filtering by category
  // ---------------------------------------------------------------------------

  /** `events.filter(event => event.category === c)`. */
  function FilterByCategory(events: seq<Event>, c: Category): (r: seq<Event>)
    ensures |r| <= |events|
    ensures forall e | e in r :: e in events && e.category == c
    ensures forall e | e in events && e.category == c :: e in r
  {
    if |events| == 0 then []
    else if events[0].category == c then [events[0]] + FilterByCategory(events[1..], c)
    else FilterByCategory(events[1..], c)
  }

  /** `a` is `b` with some elements left out, the rest kept in order. */
  predicate IsSubsequence<T(==)>(a: seq<T>, b: seq<T>)
    decreases |b|
  {
    if |a| == 0 then true
    else if |b| == 0 then false
    else if a[0] == b[0] then IsSubsequence(a[1..], b[1..])
    else IsSubsequence(a, b[1..])
  }

  /** The filter keeps the original relative order. */
  lemma {:induction false} FilterIsSubsequence(events: seq<Event>, c: Category)
    ensures IsSubsequence(FilterByCategory(events, c), events)
  {
    if |events| > 0 {
      FilterIsSubsequence(events[1..], c);
    }
  }

  /** Every event lands in exactly one of the two filtered lists. */
  lemma {:induction false} FilterPartition(events: seq<Event>)
    ensures |FilterByCategory(events, Technical)| + |FilterByCategory(events, NonTechnical)| == |events|
  {
    if |events| > 0 {
      FilterPartition(events[1..]);
    }
  }

  /** Filtering a filtered list again changes nothing. */
  lemma {:induction false} FilterIdempotent(events: seq<Event>, c: Category)
    ensures FilterByCategory(FilterByCategory(events, c), c) == FilterByCategory(events, c)
  {
    if |events| > 0 {
      FilterIdempotent(events[1..], c);
    }
  }

  /** Filtering a concatenation filters each part. */
  lemma {:induction false} FilterAppend(a: seq<Event>, b: seq<Event>, c: Category)
    ensures FilterByCategory(a + b, c) == FilterByCategory(a, c) + FilterByCategory(b, c)
  {
    if |a| == 0 {
      assert a + b == b;
    } else {
      assert (a + b)[1..] == a[1..] + b;
      FilterAppend(a[1..], b, c);
    }
  }

  /** A list all of one category passes its own filter whole and the other one empty. */
  lemma {:induction false} FilterUniform(events: seq<Event>, c: Category)
    requires forall i | 0 <= i < |events| :: events[i].category == c
    ensures FilterByCategory(events, c) == events
    ensures forall d | d != c :: FilterByCategory(events, d) == []
  {
    if |events| > 0 {
      FilterUniform(events[1..], c);
      assert [events[0]] + events[1..] == events;
    }
  }

  // ---------------------------------------------------------------------------
  // Invariants of the shipped catalog
  // ---------------------------------------------------------------------------

  predicate IdsDistinct(events: seq<Event>)
  {
    forall i, j | 0 <= i < j < |events| :: events[i].id != events[j].id
  }

  /** The ids of a list of events, in order. */
  function Ids(events: seq<Event>): (r: seq<string>)
    ensures |r| == |events|
    ensures forall i | 0 <= i < |events| :: r[i] == events[i].id
  {
    seq(|events|, i requires 0 <= i < |events| => events[i].id)
  }

  /** The catalog's ids, in catalog order. */
  const CatalogIds: seq<string> := [
    "paper-presentation", "circuit-debugging", "robo-race", "hackathon", "technical-quiz",
    "project-expo", "poster-design", "cadathon", "tech-talk", "line-follower",
    "gaming", "photography", "treasure-hunt", "chess", "debate",
    "jam", "comedy", "music", "short-film", "general-quiz"
  ]

  lemma CatalogIdList()
    ensures Ids(EventsData) == CatalogIds
  {
  }

  lemma CatalogIdListDistinct()
    ensures forall i, j | 0 <= i < j < |CatalogIds| :: CatalogIds[i] != CatalogIds[j]
  {
  }

  /** No two catalog entries share an `id`. */
  lemma CatalogIdsDistinct()
    ensures IdsDistinct(EventsData)
  {
    CatalogIdList();
    CatalogIdListDistinct();
    assert forall i | 0 <= i < |EventsData| :: EventsData[i].id == CatalogIds[i];
  }

  /** A block of one category followed by a block of another: each filter keeps
      exactly its own block. */
  lemma FilterBlocks(a: seq<Event>, b: seq<Event>, c: Category, d: Category)
    requires c != d
    requires forall i | 0 <= i < |a| :: a[i].category == c
    requires forall i | 0 <= i < |b| :: b[i].category == d
    ensures FilterByCategory(a + b, c) == a
    ensures FilterByCategory(a + b, d) == b
  {
    FilterUniform(a, c);
    FilterUniform(b, d);
    FilterAppend(a, b, c);
    FilterAppend(a, b, d);
    assert a + [] == a;
    assert [] + b == b;
  }

  /** Ten events per track, matching the "10 Exciting Events" and "10 Amazing
      Events" labels of the gateway page; so both tracks list something. */
  lemma CatalogCounts()
    ensures |FilterByCategory(EventsData, Technical)| == 10
    ensures |FilterByCategory(EventsData, NonTechnical)| == 10
    ensures FilterByCategory(EventsData, Technical) == TechnicalEvents
    ensures FilterByCategory(EventsData, NonTechnical) == NonTechnicalEvents
  {
    AllTechnical();
    AllNonTechnical();
    FilterBlocks(TechnicalEvents, NonTechnicalEvents, Technical, NonTechnical);
  }

  /** Either track lists ten events. */
  lemma TrackSize(t: Category)
    ensures |FilterByCategory(EventsData, t)| == 10
  {
    CatalogCounts();
  }

  lemma AllTechnical()
    ensures forall i | 0 <= i < |TechnicalEvents| :: TechnicalEvents[i].category == Technical
  {
  }

  lemma AllNonTechnical()
    ensures forall i | 0 <= i < |NonTechnicalEvents| :: NonTechnicalEvents[i].category == NonTechnical
  {
  }

  /** In catalog order every technical event comes before every non-technical one. */
  lemma TechnicalBeforeNonTechnical()
    ensures forall i, j | 0 <= i < j < |EventsData| ::
      EventsData[j].category == Technical ==> EventsData[i].category == Technical
  {
  }

  /** Every event has exactly four rules, so no rules list is empty. */
  lemma EveryEventHasFourRules()
    ensures forall i | 0 <= i < |EventsData| :: |EventsData[i].rules| == 4
  {
  }

  /** Fees, where present, are positive; the hackathon costs 200 and circuit
      debugging has no fee. */
  lemma CatalogFees()
    ensures forall i | 0 <= i < |EventsData| :: EventsData[i].fee.Some? ==> EventsData[i].fee.value > 0
    ensures Hackathon in EventsData && Hackathon.fee == Some(200) && Hackathon.category == Technical
    ensures CircuitDebugging in EventsData && CircuitDebugging.fee == None
  {
  }
}
