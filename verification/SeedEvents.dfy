/** Normalising event fixtures into seed events (backend/internal/seedgen/normalize.go). Date and clock
    parsing are parameters. */
module SeedEvents {
  import opened GoStrings
  import opened SeedSlugs
  import opened SeedTexts
  import CommunityRichText
  import RichText
  import SeedRichText

  /* ---------- entities ---------- */

  datatype ScheduleEntry = ScheduleEntry(time: string, activity: Localized)

  datatype EventFixture =
    EventFixture(id: int, active: bool, title: Localized, date: string, time: string, location: Localized,
                 image: string, description: Localized, schedule: seq<ScheduleEntry>, mapUrl: string)

  datatype LocalizedDoc = LocalizedDoc(th: RichText.Node, en: RichText.Node, de: RichText.Node)

  datatype EventSchedule = EventSchedule(start: string, end: string, activity: Localized, displayOrder: nat)

  datatype SeedEvent =
    SeedEvent(slug: string, startDate: string, endDate: string, imageUrl: string, mapUrl: string, eventType: string,
              title: Localized, location: Localized, description: LocalizedDoc, startTime: Option<string>,
              endTime: Option<string>, isActive: bool, displayOrder: nat, schedules: seq<EventSchedule>)

  /** `failedAt` is the index of the first fixture that cannot be normalised. */
  datatype Outcome = Normalized(events: seq<SeedEvent>) | Failed(failedAt: nat)

  /** Unicode tables, and the two uses of `time.Parse`: a formatted date and a formatted clock time. */
  datatype Env = Env(chars: Chars, parseDate: string -> Option<string>, parseClock: string -> Option<string>)

  function Documents(l: Localized): LocalizedDoc {
    LocalizedDoc(SeedRichText.TextDocument(l.th), SeedRichText.TextDocument(l.en), SeedRichText.TextDocument(l.de))
  }

  /* ---------- time ranges ---------- */

  datatype TimeRange = Range(start: string, end: string) | Unreadable | Invalid

  predicate LooksMachineReadable(s: string) {
    ContainsAny(s, "0123456789:")
  }

  function ParseTimeRange(env: Env, value: string): TimeRange {
    var trimmed := TrimSpace(value);
    if trimmed == "" then Unreadable
    else
      var parts := Split(trimmed, " - ");
      if |parts| > 2 then Invalid
      else if |parts| == 1 then
        match env.parseClock(TrimSpace(parts[0]))
        case Some(t) => Range(t, t)
        case None => if LooksMachineReadable(trimmed) then Invalid else Unreadable
      else if !LooksMachineReadable(parts[0]) && !LooksMachineReadable(parts[1]) then Unreadable
      else
        match (env.parseClock(TrimSpace(parts[0])), env.parseClock(TrimSpace(parts[1])))
        case (Some(s), Some(e)) => Range(s, e)
        case _ => Invalid
  }

  predicate HasDigitOrColon(s: string) {
    exists i :: 0 <= i < |s| && ('0' <= s[i] <= '9' || s[i] == ':')
  }

  lemma MachineReadableIff(s: string)
    ensures LooksMachineReadable(s) <==> HasDigitOrColon(s)
  {
    forall c: char ensures c in "0123456789:" <==> '0' <= c <= '9' || c == ':' { TimeChars(c); }
  }

  lemma TimeChars(c: char)
    ensures c in "0123456789:" <==> '0' <= c <= '9' || c == ':'
  {
    var chars := "0123456789:";
    if '0' <= c <= '9' {
      assert chars[c as int - '0' as int] == c;
    } else if c == ':' {
      assert chars[10] == c;
    }
  }

  /** What a time range says of its trimmed text `t`: a single clock time counts twice; around one dash stand
      the start and the end; words are no time, but not wrong either, unless they have a digit or a colon. */
  lemma TimeRangeIs(env: Env, value: string)
    ensures var t, range := TrimSpace(value), ParseTimeRange(env, value);
      match IndexOf(t, " - ")
      case None =>
        range == (if t == "" then Unreadable
                  else if env.parseClock(t).Some? then Range(env.parseClock(t).value, env.parseClock(t).value)
                  else if HasDigitOrColon(t) then Invalid else Unreadable)
      case Some(i) =>
        var a, b := t[..i], t[i + 3..];
        var start, end := env.parseClock(TrimSpace(a)), env.parseClock(TrimSpace(b));
        range == (if Contains(b, " - ") then Invalid
                  else if !HasDigitOrColon(a) && !HasDigitOrColon(b) then Unreadable
                  else if start.Some? && end.Some? then Range(start.value, end.value) else Invalid)
  {
    hide TrimSpace, IndexOf, LooksMachineReadable, HasDigitOrColon, Split;
    var t := TrimSpace(value);
    SplitSteps(t, " - ");
    TrimSpaceIsTrimmed(value);
    TrimSpaceIsTrimmed(t);
    MachineReadableIff(t);
    if IndexOf(t, " - ").Some? {
      var i := IndexOf(t, " - ").value;
      SplitSteps(t[i + 3..], " - ");
      MachineReadableIff(t[..i]);
      MachineReadableIff(t[i + 3..]);
    }
  }

  /* ---------- one event ---------- */

  predicate EntryFine(env: Env, entry: ScheduleEntry) {
    Complete(entry.activity) && ParseTimeRange(env, entry.time).Range?
  }

  function EntrySchedule(env: Env, entry: ScheduleEntry, order: nat): EventSchedule
    requires EntryFine(env, entry)
  {
    var r := ParseTimeRange(env, entry.time);
    EventSchedule(r.start, r.end, entry.activity, order)
  }

  /** Everything a fixture must satisfy before its slug is made. */
  predicate HeadFine(env: Env, f: EventFixture) {
    && Complete(f.title) && Complete(f.location) && Complete(f.description)
    && env.parseDate(f.date).Some? && !ParseTimeRange(env, f.time).Invalid?
  }

  predicate ScheduleFine(env: Env, f: EventFixture) {
    forall j :: 0 <= j < |f.schedule| ==> EntryFine(env, f.schedule[j])
  }

  predicate Fine(env: Env, f: EventFixture) {
    HeadFine(env, f) && ScheduleFine(env, f)
  }

  function Schedules(env: Env, f: EventFixture): seq<EventSchedule>
    requires ScheduleFine(env, f)
  {
    seq(|f.schedule|, j requires 0 <= j < |f.schedule| => EntrySchedule(env, f.schedule[j], j))
  }

  function EventOf(env: Env, f: EventFixture, slug: string, order: nat): SeedEvent
    requires Fine(env, f)
  {
    var r, date := ParseTimeRange(env, f.time), env.parseDate(f.date).value;
    SeedEvent(slug, date, date, f.image, f.mapUrl, "", f.title, f.location, Documents(f.description),
              if r.Range? then Some(r.start) else None, if r.Range? then Some(r.end) else None,
              f.active, order, Schedules(env, f))
  }

  function Base(env: Env, f: EventFixture): string {
    Slug(env.chars, f.title.en)
  }

  /* ---------- the slugs of a list of fixtures ---------- */

  /** `slugs` are the ones the fixtures get, in order, when none is taken at the start. */
  ghost predicate Assigned(env: Env, fixtures: seq<EventFixture>, slugs: seq<string>) {
    |slugs| <= |fixtures| && forall i :: 0 <= i < |slugs| ==> GetsSlug(env, fixtures[i], slugs, i)
  }

  ghost predicate GetsSlug(env: Env, f: EventFixture, slugs: seq<string>, i: nat)
    requires i < |slugs|
  {
    slugs[i] != "" && slugs[i] == Unique(Base(env, f), f.id, SetOf(slugs[..i]))
  }

  function SetOf(slugs: seq<string>): set<string> {
    set s | s in slugs
  }

  lemma AssignedGrows(env: Env, fixtures: seq<EventFixture>, slugs: seq<string>, slug: string)
    requires Assigned(env, fixtures, slugs) && |slugs| < |fixtures| && slug != ""
    requires slug == Unique(Base(env, fixtures[|slugs|]), fixtures[|slugs|].id, SetOf(slugs))
    ensures Assigned(env, fixtures, slugs + [slug]) && SetOf(slugs + [slug]) == SetOf(slugs) + {slug}
  {
    hide Base, Unique;
    var all := slugs + [slug];
    forall i | 0 <= i < |all|
      ensures GetsSlug(env, fixtures[i], all, i)
    {
      if i < |slugs| {
        assert all[..i] == slugs[..i] && GetsSlug(env, fixtures[i], slugs, i);
      } else {
        assert all[..i] == slugs;
      }
    }
  }

  lemma {:induction false} AssignedIsUnique(env: Env, fixtures: seq<EventFixture>, s: seq<string>, t: seq<string>,
                                            i: nat)
    requires Assigned(env, fixtures, s) && Assigned(env, fixtures, t) && i <= |s| && i <= |t|
    ensures s[..i] == t[..i]
  {
    hide Base, Unique, SetOf;
    if i > 0 {
      AssignedIsUnique(env, fixtures, s, t, i - 1);
      assert GetsSlug(env, fixtures[i - 1], s, i - 1) && GetsSlug(env, fixtures[i - 1], t, i - 1);
      assert s[..i] == s[..i - 1] + [s[i - 1]] && t[..i] == t[..i - 1] + [t[i - 1]];
    }
  }

  /* ---------- the whole list ---------- */

  /** Success: every fixture is fine and every event is built from its fixture, its slug and its position. */
  ghost predicate Succeeds(env: Env, fixtures: seq<EventFixture>, events: seq<SeedEvent>) {
    && |events| <= |fixtures|
    && Assigned(env, fixtures, SlugsOf(events))
    && forall i :: 0 <= i < |events| ==>
         Fine(env, fixtures[i]) && events[i] == EventOf(env, fixtures[i], events[i].slug, i)
  }

  function SlugsOf(events: seq<SeedEvent>): seq<string> {
    seq(|events|, i requires 0 <= i < |events| => events[i].slug)
  }

  /** Failure: the fixtures before `k` succeed and the one at `k` is not fine or gets no slug. */
  ghost predicate FailsAt(env: Env, fixtures: seq<EventFixture>, k: nat) {
    && k < |fixtures|
    && exists events :: |events| == k && Succeeds(env, fixtures, events)
         && (!Fine(env, fixtures[k]) || Unique(Base(env, fixtures[k]), fixtures[k].id, SetOf(SlugsOf(events))) == "")
  }

  ghost predicate Means(env: Env, fixtures: seq<EventFixture>, outcome: Outcome) {
    match outcome
    case Normalized(events) => |events| == |fixtures| && Succeeds(env, fixtures, events)
    case Failed(k) => FailsAt(env, fixtures, k)
  }

  /** The loop over an event's schedule; `None` when an entry is not fine. */
  method NormalizeSchedule(env: Env, f: EventFixture) returns (result: Option<seq<EventSchedule>>)
    ensures result == if ScheduleFine(env, f) then Some(Schedules(env, f)) else None
  {
    hide Complete, ParseTimeRange;
    var schedules: seq<EventSchedule> := [];
    for j := 0 to |f.schedule|
      invariant |schedules| == j
      invariant forall m :: 0 <= m < j ==>
        EntryFine(env, f.schedule[m]) && schedules[m] == EntrySchedule(env, f.schedule[m], m)
    {
      var entry := f.schedule[j];
      assert EntryFine(env, entry) <==> Complete(entry.activity) && ParseTimeRange(env, entry.time).Range?;
      if !Complete(entry.activity) {
        return None;
      }
      var r := ParseTimeRange(env, entry.time);
      if !r.Range? {
        return None;
      }
      schedules := schedules + [EventSchedule(r.start, r.end, entry.activity, j)];
    }
    assert ScheduleFine(env, f) && schedules == Schedules(env, f);
    result := Some(schedules);
  }

  /** The source's loop over the fixtures. */
  method NormalizeEvents(env: Env, fixtures: seq<EventFixture>) returns (outcome: Outcome)
    requires !env.chars.isDigit('-')
    ensures Means(env, fixtures, outcome)
  {
    hide Slug, Unique, Complete, ParseTimeRange, ScheduleFine, Schedules, Documents, Assigned, SetOf;
    var used := new SlugSet();
    var events: seq<SeedEvent> := [];
    NothingAssigned(env, fixtures);
    for index := 0 to |fixtures|
      invariant |events| == index && Succeeds(env, fixtures, events)
      invariant fresh(used) && used.used == SetOf(SlugsOf(events))
    {
      var fixture := fixtures[index];
      if !(Complete(fixture.title) && Complete(fixture.location) && Complete(fixture.description)) {
        return Failed(index);
      }
      var date, range := env.parseDate(fixture.date), ParseTimeRange(env, fixture.time);
      if date.None? || range.Invalid? {
        return Failed(index);
      }
      var base := SlugifyEnglish(env.chars, fixture.title.en);
      var slug := used.UniqueEventSlug(base, fixture.id);
      if slug == "" {
        return Failed(index);
      }
      var schedules := NormalizeSchedule(env, fixture);
      if schedules.None? {
        return Failed(index);
      }
      var event := SeedEvent(slug, date.value, date.value, fixture.image, fixture.mapUrl, "", fixture.title,
                             fixture.location, Documents(fixture.description),
                             if range.Range? then Some(range.start) else None,
                             if range.Range? then Some(range.end) else None,
                             fixture.active, index, schedules.value);
      AssignedGrows(env, fixtures, SlugsOf(events), slug);
      assert SlugsOf(events + [event]) == SlugsOf(events) + [slug];
      events := events + [event];
    }
    outcome := Normalized(events);
  }

  lemma NothingAssigned(env: Env, fixtures: seq<EventFixture>)
    ensures Assigned(env, fixtures, SlugsOf([])) && SetOf(SlugsOf([])) == {}
  {}

  /* ---------- what success guarantees ---------- */

  /** Slugs are non-empty and pairwise distinct; each is the slugified title, or, exactly when an earlier
      event already has that, the title's slug and the identifier. */
  lemma SlugsAreDistinct(env: Env, fixtures: seq<EventFixture>, events: seq<SeedEvent>, i: nat)
    requires Succeeds(env, fixtures, events) && i < |events|
    ensures events[i].slug != "" && forall j :: 0 <= j < i ==> events[j].slug != events[i].slug
    ensures var base := Base(env, fixtures[i]);
      events[i].slug ==
        if exists j :: 0 <= j < i && events[j].slug == base then Candidate(base, fixtures[i].id) else base
  {
    hide Fine, EventOf, Base, Candidate;
    var slugs := SlugsOf(events);
    assert GetsSlug(env, fixtures[i], slugs, i);
    assert forall j :: 0 <= j < i ==> slugs[..i][j] == events[j].slug;
    var base := Base(env, fixtures[i]);
    if j :| 0 <= j < i && events[j].slug == base {
      assert slugs[..i][j] == base;
    }
  }

  /** The order of the fixtures is kept: one event each, numbered by position, dated on one day, with the
      fixture's texts and links, the time its range says, and its schedule in order. */
  lemma EventsFollowFixtures(env: Env, fixtures: seq<EventFixture>, events: seq<SeedEvent>, i: nat)
    requires Succeeds(env, fixtures, events) && i < |events|
    ensures var e, f := events[i], fixtures[i];
      && e.displayOrder == i && e.title == f.title && e.location == f.location && e.isActive == f.active
      && e.imageUrl == f.image && e.mapUrl == f.mapUrl && e.eventType == ""
    ensures Some(events[i].startDate) == Some(events[i].endDate) == env.parseDate(fixtures[i].date)
    ensures match ParseTimeRange(env, fixtures[i].time)
      case Range(start, end) => events[i].startTime == Some(start) && events[i].endTime == Some(end)
      case Unreadable => events[i].startTime == events[i].endTime == None
      case Invalid => false
    ensures |events[i].schedules| == |fixtures[i].schedule|
    ensures forall j :: 0 <= j < |events[i].schedules| ==>
      && events[i].schedules[j].displayOrder == j
      && events[i].schedules[j].activity == fixtures[i].schedule[j].activity
      && ParseTimeRange(env, fixtures[i].schedule[j].time)
        == Range(events[i].schedules[j].start, events[i].schedules[j].end)
  {
    hide ParseTimeRange, Assigned, Complete, Documents;
    assert Fine(env, fixtures[i]) && events[i] == EventOf(env, fixtures[i], events[i].slug, i);
  }

  /** What a fixture needs: its texts in all three languages, a date, a time that is not wrong, and a schedule
      whose entries are complete and have readable times. */
  predicate Usable(env: Env, f: EventFixture) {
    && Complete(f.title) && Complete(f.location) && Complete(f.description)
    && env.parseDate(f.date).Some? && ParseTimeRange(env, f.time) != Invalid
    && forall j :: 0 <= j < |f.schedule| ==>
         Complete(f.schedule[j].activity) && ParseTimeRange(env, f.schedule[j].time).Range?
  }

  lemma FineIff(env: Env, f: EventFixture)
    ensures Fine(env, f) <==> Usable(env, f)
  {
    hide Complete, ParseTimeRange;
  }

  /** Success and failure, in the fixtures' terms: success means that all are usable; failure names the first
      one that is not, or whose title has no slug, or whose slug is taken with its identifier and without. */
  lemma OutcomeReasons(env: Env, fixtures: seq<EventFixture>, outcome: Outcome) returns (before: seq<SeedEvent>)
    requires Means(env, fixtures, outcome)
    ensures Succeeds(env, fixtures, before)
    ensures forall i :: 0 <= i < |before| ==> Usable(env, fixtures[i])
    ensures match outcome
      case Normalized(events) => before == events && |events| == |fixtures|
      case Failed(k) =>
        && k == |before| < |fixtures|
        && (!Usable(env, fixtures[k]) || NoSlugLeft(before, Base(env, fixtures[k]), fixtures[k].id))
  {
    hide Fine, Usable, Base, EventOf, Assigned, NoSlugLeft, Unique, SetOf, SlugsOf;
    if outcome.Normalized? {
      before := outcome.events;
    } else {
      var k := outcome.failedAt;
      before :| |before| == k && Succeeds(env, fixtures, before)
        && (!Fine(env, fixtures[k])
            || Unique(Base(env, fixtures[k]), fixtures[k].id, SetOf(SlugsOf(before))) == "");
      NoSlugIff(before, Base(env, fixtures[k]), fixtures[k].id);
      FineIff(env, fixtures[k]);
    }
    forall i | 0 <= i < |before| ensures Usable(env, fixtures[i]) { FineIff(env, fixtures[i]); }
  }

  /** There is no slug at all, or an earlier event has it, and another has it with the identifier. */
  predicate NoSlugLeft(before: seq<SeedEvent>, base: string, id: int) {
    || base == ""
    || ((exists i :: 0 <= i < |before| && before[i].slug == base)
        && exists j :: 0 <= j < |before| && before[j].slug == Candidate(base, id))
  }

  lemma NoSlugIff(before: seq<SeedEvent>, base: string, id: int)
    ensures Unique(base, id, SetOf(SlugsOf(before))) == "" <==> NoSlugLeft(before, base, id)
  {
    SlugsTaken(before, base);
    SlugsTaken(before, Candidate(base, id));
    hide SetOf, SlugsOf;
  }

  lemma SlugsTaken(events: seq<SeedEvent>, slug: string)
    ensures slug in SetOf(SlugsOf(events)) <==> exists i :: 0 <= i < |events| && events[i].slug == slug
  {
    var slugs := SlugsOf(events);
    if slug in slugs {
      var i :| 0 <= i < |slugs| && slugs[i] == slug;
    }
    if i :| 0 <= i < |events| && events[i].slug == slug {
      assert slugs[i] == slug;
    }
  }

  /** An event's description keeps the words of its fixture in all three languages, never loses them all,
      and is one the CMS accepts under any language key. */
  lemma DescriptionsKeepWords(env: Env, parse: string -> Option<RichText.Url>, locale: string,
                              fixtures: seq<EventFixture>, events: seq<SeedEvent>, i: nat)
    requires Succeeds(env, fixtures, events) && i < |events|
    ensures var doc, text := events[i].description, fixtures[i].description;
      && WordsKept(doc.th, text.th) && WordsKept(doc.en, text.en) && WordsKept(doc.de, text.de)
    ensures forall doc :: doc in {events[i].description.th, events[i].description.en, events[i].description.de} ==>
      RichText.LocaleVerdict(parse, locale, RichText.StoredAs(SeedRichText.Encode(doc))) == RichText.Accepted
  {
    var text := fixtures[i].description;
    assert Fine(env, fixtures[i]) && events[i].description == Documents(text);
    hide *;
    hide SeedRichText.TextDocument;
    assert Complete(text) by { DescriptionIsComplete(env, fixtures[i]); }
    TextsAreKept(text);
    SeedRichText.BuiltDocumentsAreAccepted(parse, text.th, locale);
    SeedRichText.BuiltDocumentsAreAccepted(parse, text.en, locale);
    SeedRichText.BuiltDocumentsAreAccepted(parse, text.de, locale);
  }

  predicate WordsKept(doc: RichText.Node, text: string) {
    CommunityRichText.PlainText(doc) == Join(Fields(text), " ") && Fields(text) != []
  }

  lemma DescriptionIsComplete(env: Env, f: EventFixture)
    requires Fine(env, f)
    ensures Complete(f.description)
  {}

  lemma TextsAreKept(text: Localized)
    requires Complete(text)
    ensures var doc := Documents(text);
      && doc == LocalizedDoc(SeedRichText.TextDocument(text.th), SeedRichText.TextDocument(text.en),
                             SeedRichText.TextDocument(text.de))
      && WordsKept(doc.th, text.th) && WordsKept(doc.en, text.en) && WordsKept(doc.de, text.de)
  {
    SeedRichText.BuiltDocumentKeepsText(text.th);
    SeedRichText.BuiltDocumentKeepsText(text.en);
    SeedRichText.BuiltDocumentKeepsText(text.de);
    hide SeedRichText.TextDocument, CommunityRichText.PlainText, Fields, Join, TrimSpace;
  }

  /** A slug is well formed if and only if it is the title's own or its identifier is not negative. */
  lemma SlugWellFormedIff(env: Env, fixtures: seq<EventFixture>, events: seq<SeedEvent>, i: nat)
    requires Unicode(env.chars) && Succeeds(env, fixtures, events) && i < |events|
    ensures WellFormed(env.chars, events[i].slug) <==>
      fixtures[i].id >= 0 || forall j :: 0 <= j < i ==> events[j].slug != Base(env, fixtures[i])
  {
    SlugsAreDistinct(env, fixtures, events, i);
    var base := Base(env, fixtures[i]);
    SlugIsWellFormed(env.chars, fixtures[i].title.en);
    assert GetsSlug(env, fixtures[i], SlugsOf(events), i);
    assert base != "";
    hide Fine, EventOf, Slug, Unicode, WellFormed, Assigned;
    CandidateWellFormed(env.chars, base, fixtures[i].id);
  }

  /** Two fixtures of one title: the second gets the suffixed slug. */
  lemma TwoSlugs(env: Env, f: EventFixture, g: EventFixture)
    requires Base(env, f) == Base(env, g) != ""
    ensures var base := Base(env, f); Assigned(env, [f, g], [base, Candidate(base, g.id)])
  {
    var base := Base(env, f);
    var slug := Candidate(base, g.id);
    assert |slug| > |base|;
    hide Base, Candidate;
    assert SetOf([]) == {} && SetOf([base]) == {base};
    assert Assigned(env, [f, g], []);
    AssignedGrows(env, [f, g], [], base);
    assert [] + [base] == [base];
    AssignedGrows(env, [f, g], [base], slug);
    assert [base] + [slug] == [base, slug];
  }

  /** It happens: the same fixture again, with a negative identifier, gets a slug that is not well formed. */
  lemma RepeatedTitle(env: Env, f: EventFixture) returns (events: seq<SeedEvent>)
    requires Unicode(env.chars) && Fine(env, f) && Base(env, f) != ""
    ensures |events| == 2 && Succeeds(env, [f, f.(id := -1)], events)
    ensures events[0].slug == Base(env, f) && events[1].slug == Candidate(Base(env, f), -1)
    ensures !WellFormed(env.chars, events[1].slug)
  {
    hide *;
    var g, base := f.(id := -1), Base(env, f);
    SlugIsWellFormed(env.chars, f.title.en);
    BaseIsSlug(env, f);
    CandidateWellFormed(env.chars, base, -1);
    IdentifierIsFree(env, f, -1);
    TwoSlugs(env, f, g);
    events := TwoSucceed(env, f, g, base, Candidate(base, -1));
  }

  lemma BaseIsSlug(env: Env, f: EventFixture)
    ensures Base(env, f) == Slug(env.chars, f.title.en)
  {
    hide Slug;
  }

  lemma IdentifierIsFree(env: Env, f: EventFixture, id: int)
    ensures Base(env, f.(id := id)) == Base(env, f) && (Fine(env, f.(id := id)) <==> Fine(env, f))
  {
    hide Slug, Complete, ParseTimeRange;
  }

  lemma TwoSucceed(env: Env, f: EventFixture, g: EventFixture, a: string, b: string) returns (events: seq<SeedEvent>)
    requires Fine(env, f) && Fine(env, g) && Assigned(env, [f, g], [a, b])
    ensures |events| == 2 && events[0].slug == a && events[1].slug == b && Succeeds(env, [f, g], events)
  {
    EventHasSlug(env, f, a, 0);
    EventHasSlug(env, g, b, 1);
    events := [EventOf(env, f, a, 0), EventOf(env, g, b, 1)];
    SlugsOfTwo(events[0], events[1]);
    ghost var fixtures := [f, g];
    assert |events| <= |fixtures| && Assigned(env, fixtures, SlugsOf(events));
    hide *;
    SucceedsEach(env, fixtures, events);
  }

  lemma SlugsOfTwo(x: SeedEvent, y: SeedEvent)
    ensures SlugsOf([x, y]) == [x.slug, y.slug]
  {}

  lemma SucceedsEach(env: Env, fixtures: seq<EventFixture>, events: seq<SeedEvent>)
    requires |events| == |fixtures| == 2 && Assigned(env, fixtures, SlugsOf(events))
    requires Fine(env, fixtures[0]) && Fine(env, fixtures[1])
    requires events[0] == EventOf(env, fixtures[0], events[0].slug, 0)
    requires events[1] == EventOf(env, fixtures[1], events[1].slug, 1)
    ensures Succeeds(env, fixtures, events)
  {
    hide Fine, EventOf, Assigned, SlugsOf;
    forall i | 0 <= i < 2
      ensures Fine(env, fixtures[i]) && events[i] == EventOf(env, fixtures[i], events[i].slug, i)
    {
      if i == 0 {
      } else {
        assert i == 1;
      }
    }
  }

  lemma EventHasSlug(env: Env, f: EventFixture, slug: string, order: nat)
    requires Fine(env, f)
    ensures EventOf(env, f, slug, order).slug == slug
  {
    hide ParseTimeRange, Documents, Schedules, Complete;
  }

  const ASCII := Chars(c => if 'A' <= c <= 'Z' then (c as int + 32) as char else c, c => '0' <= c <= '9')
  const PLAIN := Env(ASCII, s => Some(s), s => None)
  const NAME := Localized("a", "a", "a")
  const FIXTURE := EventFixture(1, true, NAME, "", "", NAME, "", NAME, [], "")

  lemma NameIsComplete()
    ensures Complete(NAME) && TrimSpace("") == ""
  {
    TrimSpaceIsTrimmed("a");
    TrimSpaceIsTrimmed("");
    hide TrimSpace;
  }

  /** There are such fixtures. */
  lemma FixtureIsFine()
    ensures Unicode(ASCII) && Fine(PLAIN, FIXTURE) && Base(PLAIN, FIXTURE) == "a"
  {
    NameIsComplete();
    RunsOfWord(ASCII, "a");
    assert Lowered(ASCII.lower, "a") == "a";
    hide Complete, Runs, TrimSpace;
  }

  /** The outcome is determined: a list cannot both succeed and fail, nor succeed in two ways. */
  lemma OutcomeIsUnique(env: Env, fixtures: seq<EventFixture>, a: Outcome, b: Outcome)
    requires Means(env, fixtures, a) && Means(env, fixtures, b)
    ensures a == b
  {
    hide Fine, EventOf, Base, Unique, SetOf, Assigned, SlugsOf;
    if a.Normalized? && b.Normalized? {
      EventsAreUnique(env, fixtures, a.events, b.events);
    } else if a.Normalized? {
      SuccessExcludesFailure(env, fixtures, a.events, b.failedAt);
    } else if b.Normalized? {
      SuccessExcludesFailure(env, fixtures, b.events, a.failedAt);
    } else {
      FailuresAgree(env, fixtures, a.failedAt, b.failedAt);
      FailuresAgree(env, fixtures, b.failedAt, a.failedAt);
    }
  }

  /** Two successful normalisations agree as far as both go. */
  lemma EventsAreUnique(env: Env, fixtures: seq<EventFixture>, a: seq<SeedEvent>, b: seq<SeedEvent>)
    requires Succeeds(env, fixtures, a) && Succeeds(env, fixtures, b) && |a| <= |b|
    ensures a == b[..|a|] && SlugsOf(a) == SlugsOf(b)[..|a|]
  {
    hide EventOf, Assigned, Fine;
    var s, t := SlugsOf(a), SlugsOf(b);
    AssignedIsUnique(env, fixtures, s, t, |a|);
    assert s[..|a|] == s;
    forall i | 0 <= i < |a| ensures a[i] == b[i] {
      assert s[i] == t[..|a|][i] == t[i];
    }
  }

  lemma SuccessExcludesFailure(env: Env, fixtures: seq<EventFixture>, events: seq<SeedEvent>, k: nat)
    requires Succeeds(env, fixtures, events) && k < |events|
    ensures !FailsAt(env, fixtures, k)
  {
    hide EventOf, Base, Unique, SetOf, Fine;
    assert GetsSlug(env, fixtures[k], SlugsOf(events), k) && Fine(env, fixtures[k]);
    if FailsAt(env, fixtures, k) {
      var before :| |before| == k && Succeeds(env, fixtures, before)
        && (!Fine(env, fixtures[k]) || Unique(Base(env, fixtures[k]), fixtures[k].id, SetOf(SlugsOf(before))) == "");
      EventsAreUnique(env, fixtures, before, events);
    }
  }

  lemma FailuresAgree(env: Env, fixtures: seq<EventFixture>, k: nat, m: nat)
    requires FailsAt(env, fixtures, k) && FailsAt(env, fixtures, m)
    ensures k >= m
  {
    hide Succeeds, Fine, Base, Unique;
    if k < m {
      var events :| |events| == m && Succeeds(env, fixtures, events);
      SuccessExcludesFailure(env, fixtures, events, k);
    }
  }
}
