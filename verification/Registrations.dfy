/** Validation and normalisation of event registrations
    (backend/internal/registrations/policy.go). Lower-casing and address parsing are parameters. */
module Registrations {
  import opened GoStrings

  /* ---------- entities ---------- */

  datatype Contact = Contact(firstName: string, lastName: string, email: string, phone: string)

  datatype Participant =
    Participant(id: Option<int>, firstName: string, lastName: string, dietary: string, needs: string, notes: string)

  datatype CreateRequest =
    CreateRequest(locale: string, contact: Contact, participants: seq<Participant>, noticeVersion: string,
                  consent: bool)

  datatype UpdateRequest = UpdateRequest(locale: string, contact: Contact, participants: seq<Participant>)

  datatype AdminRequest =
    AdminRequest(eventId: int, locale: string, status: string, contact: Contact, participants: seq<Participant>,
                 dietary: string, needs: string, notes: string, sendEmail: bool)

  datatype CreateInput =
    CreateInput(locale: string, contact: Contact, participants: seq<Participant>, noticeVersion: string)

  datatype Code = GroupLimitExceeded | Validation

  datatype Outcome<T> = Accepted(input: T) | Rejected(code: Code, fields: map<string, string>)

  /** What the environment decides: `unicode.ToLower`, `mail.ParseAddress` and a deployment setting. */
  datatype Env = Env(lower: char -> char, isAddress: string -> bool, noticeSetting: string)

  const MAX_PARTICIPANTS: nat := 10
  const MAX_NAME: nat := 100
  const MAX_EMAIL: nat := 255
  const MAX_PHONE: nat := 20
  const MAX_FREE_TEXT: nat := 2000
  const MAX_NOTICE_VERSION: nat := 50
  const DEFAULT_NOTICE_VERSION := "2026-08"

  const TOO_MANY := map["participants" := "Too many participants"]

  function CurrentNoticeVersion(env: Env): string {
    var version := TrimSpace(env.noticeSetting);
    if version == "" then DEFAULT_NOTICE_VERSION else version
  }

  /* ---------- normal forms ---------- */

  function NormalLocale(env: Env, s: string): string {
    var locale := Lowered(env.lower, TrimSpace(s));
    if locale == "" then "th" else locale
  }

  function NormalStatus(env: Env, s: string): string {
    var status := Lowered(env.lower, TrimSpace(s));
    if status == "" then "confirmed" else status
  }

  function NormalContact(env: Env, c: Contact): Contact {
    Contact(TrimSpace(c.firstName), TrimSpace(c.lastName), Lowered(env.lower, TrimSpace(c.email)), TrimSpace(c.phone))
  }

  function NormalParticipant(p: Participant): Participant {
    Participant(p.id, TrimSpace(p.firstName), TrimSpace(p.lastName),
                TrimSpace(p.dietary), TrimSpace(p.needs), TrimSpace(p.notes))
  }

  function NormalPeople(people: seq<Participant>): seq<Participant> {
    seq(|people|, i requires 0 <= i < |people| => NormalParticipant(people[i]))
  }

  function NormalAdmin(env: Env, r: AdminRequest): AdminRequest {
    AdminRequest(r.eventId, NormalLocale(env, r.locale), NormalStatus(env, r.status), NormalContact(env, r.contact),
                 NormalPeople(r.participants), TrimSpace(r.dietary), TrimSpace(r.needs), TrimSpace(r.notes),
                 r.sendEmail)
  }

  /* ---------- where a request can be wrong ---------- */

  datatype Field = FirstName | LastName | Dietary | Needs | Notes

  /** A place in a request, free of how the code spells it. */
  datatype Slot =
    | Locale | ContactFirst | ContactLast | Email | Phone
    | People | Person(index: nat, field: Field)
    | NoticeVersion | Consent
    | EventId | Status | GroupDietary | GroupNeeds | GroupNotes | SendEmail

  function FieldName(f: Field): string {
    match f
    case FirstName => "first_name"
    case LastName => "last_name"
    case Dietary => "dietary_restrictions"
    case Needs => "special_needs"
    case Notes => "additional_notes"
  }

  function Label(f: Field): string {
    match f
    case FirstName => "First name"
    case LastName => "Last name"
    case Dietary => "Dietary restrictions"
    case Needs => "Special needs"
    case Notes => "Additional notes"
  }

  function FieldPath(index: nat, name: string): string {
    "participants." + Itoa(index) + "." + name
  }

  /** The key the code files a fault of each slot under. */
  function Path(s: Slot): string {
    match s
    case Locale => "locale"
    case ContactFirst => "contact.first_name"
    case ContactLast => "contact.last_name"
    case Email => "contact.email"
    case Phone => "contact.phone"
    case People => "participants"
    case Person(i, f) => FieldPath(i, FieldName(f))
    case NoticeVersion => "privacy_notice_version"
    case Consent => "privacy_consent"
    case EventId => "event_id"
    case Status => "status"
    case GroupDietary => "dietary_restrictions"
    case GroupNeeds => "special_needs"
    case GroupNotes => "additional_notes"
    case SendEmail => "send_email"
  }

  lemma FieldPathInjective(i: nat, f: Field, j: nat, g: Field)
    requires FieldPath(i, FieldName(f)) == FieldPath(j, FieldName(g))
    ensures i == j && f == g
  {
    PathTail(i, FieldName(f));
    PathTail(j, FieldName(g));
    hide FieldPath, Itoa;
    DottedInjective(Itoa(i), FieldName(f), Itoa(j), FieldName(g));
    ItoaInjective(i, j);
    FieldNameInjective(f, g);
  }

  lemma PathTail(i: nat, name: string)
    ensures |FieldPath(i, name)| >= 13 && FieldPath(i, name)[13..] == Itoa(i) + "." + name
  {}

  lemma FieldNameInjective(f: Field, g: Field)
    requires FieldName(f) == FieldName(g)
    ensures f == g
  {}

  /** Digits end at the first dot. */
  lemma DottedInjective(a: string, x: string, b: string, y: string)
    requires forall k :: 0 <= k < |a| ==> a[k] != '.'
    requires forall k :: 0 <= k < |b| ==> b[k] != '.'
    requires a + "." + x == b + "." + y
    ensures a == b && x == y
  {
    var s := a + "." + x;
    assert s[|a|] == '.' && s[|b|] == '.';
    assert |a| == |b|;
    assert s[..|a|] == a && s[..|b|] == b && s[|a| + 1..] == x && s[|b| + 1..] == y;
  }

  lemma PersonPathShape(i: nat, f: Field)
    ensures var p := Path(Person(i, f)); |p| > 13 && p[0] == 'p' && p[1] == 'a' && p[12] == '.'
  {}

  /** No two slots of a request share a key. */
  lemma PathInjective(s: Slot, t: Slot)
    requires Path(s) == Path(t)
    ensures s == t
  {
    if s.Person? && t.Person? {
      FieldPathInjective(s.index, s.field, t.index, t.field);
    } else if s.Person? {
      PersonPathShape(s.index, s.field);
    } else if t.Person? {
      PersonPathShape(t.index, t.field);
    } else {
      FixedPathInjective(s, t);
    }
  }

  lemma FixedPathInjective(s: Slot, t: Slot)
    requires !s.Person? && !t.Person? && Path(s) == Path(t)
    ensures s == t
  {
    assert s.Phone? || t.Phone? ==> Path(s)[8] == Path(t)[8];
    assert Path(s)[0] == Path(t)[0];
  }

  /** The test by which the code decides that a text is mandatory. */
  predicate EndsLikeName(path: string) {
    HasSuffix(path, "first_name") || HasSuffix(path, "last_name")
  }

  lemma PersonSuffix(i: nat, f: Field, suffix: string)
    requires |suffix| <= |FieldName(f)|
    ensures HasSuffix(Path(Person(i, f)), suffix) <==> HasSuffix(FieldName(f), suffix)
  {
    var p := Path(Person(i, f));
    hide FieldName;
    assert p[|p| - |suffix|..] == FieldName(f)[|FieldName(f)| - |suffix|..];
  }

  lemma SuffixOfName(f: Field)
    ensures HasSuffix(FieldName(f), "last_name") <==> f == LastName
    ensures f != LastName ==> (HasSuffix(FieldName(f), "first_name") <==> f == FirstName)
  {
    var n := FieldName(f);
    assert f == Notes ==> n[7..][0] != "last_name"[0];
    assert f == Notes ==> n[6..][0] != "first_name"[0];
    assert f == Dietary ==> n[11..][0] != "last_name"[0] && n[10..][0] != "first_name"[0];
    assert f == Needs ==> n[4..][0] != "last_name"[0] && n[3..][0] != "first_name"[0];
    assert f == FirstName ==> n[1..][0] != "last_name"[0];
  }

  /** The suffix test picks out exactly the participants' two names. */
  lemma SuffixSelectsNames(i: nat, f: Field)
    ensures EndsLikeName(Path(Person(i, f))) <==> f in {FirstName, LastName}
  {
    PersonSuffix(i, f, "last_name");
    SuffixOfName(f);
    if f != LastName {
      PersonSuffix(i, f, "first_name");
    }
  }

  /* ---------- faults and the error map they make ---------- */

  type Faults = Slot -> Option<string>

  /** The message a text deserves, `mandatory` for names. */
  function TextFault(mandatory: bool, value: string, limit: nat, title: string): Option<string> {
    if value == "" && mandatory then Some(title + " is required")
    else if |value| > limit then Some(title + " is too long")
    else None
  }

  function LocaleFault(locale: string): Option<string> {
    if locale in {"th", "en", "de"} then None else Some("Locale must be th, en, or de")
  }

  function EmailFault(env: Env, email: string): Option<string> {
    if email == "" then Some("Email is required")
    else if |email| > MAX_EMAIL then Some("Email is too long")
    else if !env.isAddress(email) then Some("Email is invalid")
    else None
  }

  function PhoneFault(phone: string): Option<string> {
    if |phone| > MAX_PHONE then Some("Phone is too long") else None
  }

  function Value(p: Participant, f: Field): string {
    match f
    case FirstName => p.firstName
    case LastName => p.lastName
    case Dietary => p.dietary
    case Needs => p.needs
    case Notes => p.notes
  }

  function Limit(f: Field): nat {
    if f in {FirstName, LastName} then MAX_NAME else MAX_FREE_TEXT
  }

  function PersonFault(p: Participant, f: Field): Option<string> {
    TextFault(f in {FirstName, LastName}, Value(p, f), Limit(f), Label(f))
  }

  function LocaleFaults(locale: string): Faults {
    (s: Slot) => if s == Locale then LocaleFault(locale) else None
  }

  function ContactAt(env: Env, c: Contact, s: Slot): Option<string> {
    match s
    case ContactFirst => TextFault(true, c.firstName, MAX_NAME, "First name")
    case ContactLast => TextFault(true, c.lastName, MAX_NAME, "Last name")
    case Email => EmailFault(env, c.email)
    case Phone => PhoneFault(c.phone)
    case _ => None
  }

  function ContactFaults(env: Env, c: Contact): Faults {
    (s: Slot) => ContactAt(env, c, s)
  }

  function PeopleAt(people: seq<Participant>, s: Slot): Option<string> {
    if s.Person? && s.index < |people| then PersonFault(people[s.index], s.field) else None
  }

  function PeopleFaults(people: seq<Participant>): Faults {
    (s: Slot) => PeopleAt(people, s)
  }

  function CountFault(people: seq<Participant>): Option<string> {
    if people == [] then Some("At least one participant is required") else None
  }

  /** The faults of what every kind of request holds, in normal form. */
  function CommonAt(env: Env, locale: string, contact: Contact, people: seq<Participant>, s: Slot): Option<string> {
    match s
    case Locale => LocaleFault(locale)
    case People => CountFault(people)
    case Person(_, _) => PeopleAt(people, s)
    case _ => ContactAt(env, contact, s)
  }

  function NoticeFault(env: Env, version: string): Option<string> {
    if TrimSpace(version) == "" then Some("Privacy notice version is required")
    else if |version| > MAX_NOTICE_VERSION then Some("Privacy notice version is too long")
    else if TrimSpace(version) != CurrentNoticeVersion(env) then Some("Privacy notice version is not current")
    else None
  }

  function ConsentFault(consent: bool): Option<string> {
    if consent then None else Some("Privacy consent is required")
  }

  function UpdateAt(env: Env, r: UpdateRequest, s: Slot): Option<string> {
    CommonAt(env, NormalLocale(env, r.locale), NormalContact(env, r.contact), NormalPeople(r.participants), s)
  }

  function UpdateFaults(env: Env, r: UpdateRequest): Faults {
    (s: Slot) => UpdateAt(env, r, s)
  }

  function Visible(r: CreateRequest): UpdateRequest {
    UpdateRequest(r.locale, r.contact, r.participants)
  }

  function CreateAt(env: Env, r: CreateRequest, s: Slot): Option<string> {
    match s
    case NoticeVersion => NoticeFault(env, r.noticeVersion)
    case Consent => ConsentFault(r.consent)
    case _ => UpdateAt(env, Visible(r), s)
  }

  function CreateFaults(env: Env, r: CreateRequest): Faults {
    (s: Slot) => CreateAt(env, r, s)
  }

  function StatusFault(status: string): Option<string> {
    if status in {"pending", "confirmed", "attended", "cancelled"} then None
    else Some("Status must be pending, confirmed, attended, or cancelled")
  }

  function SendEmailFault(send: bool, email: string): Option<string> {
    if send && email == "" then Some("Email is required when sending email notification") else None
  }

  function EventFault(id: int): Option<string> {
    if id <= 0 then Some("Event ID is required") else None
  }

  /** The faults of an administrator's request in normal form. */
  function AdminAt(env: Env, n: AdminRequest, s: Slot): Option<string> {
    match s
    case EventId => EventFault(n.eventId)
    case Status => StatusFault(n.status)
    case GroupDietary => TextFault(false, n.dietary, MAX_FREE_TEXT, "Dietary restrictions")
    case GroupNeeds => TextFault(false, n.needs, MAX_FREE_TEXT, "Special needs")
    case GroupNotes => TextFault(false, n.notes, MAX_FREE_TEXT, "Additional notes")
    case SendEmail => SendEmailFault(n.sendEmail, n.contact.email)
    case _ => CommonAt(env, n.locale, n.contact, n.participants, s)
  }

  function AdminFaults(env: Env, n: AdminRequest): Faults {
    (s: Slot) => AdminAt(env, n, s)
  }

  /** `fields` holds the message of every faulty slot, under its own key, and nothing else. */
  ghost predicate Exact(fields: map<string, string>, faults: Faults) {
    && (forall s :: faults(s).Some? ==> Path(s) in fields && fields[Path(s)] == faults(s).value)
    && (forall k :: k in fields ==> exists s :: Path(s) == k && faults(s).Some?)
  }

  /** A slot's key is in an exact map if and only if the slot is faulty. */
  lemma ExactKeys(fields: map<string, string>, faults: Faults, s: Slot)
    requires Exact(fields, faults)
    ensures Path(s) in fields <==> faults(s).Some?
  {
    if Path(s) in fields {
      var t :| Path(t) == Path(s) && faults(t).Some?;
      PathInjective(s, t);
    }
  }

  /** The faults determine the map. */
  lemma ExactIsUnique(a: map<string, string>, b: map<string, string>, faults: Faults)
    requires Exact(a, faults) && Exact(b, faults)
    ensures a == b
  {
    forall k | k in a
      ensures k in b && a[k] == b[k]
    {
      var s :| Path(s) == k && faults(s).Some?;
    }
    forall k | k in b
      ensures k in a
    {
      var s :| Path(s) == k && faults(s).Some?;
    }
  }

  lemma ExactEmpty(fields: map<string, string>, faults: Faults)
    requires Exact(fields, faults)
    ensures fields == map[] <==> forall s :: faults(s).None?
  {
    if k :| k in fields {
      var s :| Path(s) == k && faults(s).Some?;
    }
  }

  function Noted(fields: map<string, string>, path: string, fault: Option<string>): map<string, string> {
    if fault.Some? then fields[path := fault.value] else fields
  }

  /** What `ValidateText` makes of its arguments. */
  function TextNoted(fields: map<string, string>, path: string, value: string, limit: nat,
                     title: string): map<string, string> {
    Noted(fields, path, TextFault(EndsLikeName(path), value, limit, title))
  }

  /** Recording one more slot keeps the map exact. */
  lemma NotedIsExact(fields: map<string, string>, before: Faults, s: Slot, after: Faults)
    requires Exact(fields, before) && before(s).None?
    requires forall t :: t != s ==> before(t) == after(t)
    ensures Exact(Noted(fields, Path(s), after(s)), after)
  {
    var result := Noted(fields, Path(s), after(s));
    forall t | after(t).Some?
      ensures Path(t) in result && result[Path(t)] == after(t).value
    {
      if Path(t) == Path(s) { PathInjective(s, t); }
    }
    forall k | k in result
      ensures exists t :: Path(t) == k && after(t).Some?
    {
      if k in fields {
        var t :| Path(t) == k && before(t).Some?;
        assert t != s && after(t).Some?;
      }
    }
  }

  lemma ExactSame(fields: map<string, string>, f: Faults, g: Faults)
    requires Exact(fields, f) && forall s :: f(s) == g(s)
    ensures Exact(fields, g)
  {}

  lemma ExactNothing(faults: Faults)
    requires forall s :: faults(s).None?
    ensures Exact(map[], faults)
  {}

  /** Recording several slots, one after the other. */
  function NotedAll(fields: map<string, string>, faults: Faults, slots: seq<Slot>): map<string, string>
    decreases |slots|
  {
    if slots == [] then fields
    else NotedAll(Noted(fields, Path(slots[0]), faults(slots[0])), faults, slots[1..])
  }

  /** Recording the slots a map leaves out makes it exact for all. */
  lemma {:induction false} NotedAllIsExact(fields: map<string, string>, before: Faults, slots: seq<Slot>, after: Faults)
    requires Exact(fields, before) && forall i, j :: 0 <= i < j < |slots| ==> slots[i] != slots[j]
    requires forall s :: before(s) == if s in slots then None else after(s)
    ensures Exact(NotedAll(fields, after, slots), after)
    decreases |slots|
  {
    hide Exact, Path, Noted;
    if slots == [] {
      ExactSame(fields, before, after);
    } else {
      var first, rest := slots[0], slots[1..];
      var between: Faults := (s: Slot) => if s in rest then None else after(s);
      assert first !in rest && slots == [first] + rest;
      NotedIsExact(fields, before, first, between);
      NotedAllIsExact(Noted(fields, Path(first), after(first)), between, rest, after);
    }
  }

  /** The slots from the `k`-th on: record that one, then the rest. */
  lemma NotedNext(fields: map<string, string>, faults: Faults, slots: seq<Slot>, k: nat)
    requires k < |slots|
    ensures NotedAll(fields, faults, slots[k..]) ==
      NotedAll(Noted(fields, Path(slots[k]), faults(slots[k])), faults, slots[k + 1..])
    ensures slots[0..] == slots && NotedAll(fields, faults, slots[|slots|..]) == fields
  {
    hide Noted, Path;
    assert slots[k..][1..] == slots[k + 1..];
  }

  lemma {:induction false} NotedAllSame(fields: map<string, string>, f: Faults, g: Faults, slots: seq<Slot>)
    requires forall i :: 0 <= i < |slots| ==> f(slots[i]) == g(slots[i])
    ensures NotedAll(fields, f, slots) == NotedAll(fields, g, slots)
    decreases |slots|
  {
    hide Noted, Path;
    if slots != [] {
      NotedAllSame(Noted(fields, Path(slots[0]), f(slots[0])), f, g, slots[1..]);
    }
  }

  /** Merging the maps of disjoint slots keeps the map exact. */
  lemma MergedIsExact(a: map<string, string>, fa: Faults, b: map<string, string>, fb: Faults, both: Faults)
    requires Exact(a, fa) && Exact(b, fb)
    requires forall s :: both(s) == if fb(s).Some? then fb(s) else fa(s)
    ensures Exact(a + b, both)
  {
    forall s | both(s).Some?
      ensures Path(s) in a + b && (a + b)[Path(s)] == both(s).value
    {
      ExactKeys(b, fb, s);
    }
    forall k | k in a + b
      ensures exists s :: Path(s) == k && both(s).Some?
    {
      if k in b {
        var s :| Path(s) == k && fb(s).Some?;
        assert both(s).Some?;
      } else {
        var s :| Path(s) == k && fa(s).Some?;
        assert both(s).Some?;
      }
    }
  }

  /* ---------- the outcome, stated without the code's maps ---------- */

  /** Too many participants win over every other fault; otherwise the exact error map, if any. */
  ghost predicate Decided<T>(outcome: Outcome<T>, faults: Faults, people: seq<Participant>, input: T) {
    if |people| > MAX_PARTICIPANTS then outcome == Rejected(GroupLimitExceeded, TOO_MANY)
    else if forall s :: faults(s).None? then outcome == Accepted(input)
    else outcome.Rejected? && outcome.code == Validation && Exact(outcome.fields, faults)
  }

  function UpdateInput(env: Env, r: UpdateRequest): UpdateRequest {
    UpdateRequest(NormalLocale(env, r.locale), NormalContact(env, r.contact), NormalPeople(r.participants))
  }

  function CreateResult(env: Env, r: CreateRequest): CreateInput {
    CreateInput(NormalLocale(env, r.locale), NormalContact(env, r.contact), NormalPeople(r.participants),
                TrimSpace(r.noticeVersion))
  }

  ghost predicate CreateOutcome(env: Env, r: CreateRequest, outcome: Outcome<CreateInput>) {
    Decided(outcome, CreateFaults(env, r), r.participants, CreateResult(env, r))
  }

  ghost predicate UpdateOutcome(env: Env, r: UpdateRequest, outcome: Outcome<UpdateRequest>) {
    Decided(outcome, UpdateFaults(env, r), r.participants, UpdateInput(env, r))
  }

  ghost predicate AdminOutcome(env: Env, r: AdminRequest, outcome: Outcome<AdminRequest>) {
    Decided(outcome, AdminFaults(env, NormalAdmin(env, r)), r.participants, NormalAdmin(env, r))
  }

  /* ---------- the code ---------- */

  /** `target` with the keys of `source` that are no longer `left` written over it. */
  function Overlaid(target: map<string, string>, source: map<string, string>, left: set<string>): map<string, string> {
    target + (source - left)
  }

  lemma OverlaidStep(target: map<string, string>, source: map<string, string>, left: set<string>, key: string)
    requires key in left && left <= source.Keys
    ensures Overlaid(target, source, left)[key := source[key]] == Overlaid(target, source, left - {key})
  {}

  lemma OverlaidDone(target: map<string, string>, source: map<string, string>)
    ensures Overlaid(target, source, source.Keys) == target && Overlaid(target, source, {}) == target + source
  {
    assert source - {} == source;
  }

  /** The error map, shared by reference between the functions that fill it. */
  class ErrorFields {
    var entries: map<string, string>

    constructor ()
      ensures entries == map[]
    {
      entries := map[];
    }

    method Put(path: string, message: string)
      modifies this
      ensures entries == old(entries)[path := message]
    {
      entries := entries[path := message];
    }

    method ValidateText(path: string, value: string, maxLength: nat, title: string)
      modifies this
      ensures entries == TextNoted(old(entries), path, value, maxLength, title)
    {
      if value == "" && (HasSuffix(path, "first_name") || HasSuffix(path, "last_name")) {
        Put(path, title + " is required");
        return;
      }
      if |value| > maxLength {
        Put(path, title + " is too long");
      }
    }

    method LimitFreeText(path: string, value: string, title: string)
      modifies this
      ensures entries == Noted(old(entries), path, TextFault(false, value, MAX_FREE_TEXT, title))
    {
      if |value| > MAX_FREE_TEXT {
        Put(path, title + " is too long");
      }
    }

    /** Copies another map over this one, in whatever order its keys come. */
    method Merge(source: ErrorFields)
      requires source != this
      modifies this
      ensures entries == old(entries) + source.entries
    {
      var left := source.entries.Keys;
      ghost var before := entries;
      while left != {}
        invariant left <= source.entries.Keys
        invariant source.entries == old(source.entries)
        invariant entries == Overlaid(before, source.entries, left)
        decreases left
      {
        var key :| key in left;
        Put(key, source.entries[key]);
        OverlaidStep(before, source.entries, left, key);
        left := left - {key};
      }
      OverlaidDone(before, source.entries);
    }
  }

  lemma LocaleFaultsExact(locale: string)
    ensures Exact(Noted(map[], Path(Locale), LocaleFault(locale)), LocaleFaults(locale))
  {
    NotedIsExact(map[], (s: Slot) => None, Locale, LocaleFaults(locale));
  }

  method NormalizeLocale(env: Env, value: string) returns (locale: string, fields: ErrorFields)
    ensures fresh(fields) && locale == NormalLocale(env, value)
    ensures locale == if TrimSpace(value) == "" then "th" else Lowered(env.lower, TrimSpace(value))
    ensures Exact(fields.entries, LocaleFaults(locale))
  {
    fields := new ErrorFields();
    locale := Lowered(env.lower, TrimSpace(value));
    if locale == "" {
      locale := "th";
    }
    LocaleFaultsExact(locale);
    if locale != "th" && locale != "en" && locale != "de" {
      fields.Put("locale", "Locale must be th, en, or de");
    }
  }

  const CONTACT_SLOTS := [ContactFirst, ContactLast, Email, Phone]

  lemma ContactFaultsExact(env: Env, c: Contact)
    ensures Exact(NotedAll(map[], ContactFaults(env, c), CONTACT_SLOTS), ContactFaults(env, c))
  {
    hide Exact, TextFault, EmailFault, PhoneFault;
    var none: Faults := (s: Slot) => None;
    ExactNothing(none);
    NotedAllIsExact(map[], none, CONTACT_SLOTS, ContactFaults(env, c));
  }

  lemma ContactCases(env: Env, c: Contact)
    ensures var faults := ContactFaults(env, c);
      && faults(ContactFirst) == TextFault(true, c.firstName, MAX_NAME, "First name")
      && faults(ContactLast) == TextFault(true, c.lastName, MAX_NAME, "Last name")
      && faults(Email) == EmailFault(env, c.email) && faults(Phone) == PhoneFault(c.phone)
    ensures Path(ContactFirst) == "contact.first_name" && Path(ContactLast) == "contact.last_name"
  {
    hide TextFault, EmailFault, PhoneFault;
  }

  method ValidateEmail(fields: ErrorFields, env: Env, email: string)
    modifies fields
    ensures fields.entries == Noted(old(fields.entries), Path(Email), EmailFault(env, email))
  {
    if email == "" {
      fields.Put("contact.email", "Email is required");
    } else if |email| > MAX_EMAIL {
      fields.Put("contact.email", "Email is too long");
    } else if !env.isAddress(email) {
      fields.Put("contact.email", "Email is invalid");
    }
  }

  method ValidatePhone(fields: ErrorFields, phone: string)
    modifies fields
    ensures fields.entries == Noted(old(fields.entries), Path(Phone), PhoneFault(phone))
  {
    if |phone| > MAX_PHONE {
      fields.Put("contact.phone", "Phone is too long");
    }
  }

  method NormalizeContact(env: Env, input: Contact) returns (contact: Contact, fields: ErrorFields)
    ensures fresh(fields) && contact == NormalContact(env, input)
    ensures Exact(fields.entries, ContactFaults(env, contact))
  {
    hide NotedAll, Exact, Noted, Path, ContactFaults, TextFault, EmailFault, PhoneFault, TrimSpace, Lowered,
         EndsLikeName;
    contact := Contact(TrimSpace(input.firstName), TrimSpace(input.lastName),
                       Lowered(env.lower, TrimSpace(input.email)), TrimSpace(input.phone));
    ghost var faults := ContactFaults(env, contact);
    ContactFaultsExact(env, contact);
    ContactCases(env, contact);
    ContactNamesAreMandatory();
    fields := new ErrorFields();
    NotedNext(fields.entries, faults, CONTACT_SLOTS, 0);
    fields.ValidateText("contact.first_name", contact.firstName, MAX_NAME, "First name");
    NotedNext(fields.entries, faults, CONTACT_SLOTS, 1);
    fields.ValidateText("contact.last_name", contact.lastName, MAX_NAME, "Last name");
    NotedNext(fields.entries, faults, CONTACT_SLOTS, 2);
    ValidateEmail(fields, env, contact.email);
    NotedNext(fields.entries, faults, CONTACT_SLOTS, 3);
    ValidatePhone(fields, contact.phone);
    NotedNext(fields.entries, faults, CONTACT_SLOTS, 0);
  }

  lemma ContactNamesAreMandatory()
    ensures EndsLikeName("contact.first_name") && EndsLikeName("contact.last_name")
  {
    assert "contact.first_name"[8..] == "first_name";
    assert "contact.last_name"[8..] == "last_name";
  }

  function PersonSlots(i: nat): seq<Slot> {
    [Person(i, FirstName), Person(i, LastName), Person(i, Dietary), Person(i, Needs), Person(i, Notes)]
  }

  function PersonFaults(p: Participant): Faults {
    (s: Slot) => if s.Person? then PersonFault(p, s.field) else None
  }

  /** The faults of one more participant are those of the people before and its own. */
  lemma PeopleAndOne(people: seq<Participant>, p: Participant, s: Slot)
    ensures var all := PeopleFaults(people + [p]);
      && PeopleFaults(people)(s) == (if s in PersonSlots(|people|) then None else all(s))
      && (s in PersonSlots(|people|) ==> all(s) == PersonFaults(p)(s))
  {
    PersonSlotsAre(|people|, s);
    hide PersonFault, PersonSlots;
    var all := people + [p];
    if s.Person? && s.index < |people| { assert all[s.index] == people[s.index]; }
    if s.Person? && s.index == |people| { assert all[s.index] == p; }
  }

  lemma PersonSlotsAre(n: nat, s: Slot)
    ensures s in PersonSlots(n) <==> s.Person? && s.index == n
    ensures forall i, j :: 0 <= i < j < |PersonSlots(n)| ==> PersonSlots(n)[i] != PersonSlots(n)[j]
  {
    var slots := PersonSlots(n);
    if s.Person? && s.index == n {
      match s.field
      case FirstName => assert slots[0] == s;
      case LastName => assert slots[1] == s;
      case Dietary => assert slots[2] == s;
      case Needs => assert slots[3] == s;
      case Notes => assert slots[4] == s;
    }
  }

  /** Recording a participant extends the exact map of those before. */
  lemma PersonExtends(fields: map<string, string>, people: seq<Participant>, p: Participant)
    requires Exact(fields, PeopleFaults(people))
    ensures Exact(NotedAll(fields, PersonFaults(p), PersonSlots(|people|)), PeopleFaults(people + [p]))
  {
    hide *;
    PersonSlotsAre(|people|, People);
    forall s { PeopleAndOne(people, p, s); }
    NotedAllIsExact(fields, PeopleFaults(people), PersonSlots(|people|), PeopleFaults(people + [p]));
    NotedAllSame(fields, PeopleFaults(people + [p]), PersonFaults(p), PersonSlots(|people|));
  }

  /** What `ValidateText` records for a participant's field is that slot's fault. */
  lemma TextIsFault(m: map<string, string>, i: nat, p: Participant, f: Field)
    ensures TextNoted(m, FieldPath(i, FieldName(f)), Value(p, f), Limit(f), Label(f)) ==
      Noted(m, Path(Person(i, f)), PersonFaults(p)(Person(i, f)))
  {
    SuffixSelectsNames(i, f);
  }

  lemma FieldTexts(p: Participant)
    ensures FieldName(FirstName) == "first_name" && Label(FirstName) == "First name" && Limit(FirstName) == MAX_NAME
    ensures FieldName(LastName) == "last_name" && Label(LastName) == "Last name" && Limit(LastName) == MAX_NAME
    ensures FieldName(Dietary) == "dietary_restrictions" && Label(Dietary) == "Dietary restrictions"
    ensures FieldName(Needs) == "special_needs" && Label(Needs) == "Special needs"
    ensures FieldName(Notes) == "additional_notes" && Label(Notes) == "Additional notes"
    ensures Limit(Dietary) == Limit(Needs) == Limit(Notes) == MAX_FREE_TEXT
    ensures Value(p, FirstName) == p.firstName && Value(p, LastName) == p.lastName
    ensures Value(p, Dietary) == p.dietary && Value(p, Needs) == p.needs && Value(p, Notes) == p.notes
  {}

  /** The body of the participants' loop: five checks into the shared error map. */
  method ValidateParticipant(fields: ErrorFields, index: nat, p: Participant)
    modifies fields
    ensures fields.entries == NotedAll(old(fields.entries), PersonFaults(p), PersonSlots(index))
  {
    FieldTexts(p);
    ghost var faults, slots := PersonFaults(p), PersonSlots(index);
    assert slots == [Person(index, FirstName), Person(index, LastName), Person(index, Dietary),
                     Person(index, Needs), Person(index, Notes)];
    hide *;
    NotedNext(fields.entries, faults, slots, 0);
    TextIsFault(fields.entries, index, p, FirstName);
    fields.ValidateText(FieldPath(index, "first_name"), p.firstName, MAX_NAME, "First name");
    NotedNext(fields.entries, faults, slots, 1);
    TextIsFault(fields.entries, index, p, LastName);
    fields.ValidateText(FieldPath(index, "last_name"), p.lastName, MAX_NAME, "Last name");
    NotedNext(fields.entries, faults, slots, 2);
    TextIsFault(fields.entries, index, p, Dietary);
    fields.ValidateText(FieldPath(index, "dietary_restrictions"), p.dietary, MAX_FREE_TEXT, "Dietary restrictions");
    NotedNext(fields.entries, faults, slots, 3);
    TextIsFault(fields.entries, index, p, Needs);
    fields.ValidateText(FieldPath(index, "special_needs"), p.needs, MAX_FREE_TEXT, "Special needs");
    NotedNext(fields.entries, faults, slots, 4);
    TextIsFault(fields.entries, index, p, Notes);
    fields.ValidateText(FieldPath(index, "additional_notes"), p.notes, MAX_FREE_TEXT, "Additional notes");
    NotedNext(fields.entries, faults, slots, 0);
  }

  lemma NobodyIsFaultless()
    ensures forall s :: PeopleFaults([])(s).None?
  {}

  method NormalizeParticipants(inputs: seq<Participant>) returns (participants: seq<Participant>, fields: ErrorFields)
    ensures fresh(fields) && participants == NormalPeople(inputs)
    ensures Exact(fields.entries, PeopleFaults(participants))
  {
    hide Exact, NotedAll, PersonSlots, PersonFaults, PeopleFaults, TrimSpace;
    participants := [];
    fields := new ErrorFields();
    NobodyIsFaultless();
    ExactNothing(PeopleFaults([]));
    for index := 0 to |inputs|
      invariant participants == NormalPeople(inputs)[..index] && fresh(fields)
      invariant Exact(fields.entries, PeopleFaults(participants))
    {
      var input := inputs[index];
      var participant := Participant(input.id, TrimSpace(input.firstName), TrimSpace(input.lastName),
                                     TrimSpace(input.dietary), TrimSpace(input.needs), TrimSpace(input.notes));
      PersonExtends(fields.entries, participants, participant);
      ValidateParticipant(fields, index, participant);
      participants := participants + [participant];
    }
  }

  /* ---------- the three entry points ---------- */

  /** The common faults before the participants are counted. */
  function Gathered(env: Env, locale: string, contact: Contact, people: seq<Participant>): Faults {
    (s: Slot) => if s == People then None else CommonAt(env, locale, contact, people, s)
  }

  /** Each slot is faulted by at most one of the three merged maps. */
  lemma GatheredSlot(env: Env, locale: string, contact: Contact, people: seq<Participant>, s: Slot)
    ensures Gathered(env, locale, contact, people)(s) ==
      if PeopleFaults(people)(s).Some? then PeopleFaults(people)(s)
      else if ContactFaults(env, contact)(s).Some? then ContactFaults(env, contact)(s)
      else LocaleFaults(locale)(s)
  {
    hide LocaleFault, EmailFault, PhoneFault, PersonFault, TextFault;
    match s
    case Person(_, _) =>
    case _ => assert PeopleFaults(people)(s).None?;
  }

  lemma GatheredIsExact(env: Env, locale: string, contact: Contact, people: seq<Participant>,
                        a: map<string, string>, b: map<string, string>, c: map<string, string>)
    requires Exact(a, LocaleFaults(locale)) && Exact(b, ContactFaults(env, contact)) && Exact(c, PeopleFaults(people))
    ensures Exact(a + b + c, Gathered(env, locale, contact, people))
  {
    hide *;
    var fa, fb, fc := LocaleFaults(locale), ContactFaults(env, contact), PeopleFaults(people);
    var ab: Faults := (s: Slot) => if fb(s).Some? then fb(s) else fa(s);
    MergedIsExact(a, fa, b, fb, ab);
    forall s { GatheredSlot(env, locale, contact, people, s); }
    MergedIsExact(a + b, ab, c, fc, Gathered(env, locale, contact, people));
  }

  function Basis(env: Env, r: UpdateRequest): Faults {
    Gathered(env, NormalLocale(env, r.locale), NormalContact(env, r.contact), NormalPeople(r.participants))
  }

  lemma UpdateIsExact(env: Env, r: UpdateRequest, m: map<string, string>)
    requires Exact(m, Basis(env, r))
    ensures Exact(Noted(m, Path(People), CountFault(NormalPeople(r.participants))), UpdateFaults(env, r))
  {
    hide Exact, Path, NormalLocale, NormalContact, NormalPeople, LocaleFault, ContactAt, PeopleAt, CountFault;
    NotedIsExact(m, Basis(env, r), People, UpdateFaults(env, r));
  }

  const CREATE_SLOTS := [NoticeVersion, Consent, People]

  /** A registration adds three slots to the shared ones. */
  lemma CreateSlot(env: Env, r: CreateRequest, s: Slot)
    ensures Basis(env, Visible(r))(s) == if s in CREATE_SLOTS then None else CreateFaults(env, r)(s)
  {
    hide NormalLocale, NormalContact, NormalPeople, LocaleFault, EmailFault, PhoneFault, PersonFault, TextFault,
      CountFault, NoticeFault, ConsentFault;
  }

  lemma CreateAtCases(env: Env, r: CreateRequest)
    ensures CreateFaults(env, r)(NoticeVersion) == NoticeFault(env, r.noticeVersion)
    ensures CreateFaults(env, r)(Consent) == ConsentFault(r.consent)
    ensures CreateFaults(env, r)(People) == CountFault(NormalPeople(r.participants))
  {
    hide NormalLocale, NormalContact, NormalPeople, CountFault, NoticeFault, ConsentFault;
  }

  lemma CreateIsExact(env: Env, r: CreateRequest, m: map<string, string>)
    requires Exact(m, Basis(env, Visible(r)))
    ensures Exact(NotedAll(m, CreateFaults(env, r), CREATE_SLOTS), CreateFaults(env, r))
  {
    forall s { CreateSlot(env, r, s); }
    hide Exact, Basis, CreateFaults;
    NotedAllIsExact(m, Basis(env, Visible(r)), CREATE_SLOTS, CreateFaults(env, r));
  }

  const ADMIN_SLOTS := [Status, GroupDietary, GroupNeeds, GroupNotes, SendEmail, People]

  /** The shared slots and the event: what is checked before an administrator's other slots. */
  function AdminBasis(env: Env, n: AdminRequest): Faults {
    (s: Slot) => if s in ADMIN_SLOTS then None else AdminAt(env, n, s)
  }

  lemma AdminIsExact(env: Env, n: AdminRequest, m: map<string, string>)
    requires Exact(m, AdminBasis(env, n))
    ensures Exact(NotedAll(m, AdminFaults(env, n), ADMIN_SLOTS), AdminFaults(env, n))
  {
    hide Exact, AdminAt;
    NotedAllIsExact(m, AdminBasis(env, n), ADMIN_SLOTS, AdminFaults(env, n));
  }

  method NormalizeAndValidateUpdate(env: Env, request: UpdateRequest) returns (outcome: Outcome<UpdateRequest>)
    ensures UpdateOutcome(env, request, outcome)
  {
    hide Exact, Path, Noted, CountFault, NormalLocale, NormalContact, NormalParticipant, UpdateFaults, Gathered,
      LocaleFaults, ContactFaults, PeopleFaults, TrimSpace, UpdateAt;
    var locale, fields := NormalizeLocale(env, request.locale);
    ghost var a := fields.entries;
    var contact, contactFields := NormalizeContact(env, request.contact);
    ghost var b := contactFields.entries;
    fields.Merge(contactFields);
    var participants, participantFields := NormalizeParticipants(request.participants);
    GatheredIsExact(env, locale, contact, participants, a, b, participantFields.entries);
    fields.Merge(participantFields);
    UpdateIsExact(env, request, fields.entries);
    ValidateCount(fields, participants);
    if |participants| > MAX_PARTICIPANTS {
      return Rejected(GroupLimitExceeded, map["participants" := "Too many participants"]);
    }
    ExactEmpty(fields.entries, UpdateFaults(env, request));
    if |fields.entries| > 0 {
      return Rejected(Validation, fields.entries);
    }
    outcome := Accepted(UpdateRequest(locale, contact, participants));
  }

  lemma PathTexts()
    ensures Path(People) == "participants" && Path(NoticeVersion) == "privacy_notice_version"
    ensures Path(Consent) == "privacy_consent" && Path(EventId) == "event_id" && Path(Status) == "status"
    ensures Path(GroupDietary) == "dietary_restrictions" && Path(GroupNeeds) == "special_needs"
    ensures Path(GroupNotes) == "additional_notes" && Path(SendEmail) == "send_email"
  {}

  method ValidateNotice(fields: ErrorFields, env: Env, version: string)
    modifies fields
    ensures fields.entries == Noted(old(fields.entries), Path(NoticeVersion), NoticeFault(env, version))
  {
    hide CurrentNoticeVersion, TrimSpace;
    if TrimSpace(version) == "" {
      fields.Put("privacy_notice_version", "Privacy notice version is required");
    } else if |version| > MAX_NOTICE_VERSION {
      fields.Put("privacy_notice_version", "Privacy notice version is too long");
    } else if TrimSpace(version) != CurrentNoticeVersion(env) {
      fields.Put("privacy_notice_version", "Privacy notice version is not current");
    }
  }

  method ValidateConsent(fields: ErrorFields, consent: bool)
    modifies fields
    ensures fields.entries == Noted(old(fields.entries), Path(Consent), ConsentFault(consent))
  {
    if !consent {
      fields.Put("privacy_consent", "Privacy consent is required");
    }
  }

  method ValidateCount(fields: ErrorFields, people: seq<Participant>)
    modifies fields
    ensures fields.entries == Noted(old(fields.entries), Path(People), CountFault(people))
  {
    if |people| < 1 {
      fields.Put("participants", "At least one participant is required");
    }
  }

  /** The three checks of a registration that come after the shared ones. */
  method ValidateRegistration(fields: ErrorFields, env: Env, request: CreateRequest, people: seq<Participant>)
    requires people == NormalPeople(request.participants)
    modifies fields
    ensures fields.entries == NotedAll(old(fields.entries), CreateFaults(env, request), CREATE_SLOTS)
  {
    hide NotedAll, Noted, Path, CreateFaults, NoticeFault, ConsentFault, CountFault, NormalPeople;
    ghost var faults := CreateFaults(env, request);
    CreateAtCases(env, request);
    hide Visible;
    NotedNext(fields.entries, faults, CREATE_SLOTS, 0);
    ValidateNotice(fields, env, request.noticeVersion);
    NotedNext(fields.entries, faults, CREATE_SLOTS, 1);
    ValidateConsent(fields, request.consent);
    NotedNext(fields.entries, faults, CREATE_SLOTS, 2);
    ValidateCount(fields, people);
    NotedNext(fields.entries, faults, CREATE_SLOTS, 0);
  }

  method NormalizeAndValidateCreate(env: Env, request: CreateRequest) returns (outcome: Outcome<CreateInput>)
    ensures CreateOutcome(env, request, outcome)
  {
    PathTexts();
    hide Exact, Path, NormalLocale, NormalContact, NormalParticipant, CreateFaults, Gathered,
      LocaleFaults, ContactFaults, PeopleFaults, NoticeFault, ConsentFault, TrimSpace, NotedAll;
    var locale, fields := NormalizeLocale(env, request.locale);
    ghost var a := fields.entries;
    var contact, contactFields := NormalizeContact(env, request.contact);
    ghost var b := contactFields.entries;
    fields.Merge(contactFields);
    var participants, participantFields := NormalizeParticipants(request.participants);
    GatheredIsExact(env, locale, contact, participants, a, b, participantFields.entries);
    fields.Merge(participantFields);
    CreateIsExact(env, request, fields.entries);
    ValidateRegistration(fields, env, request, participants);
    if |participants| > MAX_PARTICIPANTS {
      return Rejected(GroupLimitExceeded, map["participants" := "Too many participants"]);
    }
    ExactEmpty(fields.entries, CreateFaults(env, request));
    if |fields.entries| > 0 {
      return Rejected(Validation, fields.entries);
    }
    outcome := Accepted(CreateInput(locale, contact, participants, TrimSpace(request.noticeVersion)));
  }

  function EventFaults(id: int): Faults {
    (s: Slot) => if s == EventId then EventFault(id) else None
  }

  lemma EventFaultsExact(id: int)
    ensures Exact(Noted(map[], Path(EventId), EventFault(id)), EventFaults(id))
  {
    hide Path;
    NotedIsExact(map[], (s: Slot) => None, EventId, EventFaults(id));
  }

  predicate IsOwn(s: Slot) {
    s in {EventId, Status, GroupDietary, GroupNeeds, GroupNotes, SendEmail}
  }

  lemma AdminSlotsAre(s: Slot)
    ensures s in ADMIN_SLOTS <==> s == People || (IsOwn(s) && s != EventId)
  {
    assert ADMIN_SLOTS[0] == Status && ADMIN_SLOTS[1] == GroupDietary && ADMIN_SLOTS[2] == GroupNeeds
      && ADMIN_SLOTS[3] == GroupNotes && ADMIN_SLOTS[4] == SendEmail && ADMIN_SLOTS[5] == People;
  }

  lemma CommonSlots(env: Env, locale: string, contact: Contact, people: seq<Participant>, s: Slot)
    ensures IsOwn(s) ==> CommonAt(env, locale, contact, people, s).None?
  {}

  lemma AdminSlot(env: Env, n: AdminRequest, s: Slot)
    ensures var common := Gathered(env, n.locale, n.contact, n.participants)(s);
      AdminBasis(env, n)(s) == if common.Some? then common else EventFaults(n.eventId)(s)
  {
    AdminSlotsAre(s);
    CommonSlots(env, n.locale, n.contact, n.participants, s);
    hide CommonAt, LocaleFault, EmailFault, PhoneFault, PersonFault, TextFault, CountFault, StatusFault,
         SendEmailFault, EventFault, ADMIN_SLOTS;
  }

  lemma MergeAssociates(e: map<string, string>, a: map<string, string>, b: map<string, string>, c: map<string, string>)
    ensures e + a + b + c == e + (a + b + c)
  {}

  lemma AdminMerged(env: Env, n: AdminRequest, e: map<string, string>,
                    a: map<string, string>, b: map<string, string>, c: map<string, string>)
    requires Exact(e, EventFaults(n.eventId)) && Exact(a, LocaleFaults(n.locale))
    requires Exact(b, ContactFaults(env, n.contact)) && Exact(c, PeopleFaults(n.participants))
    ensures Exact(e + a + b + c, AdminBasis(env, n))
  {
    hide *;
    GatheredIsExact(env, n.locale, n.contact, n.participants, a, b, c);
    forall s { AdminSlot(env, n, s); }
    MergedIsExact(e, EventFaults(n.eventId), a + b + c, Gathered(env, n.locale, n.contact, n.participants),
                  AdminBasis(env, n));
    MergeAssociates(e, a, b, c);
  }

  lemma AdminAtCases(env: Env, n: AdminRequest)
    ensures var faults := AdminFaults(env, n);
      && faults(Status) == StatusFault(n.status)
      && faults(GroupDietary) == TextFault(false, n.dietary, MAX_FREE_TEXT, "Dietary restrictions")
      && faults(GroupNeeds) == TextFault(false, n.needs, MAX_FREE_TEXT, "Special needs")
      && faults(GroupNotes) == TextFault(false, n.notes, MAX_FREE_TEXT, "Additional notes")
      && faults(SendEmail) == SendEmailFault(n.sendEmail, n.contact.email)
      && faults(People) == CountFault(n.participants)
  {
    hide StatusFault, TextFault, SendEmailFault, CountFault;
  }

  /** The second half of an administrator's checks, after the shared ones. */
  method ValidateAdmin(fields: ErrorFields, env: Env, n: AdminRequest)
    modifies fields
    ensures fields.entries == NotedAll(old(fields.entries), AdminFaults(env, n), ADMIN_SLOTS)
  {
    hide AdminFaults, NotedAll, Noted, Path, TextFault, StatusFault, SendEmailFault, CountFault;
    ghost var faults := AdminFaults(env, n);
    PathTexts();
    AdminAtCases(env, n);
    NotedNext(fields.entries, faults, ADMIN_SLOTS, 0);
    ValidateStatus(fields, n.status);
    NotedNext(fields.entries, faults, ADMIN_SLOTS, 1);
    fields.LimitFreeText("dietary_restrictions", n.dietary, "Dietary restrictions");
    NotedNext(fields.entries, faults, ADMIN_SLOTS, 2);
    fields.LimitFreeText("special_needs", n.needs, "Special needs");
    NotedNext(fields.entries, faults, ADMIN_SLOTS, 3);
    fields.LimitFreeText("additional_notes", n.notes, "Additional notes");
    NotedNext(fields.entries, faults, ADMIN_SLOTS, 4);
    ValidateDelivery(fields, n);
    NotedNext(fields.entries, faults, ADMIN_SLOTS, 5);
    ValidateCount(fields, n.participants);
    NotedNext(fields.entries, faults, ADMIN_SLOTS, 0);
  }

  method ValidateStatus(fields: ErrorFields, status: string)
    modifies fields
    ensures fields.entries == Noted(old(fields.entries), Path(Status), StatusFault(status))
  {
    if status != "pending" && status != "confirmed" && status != "attended" && status != "cancelled" {
      fields.Put("status", "Status must be pending, confirmed, attended, or cancelled");
    }
  }

  method ValidateDelivery(fields: ErrorFields, n: AdminRequest)
    modifies fields
    ensures fields.entries == Noted(old(fields.entries), Path(SendEmail), SendEmailFault(n.sendEmail, n.contact.email))
  {
    if n.sendEmail && n.contact.email == "" {
      fields.Put("send_email", "Email is required when sending email notification");
    }
  }

  /** Everything before the group limit: the normal form and its error map. */
  method GatherAdmin(env: Env, request: AdminRequest) returns (n: AdminRequest, fields: ErrorFields)
    ensures fresh(fields) && n == NormalAdmin(env, request)
    ensures Exact(fields.entries, AdminFaults(env, n))
  {
    PathTexts();
    hide Exact, Path, NormalLocale, NormalContact, NormalParticipant, AdminFaults, Gathered,
      LocaleFaults, ContactFaults, PeopleFaults, TrimSpace, NotedAll, AdminBasis, AdminAt;
    fields := new ErrorFields();
    if request.eventId <= 0 {
      fields.Put("event_id", "Event ID is required");
    }
    EventFaultsExact(request.eventId);
    ghost var e := fields.entries;
    assert e == Noted(map[], Path(EventId), EventFault(request.eventId));
    hide EventFaults, Noted;
    var locale, localeFields := NormalizeLocale(env, request.locale);
    fields.Merge(localeFields);
    var contact, contactFields := NormalizeContact(env, request.contact);
    fields.Merge(contactFields);
    var participants, participantFields := NormalizeParticipants(request.participants);
    fields.Merge(participantFields);
    var status := Lowered(env.lower, TrimSpace(request.status));
    if status == "" {
      status := "confirmed";
    }
    n := AdminRequest(request.eventId, locale, status, contact, participants, TrimSpace(request.dietary),
                      TrimSpace(request.needs), TrimSpace(request.notes), request.sendEmail);
    AdminMerged(env, n, e, localeFields.entries, contactFields.entries, participantFields.entries);
    AdminIsExact(env, n, fields.entries);
    ValidateAdmin(fields, env, n);
  }

  method NormalizeAndValidateAdminCreate(env: Env, request: AdminRequest) returns (outcome: Outcome<AdminRequest>)
    ensures AdminOutcome(env, request, outcome)
  {
    hide Exact, NormalLocale, NormalStatus, NormalContact, NormalParticipant, AdminFaults;
    var n, fields := GatherAdmin(env, request);
    if |n.participants| > MAX_PARTICIPANTS {
      return Rejected(GroupLimitExceeded, map["participants" := "Too many participants"]);
    }
    ExactEmpty(fields.entries, AdminFaults(env, n));
    if |fields.entries| > 0 {
      return Rejected(Validation, fields.entries);
    }
    outcome := Accepted(n);
  }

  /* ---------- the error map is exact ---------- */

  /** What an outcome says about its request: the group limit wins, acceptance means no fault at all,
      and otherwise the keys are the paths of the faulty slots, neither more nor fewer. */
  lemma OutcomeIsExact<T>(outcome: Outcome<T>, faults: Faults, people: seq<Participant>, input: T)
    requires Decided(outcome, faults, people, input)
    ensures outcome == Rejected(GroupLimitExceeded, TOO_MANY) <==> |people| > MAX_PARTICIPANTS
    ensures outcome.Accepted? <==> |people| <= MAX_PARTICIPANTS && forall s :: faults(s).None?
    ensures outcome.Rejected? && outcome.code == Validation ==>
      && outcome.fields != map[]
      && (forall s :: Path(s) in outcome.fields <==> faults(s).Some?)
      && (forall s :: faults(s).Some? ==> outcome.fields[Path(s)] == faults(s).value)
      && (forall k :: k in outcome.fields ==> exists s :: Path(s) == k && faults(s).Some?)
  {
    hide Path;
    if outcome.Rejected? && outcome.code == Validation {
      forall s { ExactKeys(outcome.fields, faults, s); }
      ExactEmpty(outcome.fields, faults);
    }
  }

  /** With at most ten participants, a participant's key is present if and only if that participant exists
      and the trimmed text is a missing name or too long. */
  lemma ParticipantKeys(env: Env, r: UpdateRequest, outcome: Outcome<UpdateRequest>, i: nat, f: Field)
    requires UpdateOutcome(env, r, outcome) && outcome.Rejected? && |r.participants| <= MAX_PARTICIPANTS
    ensures FieldPath(i, FieldName(f)) in outcome.fields <==>
      && i < |r.participants|
      && var text := TrimSpace(Value(r.participants[i], f));
         (text == "" && f in {FirstName, LastName}) || |text| > Limit(f)
  {
    hide Exact, NormalLocale, NormalContact, EndsLikeName, FieldPath, TrimSpace, FieldName, Label;
    ExactKeys(outcome.fields, UpdateFaults(env, r), Person(i, f));
    assert FieldPath(i, FieldName(f)) == Path(Person(i, f));
    if i < |r.participants| {
      var p := r.participants[i];
      assert NormalPeople(r.participants)[i] == NormalParticipant(p);
      assert Value(NormalParticipant(p), f) == TrimSpace(Value(p, f));
    }
  }

  /** A contact's keys are present if and only if the trimmed name is missing or too long, the lower-cased
      address is missing, too long or not an address, or the phone number is too long. */
  lemma ContactKeys(env: Env, r: UpdateRequest, outcome: Outcome<UpdateRequest>)
    requires UpdateOutcome(env, r, outcome) && outcome.Rejected? && |r.participants| <= MAX_PARTICIPANTS
    ensures var first, last := TrimSpace(r.contact.firstName), TrimSpace(r.contact.lastName);
      && ("contact.first_name" in outcome.fields <==> first == "" || |first| > MAX_NAME)
      && ("contact.last_name" in outcome.fields <==> last == "" || |last| > MAX_NAME)
    ensures var email := Lowered(env.lower, TrimSpace(r.contact.email));
      "contact.email" in outcome.fields <==> email == "" || |email| > MAX_EMAIL || !env.isAddress(email)
    ensures "contact.phone" in outcome.fields <==> |TrimSpace(r.contact.phone)| > MAX_PHONE
  {
    hide Exact, NormalLocale, NormalPeople, TrimSpace, Lowered;
    var faults := UpdateFaults(env, r);
    ExactKeys(outcome.fields, faults, ContactFirst);
    ExactKeys(outcome.fields, faults, ContactLast);
    ExactKeys(outcome.fields, faults, Email);
    ExactKeys(outcome.fields, faults, Phone);
  }

  /** The send-email check never rejects a request on its own. */
  lemma SendEmailNeverAlone(env: Env, n: AdminRequest)
    requires AdminFaults(env, n)(SendEmail).Some?
    ensures AdminFaults(env, n)(Email).Some?
  {}

  /* ---------- normalisation is a fixpoint ---------- */

  /** What the proofs need of `unicode.ToLower`. */
  ghost predicate Lowering(lower: char -> char) {
    && (forall c :: lower(lower(c)) == lower(c))
    && (forall c :: !IsSpace(c) ==> !IsSpace(lower(c)))
    && (forall c :: 'a' <= c <= 'z' ==> lower(c) == c)
  }

  lemma LoweredIsFixed(env: Env, s: string)
    requires Lowering(env.lower)
    ensures var t := Lowered(env.lower, TrimSpace(s)); Lowered(env.lower, TrimSpace(t)) == t
  {
    hide *;
    TrimSpaceIsTrimmed(s);
    LoweredStaysTrimmed(env, TrimSpace(s));
    TrimSpaceIsTrimmed(Lowered(env.lower, TrimSpace(s)));
  }

  lemma LoweredStaysTrimmed(env: Env, s: string)
    requires Lowering(env.lower) && Trimmed(s)
    ensures Trimmed(Lowered(env.lower, s)) && Lowered(env.lower, Lowered(env.lower, s)) == Lowered(env.lower, s)
  {
    hide IsSpace;
  }

  lemma LowerLettersAreFixed(env: Env, s: string)
    requires Lowering(env.lower) && s != "" && forall i :: 0 <= i < |s| ==> 'a' <= s[i] <= 'z'
    ensures Lowered(env.lower, TrimSpace(s)) == s
  {
    TrimSpaceIsTrimmed(s);
  }

  lemma NormalLocaleIsFixed(env: Env, s: string)
    requires Lowering(env.lower)
    ensures NormalLocale(env, NormalLocale(env, s)) == NormalLocale(env, s)
  {
    hide TrimSpace, Lowered, Lowering;
    LoweredIsFixed(env, s);
    LowerLettersAreFixed(env, "th");
  }

  lemma NormalStatusIsFixed(env: Env, s: string)
    requires Lowering(env.lower)
    ensures NormalStatus(env, NormalStatus(env, s)) == NormalStatus(env, s)
  {
    hide TrimSpace, Lowered, Lowering;
    LoweredIsFixed(env, s);
    LowerLettersAreFixed(env, "confirmed");
  }

  lemma TrimmedIsFixed(s: string)
    ensures TrimSpace(TrimSpace(s)) == TrimSpace(s)
  {
    TrimSpaceIsTrimmed(s);
    TrimSpaceIsTrimmed(TrimSpace(s));
  }

  lemma NormalContactIsFixed(env: Env, c: Contact)
    requires Lowering(env.lower)
    ensures NormalContact(env, NormalContact(env, c)) == NormalContact(env, c)
  {
    hide TrimSpace, Lowered, Lowering;
    TrimmedIsFixed(c.firstName);
    TrimmedIsFixed(c.lastName);
    TrimmedIsFixed(c.phone);
    LoweredIsFixed(env, c.email);
  }

  /** Trimming a person's texts twice changes nothing more; the identifier is never touched. */
  lemma NormalParticipantIsFixed(p: Participant)
    ensures NormalParticipant(NormalParticipant(p)) == NormalParticipant(p) && NormalParticipant(p).id == p.id
  {
    hide TrimSpace;
    TrimmedIsFixed(p.firstName);
    TrimmedIsFixed(p.lastName);
    TrimmedIsFixed(p.dietary);
    TrimmedIsFixed(p.needs);
    TrimmedIsFixed(p.notes);
  }

  lemma NormalPeopleIsFixed(people: seq<Participant>)
    ensures NormalPeople(NormalPeople(people)) == NormalPeople(people)
  {
    hide NormalParticipant;
    forall i | 0 <= i < |people|
      ensures NormalPeople(NormalPeople(people))[i] == NormalPeople(people)[i]
    {
      NormalParticipantIsFixed(people[i]);
    }
  }

  /** The same participants, in the same order. */
  ghost predicate SamePeople(before: seq<Participant>, after: seq<Participant>) {
    |after| == |before| && forall i :: 0 <= i < |after| ==> after[i].id == before[i].id
  }

  lemma NormalPeopleKeepsIds(people: seq<Participant>)
    ensures SamePeople(people, NormalPeople(people))
  {}

  /** Feeding an accepted update back yields the same update. */
  lemma UpdateIsFixpoint(env: Env, r: UpdateRequest, x: UpdateRequest)
    requires Lowering(env.lower) && UpdateOutcome(env, r, Accepted(x))
    ensures UpdateOutcome(env, x, Accepted(x)) && SamePeople(r.participants, x.participants)
  {
    hide NormalLocale, NormalContact, NormalPeople, CommonAt, Lowering, Exact;
    NormalLocaleIsFixed(env, r.locale);
    NormalContactIsFixed(env, r.contact);
    NormalPeopleIsFixed(r.participants);
    NormalPeopleKeepsIds(r.participants);
    assert UpdateInput(env, x) == x;
    forall s ensures UpdateFaults(env, x)(s) == UpdateFaults(env, r)(s) {}
  }

  lemma TrimSpaceShortens(s: string)
    ensures |TrimSpace(s)| <= |s|
  {
    TrimLeftShortens(s);
    TrimRightShortens(TrimLeft(s));
  }

  lemma {:induction false} TrimLeftShortens(s: string)
    ensures |TrimLeft(s)| <= |s|
  {
    if s != [] && IsSpace(s[0]) { TrimLeftShortens(s[1..]); }
  }

  lemma {:induction false} TrimRightShortens(s: string)
    ensures |TrimRight(s)| <= |s|
  {
    if s != [] && IsSpace(s[|s| - 1]) { TrimRightShortens(s[..|s| - 1]); }
  }

  /** What a client sends to repeat an accepted registration. */
  function Repeated(x: CreateInput): CreateRequest {
    CreateRequest(x.locale, x.contact, x.participants, x.noticeVersion, true)
  }

  lemma NoticeIsFixed(env: Env, version: string)
    requires NoticeFault(env, version).None?
    ensures NoticeFault(env, TrimSpace(version)).None? && TrimSpace(TrimSpace(version)) == TrimSpace(version)
  {
    TrimmedIsFixed(version);
    TrimSpaceShortens(version);
  }

  /** Feeding an accepted registration back, with consent, yields the same registration. */
  lemma CreateIsFixpoint(env: Env, r: CreateRequest, x: CreateInput)
    requires Lowering(env.lower) && CreateOutcome(env, r, Accepted(x))
    ensures CreateOutcome(env, Repeated(x), Accepted(x)) && SamePeople(r.participants, x.participants)
  {
    hide NormalLocale, NormalContact, NormalPeople, CommonAt, Lowering, Exact, NoticeFault, TrimSpace;
    NormalLocaleIsFixed(env, r.locale);
    NormalContactIsFixed(env, r.contact);
    NormalPeopleIsFixed(r.participants);
    NormalPeopleKeepsIds(r.participants);
    assert CreateFaults(env, r)(NoticeVersion).None?;
    NoticeIsFixed(env, r.noticeVersion);
    assert CreateResult(env, Repeated(x)) == x;
    forall s ensures CreateFaults(env, Repeated(x))(s).None? {
      assert CreateFaults(env, r)(s).None?;
    }
  }

  /** Feeding an administrator's accepted registration back yields the same registration. */
  lemma AdminIsFixpoint(env: Env, r: AdminRequest, x: AdminRequest)
    requires Lowering(env.lower) && AdminOutcome(env, r, Accepted(x))
    ensures AdminOutcome(env, x, Accepted(x)) && SamePeople(r.participants, x.participants)
  {
    hide NormalLocale, NormalStatus, NormalContact, NormalPeople, AdminAt, Lowering, Exact, TrimSpace;
    NormalLocaleIsFixed(env, r.locale);
    NormalStatusIsFixed(env, r.status);
    NormalContactIsFixed(env, r.contact);
    NormalPeopleIsFixed(r.participants);
    NormalPeopleKeepsIds(r.participants);
    TrimmedIsFixed(r.dietary);
    TrimmedIsFixed(r.needs);
    TrimmedIsFixed(r.notes);
    assert NormalAdmin(env, x) == x;
  }

  /* ---------- the three entry points agree ---------- */

  /** The notice and the consent are the only slots a registration adds to an update. */
  lemma CreateFaultCases(env: Env, r: CreateRequest, s: Slot)
    ensures var uf := UpdateFaults(env, Visible(r))(s);
      CreateFaults(env, r)(s) == match s
        case NoticeVersion => NoticeFault(env, r.noticeVersion)
        case Consent => ConsentFault(r.consent)
        case _ => uf
    ensures s in {NoticeVersion, Consent} ==> UpdateFaults(env, Visible(r))(s).None?
  {
    hide NormalLocale, NormalContact, NormalPeople, NoticeFault, ConsentFault;
  }

  /** A registration is accepted exactly when its visible part would be accepted as an update and the
      notice is current and agreed to, and the results agree. */
  lemma CreateAgreesWithUpdate(env: Env, r: CreateRequest, created: Outcome<CreateInput>,
                               updated: Outcome<UpdateRequest>)
    requires CreateOutcome(env, r, created) && UpdateOutcome(env, Visible(r), updated)
    ensures created.Accepted? <==> updated.Accepted? && NoticeFault(env, r.noticeVersion).None? && r.consent
    ensures created.Accepted? ==>
      UpdateRequest(created.input.locale, created.input.contact, created.input.participants) == updated.input
  {
    hide NormalLocale, NormalContact, NormalPeople, NoticeFault, TrimSpace, UpdateAt, CreateAt, Exact;
    forall s { CreateFaultCases(env, r, s); }
    CreateFaultCases(env, r, NoticeVersion);
    CreateFaultCases(env, r, Consent);
    if forall s :: CreateFaults(env, r)(s).None? {
      assert CreateFaults(env, r)(NoticeVersion).None? && CreateFaults(env, r)(Consent).None?;
      forall s ensures UpdateFaults(env, Visible(r))(s).None? {
        assert CreateFaults(env, r)(s).None?;
      }
    }
  }

  /** Every error an update would report, a registration reports too, with the same message. */
  lemma CreateReportsUpdateErrors(env: Env, r: CreateRequest, created: Outcome<CreateInput>,
                                  updated: Outcome<UpdateRequest>)
    requires CreateOutcome(env, r, created) && UpdateOutcome(env, Visible(r), updated) && updated.Rejected?
    ensures created.Rejected? && created.code == updated.code
    ensures forall k :: k in updated.fields ==> k in created.fields && created.fields[k] == updated.fields[k]
  {
    hide NormalLocale, NormalContact, NormalPeople, TrimSpace, UpdateAt, CreateAt, Path;
    var uf, cf := UpdateFaults(env, Visible(r)), CreateFaults(env, r);
    if |r.participants| <= MAX_PARTICIPANTS {
      var s :| uf(s).Some?;
      CreateFaultCases(env, r, s);
      forall k | k in updated.fields
        ensures k in created.fields && created.fields[k] == updated.fields[k]
      {
        var t :| Path(t) == k && uf(t).Some?;
        CreateFaultCases(env, r, t);
        assert cf(t) == uf(t);
      }
    }
  }

  lemma OwnFaults(env: Env, n: AdminRequest)
    ensures var af := AdminFaults(env, n);
      && (af(EventId).None? <==> n.eventId > 0) && af(Status) == StatusFault(n.status)
      && (af(GroupDietary).None? <==> |n.dietary| <= MAX_FREE_TEXT)
      && (af(GroupNeeds).None? <==> |n.needs| <= MAX_FREE_TEXT)
      && (af(GroupNotes).None? <==> |n.notes| <= MAX_FREE_TEXT)
  {
    hide StatusFault;
  }

  /** An administrator's request is accepted exactly when the same people, contact and locale would be
      accepted as an update and five of the six fields of its own are in order; the sixth never matters. */
  lemma AdminAgreesWithUpdate(env: Env, r: AdminRequest, added: Outcome<AdminRequest>, updated: Outcome<UpdateRequest>)
    requires AdminOutcome(env, r, added)
    requires UpdateOutcome(env, UpdateRequest(r.locale, r.contact, r.participants), updated)
    ensures added.Accepted? <==>
      && updated.Accepted? && r.eventId > 0 && StatusFault(NormalStatus(env, r.status)).None?
      && |TrimSpace(r.dietary)| <= MAX_FREE_TEXT && |TrimSpace(r.needs)| <= MAX_FREE_TEXT
      && |TrimSpace(r.notes)| <= MAX_FREE_TEXT
    ensures added.Accepted? ==>
      UpdateRequest(added.input.locale, added.input.contact, added.input.participants) == updated.input
  {
    hide NormalLocale, NormalStatus, NormalContact, NormalPeople, TrimSpace, StatusFault, Exact, Path, AdminAt,
         CommonAt;
    var n := NormalAdmin(env, r);
    var u := UpdateRequest(r.locale, r.contact, r.participants);
    var af, uf := AdminFaults(env, n), UpdateFaults(env, u);
    OwnFaults(env, n);
    forall s { AdminFaultCases(env, n, s); }
    forall s { CommonSlots(env, NormalLocale(env, u.locale), NormalContact(env, u.contact),
                           NormalPeople(u.participants), s); }
    if forall s :: af(s).None? {
      forall s ensures uf(s).None? { assert af(s).None?; }
    }
    if updated.Accepted? {
      assert uf(Email).None? && af(Email).None?;
      if af(SendEmail).Some? { SendEmailNeverAlone(env, n); }
      forall s | !IsOwn(s) ensures af(s).None? { assert uf(s).None?; }
    }
  }

  lemma AdminFaultCases(env: Env, n: AdminRequest, s: Slot)
    ensures !IsOwn(s) ==> AdminFaults(env, n)(s) == CommonAt(env, n.locale, n.contact, n.participants, s)
  {
    hide CommonAt;
  }

  /** An accepted update holds one to ten people with proper names, a supported locale and an address
      the mail parser takes. */
  lemma AcceptedIsClean(env: Env, r: UpdateRequest, x: UpdateRequest)
    requires UpdateOutcome(env, r, Accepted(x))
    ensures 1 <= |x.participants| <= MAX_PARTICIPANTS && x.locale in {"th", "en", "de"}
    ensures x.contact.firstName != "" && x.contact.lastName != "" && env.isAddress(x.contact.email)
    ensures |x.contact.firstName| <= MAX_NAME && |x.contact.lastName| <= MAX_NAME
    ensures |x.contact.email| <= MAX_EMAIL && |x.contact.phone| <= MAX_PHONE
    ensures forall p, f :: p in x.participants ==>
      Trimmed(Value(p, f)) && |Value(p, f)| <= Limit(f) && (f in {FirstName, LastName} ==> Value(p, f) != "")
  {
    hide NormalLocale, NormalContact, NormalParticipant, Label, TrimSpace, Exact, Path;
    var uf := UpdateFaults(env, r);
    assert uf(Locale).None? && uf(People).None? && uf(ContactFirst).None? && uf(ContactLast).None?;
    assert uf(Email).None? && uf(Phone).None?;
    forall p, f | p in x.participants
      ensures Trimmed(Value(p, f)) && |Value(p, f)| <= Limit(f) && (f in {FirstName, LastName} ==> Value(p, f) != "")
    {
      var i :| 0 <= i < |x.participants| && x.participants[i] == p;
      assert uf(Person(i, f)).None?;
      NormalParticipantIsTrimmed(r.participants[i], f);
    }
  }

  lemma NormalParticipantIsTrimmed(p: Participant, f: Field)
    ensures Trimmed(Value(NormalParticipant(p), f))
  {
    hide TrimSpace;
    TrimSpaceIsTrimmed(Value(p, f));
  }
}
