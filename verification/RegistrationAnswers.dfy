/** What the registration entry points answer, in the terms of a request. */
module RegistrationAnswers {
  import opened GoStrings
  import opened Registrations

  /* Every key and message of the error map, and every field of what is accepted
     (backend/internal/registrations/policy.go). */

  /* ---------- what an accepted request holds ---------- */

  predicate LocaleKept(env: Env, given: string, kept: string) {
    if TrimSpace(given) == "" then kept == "th" else kept == Lowered(env.lower, TrimSpace(given))
  }

  predicate ContactKept(env: Env, given: Contact, kept: Contact) {
    && kept.firstName == TrimSpace(given.firstName) && kept.lastName == TrimSpace(given.lastName)
    && kept.email == Lowered(env.lower, TrimSpace(given.email)) && kept.phone == TrimSpace(given.phone)
  }

  predicate PersonKept(given: Participant, kept: Participant) {
    && kept.id == given.id
    && kept.firstName == TrimSpace(given.firstName) && kept.lastName == TrimSpace(given.lastName)
    && kept.dietary == TrimSpace(given.dietary) && kept.needs == TrimSpace(given.needs)
    && kept.notes == TrimSpace(given.notes)
  }

  predicate PeopleKept(given: seq<Participant>, kept: seq<Participant>) {
    |kept| == |given| && forall i :: 0 <= i < |given| ==> PersonKept(given[i], kept[i])
  }

  predicate StatusKept(env: Env, given: string, kept: string) {
    if TrimSpace(given) == "" then kept == "confirmed" else kept == Lowered(env.lower, TrimSpace(given))
  }

  /* ---------- what each key reports ---------- */

  /** The key is there if and only if there is something to say, and says it. */
  predicate Says(fields: map<string, string>, key: string, message: Option<string>) {
    (key in fields <==> message.Some?) && (message.Some? ==> fields[key] == message.value)
  }

  function LocaleMessage(env: Env, given: string): Option<string> {
    if Lowered(env.lower, TrimSpace(given)) in {"", "th", "en", "de"} then None
    else Some("Locale must be th, en, or de")
  }

  function NameMessage(given: string, title: string): Option<string> {
    if TrimSpace(given) == "" then Some(title + " is required") else LengthMessage(given, 100, title)
  }

  function LengthMessage(given: string, limit: nat, title: string): Option<string> {
    if |TrimSpace(given)| > limit then Some(title + " is too long") else None
  }

  function EmailMessage(env: Env, given: string): Option<string> {
    var email := Lowered(env.lower, TrimSpace(given));
    if email == "" then Some("Email is required")
    else if |email| > 255 then Some("Email is too long")
    else if env.isAddress(email) then None
    else Some("Email is invalid")
  }

  function StatusMessage(env: Env, given: string): Option<string> {
    if Lowered(env.lower, TrimSpace(given)) in {"", "pending", "confirmed", "attended", "cancelled"} then None
    else Some("Status must be pending, confirmed, attended, or cancelled")
  }

  function NoticeMessage(env: Env, given: string): Option<string> {
    var current := if TrimSpace(env.noticeSetting) == "" then "2026-08" else TrimSpace(env.noticeSetting);
    if TrimSpace(given) == "" then Some("Privacy notice version is required")
    else if |given| > 50 then Some("Privacy notice version is too long")
    else if TrimSpace(given) == current then None
    else Some("Privacy notice version is not current")
  }

  predicate PersonSays(fields: map<string, string>, at: string, p: Participant) {
    && Says(fields, at + "first_name", NameMessage(p.firstName, "First name"))
    && Says(fields, at + "last_name", NameMessage(p.lastName, "Last name"))
    && Says(fields, at + "dietary_restrictions", LengthMessage(p.dietary, 2000, "Dietary restrictions"))
    && Says(fields, at + "special_needs", LengthMessage(p.needs, 2000, "Special needs"))
    && Says(fields, at + "additional_notes", LengthMessage(p.notes, 2000, "Additional notes"))
  }

  /** The keys of the `i`-th participant begin so. */
  function PersonPrefix(i: nat): string {
    "participants." + Itoa(i) + "."
  }

  /** The reports every kind of request has in common. */
  predicate CommonSays(env: Env, r: UpdateRequest, fields: map<string, string>) {
    && Says(fields, "locale", LocaleMessage(env, r.locale))
    && Says(fields, "contact.first_name", NameMessage(r.contact.firstName, "First name"))
    && Says(fields, "contact.last_name", NameMessage(r.contact.lastName, "Last name"))
    && Says(fields, "contact.email", EmailMessage(env, r.contact.email))
    && Says(fields, "contact.phone", LengthMessage(r.contact.phone, 20, "Phone"))
    && Says(fields, "participants",
            if r.participants == [] then Some("At least one participant is required") else None)
    && forall i :: 0 <= i < |r.participants| ==> PersonSays(fields, PersonPrefix(i), r.participants[i])
  }

  const COMMON_KEYS := {"locale", "contact.first_name", "contact.last_name", "contact.email", "contact.phone",
                        "participants"}

  const PERSON_KEYS := {"first_name", "last_name", "dietary_restrictions", "special_needs", "additional_notes"}

  predicate IsPersonKey(count: nat, key: string) {
    exists i, name :: 0 <= i < count && name in PERSON_KEYS && key == PersonPrefix(i) + name
  }

  /** No other key is there. */
  predicate OnlyKeys(fields: map<string, string>, own: set<string>, count: nat) {
    forall key :: key in fields ==> key in COMMON_KEYS || key in own || IsPersonKey(count, key)
  }

  function Errors<T>(outcome: Outcome<T>): map<string, string> {
    if outcome.Accepted? then map[] else outcome.fields
  }

  /** The frame of every answer: over ten participants nothing else counts; otherwise acceptance means that
      there is nothing to report. */
  ghost predicate Framed<T>(outcome: Outcome<T>, people: seq<Participant>) {
    if |people| > 10 then outcome == Rejected(GroupLimitExceeded, map["participants" := "Too many participants"])
    else (outcome.Accepted? <==> Errors(outcome) == map[]) && (outcome.Rejected? ==> outcome.code == Validation)
  }

  /* ---------- from slots to keys ---------- */

  lemma DecidedErrors<T>(outcome: Outcome<T>, faults: Faults, people: seq<Participant>, input: T)
    requires Decided(outcome, faults, people, input)
    ensures Framed(outcome, people)
    ensures |people| <= 10 ==> Exact(Errors(outcome), faults)
    ensures outcome.Accepted? ==> outcome.input == input
  {
    hide Path;
    if |people| <= 10 {
      if outcome.Accepted? { ExactNothing(faults); }
      ExactEmpty(Errors(outcome), faults);
    }
  }

  lemma SlotSays(fields: map<string, string>, faults: Faults, s: Slot)
    requires Exact(fields, faults)
    ensures Says(fields, Path(s), faults(s))
  {
    hide Path;
    ExactKeys(fields, faults, s);
  }

  /** The faults of people are what their texts say. */
  lemma PersonMessages(people: seq<Participant>, i: nat)
    requires i < |people|
    ensures var at := (f: Field) => PeopleAt(NormalPeople(people), Person(i, f));
      && at(FirstName) == NameMessage(people[i].firstName, "First name")
      && at(LastName) == NameMessage(people[i].lastName, "Last name")
      && at(Dietary) == LengthMessage(people[i].dietary, 2000, "Dietary restrictions")
      && at(Needs) == LengthMessage(people[i].needs, 2000, "Special needs")
      && at(Notes) == LengthMessage(people[i].notes, 2000, "Additional notes")
  {
    hide TrimSpace;
    assert NormalPeople(people)[i] == NormalParticipant(people[i]);
  }

  predicate IsCommon(s: Slot) {
    s.Person? || s in {Locale, ContactFirst, ContactLast, Email, Phone, People}
  }

  /** The same faults of what the three kinds of request have in common. */
  ghost predicate CommonFaults(env: Env, r: UpdateRequest, faults: Faults) {
    forall s :: IsCommon(s) ==>
      faults(s) == CommonAt(env, NormalLocale(env, r.locale), NormalContact(env, r.contact),
                            NormalPeople(r.participants), s)
  }

  lemma LocaleAgrees(env: Env, given: string)
    ensures LocaleFault(NormalLocale(env, given)) == LocaleMessage(env, given)
    ensures LocaleKept(env, given, NormalLocale(env, given))
    ensures StatusFault(NormalStatus(env, given)) == StatusMessage(env, given)
    ensures StatusKept(env, given, NormalStatus(env, given))
  {
    hide TrimSpace;
  }

  lemma ContactAgrees(env: Env, c: Contact)
    ensures var n := NormalContact(env, c);
      && ContactAt(env, n, ContactFirst) == NameMessage(c.firstName, "First name")
      && ContactAt(env, n, ContactLast) == NameMessage(c.lastName, "Last name")
      && ContactAt(env, n, Email) == EmailMessage(env, c.email)
      && ContactAt(env, n, Phone) == LengthMessage(c.phone, 20, "Phone")
  {
    hide TrimSpace, Lowered;
    assert "Phone" + " is too long" == "Phone is too long";
  }

  lemma CommonPaths()
    ensures Path(Locale) == "locale" && Path(ContactFirst) == "contact.first_name"
    ensures Path(ContactLast) == "contact.last_name" && Path(Email) == "contact.email"
    ensures Path(Phone) == "contact.phone" && Path(People) == "participants"
  {}

  lemma PersonPaths(i: nat)
    ensures Path(Person(i, FirstName)) == PersonPrefix(i) + "first_name"
    ensures Path(Person(i, LastName)) == PersonPrefix(i) + "last_name"
    ensures Path(Person(i, Dietary)) == PersonPrefix(i) + "dietary_restrictions"
    ensures Path(Person(i, Needs)) == PersonPrefix(i) + "special_needs"
    ensures Path(Person(i, Notes)) == PersonPrefix(i) + "additional_notes"
  {
    hide Itoa;
  }

  lemma PersonReports(env: Env, r: UpdateRequest, faults: Faults, fields: map<string, string>, i: nat)
    requires Exact(fields, faults) && CommonFaults(env, r, faults) && i < |r.participants|
    ensures PersonSays(fields, PersonPrefix(i), r.participants[i])
  {
    PersonMessages(r.participants, i);
    PersonPaths(i);
    hide Exact, Path, Says, PeopleAt, NormalPeople, NormalLocale, NormalContact, NameMessage, LengthMessage,
         PersonPrefix;
    SlotSays(fields, faults, Person(i, FirstName));
    SlotSays(fields, faults, Person(i, LastName));
    SlotSays(fields, faults, Person(i, Dietary));
    SlotSays(fields, faults, Person(i, Needs));
    SlotSays(fields, faults, Person(i, Notes));
  }

  lemma CommonMessages(env: Env, r: UpdateRequest, faults: Faults)
    requires CommonFaults(env, r, faults)
    ensures faults(Locale) == LocaleMessage(env, r.locale)
    ensures faults(ContactFirst) == NameMessage(r.contact.firstName, "First name")
    ensures faults(ContactLast) == NameMessage(r.contact.lastName, "Last name")
    ensures faults(Email) == EmailMessage(env, r.contact.email)
    ensures faults(Phone) == LengthMessage(r.contact.phone, 20, "Phone")
    ensures faults(People) ==
      if r.participants == [] then Some("At least one participant is required") else None
  {
    ContactAgrees(env, r.contact);
    LocaleAgrees(env, r.locale);
    hide ContactAt, NormalLocale, NormalContact, NormalParticipant, NameMessage, LengthMessage, EmailMessage,
         LocaleMessage, LocaleFault, LocaleKept, StatusKept;
  }

  lemma CommonReports(env: Env, r: UpdateRequest, faults: Faults, fields: map<string, string>)
    requires Exact(fields, faults) && CommonFaults(env, r, faults)
    ensures CommonSays(env, r, fields)
  {
    hide Exact, Path, Says, CommonFaults, NameMessage, LengthMessage, EmailMessage, LocaleMessage, PersonSays,
         PersonPrefix;
    CommonPaths();
    CommonMessages(env, r, faults);
    forall i | 0 <= i < |r.participants| { PersonReports(env, r, faults, fields, i); }
    SlotSays(fields, faults, Locale);
    SlotSays(fields, faults, ContactFirst);
    SlotSays(fields, faults, ContactLast);
    SlotSays(fields, faults, Email);
    SlotSays(fields, faults, Phone);
    SlotSays(fields, faults, People);
  }

  /** A faulty slot's key is one of the keys. */
  lemma SlotKey(people: seq<Participant>, s: Slot)
    requires s.Person? ==> PeopleAt(people, s).Some?
    requires IsCommon(s)
    ensures Path(s) in COMMON_KEYS || IsPersonKey(|people|, Path(s))
  {
    if s.Person? {
      PersonPaths(s.index);
      assert FieldName(s.field) in PERSON_KEYS && Path(s) == PersonPrefix(s.index) + FieldName(s.field);
    }
  }

  /** Keys that a request of some other kind has besides the common ones. */
  lemma KeysKnown(faults: Faults, fields: map<string, string>, people: seq<Participant>, own: set<string>)
    requires Exact(fields, faults)
    requires forall s :: faults(s).Some? && s.Person? ==> PeopleAt(people, s).Some?
    requires forall s :: faults(s).Some? && !IsCommon(s) ==> Path(s) in own
    ensures OnlyKeys(fields, own, |people|)
  {
    hide Path, PeopleAt, COMMON_KEYS, IsPersonKey;
    forall key | key in fields ensures key in COMMON_KEYS || key in own || IsPersonKey(|people|, key) {
      var s :| Path(s) == key && faults(s).Some?;
      if IsCommon(s) { SlotKey(people, s); }
    }
  }

  /* ---------- main results ---------- */

  /** An update's whole answer: the errors in common, no other key, and what is kept. */
  lemma UpdateAnswer(env: Env, r: UpdateRequest, outcome: Outcome<UpdateRequest>)
    requires UpdateOutcome(env, r, outcome)
    ensures Framed(outcome, r.participants)
    ensures |r.participants| <= 10 ==>
      CommonSays(env, r, Errors(outcome)) && OnlyKeys(Errors(outcome), {}, |r.participants|)
    ensures outcome.Accepted? ==>
      && LocaleKept(env, r.locale, outcome.input.locale) && ContactKept(env, r.contact, outcome.input.contact)
      && PeopleKept(r.participants, outcome.input.participants)
  {
    LocaleAgrees(env, r.locale);
    hide Exact, Path, CommonAt, TrimSpace, Lowered, NormalLocale, LocaleKept, CommonSays, OnlyKeys;
    var faults := UpdateFaults(env, r);
    DecidedErrors(outcome, faults, r.participants, UpdateInput(env, r));
    if |r.participants| <= 10 {
      CommonReports(env, r, faults, Errors(outcome));
      UpdateSlots(env, r);
      KeysKnown(faults, Errors(outcome), NormalPeople(r.participants), {});
    }
  }

  lemma UpdateSlots(env: Env, r: UpdateRequest)
    ensures forall s :: UpdateFaults(env, r)(s).Some? ==>
      IsCommon(s) && (s.Person? ==> PeopleAt(NormalPeople(r.participants), s).Some?)
  {
    hide NormalLocale, NormalContact, PersonFault;
  }

  /** A registration's whole answer: besides that the notice and the consent. */
  lemma CreateAnswer(env: Env, r: CreateRequest, outcome: Outcome<CreateInput>)
    requires CreateOutcome(env, r, outcome)
    ensures Framed(outcome, r.participants)
    ensures |r.participants| <= 10 ==>
      && CommonSays(env, Visible(r), Errors(outcome))
      && Says(Errors(outcome), "privacy_notice_version", NoticeMessage(env, r.noticeVersion))
      && Says(Errors(outcome), "privacy_consent", if r.consent then None else Some("Privacy consent is required"))
      && OnlyKeys(Errors(outcome), {"privacy_notice_version", "privacy_consent"}, |r.participants|)
    ensures outcome.Accepted? ==>
      && LocaleKept(env, r.locale, outcome.input.locale) && ContactKept(env, r.contact, outcome.input.contact)
      && PeopleKept(r.participants, outcome.input.participants)
      && outcome.input.noticeVersion == TrimSpace(r.noticeVersion)
  {
    CreateIsKept(env, r);
    hide *;
    var faults := CreateFaults(env, r);
    CreateDecided(env, r, outcome);
    if |r.participants| <= 10 {
      CreateReports(env, r, faults, Errors(outcome));
    }
  }

  lemma CreateDecided(env: Env, r: CreateRequest, outcome: Outcome<CreateInput>)
    requires CreateOutcome(env, r, outcome)
    ensures Framed(outcome, r.participants)
    ensures |r.participants| <= 10 ==> Exact(Errors(outcome), CreateFaults(env, r))
    ensures outcome.Accepted? ==> outcome.input == CreateResult(env, r)
  {
    hide CreateFaults, Exact, CreateResult, Framed;
    DecidedErrors(outcome, CreateFaults(env, r), r.participants, CreateResult(env, r));
  }

  lemma CreateIsKept(env: Env, r: CreateRequest)
    ensures var kept := CreateResult(env, r);
      && LocaleKept(env, r.locale, kept.locale) && ContactKept(env, r.contact, kept.contact)
      && PeopleKept(r.participants, kept.participants) && kept.noticeVersion == TrimSpace(r.noticeVersion)
  {
    LocaleAgrees(env, r.locale);
    hide TrimSpace, Lowered, NormalLocale, LocaleKept;
  }

  lemma CreateReports(env: Env, r: CreateRequest, faults: Faults, fields: map<string, string>)
    requires faults == CreateFaults(env, r) && Exact(fields, faults)
    ensures CommonSays(env, Visible(r), fields)
    ensures Says(fields, "privacy_notice_version", NoticeMessage(env, r.noticeVersion))
    ensures Says(fields, "privacy_consent", if r.consent then None else Some("Privacy consent is required"))
    ensures OnlyKeys(fields, {"privacy_notice_version", "privacy_consent"}, |r.participants|)
  {
    NoticePaths();
    CreateSlots(env, r);
    hide Exact, Path, CreateFaults, CommonSays, OnlyKeys, Says, NoticeMessage, CommonFaults, PeopleAt,
         NormalParticipant;
    CommonReports(env, Visible(r), faults, fields);
    SlotSays(fields, faults, NoticeVersion);
    SlotSays(fields, faults, Consent);
    KeysKnown(faults, fields, NormalPeople(r.participants), {"privacy_notice_version", "privacy_consent"});
  }

  lemma NoticePaths()
    ensures Path(NoticeVersion) == "privacy_notice_version" && Path(Consent) == "privacy_consent"
  {}

  lemma CreateSlots(env: Env, r: CreateRequest)
    ensures CommonFaults(env, Visible(r), CreateFaults(env, r))
    ensures CreateFaults(env, r)(NoticeVersion) == NoticeMessage(env, r.noticeVersion)
    ensures CreateFaults(env, r)(Consent) == if r.consent then None else Some("Privacy consent is required")
    ensures forall s :: CreateFaults(env, r)(s).Some? ==>
      && (IsCommon(s) || s in {NoticeVersion, Consent})
      && (s.Person? ==> PeopleAt(NormalPeople(r.participants), s).Some?)
  {
    hide NormalLocale, NormalContact, PersonFault, TrimSpace;
  }

  /** An administrator's whole answer: besides the common part its own six fields. */
  lemma AdminAnswer(env: Env, r: AdminRequest, outcome: Outcome<AdminRequest>)
    requires AdminOutcome(env, r, outcome)
    ensures Framed(outcome, r.participants)
    ensures |r.participants| <= 10 ==>
      && CommonSays(env, UpdateRequest(r.locale, r.contact, r.participants), Errors(outcome))
      && OwnSays(env, r, Errors(outcome)) && OnlyKeys(Errors(outcome), OWN_KEYS, |r.participants|)
    ensures outcome.Accepted? ==>
      && LocaleKept(env, r.locale, outcome.input.locale) && ContactKept(env, r.contact, outcome.input.contact)
      && PeopleKept(r.participants, outcome.input.participants) && OwnKept(env, r, outcome.input)
  {
    AdminIsKept(env, r);
    hide *;
    AdminDecided(env, r, outcome);
    if |r.participants| <= 10 {
      AdminReports(env, r, AdminFaults(env, NormalAdmin(env, r)), Errors(outcome));
    }
  }

  lemma AdminDecided(env: Env, r: AdminRequest, outcome: Outcome<AdminRequest>)
    requires AdminOutcome(env, r, outcome)
    ensures Framed(outcome, r.participants)
    ensures |r.participants| <= 10 ==> Exact(Errors(outcome), AdminFaults(env, NormalAdmin(env, r)))
    ensures outcome.Accepted? ==> outcome.input == NormalAdmin(env, r)
  {
    hide AdminFaults, Exact, NormalAdmin, Framed;
    DecidedErrors(outcome, AdminFaults(env, NormalAdmin(env, r)), r.participants, NormalAdmin(env, r));
  }

  lemma AdminIsKept(env: Env, r: AdminRequest)
    ensures var kept := NormalAdmin(env, r);
      && LocaleKept(env, r.locale, kept.locale) && ContactKept(env, r.contact, kept.contact)
      && PeopleKept(r.participants, kept.participants) && OwnKept(env, r, kept)
  {
    LocaleAgrees(env, r.locale);
    LocaleAgrees(env, r.status);
    hide TrimSpace, Lowered, NormalLocale, NormalStatus, LocaleKept, StatusKept;
  }

  lemma AdminReports(env: Env, r: AdminRequest, faults: Faults, fields: map<string, string>)
    requires faults == AdminFaults(env, NormalAdmin(env, r)) && Exact(fields, faults)
    ensures CommonSays(env, UpdateRequest(r.locale, r.contact, r.participants), fields)
    ensures OwnSays(env, r, fields) && OnlyKeys(fields, OWN_KEYS, |r.participants|)
  {
    OwnPaths();
    AdminSlotsAgree(env, r);
    OwnReports(env, r, fields);
    hide Exact, Path, AdminFaults, CommonSays, OnlyKeys, OwnSays, CommonFaults, PeopleAt, NormalParticipant,
         NormalAdmin;
    CommonReports(env, UpdateRequest(r.locale, r.contact, r.participants), faults, fields);
    KeysKnown(faults, fields, NormalPeople(r.participants), OWN_KEYS);
  }

  const OWN_KEYS := {"event_id", "status", "dietary_restrictions", "special_needs", "additional_notes", "send_email"}

  predicate OwnSays(env: Env, r: AdminRequest, fields: map<string, string>) {
    && Says(fields, "event_id", if r.eventId > 0 then None else Some("Event ID is required"))
    && Says(fields, "status", StatusMessage(env, r.status))
    && Says(fields, "dietary_restrictions", LengthMessage(r.dietary, 2000, "Dietary restrictions"))
    && Says(fields, "special_needs", LengthMessage(r.needs, 2000, "Special needs"))
    && Says(fields, "additional_notes", LengthMessage(r.notes, 2000, "Additional notes"))
    && Says(fields, "send_email",
            if r.sendEmail && TrimSpace(r.contact.email) == ""
            then Some("Email is required when sending email notification") else None)
  }

  predicate OwnKept(env: Env, r: AdminRequest, kept: AdminRequest) {
    && kept.eventId == r.eventId && StatusKept(env, r.status, kept.status) && kept.sendEmail == r.sendEmail
    && kept.dietary == TrimSpace(r.dietary) && kept.needs == TrimSpace(r.needs) && kept.notes == TrimSpace(r.notes)
  }

  lemma OwnPaths()
    ensures Path(EventId) == "event_id" && Path(Status) == "status" && Path(GroupDietary) == "dietary_restrictions"
    ensures Path(GroupNeeds) == "special_needs" && Path(GroupNotes) == "additional_notes"
    ensures Path(SendEmail) == "send_email"
  {}

  lemma AdminSlotsAgree(env: Env, r: AdminRequest)
    ensures var faults := AdminFaults(env, NormalAdmin(env, r));
      && CommonFaults(env, UpdateRequest(r.locale, r.contact, r.participants), faults)
      && forall s :: faults(s).Some? ==>
           && (IsCommon(s) || s in {EventId, Status, GroupDietary, GroupNeeds, GroupNotes, SendEmail})
           && (s.Person? ==> PeopleAt(NormalPeople(r.participants), s).Some?)
  {
    hide NormalLocale, NormalContact, NormalStatus, PersonFault, TrimSpace;
  }

  lemma OwnReports(env: Env, r: AdminRequest, fields: map<string, string>)
    requires Exact(fields, AdminFaults(env, NormalAdmin(env, r)))
    ensures OwnSays(env, r, fields)
  {
    OwnPaths();
    OwnMessages(env, r);
    hide Exact, Path, Says, NormalAdmin, AdminFaults, StatusMessage, LengthMessage;
    var faults := AdminFaults(env, NormalAdmin(env, r));
    SlotSays(fields, faults, EventId);
    SlotSays(fields, faults, Status);
    SlotSays(fields, faults, GroupDietary);
    SlotSays(fields, faults, GroupNeeds);
    SlotSays(fields, faults, GroupNotes);
    SlotSays(fields, faults, SendEmail);
  }

  lemma OwnMessages(env: Env, r: AdminRequest)
    ensures var faults := AdminFaults(env, NormalAdmin(env, r));
      && faults(EventId) == (if r.eventId > 0 then None else Some("Event ID is required"))
      && faults(Status) == StatusMessage(env, r.status)
      && faults(GroupDietary) == LengthMessage(r.dietary, 2000, "Dietary restrictions")
      && faults(GroupNeeds) == LengthMessage(r.needs, 2000, "Special needs")
      && faults(GroupNotes) == LengthMessage(r.notes, 2000, "Additional notes")
      && faults(SendEmail) == (if r.sendEmail && TrimSpace(r.contact.email) == ""
                               then Some("Email is required when sending email notification") else None)
  {
    hide *;
    LocaleAgrees(env, r.status);
    AdminAtCases(env, NormalAdmin(env, r));
    EventIdMessage(env, NormalAdmin(env, r));
    AdminOwn(env, r);
    LengthMessages(r);
    SendMessage(env, r);
  }

  /** An administrator's own fields in normal form. */
  lemma AdminOwn(env: Env, r: AdminRequest)
    ensures var n := NormalAdmin(env, r);
      && n.eventId == r.eventId && n.status == NormalStatus(env, r.status) && n.sendEmail == r.sendEmail
      && n.dietary == TrimSpace(r.dietary) && n.needs == TrimSpace(r.needs) && n.notes == TrimSpace(r.notes)
      && n.contact.email == Lowered(env.lower, TrimSpace(r.contact.email))
  {}

  lemma EventIdMessage(env: Env, n: AdminRequest)
    ensures AdminFaults(env, n)(EventId) == if n.eventId > 0 then None else Some("Event ID is required")
  {}

  lemma LengthMessages(r: AdminRequest)
    ensures TextFault(false, TrimSpace(r.dietary), MAX_FREE_TEXT, "Dietary restrictions") ==
      LengthMessage(r.dietary, 2000, "Dietary restrictions")
    ensures TextFault(false, TrimSpace(r.needs), MAX_FREE_TEXT, "Special needs") ==
      LengthMessage(r.needs, 2000, "Special needs")
    ensures TextFault(false, TrimSpace(r.notes), MAX_FREE_TEXT, "Additional notes") ==
      LengthMessage(r.notes, 2000, "Additional notes")
  {
    hide TrimSpace;
  }

  lemma SendMessage(env: Env, r: AdminRequest)
    ensures SendEmailFault(r.sendEmail, Lowered(env.lower, TrimSpace(r.contact.email))) ==
      if r.sendEmail && TrimSpace(r.contact.email) == ""
      then Some("Email is required when sending email notification") else None
  {
    hide TrimSpace;
  }
}
