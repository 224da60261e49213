# Verification of the Wat Profile application's core logic

A Dafny model of the parts of the application whose behaviour is hardest to see from reading one function:
the admin cache under concurrent requests, the service worker under interleaved events, the rich-text
pipeline, the mapper of the structured pages, the registration validator, the seed normalisers, the
notification selection, the answer ranking, the origin lists and the signed flow cookie. `dafny verify
dfyconfig.toml` checks everything.

## How to read it

One module per source file or component; each file's first comment says what it covers.

| module | models |
|---|---|
| `AdminAuth` | the thirty-second map in front of the user table: the handler on a class, and a step machine in which requests, writes and time interleave |
| `AdminRuns` | runs of that machine that meet its bounds or go wrong |
| `AdminHistories`, `AdminAdmission` | the same machine seen from the history of clock and tables alone: building runs over it, when a request can be let in, and when a store is a step back |
| `RichText`, `CommunityRichText`, `SeedRichText`, `Json` | the CMS validator, the community validator (raw JSON and decoded tree side by side), the document builder and the text flattener |
| `PublicContent` | saving and loading a structured page, with maps shared by reference; Go structs are described by shapes, of which `ABOUT` is one |
| `ServiceWorker` | install, activate and fetch handlers as steps over cache storage, and the classes that perform them |
| `Registrations`, `RegistrationAnswers` | three request validators over one shared error map, and what they answer in the terms of a request |
| `SeedSlugs`, `SeedEvents`, `SeedCms`, `SeedGallery`, `SeedTexts` | slugs, and the event, page and gallery normalisers |
| `NotificationSelection`, `Notifications` | four limited queries, merged, sorted and cut |
| `AnswerRanking`, `Sorting` | the ranking comparator and an in-place stable sort |
| `Origins` | origin lists, from configuration to the CORS handler |
| `FlowCookie` | unpadded base64url, hexadecimal, and the signed cookie |
| `GoStrings` | the functions of Go's `strings` and `strconv` the code calls |

Where the source updates something in place the model does too: classes for the admin map, the page and its
maps, the error map, the slug set, the string builder, the cache storage and the worker; an array for the
sort; loops with invariants for the rest. Those methods are proved against functions or predicates, about
which the lemmas speak. What an operation answers is in the end said again without the functions that compute it:
as a grammar over raw JSON, letter by letter, bit by bit, or key by key.

What the model cannot see is a parameter: `url.Parse`, `mail.ParseAddress`, `html.UnescapeString`, `uuid.Parse`,
`time.Parse`, the MAC, `unicode.ToLower` and `unicode.IsDigit`, the rounding of a JSON number to a float,
and the two generated page bodies. The assumptions made of them are the predicates `LowersScheme` (a parsed scheme is lower
case), `Lowering` and `Unicode` (lower-casing is idempotent, keeps ASCII lower case, never yields a space; digits have no case) and
the `requires` clauses that say that `-` is not a digit and that unescaping leaves a text without entities alone.

## What was found

- **Staleness of the admin cache.** The test `TestAdminAuthRequiredHonorsPermissionChangesAfterTokenIssue`
  in `backend/internal/middleware/admin_auth_test.go` expects a changed role to be honoured by the next request.
  The code keeps serving the loaded user and role for thirty seconds, plus whatever passes between a read and
  its store: `Revocation` gives the bound and `BoundIsTight` a run that meets it to the nanosecond, for every gap.
- **The role is a second query.** A write between the two can pair a user row and a role that were never
  usable together (`TornReadAdmits`). So losing access "as a whole" is enough only when the two queries see one
  snapshot (`SnapshotRevocation`). In general a request can be let in exactly when some row of the user goes with
  a role table of the same or a later instant, close enough to be read by one fetch, either after the age test or
  into an entry that is still young at it (`AdmissionExact`, over every history of the tables). Revocation therefore
  takes that no such pair is left (`Revocation`), and a single later pair within the gap undoes it (`LatePairAdmits`).
- **A slow request overwrites a newer entry** (`SlowStoreOverwrites`), exactly when it already held its read
  while the row of the present entry was being read (`OverwritesNewerIff`); the bound holds all the same.
- **The two rich-text validators differ on marks of nodes other than text.** The community validator never
  looks at them. `InclusionInCms` says exactly when an accepted document passes the CMS too.
- **Members of a mark may be spelt in any case** (`MarkNamesFold`): the community validator checks the names of a
  node's members itself, but leaves the marks to `encoding/json`.
- **A locale key with a dot skips the root check** (`PathMattersAtRootOnly`).
- **A negative event identifier makes a slug with two hyphens** as soon as its title repeats (`SlugWellFormedIff`;
  `RepeatedTitle` for every fixture).
- **`send_email` never rejects a request by itself**: the contact's email is mandatory anyway (`SendEmailNeverAlone`).
- **An ill-formed language map hides what follows it.** Decoding a stored body ends there, so members with later
  names load as if absent (`LoadedMember`, `IllFormedContentHidesHeading`); a save repairs the page (`SaveRepairs`).
- **A page whose draft and published body are one map object** would publish what is saved (`SaveAndLoad`). The
  publishing service makes no such page: it stores a clone of the body each time it publishes
  (`backend/internal/services/content_service.go`, lines 395, 551 and 606). Titles and descriptions it does share;
  a save replaces those maps instead of writing into them, so the snapshot's texts stay.
- **Outside production local plain-http origins are appended to the CORS list** unless it mentions the first of
  them already, and that is the only case in which the list changes (`AllowedListParses`), also where
  configuration demands https (`LocalOriginsOnStaging`).
- **An asset request can be answered with nothing**, exactly when it is not in the assets cache at its lookup and
  its fetch fails (`AssetUnansweredIff`); a run that ends so starts from any caches without it (`AssetCanBeUnanswered`).
- **An empty category list panics** (`SeedGallery.NormalizeGallery`); the count check in front of it excludes that.
- **More than one cookie is accepted for a state**: line breaks and unused bits of the encoding are ignored
  (`LineBreakIsAccepted`, `UnusedBitIsAccepted`). `AcceptedIsSigned` says which accepted cookie is the signed one.

## Model

| member | source | states |
|---|---|---|
| AdminAuth.AdminCache.Lookup | backend/internal/middleware/admin_auth.go:66-68 | the section under the read lock returns the entry of this user, if any |
| AdminAuth.AdminCache.Store | backend/internal/middleware/admin_auth.go:83-88 | the section under the write lock replaces this user's entry, stamped with the time, and no other |
| AdminAuth.AdminAuthRequired | backend/internal/middleware/admin_auth.go:63-96 | entries and answer of an uninterrupted request, on hit, miss and unknown user |
| AdminAuth.ServeIsUninterrupted | backend/internal/middleware/admin_auth.go:63-96 | the sequential handler is the step machine with nothing in between, whatever time its fetch takes |
| AdminAuth.EntriesAreReads | backend/internal/middleware/admin_auth.go:75-88 | in every run each entry joins a row and a role the tables held at two instants at most the read-to-store gap before `fetchedAt` |
| AdminAuth.OutcomeOrigin | backend/internal/middleware/admin_auth.go:66-96 | every answer is an uncached check on a row read less than thirty seconds plus the gap before the age test, and on the role read with it |
| AdminAuth.BoundedStaleness | backend/internal/middleware/admin_auth.go:66-96 | so every decision in every run is at most that stale |
| AdminAuth.Revocation | backend/internal/middleware/admin_auth.go:66-96 | once no row of the user goes with a role table of the same or a later instant, no request tested thirty seconds plus the gap later is admitted, in any interleaving |
| AdminAuth.BarredForGood | backend/internal/middleware/admin_auth.go:76-96 | a user barred for good, or whose roles all are, has no such pair left |
| AdminAuth.SnapshotRevocation | backend/internal/middleware/admin_auth.go:66-96 | when both queries of a fetch see one snapshot, losing access as a whole is enough; `AdminAdmission.AdmissionExact` is the exact condition without that |
| AdminRuns.BoundIsTight | backend/internal/middleware/admin_auth.go:70-73 | for every gap there is a run that admits one nanosecond before the bound |
| AdminRuns.SlowStoreOverwrites | backend/internal/middleware/admin_auth.go:83-88 | a run in which an older read replaces a newer, refused entry by an admitting one |
| AdminRuns.TornReadAdmits | backend/internal/middleware/admin_auth.go:76-76 | a run that admits a user no state of the tables would admit |
| AdminAdmission.AdmissionIsLetIn | backend/internal/middleware/admin_auth.go:63-96 | in every run an admitted request goes back to an admitting pair within the gap, read after its test or stored and young at it |
| AdminAdmission.AdmissionExact | backend/internal/middleware/admin_auth.go:63-96 | over any history of clock and tables, a request tested at an instant can be let in if and only if such a pair exists |
| AdminAdmission.LatePairAdmits | backend/internal/middleware/admin_auth.go:75-96 | converse of revocation: whenever one admitting pair is left, however late, some request is let in |
| AdminAdmission.HoldingSpan | backend/internal/middleware/admin_auth.go:76-84 | a request about to store holds its read in exactly the states since it read |
| AdminAdmission.OverwritesNewerIff | backend/internal/middleware/admin_auth.go:83-88 | a store puts an older read over the present entry if and only if its request already held its read when the row of the present entry was read |
| CommunityRichText.DecodedIsInLockstep | backend/internal/community/richtext.go:97-130 | for a decoded tree, at every depth the raw child is found and decodes to the node's child |
| CommunityRichText.AcceptsExactlyTheGrammar | backend/internal/community/richtext.go:38-117 | the two-tree walk accepts a document if and only if it belongs to an independent five-level grammar over raw JSON, which spells out names, members and link targets |
| CommunityRichText.SafeHrefIff | backend/internal/community/richtext.go:132-142 | a link is safe, character by character: no line break or NUL, and a single leading slash, or a host over https in any case |
| CommunityRichText.GrammarDecodes | backend/internal/community/richtext.go:23-26 | every document of that grammar decodes |
| CommunityRichText.AcceptedHeight | backend/internal/community/richtext.go:54-115 | accepted documents have at most five levels |
| CommunityRichText.AcceptedLinksAreSafe | backend/internal/community/richtext.go:83-91 | every mark on every text node of an accepted document is bold without attributes, or a link whose only attribute is such a target |
| CommunityRichText.InclusionInCms | backend/internal/richtext/validation.go:77-163 | an accepted document passes the CMS validator under any locale key if and only if the marks on its non-text nodes are ones the CMS allows |
| CommunityRichText.InclusionFailsOnOtherMarks | backend/internal/community/richtext.go:71-92 | an accepted document that the CMS rejects |
| CommunityRichText.Walk | backend/internal/community/richtext.go:144-158 | the recursive walk appends to the builder what the specification writes for the subtree |
| CommunityRichText.NormalizePlainText | backend/internal/community/richtext.go:144-161 | the flattened text is the words written by the walk joined by single spaces |
| CommunityRichText.PlainTextIsNormal | backend/internal/community/richtext.go:160-160 | flattened text is a fixed point of white-space normalisation and keeps the words |
| CommunityRichText.ValidateRichTextAccepts | backend/internal/community/richtext.go:19-36 | the whole validator accepts exactly the grammar's documents within sane limits and returns their plain text; each other answer has its own condition |
| RichText.ChildrenAreNotRoots | backend/internal/richtext/validation.go:79-83 | no child path is ever checked as a root |
| RichText.PathMattersAtRootOnly | backend/internal/richtext/validation.go:77-135 | acceptance is that the whole tree is allowed and, exactly when the key has no dot, that the top node is a doc |
| RichText.ValidateLocalized | backend/internal/richtext/validation.go:54-74 | a text is accepted iff every language is; otherwise some failing language is reported |
| RichText.LocaleAccepted | backend/internal/richtext/validation.go:55-73 | a language is accepted iff nothing is stored, or what decodes is an allowed tree that is a doc unless the key has a dot |
| RichText.CmsNodeIff | backend/internal/richtext/validation.go:77-163 | a stored node decodes and is allowed if and only if it belongs to a grammar over raw JSON: twelve type names, seven mark names, heading levels one to six, sources and links that stay on the site or name an http host, a mail address or a telephone |
| RichText.CmsAcceptsExactly | backend/internal/richtext/validation.go:54-163 | a language is accepted iff `null` is stored, or such a node that is a doc unless the key has a dot; unreadable iff some member has the wrong type |
| RichText.MarkNamesFold | backend/internal/richtext/validation.go:48-51 | a mark whose members are spelt in another case is the same mark |
| SeedRichText.BuildTextDocument | backend/internal/seedgen/richtext.go:29-45 | the loop builds one paragraph a part, never none, so its fallback branch is dead |
| SeedRichText.ParagraphsAreKept | backend/internal/seedgen/richtext.go:29-45 | texts joined by blank lines become the paragraphs of the document, one each and in order |
| SeedRichText.FlattenRestoresWords | backend/internal/seedgen/richtext.go:29-45 | flattening the built document gives exactly the text's words in order, for every string |
| SeedRichText.DecodeOfEncode | backend/internal/seedgen/snapshot_types.go:5-9 | a seed document's JSON form decodes to the same tree |
| SeedRichText.BuiltDocumentsPass | backend/internal/seedgen/richtext.go:29-45 | every built document belongs to the community grammar and passes the CMS validator under any key |
| SeedRichText.BuiltDocumentsAreAccepted | backend/internal/richtext/validation.go:54-74 | the stored form of every built document is accepted under any language key |
| SeedRichText.BuiltDocumentsValidate | backend/internal/community/richtext.go:19-36 | end to end: the stored form of a built document is accepted exactly when the limits admit its normalised text |
| SeedRichText.MarkedUpParagraphs | backend/internal/seedgen/richtext.go:47-62 | paragraphs in paragraph tags become a document with exactly their words, in order |
| SeedRichText.MarksReplaced | backend/internal/seedgen/richtext.go:48-56 | what each mark of the fixtures becomes, wherever it stands |
| SeedRichText.FixtureAnswer | backend/internal/seedgen/richtext.go:47-62 | mark-up is unsupported iff an angle bracket is left; otherwise it becomes the document of the plain text |
| PublicContent.NormalizeMultiLang | backend/internal/publiccontent/mapper.go:30-40 | missing languages are written into the given map itself; a nil map is replaced |
| PublicContent.NormalizeRichText | backend/internal/publiccontent/mapper.go:42-52 | the same for rich text, with `null` for a missing language |
| PublicContent.DecodeOfEncode | backend/internal/publiccontent/mapper.go:145-147 | for every shape, encoding, floating and decoding gives the value with floated numbers |
| PublicContent.MembersRoundTrip | backend/internal/publiccontent/mapper.go:149-151 | the form's members survive a merge into any object |
| PublicContent.SavedFormLoads | backend/internal/publiccontent/mapper.go:54-91 | a saved form loads with missing languages filled in, whatever was stored; unchanged if and only if its numbers are floats already |
| PublicContent.NormalizeCompletes | backend/internal/publiccontent/mapper.go:30-91 | loading completes every map of texts or documents, in lists and nested structs too: old keys keep their values, missing languages are empty or `null`, nothing else changes |
| PublicContent.SaveKeepsOtherMembers | backend/internal/publiccontent/mapper.go:138-153 | members outside the form are kept and a second save changes nothing |
| PublicContent.EncodedNeverStops | backend/internal/publiccontent/mapper.go:145-147 | what a form encodes to never ends decoding early, for every shape |
| PublicContent.StopsIff | backend/internal/publiccontent/mapper.go:10-21 | decoding ends early iff some way down the stored body leads to an ill-formed map |
| PublicContent.FitIsTaken | backend/internal/publiccontent/mapper.go:10-21 | what has the right JSON type is taken over, except behind such a map; lists are read as far as the first one |
| PublicContent.MisfitIsZero | backend/internal/publiccontent/mapper.go:10-21 | everything else is left at Go's zero value |
| PublicContent.LoadedMember | backend/internal/publiccontent/mapper.go:10-21 | a stored member loads unless a member with a smaller name is an ill-formed language map; then as if absent |
| PublicContent.IllFormedContentHidesHeading | backend/internal/models/rich_text.go:48-55 | a stored section that loses its heading because its content is ill formed |
| PublicContent.SaveRepairs | backend/internal/publiccontent/mapper.go:138-153 | after a save no member of the form is hidden, whatever was stored |
| PublicContent.LoadSaveLoad | backend/internal/publiccontent/mapper.go:54-153 | loading, saving and loading again gives the first load |
| PublicContent.AboutHasDistinctNames | backend/internal/publiccontent/contracts.go:18-64 | the About form is one the theorems apply to |
| PublicContent.AboutIs | backend/internal/publiccontent/contracts.go:18-64 | the member names of the About form and its parts |
| PublicContent.MergeInto | backend/internal/publiccontent/mapper.go:149-151 | the merge loop overwrites the target map in place, in any key order |
| PublicContent.Apply | backend/internal/publiccontent/mapper.go:133-154 | a save's effect on the page, its maps and the request's maps; the published snapshot changes only if it is the same map object |
| PublicContent.FromPage | backend/internal/publiccontent/mapper.go:55-91 | loading the draft: the decoded form, up to an ill-formed language map, with every map completed, and the page's own title and description maps, into which it writes missing languages |
| PublicContent.FromPublishedPage | backend/internal/publiccontent/mapper.go:94-130 | loading the snapshot in the same way, with its own update time |
| PublicContent.LoadBoth | backend/internal/publiccontent/mapper.go:55-130 | loading draft and snapshot of one page: each text is filled once, whatever maps the two share |
| PublicContent.SaveAndLoad | backend/internal/publiccontent/mapper.go:55-154 | after a save the draft is the saved form with its title, description and SEO, and the snapshot reads as before, body, texts and SEO, unless both bodies are one map |
| ServiceWorker.CacheStorage.Open | frontend/public/sw.js:22-23 | opening creates a missing cache behind the others and touches no other |
| ServiceWorker.CacheStorage.MatchAll | frontend/public/sw.js:124-137 | a search finds the first cache, in order of creation, that has the key |
| ServiceWorker.Worker.OnFetch | frontend/public/sw.js:61-163 | a fetch event starts the strategy its request is routed to, or none |
| ServiceWorker.Worker.OnNetwork | frontend/public/sw.js:93-156 | a settled fetch is one step of the machine, with its unawaited put |
| ServiceWorker.Worker.OnOpen | frontend/public/sw.js:91-150 | the opening steps refine the machine |
| ServiceWorker.Worker.OnMatch | frontend/public/sw.js:122-159 | the fallback searches refine the machine |
| ServiceWorker.Worker.OnMatchAssets | frontend/public/sw.js:92-92 | the asset lookup refines the machine |
| ServiceWorker.Worker.OnCommit | frontend/public/sw.js:96-150 | a put that finishes, or fails, refines the machine |
| ServiceWorker.Worker.OnInstall | frontend/public/sw.js:20-31 | precaching the nine fixed paths, all or none, refines the machine |
| ServiceWorker.AddAll | frontend/public/sw.js:7-26 | the entries added are the nine responses under their own URLs if every one is ok, else none |
| ServiceWorker.CoreAssets | frontend/public/sw.js:7-26 | precaching adds nothing unless all nine responses are successes, then each under its own path |
| ServiceWorker.Worker.OnListKeys | frontend/public/sw.js:35-42 | the sweep's list is exactly the caches with other names |
| ServiceWorker.Worker.OnDelete | frontend/public/sw.js:43-46 | one deletion of the sweep refines the machine |
| ServiceWorker.Worker.OnClaim | frontend/public/sw.js:49-49 | claiming comes when nothing is left to delete |
| ServiceWorker.RunIsSound | frontend/public/sw.js:61-163 | the invariant of events, pending puts and entries, over every run |
| ServiceWorker.CachedEntriesAreDelivered | frontend/public/sw.js:61-163 | every entry the fetch handler wrote is keyed by a GET http request matching no bypassed path, and holds a status-200 response the network delivered for that request, in the cache of its branch |
| ServiceWorker.AssetIsPut | frontend/public/sw.js:93-98 | a response to an asset is put at once if its status is 200, and never otherwise |
| ServiceWorker.ResponseIsPut | frontend/public/sw.js:114-152 | in every run a navigation or data request answered by the network with status 200 has put that response in the cache of its branch |
| ServiceWorker.CommitFiles | frontend/public/sw.js:96-150 | a put that succeeds files its entry under the request's URL and touches no other |
| ServiceWorker.AnswersAreResponses | frontend/public/sw.js:90-161 | navigation and public-data answers are always responses; only an asset can get none; bypassed requests are never handled |
| ServiceWorker.AssetAnswer | frontend/public/sw.js:91-103 | in every run a finished asset event answers the entry of its lookup, else the response of its fetch, else nothing |
| ServiceWorker.AssetUnansweredIff | frontend/public/sw.js:91-103 | it answers nothing if and only if its lookup found no entry and its fetch failed |
| ServiceWorker.AssetCanBeUnanswered | frontend/public/sw.js:91-103 | from any caches without the asset, a run that ends unanswered |
| ServiceWorker.RouteIff | frontend/public/sw.js:62-144 | which requests are served, and by which strategy, by the letters of method, protocol, path and headers |
| ServiceWorker.PageAnswer | frontend/public/sw.js:113-139 | in every run a finished navigation answers the network's response; after a failure the first of what three later searches find: the page itself, the offline page of the language its path begins with, the Thai one; else a network error |
| ServiceWorker.DataAnswer | frontend/public/sw.js:145-161 | the same for public data, with one search and the 503 response |
| ServiceWorker.OfflineOnceInstalled | frontend/public/sw.js:7-139 | once the core assets are precached, no navigation that begins later ends in a network error |
| ServiceWorker.IconsAreAssets | frontend/public/sw.js:84-89 | there are requests the asset branch takes |
| ServiceWorker.EventsProgress | frontend/public/sw.js:90-161 | an event that is neither waiting nor done gets strictly closer with each of its steps and is moved by nobody else |
| ServiceWorker.AnswersAreFinal | frontend/public/sw.js:91-103 | what an event was answered never changes, in particular by the revalidation of a cached asset |
| ServiceWorker.CachedAssetIsGivenAtOnce | frontend/public/sw.js:102-102 | an asset found at its lookup is given out without waiting for the network |
| ServiceWorker.CachedAnswerWasHeld | frontend/public/sw.js:122-159 | a cached answer was in a cache during the event under the request's URL, or the offline page's |
| ServiceWorker.OnlyCurrentCachesRemain | frontend/public/sw.js:34-51 | after activation only the three current names remain, in every later state |
| ServiceWorker.CurrentEntriesSurvive | frontend/public/sw.js:34-51 | no step drops a key of a current cache, and only installing changes the precache |
| ServiceWorker.SweepSteps | frontend/public/sw.js:35-49 | the sweep starts with exactly the caches of other names, and each of its steps removes one |
| Registrations.PathInjective | backend/internal/registrations/policy.go:240-246 | no two fields of a request share an error key, for any number of participants |
| Registrations.SuffixSelectsNames | backend/internal/registrations/policy.go:230-234 | the suffix test picks out exactly the participants' two names |
| Registrations.ErrorFields.ValidateText | backend/internal/registrations/policy.go:230-238 | the shared map gains this path's message, or nothing |
| Registrations.ErrorFields.Merge | backend/internal/registrations/policy.go:248-252 | the map becomes the old one overlaid by the source's, in any key order |
| Registrations.NormalizeLocale | backend/internal/registrations/policy.go:174-183 | the lower-cased trimmed text, `th` when it is blank, and the fault it has |
| Registrations.NormalizeContact | backend/internal/registrations/policy.go:185-206 | the contact's normal form and its exact error map |
| Registrations.NormalizeParticipants | backend/internal/registrations/policy.go:208-228 | all participants in order, and their exact error map |
| Registrations.NotedIsExact | backend/internal/registrations/policy.go:230-238 | recording one more field keeps the map exact |
| Registrations.NotedAllIsExact | backend/internal/registrations/policy.go:195-223 | recording the fields a map leaves out, one after the other, makes it exact for all of them |
| Registrations.MergedIsExact | backend/internal/registrations/policy.go:248-252 | merging maps of disjoint fields keeps them exact |
| Registrations.ExactKeys | backend/internal/registrations/policy.go:208-252 | in an exact map a field's key is present if and only if the field is faulty |
| Registrations.ExactIsUnique | backend/internal/registrations/policy.go:208-252 | the faults determine the map |
| Registrations.NormalizeAndValidateCreate | backend/internal/registrations/policy.go:12-44 | the outcome is the group limit, the normal form, or the exact error map, stated without the code's maps |
| Registrations.NormalizeAndValidateUpdate | backend/internal/registrations/policy.go:115-130 | the same for updates |
| Registrations.NormalizeAndValidateAdminCreate | backend/internal/registrations/policy.go:56-113 | the same for administrators' requests |
| Registrations.OutcomeIsExact | backend/internal/registrations/policy.go:12-130 | group limit iff more than ten people; acceptance iff no fault; otherwise the keys are precisely the paths of the faulty fields, with their messages |
| Registrations.ParticipantKeys | backend/internal/registrations/policy.go:208-242 | a participant's key is there iff that participant exists and its trimmed text is a missing name or too long |
| Registrations.ContactKeys | backend/internal/registrations/policy.go:185-206 | a contact's keys are there iff the normalised name, address or phone number breaks its rule |
| Registrations.SendEmailNeverAlone | backend/internal/registrations/policy.go:90-92 | the send-email fault never comes without an email fault |
| Registrations.UpdateIsFixpoint | backend/internal/registrations/policy.go:115-130 | an accepted update fed back is accepted unchanged, with the same people in the same order |
| Registrations.CreateIsFixpoint | backend/internal/registrations/policy.go:12-44 | an accepted registration fed back with consent is accepted unchanged |
| Registrations.AdminIsFixpoint | backend/internal/registrations/policy.go:56-113 | an accepted administrator's request fed back is accepted unchanged |
| Registrations.CreateAgreesWithUpdate | backend/internal/registrations/policy.go:12-130 | Create accepts iff Update accepts the same data and notice and consent are in order, with equal results |
| Registrations.CreateReportsUpdateErrors | backend/internal/registrations/policy.go:12-130 | Create reports every error Update reports, with the same message |
| Registrations.AdminAgreesWithUpdate | backend/internal/registrations/policy.go:56-130 | an administrator's request is accepted iff Update accepts its data and five of its six own fields are in order |
| Registrations.AcceptedIsClean | backend/internal/registrations/policy.go:115-238 | an accepted update has one to ten people, proper names, trimmed texts within limits, a supported locale and a parseable address |
| RegistrationAnswers.UpdateAnswer | backend/internal/registrations/policy.go:115-242 | an update's whole answer: the group limit, every key with its message and condition, no other key, and every field that is kept |
| RegistrationAnswers.CreateAnswer | backend/internal/registrations/policy.go:12-54 | the same for a registration, with notice and consent |
| RegistrationAnswers.AdminAnswer | backend/internal/registrations/policy.go:56-113 | the same for an administrator's request, with its six own fields |
| SeedSlugs.SlugifyEnglish | backend/internal/seedgen/normalize.go:358-371 | the loop with its dash flag computes the kept runs of the lower-cased text joined by hyphens |
| SeedSlugs.SlugIsWellFormed | backend/internal/seedgen/normalize.go:358-371 | lower-case letters, digits and single inner hyphens only |
| SeedSlugs.SlugIsIdempotent | backend/internal/seedgen/normalize.go:358-371 | the slug of a slug is that slug |
| SeedSlugs.SlugEmptyIff | backend/internal/seedgen/normalize.go:358-371 | a slug is empty iff the lower-cased title has no ASCII letter and no digit |
| SeedSlugs.SlugOfWord | backend/internal/seedgen/normalize.go:358-371 | a word of letters and digits is its own slug in lower case |
| SeedSlugs.SlugAcross | backend/internal/seedgen/normalize.go:358-371 | any other character joins the slugs before and behind it by one hyphen; with the former this determines every slug |
| SeedSlugs.SlugSet.UniqueEventSlug | backend/internal/seedgen/normalize.go:373-387 | the slug handed out and its effect on the used set |
| SeedSlugs.CandidateWellFormed | backend/internal/seedgen/normalize.go:381-381 | a suffixed slug is well formed iff the identifier is not negative |
| SeedSlugs.CandidateSpelled | backend/internal/seedgen/normalize.go:381-381 | the suffix is a hyphen, a sign if negative, and the digits that denote the identifier |
| SeedEvents.NormalizeSchedule | backend/internal/seedgen/normalize.go:74-87 | all entries in order, or failure iff one is not fine |
| SeedEvents.TimeRangeIs | backend/internal/seedgen/normalize.go:397-439 | what a time range says, by the place of its dash and the two clock times around it, and when it is none or wrong |
| SeedEvents.NormalizeEvents | backend/internal/seedgen/normalize.go:49-91 | success means every fixture is fine and has its slug; failure names the first that is not or has none |
| SeedEvents.OutcomeReasons | backend/internal/seedgen/normalize.go:49-91 | success means every fixture is usable, failure that the first other one is not, or has no slug left |
| SeedEvents.SlugsAreDistinct | backend/internal/seedgen/normalize.go:70-73 | slugs are non-empty and pairwise distinct, and carry the identifier exactly when an earlier event has the title's slug |
| SeedEvents.EventsFollowFixtures | backend/internal/seedgen/normalize.go:62-88 | one event a fixture, in order, numbered by position, with its texts, links, date, times and schedule |
| SeedEvents.DescriptionsKeepWords | backend/internal/seedgen/normalize.go:88-88 | descriptions keep the words of all three languages, never none, and pass the CMS validator |
| SeedEvents.SlugWellFormedIff | backend/internal/seedgen/normalize.go:70-88 | an event's slug is well formed iff it is the title's own or its identifier is not negative |
| SeedEvents.RepeatedTitle | backend/internal/seedgen/normalize.go:70-88 | for every fine fixture, repeating it with a negative identifier succeeds with a slug that is not well formed |
| SeedEvents.OutcomeIsUnique | backend/internal/seedgen/normalize.go:49-91 | the specification determines the outcome, success and failure index alike |
| SeedGallery.NormalizeCategories | backend/internal/seedgen/normalize.go:125-140 | success iff the categories other than `all` have distinct non-empty ids and complete names; the known set and the output are theirs |
| SeedGallery.NormalizeGallery | backend/internal/seedgen/normalize.go:122-155 | panic, failure or success, decided by the fixtures alone |
| SeedGallery.GalleryAnswer | backend/internal/seedgen/normalize.go:122-155 | panic iff there is no category; success iff every other category and every picture is usable |
| SeedGallery.CategoriesAreDistinct | backend/internal/seedgen/normalize.go:125-140 | output categories are distinct, never `all`, numbered from zero without gaps |
| SeedGallery.CategoriesAreKept | backend/internal/seedgen/normalize.go:125-140 | every fixture category but `all` is in the output |
| SeedGallery.CategoriesInOrder | backend/internal/seedgen/normalize.go:125-140 | output categories keep the fixtures' order |
| SeedGallery.PicturesHaveCategories | backend/internal/seedgen/normalize.go:141-153 | every picture keeps its fixture's source, caption, category and flag, is numbered by its place and belongs to an output category |
| SeedCms.MergeJsonObject | backend/internal/seedgen/normalize.go:343-356 | the merge loop overlays the override, in any key order |
| SeedCms.IndexPages | backend/internal/seedgen/normalize.go:200-214 | indexing succeeds iff keys and slugs are distinct and identifiers proper |
| SeedCms.NormalizePage | backend/internal/seedgen/normalize.go:225-288 | one page's output, or failure iff a check on it or its sections fails |
| SeedCms.NormalizeCms | backend/internal/seedgen/normalize.go:199-291 | success is decided by the fixtures alone; pages and sections are those of the required keys in order |
| SeedCms.CmsAnswer | backend/internal/seedgen/normalize.go:199-291 | success iff there is one usable page for each of the six keys; pages and sections then follow one another in order, each made from the fixture of its key |
| SeedCms.EachIsChosen | backend/internal/seedgen/normalize.go:215-224 | by pigeonhole every fixture page is used, exactly once |
| SeedCms.PagesAreTheFixtures | backend/internal/seedgen/normalize.go:218-264 | the pages are exactly the required keys in order, one for each fixture |
| SeedCms.PageSlugsAreDistinct | backend/internal/seedgen/normalize.go:206-227 | page slugs are non-empty and pairwise distinct |
| SeedCms.SectionsHavePages | backend/internal/seedgen/normalize.go:265-288 | every section names the id of an output page |
| SeedCms.BodiesAreMerged | backend/internal/seedgen/normalize.go:243-263 | every page copies its fixture; generated members win in the bodies of the about and contact pages, other members and bodies stay |
| NotificationSelection.TopIsGlobal | backend/internal/handlers/dashboard_handler.go:77-169 | for every m, the sorted merge of the cuts starts with the m globally newest if and only if those hold no more of any kind than its query fetches |
| Notifications.AppendItems | backend/internal/handlers/dashboard_handler.go:84-160 | a table's loop appends its items in order |
| Notifications.SortItems | backend/internal/handlers/dashboard_handler.go:163-165 | a permutation, newest first |
| Notifications.GetAdminNotifications | backend/internal/handlers/dashboard_handler.go:75-169 | the list is the first ten of the sorted merge |
| Notifications.EntriesShowRows | backend/internal/handlers/dashboard_handler.go:77-161 | every entry shows a row of its table in a status the table's query names, with its printed identifier and its mark as new |
| Notifications.PendingRowsExact | backend/internal/handlers/dashboard_handler.go:77-148 | which rows are pending, none left out or doubled |
| Notifications.QueryCuts | backend/internal/handlers/dashboard_handler.go:77-148 | what a query fetches is a newest-first cut of the pending items |
| Notifications.ListLength | backend/internal/handlers/dashboard_handler.go:163-169 | the length is the least of ten and the sum of the cut sizes, newest first |
| Notifications.ListStartsWithNewest | backend/internal/handlers/dashboard_handler.go:77-169 | for each of its ten places, the list starts with the globally newest entries iff those hold no more of any kind than its query fetches; for up to five entries, iff at most three are privacy requests |
| Notifications.TopThreeAndFive | backend/internal/handlers/dashboard_handler.go:77-169 | so the first three always are, and the first five whenever at most three privacy requests are open |
| AnswerRanking.RankAnswers | backend/internal/community/policy.go:88-104 | the array is sorted in place |
| AnswerRanking.LessIsStrictTotal | backend/internal/community/policy.go:89-103 | the comparator is a strict total order |
| AnswerRanking.RankedInOrder | backend/internal/community/policy.go:88-104 | the result is a permutation in the documented order |
| AnswerRanking.RankingIsCanonical | backend/internal/community/policy.go:88-104 | any two orderings of the same answers rank identically, and only one arrangement is in order |
| Sorting.SliceStable | backend/internal/community/policy.go:89-89 | the in-place sort computes the sorted arrangement |
| Sorting.SortedUnique | backend/internal/community/policy.go:89-103 | two sorted arrangements of the same elements are equal |
| Origins.ParseOrigins | backend/internal/security/origins.go:13-38 | accepted iff every trimmed part is an origin, giving the distinct ones; otherwise the first faulty part's error |
| Origins.OriginsAccepted | backend/internal/security/origins.go:13-38 | missing iff blank; accepted iff every trimmed part is proper: no wildcard, an allowed scheme, a host and nothing else |
| Origins.OriginsRefused | backend/internal/security/origins.go:21-30 | otherwise the first improper part is complained of, and how |
| Origins.DistinctKeepsOrder | backend/internal/security/origins.go:17-36 | no duplicates, exactly the parts, in order of first occurrence |
| Origins.JoinThenParse | backend/cmd/app/main.go:134-136 | an accepted list joined by commas parses to the same list |
| Origins.AllowedListParses | backend/cmd/app/main.go:133-140 | with the account module enabled the value given to CORS parses to the configured list if and only if this is production or the list mentions the first local origin; otherwise to the list with the three local origins behind it |
| Origins.LocalOriginsOnStaging | backend/cmd/app/main.go:137-139 | an https-only list outside production whose CORS value has a plain-http origin |
| Origins.MeansIsUnique | backend/internal/security/origins.go:13-38 | a value parses in one way only, error included |
| Origins.LoadOrigins | backend/internal/config/account_auth.go:178-199 | the configuration succeeds iff both lists do and every account origin is a CORS origin; otherwise it names one that is not |
| Origins.ConfigAnswer | backend/internal/config/account_auth.go:178-199 | the configuration's answer to every pair of parsed lists |
| FlowCookie.DecodeOfEncode | backend/internal/accountauth/google.go:118-128 | decoding undoes encoding for every byte string, whatever its length modulo three |
| FlowCookie.EncodedAlphabet | backend/internal/accountauth/google.go:118-119 | an encoding has no dot and no line break |
| FlowCookie.EncodeSpells | backend/internal/accountauth/google.go:118-118 | each three bytes and the four symbols that stand for them make the same 24 bits |
| FlowCookie.HexSpells | backend/internal/accountauth/google.go:117-117 | two digits a byte, the higher half first |
| FlowCookie.SigningFailsIff | backend/internal/accountauth/google.go:111-119 | signing fails on an empty secret only |
| FlowCookie.ParseOfSign | backend/internal/accountauth/google.go:111-139 | parsing a signed cookie gives the state back, for every state and non-empty secret |
| FlowCookie.AcceptedCookies | backend/internal/accountauth/google.go:123-139 | accepted cookies are exactly a text that decodes to the state, a dot, and the MAC of that state |
| FlowCookie.EncodeOfDecode | backend/internal/accountauth/google.go:128-128 | encoding undoes decoding iff the unused bits are zero |
| FlowCookie.AcceptedIsSigned | backend/internal/accountauth/google.go:111-139 | an accepted cookie is the one signing gives iff it has no line break and no unused bit set |
| FlowCookie.LineBreakIsAccepted | backend/internal/accountauth/google.go:123-139 | for every state, a line break before the dot gives another accepted cookie |
| FlowCookie.UnusedBitIsAccepted | backend/internal/accountauth/google.go:128-128 | so does an unused bit |
| FlowCookie.HexInjective | backend/internal/accountauth/google.go:117-117 | the hexadecimal text determines the MAC |
| FlowCookie.AcceptedCarriesMac | backend/internal/accountauth/google.go:132-138 | two secrets that accept one cookie give its state one MAC |

## Left out

- Header parsing, token verification and request locals around the admin check; a failing database query counts as an unknown user, as in the code.
- The JSON text itself: decoding starts from values. An object is a map, so duplicate keys are not modelled. Go matches the keys of rich-text nodes and marks in any case, and so does the model; where two keys of one object differ in case only, Go takes the last in the text, which a map does not know. Page bodies are matched with exact keys, as the forms write them.
- Numbers no float can hold, and strings that are not valid UTF-8.
- The CMS validator of whole page bodies, which applies the node validator to the members it knows.
- The Contact, Privacy and Impressum pages, and the fields of the Privacy page that are not texts: they repeat the About pattern, whose theorems hold for every shape.
- Precaching from a plain-http origin, which browsers allow on localhost only.
- The Vary header of responses and storage quotas in the cache, beyond the fact that a put can fail; opening a cache is assumed to succeed.
- Titles, messages, links and counts of notifications; the database's choice among rows of equal time is left open.
- Wording of errors where it only repeats a path or an index, in the seed normalisers and the two rich-text validators.
- `DeriveAvailability` and the other single-branch policies.
- Schedules, monks and settings of the seed, which follow the event and gallery patterns, and the fixture counts.
- Identifiers of seed pages are not checked to differ, neither by the code nor by the model.
- Services, sessions, the outbox, storage and email, and everything of the frontend but the service worker.
- Secrecy and unforgeability: the MAC is any function.
