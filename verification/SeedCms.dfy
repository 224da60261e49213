/** Normalising CMS page fixtures (backend/internal/seedgen/normalize.go). UUID parsing and the two generated
    page bodies are parameters. */
module SeedCms {
  import opened GoStrings
  import opened Json
  import opened SeedTexts

  /* ---------- entities ---------- */

  datatype SectionFixture =
    SectionFixture(id: string, pageId: string, sectionKey: string, sectionType: string, title: Localized,
                   description: Localized, body: Json, settings: Json, sortOrder: int)

  datatype PageFixture =
    PageFixture(id: string, pageKey: string, slug: string, title: Localized, description: Localized,
                seo: Json, body: Json, settings: Json, sections: seq<SectionFixture>)

  datatype SeedPage =
    SeedPage(id: string, pageKey: string, slug: string, title: Localized, description: Localized,
             seo: Json, body: Json, settings: Json)

  datatype Outcome = Normalized(pages: seq<SeedPage>, sections: seq<SectionFixture>) | Failed

  /** `aboutBody` and `contactBody` are the bodies generated from their fixtures, when those are complete. */
  datatype Env = Env(isUuid: string -> bool, aboutBody: Option<map<string, Json>>,
                     contactBody: Option<map<string, Json>>)

  const HOME := "PAGE-HOME"
  const ABOUT := "PAGE-ABOUT"
  const CONTACT := "PAGE-CONTACT"
  const EVENTS := "PAGE-EVENTS"
  const GALLERY := "PAGE-GALLERY"
  const MONKS := "PAGE-MONKS"

  /** The public pages, in output order. */
  const REQUIRED := [HOME, ABOUT, CONTACT, EVENTS, GALLERY, MONKS]

  lemma RequiredAreDistinct()
    ensures |REQUIRED| == 6 && forall i, j :: 0 <= i < j < |REQUIRED| ==> REQUIRED[i] != REQUIRED[j]
  {
    assert HOME[5] == 'H' && ABOUT[5] == 'A' && CONTACT[5] == 'C' && EVENTS[5] == 'E' && GALLERY[5] == 'G'
      && MONKS[5] == 'M';
  }

  /* ---------- the meaning ---------- */

  /** What the body of a page is overridden with; `None` when that cannot be generated. */
  function Override(env: Env, key: string): Option<map<string, Json>> {
    if key == ABOUT then env.aboutBody
    else if key == CONTACT then env.contactBody
    else Some(map[])
  }

  predicate SectionFine(env: Env, page: PageFixture, s: SectionFixture) {
    && env.isUuid(s.id) && env.isUuid(s.pageId) && s.pageId == page.id && s.sectionKey != "" && s.sectionType != ""
    && Complete(s.title) && Complete(s.description) && s.body.JObject? && s.settings.JObject?
  }

  predicate PageFine(env: Env, page: PageFixture) {
    && page.slug != "" && Complete(page.title) && Complete(page.description)
    && page.seo.JObject? && page.body.JObject? && page.settings.JObject?
    && Override(env, page.pageKey).Some?
    && forall i :: 0 <= i < |page.sections| ==> SectionFine(env, page, page.sections[i])
  }

  /** Distinct keys, distinct slugs, proper identifiers. */
  predicate Indexable(env: Env, fixtures: seq<PageFixture>) {
    && (forall i, j :: 0 <= i < j < |fixtures| ==>
          fixtures[i].pageKey != fixtures[j].pageKey && fixtures[i].slug != fixtures[j].slug)
    && forall i :: 0 <= i < |fixtures| ==> env.isUuid(fixtures[i].id)
  }

  function Keys(fixtures: seq<PageFixture>): set<string> {
    set f | f in fixtures :: f.pageKey
  }

  predicate Fine(env: Env, fixtures: seq<PageFixture>) {
    && Indexable(env, fixtures) && |fixtures| == |REQUIRED|
    && (forall k :: 0 <= k < |REQUIRED| ==> REQUIRED[k] in Keys(fixtures))
    && forall i :: 0 <= i < |fixtures| ==> PageFine(env, fixtures[i])
  }

  function PageOf(env: Env, page: PageFixture): SeedPage
    requires PageFine(env, page)
  {
    SeedPage(page.id, page.pageKey, page.slug, page.title, page.description, page.seo,
             JObject(page.body.fields + Override(env, page.pageKey).value), page.settings)
  }

  /** `chosen` are the fixtures of the first required keys, in order. */
  ghost predicate Chosen(fixtures: seq<PageFixture>, chosen: seq<PageFixture>) {
    && |chosen| <= |REQUIRED|
    && forall k :: 0 <= k < |chosen| ==> chosen[k] in fixtures && chosen[k].pageKey == REQUIRED[k]
  }

  function SectionsOf(chosen: seq<PageFixture>): seq<SectionFixture> {
    if chosen == [] then [] else SectionsOf(chosen[..|chosen| - 1]) + chosen[|chosen| - 1].sections
  }

  /** Success is decided by the fixtures alone; the pages are then those of the required keys in order, and
      the sections theirs. */
  ghost predicate Means(env: Env, fixtures: seq<PageFixture>, outcome: Outcome) {
    if Fine(env, fixtures) then
      exists chosen :: |chosen| == |REQUIRED| && Produces(env, fixtures, chosen, outcome)
    else outcome == Failed
  }

  ghost predicate Produces(env: Env, fixtures: seq<PageFixture>, chosen: seq<PageFixture>, outcome: Outcome) {
    && Chosen(fixtures, chosen) && outcome.Normalized?
    && |outcome.pages| == |chosen| && outcome.sections == SectionsOf(chosen)
    && forall k :: 0 <= k < |chosen| ==> PageFine(env, chosen[k]) && outcome.pages[k] == PageOf(env, chosen[k])
  }

  /* ---------- the source's loops ---------- */

  /** Overlaying one object's members on another's, in whatever order they come. */
  method MergeJsonObject(base: map<string, Json>, override: map<string, Json>) returns (merged: map<string, Json>)
    ensures merged == base + override
  {
    merged := base;
    var left := override.Keys;
    while left != {}
      invariant left <= override.Keys && merged == base + (override - left)
      decreases left
    {
      var key :| key in left;
      merged := merged[key := override[key]];
      left := left - {key};
    }
    assert override - {} == override;
  }

  ghost predicate Seen(fixtures: seq<PageFixture>, slugs: set<string>) {
    forall s :: s in slugs <==> exists i :: 0 <= i < |fixtures| && fixtures[i].slug == s
  }

  ghost predicate Filed(fixtures: seq<PageFixture>, byKey: map<string, PageFixture>) {
    forall k :: k in byKey ==> byKey[k] in fixtures && byKey[k].pageKey == k
  }

  /** The pages by key, and the slugs seen. */
  ghost predicate Indexed(fixtures: seq<PageFixture>, byKey: map<string, PageFixture>, slugs: set<string>) {
    && byKey.Keys == Keys(fixtures)
    && Filed(fixtures, byKey)
    && Seen(fixtures, slugs)
    && |byKey| == |fixtures|
  }

  lemma KeyIsThere(fixtures: seq<PageFixture>, key: string) returns (i: nat)
    requires key in Keys(fixtures)
    ensures i < |fixtures| && fixtures[i].pageKey == key
  {
    var f :| f in fixtures && f.pageKey == key;
    i :| 0 <= i < |fixtures| && fixtures[i] == f;
  }

  lemma IndexableGrows(env: Env, fixtures: seq<PageFixture>, byKey: map<string, PageFixture>, slugs: set<string>,
                       page: PageFixture)
    requires Indexed(fixtures, byKey, slugs) && Indexable(env, fixtures)
    ensures Indexable(env, fixtures + [page]) <==> page.pageKey !in byKey && page.slug !in slugs && env.isUuid(page.id)
  {
    var all := fixtures + [page];
    var n := |fixtures|;
    if page.pageKey in byKey {
      var i := KeyIsThere(fixtures, page.pageKey);
      assert all[i].pageKey == all[n].pageKey;
    } else if page.slug in slugs {
      var i :| 0 <= i < n && fixtures[i].slug == page.slug;
      assert all[i].slug == all[n].slug;
    } else {
      forall i | 0 <= i < n ensures fixtures[i].pageKey != page.pageKey && fixtures[i].slug != page.slug {
        assert fixtures[i] in fixtures;
      }
      assert Indexable(env, all) ==> env.isUuid(all[n].id);
    }
  }

  lemma KeysGrow(fixtures: seq<PageFixture>, page: PageFixture)
    ensures Keys(fixtures + [page]) == Keys(fixtures) + {page.pageKey}
  {
    assert page in fixtures + [page];
  }

  lemma SlugsGrow(fixtures: seq<PageFixture>, slugs: set<string>, page: PageFixture)
    requires Seen(fixtures, slugs)
    ensures Seen(fixtures + [page], slugs + {page.slug})
  {
    var all := fixtures + [page];
    assert all[|fixtures|] == page;
    forall s | s in slugs ensures exists i :: 0 <= i < |all| && all[i].slug == s {
      var i :| 0 <= i < |fixtures| && fixtures[i].slug == s;
      assert all[i].slug == s;
    }
  }

  lemma FiledGrows(fixtures: seq<PageFixture>, byKey: map<string, PageFixture>, page: PageFixture)
    requires Filed(fixtures, byKey)
    ensures Filed(fixtures + [page], byKey[page.pageKey := page])
  {}

  lemma IndexGrows(fixtures: seq<PageFixture>, byKey: map<string, PageFixture>, slugs: set<string>, page: PageFixture)
    requires Indexed(fixtures, byKey, slugs) && page.pageKey !in byKey
    ensures Indexed(fixtures + [page], byKey[page.pageKey := page], slugs + {page.slug})
  {
    KeysGrow(fixtures, page);
    SlugsGrow(fixtures, slugs, page);
    FiledGrows(fixtures, byKey, page);
    hide Keys, Seen, Filed;
  }

  lemma PrefixIndexable(env: Env, fixtures: seq<PageFixture>, i: nat)
    requires i <= |fixtures| && Indexable(env, fixtures)
    ensures Indexable(env, fixtures[..i])
  {}

  lemma NothingIndexed(env: Env, fixtures: seq<PageFixture>)
    ensures Indexed(fixtures[..0], map[], {}) && Indexable(env, fixtures[..0])
  {}

  /** The first loop. */
  method IndexPages(env: Env, fixtures: seq<PageFixture>)
    returns (ok: bool, byKey: map<string, PageFixture>, ghost slugs: set<string>)
    ensures ok == Indexable(env, fixtures)
    ensures ok ==> Indexed(fixtures, byKey, slugs)
  {
    hide Indexed, Indexable;
    byKey, slugs := map[], {};
    var pageSlugs: set<string> := {};
    NothingIndexed(env, fixtures);
    for i := 0 to |fixtures|
      invariant Indexed(fixtures[..i], byKey, pageSlugs) && Indexable(env, fixtures[..i])
    {
      var page := fixtures[i];
      IndexableGrows(env, fixtures[..i], byKey, pageSlugs, page);
      assert fixtures[..i + 1] == fixtures[..i] + [page];
      if page.pageKey in byKey || page.slug in pageSlugs || !env.isUuid(page.id) {
        if Indexable(env, fixtures) { PrefixIndexable(env, fixtures, i + 1); }
        return false, byKey, pageSlugs;
      }
      IndexGrows(fixtures[..i], byKey, pageSlugs, page);
      byKey := byKey[page.pageKey := page];
      pageSlugs := pageSlugs + {page.slug};
    }
    assert fixtures[..|fixtures|] == fixtures;
    ok, slugs := true, pageSlugs;
  }

  /** The checks of one page, and its output; `None` when a check fails. */
  method NormalizePage(env: Env, page: PageFixture) returns (result: Option<SeedPage>)
    ensures result == if PageFine(env, page) then Some(PageOf(env, page)) else None
  {
    hide Complete;
    if page.slug == "" || !Complete(page.title) || !Complete(page.description) {
      return None;
    }
    if !page.seo.JObject? || !page.body.JObject? || !page.settings.JObject? {
      return None;
    }
    var body := page.body.fields;
    assert body + map[] == body;
    if page.pageKey == ABOUT {
      if env.aboutBody.None? {
        return None;
      }
      body := MergeJsonObject(body, env.aboutBody.value);
    }
    if page.pageKey == CONTACT {
      assert ABOUT[5] != CONTACT[5];
      if env.contactBody.None? {
        return None;
      }
      body := MergeJsonObject(body, env.contactBody.value);
    }
    for i := 0 to |page.sections|
      invariant forall j :: 0 <= j < i ==> SectionFine(env, page, page.sections[j])
    {
      var section := page.sections[i];
      if !SectionFine(env, page, section) {
        return None;
      }
    }
    result := Some(SeedPage(page.id, page.pageKey, page.slug, page.title, page.description, page.seo,
                            JObject(body), page.settings));
  }

  method NormalizeCms(env: Env, fixtures: seq<PageFixture>) returns (outcome: Outcome)
    ensures Means(env, fixtures, outcome)
  {
    hide PageFine, Indexable, PageOf;
    var ok, byKey, slugs := IndexPages(env, fixtures);
    if !ok || |byKey| != |REQUIRED| {
      return Failed;
    }
    ghost var chosen: seq<PageFixture> := [];
    var pages: seq<SeedPage> := [];
    var sections: seq<SectionFixture> := [];
    for k := 0 to |REQUIRED|
      invariant |chosen| == k && Produces(env, fixtures, chosen, Normalized(pages, sections))
    {
      var key := REQUIRED[k];
      if key !in byKey {
        return Failed;
      }
      var page := byKey[key];
      var seedPage := NormalizePage(env, page);
      if seedPage.None? {
        NotFine(env, fixtures, page);
        return Failed;
      }
      pages := pages + [seedPage.value];
      sections := sections + page.sections;
      ChosenGrows(fixtures, chosen, page);
      chosen := chosen + [page];
    }
    outcome := Normalized(pages, sections);
    AllChosen(env, fixtures, chosen);
  }

  lemma NotFine(env: Env, fixtures: seq<PageFixture>, page: PageFixture)
    requires page in fixtures && !PageFine(env, page)
    ensures !Fine(env, fixtures)
  {
    hide PageFine, Indexable;
    var i :| 0 <= i < |fixtures| && fixtures[i] == page;
  }

  lemma ChosenGrows(fixtures: seq<PageFixture>, chosen: seq<PageFixture>, page: PageFixture)
    requires Chosen(fixtures, chosen) && |chosen| < |REQUIRED|
    requires page in fixtures && page.pageKey == REQUIRED[|chosen|]
    ensures Chosen(fixtures, chosen + [page])
    ensures SectionsOf(chosen + [page]) == SectionsOf(chosen) + page.sections
  {
    hide REQUIRED;
    SectionsGrow(chosen, page);
    hide SectionsOf;
    var all := chosen + [page];
    forall k | 0 <= k < |all|
      ensures all[k] in fixtures && all[k].pageKey == REQUIRED[k]
    {
      assert all[k] == if k < |chosen| then chosen[k] else page;
    }
  }

  lemma SectionsGrow(chosen: seq<PageFixture>, page: PageFixture)
    ensures SectionsOf(chosen + [page]) == SectionsOf(chosen) + page.sections
  {
    var all := chosen + [page];
    assert all[..|all| - 1] == chosen && all[|all| - 1] == page;
  }

  /* ---------- the pigeonhole ---------- */

  lemma SubsetOfSameSize(a: set<string>, b: set<string>)
    requires a <= b && |a| >= |b|
    ensures a == b
  {
    assert b == a + (b - a);
    assert |b| == |a| + |b - a|;
  }

  lemma {:induction false} ElementsOfDistinct(s: seq<string>)
    requires forall i, j :: 0 <= i < j < |s| ==> s[i] != s[j]
    ensures |(set x | x in s)| == |s|
  {
    if s != [] {
      var init, last := s[..|s| - 1], s[|s| - 1];
      ElementsOfDistinct(init);
      assert s == init + [last];
      assert (set x | x in s) == (set x | x in init) + {last};
      forall i | 0 <= i < |init| ensures init[i] != last { assert s[i] != s[|s| - 1]; }
    }
  }

  /** As many keys as required pages, and every required key among them: no other key is left. */
  lemma KeysAreRequired(fixtures: seq<PageFixture>)
    requires |Keys(fixtures)| == |REQUIRED| && forall k :: 0 <= k < |REQUIRED| ==> REQUIRED[k] in Keys(fixtures)
    ensures Keys(fixtures) == (set x | x in REQUIRED)
  {
    RequiredAreDistinct();
    ElementsOfDistinct(REQUIRED);
    SubsetOfSameSize((set x | x in REQUIRED), Keys(fixtures));
  }

  lemma KeysCount(env: Env, fixtures: seq<PageFixture>)
    requires Indexable(env, fixtures)
    ensures |Keys(fixtures)| == |fixtures|
  {
    var keys := seq(|fixtures|, i requires 0 <= i < |fixtures| => fixtures[i].pageKey);
    ElementsOfDistinct(keys);
    assert (set x | x in keys) == Keys(fixtures) by {
      forall x | x in Keys(fixtures) ensures x in keys {
        var f :| f in fixtures && f.pageKey == x;
        var i :| 0 <= i < |fixtures| && fixtures[i] == f;
        assert keys[i] == x;
      }
      forall x | x in keys ensures x in Keys(fixtures) {
        var i :| 0 <= i < |keys| && keys[i] == x;
        assert fixtures[i] in fixtures;
      }
    }
  }

  /** Every fixture is among the chosen, exactly once. */
  lemma EachIsChosen(env: Env, fixtures: seq<PageFixture>, chosen: seq<PageFixture>, j: nat)
    requires Indexable(env, fixtures) && |fixtures| == |REQUIRED| && Chosen(fixtures, chosen) && |chosen| == |REQUIRED|
    requires j < |fixtures|
    ensures exists k :: 0 <= k < |chosen| && chosen[k] == fixtures[j]
    ensures forall k, m :: 0 <= k < m < |chosen| ==> chosen[k] != chosen[m]
  {
    forall k | 0 <= k < |REQUIRED| ensures REQUIRED[k] in Keys(fixtures) {
      assert chosen[k] in fixtures;
    }
    KeysCount(env, fixtures);
    KeysAreRequired(fixtures);
    RequiredAreDistinct();
    hide REQUIRED;
    assert fixtures[j] in fixtures && fixtures[j].pageKey in Keys(fixtures);
    var k :| 0 <= k < |REQUIRED| && REQUIRED[k] == fixtures[j].pageKey;
    var i :| 0 <= i < |fixtures| && fixtures[i] == chosen[k];
    assert i == j;
  }

  lemma AllChosen(env: Env, fixtures: seq<PageFixture>, chosen: seq<PageFixture>)
    requires Indexable(env, fixtures) && |fixtures| == |REQUIRED| && Chosen(fixtures, chosen) && |chosen| == |REQUIRED|
    requires forall k :: 0 <= k < |chosen| ==> PageFine(env, chosen[k])
    ensures Fine(env, fixtures)
  {
    hide Indexable, PageFine, REQUIRED;
    forall k | 0 <= k < |REQUIRED| ensures REQUIRED[k] in Keys(fixtures) {
      assert chosen[k] in fixtures;
    }
    forall j | 0 <= j < |fixtures| ensures PageFine(env, fixtures[j]) {
      EachIsChosen(env, fixtures, chosen, j);
    }
  }

  /* ---------- what success guarantees ---------- */

  /** The pages are exactly the required ones in order, and each fixture made exactly one of them. */
  lemma PagesAreTheFixtures(env: Env, fixtures: seq<PageFixture>, outcome: Outcome)
    requires Means(env, fixtures, outcome) && outcome.Normalized?
    ensures |outcome.pages| == |REQUIRED| == |fixtures|
    ensures forall k :: 0 <= k < |REQUIRED| ==> outcome.pages[k].pageKey == REQUIRED[k]
    ensures forall j :: 0 <= j < |fixtures| ==> PageFine(env, fixtures[j])
    ensures forall j :: 0 <= j < |fixtures| ==>
      exists k :: 0 <= k < |outcome.pages| && outcome.pages[k] == PageOf(env, fixtures[j])
    ensures forall k :: 0 <= k < |REQUIRED| ==>
      exists j :: 0 <= j < |fixtures| && outcome.pages[k] == PageOf(env, fixtures[j])
  {
    hide PageFine, REQUIRED, Indexable, Override;
    var chosen :| |chosen| == |REQUIRED| && Produces(env, fixtures, chosen, outcome);
    forall j | 0 <= j < |fixtures|
      ensures exists k :: 0 <= k < |outcome.pages| && outcome.pages[k] == PageOf(env, fixtures[j])
    {
      EachIsChosen(env, fixtures, chosen, j);
      var k :| 0 <= k < |chosen| && chosen[k] == fixtures[j];
      assert outcome.pages[k] == PageOf(env, fixtures[j]);
    }
    forall k | 0 <= k < |REQUIRED|
      ensures exists j :: 0 <= j < |fixtures| && outcome.pages[k] == PageOf(env, fixtures[j])
    {
      var j :| 0 <= j < |fixtures| && fixtures[j] == chosen[k];
    }
  }

  /** Page slugs are non-empty and pairwise distinct. */
  lemma PageSlugsAreDistinct(env: Env, fixtures: seq<PageFixture>, outcome: Outcome, k: nat, m: nat)
    requires Means(env, fixtures, outcome) && outcome.Normalized? && k < m < |outcome.pages|
    ensures outcome.pages[k].slug != "" && outcome.pages[m].slug != "" && outcome.pages[k].slug != outcome.pages[m].slug
  {
    hide REQUIRED, Override, Complete;
    var chosen :| |chosen| == |REQUIRED| && Produces(env, fixtures, chosen, outcome);
    EachIsChosen(env, fixtures, chosen, 0);
    var i :| 0 <= i < |fixtures| && fixtures[i] == chosen[k];
    var j :| 0 <= j < |fixtures| && fixtures[j] == chosen[m];
    assert i != j;
  }

  lemma {:induction false} SectionOwner(env: Env, chosen: seq<PageFixture>, s: SectionFixture) returns (k: nat)
    requires s in SectionsOf(chosen) && forall m :: 0 <= m < |chosen| ==> PageFine(env, chosen[m])
    ensures k < |chosen| && chosen[k].id == s.pageId
  {
    hide Override, Complete;
    var init, last := chosen[..|chosen| - 1], chosen[|chosen| - 1];
    if s in last.sections {
      k := |chosen| - 1;
      var i :| 0 <= i < |last.sections| && last.sections[i] == s;
      assert SectionFine(env, last, s);
    } else {
      k := SectionOwner(env, init, s);
    }
  }

  /** Every section names the page of the output it belongs to. */
  lemma SectionsHavePages(env: Env, fixtures: seq<PageFixture>, outcome: Outcome, s: SectionFixture)
    requires Means(env, fixtures, outcome) && outcome.Normalized? && s in outcome.sections
    ensures exists k :: 0 <= k < |outcome.pages| && outcome.pages[k].id == s.pageId
  {
    var chosen :| |chosen| == |REQUIRED| && Produces(env, fixtures, chosen, outcome);
    hide REQUIRED, Override, Complete, Fine, SectionsOf, PageFine, Chosen;
    var k := SectionOwner(env, chosen, s);
    assert outcome.pages[k] == PageOf(env, chosen[k]);
  }

  /** The generated body of a page, if it has one. */
  function GeneratedFor(env: Env, key: string): Option<map<string, Json>> {
    if key == "PAGE-ABOUT" then env.aboutBody else if key == "PAGE-CONTACT" then env.contactBody else None
  }

  /** `page` comes from `fixture`: everything is copied but the body of the about and contact pages, which keeps
      every member the generated body does not name and takes the rest from it. */
  ghost predicate MadeFrom(env: Env, fixture: PageFixture, page: SeedPage) {
    && page.id == fixture.id && page.pageKey == fixture.pageKey && page.slug == fixture.slug
    && page.title == fixture.title && page.description == fixture.description && page.seo == fixture.seo
    && page.settings == fixture.settings && fixture.body.JObject? && page.body.JObject?
    && var base, body, generated := fixture.body.fields, page.body.fields, GeneratedFor(env, fixture.pageKey);
       if generated.None? then body == base
       else
         && body.Keys == base.Keys + generated.value.Keys
         && forall k :: k in body ==> body[k] == if k in generated.value then generated.value[k] else base[k]
  }

  lemma PageIsMade(env: Env, page: PageFixture)
    requires PageFine(env, page)
    ensures MadeFrom(env, page, PageOf(env, page))
  {
    hide Complete;
    assert page.body.fields + map[] == page.body.fields;
  }

  /** Every page is made from the fixture of its key. */
  lemma BodiesAreMerged(env: Env, fixtures: seq<PageFixture>, outcome: Outcome, k: nat)
    requires Means(env, fixtures, outcome) && outcome.Normalized? && k < |outcome.pages|
    ensures exists j :: 0 <= j < |fixtures| && MadeFrom(env, fixtures[j], outcome.pages[k])
  {
    PagesAreTheFixtures(env, fixtures, outcome);
    hide REQUIRED, Means, PageFine, MadeFrom, PageOf;
    var j :| 0 <= j < |fixtures| && outcome.pages[k] == PageOf(env, fixtures[j]);
    PageIsMade(env, fixtures[j]);
  }

  /* ---------- the answer, in the fixtures' terms ---------- */

  const PUBLIC_PAGES := ["PAGE-HOME", "PAGE-ABOUT", "PAGE-CONTACT", "PAGE-EVENTS", "PAGE-GALLERY", "PAGE-MONKS"]

  /** What a section needs: proper identifiers, the second that of its page, a key, a type, complete texts, and
      objects for body and settings. */
  predicate SectionUsable(env: Env, page: PageFixture, s: SectionFixture) {
    && env.isUuid(s.id) && env.isUuid(s.pageId) && page.id == s.pageId && |s.sectionKey| > 0 && |s.sectionType| > 0
    && Complete(s.title) && Complete(s.description) && s.body.JObject? && s.settings.JObject?
  }

  predicate PageUsable(env: Env, page: PageFixture) {
    && env.isUuid(page.id) && |page.slug| > 0 && Complete(page.title) && Complete(page.description)
    && page.seo.JObject? && page.body.JObject? && page.settings.JObject?
    && (page.pageKey == "PAGE-ABOUT" ==> env.aboutBody.Some?)
    && (page.pageKey == "PAGE-CONTACT" ==> env.contactBody.Some?)
    && forall s :: s in page.sections ==> SectionUsable(env, page, s)
  }

  /** One usable page for each public key, with distinct slugs, and none besides. */
  ghost predicate Usable(env: Env, fixtures: seq<PageFixture>) {
    && |fixtures| == 6
    && (forall k :: 0 <= k < 6 ==> exists j :: 0 <= j < |fixtures| && fixtures[j].pageKey == PUBLIC_PAGES[k])
    && (forall i, j :: 0 <= i < j < |fixtures| ==>
          fixtures[i].pageKey != fixtures[j].pageKey && fixtures[i].slug != fixtures[j].slug)
    && forall i :: 0 <= i < |fixtures| ==> PageUsable(env, fixtures[i])
  }

  lemma PageUsableIff(env: Env, page: PageFixture)
    ensures env.isUuid(page.id) && PageFine(env, page) <==> PageUsable(env, page)
  {
    hide Complete;
    if PageFine(env, page) {
      forall s | s in page.sections ensures SectionUsable(env, page, s) {
        var i :| 0 <= i < |page.sections| && page.sections[i] == s;
        assert SectionFine(env, page, s);
      }
    }
    if PageUsable(env, page) {
      forall i | 0 <= i < |page.sections| ensures SectionFine(env, page, page.sections[i]) {
        assert SectionUsable(env, page, page.sections[i]);
      }
    }
  }

  lemma KeyOccurs(fixtures: seq<PageFixture>, key: string)
    ensures key in Keys(fixtures) <==> exists j :: 0 <= j < |fixtures| && fixtures[j].pageKey == key
  {
    if key in Keys(fixtures) {
      var j := KeyIsThere(fixtures, key);
    }
    if j :| 0 <= j < |fixtures| && fixtures[j].pageKey == key {
      assert fixtures[j] in fixtures;
    }
  }

  lemma RequiredArePublic()
    ensures REQUIRED == PUBLIC_PAGES
  {}

  lemma UsableIff(env: Env, fixtures: seq<PageFixture>)
    ensures Fine(env, fixtures) <==> Usable(env, fixtures)
  {
    hide PageFine, PageUsable, Keys, PUBLIC_PAGES, REQUIRED;
    RequiredArePublic();
    RequiredAreDistinct();
    forall k | 0 <= k < 6
      ensures REQUIRED[k] in Keys(fixtures) <==>
        exists j :: 0 <= j < |fixtures| && fixtures[j].pageKey == PUBLIC_PAGES[k]
    {
      KeyOccurs(fixtures, REQUIRED[k]);
    }
    forall i | 0 <= i < |fixtures|
      ensures env.isUuid(fixtures[i].id) && PageFine(env, fixtures[i]) <==> PageUsable(env, fixtures[i])
    {
      PageUsableIff(env, fixtures[i]);
    }
    if Fine(env, fixtures) {
      forall k | 0 <= k < 6 ensures exists j :: 0 <= j < |fixtures| && fixtures[j].pageKey == PUBLIC_PAGES[k] {
        assert REQUIRED[k] in Keys(fixtures);
      }
      assert forall i :: 0 <= i < |fixtures| ==> PageFine(env, fixtures[i]) && env.isUuid(fixtures[i].id);
    }
    if Usable(env, fixtures) {
      forall i | 0 <= i < |fixtures| ensures env.isUuid(fixtures[i].id) && PageFine(env, fixtures[i]) {
        assert PageUsable(env, fixtures[i]);
      }
      forall k | 0 <= k < |REQUIRED| ensures REQUIRED[k] in Keys(fixtures) {}
    }
  }

  /** The answer: it succeeds exactly on usable fixtures; then page and sections of each public key follow one
      another in order, each from the fixture of that key. */
  lemma CmsAnswer(env: Env, fixtures: seq<PageFixture>, outcome: Outcome) returns (chosen: seq<PageFixture>)
    requires Means(env, fixtures, outcome)
    ensures outcome.Normalized? <==> Usable(env, fixtures)
    ensures outcome.Normalized? ==>
      && |chosen| == |outcome.pages| == 6
      && (forall k :: 0 <= k < 6 ==>
            && chosen[k] in fixtures && chosen[k].pageKey == PUBLIC_PAGES[k]
            && MadeFrom(env, chosen[k], outcome.pages[k]))
      && outcome.sections == chosen[0].sections + chosen[1].sections + chosen[2].sections + chosen[3].sections
                             + chosen[4].sections + chosen[5].sections
  {
    UsableIff(env, fixtures);
    RequiredArePublic();
    RequiredAreDistinct();
    hide Fine, Usable, PageFine, MadeFrom, PageOf, PUBLIC_PAGES, REQUIRED, SectionsOf;
    chosen := [];
    if Fine(env, fixtures) {
      chosen :| |chosen| == |REQUIRED| && Produces(env, fixtures, chosen, outcome);
      forall k | 0 <= k < 6 ensures MadeFrom(env, chosen[k], outcome.pages[k]) { PageIsMade(env, chosen[k]); }
      SixSections(chosen);
    }
  }

  lemma SixSections(chosen: seq<PageFixture>)
    requires |chosen| == 6
    ensures SectionsOf(chosen) == chosen[0].sections + chosen[1].sections + chosen[2].sections + chosen[3].sections
                                  + chosen[4].sections + chosen[5].sections
  {
    forall n | 0 <= n < 6 ensures SectionsOf(chosen[..n + 1]) == SectionsOf(chosen[..n]) + chosen[n].sections {
      assert chosen[..n + 1][..n] == chosen[..n];
    }
    hide SectionsOf;
    assert chosen[..6] == chosen && chosen[..0] == [];
    NoSections();
    assert SectionsOf(chosen[..1]) == chosen[0].sections;
  }

  lemma NoSections()
    ensures SectionsOf([]) == []
  {}
}
