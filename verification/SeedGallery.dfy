/** Normalising gallery fixtures (backend/internal/seedgen/normalize.go). */
module SeedGallery {
  import opened SeedTexts

  datatype CategoryFixture = CategoryFixture(id: string, active: bool, name: Localized)

  datatype GalleryFixture = GalleryFixture(source: string, caption: Localized, category: string, active: bool)

  datatype SeedCategory = SeedCategory(slug: string, name: Localized, displayOrder: nat, isActive: bool)

  datatype SeedGallery =
    SeedGallery(imageUrl: string, thumbnailUrl: string, categorySlug: string, caption: Localized,
                displayOrder: nat, isActive: bool)

  /** `Panicked` is the runtime's answer to a slice of negative capacity. */
  datatype Outcome = Normalized(categories: seq<SeedCategory>, galleries: seq<SeedGallery>) | Failed | Panicked

  const ALL := "all"

  /* ---------- the meaning ---------- */

  /** The categories other than the artificial one for all pictures. */
  function Shown(categories: seq<CategoryFixture>): (r: seq<CategoryFixture>)
    ensures forall c :: c in r <==> c in categories && c.id != ALL
  {
    if categories == [] then []
    else
      var init, last := categories[..|categories| - 1], categories[|categories| - 1];
      assert categories == init + [last];
      if last.id == ALL then Shown(init) else Shown(init) + [last]
  }

  predicate CategoriesFine(shown: seq<CategoryFixture>) {
    && (forall i :: 0 <= i < |shown| ==> shown[i].id != "" && Complete(shown[i].name))
    && forall i, j :: 0 <= i < j < |shown| ==> shown[i].id != shown[j].id
  }

  function Ids(shown: seq<CategoryFixture>): set<string> {
    set c | c in shown :: c.id
  }

  predicate GalleryFine(ids: set<string>, g: GalleryFixture) {
    g.source != "" && g.category in ids && Complete(g.caption)
  }

  function CategoryOf(c: CategoryFixture, order: nat): SeedCategory {
    SeedCategory(c.id, c.name, order, c.active)
  }

  function GalleryOf(g: GalleryFixture, order: nat): SeedGallery {
    SeedGallery(g.source, g.source, g.category, g.caption, order, g.active)
  }

  function CategoriesOf(shown: seq<CategoryFixture>): seq<SeedCategory> {
    seq(|shown|, i requires 0 <= i < |shown| => CategoryOf(shown[i], i))
  }

  function GalleriesOf(galleries: seq<GalleryFixture>): seq<SeedGallery> {
    seq(|galleries|, i requires 0 <= i < |galleries| => GalleryOf(galleries[i], i))
  }

  predicate Fine(categories: seq<CategoryFixture>, galleries: seq<GalleryFixture>) {
    var shown := Shown(categories);
    CategoriesFine(shown) && forall i :: 0 <= i < |galleries| ==> GalleryFine(Ids(shown), galleries[i])
  }

  function Result(categories: seq<CategoryFixture>, galleries: seq<GalleryFixture>): Outcome {
    if categories == [] then Panicked
    else if Fine(categories, galleries) then Normalized(CategoriesOf(Shown(categories)), GalleriesOf(galleries))
    else Failed
  }

  /* ---------- the source's loops ---------- */

  lemma ShownStep(categories: seq<CategoryFixture>, i: nat)
    requires i < |categories|
    ensures Shown(categories[..i + 1]) ==
      if categories[i].id == ALL then Shown(categories[..i]) else Shown(categories[..i]) + [categories[i]]
  {
    var next := categories[..i + 1];
    assert next[..|next| - 1] == categories[..i] && next[|next| - 1] == categories[i];
  }

  lemma FineGrows(shown: seq<CategoryFixture>, c: CategoryFixture)
    requires CategoriesFine(shown)
    ensures CategoriesFine(shown + [c]) <==> c.id != "" && Complete(c.name) && c.id !in Ids(shown)
    ensures Ids(shown + [c]) == Ids(shown) + {c.id}
    ensures CategoriesOf(shown + [c]) == CategoriesOf(shown) + [CategoryOf(c, |shown|)]
  {
    hide Complete;
    var all := shown + [c];
    if c.id in Ids(shown) {
      var d :| d in shown && d.id == c.id;
      var k :| 0 <= k < |shown| && shown[k] == d;
      assert all[k].id == all[|shown|].id;
    }
    if CategoriesFine(all) {
      assert all[|shown|] == c;
    }
  }

  /** One bad category spoils the list. */
  lemma {:induction false} PrefixFine(categories: seq<CategoryFixture>, i: nat)
    requires i <= |categories| && CategoriesFine(Shown(categories))
    ensures CategoriesFine(Shown(categories[..i]))
    decreases |categories| - i
  {
    if i == |categories| {
      assert categories[..i] == categories;
    } else {
      PrefixFine(categories, i + 1);
      ShownStep(categories, i);
      hide Shown, Complete;
      if categories[i].id != ALL {
        ShorterFine(Shown(categories[..i]), categories[i]);
      }
    }
  }

  lemma ShorterFine(shown: seq<CategoryFixture>, c: CategoryFixture)
    requires CategoriesFine(shown + [c])
    ensures CategoriesFine(shown)
  {
    hide Complete;
    var all := shown + [c];
    assert forall i :: 0 <= i < |shown| ==> all[i] == shown[i];
  }

  method NormalizeCategories(categories: seq<CategoryFixture>)
    returns (ok: bool, known: set<string>, result: seq<SeedCategory>)
    ensures ok == CategoriesFine(Shown(categories))
    ensures ok ==> known == Ids(Shown(categories)) && result == CategoriesOf(Shown(categories))
  {
    hide Shown, CategoriesFine, Complete, Ids, CategoriesOf;
    known, result := {}, [];
    NothingShown();
    for i := 0 to |categories|
      invariant CategoriesFine(Shown(categories[..i])) && known == Ids(Shown(categories[..i]))
      invariant result == CategoriesOf(Shown(categories[..i])) && |result| == |Shown(categories[..i])|
    {
      ShownStep(categories, i);
      var category := categories[i];
      if category.id == ALL {
        continue;
      }
      FineGrows(Shown(categories[..i]), category);
      if category.id == "" || category.id in known || !Complete(category.name) {
        if CategoriesFine(Shown(categories)) { PrefixFine(categories, i + 1); }
        return false, known, result;
      }
      known := known + {category.id};
      result := result + [SeedCategory(category.id, category.name, |result|, category.active)];
    }
    assert categories[..|categories|] == categories;
    ok := true;
  }

  lemma NothingShown()
    ensures forall categories: seq<CategoryFixture> :: Shown(categories[..0]) == []
    ensures CategoriesFine([]) && Ids([]) == {} && CategoriesOf([]) == []
  {}

  method NormalizeGallery(categories: seq<CategoryFixture>, galleries: seq<GalleryFixture>) returns (outcome: Outcome)
    ensures outcome == Result(categories, galleries)
  {
    hide Shown, CategoriesFine, Complete, Ids, CategoriesOf;
    if |categories| - 1 < 0 {
      return Panicked;
    }
    var ok, known, seedCategories := NormalizeCategories(categories);
    if !ok {
      return Failed;
    }
    var seedGalleries: seq<SeedGallery> := [];
    for i := 0 to |galleries|
      invariant |seedGalleries| == i
      invariant forall j :: 0 <= j < i ==>
        GalleryFine(known, galleries[j]) && seedGalleries[j] == GalleryOf(galleries[j], j)
    {
      var gallery := galleries[i];
      assert GalleryFine(known, gallery) <==>
        gallery.source != "" && gallery.category in known && Complete(gallery.caption);
      if gallery.source == "" || gallery.category !in known || !Complete(gallery.caption) {
        return Failed;
      }
      seedGalleries := seedGalleries
        + [SeedGallery(gallery.source, gallery.source, gallery.category, gallery.caption, i, gallery.active)];
    }
    assert seedGalleries == GalleriesOf(galleries);
    outcome := Normalized(seedCategories, seedGalleries);
  }

  /* ---------- what success guarantees ---------- */

  /** Categories have distinct, non-empty slugs, never the artificial one, numbered from zero without gaps. */
  lemma CategoriesAreDistinct(categories: seq<CategoryFixture>, galleries: seq<GalleryFixture>)
    requires Result(categories, galleries).Normalized?
    ensures var out := Result(categories, galleries).categories;
      && (forall i :: 0 <= i < |out| ==> out[i].displayOrder == i && out[i].slug !in {"", "all"})
      && (forall i, j :: 0 <= i < j < |out| ==> out[i].slug != out[j].slug)
  {
    hide Complete;
    var shown := Shown(categories);
    forall i | 0 <= i < |shown| ensures shown[i].id != ALL {
      assert shown[i] in shown;
    }
  }

  /** Each fixture category but the artificial ones becomes exactly one output category. */
  lemma CategoriesAreKept(categories: seq<CategoryFixture>, galleries: seq<GalleryFixture>, c: CategoryFixture)
    requires Result(categories, galleries).Normalized? && c in categories && c.id != "all"
    ensures var out := Result(categories, galleries).categories;
      exists i :: 0 <= i < |out| && out[i] == SeedCategory(c.id, c.name, i, c.active)
  {
    hide Complete, CategoriesFine;
    var shown := Shown(categories);
    assert c in shown;
    var i :| 0 <= i < |shown| && shown[i] == c;
    assert CategoriesOf(shown)[i] == CategoryOf(c, i);
  }

  /** Every picture is numbered by its place and belongs to an output category. */
  lemma PicturesHaveCategories(categories: seq<CategoryFixture>, galleries: seq<GalleryFixture>, k: nat)
    requires Result(categories, galleries).Normalized? && k < |Result(categories, galleries).galleries|
    ensures var out := Result(categories, galleries);
      && |out.galleries| == |galleries| && out.galleries[k].displayOrder == k
      && out.galleries[k].thumbnailUrl == out.galleries[k].imageUrl == galleries[k].source != ""
      && out.galleries[k].caption == galleries[k].caption && out.galleries[k].isActive == galleries[k].active
      && out.galleries[k].categorySlug == galleries[k].category
      && exists i :: 0 <= i < |out.categories| && out.categories[i].slug == out.galleries[k].categorySlug
  {
    hide Complete, CategoriesFine;
    var shown := Shown(categories);
    assert GalleryFine(Ids(shown), galleries[k]);
    var c :| c in shown && c.id == galleries[k].category;
    var i :| 0 <= i < |shown| && shown[i] == c;
    assert CategoriesOf(shown)[i].slug == galleries[k].category;
  }

  /** What the fixtures must be like: categories other than the artificial one with distinct, non-empty
      identifiers and complete names, and pictures with a source, a complete caption and one of them. */
  ghost predicate Usable(categories: seq<CategoryFixture>, galleries: seq<GalleryFixture>) {
    && (forall c :: c in categories && c.id != "all" ==> c.id != "" && Complete(c.name))
    && (forall i, j :: 0 <= i < j < |categories| && categories[i].id == categories[j].id ==> categories[i].id == "all")
    && forall g :: g in galleries ==>
         && g.source != "" && Complete(g.caption)
         && exists c :: c in categories && c.id == g.category && c.id != "all"
  }

  /** The answer, in the fixtures' terms. */
  lemma GalleryAnswer(categories: seq<CategoryFixture>, galleries: seq<GalleryFixture>)
    ensures Result(categories, galleries) == Panicked <==> |categories| == 0
    ensures Result(categories, galleries).Normalized? <==> |categories| > 0 && Usable(categories, galleries)
  {
    hide Complete, Shown;
    DistinctShown(categories);
    var shown := Shown(categories);
    if Usable(categories, galleries) {
      forall i | 0 <= i < |galleries| ensures GalleryFine(Ids(shown), galleries[i]) {
        assert galleries[i] in galleries;
      }
      forall i | 0 <= i < |shown| ensures shown[i].id != "" && Complete(shown[i].name) { assert shown[i] in shown; }
    }
    if Fine(categories, galleries) {
      forall c | c in categories && c.id != "all" ensures c.id != "" && Complete(c.name) { assert c in shown; }
      forall g | g in galleries
        ensures g.source != "" && Complete(g.caption)
        ensures exists c :: c in categories && c.id == g.category && c.id != "all"
      {
        var i :| 0 <= i < |galleries| && galleries[i] == g;
        assert GalleryFine(Ids(shown), galleries[i]);
      }
    }
  }

  ghost predicate DistinctIds(shown: seq<CategoryFixture>) {
    forall i, j :: 0 <= i < j < |shown| ==> shown[i].id != shown[j].id
  }

  ghost predicate DistinctButAll(categories: seq<CategoryFixture>) {
    forall i, j :: 0 <= i < j < |categories| && categories[i].id == categories[j].id ==> categories[i].id == "all"
  }

  /** Leaving the artificial categories out keeps the others, with their repetitions. */
  lemma {:induction false} DistinctShown(categories: seq<CategoryFixture>)
    ensures DistinctIds(Shown(categories)) <==> DistinctButAll(categories)
  {
    if categories != [] {
      var init, last := categories[..|categories| - 1], categories[|categories| - 1];
      assert categories == init + [last];
      DistinctShown(init);
      ShownLast(init, last);
      DistinctAppend(init, last);
      hide *;
      if last.id != "all" {
        IdsShown(init, last.id);
        DistinctIdsAppend(Shown(init), last);
      }
    } else {
      NothingShown();
    }
  }

  lemma ShownLast(init: seq<CategoryFixture>, last: CategoryFixture)
    ensures Shown(init + [last]) == if last.id == "all" then Shown(init) else Shown(init) + [last]
  {
    var all := init + [last];
    assert all[..|all| - 1] == init && all[|all| - 1] == last;
  }

  lemma DistinctAppend(init: seq<CategoryFixture>, last: CategoryFixture)
    ensures DistinctButAll(init + [last]) <==>
      DistinctButAll(init) && (last.id == "all" || forall c :: c in init ==> c.id != last.id)
  {
    var all := init + [last];
    assert forall i :: 0 <= i < |init| ==> all[i] == init[i];
    if DistinctButAll(all) && last.id != "all" {
      forall i | 0 <= i < |init| ensures init[i].id != last.id { assert all[i].id == all[|init|].id ==> false; }
    }
  }

  lemma DistinctIdsAppend(init: seq<CategoryFixture>, last: CategoryFixture)
    ensures DistinctIds(init + [last]) <==> DistinctIds(init) && forall c :: c in init ==> c.id != last.id
  {
    var all := init + [last];
    assert forall i :: 0 <= i < |init| ==> all[i] == init[i];
    if DistinctIds(all) {
      forall i | 0 <= i < |init| ensures init[i].id != last.id { assert all[i].id != all[|init|].id; }
    }
  }

  lemma IdsShown(categories: seq<CategoryFixture>, id: string)
    requires id != "all"
    ensures (forall c :: c in Shown(categories) ==> c.id != id) <==> forall c :: c in categories ==> c.id != id
  {
    var shown := Shown(categories);
    forall c ensures c in shown <==> c in categories && c.id != "all" {}
    hide Shown;
  }

  /** Output categories keep the order of their fixtures. */
  lemma {:induction false} ShownInOrder(categories: seq<CategoryFixture>, i: nat, j: nat) returns (a: nat, b: nat)
    requires i < j < |Shown(categories)|
    ensures a < b < |categories| && categories[a] == Shown(categories)[i] && categories[b] == Shown(categories)[j]
  {
    var init, last := categories[..|categories| - 1], categories[|categories| - 1];
    var shown := Shown(init);
    if j < |shown| {
      a, b := ShownInOrder(init, i, j);
    } else {
      b := |categories| - 1;
      assert shown[i] in shown;
      a :| 0 <= a < |init| && init[a] == shown[i];
    }
  }

  lemma CategoriesInOrder(categories: seq<CategoryFixture>, galleries: seq<GalleryFixture>, i: nat, j: nat)
    returns (a: nat, b: nat)
    requires Result(categories, galleries).Normalized? && i < j < |Result(categories, galleries).categories|
    ensures var out := Result(categories, galleries).categories;
      a < b < |categories| && out[i].slug == categories[a].id && out[j].slug == categories[b].id
  {
    hide Complete, CategoriesFine, Shown;
    a, b := ShownInOrder(categories, i, j);
  }
}
