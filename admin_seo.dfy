/**
 * `AdminSeoController::createUrl`: for every category, and inside that for
 * every location (and, for a location with a parent, every locality of its
 * posts), the SEO route URLs are built and each one is inserted into the
 * SeoTool table with `firstOrCreate`, which adds a row only when no row has
 * that url yet.
 */
module AdminSeo {
  import opened Strings
  import opened Catalog

  // ---------------------------------------------------------------------------
  // URL strings

  /** `"/" . $category->slug . "_c" . $category->id` */
  function CategoryUrl(c: Category): string {
    "/" + c.slug + "_c" + Decimal(c.id)
  }

  /** `"/" . $location->slug . "_g" . $location->id` */
  function LocationUrl(l: Location): string {
    "/" + l.slug + "_g" + Decimal(l.id)
  }

  /** `"/" . strtolower(str_replace(" ", "_", $locality))` */
  function LocalityUrl(locality: string): string {
    "/" + LowerAscii(ReplaceChar(locality, ' ', '_'))
  }

  /** `if ($location->parent_id)`: a non-null, non-zero parent. */
  predicate HasParent(l: Location) {
    l.parentId.Some? && l.parentId.value != 0
  }

  /** The URL names the category it was built from: slug and id can be read back from it. */
  lemma CategoryUrlInjective(c: Category, d: Category)
    requires CategoryUrl(c) == CategoryUrl(d)
    ensures c.slug == d.slug && c.id == d.id
  {
    assert CategoryUrl(c) == ("/" + c.slug + "_") + ['c'] + Decimal(c.id);
    assert CategoryUrl(d) == ("/" + d.slug + "_") + ['c'] + Decimal(d.id);
    SplitAtMarker("/" + c.slug + "_", 'c', Decimal(c.id), "/" + d.slug + "_", 'c', Decimal(d.id));
    DecimalInjective(c.id, d.id);
    assert c.slug == ("/" + c.slug + "_")[1..|c.slug| + 1];
    assert d.slug == ("/" + d.slug + "_")[1..|d.slug| + 1];
  }

  /** The URL names the location it was built from: slug and id can be read back from it. */
  lemma LocationUrlInjective(l: Location, m: Location)
    requires LocationUrl(l) == LocationUrl(m)
    ensures l.slug == m.slug && l.id == m.id
  {
    assert LocationUrl(l) == ("/" + l.slug + "_") + ['g'] + Decimal(l.id);
    assert LocationUrl(m) == ("/" + m.slug + "_") + ['g'] + Decimal(m.id);
    SplitAtMarker("/" + l.slug + "_", 'g', Decimal(l.id), "/" + m.slug + "_", 'g', Decimal(m.id));
    DecimalInjective(l.id, m.id);
    assert l.slug == ("/" + l.slug + "_")[1..|l.slug| + 1];
    assert m.slug == ("/" + m.slug + "_")[1..|m.slug| + 1];
  }

  /** The `_c` and `_g` markers keep the two route families apart, whatever the slugs. */
  lemma CategoryAndLocationUrlsDiffer(c: Category, l: Location)
    ensures CategoryUrl(c) != LocationUrl(l)
  {
    if CategoryUrl(c) == LocationUrl(l) {
      assert CategoryUrl(c) == ("/" + c.slug + "_") + ['c'] + Decimal(c.id);
      assert LocationUrl(l) == ("/" + l.slug + "_") + ['g'] + Decimal(l.id);
      SplitAtMarker("/" + c.slug + "_", 'c', Decimal(c.id), "/" + l.slug + "_", 'g', Decimal(l.id));
    }
  }

  // ---------------------------------------------------------------------------
  // The SeoTool table, seen through its `url` column

  predicate NoDuplicates(urls: seq<string>) {
    forall i, j :: 0 <= i < j < |urls| ==> urls[i] != urls[j]
  }

  /** `SeoTool::firstOrCreate(['url' => $u])`: the existing row is kept, or one row is appended. */
  function Insert(table: seq<string>, u: string): (r: seq<string>) {
    if u in table then table else table + [u]
  }

  /** `firstOrCreate` keeps every old row in place, makes `u` present, adds nothing else, and never duplicates. */
  lemma InsertKeepsAddsOnly(table: seq<string>, u: string)
    ensures table <= Insert(table, u) && u in Insert(table, u)
    ensures u in table ==> Insert(table, u) == table
    ensures forall x :: x in Insert(table, u) ==> x in table || x == u
    ensures NoDuplicates(table) ==> NoDuplicates(Insert(table, u))
  {
  }

  /** A sequence of `firstOrCreate` calls, in order. */
  function InsertAll(table: seq<string>, us: seq<string>): (r: seq<string>)
    decreases |us|
  {
    if us == [] then table else Insert(InsertAll(table, us[..|us| - 1]), us[|us| - 1])
  }

  /**
   * After the calls, the old rows are still the first rows, unchanged; every
   * issued URL is present; nothing else was added; and no URL appears twice.
   */
  lemma {:induction false} InsertAllKeepsAddsOnly(table: seq<string>, us: seq<string>)
    ensures table <= InsertAll(table, us)
    ensures forall u :: u in us ==> u in InsertAll(table, us)
    ensures forall x :: x in InsertAll(table, us) ==> x in table || x in us
    ensures NoDuplicates(table) ==> NoDuplicates(InsertAll(table, us))
    decreases |us|
  {
    if us != [] {
      var init := us[..|us| - 1];
      InsertAllKeepsAddsOnly(table, init);
      InsertKeepsAddsOnly(InsertAll(table, init), us[|us| - 1]);
      assert forall u :: u in us <==> u in init || u == us[|us| - 1] by {
        assert us == init + [us[|us| - 1]];
      }
    }
  }

  lemma InsertAllSnoc(table: seq<string>, us: seq<string>, u: string)
    ensures InsertAll(table, us + [u]) == Insert(InsertAll(table, us), u)
  {
    assert (us + [u])[..|us|] == us;
  }

  /** URLs that are all present already change nothing. */
  lemma {:induction false} InsertAllAbsorbs(table: seq<string>, us: seq<string>)
    requires forall u :: u in us ==> u in table
    ensures InsertAll(table, us) == table
    decreases |us|
  {
    if us != [] {
      assert forall u :: u in us[..|us| - 1] ==> u in us;
      InsertAllAbsorbs(table, us[..|us| - 1]);
      InsertKeepsAddsOnly(table, us[|us| - 1]);
    }
  }

  /** Issuing the same `firstOrCreate` calls a second time leaves the table as the first run left it. */
  lemma InsertAllIdempotent(table: seq<string>, us: seq<string>)
    ensures InsertAll(InsertAll(table, us), us) == InsertAll(table, us)
  {
    InsertAllKeepsAddsOnly(table, us);
    InsertAllAbsorbs(InsertAll(table, us), us);
  }

  // ---------------------------------------------------------------------------
  // The URLs `createUrl` issues, in the order it issues them

  /** The inner loop over a location's localities. */
  function LocalityUrls(locationUrl: string, categoryUrl: string, localities: seq<string>): (urls: seq<string>)
    decreases |localities|
  {
    if localities == [] then []
    else
      var x := localities[|localities| - 1];
      LocalityUrls(locationUrl, categoryUrl, localities[..|localities| - 1])
        + [locationUrl + LocalityUrl(x), locationUrl + LocalityUrl(x) + categoryUrl]
  }

  /** One pass of the location loop, inside the pass of category `c`. */
  function LocationUrls(c: Category, l: Location, localitiesOf: Location -> seq<string>): (urls: seq<string>) {
    [LocationUrl(l), LocationUrl(l) + CategoryUrl(c)]
      + (if HasParent(l) then LocalityUrls(LocationUrl(l), CategoryUrl(c), localitiesOf(l)) else [])
  }

  /** The whole location loop, inside the pass of category `c`. */
  function LocationLoopUrls(c: Category, locations: seq<Location>, localitiesOf: Location -> seq<string>): (urls: seq<string>)
    decreases |locations|
  {
    if locations == [] then []
    else LocationLoopUrls(c, locations[..|locations| - 1], localitiesOf)
           + LocationUrls(c, locations[|locations| - 1], localitiesOf)
  }

  /** One pass of the category loop. */
  function CategoryUrls(c: Category, locations: seq<Location>, localitiesOf: Location -> seq<string>): (urls: seq<string>) {
    [CategoryUrl(c)] + LocationLoopUrls(c, locations, localitiesOf)
  }

  /** Every URL `createUrl` passes to `firstOrCreate`, in call order. */
  function GeneratedUrls(categories: seq<Category>, locations: seq<Location>,
                         localitiesOf: Location -> seq<string>): (urls: seq<string>)
    decreases |categories|
  {
    if categories == [] then []
    else GeneratedUrls(categories[..|categories| - 1], locations, localitiesOf)
           + CategoryUrls(categories[|categories| - 1], locations, localitiesOf)
  }

  // Steps of the loops of `CreateUrl`, each relating the URLs issued so far to the functions above.

  lemma LocalityStep(afterPair: seq<string>, lu: string, cu: string, localities: seq<string>, k: nat,
                     issued: seq<string>)
    requires k < |localities|
    requires issued == afterPair + LocalityUrls(lu, cu, localities[..k])
    ensures issued + [lu + LocalityUrl(localities[k])] + [lu + LocalityUrl(localities[k]) + cu]
         == afterPair + LocalityUrls(lu, cu, localities[..k + 1])
  {
    assert localities[..k + 1][..k] == localities[..k];
  }

  lemma LocationPass(c: Category, l: Location, localitiesOf: Location -> seq<string>,
                     beforeLocation: seq<string>, issued: seq<string>)
    requires var lu := LocationUrl(l);
             var afterPair := beforeLocation + [lu] + [lu + CategoryUrl(c)];
             if HasParent(l)
             then issued == afterPair + LocalityUrls(lu, CategoryUrl(c), localitiesOf(l)[..|localitiesOf(l)|])
             else issued == afterPair
    ensures issued == beforeLocation + LocationUrls(c, l, localitiesOf)
  {
    assert localitiesOf(l)[..|localitiesOf(l)|] == localitiesOf(l);
  }

  lemma LocationStep(c: Category, locations: seq<Location>, localitiesOf: Location -> seq<string>, j: nat,
                     beforeCategory: seq<string>, beforeLocation: seq<string>, issued: seq<string>)
    requires j < |locations|
    requires beforeLocation == beforeCategory + [CategoryUrl(c)] + LocationLoopUrls(c, locations[..j], localitiesOf)
    requires issued == beforeLocation + LocationUrls(c, locations[j], localitiesOf)
    ensures issued == beforeCategory + [CategoryUrl(c)] + LocationLoopUrls(c, locations[..j + 1], localitiesOf)
  {
    assert locations[..j + 1][..j] == locations[..j];
  }

  /** Regrouping a concatenation, kept apart so that `CategoryStep` stays within its resource limit. */
  lemma ConcatAssociative(a: seq<string>, b: seq<string>, c: seq<string>)
    ensures a + b + c == a + (b + c)
  {
  }

  lemma GeneratedUrlsPrefix(categories: seq<Category>, locations: seq<Location>,
                            localitiesOf: Location -> seq<string>, i: nat)
    requires i < |categories|
    ensures GeneratedUrls(categories[..i + 1], locations, localitiesOf)
         == GeneratedUrls(categories[..i], locations, localitiesOf) + CategoryUrls(categories[i], locations, localitiesOf)
  {
    var prefix := categories[..i + 1];
    assert prefix[..|prefix| - 1] == categories[..i] && prefix[|prefix| - 1] == categories[i];
  }

  lemma CategoryStep(categories: seq<Category>, locations: seq<Location>, localitiesOf: Location -> seq<string>,
                     i: nat, issued: seq<string>)
    requires i < |categories|
    requires issued == GeneratedUrls(categories[..i], locations, localitiesOf) + [CategoryUrl(categories[i])]
                       + LocationLoopUrls(categories[i], locations[..|locations|], localitiesOf)
    ensures issued == GeneratedUrls(categories[..i + 1], locations, localitiesOf)
  {
    GeneratedUrlsPrefix(categories, locations, localitiesOf, i);
    assert locations[..|locations|] == locations;
    var before, pass := GeneratedUrls(categories[..i], locations, localitiesOf),
                        LocationLoopUrls(categories[i], locations, localitiesOf);
    ConcatAssociative(before, [CategoryUrl(categories[i])], pass);
  }

  /** The five kinds of SEO URL, each with the category pass that issues it. */
  datatype SeoUrl =
    | CategoryPage(category: Category)
    | LocationPage(category: Category, location: Location)
    | LocationCategoryPage(category: Category, location: Location)
    | LocalityPage(category: Category, location: Location, locality: string)
    | LocalityCategoryPage(category: Category, location: Location, locality: string)

  function Render(k: SeoUrl): (url: string) {
    match k
    case CategoryPage(c) => CategoryUrl(c)
    case LocationPage(_, l) => LocationUrl(l)
    case LocationCategoryPage(c, l) => LocationUrl(l) + CategoryUrl(c)
    case LocalityPage(_, l, x) => LocationUrl(l) + LocalityUrl(x)
    case LocalityCategoryPage(c, l, x) => LocationUrl(l) + LocalityUrl(x) + CategoryUrl(c)
  }

  /**
   * `createUrl` issues `k` for these inputs: its category and location are in the
   * lists, and locality URLs only for a location with a parent, for the localities
   * of that location's posts.
   */
  predicate Issues(k: SeoUrl, categories: seq<Category>, locations: seq<Location>,
                   localitiesOf: Location -> seq<string>)
  {
    && k.category in categories
    && (!k.CategoryPage? ==> k.location in locations)
    && ((k.LocalityPage? || k.LocalityCategoryPage?) ==> HasParent(k.location) && k.locality in localitiesOf(k.location))
  }

  lemma {:induction false} LocalityUrlsExactly(lu: string, cu: string, localities: seq<string>, u: string)
    ensures u in LocalityUrls(lu, cu, localities) <==>
            exists x :: x in localities && (u == lu + LocalityUrl(x) || u == lu + LocalityUrl(x) + cu)
    decreases |localities|
  {
    if localities != [] {
      var init := localities[..|localities| - 1];
      var x := localities[|localities| - 1];
      LocalityUrlsExactly(lu, cu, init, u);
      assert localities == init + [x];
      assert forall y :: y in localities <==> y in init || y == x;
    }
  }

  /** What one pass of the location loop issues. */
  lemma LocationUrlsExactly(c: Category, l: Location, localitiesOf: Location -> seq<string>, u: string)
    ensures u in LocationUrls(c, l, localitiesOf) <==>
            exists k: SeoUrl :: !k.CategoryPage? && k.location == l && Issues(k, [c], [l], localitiesOf) && Render(k) == u
  {
    var lu, cu := LocationUrl(l), CategoryUrl(c);
    LocalityUrlsExactly(lu, cu, localitiesOf(l), u);
    if u in LocationUrls(c, l, localitiesOf) {
      if u == lu {
        assert Render(LocationPage(c, l)) == u;
      } else if u == lu + cu {
        assert Render(LocationCategoryPage(c, l)) == u;
      } else {
        assert HasParent(l) && u in LocalityUrls(lu, cu, localitiesOf(l));
        var x :| x in localitiesOf(l) && (u == lu + LocalityUrl(x) || u == lu + LocalityUrl(x) + cu);
        if u == lu + LocalityUrl(x) {
          assert Render(LocalityPage(c, l, x)) == u;
        } else {
          assert Render(LocalityCategoryPage(c, l, x)) == u;
        }
      }
    }
    if k: SeoUrl :| !k.CategoryPage? && k.location == l && Issues(k, [c], [l], localitiesOf) && Render(k) == u {
      if k.LocalityPage? || k.LocalityCategoryPage? {
        assert k.locality in localitiesOf(l);
      }
    }
  }

  /** What the whole location loop issues in the pass of category `c`. */
  lemma {:induction false} LocationLoopUrlsExactly(c: Category, locations: seq<Location>,
                                                   localitiesOf: Location -> seq<string>, u: string)
    ensures u in LocationLoopUrls(c, locations, localitiesOf) <==>
            exists k: SeoUrl :: !k.CategoryPage? && Issues(k, [c], locations, localitiesOf) && Render(k) == u
    decreases |locations|
  {
    if locations != [] {
      var init := locations[..|locations| - 1];
      var l := locations[|locations| - 1];
      LocationLoopUrlsExactly(c, init, localitiesOf, u);
      LocationUrlsExactly(c, l, localitiesOf, u);
      assert forall m :: m in locations <==> m in init || m == l by {
        assert locations == init + [l];
      }
      if u in LocationLoopUrls(c, locations, localitiesOf) {
        if u in LocationUrls(c, l, localitiesOf) {
          var k: SeoUrl :| !k.CategoryPage? && k.location == l && Issues(k, [c], [l], localitiesOf) && Render(k) == u;
          assert Issues(k, [c], locations, localitiesOf);
        } else {
          assert u in LocationLoopUrls(c, init, localitiesOf);
          var k: SeoUrl :| !k.CategoryPage? && Issues(k, [c], init, localitiesOf) && Render(k) == u;
          assert Issues(k, [c], locations, localitiesOf);
        }
      }
      if k: SeoUrl :| !k.CategoryPage? && Issues(k, [c], locations, localitiesOf) && Render(k) == u {
        if k.location == l {
          assert Issues(k, [c], [l], localitiesOf);
        } else {
          assert Issues(k, [c], init, localitiesOf);
        }
      }
    }
  }

  /** Without any location that has a parent, a category pass issues two URLs per location. */
  lemma {:induction false} LocationLoopCountWithoutParents(c: Category, locations: seq<Location>,
                                                           localitiesOf: Location -> seq<string>)
    requires forall i :: 0 <= i < |locations| ==> !HasParent(locations[i])
    ensures |LocationLoopUrls(c, locations, localitiesOf)| == 2 * |locations|
    decreases |locations|
  {
    if locations != [] {
      LocationLoopCountWithoutParents(c, locations[..|locations| - 1], localitiesOf);
    }
  }

  /** Without any location that has a parent, `createUrl` issues `1 + 2 * |locations|` URLs per category. */
  lemma {:induction false} GeneratedCountWithoutParents(categories: seq<Category>, locations: seq<Location>,
                                                        localitiesOf: Location -> seq<string>)
    requires forall i :: 0 <= i < |locations| ==> !HasParent(locations[i])
    ensures |GeneratedUrls(categories, locations, localitiesOf)| == |categories| * (1 + 2 * |locations|)
    decreases |categories|
  {
    if categories != [] {
      GeneratedCountWithoutParents(categories[..|categories| - 1], locations, localitiesOf);
      LocationLoopCountWithoutParents(categories[|categories| - 1], locations, localitiesOf);
      var n, perCategory := |categories|, 1 + 2 * |locations|;
      assert |GeneratedUrls(categories, locations, localitiesOf)| == (n - 1) * perCategory + perCategory;
      assert (n - 1) * perCategory + perCategory == n * perCategory;
    }
  }

  /** What one pass of the category loop issues. */
  lemma CategoryUrlsExactly(c: Category, locations: seq<Location>, localitiesOf: Location -> seq<string>, u: string)
    ensures u in CategoryUrls(c, locations, localitiesOf) <==>
            exists k: SeoUrl :: k.category == c && Issues(k, [c], locations, localitiesOf) && Render(k) == u
  {
    LocationLoopUrlsExactly(c, locations, localitiesOf, u);
    if u in CategoryUrls(c, locations, localitiesOf) {
      if u == CategoryUrl(c) {
        assert Render(CategoryPage(c)) == u;
      } else {
        assert u in LocationLoopUrls(c, locations, localitiesOf);
      }
    }
    if k: SeoUrl :| k.category == c && Issues(k, [c], locations, localitiesOf) && Render(k) == u {
      if !k.CategoryPage? {
        assert u in LocationLoopUrls(c, locations, localitiesOf);
      }
    }
  }

  /** An issued kind belongs to the pass of its own category. */
  lemma IssuesByCategory(k: SeoUrl, categories: seq<Category>, c: Category, locations: seq<Location>,
                         localitiesOf: Location -> seq<string>)
    ensures Issues(k, categories + [c], locations, localitiesOf) <==>
            Issues(k, categories, locations, localitiesOf) || (k.category == c && Issues(k, [c], locations, localitiesOf))
  {
    assert k.category in categories + [c] <==> k.category in categories || k.category == c;
  }

  /** `createUrl` issues exactly the URLs of the kinds it may issue for its inputs. */
  lemma {:induction false} GeneratedUrlsExactly(categories: seq<Category>, locations: seq<Location>,
                                                localitiesOf: Location -> seq<string>, u: string)
    ensures u in GeneratedUrls(categories, locations, localitiesOf) <==>
            exists k :: Issues(k, categories, locations, localitiesOf) && Render(k) == u
    decreases |categories|
  {
    if categories != [] {
      var init := categories[..|categories| - 1];
      var c := categories[|categories| - 1];
      GeneratedUrlsExactly(init, locations, localitiesOf, u);
      CategoryUrlsExactly(c, locations, localitiesOf, u);
      assert categories == init + [c];
      assert GeneratedUrls(categories, locations, localitiesOf)
          == GeneratedUrls(init, locations, localitiesOf) + CategoryUrls(c, locations, localitiesOf);
      if k :| Issues(k, categories, locations, localitiesOf) && Render(k) == u {
        IssuesByCategory(k, init, c, locations, localitiesOf);
      }
      if u in GeneratedUrls(init, locations, localitiesOf) {
        var k :| Issues(k, init, locations, localitiesOf) && Render(k) == u;
        IssuesByCategory(k, init, c, locations, localitiesOf);
      } else if u in CategoryUrls(c, locations, localitiesOf) {
        var k: SeoUrl :| k.category == c && Issues(k, [c], locations, localitiesOf) && Render(k) == u;
        IssuesByCategory(k, init, c, locations, localitiesOf);
      }
    }
  }

  // ---------------------------------------------------------------------------
  // The table object and `createUrl`

  class SeoToolTable {
    /** The `url` column of the SeoTool rows, in insertion order. */
    var urls: seq<string>

    ghost predicate Valid()
      reads this
    {
      NoDuplicates(urls)
    }

    constructor (initial: seq<string>)
      requires NoDuplicates(initial)
      ensures Valid() && urls == initial
    {
      urls := initial;
    }

    method FirstOrCreate(url: string)
      modifies this
      ensures old(Valid()) ==> Valid()
      ensures urls == Insert(old(urls), url)
    {
      InsertKeepsAddsOnly(urls, url);
      if url !in urls {
        urls := urls + [url];
      }
    }
  }

  /**
   * `createUrl` over the given categories and locations; `localitiesOf(l)` are the
   * distinct localities of the posts of location `l`.
   */
  method CreateUrl(table: SeoToolTable, categories: seq<Category>, locations: seq<Location>,
                   localitiesOf: Location -> seq<string>)
    modifies table
    ensures old(table.Valid()) ==> table.Valid()
    ensures table.urls == InsertAll(old(table.urls), GeneratedUrls(categories, locations, localitiesOf))
  {
    // `issued` is every URL passed to `firstOrCreate` so far, in call order.
    ghost var initial := table.urls;
    ghost var issued: seq<string> := [];
    for i := 0 to |categories|
      invariant NoDuplicates(initial) ==> table.Valid()
      invariant issued == GeneratedUrls(categories[..i], locations, localitiesOf)
      invariant table.urls == InsertAll(initial, issued)
    {
      var category := categories[i];
      var categoryUrl := CategoryUrl(category);
      ghost var beforeCategory := issued;
      table.FirstOrCreate(categoryUrl);
      InsertAllSnoc(initial, issued, categoryUrl);
      issued := issued + [categoryUrl];
      for j := 0 to |locations|
        invariant NoDuplicates(initial) ==> table.Valid()
        invariant issued == beforeCategory + [categoryUrl] + LocationLoopUrls(category, locations[..j], localitiesOf)
        invariant table.urls == InsertAll(initial, issued)
      {
        var location := locations[j];
        var locationUrl := LocationUrl(location);
        ghost var beforeLocation := issued;
        table.FirstOrCreate(locationUrl);
        InsertAllSnoc(initial, issued, locationUrl);
        issued := issued + [locationUrl];
        table.FirstOrCreate(locationUrl + categoryUrl);
        InsertAllSnoc(initial, issued, locationUrl + categoryUrl);
        issued := issued + [locationUrl + categoryUrl];
        ghost var afterPair := issued;
        if HasParent(location) {
          var localities := localitiesOf(location);
          for k := 0 to |localities|
            invariant NoDuplicates(initial) ==> table.Valid()
            invariant issued == afterPair + LocalityUrls(locationUrl, categoryUrl, localities[..k])
            invariant table.urls == InsertAll(initial, issued)
          {
            var localityUrl := LocalityUrl(localities[k]);
            LocalityStep(afterPair, locationUrl, categoryUrl, localities, k, issued);
            table.FirstOrCreate(locationUrl + localityUrl);
            InsertAllSnoc(initial, issued, locationUrl + localityUrl);
            issued := issued + [locationUrl + localityUrl];
            table.FirstOrCreate(locationUrl + localityUrl + categoryUrl);
            InsertAllSnoc(initial, issued, locationUrl + localityUrl + categoryUrl);
            issued := issued + [locationUrl + localityUrl + categoryUrl];
          }
        }
        LocationPass(category, location, localitiesOf, beforeLocation, issued);
        LocationStep(category, locations, localitiesOf, j, beforeCategory, beforeLocation, issued);
      }
      CategoryStep(categories, locations, localitiesOf, i, issued);
    }
    assert categories[..|categories|] == categories;
  }

  /**
   * The table `createUrl` leaves behind: the old rows come first and unchanged,
   * then one row for each URL of the kinds it issues that was not there yet; no
   * url appears twice unless one did before; and running `createUrl` again
   * changes nothing.
   */
  lemma CreateUrlTable(table: seq<string>, categories: seq<Category>, locations: seq<Location>,
                       localitiesOf: Location -> seq<string>)
    ensures var after := InsertAll(table, GeneratedUrls(categories, locations, localitiesOf));
            && table <= after
            && (NoDuplicates(table) ==> NoDuplicates(after))
            && (forall u :: u in after <==>
                  u in table || exists k :: Issues(k, categories, locations, localitiesOf) && Render(k) == u)
            && InsertAll(after, GeneratedUrls(categories, locations, localitiesOf)) == after
            && (categories == [] ==> after == table)
  {
    var issued := GeneratedUrls(categories, locations, localitiesOf);
    InsertAllKeepsAddsOnly(table, issued);
    InsertAllIdempotent(table, issued);
    forall u
      ensures u in issued <==> exists k :: Issues(k, categories, locations, localitiesOf) && Render(k) == u
    {
      GeneratedUrlsExactly(categories, locations, localitiesOf, u);
    }
  }

  /** Every location page, alone and combined with every category, has a row afterwards. */
  lemma EveryPairPresent(table: seq<string>, categories: seq<Category>, locations: seq<Location>,
                         localitiesOf: Location -> seq<string>, c: Category, l: Location)
    requires c in categories && l in locations
    ensures var after := InsertAll(table, GeneratedUrls(categories, locations, localitiesOf));
            LocationUrl(l) in after && LocationUrl(l) + CategoryUrl(c) in after
  {
    CreateUrlTable(table, categories, locations, localitiesOf);
    assert Issues(LocationPage(c, l), categories, locations, localitiesOf) && Render(LocationPage(c, l)) == LocationUrl(l);
    assert Issues(LocationCategoryPage(c, l), categories, locations, localitiesOf);
  }
}
