/**
 * The six search entry points of the user-facing search controller. Each one
 * builds a query over the active posts, takes page `page` of 9, and returns it
 * with the category and location records the page is about. The entry points
 * that take a category or location id from the path fail with `NotFound`
 * (`findOrFail`) before any post is queried when that id resolves to nothing.
 *
 * The slug path arguments are accepted and never used: the controller
 * overwrites them with the records it looks up by id.
 */
module UserSearch {
  import opened Strings
  import opened Catalog
  import opened Pagination

  /** What a search hands to the results view: the page and its category / location context. */
  datatype SearchView = SearchView(posts: Page, category: Option<Category>, location: Option<Location>)

  datatype SearchResult = Found(view: SearchView) | NotFound

  /** PHP truthiness of a query-string value: absent, `""` and `"0"` are false. */
  predicate Truthy(v: Option<string>) {
    v.Some? && v.value != "" && v.value != "0"
  }

  /** The value of a query-string parameter, read only where it is truthy. */
  function Text(v: Option<string>): string {
    if v.Some? then v.value else ""
  }

  /** A locality path segment is decoded by `str_replace('_', ' ', …)`. */
  function DecodeLocality(segment: string): (r: string)
    ensures |r| == |segment|
    ensures forall i :: 0 <= i < |r| ==> r[i] != '_'
    ensures forall i :: 0 <= i < |r| ==> segment[i] != '_' ==> r[i] == segment[i]
    ensures forall i :: 0 <= i < |r| ==> segment[i] == '_' ==> r[i] == ' '
  {
    ReplaceChar(segment, '_', ' ')
  }

  // The query steps, one per scope or `where` the controller chains.

  /** `where('title', 'LIKE', '%' . $title . '%')` */
  function TitleLike(title: string): Post -> bool {
    (p: Post) => Contains(p.title, title)
  }

  /** `->postCategory($id)` */
  function InCategory(s: Scopes, categoryId: string): Post -> bool {
    p => s.postCategory(p, categoryId)
  }

  /** `->postCity($id)` */
  function InCity(s: Scopes, locationId: string): Post -> bool {
    p => s.postCity(p, locationId)
  }

  /** `->postState($id)` */
  function InState(s: Scopes, locationId: string): Post -> bool {
    p => s.postState(p, locationId)
  }

  /**
   * `->whereLocality($locality)`: the Post model that would define it is not part of
   * this model, so it is taken to be an exact match on the `locality` column.
   */
  function AtLocality(locality: string): Post -> bool {
    (p: Post) => p.locality == locality
  }

  /** `$category->posts()` */
  function PostsOfCategory(s: Scopes, category: Category): Post -> bool {
    p => s.categoryPosts(p, category.id)
  }

  /** `$location->posts()` */
  function PostsOfLocation(s: Scopes, location: Location): Post -> bool {
    p => s.locationPosts(p, location.id)
  }

  // ---------------------------------------------------------------------------
  // 1. Universal search box

  /** The universal query: active posts, then each `->when(…)` step in the controller's order. */
  function UniversalQuery(store: Store, s: Scopes, title: Option<string>,
                          categoryId: Option<string>, locationId: Option<string>): (r: seq<Post>)
  {
    var q := Filter(store.posts, s.active);
    var q := When(q, Truthy(title), TitleLike(Text(title)));
    var q := When(q, Truthy(categoryId), InCategory(s, Text(categoryId)));
    When(q, Truthy(locationId), InCity(s, Text(locationId)))
  }

  /** A post the universal search admits: active, and passing every filter whose input is truthy. */
  predicate UniversalMatch(s: Scopes, title: Option<string>, categoryId: Option<string>,
                           locationId: Option<string>, p: Post)
  {
    && s.active(p)
    && (Truthy(title) ==> Contains(p.title, title.value))
    && (Truthy(categoryId) ==> s.postCategory(p, categoryId.value))
    && (Truthy(locationId) ==> s.postCity(p, locationId.value))
  }

  /** The universal search as one filter over the store. */
  function UniversalFilter(s: Scopes, title: Option<string>, categoryId: Option<string>,
                           locationId: Option<string>): Post -> bool
  {
    (p: Post) => UniversalMatch(s, title, categoryId, locationId, p)
  }

  /** The chained steps are the AND of the applicable filters over the store, in store order. */
  lemma UniversalQueryIsConjunction(store: Store, s: Scopes, title: Option<string>,
                                    categoryId: Option<string>, locationId: Option<string>)
    ensures UniversalQuery(store, s, title, categoryId, locationId)
         == Filter(store.posts, UniversalFilter(s, title, categoryId, locationId))
  {
    var m1 := s.active;
    var m2 := (p: Post) => m1(p) && (Truthy(title) ==> TitleLike(Text(title))(p));
    var m3 := (p: Post) => m2(p) && (Truthy(categoryId) ==> InCategory(s, Text(categoryId))(p));
    var m4 := UniversalFilter(s, title, categoryId, locationId);
    WhenChain(store.posts, m1, Truthy(title), TitleLike(Text(title)), m2);
    WhenChain(store.posts, m2, Truthy(categoryId), InCategory(s, Text(categoryId)), m3);
    WhenChain(store.posts, m3, Truthy(locationId), InCity(s, Text(locationId)), m4);
  }

  /**
   * `search`: never fails. Category and location context come from `find`, which
   * gives null for an absent or unknown id, independently of whether the id filters.
   */
  function Search(store: Store, s: Scopes, title: Option<string>, categoryId: Option<string>,
                  locationId: Option<string>, page: int): (v: SearchView)
    ensures v.posts == Paginate(Filter(store.posts, UniversalFilter(s, title, categoryId, locationId)), page)
    ensures |v.posts.items| <= PageSize
    ensures forall p :: p in v.posts.items ==>
              p in store.posts && UniversalMatch(s, title, categoryId, locationId, p)
    ensures v.category.Some? <==>
              categoryId.Some? && exists c :: c in store.categories && HasCategoryId(c, categoryId.value)
    ensures v.category.Some? ==> v.category.value in store.categories && HasCategoryId(v.category.value, categoryId.value)
    ensures v.location.Some? <==>
              locationId.Some? && exists l :: l in store.locations && HasLocationId(l, locationId.value)
    ensures v.location.Some? ==> v.location.value in store.locations && HasLocationId(v.location.value, locationId.value)
  {
    var category := if categoryId.Some? then FindCategory(store.categories, categoryId.value) else None;
    var location := if locationId.Some? then FindLocation(store.locations, locationId.value) else None;
    UniversalQueryIsConjunction(store, s, title, categoryId, locationId);
    SearchView(Paginate(UniversalQuery(store, s, title, categoryId, locationId), page), category, location)
  }

  /** An input that is absent, empty or "0" restricts nothing: the result is the same as without it. */
  lemma FalsyInputsDoNotRestrict(store: Store, s: Scopes, title: Option<string>,
                                 categoryId: Option<string>, locationId: Option<string>)
    ensures !Truthy(title) ==>
              UniversalQuery(store, s, title, categoryId, locationId) == UniversalQuery(store, s, None, categoryId, locationId)
    ensures !Truthy(categoryId) ==>
              UniversalQuery(store, s, title, categoryId, locationId) == UniversalQuery(store, s, title, None, locationId)
    ensures !Truthy(locationId) ==>
              UniversalQuery(store, s, title, categoryId, locationId) == UniversalQuery(store, s, title, categoryId, None)
    ensures !Truthy(title) && !Truthy(categoryId) && !Truthy(locationId) ==>
              UniversalQuery(store, s, title, categoryId, locationId) == Filter(store.posts, s.active)
  {
  }

  // ---------------------------------------------------------------------------
  // 2. Category page

  function CategoryQuery(store: Store, s: Scopes, category: Category): seq<Post> {
    Filter(Filter(store.posts, PostsOfCategory(s, category)), s.active)
  }

  /** A post the category page admits: an active post of the category. */
  function CategoryFilter(s: Scopes, categoryId: nat): Post -> bool {
    (p: Post) => s.categoryPosts(p, categoryId) && s.active(p)
  }

  /** The category page's query keeps exactly the category's active posts, in store order. */
  lemma CategoryQueryIsConjunction(store: Store, s: Scopes, category: Category)
    ensures CategoryQuery(store, s, category) == Filter(store.posts, CategoryFilter(s, category.id))
  {
    FilterChain(store.posts, PostsOfCategory(s, category), s.active, CategoryFilter(s, category.id));
  }

  /** `categorySearch`: the category's active posts; no location context. */
  function CategorySearch(store: Store, s: Scopes, categorySlug: string, categoryId: string, page: int): (r: SearchResult)
    ensures r.NotFound? <==> forall c :: c in store.categories ==> !HasCategoryId(c, categoryId)
    ensures r.Found? ==> r.view.location.None? && r.view.category.Some?
    ensures r.Found? ==> r.view.category.value in store.categories && HasCategoryId(r.view.category.value, categoryId)
    ensures r.Found? ==> |r.view.posts.items| <= PageSize
    ensures r.Found? ==> forall p :: p in r.view.posts.items ==>
              p in store.posts && s.active(p) && s.categoryPosts(p, r.view.category.value.id)
    ensures r.Found? ==>
              r.view.posts == Paginate(Filter(store.posts, CategoryFilter(s, r.view.category.value.id)), page)
  {
    match FindCategory(store.categories, categoryId)
    case None => NotFound
    case Some(category) =>
      CategoryQueryIsConjunction(store, s, category);
      Found(SearchView(Paginate(CategoryQuery(store, s, category), page), Some(category), None))
  }

  // ---------------------------------------------------------------------------
  // 3. Location page, with the state-level fallback

  /** `$location->posts()->active()` */
  function LocationDirect(store: Store, s: Scopes, location: Location): seq<Post> {
    Filter(Filter(store.posts, PostsOfLocation(s, location)), s.active)
  }

  /** `Post::active()->postState($locationId)` */
  function StateQuery(store: Store, s: Scopes, locationId: string): seq<Post> {
    Filter(Filter(store.posts, s.active), InState(s, locationId))
  }

  /**
   * `LocationSearch`: the requested page of the location's own posts; when that
   * page is empty, the same page of the state-level query instead.
   */
  function LocationSearch(store: Store, s: Scopes, locationSlug: string, locationId: string, page: int): (r: SearchResult)
    ensures r.NotFound? <==> forall l :: l in store.locations ==> !HasLocationId(l, locationId)
    ensures r.Found? ==> r.view.category.None? && r.view.location.Some?
    ensures r.Found? ==> r.view.location.value in store.locations && HasLocationId(r.view.location.value, locationId)
    ensures r.Found? ==> |r.view.posts.items| <= PageSize
    ensures r.Found? ==> forall p :: p in r.view.posts.items ==>
              p in store.posts && s.active(p) &&
              (s.locationPosts(p, r.view.location.value.id) || s.postState(p, locationId))
  {
    match FindLocation(store.locations, locationId)
    case None => NotFound
    case Some(location) =>
      var direct := Paginate(LocationDirect(store, s, location), page);
      var posts := if direct.items == [] then Paginate(StateQuery(store, s, locationId), page) else direct;
      Found(SearchView(posts, None, Some(location)))
  }

  /**
   * The fallback runs exactly when the location's own result has no post at the
   * requested page's position, so a page number past its end falls back too.
   */
  lemma LocationFallbackIffDirectPageEmpty(store: Store, s: Scopes, locationSlug: string, locationId: string,
                                           page: int, location: Location)
    requires FindLocation(store.locations, locationId) == Some(location)
    ensures var r := LocationSearch(store, s, locationSlug, locationId, page);
            var direct := LocationDirect(store, s, location);
            && r.Found?
            && (|direct| <= Offset(ResolvePage(page)) ==> r.view.posts == Paginate(StateQuery(store, s, locationId), page))
            && (Offset(ResolvePage(page)) < |direct| ==> r.view.posts == Paginate(direct, page) && r.view.posts.items != [])
  {
  }

  /**
   * A location with no active posts of its own whose state has some: its first
   * page is not empty, and shows the state's posts.
   */
  lemma LocationFallbackRecovers(store: Store, s: Scopes, locationSlug: string, locationId: string, location: Location)
    requires FindLocation(store.locations, locationId) == Some(location)
    requires LocationDirect(store, s, location) == []
    requires exists p :: p in store.posts && s.active(p) && s.postState(p, locationId)
    ensures var r := LocationSearch(store, s, locationSlug, locationId, 1);
            r.Found? && r.view.posts.items != [] &&
            forall p :: p in r.view.posts.items ==> s.postState(p, locationId)
  {
    var p :| p in store.posts && s.active(p) && s.postState(p, locationId);
    assert p in StateQuery(store, s, locationId);
  }

  // ---------------------------------------------------------------------------
  // 4. Location + category page, with the state-level fallback

  /** `$location->posts()->active()->postCategory($category_id)` */
  function LocationCategoryDirect(store: Store, s: Scopes, location: Location, categoryId: string): seq<Post> {
    Filter(LocationDirect(store, s, location), InCategory(s, categoryId))
  }

  /** `Post::active()->postState($locationId)->postCategory($category_id)` */
  function StateCategoryQuery(store: Store, s: Scopes, locationId: string, categoryId: string): seq<Post> {
    Filter(StateQuery(store, s, locationId), InCategory(s, categoryId))
  }

  /**
   * `locationCategorySearch`: like the location page, but both the direct query
   * and its fallback keep the category filter. The category is looked up first.
   */
  function LocationCategorySearch(store: Store, s: Scopes, locationSlug: string, locationId: string,
                                  categorySlug: string, categoryId: string, page: int): (r: SearchResult)
    ensures r.NotFound? <==>
              (forall c :: c in store.categories ==> !HasCategoryId(c, categoryId)) ||
              (forall l :: l in store.locations ==> !HasLocationId(l, locationId))
    ensures r.Found? ==> r.view.category.Some? && r.view.location.Some?
    ensures r.Found? ==> r.view.category.value in store.categories && HasCategoryId(r.view.category.value, categoryId)
    ensures r.Found? ==> r.view.location.value in store.locations && HasLocationId(r.view.location.value, locationId)
    ensures r.Found? ==> |r.view.posts.items| <= PageSize
    ensures r.Found? ==> forall p :: p in r.view.posts.items ==>
              p in store.posts && s.active(p) && s.postCategory(p, categoryId) &&
              (s.locationPosts(p, r.view.location.value.id) || s.postState(p, locationId))
  {
    match FindCategory(store.categories, categoryId)
    case None => NotFound
    case Some(category) =>
      match FindLocation(store.locations, locationId)
      case None => NotFound
      case Some(location) =>
        var direct := Paginate(LocationCategoryDirect(store, s, location, categoryId), page);
        var posts := if direct.items == [] then Paginate(StateCategoryQuery(store, s, locationId, categoryId), page) else direct;
        Found(SearchView(posts, Some(category), Some(location)))
  }

  /** Same fallback rule as the location page, with the category filter on both sides. */
  lemma LocationCategoryFallbackIffDirectPageEmpty(store: Store, s: Scopes, locationSlug: string, locationId: string,
                                                   categorySlug: string, categoryId: string, page: int,
                                                   location: Location)
    requires FindCategory(store.categories, categoryId).Some?
    requires FindLocation(store.locations, locationId) == Some(location)
    ensures var r := LocationCategorySearch(store, s, locationSlug, locationId, categorySlug, categoryId, page);
            var direct := LocationCategoryDirect(store, s, location, categoryId);
            && r.Found?
            && (|direct| <= Offset(ResolvePage(page)) ==>
                  r.view.posts == Paginate(StateCategoryQuery(store, s, locationId, categoryId), page))
            && (Offset(ResolvePage(page)) < |direct| ==> r.view.posts == Paginate(direct, page) && r.view.posts.items != [])
  {
  }

  /** Adding the category filter only narrows the location's own result, keeping its order. */
  lemma LocationCategoryNarrowsLocation(store: Store, s: Scopes, location: Location, categoryId: string)
    ensures IsSubsequence(LocationCategoryDirect(store, s, location, categoryId), LocationDirect(store, s, location))
  {
    FilterIsSubsequence(LocationDirect(store, s, location), InCategory(s, categoryId));
  }

  // ---------------------------------------------------------------------------
  // 5. and 6. Locality pages (no fallback)

  /** `$location->posts()->active()->postCategory($category_id)->whereLocality($locality)` */
  function LocalityCategoryQuery(store: Store, s: Scopes, location: Location, categoryId: string, locality: string): seq<Post> {
    Filter(LocationCategoryDirect(store, s, location, categoryId), AtLocality(locality))
  }

  /** `$location->posts()->active()->whereLocality($locality)` */
  function LocalityQuery(store: Store, s: Scopes, location: Location, locality: string): seq<Post> {
    Filter(LocationDirect(store, s, location), AtLocality(locality))
  }

  /** A post the locality page admits: an active post of the location exactly at the locality. */
  function LocalityFilter(s: Scopes, locationId: nat, locality: string): Post -> bool {
    (p: Post) => s.locationPosts(p, locationId) && s.active(p) && p.locality == locality
  }

  /** A post the locality + category page admits: as for the locality page, and in the category. */
  function LocalityCategoryFilter(s: Scopes, locationId: nat, categoryId: string, locality: string): Post -> bool {
    (p: Post) => LocalityFilter(s, locationId, locality)(p) && s.postCategory(p, categoryId)
  }

  /** The locality page's query keeps exactly the posts `LocalityFilter` admits, in store order. */
  lemma LocalityQueryIsConjunction(store: Store, s: Scopes, location: Location, locality: string)
    ensures LocalityQuery(store, s, location, locality) == Filter(store.posts, LocalityFilter(s, location.id, locality))
  {
    var ofLocation := PostsOfLocation(s, location);
    var direct := (p: Post) => ofLocation(p) && s.active(p);
    FilterChain(store.posts, ofLocation, s.active, direct);
    FilterChain(store.posts, direct, AtLocality(locality), LocalityFilter(s, location.id, locality));
  }

  /** The locality + category page's query keeps exactly the posts `LocalityCategoryFilter` admits. */
  lemma LocalityCategoryQueryIsConjunction(store: Store, s: Scopes, location: Location, categoryId: string,
                                           locality: string)
    ensures LocalityCategoryQuery(store, s, location, categoryId, locality)
         == Filter(store.posts, LocalityCategoryFilter(s, location.id, categoryId, locality))
  {
    var direct := LocationDirect(store, s, location);
    FilterCommute(direct, InCategory(s, categoryId), AtLocality(locality));
    LocalityQueryIsConjunction(store, s, location, locality);
    FilterChain(store.posts, LocalityFilter(s, location.id, locality), InCategory(s, categoryId),
                LocalityCategoryFilter(s, location.id, categoryId, locality));
  }

  /** `localityCategorySearch`: the decoded locality must match exactly; an empty page stays empty. */
  function LocalityCategorySearch(store: Store, s: Scopes, locationSlug: string, locationId: string,
                                  localitySegment: string, categorySlug: string, categoryId: string,
                                  page: int): (r: SearchResult)
    ensures r.NotFound? <==>
              (forall c :: c in store.categories ==> !HasCategoryId(c, categoryId)) ||
              (forall l :: l in store.locations ==> !HasLocationId(l, locationId))
    ensures r.Found? ==> r.view.category.Some? && r.view.location.Some?
    ensures r.Found? ==> r.view.category.value in store.categories && HasCategoryId(r.view.category.value, categoryId)
    ensures r.Found? ==> r.view.location.value in store.locations && HasLocationId(r.view.location.value, locationId)
    ensures r.Found? ==> |r.view.posts.items| <= PageSize
    ensures r.Found? ==> forall p :: p in r.view.posts.items ==>
              p in store.posts && s.active(p) && s.postCategory(p, categoryId) &&
              s.locationPosts(p, r.view.location.value.id) && p.locality == DecodeLocality(localitySegment)
    ensures r.Found? ==>
              (r.view.posts.items == [] <==>
                 |LocalityCategoryQuery(store, s, r.view.location.value, categoryId, DecodeLocality(localitySegment))|
                   <= Offset(ResolvePage(page)))
    ensures r.Found? ==>
              r.view.posts == Paginate(Filter(store.posts, LocalityCategoryFilter(s, r.view.location.value.id, categoryId,
                                                                                  DecodeLocality(localitySegment))), page)
  {
    match FindCategory(store.categories, categoryId)
    case None => NotFound
    case Some(category) =>
      match FindLocation(store.locations, locationId)
      case None => NotFound
      case Some(location) =>
        var locality := DecodeLocality(localitySegment);
        LocalityCategoryQueryIsConjunction(store, s, location, categoryId, locality);
        Found(SearchView(Paginate(LocalityCategoryQuery(store, s, location, categoryId, locality), page),
                         Some(category), Some(location)))
  }

  /** `localitySearch`: the location's active posts at exactly the decoded locality; no category context. */
  function LocalitySearch(store: Store, s: Scopes, locationSlug: string, locationId: string,
                          localitySegment: string, page: int): (r: SearchResult)
    ensures r.NotFound? <==> forall l :: l in store.locations ==> !HasLocationId(l, locationId)
    ensures r.Found? ==> r.view.category.None? && r.view.location.Some?
    ensures r.Found? ==> r.view.location.value in store.locations && HasLocationId(r.view.location.value, locationId)
    ensures r.Found? ==> |r.view.posts.items| <= PageSize
    ensures r.Found? ==> forall p :: p in r.view.posts.items ==>
              p in store.posts && s.active(p) &&
              s.locationPosts(p, r.view.location.value.id) && p.locality == DecodeLocality(localitySegment)
    ensures r.Found? ==>
              (r.view.posts.items == [] <==>
                 |LocalityQuery(store, s, r.view.location.value, DecodeLocality(localitySegment))| <= Offset(ResolvePage(page)))
    ensures r.Found? ==>
              r.view.posts == Paginate(Filter(store.posts, LocalityFilter(s, r.view.location.value.id,
                                                                          DecodeLocality(localitySegment))), page)
  {
    match FindLocation(store.locations, locationId)
    case None => NotFound
    case Some(location) =>
      var locality := DecodeLocality(localitySegment);
      LocalityQueryIsConjunction(store, s, location, locality);
      Found(SearchView(Paginate(LocalityQuery(store, s, location, locality), page), None, Some(location)))
  }

  /** Each locality query narrows the one without its last filter, keeping store order. */
  lemma LocalityQueriesNarrow(store: Store, s: Scopes, location: Location, categoryId: string, locality: string)
    ensures IsSubsequence(LocalityQuery(store, s, location, locality), LocationDirect(store, s, location))
    ensures IsSubsequence(LocalityCategoryQuery(store, s, location, categoryId, locality),
                          LocalityQuery(store, s, location, locality))
  {
    var direct := LocationDirect(store, s, location);
    FilterIsSubsequence(direct, AtLocality(locality));
    FilterCommute(direct, InCategory(s, categoryId), AtLocality(locality));
    FilterIsSubsequence(Filter(direct, AtLocality(locality)), InCategory(s, categoryId));
  }

  // ---------------------------------------------------------------------------

  /** The slug path arguments never influence any entry point's result. */
  lemma SlugsAreIgnored(store: Store, s: Scopes, slug1: string, slug2: string, other1: string, other2: string,
                        locationId: string, categoryId: string, localitySegment: string, page: int)
    ensures CategorySearch(store, s, slug1, categoryId, page) == CategorySearch(store, s, slug2, categoryId, page)
    ensures LocationSearch(store, s, slug1, locationId, page) == LocationSearch(store, s, slug2, locationId, page)
    ensures LocationCategorySearch(store, s, slug1, locationId, other1, categoryId, page)
         == LocationCategorySearch(store, s, slug2, locationId, other2, categoryId, page)
    ensures LocalityCategorySearch(store, s, slug1, locationId, localitySegment, other1, categoryId, page)
         == LocalityCategorySearch(store, s, slug2, locationId, localitySegment, other2, categoryId, page)
    ensures LocalitySearch(store, s, slug1, locationId, localitySegment, page)
         == LocalitySearch(store, s, slug2, locationId, localitySegment, page)
  {
  }
}
