# Classified-listing search and SEO URLs, modelled in Dafny

This project models two pieces of a Laravel classified-ads site.

**The user search controller.** The site has six search entry points over the post catalog:
- the universal search box (title, category, city);
- the category page;
- the location page;
- the location + category page;
- the location + locality + category page;
- the location + locality page.

Each entry point:
- keeps only active posts;
- applies the filters its shape calls for, in the controller's order;
- returns the requested page of 9 posts, together with the category and location records it is about.

Entry points that take a category or location id from the path fail with `NotFound` when the id resolves to no record, before any post is queried. The location page falls back to the state-level query when the requested page of the location's own active posts is empty. The location + category page falls back to the state-level query with the category filter when the requested page of the location's own active posts in that category is empty. Locality path segments are decoded by turning every `_` into a space.

**The SEO URL generator.** `AdminSeoController::createUrl` walks every category and, inside that, every location, and builds these URLs:
- `"/" + slug + "_c" + id` for a category;
- `"/" + slug + "_g" + id` for a location;
- the location URL followed by the category URL;
- for a location with a parent, for each locality of its posts, the location URL followed by `"/"` and the locality lower-cased with spaces turned into `_`, alone and followed by the category URL.

Each URL goes into the SeoTool table with `firstOrCreate`, which appends a row only when no row has that url yet.

Files:
- `strings.dfy`: `str_replace` on one character, ASCII `strtolower`, decimal rendering of ids, and substring matching. It also proves that a URL of the form `…_c<digits>` splits in only one way.
- `catalog.dfy`: the records, the query-builder filter step, and `find`.
- `pagination.dfy`: `paginate(9)` and page-number resolution.
- `user_search.dfy`: the six entry points.
- `admin_seo.dfy`: the URL builders, the SeoTool table as a class, and `createUrl` as a method with nested loops.
- `seo_search_link.dfy`: the encode/decode trip between a generated locality URL and the locality search, and the worked Park Street catalog.

The Post-model scopes (`active`, `postCategory`, `postCity`, `postState`) and the `posts()` relations of Category and Location are defined outside the modelled files. They are kept uninterpreted, as function values of a `Scopes` record. `whereLocality` is modelled as exact equality on the post's `locality` column, which is what Laravel's dynamic `where('locality', …)` does; the Post model, where a scope of that name could override it, is not part of this model.

## Model

| member | source | states |
|---|---|---|
| Strings.ReplaceChar | app/Http/Controllers/User/UserSearchController.php:134 | the result has the input's length; every `from` becomes `to` and every other character is kept |
| Strings.LowerAscii | app/Http/Controllers/Admin/AdminSeoController.php:33 | same length; A-Z become a-z, every other character is unchanged |
| Strings.Decimal | app/Http/Controllers/Admin/AdminSeoController.php:23 | an id renders as at least one digit, all digits, with no leading zero unless the id is 0 |
| Strings.ParseDecimalOfDecimal | app/Http/Controllers/Admin/AdminSeoController.php:23 | reading the rendered id back gives the id |
| Strings.DecimalInjective | app/Http/Controllers/Admin/AdminSeoController.php:27 | two different ids never render to the same text |
| Strings.SplitAtMarker | app/Http/Controllers/Admin/AdminSeoController.php:23 | a text ending in a non-digit marker followed by digits splits into prefix, marker and digits in only one way |
| Catalog.Filter | app/Http/Controllers/User/UserSearchController.php:29-41 | a scope step keeps exactly the rows that satisfy it and never adds any |
| Catalog.FilterCount | app/Http/Controllers/User/UserSearchController.php:29-41 | a scope step keeps each accepted row as many times as it occurs and drops every rejected row |
| Catalog.FilterIsSubsequence | app/Http/Controllers/User/UserSearchController.php:29-41 | a scope step keeps store order: the result is a subsequence of its input |
| Catalog.FilterChain | app/Http/Controllers/User/UserSearchController.php:104-109 | two chained scopes give the same rows, in the same order, as their conjunction |
| Catalog.WhenChain | app/Http/Controllers/User/UserSearchController.php:32-34 | a `when` step after a filter equals the filter by "first condition, and the second one if applied" |
| Catalog.FilterSame | app/Http/Controllers/User/UserSearchController.php:29-41 | scopes that accept the same rows give the same result |
| Catalog.FilterCommute | app/Http/Controllers/User/UserSearchController.php:104-109 | the order in which two scopes are chained does not change the result |
| Catalog.FilterEmpty | app/Http/Controllers/User/UserSearchController.php:82 | a query result is empty exactly when no row passes its scopes |
| Catalog.FindCategory | app/Http/Controllers/User/UserSearchController.php:26 | `find` gives a stored category whose id reads as the key, and null exactly when there is none |
| Catalog.FindLocation | app/Http/Controllers/User/UserSearchController.php:27 | `find` gives a stored location whose id reads as the key, and null exactly when there is none |
| Catalog.FindCategoryById | app/Http/Controllers/User/UserSearchController.php:53 | with distinct primary keys, looking a category up by its own id finds that very record |
| Pagination.ResolvePage | app/Http/Controllers/User/UserSearchController.php:41 | the page served is between 1 and `PHP_INT_MAX`; it is the requested page when that is a valid PHP integer of at least 1, and page 1 otherwise |
| Pagination.Paginate | app/Http/Controllers/User/UserSearchController.php:41 | at most 9 items; item `i` is row `(page-1)*9+i` of the result; full when there is room; empty exactly when the page starts past the end; the total is the result size |
| Pagination.PagesCover | app/Http/Controllers/User/UserSearchController.php:41 | pages 1 to n, read in order, are exactly the first 9n rows of the result |
| Pagination.PostOnItsPage | app/Http/Controllers/User/UserSearchController.php:41 | every row of the result is on page `i / 9 + 1`, at position `i % 9` |
| UserSearch.DecodeLocality | app/Http/Controllers/User/UserSearchController.php:134 | the decoded segment has no `_`; each `_` became a space and nothing else changed |
| UserSearch.UniversalQueryIsConjunction | app/Http/Controllers/User/UserSearchController.php:29-40 | the chained `when` steps keep exactly the active posts that pass every filter whose input is truthy, in store order |
| UserSearch.Search | app/Http/Controllers/User/UserSearchController.php:20-44 | the page is page `p` of the conjunction query; at most 9 posts, each one active and matching; the category and location context is present exactly when `find` resolves the id, and then is that record |
| UserSearch.FalsyInputsDoNotRestrict | app/Http/Controllers/User/UserSearchController.php:32-40 | an absent, empty or "0" input gives the same result as leaving it out; with all three falsy, the result is all active posts |
| UserSearch.CategoryQueryIsConjunction | app/Http/Controllers/User/UserSearchController.php:57-61 | `$category->posts()->active()` keeps exactly the category's active posts, in store order |
| UserSearch.CategorySearch | app/Http/Controllers/User/UserSearchController.php:51-65 | NotFound exactly when no category has the id; otherwise the category context is that record, the location context is null, and the page is page `p` of the category's active posts (at most 9, each an active post of the category) |
| UserSearch.LocationSearch | app/Http/Controllers/User/UserSearchController.php:72-91 | NotFound exactly when no location has the id; otherwise no category context, the found location, and at most 9 active posts, each of that location or of the state query |
| UserSearch.LocationFallbackIffDirectPageEmpty | app/Http/Controllers/User/UserSearchController.php:82-88 | the state query's page is served exactly when the requested page of the location's own posts is empty, also for a page number past its end; otherwise the direct page is served and is non-empty |
| UserSearch.LocationFallbackRecovers | app/Http/Controllers/User/UserSearchController.php:82-88 | a location with no active posts of its own, whose state has some, gets a non-empty first page of state posts |
| UserSearch.LocationCategorySearch | app/Http/Controllers/User/UserSearchController.php:99-121 | NotFound exactly when the category or the location id is unresolved; otherwise both records are the context, and every post served is active and in the category, direct or fallback |
| UserSearch.LocationCategoryFallbackIffDirectPageEmpty | app/Http/Controllers/User/UserSearchController.php:111-118 | the state-and-category page is served exactly when the direct page is empty |
| UserSearch.LocationCategoryNarrowsLocation | app/Http/Controllers/User/UserSearchController.php:104-109 | the location + category query is a subsequence of the location query |
| UserSearch.LocalityCategoryQueryIsConjunction | app/Http/Controllers/User/UserSearchController.php:137-143 | the locality + category query keeps exactly the location's active posts in the category at the locality, in store order |
| UserSearch.LocalityCategorySearch | app/Http/Controllers/User/UserSearchController.php:130-146 | NotFound exactly when either id is unresolved; otherwise the page is page `p` of the location's active posts in the category exactly at the decoded locality; it is empty exactly when that query has no row at its position (no fallback) |
| UserSearch.LocalityQueryIsConjunction | app/Http/Controllers/User/UserSearchController.php:160-164 | the locality query keeps exactly the location's active posts at the locality, in store order |
| UserSearch.LocalitySearch | app/Http/Controllers/User/UserSearchController.php:154-168 | NotFound exactly when the location id is unresolved; otherwise no category context, and the page is page `p` of the location's active posts exactly at the decoded locality; no fallback |
| UserSearch.LocalityQueriesNarrow | app/Http/Controllers/User/UserSearchController.php:137-143 | the locality query is a subsequence of the location's posts, and adding the category narrows it further |
| UserSearch.SlugsAreIgnored | app/Http/Controllers/User/UserSearchController.php:99-102 | the slug path arguments never change any entry point's result |
| AdminSeo.CategoryUrlInjective | app/Http/Controllers/Admin/AdminSeoController.php:23 | equal category URLs come from the same slug and id |
| AdminSeo.LocationUrlInjective | app/Http/Controllers/Admin/AdminSeoController.php:27 | equal location URLs come from the same slug and id |
| AdminSeo.CategoryAndLocationUrlsDiffer | app/Http/Controllers/Admin/AdminSeoController.php:23-27 | no category URL equals a location URL, whatever the slugs |
| AdminSeo.InsertKeepsAddsOnly | app/Http/Controllers/Admin/AdminSeoController.php:24 | `firstOrCreate` keeps the old rows as a prefix, makes the url present, is a no-op when it already is, adds nothing else, and never duplicates |
| AdminSeo.InsertAllKeepsAddsOnly | app/Http/Controllers/Admin/AdminSeoController.php:22-39 | after a run of `firstOrCreate` calls the old rows are a prefix, every issued url is present, nothing else was added, and there are no duplicates |
| AdminSeo.InsertAllAbsorbs | app/Http/Controllers/Admin/AdminSeoController.php:24 | issuing urls that are all present already leaves the table unchanged |
| AdminSeo.InsertAllIdempotent | app/Http/Controllers/Admin/AdminSeoController.php:22-39 | issuing the same calls twice leaves the table as issuing them once |
| AdminSeo.LocalityUrlsExactly | app/Http/Controllers/Admin/AdminSeoController.php:32-36 | the locality loop issues exactly the location URL plus locality segment, with and without the category URL, for each locality |
| AdminSeo.LocationUrlsExactly | app/Http/Controllers/Admin/AdminSeoController.php:26-37 | one location pass issues exactly the location URL, location + category, and, only for a location with a parent, its locality URLs |
| AdminSeo.LocationLoopUrlsExactly | app/Http/Controllers/Admin/AdminSeoController.php:26-38 | the location loop issues exactly the non-category kinds of URL for the given category and any of the locations |
| AdminSeo.CategoryUrlsExactly | app/Http/Controllers/Admin/AdminSeoController.php:22-38 | one category pass issues exactly the category URL and the location-loop URLs for that category |
| AdminSeo.GeneratedUrlsExactly | app/Http/Controllers/Admin/AdminSeoController.php:22-39 | `createUrl` issues a URL exactly when it renders one of the five kinds for a category, location and locality it walks, with locality kinds only under a parent |
| AdminSeo.LocationLoopCountWithoutParents | app/Http/Controllers/Admin/AdminSeoController.php:26-30 | without parented locations, a category pass issues two URLs per location |
| AdminSeo.GeneratedCountWithoutParents | app/Http/Controllers/Admin/AdminSeoController.php:22-30 | without parented locations, `createUrl` issues `1 + 2 * #locations` URLs per category, and none with no categories |
| AdminSeo.SeoToolTable.FirstOrCreate | app/Http/Controllers/Admin/AdminSeoController.php:24 | the table becomes the old table with the url appended if it was missing, and stays duplicate-free if it was |
| AdminSeo.CreateUrl | app/Http/Controllers/Admin/AdminSeoController.php:16-40 | the nested loops leave the table equal to the old table after `firstOrCreate` of every issued URL, in call order; a duplicate-free table stays duplicate-free |
| AdminSeo.CreateUrlTable | app/Http/Controllers/Admin/AdminSeoController.php:16-40 | afterwards the old rows are a prefix, a duplicate-free table stays duplicate-free, a url is present exactly when it was before or is one of the five kinds issued, a second run changes nothing, and with no categories nothing changes |
| AdminSeo.EveryPairPresent | app/Http/Controllers/Admin/AdminSeoController.php:26-29 | for every category and location, the location URL and location + category URL are rows afterwards |
| SeoSearchLink.LocalitySegment | app/Http/Controllers/Admin/AdminSeoController.php:33 | the segment is the locality URL with its leading `/` removed |
| SeoSearchLink.LocalityRoundTrip | app/Http/Controllers/Admin/AdminSeoController.php:33 | decoding the generated segment gives the locality back exactly when it has no `_` and no upper-case ASCII letter |
| SeoSearchLink.SearchedLocality | app/Http/Controllers/User/UserSearchController.php:158 | the segment of a generated locality URL decodes to the locality lower-cased with `_` read as a space |
| SeoSearchLink.MixedCaseDoesNotRoundTrip | app/Http/Controllers/Admin/AdminSeoController.php:33 | the segment generated for "Park Street" decodes to a different locality, one starting with "p" |
| SeoSearchLink.GeneratedLocalityLinkFinds | app/Http/Controllers/User/UserSearchController.php:154-168 | `localitySearch` called with a stored location's id and the segment generated from a round-tripping locality finds that location, and serves only its active posts at that locality |
| SeoSearchLink.MixedCaseLinkMissesItsPosts | app/Http/Controllers/User/UserSearchController.php:158-164 | no post whose locality has an upper-case letter appears on the page `localitySearch` serves for the segment generated from that locality |
| SeoSearchLink.ParkStreetLocationCategoryPage | app/Http/Controllers/User/UserSearchController.php:99-121 | in the worked catalog, location 10 with category 1 shows post A alone: B is inactive and C is in another category |

## Left out

- app/Http/Controllers/UserController.php is not part of this model. It handles sessions, password hashing, transactions and redirects. Two defects there are not modelled: line 39 checks the new `password`, not `old_password`, against the stored hash, and changes the password when that check fails, and the e-mail change tests and writes `email` rather than `new_email` (lines 71 and 77).
- The bodies of the Post scopes `active`, `postCategory`, `postCity` and `postState`, and of the `posts()` relations, are not shown. They are uninterpreted functions of the `Scopes` record. `whereLocality` is the one exception: it is taken to be an exact match on `locality` (see the UserSearch.LocalitySearch line below).
- Eager loading (`with(['firstImage', 'category' …])`) and the column lists given to `find` and `paginate` are projections only, and are not modelled.
- UserSearch.Search: the title filter is modelled as a plain case-sensitive substring test. SQL `LIKE` treats `%` and `_` in the term as wildcards, and its case sensitivity depends on the collation; neither is modelled.
- UserSearch.LocalitySearch: `whereLocality` is modelled as exact equality. A case-insensitive collation would also match localities that differ only in case, which the model does not capture.
- Catalog.FindCategory: an id matches only when the request text is its exact decimal rendering. The database would also coerce texts such as "05"; that is not modelled. The same holds for Catalog.FindLocation.
- Pagination.Paginate: the offset `(page - 1) * 9` is exact in the model. For pages above about 1.02e18 PHP's integer multiplication overflows to a float, which is not modelled. A `?page=` text that is not an integer is represented by any number outside 1 to `PHP_INT_MAX`; the page resolution itself is framework code outside the modelled files.
- AdminSeo.SeoToolTable.FirstOrCreate: the existing row is looked up by exact string equality. The database looks `url` up with the column's collation, so under a case-insensitive or trailing-space-insensitive collation `/Park_g1` would find `/park_g1` and insert nothing; that is not modelled.
- SeoSearchLink.GeneratedLocalityLinkFinds: the route definitions are not part of this model. The lemma, and SeoSearchLink.MixedCaseLinkMissesItsPosts, assume the router hands the location id and the locality segment to the controller unchanged. A locality containing `/`, `?`, `#` or `%` is kept as is by the encoding and would be split or percent-decoded by a real router; that is not modelled.
- Result ordering is the store's default order, modelled as the catalog's sequence order.
- `seo()->title/description`, translation lookups, `view(…)` rendering and JSON responses are output only, and are not modelled.
- The autocomplete endpoints `ajaxCategory`, `ajaxcities` and `ajaxPostsTitle` are thin `LIKE` lookups and are not modelled.
- The AdminSeo CRUD actions (`index`, `create`, `store`, `show`, `edit`, `update`, `destroy`, `seoDefaultView`) are validation and redirect glue, and are not modelled.
- `set_time_limit(-1)` and the database query that plucks the distinct localities of a location's posts are replaced by the input `localitiesOf`, which gives each location's localities.
- Store failures (connection or query errors) propagate unhandled in the source and are not modelled.
- AdminSeo.CreateUrl: "no duplicate urls afterwards" is promised only for a table that had none before, because `firstOrCreate` cannot remove duplicates that already exist. The other columns of a SeoTool row are not modelled.
- Strings.LowerAscii: only ASCII letters are lowered, as `strtolower` does from PHP 8.2 on. The locale-dependent behaviour of earlier PHP versions is not modelled.
- AdminSeo.SeoToolTable.FirstOrCreate and AdminSeo.CreateUrl change the table in place. What they promise is stated as the new table in terms of `Insert` / `InsertAll` of the old one, and the properties of those functions are proved in separate lemmas.
