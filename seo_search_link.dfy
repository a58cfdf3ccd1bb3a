/**
 * Where the SEO URL generator meets the search controller: the locality URL
 * `createUrl` builds ends in the path segment that `localitySearch` and
 * `localityCategorySearch` decode. Encoding lower-cases the locality and turns
 * spaces into `_`; decoding only turns `_` back into spaces. So a locality
 * survives the trip exactly when it has no upper-case ASCII letter and no `_`.
 */
module SeoSearchLink {
  import opened Strings
  import opened Catalog
  import opened Pagination
  import opened UserSearch
  import opened AdminSeo

  /** The path segment after the location part of a locality URL (its leading `/` dropped). */
  function LocalitySegment(locality: string): (segment: string)
    ensures "/" + segment == LocalityUrl(locality)
  {
    LocalityUrl(locality)[1..]
  }

  /** The localities whose generated URL leads back to them. */
  predicate RoundTrips(locality: string) {
    forall i :: 0 <= i < |locality| ==> locality[i] != '_' && !IsUpperAscii(locality[i])
  }

  /** Character `i` of the decoded segment, in terms of character `i` of the locality. */
  lemma DecodedChar(locality: string, i: nat)
    requires i < |locality|
    ensures var c := locality[i];
            var d := DecodeLocality(LocalitySegment(locality))[i];
            && |DecodeLocality(LocalitySegment(locality))| == |locality|
            && (c == ' ' || c == '_' ==> d == ' ')
            && (IsUpperAscii(c) ==> d == LowerAsciiChar(c))
            && (c != ' ' && c != '_' && !IsUpperAscii(c) ==> d == c)
  {
    var replaced := ReplaceChar(locality, ' ', '_');
    var lowered := LowerAscii(replaced);
    assert LocalitySegment(locality) == lowered;
    assert lowered[i] == LowerAsciiChar(replaced[i]);
  }

  /** Decoding the generated segment gives the locality back exactly when it has no `_` and no A-Z. */
  lemma {:induction false} LocalityRoundTrip(locality: string)
    ensures DecodeLocality(LocalitySegment(locality)) == locality <==> RoundTrips(locality)
  {
    var decoded := DecodeLocality(LocalitySegment(locality));
    if RoundTrips(locality) {
      forall i | 0 <= i < |locality|
        ensures decoded[i] == locality[i]
      {
        DecodedChar(locality, i);
      }
    } else {
      var i :| 0 <= i < |locality| && (locality[i] == '_' || IsUpperAscii(locality[i]));
      DecodedChar(locality, i);
      assert decoded[i] != locality[i];
    }
  }

  /** What a generated locality link searches for: the locality lower-cased, with `_` read as a space. */
  lemma SearchedLocality(locality: string)
    ensures DecodeLocality(LocalitySegment(locality)) == LowerAscii(ReplaceChar(locality, '_', ' '))
  {
    var decoded := DecodeLocality(LocalitySegment(locality));
    var expected := LowerAscii(ReplaceChar(locality, '_', ' '));
    forall i | 0 <= i < |locality|
      ensures decoded[i] == expected[i]
    {
      DecodedChar(locality, i);
    }
  }

  /** A mixed-case locality does not survive: "Park Street" is searched as something else, starting "p". */
  lemma MixedCaseDoesNotRoundTrip(x: string)
    requires x == "Park Street"
    ensures DecodeLocality(LocalitySegment(x)) != x
    ensures DecodeLocality(LocalitySegment(x))[0] == 'p'
  {
    assert IsUpperAscii(x[0]);
    LocalityRoundTrip(x);
    DecodedChar(x, 0);
  }

  /**
   * Calling `localitySearch` with the location id and the locality segment of a
   * generated locality URL, for a location in the catalog, finds that location,
   * and every post on the page is one of its active posts at the locality the URL
   * was built from, provided the locality round-trips.
   */
  lemma GeneratedLocalityLinkFinds(store: Store, s: Scopes, l: Location, locality: string, page: int)
    requires l in store.locations
    requires RoundTrips(locality)
    ensures var r := LocalitySearch(store, s, l.slug, Decimal(l.id), LocalitySegment(locality), page);
            && r.Found?
            && r.view.location.value.id == l.id
            && forall p :: p in r.view.posts.items ==>
                 p in store.posts && s.active(p) && s.locationPosts(p, l.id) && p.locality == locality
  {
    LocalityRoundTrip(locality);
    var r := LocalitySearch(store, s, l.slug, Decimal(l.id), LocalitySegment(locality), page);
    assert HasLocationId(l, Decimal(l.id));
    DecimalInjective(r.view.location.value.id, l.id);
  }

  /**
   * A post whose locality has an upper-case letter is never on the page
   * `localitySearch` serves for the segment generated from that locality.
   */
  lemma MixedCaseLinkMissesItsPosts(store: Store, s: Scopes, l: Location, locality: string, page: int, i: nat)
    requires i < |locality| && IsUpperAscii(locality[i])
    ensures var r := LocalitySearch(store, s, l.slug, Decimal(l.id), LocalitySegment(locality), page);
            r.Found? ==> forall p :: p in r.view.posts.items ==> p.locality != locality
  {
    DecodedChar(locality, i);
  }

  // ---------------------------------------------------------------------------
  // A worked catalog: three posts of location 10 at "Park Street"

  const ParkStreetA := Post(1, "A", "Park Street")
  const ParkStreetB := Post(2, "B", "Park Street")
  const ParkStreetC := Post(3, "C", "Park Street")

  /** Category of each post: A and B are in category 1, C in category 2. */
  function CategoryOf(p: Post): nat {
    if p.id == 3 then 2 else 1
  }

  /** The catalog data seen through the scopes: B is inactive, all three posts are in location 10. */
  function ParkStreetScopes(): Scopes {
    Scopes(
      (p: Post) => p.id != 2,
      (p: Post, key: string) => key == Decimal(CategoryOf(p)),
      (p: Post, key: string) => key == "10",
      (p: Post, key: string) => false,
      (p: Post, id: nat) => id == CategoryOf(p),
      (p: Post, id: nat) => id == 10)
  }

  function ParkStreetStore(): Store {
    Store([Category(1, "cars", "Cars"), Category(2, "homes", "Homes")],
          [Location(10, "park", "Park", Some(5))],
          [ParkStreetA, ParkStreetB, ParkStreetC])
  }

  /** Location 10 and category 1 are found by the ids the route carries. */
  lemma ParkStreetLookups()
    ensures FindCategory(ParkStreetStore().categories, "1") == Some(ParkStreetStore().categories[0])
    ensures FindLocation(ParkStreetStore().locations, "10") == Some(ParkStreetStore().locations[0])
  {
    assert Decimal(1) == "1" && Decimal(10) == "10";
  }

  /** B is dropped as inactive and C for its category. */
  lemma ParkStreetDirect()
    ensures LocationCategoryDirect(ParkStreetStore(), ParkStreetScopes(), ParkStreetStore().locations[0], "1")
            == [ParkStreetA]
  {
    var store, s := ParkStreetStore(), ParkStreetScopes();
    var location := store.locations[0];
    var posts := store.posts;
    assert posts[1..] == [ParkStreetB, ParkStreetC] && posts[1..][1..] == [ParkStreetC];
    FilterKeepsAll(posts, PostsOfLocation(s, location));
    assert Filter(posts[1..][1..], s.active) == [ParkStreetC];
    assert Filter(posts[1..], s.active) == [ParkStreetC];
    var active := Filter(posts, s.active);
    assert s.active(posts[0]);
    assert active == [posts[0]] + Filter(posts[1..], s.active);
    assert active[1..] == [ParkStreetC];
    assert Decimal(1) == "1" && Decimal(2) == "2";
    assert Filter(active[1..], InCategory(s, "1")) == [];
  }

  /** The location + category page for location 10 and category 1 shows A alone. */
  lemma ParkStreetLocationCategoryPage()
    ensures var r := LocationCategorySearch(ParkStreetStore(), ParkStreetScopes(), "park", "10", "cars", "1", 1);
            r.Found? && r.view.posts.items == [ParkStreetA]
  {
    ParkStreetLookups();
    ParkStreetDirect();
    var page := Paginate([ParkStreetA], 1);
    assert |page.items| == 1 && page.items[0] == ParkStreetA;
  }
}
