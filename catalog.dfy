/**
 * The in-memory catalog the search controller queries: categories, locations
 * and posts in store order, the record lookups (`find` / `findOrFail`), and the
 * query-builder filter that every scope applies.
 *
 * The Post-model scopes and the Eloquent relations `Category::posts` and
 * `Location::posts` are defined outside this model; they are kept
 * uninterpreted as the function values of a `Scopes` record.
 */
module Catalog {
  import opened Strings

  datatype Option<+T> = None | Some(value: T)

  datatype Category = Category(id: nat, slug: string, name: string)

  /** `parentId` is the nullable `parent_id` column: a city points at its state. */
  datatype Location = Location(id: nat, slug: string, name: string, parentId: Option<nat>)

  /** The columns of a post that the modelled logic reads. */
  datatype Post = Post(id: nat, title: string, locality: string)

  /**
   * The scopes of the Post model and the two `posts()` relations. Scopes receive
   * the id exactly as the request supplied it; relations are those of a record
   * that was found, keyed by its id.
   */
  datatype Scopes = Scopes(
    active: Post -> bool,
    postCategory: (Post, string) -> bool,
    postCity: (Post, string) -> bool,
    postState: (Post, string) -> bool,
    categoryPosts: (Post, nat) -> bool,
    locationPosts: (Post, nat) -> bool)

  datatype Store = Store(categories: seq<Category>, locations: seq<Location>, posts: seq<Post>)

  /** One `->where…` / scope step of a query builder: keep the rows `keep` accepts, in order. */
  function Filter(xs: seq<Post>, keep: Post -> bool): (r: seq<Post>)
    ensures |r| <= |xs|
    ensures forall x :: x in r <==> x in xs && keep(x)
  {
    if xs == [] then []
    else (if keep(xs[0]) then [xs[0]] else []) + Filter(xs[1..], keep)
  }

  /** `->when($value, …)`: the step is applied only when the value is truthy. */
  function When(xs: seq<Post>, applied: bool, keep: Post -> bool): (r: seq<Post>)
  {
    if applied then Filter(xs, keep) else xs
  }

  /** `a` is `b` with some elements left out, the rest in their original order. */
  predicate IsSubsequence<T(==)>(a: seq<T>, b: seq<T>)
    decreases |b|
  {
    a == [] || (b != [] && ((a[0] == b[0] && IsSubsequence(a[1..], b[1..])) || IsSubsequence(a, b[1..])))
  }

  lemma {:induction false} FilterIsSubsequence(xs: seq<Post>, keep: Post -> bool)
    ensures IsSubsequence(Filter(xs, keep), xs)
  {
    if xs != [] {
      FilterIsSubsequence(xs[1..], keep);
      var r := Filter(xs, keep);
      if keep(xs[0]) {
        assert r == [xs[0]] + Filter(xs[1..], keep);
        assert r[0] == xs[0] && r[1..] == Filter(xs[1..], keep);
      } else {
        assert r == Filter(xs[1..], keep);
      }
    }
  }

  /** Two chained filters keep exactly what their conjunction keeps, in the same order. */
  lemma {:induction false} FilterChain(xs: seq<Post>, f: Post -> bool, g: Post -> bool, both: Post -> bool)
    requires forall x :: both(x) == (f(x) && g(x))
    ensures Filter(Filter(xs, f), g) == Filter(xs, both)
  {
    if xs != [] {
      FilterChain(xs[1..], f, g, both);
      if f(xs[0]) {
        assert Filter(xs, f) == [xs[0]] + Filter(xs[1..], f);
        assert Filter(xs, f)[1..] == Filter(xs[1..], f);
      } else {
        assert Filter(xs, f) == Filter(xs[1..], f);
      }
    }
  }

  /** Each accepted row is kept as many times as it occurs in the input, each rejected row not at all. */
  lemma {:induction false} FilterCount(xs: seq<Post>, keep: Post -> bool, x: Post)
    ensures multiset(Filter(xs, keep))[x] == if keep(x) then multiset(xs)[x] else 0
  {
    if xs != [] {
      FilterCount(xs[1..], keep, x);
      assert xs == [xs[0]] + xs[1..];
      assert multiset(xs) == multiset([xs[0]]) + multiset(xs[1..]);
    }
  }

  /** A `->when` step after a filter keeps what the filter keeps and, if applied, what the step keeps. */
  lemma WhenChain(xs: seq<Post>, f: Post -> bool, applied: bool, g: Post -> bool, both: Post -> bool)
    requires forall x :: both(x) == (f(x) && (applied ==> g(x)))
    ensures When(Filter(xs, f), applied, g) == Filter(xs, both)
  {
    if applied {
      FilterChain(xs, f, g, both);
    } else {
      FilterSame(xs, f, both);
    }
  }

  /** Filters that accept the same rows give the same result. */
  lemma {:induction false} FilterSame(xs: seq<Post>, f: Post -> bool, g: Post -> bool)
    requires forall x :: f(x) == g(x)
    ensures Filter(xs, f) == Filter(xs, g)
  {
    if xs != [] {
      FilterSame(xs[1..], f, g);
    }
  }

  /** A filter on a filter may be applied in either order. */
  lemma FilterCommute(xs: seq<Post>, f: Post -> bool, g: Post -> bool)
    ensures Filter(Filter(xs, f), g) == Filter(Filter(xs, g), f)
  {
    var both := (x: Post) => f(x) && g(x);
    FilterChain(xs, f, g, both);
    FilterChain(xs, g, f, both);
  }

  /** Nothing passes the filter exactly when no row of the input is accepted. */
  lemma FilterEmpty(xs: seq<Post>, keep: Post -> bool)
    ensures Filter(xs, keep) == [] <==> forall i :: 0 <= i < |xs| ==> !keep(xs[i])
  {
    if Filter(xs, keep) != [] {
      var x := Filter(xs, keep)[0];
      assert x in xs && keep(x);
    }
  }

  /** A filter that accepts every row changes nothing. */
  lemma {:induction false} FilterKeepsAll(xs: seq<Post>, keep: Post -> bool)
    requires forall i :: 0 <= i < |xs| ==> keep(xs[i])
    ensures Filter(xs, keep) == xs
  {
    if xs != [] {
      FilterKeepsAll(xs[1..], keep);
    }
  }

  predicate HasCategoryId(c: Category, key: string) {
    Decimal(c.id) == key
  }

  predicate HasLocationId(l: Location, key: string) {
    Decimal(l.id) == key
  }

  /** `Category::find($key)`: the record whose id reads as `key`, or null. */
  function FindCategory(categories: seq<Category>, key: string): (r: Option<Category>)
    ensures r.Some? ==> r.value in categories && HasCategoryId(r.value, key)
    ensures r.None? <==> forall c :: c in categories ==> !HasCategoryId(c, key)
  {
    if categories == [] then None
    else if HasCategoryId(categories[0], key) then Some(categories[0])
    else FindCategory(categories[1..], key)
  }

  /** `Location::find($key)`: the record whose id reads as `key`, or null. */
  function FindLocation(locations: seq<Location>, key: string): (r: Option<Location>)
    ensures r.Some? ==> r.value in locations && HasLocationId(r.value, key)
    ensures r.None? <==> forall l :: l in locations ==> !HasLocationId(l, key)
  {
    if locations == [] then None
    else if HasLocationId(locations[0], key) then Some(locations[0])
    else FindLocation(locations[1..], key)
  }

  /** Primary keys are distinct. */
  predicate UniqueCategoryIds(categories: seq<Category>) {
    forall i, j :: 0 <= i < j < |categories| ==> categories[i].id != categories[j].id
  }

  /** Looking a category up by its own id finds that very record. */
  lemma {:induction false} FindCategoryById(categories: seq<Category>, c: Category)
    requires UniqueCategoryIds(categories) && c in categories
    ensures FindCategory(categories, Decimal(c.id)) == Some(c)
  {
    var head := categories[0];
    if head != c {
      DecimalInjective(head.id, c.id);
      var k :| 0 <= k < |categories| && categories[k] == c;
      assert k > 0;
      FindCategoryById(categories[1..], c);
    }
  }
}
