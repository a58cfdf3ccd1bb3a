/**
 * `->paginate(9, …)`: a length-aware page of a query result. The page number
 * comes from the request; Laravel takes it when it is a PHP integer (at most
 * `PHP_INT_MAX`) of at least 1, and uses page 1 otherwise. A page past the end
 * is empty, not an error.
 */
module Pagination {
  import opened Catalog

  /** Every search entry point asks for 9 posts per page. */
  const PageSize: nat := 9

  /** `PHP_INT_MAX` on a 64-bit build: a larger page number is not a valid integer. */
  const PhpIntMax: int := 0x7FFF_FFFF_FFFF_FFFF

  datatype Page = Page(items: seq<Post>, total: nat, currentPage: nat)

  function Min(a: int, b: int): int {
    if a <= b then a else b
  }

  /** The page Laravel serves for the requested `?page=` value. */
  function ResolvePage(requested: int): (p: nat)
    ensures 1 <= p <= PhpIntMax
    ensures 1 <= requested <= PhpIntMax ==> p == requested
    ensures requested < 1 || requested > PhpIntMax ==> p == 1
  {
    if 1 <= requested <= PhpIntMax then requested else 1
  }

  /** Position in the result of the first post of `page`. */
  function Offset(page: nat): nat
    requires page >= 1
  {
    (page - 1) * PageSize
  }

  function Paginate(xs: seq<Post>, requested: int): (r: Page)
    ensures r.currentPage == ResolvePage(requested) && r.total == |xs|
    ensures |r.items| <= PageSize
    ensures r.items == [] <==> |xs| <= Offset(r.currentPage)
    ensures Offset(r.currentPage) + PageSize <= |xs| ==> |r.items| == PageSize
    ensures forall i :: 0 <= i < |r.items| ==>
              Offset(r.currentPage) + i < |xs| && r.items[i] == xs[Offset(r.currentPage) + i]
    ensures forall p :: p in r.items ==> p in xs
  {
    var page := ResolvePage(requested);
    var start := Min(Offset(page), |xs|);
    var end := Min(Offset(page) + PageSize, |xs|);
    Page(xs[start..end], |xs|, page)
  }

  /** Pages 1 to `n` read one after the other. */
  function Pages(xs: seq<Post>, n: nat): (r: seq<Post>)
  {
    if n == 0 then [] else Pages(xs, n - 1) + Paginate(xs, n).items
  }

  /** Reading pages 1 to `n` in order gives the first `9 * n` posts of the result, nothing more or less. */
  lemma {:induction false} PagesCover(xs: seq<Post>, n: nat)
    requires n <= PhpIntMax
    ensures Pages(xs, n) == xs[..Min(n * PageSize, |xs|)]
  {
    if n > 0 {
      PagesCover(xs, n - 1);
      var prev := Min((n - 1) * PageSize, |xs|);
      var next := Min(n * PageSize, |xs|);
      assert Paginate(xs, n).items == xs[prev..next];
      assert xs[..prev] + xs[prev..next] == xs[..next];
    }
  }

  /** The post at position `i` of the result is item `i % 9` of page `i / 9 + 1`. */
  lemma PostOnItsPage(xs: seq<Post>, i: nat)
    requires i < |xs| && i / PageSize + 1 <= PhpIntMax
    ensures var page := Paginate(xs, i / PageSize + 1);
            i % PageSize < |page.items| && page.items[i % PageSize] == xs[i]
  {
    var p := i / PageSize + 1;
    assert Offset(p) + i % PageSize == i;
  }
}
