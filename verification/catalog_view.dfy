/** The product list of the catalog page (`src/pages/Index.tsx`): the
    search/brand/category filter, the page slice, and the handlers that
    return to page 1 when a filter or the page size changes. */
module CatalogView {
  import opened Seqs
  import opened Text
  import opened Types

  /** A product matches the search when its name or its description
      contains the query, ignoring (ASCII) case. */
  predicate MatchesSearch(p: Product, query: string) {
    MatchesQuery(p.name, query) || MatchesQuery(p.description, query)
  }

  predicate Shown(p: Product, query: string, brand: string, category: string) {
    MatchesSearch(p, query) && (brand == All || p.brandId == brand) && (category == All || p.categoryId == category)
  }

  /** `filteredProducts`. */
  function FilterProducts(products: seq<Product>, query: string, brand: string, category: string): (r: seq<Product>)
    ensures forall p :: p in r <==> p in products && Shown(p, query, brand, category)
    ensures Subseq(r, products)
  {
    var keep := (p: Product) => Shown(p, query, brand, category);
    FilterMembers(products, keep);
    FilterSubseq(products, keep);
    Filter(products, keep)
  }

  /** With an empty query and both selectors at `all`, every product is
      listed, in order. */
  lemma NoFilterListsEverything(products: seq<Product>)
    ensures FilterProducts(products, "", All, All) == products
  {
    forall i | 0 <= i < |products|
      ensures Shown(products[i], "", All, All)
    {
      EmptyQueryMatches(products[i].name);
    }
    FilterKeepsAll(products, (p: Product) => Shown(p, "", All, All));
  }

  // ---------------------------------------------------------- pagination

  /** `Math.ceil(len / perPage)`. */
  function TotalPages(len: nat, perPage: int): (r: nat)
    requires perPage > 0
    ensures r * perPage >= len
    ensures r == 0 || (r - 1) * perPage < len
    ensures r == 0 <==> len == 0
  {
    var r := (len + perPage - 1) / perPage;
    assert r * perPage <= len + perPage - 1 < (r + 1) * perPage by {
      DivBounds(len + perPage - 1, perPage);
    }
    r
  }

  /** `a / n` is the largest `q` with `q * n <= a`. */
  lemma DivBounds(a: nat, n: int)
    requires n > 0
    ensures (a / n) * n <= a < (a / n + 1) * n
  {
    assert a == (a / n) * n + a % n;
  }

  /** How `slice` reads an index: negative counts from the end, and the
      result is clamped to `0..len`. */
  function SliceIndex(i: int, len: nat): (r: nat)
    ensures r <= len
    ensures 0 <= i <= len ==> r == i
    ensures i > len ==> r == len
    ensures i < 0 && len + i >= 0 ==> r == len + i
    ensures len + i < 0 ==> r == 0
  {
    if i < 0 then (if len + i < 0 then 0 else len + i)
    else if i > len then len
    else i
  }

  /** `s.slice(start, end)`. */
  function Slice<T>(s: seq<T>, start: int, end: int): seq<T> {
    var a := SliceIndex(start, |s|);
    var b := SliceIndex(end, |s|);
    if a < b then s[a..b] else []
  }

  /** `paginatedProducts`: page `page` of size `perPage`. */
  function Page<T>(s: seq<T>, page: int, perPage: int): seq<T> {
    var start := (page - 1) * perPage;
    Slice(s, start, start + perPage)
  }

  function Min(a: int, b: int): int {
    if a < b then a else b
  }

  /** Page `k` holds the elements at `(k-1)·n .. k·n` that exist, so at
      most `n` of them. */
  lemma PageIsWindow<T>(s: seq<T>, k: int, n: int)
    requires k >= 1 && n > 0
    ensures Min((k - 1) * n, |s|) <= Min(k * n, |s|)
    ensures Page(s, k, n) == s[Min((k - 1) * n, |s|)..Min(k * n, |s|)]
    ensures |Page(s, k, n)| <= n
  {
    assert (k - 1) * n >= 0 && (k - 1) * n + n == k * n;
  }

  /** Pages `1..k` one after the other. */
  function FirstPages<T>(s: seq<T>, n: int, k: nat): seq<T>
    decreases k
  {
    if k == 0 then [] else FirstPages(s, n, k - 1) + Page(s, k, n)
  }

  lemma PrefixConcat<T>(s: seq<T>, a: int, b: int)
    requires 0 <= a <= b <= |s|
    ensures s[..a] + s[a..b] == s[..b]
  {
  }

  lemma MulStep(k: int, n: int)
    requires k >= 1 && n > 0
    ensures 0 <= (k - 1) * n <= k * n && k * n == (k - 1) * n + n
  {
  }

  lemma {:induction false} FirstPagesPrefix<T>(s: seq<T>, n: int, k: nat)
    requires n > 0
    ensures FirstPages(s, n, k) == s[..Min(k * n, |s|)]
    decreases k
  {
    if k > 0 {
      MulStep(k, n);
      FirstPagesPrefix(s, n, k - 1);
      PageIsWindow(s, k, n);
      PrefixConcat(s, Min((k - 1) * n, |s|), Min(k * n, |s|));
    }
  }

  /** The pages `1..totalPages`, concatenated, are the whole list. */
  lemma PagesCoverList<T>(s: seq<T>, n: int)
    requires n > 0
    ensures FirstPages(s, n, TotalPages(|s|, n)) == s
  {
    FirstPagesPrefix(s, n, TotalPages(|s|, n));
  }

  // ------------------------------------------------------------ handlers

  datatype View = View(query: string, brand: string, category: string, page: int, perPage: int)

  const InitialView := View("", All, All, 1, 20)

  /** `paginatedProducts`: page `v.page` of the filtered list. */
  function Paginated(products: seq<Product>, v: View): seq<Product> {
    Page(FilterProducts(products, v.query, v.brand, v.category), v.page, v.perPage)
  }

  /** `handleSearchChange`. */
  function SetSearch(v: View, query: string): (r: View)
    ensures r.query == query && r.page == 1
    ensures r.brand == v.brand && r.category == v.category && r.perPage == v.perPage
  {
    v.(query := query, page := 1)
  }

  /** `handleBrandChange`. */
  function SetBrand(v: View, brand: string): (r: View)
    ensures r.brand == brand && r.page == 1
    ensures r.query == v.query && r.category == v.category && r.perPage == v.perPage
  {
    v.(brand := brand, page := 1)
  }

  /** `handleCategoryChange`. */
  function SetCategory(v: View, category: string): (r: View)
    ensures r.category == category && r.page == 1
    ensures r.query == v.query && r.brand == v.brand && r.perPage == v.perPage
  {
    v.(category := category, page := 1)
  }

  /** `handleItemsPerPageChange`. */
  function SetPerPage(v: View, perPage: int): (r: View)
    ensures r.perPage == perPage && r.page == 1
    ensures r.query == v.query && r.brand == v.brand && r.category == v.category
  {
    v.(perPage := perPage, page := 1)
  }

  /** After a search change `paginatedProducts` is the first `perPage`
      matches. */
  lemma ResetShowsFirstPage(products: seq<Product>, v: View, query: string)
    requires v.perPage > 0
    ensures var f := FilterProducts(products, query, v.brand, v.category);
      Paginated(products, SetSearch(v, query)) == f[..Min(v.perPage, |f|)]
  {
    var f := FilterProducts(products, query, v.brand, v.category);
    PageIsWindow(f, 1, v.perPage);
  }

  // ------------------------------------------------- the grid's product list

  /** The list handed to the grid as written: the whole filtered list,
      although the pager is shown, and `paginatedProducts` computed,
      whenever a category is selected. */
  function GridAsWritten(products: seq<Product>, v: View): seq<Product> {
    FilterProducts(products, v.query, v.brand, v.category)
  }

  /** Three products of category `c`, two per page, page 1: the pager
      offers two pages, yet the grid is handed all three products. */
  lemma PagerIgnoredAsWritten(a: Product, b: Product, c: Product)
    requires a.categoryId == "c" && b.categoryId == "c" && c.categoryId == "c"
    ensures var ps := [a, b, c];
      var v := View("", All, "c", 1, 2);
      TotalPages(|FilterProducts(ps, v.query, v.brand, v.category)|, v.perPage) == 2 &&
      |GridAsWritten(ps, v)| == 3 && |Paginated(ps, v)| == 2
  {
    var ps := [a, b, c];
    forall i | 0 <= i < |ps|
      ensures Shown(ps[i], "", All, "c")
    {
      EmptyQueryMatches(ps[i].name);
    }
    FilterKeepsAll(ps, (p: Product) => Shown(p, "", All, "c"));
    assert FilterProducts(ps, "", All, "c") == ps;
    PageIsWindow(ps, 1, 2);
  }

  /** The list the grid is evidently meant to get: the current page while
      the pager is shown (a category is selected), the whole filtered list
      in the sectioned `all` view, which has no pager. */
  function GridShown(products: seq<Product>, v: View): seq<Product> {
    if v.category == All then FilterProducts(products, v.query, v.brand, v.category)
    else Paginated(products, v)
  }

  /** With a category selected the grid holds page `v.page` of the
      matches and so at most `perPage` products, and its pages one after
      the other hold every match exactly once; in the `all` view it holds
      every match. */
  lemma GridShownSpec(products: seq<Product>, v: View)
    requires v.perPage > 0 && v.page >= 1
    ensures var f := FilterProducts(products, v.query, v.brand, v.category);
      v.category != All ==>
        GridShown(products, v) == Page(f, v.page, v.perPage) && |GridShown(products, v)| <= v.perPage &&
        FirstPages(f, v.perPage, TotalPages(|f|, v.perPage)) == f
    ensures v.category == All ==> forall p :: p in GridShown(products, v) <==> p in products && Shown(p, v.query, v.brand, All)
  {
    var f := FilterProducts(products, v.query, v.brand, v.category);
    if v.category != All {
      PageIsWindow(f, v.page, v.perPage);
      PagesCoverList(f, v.perPage);
    }
  }
}
