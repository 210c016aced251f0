/** The category tab strip (`src/components/catalog/CategoryTabs.tsx`): the
    count shown on each tab, which tabs are shown, and what a click does. */
module CategoryTabs {
  import opened Opt
  import opened Seqs
  import opened Types
  import opened CatalogStore
  import ProductGrid

  /** The `forEach` that writes each category's product count. */
  function CountInto(t: map<string, int>, cats: seq<Category>, allProducts: seq<Product>): map<string, int>
    decreases |cats|
  {
    if |cats| == 0 then t
    else CountInto(t[cats[0].id := |ProductsByCategory(allProducts, cats[0].id)|], cats[1..], allProducts)
  }

  /** `categoryCounts`: `all` starts at the number of filtered products,
      then every category's count over all products is written. */
  function Counts(categories: seq<Category>, allProducts: seq<Product>, filtered: seq<Product>): map<string, int> {
    CountInto(map[All := |filtered|], categories, allProducts)
  }

  lemma {:induction false} CountIntoSpec(t: map<string, int>, cats: seq<Category>, allProducts: seq<Product>, k: string)
    ensures var r := CountInto(t, cats, allProducts);
      (k in r <==> k in t || exists i :: 0 <= i < |cats| && cats[i].id == k) &&
      ((exists i :: 0 <= i < |cats| && cats[i].id == k) ==> r[k] == |ProductsByCategory(allProducts, k)|) &&
      ((forall i :: 0 <= i < |cats| ==> cats[i].id != k) && k in t ==> r[k] == t[k])
    decreases |cats|
  {
    if |cats| > 0 {
      var t' := t[cats[0].id := |ProductsByCategory(allProducts, cats[0].id)|];
      CountIntoSpec(t', cats[1..], allProducts, k);
      if exists i :: 0 <= i < |cats| && cats[i].id == k {
        var i :| 0 <= i < |cats| && cats[i].id == k;
        if i > 0 {
          assert cats[1..][i - 1].id == k;
        }
      }
      if exists i :: 0 <= i < |cats[1..]| && cats[1..][i].id == k {
        var i :| 0 <= i < |cats[1..]| && cats[1..][i].id == k;
        assert cats[i + 1].id == k;
      }
    }
  }

  /** Every category's tab counts all products in it; the `all` tab counts
      the filtered products unless a category's id is itself `all`, in
      which case that category's count overwrites it. */
  lemma CountsSpec(categories: seq<Category>, allProducts: seq<Product>, filtered: seq<Product>, k: string)
    ensures var m := Counts(categories, allProducts, filtered);
      (exists i :: 0 <= i < |categories| && categories[i].id == k) ==>
        k in m && m[k] == |ProductsByCategory(allProducts, k)|
    ensures var m := Counts(categories, allProducts, filtered);
      (forall i :: 0 <= i < |categories| ==> categories[i].id != All) ==>
        All in m && m[All] == |filtered|
  {
    CountIntoSpec(map[All := |filtered|], categories, allProducts, k);
    CountIntoSpec(map[All := |filtered|], categories, allProducts, All);
  }

  /** `categoriesWithProducts`: the categories whose count is positive. */
  function VisibleTabs(categories: seq<Category>, counts: map<string, int>): seq<Category> {
    Filter(categories, (c: Category) => c.id in counts && counts[c.id] > 0)
  }

  /** The visible tabs are exactly the categories with at least one
      product, in category order. */
  lemma VisibleTabsSpec(categories: seq<Category>, allProducts: seq<Product>, filtered: seq<Product>)
    ensures var v := VisibleTabs(categories, Counts(categories, allProducts, filtered));
      (forall c :: c in v <==> c in categories && ProductsByCategory(allProducts, c.id) != []) && Subseq(v, categories)
  {
    var m := Counts(categories, allProducts, filtered);
    var keep := (c: Category) => c.id in m && m[c.id] > 0;
    forall c | c in categories
      ensures keep(c) <==> ProductsByCategory(allProducts, c.id) != []
    {
      var i :| 0 <= i < |categories| && categories[i] == c;
      CountsSpec(categories, allProducts, filtered, c.id);
    }
    FilterMembers(categories, keep);
    FilterSubseq(categories, keep);
  }

  /** With the grid and the tabs given the same products, a category has a
      visible tab exactly when the grid has a section for it. */
  lemma TabsMatchSections(categories: seq<Category>, products: seq<Product>, filtered: seq<Product>, c: Category)
    ensures c in VisibleTabs(categories, Counts(categories, products, filtered)) <==>
      ProductGrid.Section(c, ProductsByCategory(products, c.id)) in ProductGrid.Sections(products, categories, All)
  {
    VisibleTabsSpec(categories, products, filtered);
    ProductGrid.SectionsSpec(products, categories, All);
  }

  datatype Route = ScrollTo(target: string) | FilterTo(target: string)

  /** `handleCategoryClick`: in the `all` view a category tab scrolls to
      its section when a scroll handler is given; every other click changes
      the filter. */
  function Click(selected: string, target: string, canScroll: bool): (r: Route)
    ensures r.target == target
    ensures r.ScrollTo? <==> selected == All && target != All && canScroll
  {
    if selected == All && target != All && canScroll then ScrollTo(target) else FilterTo(target)
  }

  /** Clicking `all` always filters, and so does any click once a single
      category is selected. */
  lemma ClickAllFilters(selected: string, target: string, canScroll: bool)
    ensures Click(selected, All, canScroll) == FilterTo(All)
    ensures selected != All ==> Click(selected, target, canScroll) == FilterTo(target)
  {
  }

  // ------------------------------------------- the props the page passes

  /** `categoryCounts` with its list props as they arrive: `None` is a prop
      the caller left out (`undefined`). Reading `.length` of a missing
      `filteredProducts` throws, and so does calling `.filter` on a missing
      `allProducts` once there is a category to count; a throw is `None`. */
  function CountsOf(categories: seq<Category>, allProducts: Option<seq<Product>>, filtered: Option<seq<Product>>)
    : (r: Option<map<string, int>>)
    ensures r.Some? <==> filtered.Some? && (allProducts.Some? || |categories| == 0)
    ensures r.Some? && allProducts.Some? ==> r.value == Counts(categories, allProducts.value, filtered.value)
  {
    match filtered
    case None => None
    case Some(f) =>
      if |categories| == 0 then Some(map[All := |f|])
      else
        match allProducts
        case None => None
        case Some(a) => Some(Counts(categories, a, f))
  }

  /** The tab strip as the catalog page mounts it, with `products` but
      neither `allProducts` nor `filteredProducts`, and no
      `onScrollToCategory`: the counts throw whatever the catalog holds,
      and no click ever scrolls. */
  lemma PageWiringAsWritten(categories: seq<Category>, selected: string, target: string)
    ensures CountsOf(categories, None, None).None?
    ensures Click(selected, target, false) == FilterTo(target)
  {
  }

  /** The evident wiring, `allProducts` the whole catalog and
      `filteredProducts` the filtered list: the counts exist, every
      category's tab counts its products in the whole catalog, and `all`
      counts the filtered list unless a category's id is `all`. */
  lemma PageWiringIntended(categories: seq<Category>, products: seq<Product>, filtered: seq<Product>, k: string)
    ensures CountsOf(categories, Some(products), Some(filtered)).Some?
    ensures var m := CountsOf(categories, Some(products), Some(filtered)).value;
      (exists i :: 0 <= i < |categories| && categories[i].id == k) ==>
        k in m && m[k] == |ProductsByCategory(products, k)|
    ensures var m := CountsOf(categories, Some(products), Some(filtered)).value;
      (forall i :: 0 <= i < |categories| ==> categories[i].id != All) ==>
        All in m && m[All] == |filtered|
  {
    CountsSpec(categories, products, filtered, k);
  }
}
