/** The product grid (`src/components/catalog/ProductGrid.tsx`): with `all`
    selected, one section per category that has products, built from a
    map grouped by category id; with one category selected, that
    category's products. */
module ProductGrid {
  import opened Seqs
  import opened Types
  import opened CatalogStore

  datatype Section = Section(category: Category, products: seq<Product>)

  /** `grouped[id]`, with a missing key read as no products. */
  function Get(g: map<string, seq<Product>>, k: string): seq<Product> {
    if k in g then g[k] else []
  }

  /** The `forEach` that pushes each product onto its category's list. */
  function Group(g: map<string, seq<Product>>, products: seq<Product>): map<string, seq<Product>>
    decreases |products|
  {
    if |products| == 0 then g
    else
      var p := products[0];
      Group(g[p.categoryId := Get(g, p.categoryId) + [p]], products[1..])
  }

  /** The grouped lists are exactly the per-category selections, in input
      order. */
  lemma {:induction false} GroupLookup(g: map<string, seq<Product>>, products: seq<Product>, k: string)
    ensures Get(Group(g, products), k) == Get(g, k) + ProductsByCategory(products, k)
    decreases |products|
  {
    if |products| > 0 {
      var p := products[0];
      var g' := g[p.categoryId := Get(g, p.categoryId) + [p]];
      GroupLookup(g', products[1..], k);
      ProductsByCategoryCons(products, k);
    }
  }

  /** `categories.filter(c => grouped[c.id]?.length > 0).map(...)`. */
  function SectionsOf(g: map<string, seq<Product>>, cats: seq<Category>): seq<Section>
    decreases |cats|
  {
    if |cats| == 0 then []
    else
      var head := if |Get(g, cats[0].id)| > 0 then [Section(cats[0], Get(g, cats[0].id))] else [];
      head + SectionsOf(g, cats[1..])
  }

  /** `categorySections`. */
  function Sections(products: seq<Product>, categories: seq<Category>, selected: string): seq<Section> {
    if selected != All then [] else SectionsOf(Group(map[], products), categories)
  }

  /** The grid's `filteredProducts` for one selected category. */
  function SingleCategory(products: seq<Product>, selected: string): (r: seq<Product>)
    ensures selected == All ==> r == []
    ensures selected != All ==> (forall p :: p in r <==> p in products && p.categoryId == selected) && Subseq(r, products)
  {
    if selected == All then [] else ProductsByCategory(products, selected)
  }

  function SectionCategories(r: seq<Section>): seq<Category> {
    Map(r, (s: Section) => s.category)
  }

  lemma {:induction false} SectionsOfContent(g: map<string, seq<Product>>, cats: seq<Category>)
    ensures forall s :: s in SectionsOf(g, cats) ==> s.category in cats && s.products == Get(g, s.category.id) && |s.products| > 0
    decreases |cats|
  {
    if |cats| > 0 {
      SectionsOfContent(g, cats[1..]);
      assert forall c :: c in cats[1..] ==> c in cats;
    }
  }

  lemma {:induction false} SectionsOfComplete(g: map<string, seq<Product>>, cats: seq<Category>)
    ensures forall c :: c in cats && |Get(g, c.id)| > 0 ==> Section(c, Get(g, c.id)) in SectionsOf(g, cats)
    decreases |cats|
  {
    if |cats| > 0 {
      SectionsOfComplete(g, cats[1..]);
      assert forall c :: c in cats ==> c == cats[0] || c in cats[1..];
    }
  }

  lemma {:induction false} SectionsOfOrder(g: map<string, seq<Product>>, cats: seq<Category>)
    ensures Subseq(SectionCategories(SectionsOf(g, cats)), cats)
    decreases |cats|
  {
    if |cats| > 0 {
      SectionsOfOrder(g, cats[1..]);
      var rest := SectionCategories(SectionsOf(g, cats[1..]));
      var r := SectionCategories(SectionsOf(g, cats));
      if |Get(g, cats[0].id)| > 0 {
        assert r == [cats[0]] + rest;
        assert r[1..] == rest;
      } else {
        assert r == rest;
        if |r| > 0 {
          assert Subseq(r, cats[1..]);
        }
      }
    }
  }

  /** With `all` selected the sections follow the category order, hold
      exactly the categories that have products, and each holds exactly
      its category's products in input order; with a category selected
      there are none. */
  lemma SectionsSpec(products: seq<Product>, categories: seq<Category>, selected: string)
    ensures selected != All ==> Sections(products, categories, selected) == []
    ensures selected == All ==> forall s :: s in Sections(products, categories, selected) ==>
      s.category in categories && s.products == ProductsByCategory(products, s.category.id) && s.products != []
    ensures selected == All ==> forall c :: c in categories && ProductsByCategory(products, c.id) != [] ==>
      Section(c, ProductsByCategory(products, c.id)) in Sections(products, categories, selected)
    ensures selected == All ==> Subseq(SectionCategories(Sections(products, categories, selected)), categories)
  {
    var g := Group(map[], products);
    forall k
      ensures Get(g, k) == ProductsByCategory(products, k)
    {
      GroupLookup(map[], products, k);
    }
    SectionsOfContent(g, categories);
    SectionsOfComplete(g, categories);
    SectionsOfOrder(g, categories);
  }

  /** A product whose category id names no category is in no section. */
  lemma UnmatchedProductsHidden(products: seq<Product>, categories: seq<Category>, p: Product)
    requires forall c :: c in categories ==> c.id != p.categoryId
    ensures forall s :: s in Sections(products, categories, All) ==> p !in s.products
  {
    SectionsSpec(products, categories, All);
  }

  predicate DistinctIds(categories: seq<Category>) {
    DistinctBy(categories, (c: Category) => c.id)
  }

  /** With distinct category ids, no product is in two sections. */
  lemma SectionsDisjoint(products: seq<Product>, categories: seq<Category>, i: int, j: int)
    requires DistinctIds(categories)
    requires 0 <= i < j < |Sections(products, categories, All)|
    ensures forall p :: p in Sections(products, categories, All)[i].products ==> p !in Sections(products, categories, All)[j].products
  {
    var r := Sections(products, categories, All);
    SectionsSpec(products, categories, All);
    assert r[i] in r && r[j] in r;
    assert r[i].category.id != r[j].category.id by {
      var cs := SectionCategories(r);
      SubseqDistinctBy(cs, categories, (c: Category) => c.id);
      assert cs[i] == r[i].category && cs[j] == r[j].category;
    }
  }

  // ------------------------------------------------------- total size

  function OutsideCategory(products: seq<Product>, k: string): seq<Product> {
    Filter(products, (p: Product) => p.categoryId != k)
  }

  lemma {:induction false} SplitByCategory(products: seq<Product>, k: string)
    ensures |ProductsByCategory(products, k)| + |OutsideCategory(products, k)| == |products|
    decreases |products|
  {
    if |products| > 0 {
      SplitByCategory(products[1..], k);
    }
  }

  lemma {:induction false} OutsideKeepsOthers(products: seq<Product>, j: string, k: string)
    requires j != k
    ensures ProductsByCategory(OutsideCategory(products, j), k) == ProductsByCategory(products, k)
    decreases |products|
  {
    if |products| > 0 {
      OutsideKeepsOthers(products[1..], j, k);
      var p := products[0];
      if p.categoryId != j {
        assert OutsideCategory(products, j) == [p] + OutsideCategory(products[1..], j);
        assert OutsideCategory(products, j)[1..] == OutsideCategory(products[1..], j);
      }
    }
  }

  /** Sum over `cats` of the number of products in each. */
  function CountAll(cats: seq<Category>, products: seq<Product>): nat
    decreases |cats|
  {
    if |cats| == 0 then 0 else |ProductsByCategory(products, cats[0].id)| + CountAll(cats[1..], products)
  }

  lemma {:induction false} CountAllOutside(cats: seq<Category>, products: seq<Product>, j: string)
    requires forall i :: 0 <= i < |cats| ==> cats[i].id != j
    ensures CountAll(cats, OutsideCategory(products, j)) == CountAll(cats, products)
    decreases |cats|
  {
    if |cats| > 0 {
      OutsideKeepsOthers(products, j, cats[0].id);
      CountAllOutside(cats[1..], products, j);
    }
  }

  /** Categories with distinct ids count every product at most once. */
  lemma {:induction false} CountAllBound(cats: seq<Category>, products: seq<Product>)
    requires DistinctIds(cats)
    ensures CountAll(cats, products) <= |products|
    decreases |cats|
  {
    if |cats| > 0 {
      var k := cats[0].id;
      var rest := OutsideCategory(products, k);
      assert DistinctIds(cats[1..]);
      CountAllOutside(cats[1..], products, k);
      CountAllBound(cats[1..], rest);
      SplitByCategory(products, k);
    }
  }

  function TotalSize(r: seq<Section>): nat
    decreases |r|
  {
    if |r| == 0 then 0 else |r[0].products| + TotalSize(r[1..])
  }

  lemma {:induction false} SectionsOfTotal(products: seq<Product>, cats: seq<Category>)
    ensures TotalSize(SectionsOf(Group(map[], products), cats)) == CountAll(cats, products)
    decreases |cats|
  {
    if |cats| > 0 {
      var g := Group(map[], products);
      assert Get(g, cats[0].id) == ProductsByCategory(products, cats[0].id) by {
        GroupLookup(map[], products, cats[0].id);
        assert Get(map[], cats[0].id) == [];
      }
      SectionsOfTotal(products, cats[1..]);
      var rest := SectionsOf(g, cats[1..]);
      if |Get(g, cats[0].id)| > 0 {
        assert ([Section(cats[0], Get(g, cats[0].id))] + rest)[1..] == rest;
      } else {
        assert SectionsOf(g, cats) == rest;
      }
    }
  }

  /** With distinct category ids the sections hold at most all products. */
  lemma SectionsTotalAtMostProducts(products: seq<Product>, categories: seq<Category>)
    requires DistinctIds(categories)
    ensures TotalSize(Sections(products, categories, All)) <= |products|
  {
    SectionsOfTotal(products, categories);
    CountAllBound(categories, products);
  }
}
