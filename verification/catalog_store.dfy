/** The catalog hook (`src/hooks/useCatalog.ts`) as pure state transitions
    over three record sequences. The random id and the clock reading of each
    `add` are parameters. */
module CatalogStore {
  import opened Opt
  import opened Seqs
  import opened Text
  import opened Types

  datatype Catalog = Catalog(brands: seq<Brand>, categories: seq<Category>, products: seq<Product>)

  /** What a caller hands to `addProduct`: every product field except the
      id and the creation time. */
  datatype ProductFields = ProductFields(
    name: string,
    brandId: string,
    categoryId: string,
    price: real,
    stock: int,
    description: string,
    imageUrl: string)

  /** A partial product update; `None` marks a key the update object does
      not carry. Id and creation time cannot be updated. */
  datatype ProductPatch = ProductPatch(
    name: Option<string>,
    brandId: Option<string>,
    categoryId: Option<string>,
    price: Option<real>,
    stock: Option<int>,
    description: Option<string>,
    imageUrl: Option<string>)

  const EmptyPatch := ProductPatch(None, None, None, None, None, None, None)

  /** The patch `{ stock: n }`. */
  function StockPatch(n: int): ProductPatch {
    EmptyPatch.(stock := Some(n))
  }

  predicate HasBrandId(c: Catalog, id: string) {
    exists i :: 0 <= i < |c.brands| && c.brands[i].id == id
  }

  predicate HasCategoryId(c: Catalog, id: string) {
    exists i :: 0 <= i < |c.categories| && c.categories[i].id == id
  }

  predicate HasProductId(ps: seq<Product>, id: string) {
    exists i :: 0 <= i < |ps| && ps[i].id == id
  }

  // -------------------------------------------------------------- brands

  /** `addBrand(name)`: appends one brand carrying the trimmed name. */
  function AddBrand(c: Catalog, name: string, id: string, now: string): (r: (Catalog, Brand))
    ensures r.1.id == id && r.1.name == Trim(name) && r.1.createdAt == now
    ensures |r.0.brands| == |c.brands| + 1
    ensures r.0.brands[..|c.brands|] == c.brands && r.0.brands[|c.brands|] == r.1
    ensures r.0.categories == c.categories && r.0.products == c.products
  {
    var b := Brand(id, Trim(name), now);
    (c.(brands := c.brands + [b]), b)
  }

  /** `deleteBrand(id)`: drops the brand and every product of that brand;
      categories are not touched. */
  function DeleteBrand(c: Catalog, id: string): (r: Catalog)
    ensures forall b :: b in r.brands <==> b in c.brands && b.id != id
    ensures forall p :: p in r.products <==> p in c.products && p.brandId != id
    ensures Subseq(r.brands, c.brands) && Subseq(r.products, c.products)
    ensures r.categories == c.categories
  {
    var keepBrand := (b: Brand) => b.id != id;
    var keepProduct := (p: Product) => p.brandId != id;
    FilterSubseq(c.brands, keepBrand);
    FilterSubseq(c.products, keepProduct);
    FilterMembers(c.brands, keepBrand);
    FilterMembers(c.products, keepProduct);
    Catalog(Filter(c.brands, keepBrand), c.categories, Filter(c.products, keepProduct))
  }

  // ---------------------------------------------------------- categories

  /** `addCategory(name)`: appends one category carrying the trimmed name
      (the hook takes no brand). */
  function AddCategory(c: Catalog, name: string, id: string, now: string): (r: (Catalog, Category))
    ensures r.1.id == id && r.1.name == Trim(name) && r.1.createdAt == now
    ensures |r.0.categories| == |c.categories| + 1
    ensures r.0.categories[..|c.categories|] == c.categories && r.0.categories[|c.categories|] == r.1
    ensures r.0.brands == c.brands && r.0.products == c.products
  {
    var k := Category(id, Trim(name), now);
    (c.(categories := c.categories + [k]), k)
  }

  /** `deleteCategory(id)`: drops the category and every product in it. */
  function DeleteCategory(c: Catalog, id: string): (r: Catalog)
    ensures forall k :: k in r.categories <==> k in c.categories && k.id != id
    ensures forall p :: p in r.products <==> p in c.products && p.categoryId != id
    ensures Subseq(r.categories, c.categories) && Subseq(r.products, c.products)
    ensures r.brands == c.brands
  {
    var keepCategory := (k: Category) => k.id != id;
    var keepProduct := (p: Product) => p.categoryId != id;
    FilterSubseq(c.categories, keepCategory);
    FilterSubseq(c.products, keepProduct);
    FilterMembers(c.categories, keepCategory);
    FilterMembers(c.products, keepProduct);
    Catalog(c.brands, Filter(c.categories, keepCategory), Filter(c.products, keepProduct))
  }

  // ------------------------------------------------------------ products

  function NewProduct(f: ProductFields, id: string, now: string): Product {
    Product(id, f.name, f.brandId, f.categoryId, f.price, f.stock, f.description, f.imageUrl, now)
  }

  /** `addProduct(fields)`: appends one product with the given fields, the
      fresh id and the creation time. */
  function AddProduct(c: Catalog, f: ProductFields, id: string, now: string): (r: (Catalog, Product))
    ensures r.1.id == id && r.1.createdAt == now
    ensures r.1.name == f.name && r.1.brandId == f.brandId && r.1.categoryId == f.categoryId
    ensures r.1.price == f.price && r.1.stock == f.stock
    ensures r.1.description == f.description && r.1.imageUrl == f.imageUrl
    ensures |r.0.products| == |c.products| + 1
    ensures r.0.products[..|c.products|] == c.products && r.0.products[|c.products|] == r.1
    ensures r.0.brands == c.brands && r.0.categories == c.categories
  {
    var p := NewProduct(f, id, now);
    (c.(products := c.products + [p]), p)
  }

  /** `{ ...p, ...updates }`: the patched keys replace the product's, the
      others (and always the id and creation time) are kept. */
  function Apply(p: Product, u: ProductPatch): (r: Product)
    ensures r.id == p.id && r.createdAt == p.createdAt
    ensures r.name == u.name.GetOr(p.name) && r.brandId == u.brandId.GetOr(p.brandId)
    ensures r.categoryId == u.categoryId.GetOr(p.categoryId) && r.price == u.price.GetOr(p.price)
    ensures r.stock == u.stock.GetOr(p.stock) && r.description == u.description.GetOr(p.description)
    ensures r.imageUrl == u.imageUrl.GetOr(p.imageUrl)
  {
    Product(p.id, u.name.GetOr(p.name), u.brandId.GetOr(p.brandId), u.categoryId.GetOr(p.categoryId),
      u.price.GetOr(p.price), u.stock.GetOr(p.stock), u.description.GetOr(p.description),
      u.imageUrl.GetOr(p.imageUrl), p.createdAt)
  }

  /** The `prev.map(...)` inside `updateProduct(id, updates)`. */
  function UpdateProducts(ps: seq<Product>, id: string, u: ProductPatch): (r: seq<Product>)
    ensures |r| == |ps|
    ensures forall i :: 0 <= i < |ps| && ps[i].id == id ==> r[i] == Apply(ps[i], u)
    ensures forall i :: 0 <= i < |ps| && ps[i].id != id ==> r[i] == ps[i]
  {
    Map(ps, (p: Product) => if p.id == id then Apply(p, u) else p)
  }

  function UpdateProduct(c: Catalog, id: string, u: ProductPatch): (r: Catalog)
    ensures r.products == UpdateProducts(c.products, id, u)
    ensures r.brands == c.brands && r.categories == c.categories
  {
    c.(products := UpdateProducts(c.products, id, u))
  }

  /** `deleteProduct(id)`: drops exactly the products with that id. */
  function DeleteProduct(c: Catalog, id: string): (r: Catalog)
    ensures forall p :: p in r.products <==> p in c.products && p.id != id
    ensures Subseq(r.products, c.products)
    ensures r.brands == c.brands && r.categories == c.categories
  {
    var keep := (p: Product) => p.id != id;
    FilterSubseq(c.products, keep);
    FilterMembers(c.products, keep);
    c.(products := Filter(c.products, keep))
  }

  // ------------------------------------------------------------- lookups

  /** `getProductsByBrand(brandId)`. */
  function ProductsByBrand(ps: seq<Product>, brandId: string): (r: seq<Product>)
    ensures forall p :: p in r <==> p in ps && p.brandId == brandId
    ensures Subseq(r, ps)
  {
    var keep := (p: Product) => p.brandId == brandId;
    FilterSubseq(ps, keep);
    FilterMembers(ps, keep);
    Filter(ps, keep)
  }

  /** `getProductsByCategory(categoryId)`. */
  function ProductsByCategory(ps: seq<Product>, categoryId: string): (r: seq<Product>)
    ensures forall p :: p in r <==> p in ps && p.categoryId == categoryId
    ensures Subseq(r, ps)
  {
    var keep := (p: Product) => p.categoryId == categoryId;
    FilterSubseq(ps, keep);
    FilterMembers(ps, keep);
    Filter(ps, keep)
  }
  /** One step of `getProductsByCategory`: the head is kept when it is in
      the category, then the rest is selected. */
  lemma ProductsByCategoryCons(ps: seq<Product>, categoryId: string)
    requires |ps| > 0
    ensures ProductsByCategory(ps, categoryId) ==
      (if ps[0].categoryId == categoryId then [ps[0]] else []) + ProductsByCategory(ps[1..], categoryId)
  {
  }


  /** `getBrandById(id)`: the first brand with that id. */
  function BrandById(bs: seq<Brand>, id: string): (r: Option<Brand>)
    ensures r.None? <==> forall i :: 0 <= i < |bs| ==> bs[i].id != id
    ensures r.Some? ==> r.value.id == id
    ensures r.Some? ==> exists i :: 0 <= i < |bs| && bs[i] == r.value && (forall j :: 0 <= j < i ==> bs[j].id != id)
  {
    Find(bs, (b: Brand) => b.id == id)
  }

  /** `getCategoryById(id)`: the first category with that id. */
  function CategoryById(ks: seq<Category>, id: string): (r: Option<Category>)
    ensures r.None? <==> forall i :: 0 <= i < |ks| ==> ks[i].id != id
    ensures r.Some? ==> r.value.id == id
    ensures r.Some? ==> exists i :: 0 <= i < |ks| && ks[i] == r.value && (forall j :: 0 <= j < i ==> ks[j].id != id)
  {
    Find(ks, (k: Category) => k.id == id)
  }

  /** `products.find(p => p.id === id)`. */
  function ProductById(ps: seq<Product>, id: string): (r: Option<Product>)
    ensures r.None? <==> !HasProductId(ps, id)
    ensures r.Some? ==> r.value.id == id
    ensures r.Some? ==> exists i :: 0 <= i < |ps| && ps[i] == r.value && (forall j :: 0 <= j < i ==> ps[j].id != id)
  {
    Find(ps, (p: Product) => p.id == id)
  }

  // -------------------------------------------------------------- lemmas

  /** After `deleteBrand(id)` the brand has no products left. */
  lemma DeleteBrandCascades(c: Catalog, id: string)
    ensures ProductsByBrand(DeleteBrand(c, id).products, id) == []
    ensures !HasBrandId(DeleteBrand(c, id), id)
  {
    var r := DeleteBrand(c, id);
    FilterKeepsNone(r.products, (p: Product) => p.brandId == id);
  }

  /** After `deleteCategory(id)` the category has no products left. */
  lemma DeleteCategoryCascades(c: Catalog, id: string)
    ensures ProductsByCategory(DeleteCategory(c, id).products, id) == []
    ensures !HasCategoryId(DeleteCategory(c, id), id)
  {
    var r := DeleteCategory(c, id);
    FilterKeepsNone(r.products, (p: Product) => p.categoryId == id);
  }

  /** Deleting a brand that was just added with a fresh id, and that no
      product refers to, restores the catalog. */
  lemma DeleteBrandUndoesAdd(c: Catalog, name: string, id: string, now: string)
    requires !HasBrandId(c, id)
    requires forall i :: 0 <= i < |c.products| ==> c.products[i].brandId != id
    ensures DeleteBrand(AddBrand(c, name, id, now).0, id) == c
  {
    var added := AddBrand(c, name, id, now).0;
    var keepBrand := (b: Brand) => b.id != id;
    FilterAppend(c.brands, [added.brands[|c.brands|]], keepBrand);
    assert added.brands == c.brands + [added.brands[|c.brands|]];
    FilterKeepsAll(c.brands, keepBrand);
    FilterKeepsAll(c.products, (p: Product) => p.brandId != id);
  }

  /** Deleting a category that was just added with a fresh id, and that no
      product refers to, restores the catalog. */
  lemma DeleteCategoryUndoesAdd(c: Catalog, name: string, id: string, now: string)
    requires !HasCategoryId(c, id)
    requires forall i :: 0 <= i < |c.products| ==> c.products[i].categoryId != id
    ensures DeleteCategory(AddCategory(c, name, id, now).0, id) == c
  {
    var added := AddCategory(c, name, id, now).0;
    var keep := (k: Category) => k.id != id;
    FilterAppend(c.categories, [added.categories[|c.categories|]], keep);
    assert added.categories == c.categories + [added.categories[|c.categories|]];
    FilterKeepsAll(c.categories, keep);
    FilterKeepsAll(c.products, (p: Product) => p.categoryId != id);
  }

  /** Deleting a product that was just added with a fresh id restores the
      catalog. */
  lemma DeleteProductUndoesAdd(c: Catalog, f: ProductFields, id: string, now: string)
    requires !HasProductId(c.products, id)
    ensures DeleteProduct(AddProduct(c, f, id, now).0, id) == c
  {
    var added := AddProduct(c, f, id, now).0;
    var keep := (p: Product) => p.id != id;
    FilterAppend(c.products, [added.products[|c.products|]], keep);
    assert added.products == c.products + [added.products[|c.products|]];
    FilterKeepsAll(c.products, keep);
  }

  /** `deleteProduct` is idempotent. */
  lemma DeleteProductIdempotent(c: Catalog, id: string)
    ensures DeleteProduct(DeleteProduct(c, id), id) == DeleteProduct(c, id)
  {
    FilterIdempotent(c.products, (p: Product) => p.id != id);
  }

  /** `updateProduct` with an id no product has changes nothing. */
  lemma UpdateUnknownIsNoop(c: Catalog, id: string, u: ProductPatch)
    requires !HasProductId(c.products, id)
    ensures UpdateProduct(c, id, u) == c
  {
  }

  /** Applying the same update twice is applying it once. */
  lemma UpdateIdempotent(c: Catalog, id: string, u: ProductPatch)
    ensures UpdateProduct(UpdateProduct(c, id, u), id, u) == UpdateProduct(c, id, u)
  {
  }

  /** An update object with no keys changes nothing. */
  lemma EmptyPatchIsNoop(c: Catalog, id: string)
    ensures UpdateProduct(c, id, EmptyPatch) == c
  {
  }
}
