/** Composing an order (`src/components/catalog/TakeOrderDialog.tsx`): the
    product picker, adding a product to the draft (merging repeats into one
    line), removing a line, and the submit guard. */
module TakeOrder {
  import opened Opt
  import opened Seqs
  import opened Text
  import opened Types
  import opened CatalogStore
  import OrderStore
  import StockAnalysis

  /** The dialog's state: shopkeeper name, draft lines, the selected
      product id (`""` for none) and the quantity text. */
  datatype Draft = Draft(name: string, lines: seq<OrderItem>, selected: string, quantity: string, open: bool)

  /** The state the dialog opens with. */
  const Initial := Draft("", [], "", "1", false)

  /** No two lines of the draft are for the same product. */
  predicate DistinctProducts(lines: seq<OrderItem>) {
    DistinctBy(lines, (it: OrderItem) => it.productId)
  }

  /** The picker's `filteredProducts`: the brand and category filters, each
      either a specific id or `all`. */
  function PickerProducts(products: seq<Product>, brand: string, category: string): (r: seq<Product>)
    ensures forall p :: p in r <==>
      (p in products && (brand == All || p.brandId == brand) && (category == All || p.categoryId == category))
    ensures Subseq(r, products)
  {
    var keep := (p: Product) => (brand == All || p.brandId == brand) && (category == All || p.categoryId == category);
    FilterMembers(products, keep);
    FilterSubseq(products, keep);
    Filter(products, keep)
  }

  /** With both filters at `all` the picker lists every product. */
  lemma PickerAllListsEverything(products: seq<Product>)
    ensures PickerProducts(products, All, All) == products
  {
    FilterKeepsAll(products, (p: Product) => (All == All || p.brandId == All) && (All == All || p.categoryId == All));
  }

  /** `brand?.name || 'Unknown'` (and the same for the category): a missing
      record and an empty name both read as `Unknown`. */
  function NameOr(name: Option<string>): (r: string)
    ensures r != ""
    ensures name.Some? && name.value != "" ==> r == name.value
    ensures name.None? || name.value == "" ==> r == "Unknown"
  {
    if name.Some? && name.value != "" then name.value else "Unknown"
  }

  function BrandName(brands: seq<Brand>, id: string): Option<string> {
    match BrandById(brands, id)
    case Some(b) => Some(b.name)
    case None => None
  }

  function CategoryName(categories: seq<Category>, id: string): Option<string> {
    match CategoryById(categories, id)
    case Some(c) => Some(c.name)
    case None => None
  }

  /** The line appended for a product not yet in the draft: a snapshot of
      its name and of its brand's and category's names. */
  function NewLine(p: Product, brands: seq<Brand>, categories: seq<Category>, q: int): (it: OrderItem)
    ensures it.productId == p.id && it.productName == p.name && it.quantity == q
    ensures it.brandId == p.brandId && it.categoryId == p.categoryId
    ensures it.brandName == "Unknown" <== BrandById(brands, p.brandId).None?
    ensures it.categoryName == "Unknown" <== CategoryById(categories, p.categoryId).None?
    ensures BrandById(brands, p.brandId).Some? ==>
      var b := BrandById(brands, p.brandId).value;
      it.brandName == if b.name != "" then b.name else "Unknown"
    ensures CategoryById(categories, p.categoryId).Some? ==>
      var c := CategoryById(categories, p.categoryId).value;
      it.categoryName == if c.name != "" then c.name else "Unknown"
    ensures it.brandName != "" && it.categoryName != ""
  {
    OrderItem(p.id, p.name, p.brandId, NameOr(BrandName(brands, p.brandId)),
      p.categoryId, NameOr(CategoryName(categories, p.categoryId)), q)
  }

  predicate HasLine(lines: seq<OrderItem>, pid: string) {
    exists i :: 0 <= i < |lines| && lines[i].productId == pid
  }

  /** The guards of `addItemToOrder`: a product is selected, the quantity
      text is not empty, the product exists, and the text reads as a
      number. */
  predicate Accepts(d: Draft, products: seq<Product>) {
    d.selected != "" && d.quantity != "" && HasProductId(products, d.selected) && ParseInt(d.quantity).Some?
  }

  /** The lines after adding `q` of product `p`: the existing line for `p`
      grows, or a new line is appended. */
  function AddLines(lines: seq<OrderItem>, p: Product, brands: seq<Brand>, categories: seq<Category>, q: int)
    : (r: seq<OrderItem>)
    ensures |r| == |lines| + (if HasLine(lines, p.id) then 0 else 1)
  {
    var k := FindIndex(lines, (it: OrderItem) => it.productId == p.id);
    if k >= 0 then lines[k := lines[k].(quantity := lines[k].quantity + q)]
    else lines + [NewLine(p, brands, categories, q)]
  }

  /** `addItemToOrder`: merges into the existing line for the product, or
      appends a new one; then clears the selection and resets the quantity
      text to `1`. */
  function AddItem(d: Draft, products: seq<Product>, brands: seq<Brand>, categories: seq<Category>): (r: Draft)
    ensures !Accepts(d, products) ==> r == d
    ensures r.name == d.name && r.open == d.open
    ensures Accepts(d, products) ==> r.selected == "" && r.quantity == "1"
    ensures Accepts(d, products) ==>
      r.lines == AddLines(d.lines, ProductById(products, d.selected).value, brands, categories, ParseInt(d.quantity).value)
  {
    if d.selected == "" || d.quantity == "" then d
    else
      match ProductById(products, d.selected)
      case None => d
      case Some(p) =>
        match ParseInt(d.quantity)
        case None => d
        case Some(q) => Draft(d.name, AddLines(d.lines, p, brands, categories, q), "", "1", d.open)
  }

  /** The first line of the draft for product `pid` is at `k`. */
  predicate FirstLineAt(lines: seq<OrderItem>, pid: string, k: int) {
    0 <= k < |lines| && lines[k].productId == pid && forall j :: 0 <= j < k ==> lines[j].productId != pid
  }

  /** Adding `q` of a product raises the draft's total for it by `q` and
      leaves every other product's total alone. The first line already for
      the product grows by `q` in place and every other line stays as and
      where it was; a product not yet in the draft gets one new line at the
      end. */
  lemma AddLinesSpec(lines: seq<OrderItem>, p: Product, brands: seq<Brand>, categories: seq<Category>, q: int, x: string)
    ensures StockAnalysis.ItemQuantity(AddLines(lines, p, brands, categories, q), x) ==
      StockAnalysis.ItemQuantity(lines, x) + (if x == p.id then q else 0)
    ensures forall k :: FirstLineAt(lines, p.id, k) ==>
      var r := AddLines(lines, p, brands, categories, q);
      |r| == |lines| && r[k] == lines[k].(quantity := lines[k].quantity + q) &&
      forall i :: 0 <= i < |lines| && i != k ==> r[i] == lines[i]
    ensures !HasLine(lines, p.id) ==>
      AddLines(lines, p, brands, categories, q)[..|lines|] == lines &&
      AddLines(lines, p, brands, categories, q)[|lines|] == NewLine(p, brands, categories, q)
  {
    var k := FindIndex(lines, (it: OrderItem) => it.productId == p.id);
    if k >= 0 {
      StockAnalysis.ItemQuantityBump(lines, k, q, x);
      forall k' | FirstLineAt(lines, p.id, k')
        ensures k' == k
      {
      }
    } else {
      var extra := [NewLine(p, brands, categories, q)];
      StockAnalysis.ItemQuantityAppend(lines, extra, x);
      assert extra[1..] == [];
    }
  }

  /** The merge never puts two lines for one product in the draft. */
  lemma AddLinesKeepsDistinct(lines: seq<OrderItem>, p: Product, brands: seq<Brand>, categories: seq<Category>, q: int)
    requires DistinctProducts(lines)
    ensures DistinctProducts(AddLines(lines, p, brands, categories, q))
  {
    var k := FindIndex(lines, (it: OrderItem) => it.productId == p.id);
    var r := AddLines(lines, p, brands, categories, q);
    if k >= 0 {
      assert forall i :: 0 <= i < |r| ==> r[i].productId == lines[i].productId;
    } else {
      assert forall i :: 0 <= i < |lines| ==> r[i] == lines[i];
    }
  }

  /** Once accepted, the selected product's total in the draft grows by the
      parsed quantity and no other total changes; rejected, nothing
      changes; either way the lines stay distinct. */
  lemma AddItemSpec(d: Draft, products: seq<Product>, brands: seq<Brand>, categories: seq<Category>, x: string)
    ensures var r := AddItem(d, products, brands, categories);
      StockAnalysis.ItemQuantity(r.lines, x) == StockAnalysis.ItemQuantity(d.lines, x) +
        (if Accepts(d, products) && x == d.selected then ParseInt(d.quantity).value else 0)
    ensures DistinctProducts(d.lines) ==> DistinctProducts(AddItem(d, products, brands, categories).lines)
  {
    if Accepts(d, products) {
      var p := ProductById(products, d.selected).value;
      var q := ParseInt(d.quantity).value;
      AddLinesSpec(d.lines, p, brands, categories, q, x);
      if DistinctProducts(d.lines) {
        AddLinesKeepsDistinct(d.lines, p, brands, categories, q);
      }
    }
  }

  /** `removeItem(productId)`: drops that product's line; the other lines
      keep their order. */
  function RemoveItem(d: Draft, pid: string): (r: Draft)
    ensures forall it :: it in r.lines <==> it in d.lines && it.productId != pid
    ensures Subseq(r.lines, d.lines)
    ensures r.name == d.name && r.selected == d.selected && r.quantity == d.quantity && r.open == d.open
  {
    var keep := (it: OrderItem) => it.productId != pid;
    FilterMembers(d.lines, keep);
    FilterSubseq(d.lines, keep);
    d.(lines := Filter(d.lines, keep))
  }

  /** Removing zeroes the product's total, keeps every other total, and
      keeps the lines distinct. */
  lemma RemoveItemSpec(d: Draft, pid: string, x: string)
    ensures StockAnalysis.ItemQuantity(RemoveItem(d, pid).lines, x) ==
      if x == pid then 0 else StockAnalysis.ItemQuantity(d.lines, x)
    ensures DistinctProducts(d.lines) ==> DistinctProducts(RemoveItem(d, pid).lines)
  {
    StockAnalysis.ItemQuantityDrop(d.lines, pid, x);
    if DistinctProducts(d.lines) {
      FilterDistinctBy(d.lines, (it: OrderItem) => it.productId != pid, (it: OrderItem) => it.productId);
    }
  }

  /** `disabled={!shopkeeperName.trim() || orderItems.length === 0}`: the
      button is disabled exactly when the name is blank or the draft has no
      lines. */
  predicate SubmitDisabled(d: Draft)
    ensures SubmitDisabled(d) <==> AllSpace(d.name) || |d.lines| == 0
  {
    TrimEmptyIffBlank(d.name);
    Trim(d.name) == "" || |d.lines| == 0
  }

  /** `handleSubmit`: with a non-blank name and a non-empty draft, hands the
      name (untrimmed) and the lines to `onAdd`, then clears the name and
      the lines and closes; otherwise nothing happens. */
  function Submit(d: Draft): (r: (Draft, Option<(string, seq<OrderItem>)>))
    ensures r.1.Some? <==> !SubmitDisabled(d)
    ensures r.1.None? ==> r.0 == d
    ensures r.1.Some? ==> r.1.value == (d.name, d.lines)
    ensures r.1.Some? ==> r.0.name == "" && r.0.lines == [] && !r.0.open
  {
    if Trim(d.name) != "" && |d.lines| > 0 then
      (d.(name := "", lines := [], open := false), Some((d.name, d.lines)))
    else (d, None)
  }

  /** The order stored by `addOrder` after a submit has a non-blank trimmed
      name, the draft's lines verbatim, and status `pending`. */
  lemma SubmittedOrder(d: Draft, orders: seq<Order>, id: string, now: string)
    requires !SubmitDisabled(d)
    ensures var (name, items) := Submit(d).1.value;
      var o := OrderStore.AddOrder(orders, name, items, id, now).1;
      o.shopkeeperName != "" && o.shopkeeperName == Trim(d.name) &&
      o.items == d.lines && |o.items| > 0 && o.status == Pending
  {
  }
}
