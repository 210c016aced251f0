/** The stock report of `src/components/catalog/StockAnalysisSection.tsx`:
    stock held back by open orders, what is left, the health class of each
    product, the report order, and the summary counts. */
module StockAnalysis {
  import opened Seqs
  import opened Types

  /** Orders in these states hold stock back; delivered ones do not. */
  predicate Reserves(s: Status) {
    s == Pending || s == Packed
  }

  /** How many units of `pid` the items ask for. */
  function ItemQuantity(items: seq<OrderItem>, pid: string): int
    decreases |items|
  {
    if |items| == 0 then 0
    else (if items[0].productId == pid then items[0].quantity else 0) + ItemQuantity(items[1..], pid)
  }

  /** Reference definition of the reserved quantity of `pid`: the sum of its
      item quantities over the pending and packed orders. */
  function Reserved(orders: seq<Order>, pid: string): int
    decreases |orders|
  {
    if |orders| == 0 then 0
    else (if Reserves(orders[0].status) then ItemQuantity(orders[0].items, pid) else 0) + Reserved(orders[1..], pid)
  }

  lemma {:induction false} ItemQuantityAppend(a: seq<OrderItem>, b: seq<OrderItem>, pid: string)
    ensures ItemQuantity(a + b, pid) == ItemQuantity(a, pid) + ItemQuantity(b, pid)
    decreases |a|
  {
    if |a| == 0 {
      assert a + b == b;
    } else {
      assert (a + b)[1..] == a[1..] + b;
      ItemQuantityAppend(a[1..], b, pid);
    }
  }

  /** Raising one line's quantity by `q` raises that product's total by `q`
      and no other product's. */
  lemma {:induction false} ItemQuantityBump(items: seq<OrderItem>, k: int, q: int, pid: string)
    requires 0 <= k < |items|
    ensures ItemQuantity(items[k := items[k].(quantity := items[k].quantity + q)], pid) ==
      ItemQuantity(items, pid) + (if items[k].productId == pid then q else 0)
    decreases |items|
  {
    var bumped := items[k := items[k].(quantity := items[k].quantity + q)];
    if k > 0 {
      assert bumped[1..] == items[1..][k - 1 := items[k].(quantity := items[k].quantity + q)];
      ItemQuantityBump(items[1..], k - 1, q, pid);
    } else {
      assert bumped[1..] == items[1..];
    }
  }

  /** Dropping the lines of `pid` zeroes its total and keeps the others. */
  lemma {:induction false} ItemQuantityDrop(items: seq<OrderItem>, pid: string, x: string)
    ensures ItemQuantity(Filter(items, (it: OrderItem) => it.productId != pid), x) ==
      if x == pid then 0 else ItemQuantity(items, x)
    decreases |items|
  {
    if |items| > 0 {
      ItemQuantityDrop(items[1..], pid, x);
    }
  }

  // ------------------------------------------- the table the code builds

  /** `reservedStock[id] || 0`. */
  function Lookup(t: map<string, int>, k: string): int {
    if k in t then t[k] else 0
  }

  /** `order.items.forEach(item => reservedStock[id] = (reservedStock[id] || 0) + qty)`. */
  function AddItems(t: map<string, int>, items: seq<OrderItem>): map<string, int>
    decreases |items|
  {
    if |items| == 0 then t
    else
      var id := items[0].productId;
      AddItems(t[id := Lookup(t, id) + items[0].quantity], items[1..])
  }

  /** `orders.forEach(order => if (pending or packed) add its items)`. */
  function ReserveTable(t: map<string, int>, orders: seq<Order>): map<string, int>
    decreases |orders|
  {
    if |orders| == 0 then t
    else ReserveTable(if Reserves(orders[0].status) then AddItems(t, orders[0].items) else t, orders[1..])
  }

  lemma {:induction false} AddItemsLookup(t: map<string, int>, items: seq<OrderItem>, k: string)
    ensures Lookup(AddItems(t, items), k) == Lookup(t, k) + ItemQuantity(items, k)
    decreases |items|
  {
    if |items| > 0 {
      var id := items[0].productId;
      AddItemsLookup(t[id := Lookup(t, id) + items[0].quantity], items[1..], k);
    }
  }

  /** The table the code accumulates holds, for every product, exactly the
      reference reserved quantity. */
  lemma {:induction false} ReserveTableLookup(t: map<string, int>, orders: seq<Order>, k: string)
    ensures Lookup(ReserveTable(t, orders), k) == Lookup(t, k) + Reserved(orders, k)
    decreases |orders|
  {
    if |orders| > 0 {
      var t' := if Reserves(orders[0].status) then AddItems(t, orders[0].items) else t;
      if Reserves(orders[0].status) {
        AddItemsLookup(t, orders[0].items, k);
      }
      ReserveTableLookup(t', orders[1..], k);
    }
  }

  // ------------------------------------------------------------- entries

  /** Availability at or below this (and above zero) is "low stock". */
  const LowStockLimit := 5

  datatype StockEntry = StockEntry(
    product: Product,
    totalStock: int,
    reserved: int,
    available: int,
    isLowStock: bool,
    isOutOfStock: bool)

  /** The classification flags agree with the available quantity. */
  predicate WellFormed(e: StockEntry) {
    && e.available >= 0
    && (e.isOutOfStock <==> e.available == 0)
    && (e.isLowStock <==> 0 < e.available <= LowStockLimit)
  }

  predicate AllWellFormed(s: seq<StockEntry>) {
    forall i :: 0 <= i < |s| ==> WellFormed(s[i])
  }

  /** One report line: `available = max(0, stock - reserved)` and the flags. */
  function MakeEntry(p: Product, reserved: int): (e: StockEntry)
    ensures e.product == p && e.totalStock == p.stock && e.reserved == reserved
    ensures e.available >= 0 && e.available >= p.stock - reserved
    ensures e.available == 0 || e.available == p.stock - reserved
    ensures p.stock >= 0 && reserved >= 0 ==> e.available <= p.stock
    ensures WellFormed(e)
    ensures !(e.isOutOfStock && e.isLowStock)
  {
    var available := if p.stock - reserved > 0 then p.stock - reserved else 0;
    StockEntry(p, p.stock, reserved, available,
      available <= LowStockLimit && available > 0, available == 0)
  }

  /** The unsorted report: one entry per product, in product order. */
  function Entries(products: seq<Product>, orders: seq<Order>): (r: seq<StockEntry>)
    ensures |r| == |products| && AllWellFormed(r)
    ensures forall i :: 0 <= i < |r| ==> r[i].product == products[i]
    ensures forall i :: 0 <= i < |r| ==> r[i].reserved == Reserved(orders, products[i].id)
  {
    var t := ReserveTable(map[], orders);
    forall i | 0 <= i < |products|
      ensures Lookup(t, products[i].id) == Reserved(orders, products[i].id)
    {
      ReserveTableLookup(map[], orders, products[i].id);
    }
    Map(products, (p: Product) => MakeEntry(p, Lookup(t, p.id)))
  }

  // ---------------------------------------------------------------- sort

  /** The comparator handed to `sort`: out of stock first, then low stock,
      then by available quantity. */
  function Compare(a: StockEntry, b: StockEntry): (r: int)
    ensures r == 0 <==> a.isOutOfStock == b.isOutOfStock && a.isLowStock == b.isLowStock && a.available == b.available
    ensures r < 0 && b.isOutOfStock ==> a.isOutOfStock
    ensures r < 0 && b.isLowStock ==> a.isOutOfStock || a.isLowStock
  {
    if a.isOutOfStock && !b.isOutOfStock then -1
    else if !a.isOutOfStock && b.isOutOfStock then 1
    else if a.isLowStock && !b.isLowStock then -1
    else if !a.isLowStock && b.isLowStock then 1
    else a.available - b.available
  }

  /** On well-formed entries the three-tier comparator orders exactly by
      available quantity. */
  lemma CompareAgreesWithAvailable(a: StockEntry, b: StockEntry)
    requires WellFormed(a) && WellFormed(b)
    ensures Compare(a, b) < 0 <==> a.available < b.available
    ensures Compare(a, b) == 0 <==> a.available == b.available
  {
  }

  predicate SortedByAvailable(s: seq<StockEntry>) {
    forall i, j :: 0 <= i < j < |s| ==> s[i].available <= s[j].available
  }

  /** The entries with available quantity `k`, in order. */
  function WithAvailable(s: seq<StockEntry>, k: int): seq<StockEntry> {
    Filter(s, (e: StockEntry) => e.available == k)
  }

  /** Places `x` before the first entry it does not compare after. */
  function Insert(x: StockEntry, s: seq<StockEntry>): seq<StockEntry>
    decreases |s|
  {
    if |s| == 0 then [x]
    else if Compare(x, s[0]) <= 0 then [x] + s
    else [s[0]] + Insert(x, s[1..])
  }

  /** Stable insertion sort with the comparator: the unique result a stable
      `Array.prototype.sort` gives for a consistent comparator. */
  function Sort(s: seq<StockEntry>): (r: seq<StockEntry>)
    ensures multiset(r) == multiset(s)
    decreases |s|
  {
    if |s| == 0 then []
    else
      var t := Sort(s[1..]);
      InsertPermutes(s[0], t);
      MultisetCons(s);
      Insert(s[0], t)
  }

  lemma {:induction false} InsertPermutes(x: StockEntry, s: seq<StockEntry>)
    ensures multiset(Insert(x, s)) == multiset(s) + multiset{x}
    decreases |s|
  {
    if |s| > 0 && Compare(x, s[0]) > 0 {
      InsertPermutes(x, s[1..]);
      assert s == [s[0]] + s[1..];
    }
  }

  lemma InsertWellFormed(x: StockEntry, s: seq<StockEntry>)
    requires WellFormed(x) && AllWellFormed(s)
    ensures AllWellFormed(Insert(x, s))
  {
    var r := Insert(x, s);
    InsertPermutes(x, s);
    forall j | 0 <= j < |r|
      ensures WellFormed(r[j])
    {
      assert r[j] in multiset(r);
      assert r[j] == x || r[j] in multiset(s);
    }
  }

  lemma SortedCons(a: StockEntry, t: seq<StockEntry>)
    requires SortedByAvailable(t)
    requires forall j :: 0 <= j < |t| ==> a.available <= t[j].available
    ensures SortedByAvailable([a] + t)
  {
    var r := [a] + t;
    forall i, j | 0 <= i < j < |r|
      ensures r[i].available <= r[j].available
    {
      assert r[j] == t[j - 1];
      if i > 0 {
        assert r[i] == t[i - 1];
      }
    }
  }

  lemma {:induction false} InsertSorted(x: StockEntry, s: seq<StockEntry>)
    requires WellFormed(x) && AllWellFormed(s) && SortedByAvailable(s)
    ensures SortedByAvailable(Insert(x, s))
    decreases |s|
  {
    if |s| > 0 {
      CompareAgreesWithAvailable(x, s[0]);
      if Compare(x, s[0]) > 0 {
        var t := s[1..];
        InsertSorted(x, t);
        InsertPermutes(x, t);
        var r := Insert(x, t);
        forall j | 0 <= j < |r|
          ensures s[0].available <= r[j].available
        {
          assert r[j] in multiset(r);
          assert r[j] == x || r[j] in multiset(t);
        }
        assert SortedByAvailable([s[0]] + r) by {
          SortedCons(s[0], r);
        }
      } else {
        assert SortedByAvailable([x] + s) by {
          SortedCons(x, s);
        }
      }
    }
  }

  /** Inserting `x` puts it just before the entries with its own available
      quantity: equal keys keep their relative order. */
  lemma {:induction false} InsertWithAvailable(x: StockEntry, s: seq<StockEntry>, k: int)
    requires WellFormed(x) && AllWellFormed(s)
    ensures WithAvailable(Insert(x, s), k) == (if x.available == k then [x] else []) + WithAvailable(s, k)
    decreases |s|
  {
    if |s| > 0 {
      CompareAgreesWithAvailable(x, s[0]);
      if Compare(x, s[0]) <= 0 {
        assert Insert(x, s) == [x] + s;
        FilterAppend([x], s, (e: StockEntry) => e.available == k);
      } else {
        InsertWithAvailable(x, s[1..], k);
        assert Insert(x, s) == [s[0]] + Insert(x, s[1..]);
        FilterAppend([s[0]], Insert(x, s[1..]), (e: StockEntry) => e.available == k);
        assert s == [s[0]] + s[1..];
        FilterAppend([s[0]], s[1..], (e: StockEntry) => e.available == k);
      }
    }
  }

  /** The sort permutes its input, orders it by available quantity, and is
      stable: for each available quantity the entries keep their input order. */
  lemma {:induction false} SortFacts(s: seq<StockEntry>)
    requires AllWellFormed(s)
    ensures multiset(Sort(s)) == multiset(s)
    ensures SortedByAvailable(Sort(s))
    ensures AllWellFormed(Sort(s))
    ensures forall k :: WithAvailable(Sort(s), k) == WithAvailable(s, k)
    decreases |s|
  {
    if |s| > 0 {
      SortFacts(s[1..]);
      InsertPermutes(s[0], Sort(s[1..]));
      InsertWellFormed(s[0], Sort(s[1..]));
      InsertSorted(s[0], Sort(s[1..]));
      assert s == [s[0]] + s[1..];
      forall k
        ensures WithAvailable(Sort(s), k) == WithAvailable(s, k)
      {
        InsertWithAvailable(s[0], Sort(s[1..]), k);
        FilterAppend([s[0]], s[1..], (e: StockEntry) => e.available == k);
      }
    }
  }

  /** `stockAnalysis`: the entries, sorted. */
  function Analyze(products: seq<Product>, orders: seq<Order>): (r: seq<StockEntry>)
    ensures |r| == |products|
    ensures multiset(r) == multiset(Entries(products, orders))
    ensures AllWellFormed(r) && SortedByAvailable(r)
    ensures forall k :: WithAvailable(r, k) == WithAvailable(Entries(products, orders), k)
  {
    var e := Entries(products, orders);
    SortFacts(e);
    assert |Sort(e)| == |multiset(Sort(e))| == |multiset(e)| == |e|;
    Sort(e)
  }

  /** Every report line carries its product's stock, the reference reserved
      quantity, and `max(0, stock - reserved)`. */
  lemma AnalyzeEntries(products: seq<Product>, orders: seq<Order>, e: StockEntry)
    requires e in Analyze(products, orders)
    ensures e.product in products
    ensures e.totalStock == e.product.stock
    ensures e.reserved == Reserved(orders, e.product.id)
    ensures e.available == (if e.product.stock - e.reserved > 0 then e.product.stock - e.reserved else 0)
  {
    var es := Entries(products, orders);
    assert e in multiset(Analyze(products, orders));
    assert e in multiset(es);
    var i :| 0 <= i < |es| && es[i] == e;
  }

  /** Out-of-stock lines come first, then low-stock lines, then the rest. */
  lemma AnalyzeTiers(products: seq<Product>, orders: seq<Order>, i: int, j: int)
    requires 0 <= i < j < |products|
    ensures var r := Analyze(products, orders);
      (r[j].isOutOfStock ==> r[i].isOutOfStock) &&
      (r[j].isLowStock ==> r[i].isOutOfStock || r[i].isLowStock) &&
      (r[i].isLowStock ==> !r[j].isOutOfStock) &&
      (!r[i].isOutOfStock && !r[i].isLowStock ==> !r[j].isOutOfStock && !r[j].isLowStock)
  {
    var r := Analyze(products, orders);
    assert WellFormed(r[i]) && WellFormed(r[j]);
    assert r[i].available <= r[j].available;
  }

  // ------------------------------------------------------------- summary

  datatype Summary = Summary(outOfStock: nat, lowStock: nat, healthy: nat)

  /** The three tiers `summary` counts. */
  predicate OutOfStock(e: StockEntry) {
    e.isOutOfStock
  }

  predicate LowStock(e: StockEntry) {
    e.isLowStock
  }

  predicate Healthy(e: StockEntry) {
    !e.isOutOfStock && !e.isLowStock
  }

  /** The three counts of `summary`: each is the number of entries in its
      tier, and on well-formed entries every entry is in exactly one tier,
      so the counts add up to the number of entries. */
  function Summarize(s: seq<StockEntry>): (r: Summary)
    ensures r.outOfStock == |Filter(s, OutOfStock)|
    ensures r.lowStock == |Filter(s, LowStock)|
    ensures r.healthy == |Filter(s, Healthy)|
    ensures AllWellFormed(s) ==> r.outOfStock + r.lowStock + r.healthy == |s|
  {
    var m := Summary(|Filter(s, OutOfStock)|, |Filter(s, LowStock)|, |Filter(s, Healthy)|);
    if AllWellFormed(s) then
      FilterPartition3(s, OutOfStock, LowStock, Healthy);
      m
    else m
  }

  /** On well-formed entries the tiers are read off the available
      quantity alone: none, one to `LowStockLimit`, or more. */
  lemma SummaryByAvailable(s: seq<StockEntry>)
    requires AllWellFormed(s)
    ensures Summarize(s) == Summary(
      |Filter(s, (e: StockEntry) => e.available == 0)|,
      |Filter(s, (e: StockEntry) => 0 < e.available <= LowStockLimit)|,
      |Filter(s, (e: StockEntry) => e.available > LowStockLimit)|)
  {
    FilterExt(s, OutOfStock, (e: StockEntry) => e.available == 0);
    FilterExt(s, LowStock, (e: StockEntry) => 0 < e.available <= LowStockLimit);
    FilterExt(s, Healthy, (e: StockEntry) => e.available > LowStockLimit);
  }

  /** The three summary counts add up to the number of products. */
  lemma SummaryCoversProducts(products: seq<Product>, orders: seq<Order>)
    ensures var m := Summarize(Analyze(products, orders));
      m.outOfStock + m.lowStock + m.healthy == |products|
  {
    var r := Analyze(products, orders);
    FilterPartition3(r, OutOfStock, LowStock, Healthy);
  }

  // ------------------------------------------------------------ scenario

  /** Stock 10 with pending orders for 4 and 3 leaves 3 available; once the
      first order is delivered its 4 are no longer reserved. */
  lemma ReservationScenario(p: Product, a: Order, b: Order)
    requires p.stock == 10
    requires a.status == Pending && a.items == [OrderItem(p.id, p.name, p.brandId, "", p.categoryId, "", 4)]
    requires b.status == Pending && b.items == [OrderItem(p.id, p.name, p.brandId, "", p.categoryId, "", 3)]
    ensures Analyze([p], [a, b])[0].reserved == 7
    ensures Analyze([p], [a, b])[0].available == 3
    ensures Analyze([p], [a.(status := Delivered), b])[0].reserved == 3
  {
    assert ItemQuantity(a.items, p.id) == 4;
    assert ItemQuantity(b.items, p.id) == 3;
    assert Reserved([b], p.id) == 3;
    var r := Analyze([p], [a, b]);
    assert r[0] in r;
    AnalyzeEntries([p], [a, b], r[0]);
    assert [a, b][1..] == [b];
    var r' := Analyze([p], [a.(status := Delivered), b]);
    assert r'[0] in r';
    AnalyzeEntries([p], [a.(status := Delivered), b], r'[0]);
    assert [a.(status := Delivered), b][1..] == [b];
  }
}
