/** The order lifecycle and the stock changes around it: the one forward
    transition an order card offers (`OrderCard.tsx`), the delivery
    deduction and the manual stock overwrite of `src/pages/Index.tsx`, and
    the status handler wired between them. */
module Lifecycle {
  import opened Opt
  import opened Seqs
  import opened Types
  import opened CatalogStore
  import opened OrderStore

  // --------------------------------------------------------- next status

  /** Position of a status along the lifecycle. */
  function Rank(s: Status): nat {
    match s
    case Pending => 0
    case Packed => 1
    case Delivered => 2
  }

  /** `nextStatus`: the one status an order card offers to move to. */
  function Next(s: Status): (r: Option<Status>)
    ensures r.None? <==> s == Delivered
    ensures r.Some? ==> r.value != Pending && r.value != s
    ensures r.Some? ==> Rank(r.value) == Rank(s) + 1
  {
    match s
    case Pending => Some(Packed)
    case Packed => Some(Delivered)
    case Delivered => None
  }

  /** The status after following the offered button `n` times (no button
      once delivered). */
  function Steps(s: Status, n: nat): Status
    decreases n
  {
    if n == 0 then s else Steps(Next(s).GetOr(s), n - 1)
  }

  /** Any status reaches `delivered` after exactly `2 - rank` presses and
      stays there. */
  lemma {:induction false} StepsReachDelivered(s: Status, n: nat)
    ensures Steps(s, n) == Delivered <==> Rank(s) + n >= 2
    ensures Rank(Steps(s, n)) == if Rank(s) + n >= 2 then 2 else Rank(s) + n
    decreases n
  {
    if n > 0 {
      StepsReachDelivered(Next(s).GetOr(s), n - 1);
    }
  }

  /** How many of `n` presses moved the order into `delivered`. */
  function DeliveryCount(s: Status, n: nat): nat
    decreases n
  {
    if n == 0 then 0
    else (if Next(s) == Some(Delivered) then 1 else 0) + DeliveryCount(Next(s).GetOr(s), n - 1)
  }

  /** Through the offered button an order enters `delivered` at most once,
      and exactly once when it starts elsewhere and is pressed enough. */
  lemma {:induction false} EntersDeliveredAtMostOnce(s: Status, n: nat)
    ensures DeliveryCount(s, n) <= 1
    ensures DeliveryCount(s, n) == 1 <==> s != Delivered && Rank(s) + n >= 2
    decreases n
  {
    if n > 0 {
      EntersDeliveredAtMostOnce(Next(s).GetOr(s), n - 1);
      if Next(s) == Some(Delivered) {
        assert DeliveryCount(Delivered, n - 1) == 0 by {
          EntersDeliveredAtMostOnce(Delivered, n - 1);
        }
      }
    }
  }

  datatype Action = SetStatus(status: Status) | Delete

  /** The buttons on an order card: `Mark as <next>` when there is a next
      status, and delete always. */
  function OfferedActions(s: Status): (r: seq<Action>)
    ensures Delete in r
    ensures forall t :: SetStatus(t) in r <==> Next(s) == Some(t)
    ensures |r| == if s == Delivered then 1 else 2
  {
    match Next(s)
    case Some(t) => [SetStatus(t), Delete]
    case None => [Delete]
  }

  // ---------------------------------------------------- stock mutations

  function Max0(n: int): int {
    if n > 0 then n else 0
  }

  /** The quantity of the last item naming `pid`, if any. */
  function LastQuantity(items: seq<OrderItem>, pid: string): Option<int>
    decreases |items|
  {
    if |items| == 0 then None
    else
      match LastQuantity(items[1..], pid)
      case Some(q) => Some(q)
      case None => if items[0].productId == pid then Some(items[0].quantity) else None
  }

  /** `p` with its stock set to `max(0, stock - q)`, the stock read from the
      first product of the snapshot with that id. */
  function Deducted(snapshot: seq<Product>, p: Product, q: int): Product {
    match ProductById(snapshot, p.id)
    case Some(s) => p.(stock := Max0(s.stock - q))
    case None => p
  }

  /** One iteration of the `forEach` of `handleDelivered`: when the item's
      product is in the snapshot, `updateProduct` writes
      `max(0, snapshot stock - quantity)` to the current list. */
  function DeliverItem(snapshot: seq<Product>, current: seq<Product>, it: OrderItem): (r: seq<Product>)
    ensures |r| == |current|
  {
    var found := ProductById(snapshot, it.productId);
    if found.Some? then UpdateProducts(current, it.productId, StockPatch(Max0(found.value.stock - it.quantity)))
    else current
  }

  function DeliverFrom(snapshot: seq<Product>, current: seq<Product>, items: seq<OrderItem>): (r: seq<Product>)
    ensures |r| == |current|
    decreases |items|
  {
    if |items| == 0 then current
    else DeliverFrom(snapshot, DeliverItem(snapshot, current, items[0]), items[1..])
  }

  /** `handleDelivered(items)`: every write is computed from the product
      list as it was before the delivery. */
  function HandleDelivered(products: seq<Product>, items: seq<OrderItem>): (r: seq<Product>)
    ensures |r| == |products|
    ensures SameIds(products, r)
  {
    if |products| == 0 then DeliverFrom(products, products, items)
    else
      DeliverFromSpec(products, products, items, 0);
      DeliverFrom(products, products, items)
  }

  predicate SameIds(a: seq<Product>, b: seq<Product>) {
    |a| == |b| && forall k :: 0 <= k < |a| ==> a[k].id == b[k].id
  }

  /** One write keeps every product's id. */
  lemma DeliverItemIds(snapshot: seq<Product>, current: seq<Product>, it: OrderItem)
    requires SameIds(snapshot, current)
    ensures SameIds(snapshot, DeliverItem(snapshot, current, it))
  {
    var found := ProductById(snapshot, it.productId);
    if found.Some? {
      var r := UpdateProducts(current, it.productId, StockPatch(Max0(found.value.stock - it.quantity)));
      assert forall k :: 0 <= k < |r| ==> r[k].id == current[k].id;
    }
  }

  /** One write deducts from the product the item names and leaves the
      others alone. */
  lemma DeliverItemAt(snapshot: seq<Product>, current: seq<Product>, it: OrderItem, i: int)
    requires 0 <= i < |current|
    ensures DeliverItem(snapshot, current, it)[i] ==
      if it.productId == current[i].id then Deducted(snapshot, current[i], it.quantity) else current[i]
  {
    var found := ProductById(snapshot, it.productId);
    if found.Some? {
      var n := Max0(found.value.stock - it.quantity);
      var r := UpdateProducts(current, it.productId, StockPatch(n));
      if it.productId == current[i].id {
        assert r[i] == current[i].(stock := n) by {
          assert r[i] == Apply(current[i], StockPatch(n));
        }
      }
    }
  }

  lemma {:induction false} DeliverFromSpec(snapshot: seq<Product>, current: seq<Product>, items: seq<OrderItem>, i: int)
    requires SameIds(snapshot, current) && 0 <= i < |current|
    ensures SameIds(snapshot, DeliverFrom(snapshot, current, items))
    ensures DeliverFrom(snapshot, current, items)[i] ==
      match LastQuantity(items, current[i].id)
      case None => current[i]
      case Some(q) => Deducted(snapshot, current[i], q)
    decreases |items|
  {
    if |items| > 0 {
      var next := DeliverItem(snapshot, current, items[0]);
      DeliverItemIds(snapshot, current, items[0]);
      DeliverItemAt(snapshot, current, items[0], i);
      DeliverFromSpec(snapshot, next, items[1..], i);
    }
  }

  /** Products no item names are unchanged; a product named by the items
      ends with `max(0, stock - q)` for the LAST such item's quantity `q`
      (writes do not accumulate); ids are kept. */
  lemma HandleDeliveredSpec(products: seq<Product>, items: seq<OrderItem>, i: int)
    requires 0 <= i < |products|
    ensures SameIds(products, HandleDelivered(products, items))
    ensures LastQuantity(items, products[i].id).None? ==> HandleDelivered(products, items)[i] == products[i]
    ensures LastQuantity(items, products[i].id).Some? ==>
      HandleDelivered(products, items)[i] == Deducted(products, products[i], LastQuantity(items, products[i].id).value)
  {
    DeliverFromSpec(products, products, items, i);
  }

  /** With distinct product ids the deduction reads the product's own
      stock, and the stock it writes is never negative. */
  lemma HandleDeliveredStock(products: seq<Product>, items: seq<OrderItem>, i: int, q: int)
    requires 0 <= i < |products|
    requires forall j :: 0 <= j < i ==> products[j].id != products[i].id
    requires LastQuantity(items, products[i].id) == Some(q)
    ensures HandleDelivered(products, items)[i] == products[i].(stock := Max0(products[i].stock - q))
    ensures HandleDelivered(products, items)[i].stock >= 0
  {
    HandleDeliveredSpec(products, items, i);
    assert ProductById(products, products[i].id) == Some(products[i]) by {
      FirstWithId(products, i);
    }
  }

  /** With no earlier product sharing its id, looking up product `i`'s id
      finds product `i`. */
  lemma FirstWithId(products: seq<Product>, i: int)
    requires 0 <= i < |products|
    requires forall j :: 0 <= j < i ==> products[j].id != products[i].id
    ensures ProductById(products, products[i].id) == Some(products[i])
  {
    var id := products[i].id;
    assert HasProductId(products, id);
    var r := ProductById(products, id);
    var k :| 0 <= k < |products| && products[k] == r.value && (forall j :: 0 <= j < k ==> products[j].id != id);
    assert k == i;
  }

  /** An order naming one product twice (3, then 4) on stock 10 leaves 6,
      not 3. */
  lemma DeliveryLastWriteWins(p: Product, a: OrderItem, b: OrderItem)
    requires p.stock == 10
    requires a.productId == p.id && a.quantity == 3
    requires b.productId == p.id && b.quantity == 4
    ensures HandleDelivered([p], [a, b]) == [p.(stock := 6)]
  {
    assert [a, b][1..] == [b];
    assert [b][1..] == [];
    assert LastQuantity([b], p.id) == Some(4);
    assert LastQuantity([a, b], p.id) == Some(4);
    HandleDeliveredStock([p], [a, b], 0, 4);
  }

  /** `handleUpdateStock(id, n)`: the stock of that product becomes exactly
      `n`; nothing else changes. */
  function HandleUpdateStock(products: seq<Product>, id: string, n: int): (r: seq<Product>)
    ensures |r| == |products|
    ensures forall i :: 0 <= i < |r| && products[i].id == id ==> r[i] == products[i].(stock := n)
    ensures forall i :: 0 <= i < |r| && products[i].id != id ==> r[i] == products[i]
  {
    UpdateProducts(products, id, StockPatch(n))
  }

  // ----------------------------------------------------- status handler

  datatype Shop = Shop(products: seq<Product>, orders: seq<Order>)

  function OrderById(orders: seq<Order>, id: string): (r: Option<Order>)
    ensures r.None? <==> !HasOrderId(orders, id)
    ensures r.Some? ==> r.value.id == id && r.value in orders
  {
    var r := Find(orders, (o: Order) => o.id == id);
    assert r.None? ==> !HasOrderId(orders, id);
    r
  }

  /** `handleUpdateOrderStatus` as written: the delivery callback is passed
      as an extra argument `updateOrderStatus` never reads, so only the
      status changes. */
  function UpdateStatusAsWritten(shop: Shop, id: string, s: Status): (r: Shop)
    ensures r.orders == UpdateOrderStatus(shop.orders, id, s)
    ensures r.products == shop.products
  {
    Shop(shop.products, UpdateOrderStatus(shop.orders, id, s))
  }

  /** Delivering an order with 4 units of a product in stock 10 leaves the
      stock at 10 in the handler as written. */
  lemma AsWrittenDeliveryKeepsStock(p: Product, o: Order)
    requires p.stock == 10 && o.status == Packed
    requires o.items == [OrderItem(p.id, p.name, p.brandId, "", p.categoryId, "", 4)]
    ensures UpdateStatusAsWritten(Shop([p], [o]), o.id, Delivered).orders[0].status == Delivered
    ensures UpdateStatusAsWritten(Shop([p], [o]), o.id, Delivered).products[0].stock == 10
  {
  }

  /** The intended composition: set the status and, when the order enters
      `delivered` from another status, deduct its items. The source has no
      `o.status != delivered` guard; the guard is this model's choice, so
      that setting `delivered` twice cannot deduct twice (the order card
      offers no button for a delivered order, so this does not arise from
      the card). Only delivery touches the products, and it neither adds,
      drops nor reorders any. */
  function UpdateStatus(shop: Shop, id: string, s: Status): (r: Shop)
    ensures r.orders == UpdateOrderStatus(shop.orders, id, s)
    ensures SameIds(shop.products, r.products)
    ensures s != Delivered ==> r.products == shop.products
  {
    var orders := UpdateOrderStatus(shop.orders, id, s);
    match OrderById(shop.orders, id)
    case Some(o) =>
      if s == Delivered && o.status != Delivered then Shop(HandleDelivered(shop.products, o.items), orders)
      else Shop(shop.products, orders)
    case None => Shop(shop.products, orders)
  }

  lemma OrderByIdAfterUpdate(orders: seq<Order>, id: string, o: Order, s: Status)
    requires OrderById(orders, id) == Some(o)
    ensures OrderById(UpdateOrderStatus(orders, id, s), id) == Some(o.(status := s))
  {
    var r := UpdateOrderStatus(orders, id, s);
    var p := (x: Order) => x.id == id;
    var k := FindIndex(orders, p);
    var k' := FindIndex(r, p);
    assert forall j :: 0 <= j < |orders| ==> (p(r[j]) <==> p(orders[j]));
    assert k == k';
  }

  /** Only the status and, on entering `delivered`, the stock of the named
      products change: the corrected handler deducts exactly the order's
      items, and repeating it changes nothing more. */
  lemma UpdateStatusSpec(shop: Shop, id: string, o: Order, s: Status)
    requires OrderById(shop.orders, id) == Some(o)
    ensures UpdateStatus(shop, id, s).orders == UpdateOrderStatus(shop.orders, id, s)
    ensures UpdateStatus(shop, id, s).products ==
      if s == Delivered && o.status != Delivered then HandleDelivered(shop.products, o.items) else shop.products
    ensures UpdateStatus(UpdateStatus(shop, id, s), id, s) == UpdateStatus(shop, id, s)
  {
    var shop' := UpdateStatus(shop, id, s);
    OrderByIdAfterUpdate(shop.orders, id, o, s);
    UpdateStatusIdempotent(shop.orders, id, s);
  }

  /** The corrected handler on the same order as `AsWrittenDeliveryKeepsStock`
      leaves 6. */
  lemma DeliveryDeducts(p: Product, o: Order)
    requires p.stock == 10 && o.status == Packed
    requires o.items == [OrderItem(p.id, p.name, p.brandId, "", p.categoryId, "", 4)]
    ensures UpdateStatus(Shop([p], [o]), o.id, Delivered).products == [p.(stock := 6)]
  {
    assert OrderById([o], o.id) == Some(o);
    UpdateStatusSpec(Shop([p], [o]), o.id, o, Delivered);
    assert o.items[1..] == [];
    assert LastQuantity(o.items, p.id) == Some(4);
    HandleDeliveredStock([p], o.items, 0, 4);
  }

  /** Pressing the order card's status button: nothing happens for an
      unknown order; otherwise no order or product is added, dropped or
      reordered. */
  function Click(shop: Shop, id: string): (r: Shop)
    ensures OrderById(shop.orders, id).None? ==> r == shop
    ensures |r.orders| == |shop.orders| && SameIds(shop.products, r.products)
  {
    match OrderById(shop.orders, id)
    case None => shop
    case Some(o) =>
      match Next(o.status)
      case None => shop
      case Some(s) => UpdateStatus(shop, id, s)
  }

  /** `f` applied `n` times, starting from `x`. */
  function Iterate<T>(f: T -> T, x: T, n: nat): T
    decreases n
  {
    if n == 0 then x else f(Iterate(f, x, n - 1))
  }

  /** A property that holds at the start and survives each step holds
      after any number of steps. */
  lemma {:induction false} IterateInvariant<T>(f: T -> T, inv: (nat, T) -> bool, x: T, n: nat)
    requires inv(0, x)
    requires forall m: nat, y: T :: inv(m, y) ==> inv(m + 1, f(y))
    ensures inv(n, Iterate(f, x, n))
    decreases n
  {
    if n > 0 {
      IterateInvariant(f, inv, x, n - 1);
    }
  }

  /** Pressing the status button of the order `id`. */
  function ClickOn(id: string): Shop -> Shop {
    (shop: Shop) => Click(shop, id)
  }

  /** The shop after pressing the button `n` times. */
  function Clicks(shop: Shop, id: string, n: nat): Shop {
    Iterate(ClickOn(id), shop, n)
  }

  /** A delivered order offers no status button. */
  lemma ClickOnDelivered(shop: Shop, id: string, o: Order)
    requires OrderById(shop.orders, id) == Some(o) && o.status == Delivered
    ensures Click(shop, id) == shop
  {
  }

  lemma ClickSpec(shop: Shop, id: string, o: Order)
    requires OrderById(shop.orders, id) == Some(o) && o.status != Delivered
    ensures OrderById(Click(shop, id).orders, id) == Some(o.(status := Next(o.status).value))
    ensures Click(shop, id).products ==
      if Next(o.status) == Some(Delivered) then HandleDelivered(shop.products, o.items) else shop.products
  {
    var t := Next(o.status).value;
    UpdateStatusSpec(shop, id, o, t);
    OrderByIdAfterUpdate(shop.orders, id, o, t);
  }

  /** The `n`-th press acts on the status the first `n - 1` presses left. */
  lemma {:induction false} StepsLast(s: Status, n: nat)
    requires n > 0
    ensures Steps(s, n) == Next(Steps(s, n - 1)).GetOr(Steps(s, n - 1))
    decreases n
  {
    if n > 1 {
      StepsLast(Next(s).GetOr(s), n - 1);
    }
  }

  /** One more press, given what the `m` earlier presses did: the status
      moves one step and the items are deducted when that step enters
      `delivered`. */
  lemma ClickStep(prev: Shop, id: string, o: Order, m: nat, base: seq<Product>)
    requires o.status != Delivered
    requires OrderById(prev.orders, id) == Some(o.(status := Steps(o.status, m)))
    requires prev.products == if Rank(o.status) + m >= 2 then HandleDelivered(base, o.items) else base
    ensures OrderById(Click(prev, id).orders, id) == Some(o.(status := Steps(o.status, m + 1)))
    ensures Click(prev, id).products == if Rank(o.status) + m + 1 >= 2 then HandleDelivered(base, o.items) else base
  {
    var s := Steps(o.status, m);
    var op := o.(status := s);
    StepsLast(o.status, m + 1);
    StepsReachDelivered(o.status, m);
    if s == Delivered {
      assert Rank(o.status) + m >= 2;
      ClickOnDelivered(prev, id, op);
    } else {
      assert prev.products == base;
      assert Next(s) == Some(Delivered) <==> Rank(o.status) + m + 1 >= 2 by {
        assert Rank(s) == Rank(o.status) + m;
      }
      ClickSpec(prev, id, op);
      assert op.items == o.items;
      assert op.(status := Next(s).value) == o.(status := Steps(o.status, m + 1));
    }
  }

  /** What `m` presses did to the order and the products. */
  predicate ClickedTo(shop: Shop, id: string, o: Order, m: nat, after: Shop) {
    OrderById(after.orders, id) == Some(o.(status := Steps(o.status, m))) &&
    after.products == if Rank(o.status) + m >= 2 then HandleDelivered(shop.products, o.items) else shop.products
  }

  /** Each press carries the description of `m` presses over to `m + 1`. */
  lemma ClickKeepsClickedTo(shop: Shop, id: string, o: Order)
    requires o.status != Delivered
    ensures forall m: nat, sh: Shop :: ClickedTo(shop, id, o, m, sh) ==> ClickedTo(shop, id, o, m + 1, ClickOn(id)(sh))
  {
    forall m: nat, sh: Shop | ClickedTo(shop, id, o, m, sh)
      ensures ClickedTo(shop, id, o, m + 1, ClickOn(id)(sh))
    {
      ClickStep(sh, id, o, m, shop.products);
    }
  }

  /** However often the button is pressed, the order's items are deducted
      once, at the press that enters `delivered`. */
  lemma ClicksDeductOnce(shop: Shop, id: string, o: Order, n: nat)
    requires OrderById(shop.orders, id) == Some(o) && o.status != Delivered
    ensures OrderById(Clicks(shop, id, n).orders, id) == Some(o.(status := Steps(o.status, n)))
    ensures Clicks(shop, id, n).products ==
      if Rank(o.status) + n >= 2 then HandleDelivered(shop.products, o.items) else shop.products
  {
    assert o.(status := o.status) == o;
    ClickKeepsClickedTo(shop, id, o);
    IterateInvariant(ClickOn(id), (m: nat, sh: Shop) => ClickedTo(shop, id, o, m, sh), shop, n);
  }
}
