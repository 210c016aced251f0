/** The order hook (`src/hooks/useOrders.ts`): adding, re-statusing,
    deleting and importing orders, and the rows of the CSV export. Ids and
    clock readings are parameters; the locale date shown in the CSV is the
    opaque function `date`. */
module OrderStore {
  import opened Opt
  import opened Seqs
  import opened Text
  import opened Types
  import Csv

  predicate HasOrderId(orders: seq<Order>, id: string) {
    exists i :: 0 <= i < |orders| && orders[i].id == id
  }

  /** `addOrder(name, items)`: appends one pending order with the trimmed
      name and the items exactly as given. */
  function AddOrder(orders: seq<Order>, name: string, items: seq<OrderItem>, id: string, now: string)
    : (r: (seq<Order>, Order))
    ensures r.1.status == Pending
    ensures r.1.shopkeeperName == Trim(name) && r.1.items == items
    ensures r.1.id == id && r.1.createdAt == now
    ensures |r.0| == |orders| + 1 && r.0[..|orders|] == orders && r.0[|orders|] == r.1
  {
    var o := Order(id, Trim(name), items, now, Pending);
    (orders + [o], o)
  }

  /** `updateOrderStatus(id, status)`: overwrites the status of every order
      with that id, whatever the previous status was. */
  function UpdateOrderStatus(orders: seq<Order>, id: string, s: Status): (r: seq<Order>)
    ensures |r| == |orders|
    ensures forall i :: 0 <= i < |orders| && orders[i].id == id ==> r[i] == orders[i].(status := s)
    ensures forall i :: 0 <= i < |orders| && orders[i].id != id ==> r[i] == orders[i]
  {
    Map(orders, (o: Order) => if o.id == id then o.(status := s) else o)
  }

  /** `deleteOrder(id)`: drops exactly the orders with that id, and keeps
      every copy of every other order. */
  function DeleteOrder(orders: seq<Order>, id: string): (r: seq<Order>)
    ensures forall o :: o in r <==> o in orders && o.id != id
    ensures forall o :: multiset(r)[o] == if o.id != id then multiset(orders)[o] else 0
    ensures Subseq(r, orders)
  {
    var keep := (o: Order) => o.id != id;
    FilterSubseq(orders, keep);
    FilterMembers(orders, keep);
    FilterCounts(orders, keep);
    Filter(orders, keep)
  }

  /** The append done by `importFromJSON` once the file has been parsed:
      imported orders go after the existing ones, verbatim. */
  function ImportOrders(orders: seq<Order>, imported: seq<Order>): (r: seq<Order>)
    ensures |r| == |orders| + |imported|
    ensures r[..|orders|] == orders && r[|orders|..] == imported
  {
    orders + imported
  }

  /** Only the status changes: id, name, items and creation time stay. */
  lemma UpdateStatusKeepsContent(orders: seq<Order>, id: string, s: Status, i: int)
    requires 0 <= i < |orders|
    ensures var r := UpdateOrderStatus(orders, id, s);
      r[i].id == orders[i].id && r[i].shopkeeperName == orders[i].shopkeeperName &&
      r[i].items == orders[i].items && r[i].createdAt == orders[i].createdAt
  {
  }

  lemma UpdateStatusUnknownIsNoop(orders: seq<Order>, id: string, s: Status)
    requires !HasOrderId(orders, id)
    ensures UpdateOrderStatus(orders, id, s) == orders
  {
  }

  lemma UpdateStatusIdempotent(orders: seq<Order>, id: string, s: Status)
    ensures UpdateOrderStatus(UpdateOrderStatus(orders, id, s), id, s) == UpdateOrderStatus(orders, id, s)
  {
  }

  /** No transition is checked: a delivered order can be set back to
      pending. */
  lemma UpdateStatusAllowsBackward(o: Order)
    requires o.status == Delivered
    ensures UpdateOrderStatus([o], o.id, Pending)[0].status == Pending
  {
  }

  lemma DeleteOrderIdempotent(orders: seq<Order>, id: string)
    ensures DeleteOrder(DeleteOrder(orders, id), id) == DeleteOrder(orders, id)
  {
    FilterIdempotent(orders, (o: Order) => o.id != id);
  }

  /** Deleting a just-added order with a fresh id restores the list. */
  lemma DeleteOrderUndoesAdd(orders: seq<Order>, name: string, items: seq<OrderItem>, id: string, now: string)
    requires !HasOrderId(orders, id)
    ensures DeleteOrder(AddOrder(orders, name, items, id, now).0, id) == orders
  {
    var r := AddOrder(orders, name, items, id, now);
    var keep := (o: Order) => o.id != id;
    assert r.0 == orders + [r.1];
    FilterAppend(orders, [r.1], keep);
    FilterKeepsAll(orders, keep);
  }

  /** Import reuses ids: importing a store's own export puts two orders with
      each id in the store. */
  lemma ImportKeepsDuplicateIds(orders: seq<Order>, i: int)
    requires 0 <= i < |orders|
    ensures var r := ImportOrders(orders, orders);
      r[i].id == orders[i].id && r[|orders| + i].id == orders[i].id && i != |orders| + i
  {
  }

  // ------------------------------------------------------------------ CSV

  const CsvHeader: seq<string> :=
    ["Order ID", "Shopkeeper", "Product", "Brand", "Category", "Quantity", "Status", "Date"]

  /** The eight cells written for one item of one order. */
  function ItemRow(o: Order, it: OrderItem, date: string -> string): (row: seq<string>)
    ensures |row| == |CsvHeader|
  {
    [o.id, o.shopkeeperName, it.productName, it.brandName, it.categoryName,
     IntToString(it.quantity), StatusText(o.status), date(o.createdAt)]
  }

  /** The quantity and status cells of an item row read back as the item's
      quantity and the order's status. */
  lemma ItemRowReadsBack(o: Order, it: OrderItem, date: string -> string)
    ensures ParseInt(ItemRow(o, it, date)[5]) == Some(it.quantity)
    ensures StatusFromText(ItemRow(o, it, date)[6]) == Some(o.status)
  {
    ParseIntToString(it.quantity);
  }

  /** `order.items.map(item => [...])`: the rows of one order. */
  function OrderRows(o: Order, date: string -> string): (rows: seq<seq<string>>)
    ensures |rows| == |o.items|
    ensures forall j :: 0 <= j < |o.items| ==> rows[j] == ItemRow(o, o.items[j], date)
  {
    Map(o.items, (it: OrderItem) => ItemRow(o, it, date))
  }

  /** `orders.flatMap(order => order.items.map(...))`. */
  function DataRows(orders: seq<Order>, date: string -> string): seq<seq<string>>
    decreases |orders|
  {
    if |orders| == 0 then [] else OrderRows(orders[0], date) + DataRows(orders[1..], date)
  }

  /** Total number of items over all orders. */
  function ItemCount(orders: seq<Order>): nat
    decreases |orders|
  {
    if |orders| == 0 then 0 else |orders[0].items| + ItemCount(orders[1..])
  }

  /** The header followed by one row per (order, item) pair. */
  function CsvRows(orders: seq<Order>, date: string -> string): seq<seq<string>> {
    [CsvHeader] + DataRows(orders, date)
  }

  /** The text `exportToCSV` downloads. Whatever the names hold, a reader
      gets the header back as the first row. */
  function ExportCsv(orders: seq<Order>, date: string -> string): (text: string)
    ensures Csv.Decode(text)[0] == CsvHeader
  {
    var rows := CsvRows(orders, date);
    assert rows[0] == CsvHeader;
    assert forall j :: 0 <= j < |CsvHeader| ==> '"' !in CsvHeader[j];
    Csv.FirstRowReadsBack(rows);
    Csv.Encode(rows)
  }

  /** One data row per item, eight cells in every row. */
  lemma {:induction false} DataRowsShape(orders: seq<Order>, date: string -> string)
    ensures |DataRows(orders, date)| == ItemCount(orders)
    ensures forall k :: 0 <= k < |DataRows(orders, date)| ==> |DataRows(orders, date)[k]| == 8
    decreases |orders|
  {
    if |orders| > 0 {
      DataRowsShape(orders[1..], date);
    }
  }

  /** The CSV has a header and one row per item: `1 + item count` rows of
      eight cells each. */
  lemma CsvShape(orders: seq<Order>, date: string -> string)
    ensures |CsvRows(orders, date)| == 1 + ItemCount(orders)
    ensures forall k :: 0 <= k < |CsvRows(orders, date)| ==> |CsvRows(orders, date)[k]| == 8
    ensures CsvRows(orders, date)[0] == CsvHeader
  {
    DataRowsShape(orders, date);
  }

  /** Position of item `j` of order `i` among the data rows: the items of
      the earlier orders come first. */
  function RowPosition(orders: seq<Order>, i: int, j: int): int
    requires 0 <= i <= |orders|
  {
    ItemCount(orders[..i]) + j
  }

  /** The rows of two order lists, one after the other, are the rows of
      their concatenation. */
  lemma {:induction false} DataRowsAppend(a: seq<Order>, b: seq<Order>, date: string -> string)
    ensures DataRows(a + b, date) == DataRows(a, date) + DataRows(b, date)
    decreases |a|
  {
    if |a| == 0 {
      assert a + b == b;
    } else {
      assert (a + b)[0] == a[0];
      assert (a + b)[1..] == a[1..] + b;
      DataRowsAppend(a[1..], b, date);
    }
  }

  /** Dropping the first order from a prefix removes its items from the
      count. */
  lemma ItemCountPrefix(orders: seq<Order>, i: int)
    requires 0 < i <= |orders|
    ensures ItemCount(orders[..i]) == |orders[0].items| + ItemCount(orders[1..][..i - 1])
  {
    assert orders[..i][0] == orders[0];
    assert orders[..i][1..] == orders[1..][..i - 1];
  }

  /** Rows come in order-then-item sequence: item `j` of order `i` is the
      data row at `RowPosition(orders, i, j)`. */
  lemma {:induction false} DataRowsIndex(orders: seq<Order>, date: string -> string, i: int, j: int)
    requires 0 <= i < |orders| && 0 <= j < |orders[i].items|
    ensures 0 <= RowPosition(orders, i, j) < |DataRows(orders, date)|
    ensures DataRows(orders, date)[RowPosition(orders, i, j)] == ItemRow(orders[i], orders[i].items[j], date)
    decreases i
  {
    var head := OrderRows(orders[0], date);
    var tail := orders[1..];
    assert DataRows(orders, date) == head + DataRows(tail, date);
    if i == 0 {
      assert orders[..0] == [];
      assert head[j] == ItemRow(orders[0], orders[0].items[j], date);
    } else {
      assert tail[i - 1] == orders[i];
      ItemCountPrefix(orders, i);
      DataRowsIndex(tail, date, i - 1, j);
      assert RowPosition(orders, i, j) == |head| + RowPosition(tail, i - 1, j);
    }
  }

  /** When no cell holds a double quote, reading the exported text gives
      back exactly the header and the item rows, commas and line breaks
      inside names included. */
  lemma ExportCsvReadsBack(orders: seq<Order>, date: string -> string)
    requires Csv.QuoteFree(CsvRows(orders, date))
    ensures Csv.Decode(ExportCsv(orders, date)) == CsvRows(orders, date)
  {
    CsvShape(orders, date);
    assert Csv.Rectangular(CsvRows(orders, date));
    Csv.DecodeEncode(CsvRows(orders, date));
  }
}
