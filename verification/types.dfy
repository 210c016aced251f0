/** The records of the catalog and of the order book (`src/types/catalog.ts`
    and the `OrderItem`/`Order` interfaces of `src/hooks/useOrders.ts`).
    Ids and timestamps are opaque strings; `price` is carried but never
    computed on. */
module Types {
  import opened Opt

  datatype Brand = Brand(id: string, name: string, createdAt: string)

  /** A category has no brand in the declared record. */
  datatype Category = Category(id: string, name: string, createdAt: string)

  datatype Product = Product(
    id: string,
    name: string,
    brandId: string,
    categoryId: string,
    price: real,
    stock: int,
    description: string,
    imageUrl: string,
    createdAt: string)

  datatype Status = Pending | Packed | Delivered

  /** One order line; the three names are snapshots taken when the line
      was composed. */
  datatype OrderItem = OrderItem(
    productId: string,
    productName: string,
    brandId: string,
    brandName: string,
    categoryId: string,
    categoryName: string,
    quantity: int)

  datatype Order = Order(
    id: string,
    shopkeeperName: string,
    items: seq<OrderItem>,
    createdAt: string,
    status: Status)

  /** The string literal stored for a status. */
  function StatusText(s: Status): (r: string)
    ensures StatusFromText(r) == Some(s)
  {
    match s
    case Pending => "pending"
    case Packed => "packed"
    case Delivered => "delivered"
  }

  function StatusFromText(t: string): Option<Status> {
    if t == "pending" then Some(Pending)
    else if t == "packed" then Some(Packed)
    else if t == "delivered" then Some(Delivered)
    else None
  }

  /** The sentinel the selectors use for "no filter". */
  const All: string := "all"
}
