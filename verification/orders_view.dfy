/** The order list filter (`src/components/catalog/OrdersSection.tsx`): a
    status selector (`all` or one status) and a case-insensitive search on
    the shopkeeper name. */
module OrdersView {
  import opened Seqs
  import opened Text
  import opened Types

  datatype StatusFilter = AnyStatus | Only(status: Status)

  predicate Kept(o: Order, f: StatusFilter, query: string) {
    (f.AnyStatus? || o.status == f.status) && MatchesQuery(o.shopkeeperName, query)
  }

  /** `filteredOrders`: every copy of a kept order is shown, in order. */
  function FilterOrders(orders: seq<Order>, f: StatusFilter, query: string): (r: seq<Order>)
    ensures forall o :: o in r <==> o in orders && Kept(o, f, query)
    ensures forall o :: multiset(r)[o] == if Kept(o, f, query) then multiset(orders)[o] else 0
    ensures Subseq(r, orders)
  {
    var keep := (o: Order) => Kept(o, f, query);
    FilterMembers(orders, keep);
    FilterCounts(orders, keep);
    FilterSubseq(orders, keep);
    Filter(orders, keep)
  }

  /** "Showing N of M orders": N never exceeds M. */
  lemma ShownAtMostTotal(orders: seq<Order>, f: StatusFilter, query: string)
    ensures |FilterOrders(orders, f, query)| <= |orders|
  {
    SubseqLength(FilterOrders(orders, f, query), orders);
  }

  /** With `all` and an empty search, every order is listed, in order. */
  lemma NoFilterListsEverything(orders: seq<Order>)
    ensures FilterOrders(orders, AnyStatus, "") == orders
  {
    forall i | 0 <= i < |orders|
      ensures Kept(orders[i], AnyStatus, "")
    {
      EmptyQueryMatches(orders[i].shopkeeperName);
    }
    FilterKeepsAll(orders, (o: Order) => Kept(o, AnyStatus, ""));
  }

  /** A specific status shows only orders in that status, and every order
      in it whose name matches. */
  lemma OnlyShowsThatStatus(orders: seq<Order>, s: Status, query: string)
    ensures forall o :: o in FilterOrders(orders, Only(s), query) ==> o.status == s
    ensures forall o :: o in orders && o.status == s && MatchesQuery(o.shopkeeperName, query) ==>
      o in FilterOrders(orders, Only(s), query)
  {
  }
}
