/** The sales orders page: a list of orders read from storage, delete by id,
    and the revenue total shown above the table. */
module Sales {
  import opened JsRuntime

  /** One order; the date is kept as the text it was stored with. */
  datatype Order = Order(
    id: int,
    orderId: string,
    customer: string,
    product: string,
    quantity: int,
    total: int,
    date: string)

  function OrderTotal(o: Order): int
  {
    o.total
  }

  function OtherOrder(id: int): Order -> bool
  {
    (o: Order) => o.id != id
  }

  function OrderWithId(id: int): Order -> bool
  {
    (o: Order) => o.id == id
  }

  predicate HasOrder(orders: seq<Order>, id: int)
  {
    exists i | 0 <= i < |orders| :: orders[i].id == id
  }

  /** totalRevenue: `orders.reduce((sum, order) => sum + order.total, 0)` */
  function TotalRevenue(orders: seq<Order>): int
  {
    SumBy(orders, OrderTotal)
  }

  /** handleDeleteOrder: `orders.filter((o) => o.id !== id)`; only the order
      list changes. */
  function Deleted(orders: seq<Order>, id: int): (r: seq<Order>)
    ensures forall o | o in r :: o in orders && o.id != id
    ensures forall o | o in orders && o.id != id :: o in r
  {
    Filter(orders, OtherOrder(id))
  }

  /** The total of no orders is 0, and the total of two lists one after the
      other is the sum of their totals. */
  lemma TotalRevenueAdds(a: seq<Order>, b: seq<Order>)
    ensures TotalRevenue([]) == 0
    ensures TotalRevenue(a + b) == TotalRevenue(a) + TotalRevenue(b)
  {
    SumByAppend(a, b, OrderTotal);
  }

  /** Deleting keeps the remaining orders in their order: it deletes from each
      part of a list separately. */
  lemma DeleteKeepsOrder(a: seq<Order>, b: seq<Order>, id: int)
    ensures Deleted(a + b, id) == Deleted(a, id) + Deleted(b, id)
  {
    FilterAppend(a, b, OtherOrder(id));
  }

  /** When only the order at `k` carries the id, deleting removes exactly that entry. */
  lemma DeleteSingle(orders: seq<Order>, id: int, k: nat)
    requires k < |orders| && orders[k].id == id
    requires forall i | 0 <= i < |orders| && i != k :: orders[i].id != id
    ensures Deleted(orders, id) == orders[..k] + orders[k + 1..]
  {
    FilterDropsOne(orders, OtherOrder(id), k);
  }

  /** Deleting an id no order carries changes nothing. */
  lemma DeleteAbsent(orders: seq<Order>, id: int)
    requires !HasOrder(orders, id)
    ensures Deleted(orders, id) == orders
  {
    forall o | o in orders ensures OtherOrder(id)(o) {
      var i :| 0 <= i < |orders| && orders[i] == o;
    }
    FilterKeepsAll(orders, OtherOrder(id));
  }

  /** Deleting the same id twice is deleting it once. */
  lemma DeleteIdempotent(orders: seq<Order>, id: int)
    ensures Deleted(Deleted(orders, id), id) == Deleted(orders, id)
  {
    FilterIdempotent(orders, OtherOrder(id));
  }

  /** The revenue after a delete is the revenue before minus the totals of
      the orders that carried the id. */
  lemma DeleteRevenue(orders: seq<Order>, id: int)
    ensures TotalRevenue(Deleted(orders, id)) ==
      TotalRevenue(orders) - TotalRevenue(Filter(orders, OrderWithId(id)))
  {
    SumBySplit(orders, OrderTotal, OtherOrder(id), OrderWithId(id));
  }

  /** The `orders` state of the page. */
  class SalesPage {
    var orders: seq<Order>

    /** The page starts from the orders found in storage (none if there are none). */
    constructor (saved: seq<Order>)
      ensures orders == saved
    {
      orders := saved;
    }

    method DeleteOrder(id: int)
      modifies this
      ensures orders == Deleted(old(orders), id)
    {
      orders := Filter(orders, OtherOrder(id));
    }
  }
}
