/** The two pages that record sales side by side. The products page keeps
    its own sale records and stock figures; the sales page keeps a list of
    orders. Deleting an order is the removal of a record: it gives no stock
    back to any product. */
module Crm {
  import Products
  import Sales

  /** Deleting an order on the sales page leaves the products page, its
      stock figures included, exactly as it was. */
  method DeleteOrderKeepsStock(products: Products.ProductsPage, sales: Sales.SalesPage, id: int)
    requires products.Valid()
    modifies sales
    ensures sales.orders == Sales.Deleted(old(sales.orders), id)
    ensures products.State() == old(products.State())
    ensures products.Valid()
  {
    sales.DeleteOrder(id);
  }
}
