# Small-business CRM: the business rules of the products, customers and sales pages

This project models, in Dafny, the logic of three React pages of a small CRM:

- **Products** (`client/pages/Products.tsx`) is an inventory and sales ledger.
  - It holds two lists: products, and the sale records made from them.
  - A product form is validated field by field, and only a valid form adds or edits a product.
  - Selling is guarded by the quantity and the stock on hand. It appends one sale record and lowers that product's stock.
  - Deleting a product also deletes its sale records.
  - The budget figures are folds over the two lists: remaining inventory cost, revenue, total investment, profit, units sold, and "all products sold".
- **Customers** (`client/pages/Customers.tsx`) is a customer registry.
  - It validates name, email and phone. The email must match the unanchored pattern `\S+@\S+\.\S+`.
  - It adds customers with a fresh id, edits them by id and deletes them by id.
- **Sales** (`client/pages/Sales.tsx`) is a list of orders with delete by id and a revenue total.

Project layout:

- `js_runtime.dfy` (module `JsRuntime`) states the JavaScript built-ins the pages rely on:
  - `trim` and the `\s` white-space class;
  - `filter`;
  - a `reduce` that sums a field;
  - `Math.max(...xs, 0)`;
  - the NaN rule, under which every comparison with an empty number field is false.
- `products.dfy` (module `Products`) holds two things:
  - the pure transitions of a `Ledger` value, with the lemmas about them;
  - the class `ProductsPage`. Its handlers replace the `products` and `sales` fields and are proved to produce exactly the ledger the transitions describe.
- `customers.dfy` (module `Customers`) holds the email predicate, the validator, the pure list transitions and the class `CustomersPage`.
- `sales.dfy` (module `Sales`) holds the order list, `TotalRevenue`, delete, and the class `SalesPage`.
- `crm.dfy` (module `Crm`) shows that deleting an order on the sales page leaves the products page, and its stock, untouched.

How the source is represented:

- Numbers typed into a form are `Option<int>`. `None` stands for an empty field.
- On the products page money is a whole number of сўм, because the price inputs step by 1. Order totals on the sales page are whole numbers too; see "## Left out".
- Dates are opaque strings passed in by the caller.
- Each validator returns the error map as a record with one optional message per field, together with the `valid` flag.

## Model

| member | source | states |
|---|---|---|
| JsRuntime.Trim | client/pages/Products.tsx:73 | `trim()` returns the slice of the string between a blank prefix (the white space `TrimStart` drops) and a blank suffix; the slice starts and ends with a non-space character, and it is empty exactly when the string is all white space |
| JsRuntime.IsBlankAfterTrim | client/pages/Customers.tsx:25 | `!s.trim()` holds exactly when every character of `s` is white space |
| JsRuntime.Filter | client/pages/Products.tsx:185 | `filter` keeps exactly the elements that pass the test, and no more of them than there were |
| JsRuntime.FilterAppend | client/pages/Sales.tsx:37 | filtering a concatenation filters each part and keeps their order |
| JsRuntime.FilterDropsOne | client/pages/Customers.tsx:79 | when only the element at k fails the test, the filter returns the list without that one element, the rest in order |
| JsRuntime.SumBySplit | client/pages/Products.tsx:216 | a `reduce` sum splits into the sum over the elements a filter keeps plus the sum over those it drops |
| JsRuntime.MaxOrZero | client/pages/Products.tsx:101 | `Math.max(...xs, 0)` is at least 0 and at least every element, and is 0 or one of the elements |
| Products.ValidateForm | client/pages/Products.tsx:71-94 | each field's message is the one its own rules give (for selling and discounted price, "must be higher than cost" overwrites "valid ... required"); the form is valid iff the map is empty iff the form is accepted |
| Products.ErrorMap | client/pages/Products.tsx:72-93 | the `newErrors` object has a key exactly for each field with a message, mapped to that message's source text, and no other key; it has no keys exactly when no field has a message |
| Products.FormAcceptedIff | client/pages/Products.tsx:73-91 | a form is accepted iff the name is not blank, all four numbers are present, 0 < cost < selling, cost < discounted and stock >= 0 (no rule relates the discounted to the selling price) |
| Products.AcceptedExamples | client/pages/Products.tsx:83-91 | a stock of 0 is accepted, and a discounted price above the selling price is accepted |
| Products.MissingCostSkipsComparison | client/pages/Products.tsx:83-89 | with the cost price empty, the comparisons with it never fire: selling and discounted price are judged only on being present and positive |
| Products.NextProductId | client/pages/Products.tsx:101 | the id of a new product is positive and above every id in use |
| Products.FindProduct | client/pages/Products.tsx:153 | `find` returns a product iff one carries the id, and the one it returns carries it and is in the list |
| Products.FoundProductAt | client/pages/Products.tsx:153 | with distinct ids, `find` returns the product at the index holding that id |
| Products.Ledger.AddProduct | client/pages/Products.tsx:96-109 | an invalid form changes nothing; otherwise one product is appended, with an id above all others, the form's name and prices, and stock = originalStock = entered stock, while existing products and all sales stay |
| Products.AddPreservesValid | client/pages/Products.tsx:96-109 | adding keeps ids distinct, every product well formed (0 <= stock <= originalStock, prices above a positive cost) and every sale pointing at a product |
| Products.Ledger.UpdateProduct | client/pages/Products.tsx:129-146 | an edit keeps the sale history and every product's id and position, leaves every product with another id as it was, and a rejected form changes nothing |
| Products.UpdateProductEffect | client/pages/Products.tsx:129-146 | editing sets name, prices and stock = originalStock = new stock on the product with that id only, keeps every id and all sales; an invalid form or an absent id changes nothing |
| Products.UpdatePreservesValid | client/pages/Products.tsx:129-146 | editing keeps the ledger invariant |
| Products.UpdateAt | client/pages/Products.tsx:133-145 | with distinct ids, an accepted edit replaces exactly the entry holding the id |
| Products.UnchangedEditForgetsSoldUnits | client/pages/Products.tsx:117-123 | saving the edit dialog as pre-filled (remaining stock in the stock field) drops the units sold from the sold count and the original stock, keeps the sales, and raises profit by cost times units sold |
| Products.Ledger.SellProduct | client/pages/Products.tsx:151-177 | a sale that fails the guard (no positive quantity, no such product, quantity above stock) changes nothing; otherwise exactly one sale record is appended |
| Products.SellEffect | client/pages/Products.tsx:159-177 | a successful sale lowers only that product's stock by the quantity, never below 0, and appends the record {id, quantity, price of the chosen tier, date} |
| Products.SellPreservesValid | client/pages/Products.tsx:151-177 | selling keeps 0 <= stock <= originalStock and the rest of the ledger invariant |
| Products.Ledger.DeleteProduct | client/pages/Products.tsx:184-188 | deleting removes the product with that id and exactly the sales of it; every other product and sale stays (their order: `DeleteProductExact`, `DeleteKeepsSaleOrder`) |
| Products.DeletePreservesValid | client/pages/Products.tsx:184-188 | deleting keeps the ledger invariant: no sale is left pointing at the deleted product |
| Products.DeleteAbsentProduct | client/pages/Products.tsx:184-188 | deleting an id no product carries changes neither list |
| Products.DeleteProductExact | client/pages/Products.tsx:185 | deleting the product at k leaves the other products in their original order |
| Products.DeleteKeepsSaleOrder | client/pages/Products.tsx:187 | the cascade deletes from each part of the sales list separately, so the sale records that stay keep their original order |
| Products.DeleteRevenue | client/pages/Products.tsx:184-216 | after a delete, revenue is the revenue before minus the revenue of the deleted product's sales |
| Products.InventoryCostBounded | client/pages/Products.tsx:207-224 | 0 <= inventory cost <= total original cost, revenue >= 0, and profit <= revenue minus inventory cost |
| Products.AllProductsSoldIff | client/pages/Products.tsx:227-229 | "all products sold" holds iff some stock was bought and every product's stock is 0 |
| Products.SellRevenue | client/pages/Products.tsx:216-224 | a successful sale raises revenue and profit by quantity times unit price and leaves total original cost unchanged |
| Products.SellStockFigures | client/pages/Products.tsx:211-228 | a successful sale raises units sold by the quantity, keeps total original stock, and lowers inventory cost by quantity times cost price |
| Products.ProductsPage.constructor | client/pages/Products.tsx:25-26 | the page starts with no products and no sales, and the invariant holds |
| Products.ProductsPage.AddProduct | client/pages/Products.tsx:96-109 | the new state is the ledger's AddProduct of the old one, and the invariant is kept |
| Products.ProductsPage.UpdateProduct | client/pages/Products.tsx:129-146 | the new state is the ledger's UpdateProduct of the old one, and the invariant is kept |
| Products.ProductsPage.SellProduct | client/pages/Products.tsx:151-177 | the new state is the ledger's SellProduct of the old one, and the invariant is kept |
| Products.ProductsPage.DeleteProduct | client/pages/Products.tsx:184-188 | the new state is the ledger's DeleteProduct of the old one, and the invariant is kept |
| Customers.EmbeddedAddressMatches | client/pages/Customers.tsx:27 | any text containing non-space run, '@', non-space run, '.', non-space run matches the unanchored pattern |
| Customers.MatchSplits | client/pages/Customers.tsx:27 | every match splits the email into text, a non-space user part, '@', a non-space domain, '.', a non-space suffix, and text |
| Customers.MatchIsNotBlank | client/pages/Customers.tsx:26-27 | a matching email is never blank, so the else-if pattern test is only ever reached by non-blank emails |
| Customers.EmailAccepted | client/pages/Customers.tsx:27 | "a@b.c" and an address inside other text both match |
| Customers.EmailRejected | client/pages/Customers.tsx:27 | an address without a '.' after the '@', or with a space right before the '@', does not match |
| Customers.ValidateForm | client/pages/Customers.tsx:23-31 | name and phone errors fire iff blank; the email error is "required" when blank, else "valid ... required" when the pattern fails; valid iff no error iff the form is accepted |
| Customers.ErrorMap | client/pages/Customers.tsx:24-31 | the `newErrors` object has a key exactly for each field with a message, mapped to that message's source text, and no other key; it has no keys exactly when no field has a message |
| Customers.NextCustomerId | client/pages/Customers.tsx:37 | the id of a new customer is positive and above every id in use |
| Customers.Added | client/pages/Customers.tsx:34-42 | an invalid form changes nothing; otherwise one customer with a fresh id and the form's fields is appended and the others stay |
| Customers.AddKeepsIdsDistinct | client/pages/Customers.tsx:34-42 | adding keeps customer ids distinct |
| Customers.UpdateCustomerEffect | client/pages/Customers.tsx:60-73 | editing rewrites name, email and phone only for the customer with that id, keeps every id, leaves others unchanged; an invalid form or an absent id changes nothing |
| Customers.UpdateKeepsIdsDistinct | client/pages/Customers.tsx:60-73 | editing keeps customer ids distinct |
| Customers.Without | client/pages/Customers.tsx:78-80 | deleting removes exactly the customers with that id and keeps every other |
| Customers.DeleteCustomerEffect | client/pages/Customers.tsx:78-80 | deleting the customer at k leaves the others in order, an absent id changes nothing, and ids stay distinct |
| Customers.CustomersPage.constructor | client/pages/Customers.tsx:12 | the page starts with no customers |
| Customers.CustomersPage.AddCustomer | client/pages/Customers.tsx:34-45 | the new list is `Added` of the old one, with ids still distinct |
| Customers.CustomersPage.UpdateCustomer | client/pages/Customers.tsx:60-76 | the new list is `Updated` of the old one, with ids still distinct |
| Customers.CustomersPage.DeleteCustomer | client/pages/Customers.tsx:78-80 | the new list is `Without` of the old one, with ids still distinct |
| Sales.Deleted | client/pages/Sales.tsx:36-38 | deleting removes exactly the orders with that id and keeps every other |
| Sales.DeleteKeepsOrder | client/pages/Sales.tsx:37 | deleting from a concatenation deletes from each part, so the remaining orders keep their order |
| Sales.DeleteSingle | client/pages/Sales.tsx:37 | when one order carries the id, deleting removes exactly that entry |
| Sales.DeleteAbsent | client/pages/Sales.tsx:36-38 | deleting an id no order carries changes nothing |
| Sales.DeleteIdempotent | client/pages/Sales.tsx:36-38 | deleting the same id twice gives the list deleting it once gives |
| Sales.TotalRevenueAdds | client/pages/Sales.tsx:49 | the revenue of no orders is 0, and the revenue of two lists together is the sum of their revenues |
| Sales.DeleteRevenue | client/pages/Sales.tsx:36-49 | revenue after a delete is revenue before minus the totals of the deleted orders |
| Sales.SalesPage.constructor | client/pages/Sales.tsx:17-29 | the page starts from the orders read from storage |
| Sales.SalesPage.DeleteOrder | client/pages/Sales.tsx:36-38 | the new order list is `Deleted` of the old one |
| Crm.DeleteOrderKeepsStock | client/pages/Sales.tsx:36-38 | deleting an order touches no product: the products page, stock included, is exactly as before |

## Left out

- Browser storage: `localStorage` loading and saving and `JSON.parse`/`JSON.stringify` are foreign calls (Products.tsx:42-69, Sales.tsx:19-34). The `SalesPage` constructor takes the loaded orders as a parameter. The `ProductsPage` constructor starts empty, and a later load may replace its lists. An absent or unparsable blob leaves a list empty.
- The shared storage key: `"crm_sales"` is used by Products.tsx:22 for sale records and by Sales.tsx:14 for orders, which are records of a different shape. This is a persistence hazard. The model keeps the two lists separate.
- Clocks and locales: the sale date (`new Date().toISOString()`) is an opaque string parameter. `formatDate` and `toLocaleString` are not modelled.
- Number parsing: form fields arrive already parsed as `Option<int>`, where `None` is an empty field. A number input can still hold text such as ".5", which `parseInt` reads as NaN. In the program, a stock of ".5" passes the stock rule because `NaN < 0` is false (Products.tsx:90). A sell quantity of ".5" passes both sell guards (Products.tsx:152, :157). The result is a product with NaN stock, or a sale of NaN units. `Option<int>` has no NaN value, so the model does not capture this.
- Products.AddPreservesValid: proves `0 <= stock <= originalStock` only for stock entries that `parseInt` reads as a number. A ".5" entry gives NaN stock in the program.
- Products.SellPreservesValid: proves the stock bounds only for sell quantities that `parseInt` reads as a number. A ".5" quantity records a NaN sale and sets the stock to NaN in the program.
- Sales.Order: `total` is an `int`. The orders come from storage and their totals are shown in "$" (Sales.tsx:61, :120), so a fractional total such as 19.99 is not modelled. TotalRevenue and DeleteRevenue are proved for whole-number totals only.
- Fractional and floating-point amounts: prices and quantities are whole numbers, so `parseFloat` results with a fraction and floating-point rounding are outside the model.
- Rendering and UI-only state: JSX, modals, `showForm`, `resetForm`, `closeForm`, stock colours and the disabled sell button are not modelled. The editing id, sell quantity and price tier are plain parameters.
- `handleEditProduct` and `handleEditCustomer` only copy a record into the form. `UnchangedEditForgetsSoldUnits` states what saving such a pre-filled form does.
- The `Record<string, string>` error map of both validators is a record with one optional message per field. The key set of the map is the set of fields whose entry is present.
- Navigation, dashboard, app shell and footer components carry no business logic.
- The code keeps no expense ledger. It computes profit as revenue minus the cost of all stock ever bought (Products.tsx:224; the label under the figure at Products.tsx:289 reads "Revenue minus total investment"), and never computes a cost of the items sold. `Products.Profit` is that formula.
