/** The inventory and sales ledger of the products page: a list of products,
    a list of sale records, the form validation that gates adding and editing,
    the sell and delete commands, and the budget figures derived from both
    lists. */
module Products {
  import opened JsRuntime

  /** A product; prices are whole сўм. `originalStock` is the stock at the
      last add or edit, `stock` what is left of it. */
  datatype Product = Product(
    id: int,
    name: string,
    costPrice: int,
    sellingPrice: int,
    discountedPrice: int,
    stock: int,
    originalStock: int)

  /** One sale: which product, how many units, at which unit price, when. */
  datatype SaleRecord = SaleRecord(productId: int, quantity: int, price: int, date: string)

  /** The product form once its number fields have been parsed. */
  datatype ProductForm = ProductForm(
    name: string,
    costPrice: Option<int>,
    sellingPrice: Option<int>,
    discountedPrice: Option<int>,
    stock: Option<int>)

  /** The two price choices of the sell dialog ("normal" and "discounted"). */
  datatype PriceTier = Normal | Discounted

  /** The messages the form shows under a field. */
  datatype Message =
    | NameRequired
    | CostPriceRequired
    | SellingPriceRequired
    | DiscountedPriceRequired
    | SellingPriceNotAboveCost
    | DiscountedPriceNotAboveCost
    | StockRequired

  function MessageText(m: Message): string
  {
    match m
    case NameRequired => "Product name is required"
    case CostPriceRequired => "Valid cost price is required"
    case SellingPriceRequired => "Valid selling price is required"
    case DiscountedPriceRequired => "Valid discounted price is required"
    case SellingPriceNotAboveCost => "Selling price must be higher than cost price"
    case DiscountedPriceNotAboveCost => "Discounted price must be higher than cost price"
    case StockRequired => "Valid stock is required"
  }

  // ---------------------------------------------------------------------------
  // Validation: one rule per field, each checked on its own
  // ---------------------------------------------------------------------------

  predicate NameMissing(f: ProductForm)
  {
    IsBlank(f.name)
  }

  predicate CostPriceInvalid(f: ProductForm)
  {
    MissingOrNonPositive(f.costPrice)
  }

  /** Holds only when both prices are present: a missing side compares as NaN. */
  predicate SellingPriceAtMostCost(f: ProductForm)
  {
    AtMost(f.sellingPrice, f.costPrice)
  }

  predicate SellingPriceInvalid(f: ProductForm)
  {
    MissingOrNonPositive(f.sellingPrice) || SellingPriceAtMostCost(f)
  }

  predicate DiscountedPriceAtMostCost(f: ProductForm)
  {
    AtMost(f.discountedPrice, f.costPrice)
  }

  /** Nothing relates the discounted price to the selling price. */
  predicate DiscountedPriceInvalid(f: ProductForm)
  {
    MissingOrNonPositive(f.discountedPrice) || DiscountedPriceAtMostCost(f)
  }

  /** Only an empty or negative stock is rejected: 0 is a valid stock. */
  predicate StockInvalid(f: ProductForm)
  {
    f.stock.None? || f.stock.value < 0
  }

  /** A form that passes every rule. */
  predicate FormAccepted(f: ProductForm)
  {
    !NameMissing(f) && !CostPriceInvalid(f) && !SellingPriceInvalid(f)
    && !DiscountedPriceInvalid(f) && !StockInvalid(f)
  }

  /** The error map of the form: the message shown under each field, if any. */
  datatype Errors = Errors(
    name: Option<Message>,
    costPrice: Option<Message>,
    sellingPrice: Option<Message>,
    discountedPrice: Option<Message>,
    stock: Option<Message>)
  {
    /** `Object.keys(newErrors).length === 0` */
    predicate IsEmpty()
    {
      name.None? && costPrice.None? && sellingPrice.None? && discountedPrice.None? && stock.None?
    }
  }

  /** Adds `key: text` to the map when the field has a message. */
  function WithEntry(m: map<string, string>, key: string, msg: Option<Message>): map<string, string>
  {
    if msg.Some? then m[key := MessageText(msg.value)] else m
  }

  /** The `newErrors` object itself: a key per field that has a message,
      mapped to that message's text. */
  function ErrorMap(e: Errors): (m: map<string, string>)
    ensures ("name" in m <==> e.name.Some?) && (e.name.Some? ==> m["name"] == MessageText(e.name.value))
    ensures ("costPrice" in m <==> e.costPrice.Some?)
      && (e.costPrice.Some? ==> m["costPrice"] == MessageText(e.costPrice.value))
    ensures ("sellingPrice" in m <==> e.sellingPrice.Some?)
      && (e.sellingPrice.Some? ==> m["sellingPrice"] == MessageText(e.sellingPrice.value))
    ensures ("discountedPrice" in m <==> e.discountedPrice.Some?)
      && (e.discountedPrice.Some? ==> m["discountedPrice"] == MessageText(e.discountedPrice.value))
    ensures ("stock" in m <==> e.stock.Some?) && (e.stock.Some? ==> m["stock"] == MessageText(e.stock.value))
    ensures m.Keys <= {"name", "costPrice", "sellingPrice", "discountedPrice", "stock"}
    ensures |m| == 0 <==> e.IsEmpty()
  {
    var m0 := WithEntry(map[], "name", e.name);
    var m1 := WithEntry(m0, "costPrice", e.costPrice);
    var m2 := WithEntry(m1, "sellingPrice", e.sellingPrice);
    var m3 := WithEntry(m2, "discountedPrice", e.discountedPrice);
    var m := WithEntry(m3, "stock", e.stock);
    assert e.name.Some? ==> "name" in m;
    assert m.Keys == {} ==> m == map[];
    m
  }

  // The message each field ends up with, field by field. Where two rules
  // concern one field, the price comparison is checked last and its message wins.

  function NameError(f: ProductForm): Option<Message>
  {
    if NameMissing(f) then Some(NameRequired) else None
  }

  function CostPriceError(f: ProductForm): Option<Message>
  {
    if CostPriceInvalid(f) then Some(CostPriceRequired) else None
  }

  function SellingPriceError(f: ProductForm): Option<Message>
  {
    if SellingPriceAtMostCost(f) then Some(SellingPriceNotAboveCost)
    else if MissingOrNonPositive(f.sellingPrice) then Some(SellingPriceRequired)
    else None
  }

  function DiscountedPriceError(f: ProductForm): Option<Message>
  {
    if DiscountedPriceAtMostCost(f) then Some(DiscountedPriceNotAboveCost)
    else if MissingOrNonPositive(f.discountedPrice) then Some(DiscountedPriceRequired)
    else None
  }

  function StockError(f: ProductForm): Option<Message>
  {
    if StockInvalid(f) then Some(StockRequired) else None
  }

  /** validateForm: fills the error map rule by rule (a later rule on the same
      field overwrites the earlier message); the form is valid exactly when
      the map stays empty. Every field is judged on its own rules. */
  method ValidateForm(form: ProductForm) returns (errors: Errors, valid: bool)
    ensures errors == Errors(NameError(form), CostPriceError(form), SellingPriceError(form),
                             DiscountedPriceError(form), StockError(form))
    ensures valid <==> errors.IsEmpty()
    ensures valid <==> FormAccepted(form)
  {
    errors := Errors(None, None, None, None, None);
    var nameBlank := IsBlankAfterTrim(form.name);
    if nameBlank {
      errors := errors.(name := Some(NameRequired));
    }
    if form.costPrice.None? || form.costPrice.value <= 0 {
      errors := errors.(costPrice := Some(CostPriceRequired));
    }
    if form.sellingPrice.None? || form.sellingPrice.value <= 0 {
      errors := errors.(sellingPrice := Some(SellingPriceRequired));
    }
    if form.discountedPrice.None? || form.discountedPrice.value <= 0 {
      errors := errors.(discountedPrice := Some(DiscountedPriceRequired));
    }
    if AtMost(form.sellingPrice, form.costPrice) {
      errors := errors.(sellingPrice := Some(SellingPriceNotAboveCost));
    }
    if AtMost(form.discountedPrice, form.costPrice) {
      errors := errors.(discountedPrice := Some(DiscountedPriceNotAboveCost));
    }
    if form.stock.None? || form.stock.value < 0 {
      errors := errors.(stock := Some(StockRequired));
    }
    valid := errors.IsEmpty();
  }

  /** What an accepted form guarantees about the numbers it carries, and the
      converse: those guarantees are all the rules ask for. */
  lemma FormAcceptedIff(f: ProductForm)
    ensures FormAccepted(f) <==>
      && !IsBlank(f.name)
      && f.costPrice.Some? && f.sellingPrice.Some? && f.discountedPrice.Some? && f.stock.Some?
      && 0 < f.costPrice.value < f.sellingPrice.value
      && f.costPrice.value < f.discountedPrice.value
      && 0 <= f.stock.value
  {
  }

  /** A stock of 0 passes, and a discounted price above the selling price
      passes: no rule compares those two prices. */
  lemma AcceptedExamples()
    ensures FormAccepted(ProductForm("Widget", Some(100), Some(150), Some(200), Some(0)))
  {
    assert !IsWhiteSpace("Widget"[0]);
  }

  /** With the cost price missing, the comparisons with it never fire, so a
      positive selling or discounted price carries no error of its own. */
  lemma MissingCostSkipsComparison(f: ProductForm)
    requires f.costPrice.None?
    ensures SellingPriceError(f) == if MissingOrNonPositive(f.sellingPrice) then Some(SellingPriceRequired) else None
    ensures DiscountedPriceError(f) == if MissingOrNonPositive(f.discountedPrice) then Some(DiscountedPriceRequired) else None
    ensures CostPriceError(f) == Some(CostPriceRequired)
  {
  }

  // ---------------------------------------------------------------------------
  // Products and their lookup
  // ---------------------------------------------------------------------------

  function ProductId(p: Product): int
  {
    p.id
  }

  /** The invariant every stored product keeps. */
  predicate WellFormed(p: Product)
  {
    && p.id > 0
    && !IsBlank(p.name)
    && 0 < p.costPrice < p.sellingPrice
    && p.costPrice < p.discountedPrice
    && 0 <= p.stock <= p.originalStock
  }

  predicate HasProduct(ps: seq<Product>, id: int)
  {
    exists i | 0 <= i < |ps| :: ps[i].id == id
  }

  /** `products.map((p) => p.id)` */
  function ProductIds(ps: seq<Product>): seq<int>
  {
    seq(|ps|, i requires 0 <= i < |ps| => ps[i].id)
  }

  /** `Math.max(...products.map((p) => p.id), 0) + 1`: above every id in use. */
  function NextProductId(ps: seq<Product>): (id: int)
    ensures id > 0
    ensures forall i | 0 <= i < |ps| :: ps[i].id < id
  {
    var ids := ProductIds(ps);
    assert forall i | 0 <= i < |ps| :: ps[i].id == ids[i];
    MaxOrZero(ids) + 1
  }

  /** `products.find((p) => p.id === id)` */
  function FindProduct(ps: seq<Product>, id: int): (r: Option<Product>)
    ensures r.Some? <==> HasProduct(ps, id)
    ensures r.Some? ==> r.value.id == id && r.value in ps
  {
    if ps == [] then None
    else if ps[0].id == id then Some(ps[0])
    else
      var r := FindProduct(ps[1..], id);
      assert HasProduct(ps[1..], id) ==> HasProduct(ps, id) by {
        if HasProduct(ps[1..], id) {
          var i :| 0 <= i < |ps| - 1 && ps[1..][i].id == id;
          assert ps[i + 1].id == id;
        }
      }
      assert HasProduct(ps, id) ==> HasProduct(ps[1..], id) by {
        if HasProduct(ps, id) {
          var i :| 0 <= i < |ps| && ps[i].id == id;
          assert i > 0 && ps[1..][i - 1].id == id;
        }
      }
      r
  }

  /** With distinct ids, the product `find` returns is the one at the index carrying that id. */
  lemma FoundProductAt(ps: seq<Product>, id: int, k: nat)
    requires DistinctBy(ps, ProductId)
    requires k < |ps| && ps[k].id == id
    ensures FindProduct(ps, id) == Some(ps[k])
  {
    var p := FindProduct(ps, id).value;
    var j :| 0 <= j < |ps| && ps[j] == p;
  }

  /** The unit price the chosen tier charges. */
  function UnitPrice(p: Product, tier: PriceTier): int
  {
    match tier
    case Normal => p.sellingPrice
    case Discounted => p.discountedPrice
  }

  /** The product the add command creates. */
  function NewProduct(id: int, form: ProductForm): Product
    requires FormAccepted(form)
  {
    Product(id, form.name, form.costPrice.value, form.sellingPrice.value,
            form.discountedPrice.value, form.stock.value, form.stock.value)
  }

  /** `{ ...p, name, costPrice, sellingPrice, discountedPrice, stock: n, originalStock: n }` */
  function Edited(p: Product, form: ProductForm): Product
    requires FormAccepted(form)
  {
    p.(name := form.name, costPrice := form.costPrice.value,
       sellingPrice := form.sellingPrice.value, discountedPrice := form.discountedPrice.value,
       stock := form.stock.value, originalStock := form.stock.value)
  }

  /** `products.map((p) => p.id === editingId ? { ...edited } : p)` */
  function Restock(ps: seq<Product>, editingId: int, form: ProductForm): seq<Product>
    requires FormAccepted(form)
  {
    seq(|ps|, i requires 0 <= i < |ps| => if ps[i].id == editingId then Edited(ps[i], form) else ps[i])
  }

  /** `products.map((p) => p.id === id ? { ...p, stock: p.stock - qty } : p)` */
  function DecrementStock(ps: seq<Product>, id: int, qty: int): seq<Product>
  {
    seq(|ps|, i requires 0 <= i < |ps| => if ps[i].id == id then ps[i].(stock := ps[i].stock - qty) else ps[i])
  }

  function OtherProduct(id: int): Product -> bool
  {
    (p: Product) => p.id != id
  }

  function OtherProductSale(id: int): SaleRecord -> bool
  {
    (s: SaleRecord) => s.productId != id
  }

  function SaleOfProduct(id: int): SaleRecord -> bool
  {
    (s: SaleRecord) => s.productId == id
  }

  /** The same ids at the same places. */
  predicate SameIds(ps: seq<Product>, qs: seq<Product>)
  {
    |ps| == |qs| && forall i | 0 <= i < |ps| :: ps[i].id == qs[i].id
  }

  lemma SameIdsKeepIdentity(ps: seq<Product>, qs: seq<Product>)
    requires SameIds(ps, qs)
    ensures DistinctBy(ps, ProductId) ==> DistinctBy(qs, ProductId)
    ensures forall id :: HasProduct(ps, id) ==> HasProduct(qs, id)
  {
    forall id | HasProduct(ps, id) ensures HasProduct(qs, id) {
      var i :| 0 <= i < |ps| && ps[i].id == id;
      assert qs[i].id == id;
    }
    if DistinctBy(ps, ProductId) {
      forall i, j | 0 <= i < j < |qs| ensures ProductId(qs[i]) != ProductId(qs[j]) {
        assert ProductId(ps[i]) != ProductId(ps[j]);
      }
    }
  }

  // ---------------------------------------------------------------------------
  // The ledger: products and sales, and the commands on them
  // ---------------------------------------------------------------------------

  /** The command on a `find` result succeeds: a positive quantity, a product
      with that id, and enough of it in stock. */
  predicate SaleAllowed(ps: seq<Product>, id: int, quantity: Option<int>)
  {
    && quantity.Some? && quantity.value > 0
    && FindProduct(ps, id).Some?
    && quantity.value <= FindProduct(ps, id).value.stock
  }

  datatype Ledger = Ledger(products: seq<Product>, sales: seq<SaleRecord>) {

    /** Distinct product ids, well-formed products, and sales that are
        positive and point at a product that exists. */
    predicate Valid()
    {
      && DistinctBy(products, ProductId)
      && (forall p | p in products :: WellFormed(p))
      && (forall s | s in sales :: s.quantity > 0 && s.price > 0 && HasProduct(products, s.productId))
    }

    /** handleAddProduct */
    function AddProduct(form: ProductForm): (r: Ledger)
      ensures !FormAccepted(form) ==> r == this
      ensures FormAccepted(form) ==>
        && r.sales == sales
        && |r.products| == |products| + 1
        && r.products[..|products|] == products
        && r.products[|products|].id > 0
        && (forall i | 0 <= i < |products| :: products[i].id < r.products[|products|].id)
        && r.products[|products|].name == form.name
        && r.products[|products|].costPrice == form.costPrice.value
        && r.products[|products|].sellingPrice == form.sellingPrice.value
        && r.products[|products|].discountedPrice == form.discountedPrice.value
        && r.products[|products|].stock == r.products[|products|].originalStock == form.stock.value
    {
      if !FormAccepted(form) then this
      else Ledger(products + [NewProduct(NextProductId(products), form)], sales)
    }

    /** handleUpdateProduct, for the product being edited: the sale history
        and every other product stay as they were, and a rejected form changes
        nothing (UpdateProductEffect states the edited fields). */
    function UpdateProduct(editingId: int, form: ProductForm): (r: Ledger)
      ensures r.sales == sales
      ensures SameIds(products, r.products)
      ensures forall i | 0 <= i < |products| && products[i].id != editingId ::
        r.products[i] == products[i]
      ensures !FormAccepted(form) ==> r == this
    {
      if !FormAccepted(form) then this
      else Ledger(Restock(products, editingId, form), sales)
    }

    /** handleSellProduct */
    function SellProduct(id: int, quantity: Option<int>, tier: PriceTier, date: string): (r: Ledger)
      ensures !SaleAllowed(products, id, quantity) ==> r == this
      ensures SaleAllowed(products, id, quantity) ==> |r.sales| == |sales| + 1 && r.sales[..|sales|] == sales
    {
      if quantity.None? || quantity.value <= 0 then this
      else match FindProduct(products, id)
        case None => this
        case Some(p) =>
          if quantity.value > p.stock then this
          else
            Ledger(DecrementStock(products, id, quantity.value),
                   sales + [SaleRecord(id, quantity.value, UnitPrice(p, tier), date)])
    }

    /** handleDeleteProduct: the product and every sale of it go */
    function DeleteProduct(id: int): (r: Ledger)
      ensures forall p | p in r.products :: p.id != id
      ensures forall s | s in r.sales :: s.productId != id
      ensures forall p | p in products && p.id != id :: p in r.products
      ensures forall s | s in sales && s.productId != id :: s in r.sales
      ensures forall p | p in r.products :: p in products
      ensures forall s | s in r.sales :: s in sales
    {
      Ledger(Filter(products, OtherProduct(id)), Filter(sales, OtherProductSale(id)))
    }
  }

  lemma AddPreservesValid(l: Ledger, form: ProductForm)
    requires l.Valid()
    ensures l.AddProduct(form).Valid()
  {
    if FormAccepted(form) {
      var r := l.AddProduct(form);
      var p := r.products[|l.products|];
      assert r.products == l.products + [p];
      forall s | s in r.sales ensures HasProduct(r.products, s.productId) {
        var i :| 0 <= i < |l.products| && l.products[i].id == s.productId;
        assert r.products[i].id == s.productId;
      }
      forall q | q in r.products ensures WellFormed(q) {
        if q != p { assert q in l.products; }
      }
    }
  }

  /** Editing replaces the name and prices and re-stocks (stock and
      originalStock both become the new stock) the products with the edited
      id only; an invalid form or an absent id changes nothing. */
  lemma UpdateProductEffect(l: Ledger, editingId: int, form: ProductForm)
    ensures l.UpdateProduct(editingId, form).sales == l.sales
    ensures SameIds(l.products, l.UpdateProduct(editingId, form).products)
    ensures forall i | 0 <= i < |l.products| && l.products[i].id != editingId ::
      l.UpdateProduct(editingId, form).products[i] == l.products[i]
    ensures FormAccepted(form) ==> forall i | 0 <= i < |l.products| && l.products[i].id == editingId ::
      var q := l.UpdateProduct(editingId, form).products[i];
      && q.name == form.name
      && q.costPrice == form.costPrice.value
      && q.sellingPrice == form.sellingPrice.value
      && q.discountedPrice == form.discountedPrice.value
      && q.stock == q.originalStock == form.stock.value
    ensures !FormAccepted(form) || !HasProduct(l.products, editingId) ==>
      l.UpdateProduct(editingId, form) == l
  {
    var r := l.UpdateProduct(editingId, form);
    if FormAccepted(form) && !HasProduct(l.products, editingId) {
      assert r.products == l.products;
    }
  }

  lemma UpdatePreservesValid(l: Ledger, editingId: int, form: ProductForm)
    requires l.Valid()
    ensures l.UpdateProduct(editingId, form).Valid()
  {
    var r := l.UpdateProduct(editingId, form);
    UpdateProductEffect(l, editingId, form);
    SameIdsKeepIdentity(l.products, r.products);
    forall q | q in r.products ensures WellFormed(q) {
      var i :| 0 <= i < |r.products| && r.products[i] == q;
      assert l.products[i] in l.products;
    }
  }

  /** A sale changes exactly one product, the one with that id, whose stock
      drops by the quantity, and appends exactly one record priced at the
      chosen tier. */
  lemma SellEffect(l: Ledger, k: nat, id: int, quantity: Option<int>, tier: PriceTier, date: string)
    requires l.Valid()
    requires k < |l.products| && l.products[k].id == id
    requires SaleAllowed(l.products, id, quantity)
    ensures l.SellProduct(id, quantity, tier, date).products ==
      l.products[k := l.products[k].(stock := l.products[k].stock - quantity.value)]
    ensures l.SellProduct(id, quantity, tier, date).sales ==
      l.sales + [SaleRecord(id, quantity.value, UnitPrice(l.products[k], tier), date)]
    ensures 0 <= l.products[k].stock - quantity.value
  {
    FoundProductAt(l.products, id, k);
    var r := l.SellProduct(id, quantity, tier, date);
    forall i | 0 <= i < |l.products| && i != k ensures l.products[i].id != id {
      if i < k { assert ProductId(l.products[i]) != ProductId(l.products[k]); }
      else { assert ProductId(l.products[k]) != ProductId(l.products[i]); }
    }
    assert r.products == l.products[k := l.products[k].(stock := l.products[k].stock - quantity.value)];
  }

  lemma SellPreservesValid(l: Ledger, id: int, quantity: Option<int>, tier: PriceTier, date: string)
    requires l.Valid()
    ensures l.SellProduct(id, quantity, tier, date).Valid()
  {
    if SaleAllowed(l.products, id, quantity) {
      var r := l.SellProduct(id, quantity, tier, date);
      var p := FindProduct(l.products, id).value;
      var k :| 0 <= k < |l.products| && l.products[k] == p;
      SellEffect(l, k, id, quantity, tier, date);
      assert SameIds(l.products, r.products);
      SameIdsKeepIdentity(l.products, r.products);
      assert WellFormed(p);
      forall q | q in r.products ensures WellFormed(q) {
        var i :| 0 <= i < |r.products| && r.products[i] == q;
        assert l.products[i] in l.products;
      }
      forall s | s in r.sales ensures s.quantity > 0 && s.price > 0 && HasProduct(r.products, s.productId) {
        if s !in l.sales {
          assert r.products[k].id == id;
        }
      }
    }
  }

  lemma DeletePreservesValid(l: Ledger, id: int)
    requires l.Valid()
    ensures l.DeleteProduct(id).Valid()
  {
    var r := l.DeleteProduct(id);
    FilterDistinct(l.products, OtherProduct(id), ProductId);
    forall s | s in r.sales ensures HasProduct(r.products, s.productId) {
      var i :| 0 <= i < |l.products| && l.products[i].id == s.productId;
      assert l.products[i] in r.products;
      var j :| 0 <= j < |r.products| && r.products[j] == l.products[i];
    }
  }

  /** With every sale pointing at a product, deleting an id that no product
      carries leaves both lists exactly as they were. */
  lemma DeleteAbsentProduct(l: Ledger, id: int)
    requires l.Valid()
    requires !HasProduct(l.products, id)
    ensures l.DeleteProduct(id) == l
  {
    forall p | p in l.products ensures OtherProduct(id)(p) {
      var i :| 0 <= i < |l.products| && l.products[i] == p;
    }
    FilterKeepsAll(l.products, OtherProduct(id));
    forall s | s in l.sales ensures OtherProductSale(id)(s) {
    }
    FilterKeepsAll(l.sales, OtherProductSale(id));
  }

  /** Deleting the product at `k` removes exactly that entry from the product
      list and keeps the others in their order. */
  lemma DeleteProductExact(l: Ledger, id: int, k: nat)
    requires l.Valid()
    requires k < |l.products| && l.products[k].id == id
    ensures l.DeleteProduct(id).products == l.products[..k] + l.products[k + 1..]
  {
    forall i | 0 <= i < |l.products| && i != k ensures OtherProduct(id)(l.products[i]) {
      if i < k { assert ProductId(l.products[i]) != ProductId(l.products[k]); }
      else { assert ProductId(l.products[k]) != ProductId(l.products[i]); }
    }
    FilterDropsOne(l.products, OtherProduct(id), k);
  }

  // ---------------------------------------------------------------------------
  // The budget figures
  // ---------------------------------------------------------------------------

  /** calculateBudget */
  function CalculateBudget(costPrice: int, stock: int): int
  {
    costPrice * stock
  }

  function RemainingCost(p: Product): int
  {
    CalculateBudget(p.costPrice, p.stock)
  }

  function OriginalCost(p: Product): int
  {
    p.costPrice * p.originalStock
  }

  function SaleAmount(s: SaleRecord): int
  {
    s.quantity * s.price
  }

  function StockOf(p: Product): int
  {
    p.stock
  }

  function OriginalStockOf(p: Product): int
  {
    p.originalStock
  }

  function UnitsSold(p: Product): int
  {
    p.originalStock - p.stock
  }

  /** inventoryCost: the cost of the units still in stock */
  function InventoryCost(ps: seq<Product>): int
  {
    SumBy(ps, RemainingCost)
  }

  /** totalRevenue: what the recorded sales brought in */
  function TotalRevenue(sales: seq<SaleRecord>): int
  {
    SumBy(sales, SaleAmount)
  }

  /** totalOriginalCost: the cost of every unit bought ("Total Investment") */
  function TotalOriginalCost(ps: seq<Product>): int
  {
    SumBy(ps, OriginalCost)
  }

  /** profit: revenue minus the whole investment, sold or not */
  function Profit(l: Ledger): int
  {
    TotalRevenue(l.sales) - TotalOriginalCost(l.products)
  }

  function TotalProductsSold(ps: seq<Product>): int
  {
    SumBy(ps, UnitsSold)
  }

  function TotalOriginalStock(ps: seq<Product>): int
  {
    SumBy(ps, OriginalStockOf)
  }

  function AllProductsSold(ps: seq<Product>): bool
  {
    TotalOriginalStock(ps) > 0 && TotalOriginalStock(ps) == TotalProductsSold(ps)
  }

  /** The cost of what is left never exceeds the cost of what was bought. */
  lemma InventoryCostBounded(l: Ledger)
    requires l.Valid()
    ensures 0 <= InventoryCost(l.products) <= TotalOriginalCost(l.products)
    ensures 0 <= TotalRevenue(l.sales)
    ensures Profit(l) <= TotalRevenue(l.sales) - InventoryCost(l.products)
  {
    forall p | p in l.products ensures 0 <= RemainingCost(p) <= OriginalCost(p) {
      assert WellFormed(p);
      assert OriginalCost(p) - RemainingCost(p) == p.costPrice * (p.originalStock - p.stock);
    }
    SumByZero(l.products, RemainingCost);
    SumByMonotonic(l.products, RemainingCost, OriginalCost);
    forall s | s in l.sales ensures SaleAmount(s) >= 0 {
    }
    SumByZero(l.sales, SaleAmount);
  }

  /** "All sold" holds exactly when some stock was bought and none is left. */
  lemma AllProductsSoldIff(l: Ledger)
    requires l.Valid()
    ensures AllProductsSold(l.products) <==>
      TotalOriginalStock(l.products) > 0 && forall p | p in l.products :: p.stock == 0
  {
    SumByDifference(l.products, OriginalStockOf, StockOf, UnitsSold);
    forall p | p in l.products ensures StockOf(p) >= 0 {
      assert WellFormed(p);
    }
    SumByZero(l.products, StockOf);
  }

  /** A successful sale adds quantity times unit price to the revenue and to
      the profit, and leaves the investment alone. */
  lemma SellRevenue(l: Ledger, k: nat, id: int, quantity: Option<int>, tier: PriceTier, date: string)
    requires l.Valid()
    requires k < |l.products| && l.products[k].id == id
    requires SaleAllowed(l.products, id, quantity)
    ensures var r := l.SellProduct(id, quantity, tier, date);
      && TotalRevenue(r.sales) == TotalRevenue(l.sales) + quantity.value * UnitPrice(l.products[k], tier)
      && TotalOriginalCost(r.products) == TotalOriginalCost(l.products)
      && Profit(r) == Profit(l) + quantity.value * UnitPrice(l.products[k], tier)
  {
    SellEffect(l, k, id, quantity, tier, date);
    var p := l.products[k];
    var sale := SaleRecord(id, quantity.value, UnitPrice(p, tier), date);
    SumByAppend(l.sales, [sale], SaleAmount);
    assert SumBy([sale], SaleAmount) == SaleAmount(sale) by { assert [sale][..0] == []; }
    SumByUpdate(l.products, k, p.(stock := p.stock - quantity.value), OriginalCost);
  }

  /** A successful sale moves the quantity from "in stock" to "sold": the
      units sold grow by it, the inventory cost shrinks by its cost, and the
      stock bought is unchanged. */
  lemma SellStockFigures(l: Ledger, k: nat, id: int, quantity: Option<int>, tier: PriceTier, date: string)
    requires l.Valid()
    requires k < |l.products| && l.products[k].id == id
    requires SaleAllowed(l.products, id, quantity)
    ensures var r := l.SellProduct(id, quantity, tier, date);
      && TotalProductsSold(r.products) == TotalProductsSold(l.products) + quantity.value
      && TotalOriginalStock(r.products) == TotalOriginalStock(l.products)
      && InventoryCost(r.products) == InventoryCost(l.products) - quantity.value * l.products[k].costPrice
  {
    SellEffect(l, k, id, quantity, tier, date);
    var p := l.products[k];
    var q := quantity.value;
    var p' := p.(stock := p.stock - q);
    SumByUpdate(l.products, k, p', UnitsSold);
    SumByUpdate(l.products, k, p', OriginalStockOf);
    SumByUpdate(l.products, k, p', RemainingCost);
    assert RemainingCost(p') == RemainingCost(p) - q * p.costPrice by {
      assert p.costPrice * (p.stock - q) == p.costPrice * p.stock - q * p.costPrice;
    }
  }

  /** With distinct ids, an accepted edit of the product at `k` replaces that
      one entry. */
  lemma UpdateAt(l: Ledger, k: nat, form: ProductForm)
    requires l.Valid() && FormAccepted(form)
    requires k < |l.products|
    ensures l.UpdateProduct(l.products[k].id, form).products == l.products[k := Edited(l.products[k], form)]
  {
    var id := l.products[k].id;
    forall i | 0 <= i < |l.products| && i != k ensures l.products[i].id != id {
      if i < k { assert ProductId(l.products[i]) != ProductId(l.products[k]); }
      else { assert ProductId(l.products[k]) != ProductId(l.products[i]); }
    }
  }

  /** The edit dialog is filled with the product's current values, its
      remaining stock among them; saving it unchanged makes that remaining
      stock the new original stock. The units already sold drop out of the
      sold count and their cost out of the investment, while their sale
      records stay, so the profit rises by the cost of the units sold. */
  lemma UnchangedEditForgetsSoldUnits(l: Ledger, k: nat)
    requires l.Valid()
    requires k < |l.products|
    ensures var p := l.products[k];
      var form := ProductForm(p.name, Some(p.costPrice), Some(p.sellingPrice), Some(p.discountedPrice), Some(p.stock));
      var r := l.UpdateProduct(p.id, form);
      && r.sales == l.sales
      && TotalProductsSold(r.products) == TotalProductsSold(l.products) - UnitsSold(p)
      && TotalOriginalStock(r.products) == TotalOriginalStock(l.products) - UnitsSold(p)
      && Profit(r) == Profit(l) + p.costPrice * UnitsSold(p)
  {
    var p := l.products[k];
    var form := ProductForm(p.name, Some(p.costPrice), Some(p.sellingPrice), Some(p.discountedPrice), Some(p.stock));
    assert WellFormed(p);
    UpdateAt(l, k, form);
    var q := Edited(p, form);
    SumByUpdate(l.products, k, q, UnitsSold);
    SumByUpdate(l.products, k, q, OriginalStockOf);
    SumByUpdate(l.products, k, q, OriginalCost);
    assert OriginalCost(q) == OriginalCost(p) - p.costPrice * UnitsSold(p) by {
      assert p.costPrice * p.originalStock - p.costPrice * (p.originalStock - p.stock) == p.costPrice * p.stock;
    }
  }

  /** The cascade keeps the remaining sale records in their order: it deletes
      from each part of the sales list separately. */
  lemma DeleteKeepsSaleOrder(ps: seq<Product>, a: seq<SaleRecord>, b: seq<SaleRecord>, id: int)
    ensures Ledger(ps, a + b).DeleteProduct(id).sales ==
      Ledger(ps, a).DeleteProduct(id).sales + Ledger(ps, b).DeleteProduct(id).sales
  {
    FilterAppend(a, b, OtherProductSale(id));
  }

  /** Deleting a product takes exactly the revenue of its sales out of the total. */
  lemma DeleteRevenue(l: Ledger, id: int)
    ensures TotalRevenue(l.DeleteProduct(id).sales) ==
      TotalRevenue(l.sales) - TotalRevenue(Filter(l.sales, SaleOfProduct(id)))
  {
    SumBySplit(l.sales, SaleAmount, OtherProductSale(id), SaleOfProduct(id));
  }

  // ---------------------------------------------------------------------------
  // The page state
  // ---------------------------------------------------------------------------

  /** The `products` and `sales` state of the page; every handler replaces
      them as the ledger functions above say. */
  class ProductsPage {
    var products: seq<Product>
    var sales: seq<SaleRecord>

    function State(): Ledger
      reads this
    {
      Ledger(products, sales)
    }

    predicate Valid()
      reads this
    {
      State().Valid()
    }

    constructor ()
      ensures Valid()
      ensures products == [] && sales == []
    {
      products := [];
      sales := [];
    }

    method AddProduct(form: ProductForm)
      requires Valid()
      modifies this
      ensures Valid()
      ensures State() == old(State()).AddProduct(form)
    {
      var errors, valid := ValidateForm(form);
      if !valid {
        return;
      }
      var stockQty := form.stock.value;
      var newProduct := Product(NextProductId(products), form.name, form.costPrice.value,
        form.sellingPrice.value, form.discountedPrice.value, stockQty, stockQty);
      products := products + [newProduct];
      AddPreservesValid(old(State()), form);
    }

    method UpdateProduct(editingId: int, form: ProductForm)
      requires Valid()
      modifies this
      ensures Valid()
      ensures State() == old(State()).UpdateProduct(editingId, form)
    {
      var errors, valid := ValidateForm(form);
      if !valid {
        return;
      }
      products := Restock(products, editingId, form);
      UpdatePreservesValid(old(State()), editingId, form);
    }

    method SellProduct(id: int, quantity: Option<int>, tier: PriceTier, date: string)
      requires Valid()
      modifies this
      ensures Valid()
      ensures State() == old(State()).SellProduct(id, quantity, tier, date)
    {
      if quantity.None? || quantity.value <= 0 {
        return;
      }
      var product := FindProduct(products, id);
      if product.None? {
        return;
      }
      var qty := quantity.value;
      if qty > product.value.stock {
        return;
      }
      var price := if tier == Normal then product.value.sellingPrice else product.value.discountedPrice;
      sales := sales + [SaleRecord(id, qty, price, date)];
      products := DecrementStock(products, id, qty);
      SellPreservesValid(old(State()), id, quantity, tier, date);
    }

    method DeleteProduct(id: int)
      requires Valid()
      modifies this
      ensures Valid()
      ensures State() == old(State()).DeleteProduct(id)
    {
      products := Filter(products, OtherProduct(id));
      sales := Filter(sales, OtherProductSale(id));
      DeletePreservesValid(old(State()), id);
    }
  }
}
