/**
 * Orders: checkout turns the caller's cart into an order, then the order
 * listing (paginated, newest first) and the owner-scoped order lookup.
 */
module Orders {
  import opened Outcomes
  import opened Tables
  import opened Models
  import opened Schemas

  /** Why a checkout is refused. All but the last two are 400 responses. */
  datatype CheckoutError =
    | EmptyCart                             // "Cart is empty"
    | ProductUnavailable(productId: int)    // "Product {id} is unavailable"
    | NotEnoughStock(productName: string)   // "Not enough stock for {name}"
    | NoPriceSet(productName: string)       // "Product {name} has no price set"
    | ProductMissing                        // the line's product row is gone; the handler dereferences None (500)
    | LoadFailed                            // "Failed to load created order" (500)

  // ---------------------------------------------------------------------
  // The cart snapshot
  // ---------------------------------------------------------------------

  /** The ids of the caller's cart lines, in ascending id order. */
  function UserCartIds(cart: map<int, CartItem>, next: int, user: int): (ids: seq<int>)
    ensures Increasing(ids)
    ensures forall id :: id in ids <==> 0 <= id < next && id in cart && cart[id].userId == user
  {
    KeysWhere(cart, next, (c: CartItem) => c.userId == user)
  }

  /**
   * SELECT * FROM cart_items WHERE user_id = user: the caller's cart lines,
   * in ascending cart-item id order.
   */
  function UserCart(cart: map<int, CartItem>, next: int, user: int): (lines: seq<CartItem>)
    ensures |lines| == |UserCartIds(cart, next, user)|
    ensures forall i :: 0 <= i < |lines| ==> lines[i] == cart[UserCartIds(cart, next, user)[i]] && lines[i].userId == user
  {
    RowsAt(cart, UserCartIds(cart, next, user))
  }

  /** DELETE FROM cart_items WHERE user_id = user. */
  function DeleteCartOf(cart: map<int, CartItem>, user: int): (r: map<int, CartItem>)
    ensures forall id :: id in r ==> r[id].userId != user
    ensures forall id :: id in cart && cart[id].userId != user ==> id in r && r[id] == cart[id]
    ensures forall id :: id in r ==> id in cart
  {
    map id | id in cart && cart[id].userId != user :: cart[id]
  }

  // ---------------------------------------------------------------------
  // The order builder: the checkout loop as a left fold over the lines
  // ---------------------------------------------------------------------

  /** A line can be ordered at all: its product exists, is active and has a price. */
  predicate Orderable(line: CartItem, products: map<int, Product>) {
    line.productId in products && products[line.productId].isActive && products[line.productId].price.Some?
  }

  /**
   * The checks made on one line against the live stock, in the handler's
   * order: missing or inactive product, then quantity above stock, then
   * missing price. None means the line passes.
   */
  function LineCheck(line: CartItem, products: map<int, Product>): (r: Option<CheckoutError>)
    ensures r.None? <==> Orderable(line, products) && line.quantity <= products[line.productId].stock
  {
    if line.productId !in products then Some(ProductMissing)
    else
      var p := products[line.productId];
      if !p.isActive then Some(ProductUnavailable(line.productId))
      else if line.quantity > p.stock then Some(NotEnoughStock(p.name))
      else if p.price.None? then Some(NoPriceSet(p.name))
      else None
  }

  /** The state of the loop: items so far, running total, the session's product rows. */
  datatype Draft = Draft(items: seq<OrderItem>, total: real, products: map<int, Product>)

  /** One iteration: check the line, freeze its price, add its total, take its stock. */
  function Take(d: Draft, line: CartItem): Result<Draft, CheckoutError>
  {
    match LineCheck(line, d.products)
    case Some(e) => Failure(e)
    case None => Success(Advance(d, line))
  }

  /** An accepted line: its item is appended, its total added, its stock taken. */
  function Advance(d: Draft, line: CartItem): Draft
    requires line.productId in d.products && d.products[line.productId].price.Some?
  {
    var p := d.products[line.productId];
    var item := ItemFor(line, p);
    Draft(d.items + [item], d.total + item.totalPrice, d.products[line.productId := p.(stock := p.stock - line.quantity)])
  }

  /** The checkout loop over `lines`, starting from total 0 and the stored rows. */
  function Build(lines: seq<CartItem>, products: map<int, Product>): Result<Draft, CheckoutError>
    decreases |lines|
  {
    if lines == [] then Success(Draft([], 0.0, products))
    else
      match Build(lines[..|lines| - 1], products)
      case Failure(e) => Failure(e)
      case Success(d) => Take(d, lines[|lines| - 1])
  }

  /** The sum of the line totals, accumulated from exact zero. */
  function SumTotals(items: seq<OrderItem>): real
  {
    if items == [] then 0.0 else SumTotals(items[..|items| - 1]) + items[|items| - 1].totalPrice
  }

  /** The total quantity the lines ask of product `pid`. */
  function Demand(lines: seq<CartItem>, pid: int): int
  {
    if lines == [] then 0
    else Demand(lines[..|lines| - 1], pid) + (if lines[|lines| - 1].productId == pid then lines[|lines| - 1].quantity else 0)
  }

  /** The order item a line becomes when its product row is `p`. */
  function ItemFor(line: CartItem, p: Product): OrderItem
    requires p.price.Some?
  {
    OrderItem(line.productId, line.quantity, p.price.value, line.quantity as real * p.price.value)
  }

  // ---- the builder's properties ----

  /** A successful build is the build of all lines but the last, advanced by the last. */
  lemma BuildSnoc(lines: seq<CartItem>, products: map<int, Product>)
    requires lines != [] && Build(lines, products).Success?
    ensures Build(lines[..|lines| - 1], products).Success?
    ensures LineCheck(lines[|lines| - 1], Build(lines[..|lines| - 1], products).value.products).None?
    ensures Build(lines, products).value == Advance(Build(lines[..|lines| - 1], products).value, lines[|lines| - 1])
  {
  }

  /** The loop body's update, written out field by field, is Advance. */
  lemma LoopStep(d: Draft, line: CartItem, product: Product, totalPrice: real)
    requires line.productId in d.products && d.products[line.productId] == product && product.price.Some?
    requires totalPrice == line.quantity as real * product.price.value
    ensures Advance(d, line) == Draft(d.items + [OrderItem(line.productId, line.quantity, product.price.value, totalPrice)],
                                      d.total + totalPrice,
                                      d.products[line.productId := product.(stock := product.stock - line.quantity)])
  {
    assert ItemFor(line, product).totalPrice == totalPrice;
  }

  /** The build of one more line is the build so far, taking that line. */
  lemma BuildExtend(lines: seq<CartItem>, i: int, products: map<int, Product>)
    requires 0 <= i < |lines| && Build(lines[..i], products).Success?
    ensures Build(lines[..i + 1], products) == Take(Build(lines[..i], products).value, lines[i])
  {
    assert lines[..i + 1][..i] == lines[..i];
  }

  /** On success the session holds a row for exactly the stored product ids. */
  lemma {:induction false} BuildKeepsKeys(lines: seq<CartItem>, products: map<int, Product>)
    requires Build(lines, products).Success?
    ensures forall k :: k in Build(lines, products).value.products <==> k in products
    decreases |lines|
  {
    if lines != [] {
      BuildSnoc(lines, products);
      BuildKeepsKeys(lines[..|lines| - 1], products);
    }
  }

  /** On success there is one order item per line. */
  lemma {:induction false} BuildLength(lines: seq<CartItem>, products: map<int, Product>)
    requires Build(lines, products).Success?
    ensures |Build(lines, products).value.items| == |lines|
    decreases |lines|
  {
    if lines != [] {
      BuildSnoc(lines, products);
      BuildLength(lines[..|lines| - 1], products);
    }
  }

  /** Once a prefix is refused, the whole cart is refused with the same error. */
  lemma {:induction false} RejectionIsFinal(lines: seq<CartItem>, k: nat, products: map<int, Product>)
    requires k <= |lines|
    requires Build(lines[..k], products).Failure?
    ensures Build(lines, products) == Build(lines[..k], products)
    decreases |lines| - k
  {
    if k < |lines| {
      var n := |lines|;
      assert lines[..n - 1][..k] == lines[..k];
      RejectionIsFinal(lines[..n - 1], k, products);
    } else {
      assert lines[..k] == lines;
    }
  }

  /**
   * On success each product row is the stored row with its stock lowered by
   * the total quantity its lines ask for; nothing else about it changes.
   */
  lemma {:induction false} BuildStock(lines: seq<CartItem>, products: map<int, Product>)
    requires Build(lines, products).Success?
    ensures var d := Build(lines, products).value;
      forall k :: k in products ==> k in d.products && d.products[k] == products[k].(stock := products[k].stock - Demand(lines, k))
    decreases |lines|
  {
    if lines != [] {
      BuildSnoc(lines, products);
      BuildStock(lines[..|lines| - 1], products);
    }
  }

  /** On success every stock the checkout touches is left non-negative. */
  lemma {:induction false} BuildStockBounded(lines: seq<CartItem>, products: map<int, Product>)
    requires Build(lines, products).Success?
    ensures var d := Build(lines, products).value;
      forall k :: k in products ==> k in d.products && (d.products[k].stock == products[k].stock || d.products[k].stock >= 0)
    decreases |lines|
  {
    if lines != [] {
      BuildSnoc(lines, products);
      BuildStockBounded(lines[..|lines| - 1], products);
    }
  }

  /** On success every line's product exists, is active and has a price. */
  lemma {:induction false} BuildLinesOrderable(lines: seq<CartItem>, products: map<int, Product>)
    requires Build(lines, products).Success?
    ensures forall i :: 0 <= i < |lines| ==> Orderable(lines[i], products)
    decreases |lines|
  {
    if lines != [] {
      var n := |lines|;
      var pre := lines[..n - 1];
      BuildSnoc(lines, products);
      BuildLinesOrderable(pre, products);
      BuildKeepsKeys(pre, products);
      BuildStock(pre, products);
      assert forall i :: 0 <= i < n - 1 ==> lines[i] == pre[i];
    }
  }

  /**
   * On success there is one order item per line and the order total is the
   * sum of the item totals, accumulated from exact zero.
   */
  lemma {:induction false} BuildTotal(lines: seq<CartItem>, products: map<int, Product>)
    requires Build(lines, products).Success?
    ensures |Build(lines, products).value.items| == |lines|
    ensures Build(lines, products).value.total == SumTotals(Build(lines, products).value.items)
    decreases |lines|
  {
    if lines != [] {
      var n := |lines|;
      var pre := lines[..n - 1];
      BuildSnoc(lines, products);
      BuildTotal(pre, products);
      var d0 := Build(pre, products).value;
      var d := Build(lines, products).value;
      assert d.items[..n - 1] == d0.items;
    }
  }

  /**
   * On success item i is line i with the product's stored price frozen as
   * the unit price and quantity * unit price as the line total.
   */
  lemma {:induction false} BuildItemAt(lines: seq<CartItem>, products: map<int, Product>, i: int)
    requires Build(lines, products).Success?
    requires 0 <= i < |lines|
    ensures lines[i].productId in products && products[lines[i].productId].price.Some?
    ensures i < |Build(lines, products).value.items|
    ensures Build(lines, products).value.items[i] == ItemFor(lines[i], products[lines[i].productId])
    decreases |lines|
  {
    var n := |lines|;
    var pre := lines[..n - 1];
    BuildLastItem(lines, products);
    BuildLength(pre, products);
    if i < n - 1 {
      BuildItemAt(pre, products, i);
      assert lines[i] == pre[i];
    }
  }

  /** The last line's item is priced from the stored row of its product. */
  lemma BuildLastItem(lines: seq<CartItem>, products: map<int, Product>)
    requires lines != [] && Build(lines, products).Success?
    ensures var last := lines[|lines| - 1];
      && last.productId in products && products[last.productId].price.Some?
      && Build(lines, products).value.items
         == Build(lines[..|lines| - 1], products).value.items + [ItemFor(last, products[last.productId])]
  {
    var pre := lines[..|lines| - 1];
    var last := lines[|lines| - 1];
    BuildSnoc(lines, products);
    BuildKeepsKeys(pre, products);
    BuildStock(pre, products);
    var d0 := Build(pre, products).value;
    assert Build(lines, products).value.items == d0.items + [ItemFor(last, d0.products[last.productId])];
    SamePriceSameItem(last, d0.products[last.productId], products[last.productId]);
  }

  /** An order item depends on its product only through the price. */
  lemma SamePriceSameItem(line: CartItem, p: Product, q: Product)
    requires p.price.Some? && p.price == q.price
    ensures ItemFor(line, p) == ItemFor(line, q)
  {
    var price := p.price.value;
    assert q.price.value == price;
  }

  /** Adding a line adds its quantity to its own product's demand only. */
  lemma DemandStep(lines: seq<CartItem>, pid: int)
    requires lines != []
    ensures Demand(lines, pid) == Demand(lines[..|lines| - 1], pid) + (if lines[|lines| - 1].productId == pid then lines[|lines| - 1].quantity else 0)
  {
  }

  /**
   * With non-negative quantities, checkout succeeds exactly when every
   * line's product exists, is active and has a price, and no product is
   * asked for more than its stock in total over all its lines.
   */
  lemma {:induction false} BuildSucceedsIff(lines: seq<CartItem>, products: map<int, Product>)
    requires forall i :: 0 <= i < |lines| ==> lines[i].quantity >= 0
    ensures Build(lines, products).Success? <==>
      forall i :: 0 <= i < |lines| ==>
        Orderable(lines[i], products) && Demand(lines, lines[i].productId) <= products[lines[i].productId].stock
    decreases |lines|
  {
    if lines != [] {
      var n := |lines|;
      var pre := lines[..n - 1];
      var last := lines[n - 1];
      assert forall i :: 0 <= i < n - 1 ==> lines[i] == pre[i];
      BuildSucceedsIff(pre, products);
      forall k ensures Demand(lines, k) == Demand(pre, k) + (if last.productId == k then last.quantity else 0) {
        DemandStep(lines, k);
      }
      if Build(pre, products).Success? {
        BuildKeepsKeys(pre, products);
        BuildStock(pre, products);
        BuildLinesOrderable(pre, products);
      }
    }
  }

  /** Line k is where the checkout stops: every earlier line passed and line k fails. */
  predicate FailsAt(lines: seq<CartItem>, products: map<int, Product>, k: int) {
    && 0 <= k < |lines|
    && Build(lines[..k], products).Success?
    && LineCheck(lines[k], Build(lines[..k], products).value.products).Some?
  }

  /**
   * Checkout fails exactly when some line fails after all earlier lines
   * passed against the stock they left; that line is unique and its check
   * decides the error.
   */
  lemma FirstFailingLineDecides(lines: seq<CartItem>, products: map<int, Product>)
    ensures Build(lines, products).Failure? <==> exists k :: FailsAt(lines, products, k)
    ensures forall k :: FailsAt(lines, products, k) ==>
      Build(lines, products) == Failure(LineCheck(lines[k], Build(lines[..k], products).value.products).value)
    ensures forall k1, k2 :: FailsAt(lines, products, k1) && FailsAt(lines, products, k2) ==> k1 == k2
  {
    forall k | FailsAt(lines, products, k)
      ensures Build(lines, products) == Failure(LineCheck(lines[k], Build(lines[..k], products).value.products).value)
    {
      FailingLineDecides(lines, products, k);
    }
    forall k1, k2 | FailsAt(lines, products, k1) && FailsAt(lines, products, k2) ensures k1 == k2 {
      FailingLineIsUnique(lines, products, k1, k2);
    }
    if Build(lines, products).Failure? {
      FailureHasFailingLine(lines, products);
    }
  }

  /** A line that fails after all earlier lines passed gives the checkout its error. */
  lemma FailingLineDecides(lines: seq<CartItem>, products: map<int, Product>, k: int)
    requires FailsAt(lines, products, k)
    ensures Build(lines, products) == Failure(LineCheck(lines[k], Build(lines[..k], products).value.products).value)
  {
    BuildExtend(lines, k, products);
    RejectionIsFinal(lines, k + 1, products);
  }

  /** At most one line fails after all earlier lines passed. */
  lemma FailingLineIsUnique(lines: seq<CartItem>, products: map<int, Product>, k1: int, k2: int)
    requires FailsAt(lines, products, k1) && FailsAt(lines, products, k2)
    ensures k1 == k2
  {
    if k1 != k2 {
      var lo := if k1 < k2 then k1 else k2;
      var hi := if k1 < k2 then k2 else k1;
      BuildExtend(lines, lo, products);
      assert lines[..hi][..lo + 1] == lines[..lo + 1];
      RejectionIsFinal(lines[..hi], lo + 1, products);
    }
  }

  /** A refused checkout has a line that failed after all earlier lines passed. */
  lemma {:induction false} FailureHasFailingLine(lines: seq<CartItem>, products: map<int, Product>)
    requires Build(lines, products).Failure?
    ensures exists k :: FailsAt(lines, products, k)
    decreases |lines|
  {
    var n := |lines|;
    var pre := lines[..n - 1];
    if Build(pre, products).Failure? {
      FailureHasFailingLine(pre, products);
      var k :| FailsAt(pre, products, k);
      assert pre[..k] == lines[..k];
      assert FailsAt(lines, products, k);
    } else {
      assert FailsAt(lines, products, n - 1);
    }
  }

  // ---------------------------------------------------------------------
  // The checkout handler
  // ---------------------------------------------------------------------

  /** The query that re-reads an order with its items after the commit. */
  function LoadOrderWithItems(db: Database, orderId: int): (r: Option<Order>)
    reads db
    ensures r.Some? <==> orderId in db.orders
    ensures r.Some? ==> r.value == db.orders[orderId]
  {
    if orderId in db.orders then Some(db.orders[orderId]) else None
  }

  /**
   * The loop of the checkout handler: each line in turn is checked against
   * the live stock, priced, appended and its stock taken, on the session's
   * copy of the product rows; the first refused line ends it.
   */
  method BuildOrder(lines: seq<CartItem>, stored: map<int, Product>) returns (r: Result<Draft, CheckoutError>)
    ensures r == Build(lines, stored)
  {
    var products := stored;
    var items: seq<OrderItem> := [];
    var total := 0.0;
    var i := 0;
    while i < |lines|
      invariant 0 <= i <= |lines|
      invariant Build(lines[..i], stored) == Success(Draft(items, total, products))
    {
      var line := lines[i];
      BuildExtend(lines, i, stored);
      var refused: Option<CheckoutError> := None;
      if line.productId !in products {
        refused := Some(ProductMissing);
      } else if !products[line.productId].isActive {
        refused := Some(ProductUnavailable(line.productId));
      } else if line.quantity > products[line.productId].stock {
        refused := Some(NotEnoughStock(products[line.productId].name));
      } else if products[line.productId].price.None? {
        refused := Some(NoPriceSet(products[line.productId].name));
      }
      assert refused == LineCheck(line, products);
      if refused.Some? {
        RejectionIsFinal(lines, i + 1, stored);
        return Failure(refused.value);
      }
      ghost var before := Draft(items, total, products);
      var product := products[line.productId];
      var totalPrice := line.quantity as real * product.price.value;
      total := total + totalPrice;
      var orderItem := OrderItem(line.productId, line.quantity, product.price.value, totalPrice);
      items := items + [orderItem];
      products := products[line.productId := product.(stock := product.stock - line.quantity)];
      LoopStep(before, line, product, totalPrice);
      i := i + 1;
    }
    assert lines[..i] == lines;
    return Success(Draft(items, total, products));
  }

  /**
   * The statements after the loop: the order is added with the accumulated
   * total and items, the session's product rows are stored, the caller's
   * cart is deleted, and all of it is committed together.
   */
  method Commit(db: Database, user: int, d: Draft, now: Timestamp) returns (order: Order)
    requires db.Valid()
    requires forall k :: k in d.products <==> k in db.products
    modifies db`products, db`cartItems, db`orders, db`nextOrderId
    ensures db.Valid()
    ensures order == Order(old(db.nextOrderId), user, d.total, now, d.items)
    ensures db.products == d.products
    ensures db.cartItems == DeleteCartOf(old(db.cartItems), user)
    ensures db.orders == old(db.orders)[order.id := order]
    ensures db.nextOrderId == old(db.nextOrderId) + 1
  {
    order := Order(db.nextOrderId, user, d.total, now, d.items);
    db.orders := db.orders[order.id := order];
    db.nextOrderId := db.nextOrderId + 1;
    db.products := d.products;
    db.cartItems := DeleteCartOf(db.cartItems, user);
  }

  /**
   * POST /orders/checkout for user `user` at time `now`. The product rows
   * are changed on the session's copy and reach the store only at the
   * commit, so a refused checkout leaves the store as it was.
   */
  method CheckoutOrder(db: Database, user: int, now: Timestamp) returns (r: Result<Order, CheckoutError>)
    requires db.Valid()
    modifies db`products, db`cartItems, db`orders, db`nextOrderId
    ensures db.Valid()
    ensures UserCart(old(db.cartItems), old(db.nextCartItemId), user) == [] ==> r == Failure(EmptyCart) && unchanged(db)
    ensures UserCart(old(db.cartItems), old(db.nextCartItemId), user) != [] && Build(UserCart(old(db.cartItems), old(db.nextCartItemId), user), old(db.products)).Failure? ==>
      r == Failure(Build(UserCart(old(db.cartItems), old(db.nextCartItemId), user), old(db.products)).error) && unchanged(db)
    ensures UserCart(old(db.cartItems), old(db.nextCartItemId), user) != [] && Build(UserCart(old(db.cartItems), old(db.nextCartItemId), user), old(db.products)).Success? ==>
      var d := Build(UserCart(old(db.cartItems), old(db.nextCartItemId), user), old(db.products)).value;
      && r == Success(Order(old(db.nextOrderId), user, d.total, now, d.items))
      && db.products == d.products
      && db.cartItems == DeleteCartOf(old(db.cartItems), user)
      && db.orders == old(db.orders)[r.value.id := r.value]
      && db.nextOrderId == old(db.nextOrderId) + 1
  {
    var lines := UserCart(db.cartItems, db.nextCartItemId, user);
    if |lines| == 0 {
      return Failure(EmptyCart);
    }
    var built := BuildOrder(lines, db.products);
    if built.Failure? {
      return Failure(built.error);
    }
    BuildKeepsKeys(lines, db.products);
    var order := Commit(db, user, built.value, now);
    var created := LoadOrderWithItems(db, order.id);
    r := match created
      case Some(o) => Success(o)
      case None => Failure(LoadFailed);
  }

  // ---- checkout scenarios ----

  /** One line of 2 at 10.00 with stock 5: total 20.00, stock 3. */
  lemma ScenarioSingleLine()
    ensures var p := Product("P1", None, Some(10.0), 5, 1, true);
      var r := Build([CartItem(7, 1, 2)], map[1 := p]);
      && r.Success?
      && r.value.items == [OrderItem(1, 2, 10.0, 20.0)]
      && r.value.total == 20.0
      && r.value.products == map[1 := p.(stock := 3)]
  {
    var p := Product("P1", None, Some(10.0), 5, 1, true);
    var line := CartItem(7, 1, 2);
    assert [line][..0] == [];
    assert Build([line], map[1 := p]) == Take(Draft([], 0.0, map[1 := p]), line);
    assert LineCheck(line, map[1 := p]).None?;
    assert 2 as real * 10.0 == 20.0;
    assert ItemFor(line, p) == OrderItem(1, 2, 10.0, 20.0);
    assert [] + [ItemFor(line, p)] == [OrderItem(1, 2, 10.0, 20.0)];
    assert map[1 := p][1 := p.(stock := 3)] == map[1 := p.(stock := 3)];
  }

  /** Asking 10 of a product with stock 3 is refused and names the product. */
  lemma ScenarioNotEnoughStock()
    ensures Build([CartItem(7, 2, 10)], map[2 := Product("P2", None, Some(4.5), 3, 1, true)])
      == Failure(NotEnoughStock("P2"))
  {
    assert [CartItem(7, 2, 10)][..0] == [];
  }

  /**
   * Two lines of 3 for one product with stock 5: each fits alone, but the
   * second line is checked against the stock the first already took.
   */
  lemma ScenarioRepeatedProduct()
    ensures var p := Product("P1", None, Some(1.0), 5, 1, true);
      && Build([CartItem(7, 1, 3)], map[1 := p]).Success?
      && Build([CartItem(7, 1, 3), CartItem(7, 1, 3)], map[1 := p]) == Failure(NotEnoughStock("P1"))
  {
    var lines := [CartItem(7, 1, 3), CartItem(7, 1, 3)];
    assert lines[..1] == [CartItem(7, 1, 3)];
    assert lines[..1][..0] == [];
  }

  /**
   * A valid line followed by a line for an inactive product: the cart is
   * refused naming the inactive product, whatever the first line took.
   */
  lemma ScenarioInactiveProduct()
    ensures var products := map[1 := Product("P1", None, Some(10.0), 5, 1, true),
                                 3 := Product("P3", None, Some(2.0), 9, 1, false)];
      Build([CartItem(7, 1, 2), CartItem(7, 3, 1)], products) == Failure(ProductUnavailable(3))
  {
    var lines := [CartItem(7, 1, 2), CartItem(7, 3, 1)];
    assert lines[..1] == [CartItem(7, 1, 2)];
    assert lines[..1][..0] == [];
  }

  // ---- checkout against the response schema ----

  lemma {:induction false} SumTotalsNonNegative(items: seq<OrderItem>)
    requires forall i :: 0 <= i < |items| ==> items[i].totalPrice >= 0.0
    ensures SumTotals(items) >= 0.0
    decreases |items|
  {
    if items != [] {
      SumTotalsNonNegative(items[..|items| - 1]);
    }
  }

  /** A line of at least one unit at a non-negative price gives a valid order item. */
  lemma ItemMeetsSchema(line: CartItem, p: Product)
    requires line.quantity >= 1 && p.price.Some? && p.price.value >= 0.0
    ensures ValidOrderItem(ItemFor(line, p))
  {
    var item := ItemFor(line, p);
    NonNegativeProduct(line.quantity as real, p.price.value, item.totalPrice);
  }

  /** A product of non-negative factors is non-negative. */
  lemma NonNegativeProduct(x: real, y: real, xy: real)
    requires x >= 0.0 && y >= 0.0 && xy == x * y
    ensures xy >= 0.0
  {
  }

  /**
   * When cart quantities meet the cart schema (at least 1) and stored prices
   * are non-negative, the created order meets the Order response schema.
   */
  lemma CheckoutMeetsOrderSchema(lines: seq<CartItem>, products: map<int, Product>, id: int, user: int, now: Timestamp)
    requires forall i :: 0 <= i < |lines| ==> lines[i].quantity >= 1
    requires forall k :: k in products && products[k].price.Some? ==> products[k].price.value >= 0.0
    requires Build(lines, products).Success?
    ensures ValidOrderResponse(Order(id, user, Build(lines, products).value.total, now, Build(lines, products).value.items))
  {
    var d := Build(lines, products).value;
    BuildTotal(lines, products);
    forall i | 0 <= i < |d.items| ensures ValidOrderItem(d.items[i]) {
      BuildItemAt(lines, products, i);
      ItemMeetsSchema(lines[i], products[lines[i].productId]);
    }
    SumTotalsNonNegative(d.items);
  }

  /** A whole-cent price gives a whole-cent line total. */
  lemma ItemKeepsCents(line: CartItem, p: Product)
    requires p.price.Some? && AtMostTwoDecimals(p.price.value)
    ensures AtMostTwoDecimals(ItemFor(line, p).totalPrice)
  {
    ScaledKeepsCents(p.price.value, line.quantity, ItemFor(line, p).totalPrice);
  }

  /** A sum of whole-cent line totals is in whole cents. */
  lemma {:induction false} SumTotalsKeepsCents(items: seq<OrderItem>)
    requires forall i :: 0 <= i < |items| ==> AtMostTwoDecimals(items[i].totalPrice)
    ensures AtMostTwoDecimals(SumTotals(items))
    decreases |items|
  {
    if items == [] {
      assert 0.0 * 100.0 == 0 as real;
    } else {
      var pre := items[..|items| - 1];
      SumTotalsKeepsCents(pre);
      SumKeepsCents(SumTotals(pre), items[|items| - 1].totalPrice, SumTotals(items));
    }
  }

  /**
   * With stored prices in whole cents, every line total and the order total
   * are in whole cents too: the exact decimal arithmetic never needs rounding.
   */
  lemma CheckoutKeepsCents(lines: seq<CartItem>, products: map<int, Product>)
    requires forall k :: k in products && products[k].price.Some? ==> AtMostTwoDecimals(products[k].price.value)
    requires Build(lines, products).Success?
    ensures AtMostTwoDecimals(Build(lines, products).value.total)
    ensures forall i :: 0 <= i < |Build(lines, products).value.items| ==>
      AtMostTwoDecimals(Build(lines, products).value.items[i].totalPrice)
  {
    var d := Build(lines, products).value;
    BuildTotal(lines, products);
    forall i | 0 <= i < |d.items| ensures AtMostTwoDecimals(d.items[i].totalPrice) {
      BuildItemAt(lines, products, i);
      ItemKeepsCents(lines[i], products[lines[i].productId]);
    }
    SumTotalsKeepsCents(d.items);
  }

  /** A successful checkout never drives a non-negative stock below zero. */
  lemma CheckoutKeepsStockNonNegative(lines: seq<CartItem>, products: map<int, Product>)
    requires forall k :: k in products ==> products[k].stock >= 0
    requires Build(lines, products).Success?
    ensures forall k :: k in Build(lines, products).value.products ==> Build(lines, products).value.products[k].stock >= 0
  {
    BuildKeepsKeys(lines, products);
    BuildStockBounded(lines, products);
  }

  // ---------------------------------------------------------------------
  // Reading orders back
  // ---------------------------------------------------------------------

  /** GET /orders/{id}: another user's order is reported exactly like a missing one. */
  function GetOrder(db: Database, user: int, orderId: int): (r: Result<Order, ApiError>)
    reads db
    ensures r.Success? <==> orderId in db.orders && db.orders[orderId].userId == user
    ensures r.Success? ==> r.value == db.orders[orderId]
    ensures r.Failure? ==> r.error == NotFound("Order not found")
  {
    match LoadOrderWithItems(db, orderId)
    case None => Failure(NotFound("Order not found"))
    case Some(o) => if o.userId != user then Failure(NotFound("Order not found")) else Success(o)
  }

  /** The ids of the caller's orders, ascending. */
  function UserOrderIds(db: Database, user: int): (ids: seq<int>)
    reads db
    ensures Increasing(ids)
    ensures forall id :: id in ids <==> 0 <= id < db.nextOrderId && id in db.orders && db.orders[id].userId == user
  {
    KeysWhere(db.orders, db.nextOrderId, (o: Order) => o.userId == user)
  }

  predicate NewestFirstOrder(s: seq<Order>) {
    forall i, j :: 0 <= i < j < |s| ==> s[i].createdAt >= s[j].createdAt
  }

  /** Place `o` before the first order that is not newer than it. */
  function Insert(o: Order, s: seq<Order>): (r: seq<Order>)
    ensures |r| == |s| + 1
    ensures r[0] == o || (s != [] && r[0] == s[0])
  {
    if s == [] || o.createdAt >= s[0].createdAt then [o] + s
    else [s[0]] + Insert(o, s[1..])
  }

  /** Inserting adds exactly the one order: the result is a permutation of s with o. */
  lemma {:induction false} InsertIsPermutation(o: Order, s: seq<Order>)
    ensures multiset(Insert(o, s)) == multiset(s) + multiset{o}
  {
    if s != [] && o.createdAt < s[0].createdAt {
      InsertIsPermutation(o, s[1..]);
      assert s == [s[0]] + s[1..];
    }
  }

  /** Inserting into a newest-first sequence keeps it newest first. */
  lemma {:induction false} InsertKeepsOrder(o: Order, s: seq<Order>)
    requires NewestFirstOrder(s)
    ensures NewestFirstOrder(Insert(o, s))
  {
    if s != [] && o.createdAt < s[0].createdAt {
      var rest := Insert(o, s[1..]);
      InsertKeepsOrder(o, s[1..]);
      var r := Insert(o, s);
      assert r == [s[0]] + rest;
      assert s[0].createdAt >= rest[0].createdAt;
      forall i, j | 0 <= i < j < |r| ensures r[i].createdAt >= r[j].createdAt {
        if i > 0 {
          assert r[i] == rest[i - 1] && r[j] == rest[j - 1];
        } else if j > 1 {
          assert r[j] == rest[j - 1];
          assert rest[0].createdAt >= rest[j - 1].createdAt;
        }
      }
    }
  }

  /** ORDER BY created_at DESC over rows given in id order. */
  function NewestFirst(s: seq<Order>): (r: seq<Order>)
    ensures |r| == |s|
    ensures multiset(r) == multiset(s)
    ensures NewestFirstOrder(r)
  {
    if s == [] then [] else
      assert s == [s[0]] + s[1..];
      var sorted := NewestFirst(s[1..]);
      InsertKeepsOrder(s[0], sorted);
      InsertIsPermutation(s[0], sorted);
      Insert(s[0], sorted)
  }

  /** OFFSET offset LIMIT limit. */
  function Window(s: seq<Order>, offset: int, limit: int): (r: seq<Order>)
    requires offset >= 0 && limit >= 0
    ensures |r| <= limit
    ensures forall i :: 0 <= i < |r| ==> offset + i < |s| && r[i] == s[offset + i]
    ensures |r| == if offset >= |s| then 0 else if offset + limit <= |s| then limit else |s| - offset
  {
    if offset >= |s| then [] else s[offset..if offset + limit <= |s| then offset + limit else |s|]
  }

  /**
   * GET /orders?page=&page_size=: the caller's orders, newest first, one
   * page at a time; page >= 1 and 1 <= page_size <= 100 or the query is
   * refused with 422.
   */
  function ListOrders(db: Database, user: int, page: int, pageSize: int): (r: Result<OrderList, ApiError>)
    reads db
    ensures r.Success? <==> page >= 1 && 1 <= pageSize <= 100
    ensures r.Success? ==>
      && ValidOrderList(r.value)
      && r.value.page == page && r.value.pageSize == pageSize
      && r.value.total == |UserOrderIds(db, user)|
      && |r.value.items| <= pageSize
      && NewestFirstOrder(r.value.items)
      && (forall i :: 0 <= i < |r.value.items| ==> r.value.items[i] in RowsAt(db.orders, UserOrderIds(db, user)))
    ensures r.Success? ==>
      (r.value.items == Window(NewestFirst(RowsAt(db.orders, UserOrderIds(db, user))), PageOffset(page, pageSize), pageSize))
  {
    if page < 1 || pageSize < 1 || pageSize > 100 then Failure(Unprocessable("page or page_size out of range"))
    else
      var ids := UserOrderIds(db, user);
      var found := RowsAt(db.orders, ids);
      var rows := NewestFirst(found);
      var offset := PageOffset(page, pageSize);
      WindowOfSorted(rows, found, offset, pageSize);
      Success(OrderList(Window(rows, offset, pageSize), |ids|, page, pageSize))
  }

  /** The query defaults of GET /orders: the first page, ten orders per page. */
  const DefaultPage := 1
  const DefaultPageSize := 10

  /**
   * GET /orders with the query parameters as sent: an omitted `page` is 1
   * and an omitted `page_size` is 10; only a parameter that is sent can be
   * out of range.
   */
  function ListOrdersQuery(db: Database, user: int, page: Option<int>, pageSize: Option<int>): (r: Result<OrderList, ApiError>)
    reads db
    ensures r.Success? <==> (page.None? || page.value >= 1) && (pageSize.None? || 1 <= pageSize.value <= 100)
    ensures r.Success? ==> r.value.page == page.GetOr(DefaultPage) && r.value.pageSize == pageSize.GetOr(DefaultPageSize)
  {
    ListOrders(db, user, page.GetOr(DefaultPage), pageSize.GetOr(DefaultPageSize))
  }

  /** A query with no parameters lists the caller's ten newest orders, or all of them when there are fewer. */
  lemma DefaultQueryIsNewestTen(db: Database, user: int)
    ensures var rows := NewestFirst(RowsAt(db.orders, UserOrderIds(db, user)));
      var r := ListOrdersQuery(db, user, None, None);
      && r.Success?
      && r.value.items == (if |rows| <= 10 then rows else rows[..10])
  {
    var rows := NewestFirst(RowsAt(db.orders, UserOrderIds(db, user)));
    assert PageOffset(DefaultPage, DefaultPageSize) == 0;
    assert ListOrdersQuery(db, user, None, None).value.items == Window(rows, 0, 10);
  }

  /** OFFSET (page - 1) * page_size: the rows before page `page`, never negative for a valid query. */
  function PageOffset(page: int, pageSize: int): (offset: int)
    ensures page >= 1 && pageSize >= 1 ==> offset >= 0
  {
    (page - 1) * pageSize
  }

  /**
   * A window of a newest-first ordering of `found` is newest first and
   * holds only rows of `found`.
   */
  lemma WindowOfSorted(s: seq<Order>, found: seq<Order>, offset: int, limit: int)
    requires offset >= 0 && limit >= 0
    requires NewestFirstOrder(s) && multiset(s) == multiset(found)
    ensures NewestFirstOrder(Window(s, offset, limit))
    ensures forall i :: 0 <= i < |Window(s, offset, limit)| ==> Window(s, offset, limit)[i] in found
  {
    var w := Window(s, offset, limit);
    forall i, j | 0 <= i < j < |w| ensures w[i].createdAt >= w[j].createdAt {
      assert w[i] == s[offset + i] && w[j] == s[offset + j];
    }
    forall i | 0 <= i < |w| ensures w[i] in found {
      assert w[i] in multiset(s);
    }
  }

  /** Row j falls on page j / size + 1, at position j % size of that page. */
  lemma PageOf(j: int, size: int)
    requires size >= 1 && j >= 0
    ensures j / size + 1 >= 1 && 0 <= j % size < size
    ensures (j / size + 1 - 1) * size + j % size == j
  {
  }

  /** Position k of a window is row offset + k, when that row exists. */
  lemma WindowHolds(s: seq<Order>, offset: int, size: int, k: int)
    requires offset >= 0 && 0 <= k < size && offset + k < |s|
    ensures k < |Window(s, offset, size)| && Window(s, offset, size)[k] == s[offset + k]
  {
  }

  /**
   * Paging loses nothing: the j-th of the caller's orders, newest first, is
   * item j % page_size of page j / page_size + 1, for every page size.
   */
  lemma EveryOrderIsOnItsPage(db: Database, user: int, pageSize: int, j: int)
    requires 1 <= pageSize <= 100
    requires 0 <= j < |UserOrderIds(db, user)|
    ensures var r := ListOrders(db, user, j / pageSize + 1, pageSize);
      && r.Success?
      && j % pageSize < |r.value.items|
      && r.value.items[j % pageSize] == NewestFirst(RowsAt(db.orders, UserOrderIds(db, user)))[j]
  {
    var rows := NewestFirst(RowsAt(db.orders, UserOrderIds(db, user)));
    var page := j / pageSize + 1;
    PageOf(j, pageSize);
    var offset := PageOffset(page, pageSize);
    assert ListOrders(db, user, page, pageSize).value.items == Window(rows, offset, pageSize);
    WindowHolds(rows, offset, pageSize, j % pageSize);
  }
}
