/** OrderService: placing an order reserves stock item by item, cancelling it
    gives the stock back, and an administrator may set any status.  The
    service runs in one transaction per call, so every error leaves the
    tables as they were. */
module OrderService {
  import opened Wrappers
  import opened Text
  import opened Store
  import opened ProductEntity
  import UserEntity

  datatype OrderStatus = Pending | Confirmed | Shipped | Delivered | Cancelled
  datatype PaymentStatus = PaymentPending | Paid | PaymentFailed
  /** Only CASH_ON_DELIVERY is known by name; the other constants of the
      enum are carried by their name. */
  datatype PaymentMethod = CashOnDelivery | OtherMethod(name: string)

  datatype ItemRequest = ItemRequest(productId: nat, quantity: int)
  /** One order line: the unit price is a snapshot of the effective price. */
  datatype OrderItem = OrderItem(productId: nat, quantity: int, price: Cents, subtotal: Cents)
  datatype Shipping = Shipping(address: string, city: string, state: string,
                               zipCode: string, country: string)

  datatype CreateOrderRequest = CreateOrderRequest(
    items: seq<ItemRequest>,
    paymentMethod: PaymentMethod,
    shipping: Shipping,
    customerName: string,
    customerPhone: string,
    customerEmail: Option<string>,
    notes: Option<string>)

  datatype Order = Order(
    orderNumber: string,
    userId: nat,
    items: seq<OrderItem>,
    totalAmount: Cents,
    status: OrderStatus,
    paymentMethod: PaymentMethod,
    paymentStatus: PaymentStatus,
    shipping: Shipping,
    customerName: string,
    customerPhone: string,
    customerEmail: Option<string>,
    notes: Option<string>)

  datatype OrderError =
    | UserNotFound                             // "User not found"
    | ProductNotFound                          // "Product not found"
    | InsufficientStock(productName: string)   // "Insufficient stock for product: <name>"
    | OrderNotFound(id: nat)                   // "Order not found with id: <id>"
    | OrderNumberNotFound(orderNumber: string) // "Order not found with order number: <n>"
    | AccessDenied                             // "Access denied"
    | CannotCancel(status: OrderStatus)        // "Cannot cancel order in <status> status"

  /** The bean-validation constraints of CreateOrderRequest, enforced before
      the service is reached. */
  predicate ValidRequest(req: CreateOrderRequest) {
    && |req.items| > 0
    && !IsBlank(req.shipping.address) && !IsBlank(req.shipping.city)
    && !IsBlank(req.shipping.state) && !IsBlank(req.shipping.zipCode)
    && !IsBlank(req.shipping.country)
    && !IsBlank(req.customerName) && !IsBlank(req.customerPhone)
  }

  // ---------------------------------------------------------------------
  // Quantities and amounts

  /** Total quantity of product `id` over a list of requested items. */
  function Requested(items: seq<ItemRequest>, id: nat): int {
    if items == [] then 0
    else
      var last := items[|items| - 1];
      Requested(items[..|items| - 1], id) + (if last.productId == id then last.quantity else 0)
  }

  /** The (product, quantity) pairs an order's lines were made from. */
  function LineRequests(lines: seq<OrderItem>): (r: seq<ItemRequest>)
    ensures |r| == |lines|
    ensures forall k :: 0 <= k < |lines| ==> r[k] == ItemRequest(lines[k].productId, lines[k].quantity)
  {
    seq(|lines|, k requires 0 <= k < |lines| => ItemRequest(lines[k].productId, lines[k].quantity))
  }

  function SubtotalSum(lines: seq<OrderItem>): Cents {
    if lines == [] then 0 else SubtotalSum(lines[..|lines| - 1]) + lines[|lines| - 1].subtotal
  }

  lemma {:induction false} SubtotalSumAppend(lines: seq<OrderItem>, line: OrderItem)
    ensures SubtotalSum(lines + [line]) == SubtotalSum(lines) + line.subtotal
  {
    assert (lines + [line])[..|lines|] == lines;
  }

  /** Sum of effective price times quantity, with prices read from
      `products`: what an order for `items` is worth. */
  function OrderValue(products: map<nat, Product>, items: seq<ItemRequest>): Cents {
    if items == [] then 0
    else
      var last := items[|items| - 1];
      OrderValue(products, items[..|items| - 1]) +
        (if last.productId in products then EffectivePrice(products[last.productId]) * last.quantity else 0)
  }

  // ---------------------------------------------------------------------
  // Reservation: the loop of createOrder, item by item

  /** The product table as the transaction sees it, and the lines so far. */
  datatype Reservation = Reservation(products: map<nat, Product>, lines: seq<OrderItem>)

  /** One pass of the loop body: look the product up, check the stock the
      transaction currently sees, snapshot the price, move the quantity from
      stock to sold.  Gives the updated table and the new order line. */
  function ReserveOne(products: map<nat, Product>, item: ItemRequest)
    : (r: Result<(map<nat, Product>, OrderItem), OrderError>)
    ensures item.productId !in products ==> r == Err(ProductNotFound)
    ensures item.productId in products && products[item.productId].stockQuantity < item.quantity ==>
      r == Err(InsufficientStock(products[item.productId].name))
    ensures r.Ok? ==>
      var p := products[item.productId];
      && r.value.0.Keys == products.Keys
      && r.value.0[item.productId].stockQuantity == p.stockQuantity - item.quantity >= 0
      && r.value.0[item.productId].soldCount == p.soldCount + item.quantity
      && r.value.0 == products[item.productId := r.value.0[item.productId]]
      && r.value.1.productId == item.productId && r.value.1.quantity == item.quantity
      && r.value.1.price == EffectivePrice(p) <= p.price
      && r.value.1.subtotal == r.value.1.price * item.quantity
  {
    if item.productId !in products then Err(ProductNotFound)
    else
      var p := products[item.productId];
      if p.stockQuantity < item.quantity then Err(InsufficientStock(p.name))
      else
        var price := EffectivePrice(p);
        Ok((products[item.productId := Adjust(p, -item.quantity)],
            OrderItem(item.productId, item.quantity, price, price * item.quantity)))
  }

  /** A reservation extended by one item. */
  function Extend(rv: Reservation, item: ItemRequest): Result<Reservation, OrderError> {
    match ReserveOne(rv.products, item)
    case Err(e) => Err(e)
    case Ok(step) => Ok(Reservation(step.0, rv.lines + [step.1]))
  }

  /** The whole loop, items in request order; a repeated product id sees the
      stock already taken by its earlier occurrences. */
  function Reserve(products: map<nat, Product>, items: seq<ItemRequest>): (r: Result<Reservation, OrderError>)
    ensures r.Ok? ==> r.value.products.Keys == products.Keys
    ensures r.Ok? ==> LineRequests(r.value.lines) == items
    ensures r.Ok? ==> forall k :: 0 <= k < |items| ==> items[k].productId in products
  {
    if items == [] then Ok(Reservation(products, []))
    else
      match Reserve(products, items[..|items| - 1])
      case Err(e) => Err(e)
      case Ok(rv) =>
        var r := Extend(rv, items[|items| - 1]);
        assert r.Ok? ==> items == items[..|items| - 1] + [items[|items| - 1]];
        r
  }

  /** Once a prefix of the items fails, the whole request fails with that
      error: the loop stops at the first bad item. */
  lemma {:induction false} ReserveStopsAtFirstError(products: map<nat, Product>, items: seq<ItemRequest>, n: nat)
    requires n <= |items| && Reserve(products, items[..n]).Err?
    ensures Reserve(products, items) == Reserve(products, items[..n])
  {
    if n < |items| {
      var front := items[..|items| - 1];
      assert front[..n] == items[..n];
      ReserveStopsAtFirstError(products, front, n);
    } else {
      assert items[..n] == items;
    }
  }

  /** After a successful reservation each product has moved exactly the
      total quantity ordered of it from stock to sold, and nothing else about
      it changed. */
  lemma {:induction false} ReserveAccounting(products: map<nat, Product>, items: seq<ItemRequest>, id: nat)
    requires Reserve(products, items).Ok? && id in products
    ensures Reserve(products, items).value.products[id] == Adjust(products[id], -Requested(items, id))
  {
    if items == [] {
      AdjustCompose(products[id], 0, 0);
    } else {
      var front := items[..|items| - 1];
      var last := items[|items| - 1];
      var prev := Reserve(products, front).value;
      assert Reserve(products, items) == Extend(prev, last);
      ReserveAccounting(products, front, id);
      assert Requested(items, id) == Requested(front, id) + (if last.productId == id then last.quantity else 0);
      if last.productId == id {
        AdjustCompose(products[id], -Requested(front, id), -last.quantity);
      }
    }
  }

  /** Extending the request by one item runs one more pass of the loop. */
  lemma {:induction false} ReserveExtend(products: map<nat, Product>, items: seq<ItemRequest>, i: nat,
                                         rv: Reservation)
    requires i < |items| && Reserve(products, items[..i]) == Ok(rv)
    ensures Reserve(products, items[..i + 1]) == Extend(rv, items[i])
  {
    assert items[..i + 1][..i] == items[..i];
  }

  /** The check the loop makes for one item, given the items before it. */
  predicate Covered(products: map<nat, Product>, earlier: seq<ItemRequest>, item: ItemRequest) {
    && item.productId in products
    && products[item.productId].stockQuantity - Requested(earlier, item.productId) >= item.quantity
  }

  /** Success exactly when every item names a stored product whose stock,
      less what earlier items of this order already took, covers it. */
  lemma {:induction false} ReserveSucceedsIff(products: map<nat, Product>, items: seq<ItemRequest>)
    ensures Reserve(products, items).Ok? <==>
      forall k :: 0 <= k < |items| ==> Covered(products, items[..k], items[k])
  {
    if items != [] {
      var n := |items| - 1;
      var front := items[..n];
      ReserveSucceedsIff(products, front);
      ReserveLastStep(products, items);
      forall k | 0 <= k < n ensures front[..k] == items[..k] && front[k] == items[k] { }
    }
  }

  /** The last item succeeds exactly when it is covered. */
  lemma {:induction false} ReserveLastStep(products: map<nat, Product>, items: seq<ItemRequest>)
    requires items != []
    ensures Reserve(products, items).Ok? <==>
      Reserve(products, items[..|items| - 1]).Ok? &&
      Covered(products, items[..|items| - 1], items[|items| - 1])
  {
    var front := items[..|items| - 1];
    var last := items[|items| - 1];
    var prev := Reserve(products, front);
    if prev.Ok? {
      assert Reserve(products, items) == Extend(prev.value, last);
      if last.productId in products {
        ReserveAccounting(products, front, last.productId);
        assert prev.value.products[last.productId].stockQuantity ==
               products[last.productId].stockQuantity - Requested(front, last.productId);
      }
    }
  }

  /** Every product named in a successful order is left with non-negative
      stock, whatever its stock was before. */
  lemma {:induction false} ReserveLeavesOrderedStockNonNegative(products: map<nat, Product>, items: seq<ItemRequest>)
    requires Reserve(products, items).Ok?
    ensures forall k :: 0 <= k < |items| ==>
      Reserve(products, items).value.products[items[k].productId].stockQuantity >= 0
  {
    if items != [] {
      var front := items[..|items| - 1];
      ReserveLeavesOrderedStockNonNegative(products, front);
      assert forall k :: 0 <= k < |front| ==> front[k] == items[k];
    }
  }

  predicate StockNonNegative(products: map<nat, Product>) {
    forall id :: id in products ==> products[id].stockQuantity >= 0
  }

  /** Placing an order never drives a stock level below zero. */
  lemma {:induction false} ReservePreservesStockNonNegative(products: map<nat, Product>, items: seq<ItemRequest>)
    requires StockNonNegative(products) && Reserve(products, items).Ok?
    ensures StockNonNegative(Reserve(products, items).value.products)
  {
    if items != [] {
      ReservePreservesStockNonNegative(products, items[..|items| - 1]);
    }
  }

  /** Each line carries the product's effective price at ordering time (its
      price fields are untouched by the earlier lines) and its subtotal is
      that price times the quantity. */
  lemma {:induction false} ReservePrices(products: map<nat, Product>, items: seq<ItemRequest>)
    requires Reserve(products, items).Ok?
    ensures forall k :: 0 <= k < |items| ==>
      && items[k].productId in products
      && Reserve(products, items).value.lines[k].price == EffectivePrice(products[items[k].productId])
      && Reserve(products, items).value.lines[k].subtotal == Reserve(products, items).value.lines[k].price * items[k].quantity
  {
    if items != [] {
      var front := items[..|items| - 1];
      var last := items[|items| - 1];
      ReservePrices(products, front);
      ReserveAccounting(products, front, last.productId);
      var rv := Reserve(products, front).value;
      var lines := Reserve(products, items).value.lines;
      assert LineRequests(rv.lines) == front;
      assert lines[..|front|] == rv.lines;
      forall k | 0 <= k < |front| ensures front[k] == items[k] && lines[k] == rv.lines[k] { }
    }
  }

  /** The order total (sum of the line subtotals) is the order's value at
      the prices in force when it was placed. */
  lemma {:induction false} ReserveTotal(products: map<nat, Product>, items: seq<ItemRequest>)
    requires Reserve(products, items).Ok?
    ensures SubtotalSum(Reserve(products, items).value.lines) == OrderValue(products, items)
  {
    if items != [] {
      var front := items[..|items| - 1];
      var last := items[|items| - 1];
      ReserveTotal(products, front);
      ReserveAccounting(products, front, last.productId);
      var rv := Reserve(products, front).value;
      var lines := Reserve(products, items).value.lines;
      assert lines[..|lines| - 1] == rv.lines;
    }
  }

  // ---------------------------------------------------------------------
  // Restoring stock: the loop of cancelOrder

  /** One pass of cancelOrder's loop: a line whose product still exists
      moves its quantity from sold back to stock; nothing else changes. */
  function RestoreOne(products: map<nat, Product>, line: OrderItem): (r: map<nat, Product>)
    ensures r.Keys == products.Keys
    ensures line.productId !in products ==> r == products
    ensures line.productId in products ==>
      && r == products[line.productId := r[line.productId]]
      && r[line.productId].stockQuantity == products[line.productId].stockQuantity + line.quantity
      && r[line.productId].soldCount == products[line.productId].soldCount - line.quantity
  {
    if line.productId in products
    then products[line.productId := Adjust(products[line.productId], line.quantity)]
    else products
  }

  /** Each line's quantity goes back from sold to stock, lines in order. */
  function Restore(products: map<nat, Product>, lines: seq<OrderItem>): (r: map<nat, Product>)
    ensures r.Keys == products.Keys
  {
    if lines == [] then products
    else RestoreOne(Restore(products, lines[..|lines| - 1]), lines[|lines| - 1])
  }

  /** Giving back a list of lines moves, for each product, the total
      quantity of its lines from sold back to stock. */
  lemma {:induction false} RestoreAccounting(products: map<nat, Product>, lines: seq<OrderItem>, id: nat)
    requires id in products
    ensures Restore(products, lines)[id] == Adjust(products[id], Requested(LineRequests(lines), id))
  {
    if lines == [] {
      AdjustCompose(products[id], 0, 0);
    } else {
      var front := lines[..|lines| - 1];
      var last := lines[|lines| - 1];
      RestoreAccounting(products, front, id);
      assert LineRequests(lines)[..|lines| - 1] == LineRequests(front);
      if last.productId == id {
        AdjustCompose(products[id], Requested(LineRequests(front), id), last.quantity);
      }
    }
  }

  /** Cancelling is the exact inverse of placing: giving back the lines of a
      successful reservation restores every product, stock and sold count,
      to what it was before the order. */
  lemma {:induction false} CancelUndoesCreate(products: map<nat, Product>, items: seq<ItemRequest>)
    requires Reserve(products, items).Ok?
    ensures Restore(Reserve(products, items).value.products, Reserve(products, items).value.lines) == products
  {
    var rv := Reserve(products, items).value;
    forall id | id in products
      ensures Restore(rv.products, rv.lines)[id] == products[id]
    {
      ReserveAccounting(products, items, id);
      RestoreAccounting(rv.products, rv.lines, id);
      AdjustCompose(products[id], -Requested(items, id), Requested(items, id));
    }
  }

  // ---------------------------------------------------------------------
  // The tables and how they hang together

  /** Every order line names a stored product (products are never removed). */
  ghost predicate Linked(products: map<nat, Product>, orders: map<nat, Order>) {
    forall id, k :: id in orders && 0 <= k < |orders[id].items| ==> orders[id].items[k].productId in products
  }

  ghost predicate UniqueOrderNumbers(orders: map<nat, Order>) {
    forall a, b :: a in orders && b in orders && orders[a].orderNumber == orders[b].orderNumber ==> a == b
  }

  predicate OrderNumberUsed(orders: map<nat, Order>, orderNumber: string) {
    exists id :: id in orders && orders[id].orderNumber == orderNumber
  }

  /** The body of createOrder's loop for one item. */
  method ReserveLine(stock: map<nat, Product>, item: ItemRequest)
    returns (r: Result<(map<nat, Product>, OrderItem), OrderError>)
    ensures r == ReserveOne(stock, item)
  {
    if item.productId !in stock {
      return Err(ProductNotFound);
    }
    var product := stock[item.productId];
    if product.stockQuantity < item.quantity {
      return Err(InsufficientStock(product.name));
    }
    var price := EffectivePrice(product);
    var subtotal := price * item.quantity;
    var line := OrderItem(item.productId, item.quantity, price, subtotal);
    product := product.(stockQuantity := product.stockQuantity - item.quantity,
                        soldCount := product.soldCount + item.quantity);
    r := Ok((stock[item.productId := product], line));
  }

  /** The loop of createOrder over the transaction's own view of the
      product table: it stops at the first item that names no product or
      asks for more than the stock it sees, and adds up the subtotals. */
  method ReserveItems(products: map<nat, Product>, items: seq<ItemRequest>)
    returns (r: Result<Reservation, OrderError>, total: Cents)
    ensures r == Reserve(products, items)
    ensures r.Ok? ==> total == SubtotalSum(r.value.lines)
  {
    var stock: map<nat, Product> := products;
    var lines: seq<OrderItem> := [];
    total := 0;
    var i := 0;
    while i < |items|
      invariant 0 <= i <= |items|
      invariant Reserve(products, items[..i]) == Ok(Reservation(stock, lines))
      invariant total == SubtotalSum(lines)
    {
      ReserveExtend(products, items, i, Reservation(stock, lines));
      var step := ReserveLine(stock, items[i]);
      if step.Err? {
        ReserveStopsAtFirstError(products, items, i + 1);
        return Err(step.error), total;
      }
      var (next, line) := step.value;
      SubtotalSumAppend(lines, line);
      lines := lines + [line];
      total := total + line.subtotal;
      stock := next;
      i := i + 1;
    }
    assert items[..i] == items;
    r := Ok(Reservation(stock, lines));
  }

  /** A reservation keeps every existing order linked, and its own lines
      name stored products. */
  lemma LinkedAfterReserve(products: map<nat, Product>, orders: map<nat, Order>, items: seq<ItemRequest>,
                           id: nat, o: Order)
    requires Linked(products, orders) && Reserve(products, items).Ok?
    requires o.items == Reserve(products, items).value.lines
    ensures Linked(Reserve(products, items).value.products, orders[id := o])
  {
    var rv := Reserve(products, items).value;
    assert forall k :: 0 <= k < |rv.lines| ==> rv.lines[k].productId == LineRequests(rv.lines)[k].productId;
  }

  lemma UniqueAfterInsert(orders: map<nat, Order>, id: nat, o: Order)
    requires UniqueOrderNumbers(orders) && id !in orders && !OrderNumberUsed(orders, o.orderNumber)
    ensures UniqueOrderNumbers(orders[id := o])
  {
  }

  /** The order createOrder stores once its items are reserved as `lines`:
      PENDING, payment PENDING, total = sum of the line subtotals, and the
      delivery and contact details copied from the request. */
  function PlacedOrder(req: CreateOrderRequest, callerId: nat, orderNumber: string, lines: seq<OrderItem>): Order {
    Order(orderNumber, callerId, lines, SubtotalSum(lines), Pending, req.paymentMethod, PaymentPending,
          req.shipping, req.customerName, req.customerPhone, req.customerEmail, req.notes)
  }

  /** createOrder.  On success the reserved product table is committed and
      the placed order is stored under a fresh id; on any error neither table
      changes (the transaction rolls back). */
  method CreateOrder(users: Table<UserEntity.User>, products: Table<Product>, orders: Table<Order>,
                     callerId: nat, req: CreateOrderRequest, orderNumber: string)
    returns (r: Result<(nat, Order), OrderError>)
    requires ValidRequest(req)
    requires products.Valid() && orders.Valid() && Linked(products.rows, orders.rows)
    requires UniqueOrderNumbers(orders.rows) && !OrderNumberUsed(orders.rows, orderNumber)
    modifies products, orders
    ensures products.Valid() && orders.Valid() && Linked(products.rows, orders.rows)
    ensures UniqueOrderNumbers(orders.rows)
    ensures callerId !in users.rows ==> r == Err(UserNotFound)
    ensures callerId in users.rows && Reserve(old(products.rows), req.items).Err? ==>
      r == Err(Reserve(old(products.rows), req.items).error)
    ensures r.Err? ==> products.rows == old(products.rows) && orders.rows == old(orders.rows)
    ensures r.Ok? ==>
      && callerId in users.rows
      && Reserve(old(products.rows), req.items).Ok?
      && products.rows == Reserve(old(products.rows), req.items).value.products
      && r.value.0 == old(orders.nextId)
      && r.value.1 == PlacedOrder(req, callerId, orderNumber, Reserve(old(products.rows), req.items).value.lines)
      && orders.rows == old(orders.rows)[r.value.0 := r.value.1]
  {
    if callerId !in users.rows {
      return Err(UserNotFound);
    }
    var reserved, total := ReserveItems(products.rows, req.items);
    if reserved.Err? {
      return Err(reserved.error);
    }
    var order := Order(orderNumber, callerId, reserved.value.lines, total, Pending, req.paymentMethod,
                       PaymentPending, req.shipping, req.customerName, req.customerPhone,
                       req.customerEmail, req.notes);
    LinkedAfterReserve(products.rows, orders.rows, req.items, orders.nextId, order);
    UniqueAfterInsert(orders.rows, orders.nextId, order);
    products.rows := reserved.value.products;
    var id := orders.Insert(order);
    r := Ok((id, order));
  }

  // ---------------------------------------------------------------------
  // Reading an order: owner or administrator only

  predicate CanAccess(o: Order, callerId: nat, caller: UserEntity.User) {
    o.userId == callerId || caller.role == UserEntity.Admin
  }

  /** getOrderById: the order must exist, then the caller must be known, and
      then the caller must own it or be an administrator. */
  function GetOrderById(orders: map<nat, Order>, users: map<nat, UserEntity.User>, id: nat, callerId: nat)
    : (r: Result<Order, OrderError>)
    ensures id !in orders ==> r == Err(OrderNotFound(id))
    ensures r.Ok? <==> id in orders && callerId in users && CanAccess(orders[id], callerId, users[callerId])
    ensures r.Ok? ==> r.value == orders[id]
    ensures id in orders && callerId in users && !CanAccess(orders[id], callerId, users[callerId]) ==>
      r == Err(AccessDenied)
  {
    if id !in orders then Err(OrderNotFound(id))
    else if callerId !in users then Err(UserNotFound)
    else if !CanAccess(orders[id], callerId, users[callerId]) then Err(AccessDenied)
    else Ok(orders[id])
  }

  function FindByOrderNumber(orders: map<nat, Order>, orderNumber: string): (r: Option<nat>)
    requires UniqueOrderNumbers(orders)
    ensures r.Some? <==> OrderNumberUsed(orders, orderNumber)
    ensures r.Some? ==> r.value in orders && orders[r.value].orderNumber == orderNumber
  {
    if OrderNumberUsed(orders, orderNumber) then
      var id :| id in orders && orders[id].orderNumber == orderNumber; Some(id)
    else None
  }

  /** getOrderByOrderNumber: the same access rule, found by order number. */
  function GetOrderByOrderNumber(orders: map<nat, Order>, users: map<nat, UserEntity.User>,
                                 orderNumber: string, callerId: nat)
    : (r: Result<Order, OrderError>)
    requires UniqueOrderNumbers(orders)
    ensures !OrderNumberUsed(orders, orderNumber) ==> r == Err(OrderNumberNotFound(orderNumber))
    ensures r.Ok? <==> exists id :: id in orders && orders[id].orderNumber == orderNumber &&
                                    callerId in users && CanAccess(orders[id], callerId, users[callerId])
    ensures r.Ok? ==> r.value.orderNumber == orderNumber && r.value in orders.Values
    ensures OrderNumberUsed(orders, orderNumber) && callerId !in users ==> r == Err(UserNotFound)
    ensures forall id :: (id in orders && orders[id].orderNumber == orderNumber && callerId in users &&
                          !CanAccess(orders[id], callerId, users[callerId])) ==> r == Err(AccessDenied)
  {
    match FindByOrderNumber(orders, orderNumber)
    case None => Err(OrderNumberNotFound(orderNumber))
    case Some(id) =>
      if callerId !in users then Err(UserNotFound)
      else if !CanAccess(orders[id], callerId, users[callerId]) then Err(AccessDenied)
      else Ok(orders[id])
  }

  // ---------------------------------------------------------------------
  // Status changes

  predicate IsCancellable(s: OrderStatus) { s == Pending || s == Confirmed }

  /** The order after updateOrderStatus: the status is whatever was asked
      for, and delivering a cash-on-delivery order settles its payment. */
  function WithStatus(o: Order, newStatus: OrderStatus): (r: Order)
    ensures r.(paymentStatus := o.paymentStatus) == o.(status := newStatus)
    ensures newStatus == Delivered && o.paymentMethod == CashOnDelivery ==> r.paymentStatus == Paid
    ensures !(newStatus == Delivered && o.paymentMethod == CashOnDelivery) ==> r.paymentStatus == o.paymentStatus
  {
    var o' := o.(status := newStatus);
    if newStatus == Delivered && o.paymentMethod == CashOnDelivery then o'.(paymentStatus := Paid) else o'
  }

  /** No predecessor is checked: a cancelled or delivered order can be set
      back to PENDING by an administrator, and is then cancellable once
      more. */
  lemma ReopenedOrderIsCancellable(o: Order)
    requires o.status == Cancelled || o.status == Delivered
    ensures !IsCancellable(o.status) && IsCancellable(WithStatus(o, Pending).status)
  {
  }

  /** updateOrderStatus: the acting user must be known, then the order must
      exist; only that order changes. */
  method UpdateOrderStatus(users: Table<UserEntity.User>, orders: Table<Order>, callerId: nat,
                           id: nat, newStatus: OrderStatus)
    returns (r: Result<Order, OrderError>)
    requires orders.Valid()
    modifies orders
    ensures orders.Valid() && orders.nextId == old(orders.nextId)
    ensures callerId !in users.rows ==> r == Err(UserNotFound)
    ensures callerId in users.rows && id !in old(orders.rows) ==> r == Err(OrderNotFound(id))
    ensures r.Err? ==> orders.rows == old(orders.rows)
    ensures r.Ok? <==> callerId in users.rows && id in old(orders.rows)
    ensures r.Ok? ==> r.value == WithStatus(old(orders.rows)[id], newStatus) &&
                      orders.rows == old(orders.rows)[id := r.value]
  {
    if callerId !in users.rows {
      return Err(UserNotFound);
    }
    if id !in orders.rows {
      return Err(OrderNotFound(id));
    }
    var order := orders.rows[id];
    order := order.(status := newStatus);
    if newStatus == Delivered && order.paymentMethod == CashOnDelivery {
      order := order.(paymentStatus := Paid);
    }
    orders.rows := orders.rows[id := order];
    r := Ok(order);
  }

  /** cancelOrder: after the access checks of getOrderById, only a PENDING or
      CONFIRMED order may be cancelled; its lines go back to stock and it
      becomes CANCELLED.  Any error changes nothing, so cancelling twice
      fails the second time without giving stock back again. */
  method CancelOrder(users: Table<UserEntity.User>, products: Table<Product>, orders: Table<Order>,
                     callerId: nat, id: nat)
    returns (r: Result<Order, OrderError>)
    requires products.Valid() && orders.Valid() && Linked(products.rows, orders.rows)
    modifies products, orders
    ensures products.Valid() && orders.Valid() && Linked(products.rows, orders.rows)
    ensures orders.nextId == old(orders.nextId) && products.nextId == old(products.nextId)
    ensures GetOrderById(old(orders.rows), users.rows, id, callerId).Err? ==>
      r == Err(GetOrderById(old(orders.rows), users.rows, id, callerId).error)
    ensures (GetOrderById(old(orders.rows), users.rows, id, callerId).Ok? &&
             !IsCancellable(old(orders.rows)[id].status)) ==>
      r == Err(CannotCancel(old(orders.rows)[id].status))
    ensures r.Err? ==> products.rows == old(products.rows) && orders.rows == old(orders.rows)
    ensures r.Ok? ==>
      && GetOrderById(old(orders.rows), users.rows, id, callerId).Ok?
      && IsCancellable(old(orders.rows)[id].status)
      && r.value == old(orders.rows)[id].(status := Cancelled)
      && orders.rows == old(orders.rows)[id := r.value]
      && products.rows == Restore(old(products.rows), r.value.items)
  {
    var found := GetOrderById(orders.rows, users.rows, id, callerId);
    if found.Err? {
      return Err(found.error);
    }
    var order := found.value;
    if order.status != Pending && order.status != Confirmed {
      return Err(CannotCancel(order.status));
    }
    order := order.(status := Cancelled);
    var stock: map<nat, Product> := products.rows;
    var i := 0;
    while i < |order.items|
      invariant 0 <= i <= |order.items|
      invariant stock == Restore(old(products.rows), order.items[..i])
    {
      var item := order.items[i];
      assert order.items[..i + 1] == order.items[..i] + [item];
      var product := stock[item.productId];
      stock := stock[item.productId := product.(stockQuantity := product.stockQuantity + item.quantity,
                                                soldCount := product.soldCount - item.quantity)];
      i := i + 1;
    }
    assert order.items[..i] == order.items;
    products.rows := stock;
    orders.rows := orders.rows[id := order];
    r := Ok(order);
  }

  // ---------------------------------------------------------------------
  // Statistics (the counting part of getOrderStatistics)

  function IdsWithStatus(orders: map<nat, Order>, s: OrderStatus): (r: set<nat>)
    ensures forall id :: id in r <==> id in orders && orders[id].status == s
  {
    set id | id in orders && orders[id].status == s
  }

  function CountWithStatus(orders: map<nat, Order>, s: OrderStatus): nat {
    |IdsWithStatus(orders, s)|
  }

  datatype OrderStats = OrderStats(total: nat, pending: nat, confirmed: nat, shipped: nat,
                                   delivered: nat, cancelled: nat)

  function OrderStatistics(orders: map<nat, Order>): (r: OrderStats)
    ensures r.total == |orders|
    ensures r.pending == CountWithStatus(orders, Pending)
    ensures r.confirmed == CountWithStatus(orders, Confirmed)
    ensures r.shipped == CountWithStatus(orders, Shipped)
    ensures r.delivered == CountWithStatus(orders, Delivered)
    ensures r.cancelled == CountWithStatus(orders, Cancelled)
    ensures r.pending + r.confirmed + r.shipped + r.delivered + r.cancelled == r.total
  {
    StatusCountsPartition(orders);
    OrderStats(|orders|, CountWithStatus(orders, Pending), CountWithStatus(orders, Confirmed),
               CountWithStatus(orders, Shipped), CountWithStatus(orders, Delivered),
               CountWithStatus(orders, Cancelled))
  }

  /** Every order has exactly one of the five statuses, so the per-status
      counts add up to the number of orders. */
  lemma StatusCountsPartition(orders: map<nat, Order>)
    ensures CountWithStatus(orders, Pending) + CountWithStatus(orders, Confirmed) +
            CountWithStatus(orders, Shipped) + CountWithStatus(orders, Delivered) +
            CountWithStatus(orders, Cancelled) == |orders|
  {
    var p := IdsWithStatus(orders, Pending);
    var c := IdsWithStatus(orders, Confirmed);
    var s := IdsWithStatus(orders, Shipped);
    var d := IdsWithStatus(orders, Delivered);
    var x := IdsWithStatus(orders, Cancelled);
    StatusSetsCover(orders);
    FiveWayPartition(orders.Keys, p, c, s, d, x);
  }

  lemma StatusSetsCover(orders: map<nat, Order>)
    ensures IdsWithStatus(orders, Pending) + IdsWithStatus(orders, Confirmed) + IdsWithStatus(orders, Shipped) +
            IdsWithStatus(orders, Delivered) + IdsWithStatus(orders, Cancelled) == orders.Keys
  {
    forall id | id in orders
      ensures id in IdsWithStatus(orders, orders[id].status)
    {
    }
  }

  /** Five pairwise disjoint sets covering `all` split its size. */
  lemma FiveWayPartition<T>(all: set<T>, a: set<T>, b: set<T>, c: set<T>, d: set<T>, e: set<T>)
    requires a + b + c + d + e == all
    requires a * b == {} && a * c == {} && a * d == {} && a * e == {}
    requires b * c == {} && b * d == {} && b * e == {}
    requires c * d == {} && c * e == {} && d * e == {}
    ensures |a| + |b| + |c| + |d| + |e| == |all|
  {
    assert (a + b) * c == {};
    assert (a + b + c) * d == {};
    assert (a + b + c + d) * e == {};
  }
}
