/** `OrderService`: placing an order (user check, shipping-date rule, one
    detail line per cart item), lookup, full overwrite, soft delete, and
    the orders of one user. */
module Orders {
  import opened Wrappers
  import opened Text
  import opened Users
  import opened Products

  const DateInPast: string := "Date must be at least today !"

  function UserMissing(id: nat): string { "Cannot find user with id: " + Decimal(id) }
  function ProductMissing(id: nat): string { "Cannot find product with id: " + Decimal(id) }
  /** The message of `getOrder` (and so of `deleteOrder`). */
  function OrderMissing(id: nat): string { "Cannot find with order id: " + Decimal(id) }
  /** The message of `updateOrder`'s own lookup. */
  function OrderNotFound(id: nat): string { "Cannot find order with id: " + Decimal(id) }
  function NoOrdersOf(userId: nat): string { "Cannot find orders with user id: " + Decimal(userId) }

  /** A new order starts `Pending`; the statuses an administrator moves it
      to later are not set anywhere in this service. */
  datatype OrderStatus = Pending | LaterStatus

  /** An order row.  `orderDate` is an instant, `shippingDate` a day number;
      money is kept as an integer. */
  datatype Order = Order(
    id: nat,
    userId: nat,
    fullName: string,
    email: string,
    phoneNumber: string,
    address: string,
    note: string,
    orderDate: int,
    status: OrderStatus,
    totalMoney: int,
    shippingMethod: string,
    shippingAddress: string,
    shippingDate: Option<int>,
    paymentMethod: string,
    active: bool)

  datatype CartItem = CartItem(productId: nat, quantity: int)

  /** The request body of create and update; `shippingDate` may be null. */
  datatype OrderDTO = OrderDTO(
    userId: nat,
    fullName: string,
    email: string,
    phoneNumber: string,
    address: string,
    note: string,
    totalMoney: int,
    shippingMethod: string,
    shippingAddress: string,
    shippingDate: Option<int>,
    paymentMethod: string,
    cartItems: seq<CartItem>)

  /** One line of an order: the product, its price at ordering time and the
      quantity. */
  datatype OrderDetail = OrderDetail(id: nat, orderId: nat, productId: nat, price: int, numberOfProducts: int)

  /** The shipping date `createOrder` uses: the requested one, or today when
      none is given. */
  function ShippingDate(dto: OrderDTO, today: int): int {
    dto.shippingDate.GetOr(today)
  }

  /** `createOrder` accepts the date unless it lies before today. */
  predicate DateAccepted(dto: OrderDTO, today: int) {
    !(ShippingDate(dto, today) < today)
  }

  /** A missing date always passes and becomes today; a given date passes
      exactly when it is today or later. */
  lemma ShippingDateRule(dto: OrderDTO, today: int)
    ensures dto.shippingDate.None? ==> DateAccepted(dto, today) && ShippingDate(dto, today) == today
    ensures dto.shippingDate.Some? ==>
      (DateAccepted(dto, today) <==> dto.shippingDate.value >= today)
      && ShippingDate(dto, today) == dto.shippingDate.value
  {
  }

  /** The order `createOrder` saves, under id `id`, at instant `now`. */
  function NewOrder(dto: OrderDTO, id: nat, now: int, today: int): Order {
    Order(id, dto.userId, dto.fullName, dto.email, dto.phoneNumber, dto.address, dto.note,
          now, Pending, dto.totalMoney, dto.shippingMethod, dto.shippingAddress,
          Some(ShippingDate(dto, today)), dto.paymentMethod, true)
  }

  /** A saved order is pending and active, dated `now`, ships no earlier
      than today when the date was accepted, and carries the request's
      contact, money and shipping fields. */
  lemma NewOrderIsPending(dto: OrderDTO, id: nat, now: int, today: int)
    ensures var o := NewOrder(dto, id, now, today);
      o.id == id && o.status == Pending && o.active && o.orderDate == now
      && o.userId == dto.userId && o.totalMoney == dto.totalMoney
      && o.fullName == dto.fullName && o.email == dto.email && o.phoneNumber == dto.phoneNumber
      && o.address == dto.address && o.note == dto.note
      && o.shippingMethod == dto.shippingMethod && o.shippingAddress == dto.shippingAddress
      && o.paymentMethod == dto.paymentMethod
      && (dto.shippingDate.Some? ==> o.shippingDate == dto.shippingDate)
      && (dto.shippingDate.None? ==> o.shippingDate == Some(today))
      && (DateAccepted(dto, today) ==> o.shippingDate.value >= today)
  {
  }

  /** The detail line for one cart item and the product found for it. */
  function Line(item: CartItem, product: Product, orderId: nat, id: nat): OrderDetail {
    OrderDetail(id, orderId, product.id, product.price, item.quantity)
  }

  /** The detail lines of the cart from item `k` on, after the lines `acc`
      built for the items before it; the line for item `i` gets id
      `firstId + i`.  The first item whose product is missing fails the
      whole list. */
  function Lines(items: seq<CartItem>, products: seq<Product>, orderId: nat, firstId: nat,
                 k: nat, acc: seq<OrderDetail>): Result<seq<OrderDetail>>
    requires k <= |items|
    decreases |items| - k
  {
    if k == |items| then Ok(acc)
    else match ProductIndex(products, items[k].productId)
      case None => Err(ProductMissing(items[k].productId))
      case Some(j) =>
        Lines(items, products, orderId, firstId, k + 1,
              acc + [Line(items[k], products[j], orderId, firstId + k)])
  }

  /** The item's product is in the catalogue. */
  predicate Found(products: seq<Product>, item: CartItem) {
    ProductIndex(products, item.productId).Some?
  }

  /** When every product of the cart exists, there is one line per item,
      in cart order, with the product's id and price and the item's
      quantity. */
  lemma {:induction false} LinesSucceed(items: seq<CartItem>, products: seq<Product>, orderId: nat,
                                        firstId: nat, k: nat, acc: seq<OrderDetail>)
    requires k <= |items|
    requires forall i :: k <= i < |items| ==> Found(products, items[i])
    ensures var r := Lines(items, products, orderId, firstId, k, acc);
      r.Ok? && |r.value| == |acc| + |items| - k && r.value[..|acc|] == acc
      && forall i :: k <= i < |items| ==>
           (Found(products, items[i]) &&
            var d := r.value[|acc| + i - k];
            d.id == firstId + i && d.orderId == orderId && d.productId == items[i].productId
            && d.numberOfProducts == items[i].quantity
            && d.price == products[ProductIndex(products, items[i].productId).value].price)
    decreases |items| - k
  {
    if k < |items| {
      var j := ProductIndex(products, items[k].productId).value;
      var next := acc + [Line(items[k], products[j], orderId, firstId + k)];
      LinesSucceed(items, products, orderId, firstId, k + 1, next);
      assert Lines(items, products, orderId, firstId, k, acc) == Lines(items, products, orderId, firstId, k + 1, next);
      var r := Lines(items, products, orderId, firstId, k + 1, next).value;
      assert next[|acc|] == Line(items[k], products[j], orderId, firstId + k);
      assert r[..|acc|] == r[..|next|][..|acc|];
      assert r[|acc|] == r[..|next|][|acc|];
    } else {
      assert acc[..|acc|] == acc;
    }
  }

  /** A cart with a missing product fails with the first such item's id. */
  lemma {:induction false} LinesFailAt(items: seq<CartItem>, products: seq<Product>, orderId: nat,
                                       firstId: nat, k: nat, acc: seq<OrderDetail>, j: nat)
    requires k <= j < |items| && !Found(products, items[j])
    requires forall i :: k <= i < j ==> Found(products, items[i])
    ensures Lines(items, products, orderId, firstId, k, acc) == Err(ProductMissing(items[j].productId))
    decreases j - k
  {
    if k < j {
      var p := ProductIndex(products, items[k].productId).value;
      LinesFailAt(items, products, orderId, firstId, k + 1,
                  acc + [Line(items[k], products[p], orderId, firstId + k)], j);
    }
  }

  /** The lines come out only when every product exists. */
  lemma {:induction false} LinesNeedAll(items: seq<CartItem>, products: seq<Product>, orderId: nat,
                                        firstId: nat, k: nat, acc: seq<OrderDetail>)
    requires k <= |items|
    ensures Lines(items, products, orderId, firstId, k, acc).Ok? ==>
      forall i :: k <= i < |items| ==> Found(products, items[i])
    decreases |items| - k
  {
    if k < |items| && Found(products, items[k]) {
      var p := ProductIndex(products, items[k].productId).value;
      LinesNeedAll(items, products, orderId, firstId, k + 1,
                   acc + [Line(items[k], products[p], orderId, firstId + k)]);
    }
  }

  /** `orderRepository.findById`: the first order with id `id`. */
  function OrderIndex(orders: seq<Order>, id: nat): (r: Option<nat>)
    ensures r.Some? ==> r.value < |orders| && orders[r.value].id == id
  {
    if orders == [] then None
    else if orders[0].id == id then Some(0)
    else match OrderIndex(orders[1..], id)
      case None => None
      case Some(k) => Some(k + 1)
  }

  /** The lookup misses exactly when no order has the id. */
  lemma {:induction false} OrderIndexMisses(orders: seq<Order>, id: nat)
    ensures OrderIndex(orders, id).None? <==> forall o :: o in orders ==> o.id != id
  {
    if orders != [] {
      OrderIndexMisses(orders[1..], id);
      assert forall o :: o in orders ==> o == orders[0] || o in orders[1..];
    }
  }

  /** Rewriting the order found at `i` with one of the same id keeps the
      lookup pointing at it. */
  lemma {:induction false} OrderIndexUpdate(orders: seq<Order>, id: nat, x: Order)
    requires OrderIndex(orders, id).Some? && x.id == id
    ensures var i := OrderIndex(orders, id).value; OrderIndex(orders[i := x], id) == Some(i)
  {
    var i := OrderIndex(orders, id).value;
    if i > 0 {
      assert orders[i := x][1..] == orders[1..][i - 1 := x];
      OrderIndexUpdate(orders[1..], id, x);
    }
  }

  /** `updateOrder`'s setters: every field of the request overwrites the
      stored one, the shipping date included and whatever its value; id,
      order date, status and the active flag stay. */
  function Overwritten(o: Order, dto: OrderDTO): Order {
    o.(userId := dto.userId, fullName := dto.fullName, email := dto.email,
       phoneNumber := dto.phoneNumber, address := dto.address, note := dto.note,
       totalMoney := dto.totalMoney, shippingMethod := dto.shippingMethod,
       shippingAddress := dto.shippingAddress, shippingDate := dto.shippingDate,
       paymentMethod := dto.paymentMethod)
  }

  /** Overwriting is a full replacement: the result does not depend on the
      order's previous contact or shipping fields, and repeating it changes
      nothing. */
  lemma OverwriteForgetsOld(o: Order, p: Order, dto: OrderDTO)
    requires o.id == p.id && o.orderDate == p.orderDate && o.status == p.status && o.active == p.active
    ensures Overwritten(o, dto) == Overwritten(p, dto)
    ensures Overwritten(Overwritten(o, dto), dto) == Overwritten(o, dto)
  {
  }

  /** No date rule on update: a date before today is stored as given. */
  lemma UpdateKeepsAnyDate(o: Order, dto: OrderDTO, today: int)
    requires dto.shippingDate.Some? && dto.shippingDate.value < today
    ensures Overwritten(o, dto).shippingDate == dto.shippingDate
    ensures !DateAccepted(dto, today)
  {
  }

  /** `orderRepository.findByUserId`: user `u`'s orders, in table order. */
  function OrdersOf(orders: seq<Order>, u: nat): (r: seq<Order>)
    ensures |r| <= |orders|
  {
    if orders == [] then []
    else if orders[0].userId == u then [orders[0]] + OrdersOf(orders[1..], u)
    else OrdersOf(orders[1..], u)
  }

  /** Exactly the user's orders. */
  lemma {:induction false} OrdersOfMembers(orders: seq<Order>, u: nat)
    ensures forall o :: o in OrdersOf(orders, u) <==> o in orders && o.userId == u
  {
    if orders != [] {
      OrdersOfMembers(orders[1..], u);
      assert orders == [orders[0]] + orders[1..];
    }
  }

  /** Soft delete does not take an order out of its user's list. */
  lemma {:induction false} OrdersOfDeactivate(orders: seq<Order>, i: nat, u: nat)
    requires i < |orders|
    ensures |OrdersOf(orders[i := orders[i].(active := false)], u)| == |OrdersOf(orders, u)|
  {
    if i > 0 {
      assert orders[i := orders[i].(active := false)][1..] == orders[1..][i - 1 := orders[i].(active := false)];
      OrdersOfDeactivate(orders[1..], i - 1, u);
    } else {
      assert orders[i := orders[i].(active := false)][1..] == orders[1..];
    }
  }

  /** `OrderService` over the order and order-detail tables with their next
      ids; users and products are read through their services. */
  class OrderService {
    var orders: seq<Order>
    var details: seq<OrderDetail>
    var nextOrderId: nat
    var nextDetailId: nat
    const userService: UserService
    const productService: ProductService

    ghost predicate Valid()
      reads this
    {
      (forall i :: 0 <= i < |orders| ==> orders[i].id < nextOrderId)
      && (forall i :: 0 <= i < |details| ==> details[i].id < nextDetailId)
    }

    constructor (userService: UserService, productService: ProductService)
      ensures Valid() && orders == [] && details == [] && nextOrderId == 0 && nextDetailId == 0
      ensures this.userService == userService && this.productService == productService
    {
      orders := [];
      details := [];
      nextOrderId := 0;
      nextDetailId := 0;
      this.userService := userService;
      this.productService := productService;
    }

    /** `getOrder`. */
    function GetOrder(id: nat): (r: Result<Order>)
      reads this
      ensures r.Ok? <==> exists o :: o in orders && o.id == id
      ensures r.Ok? ==> r.value in orders && r.value.id == id
      ensures r.Err? ==> r.error == OrderMissing(id)
    {
      OrderIndexMisses(orders, id);
      match OrderIndex(orders, id)
      case None => Err(OrderMissing(id))
      case Some(i) => Ok(orders[i])
    }

    /** `findByUserId`: the user's orders, or a failure when there are none. */
    function FindByUserId(userId: nat): (r: Result<seq<Order>>)
      reads this
      ensures r.Err? <==> forall o :: o in orders ==> o.userId != userId
      ensures r.Err? ==> r.error == NoOrdersOf(userId)
      ensures r.Ok? ==> r.value != [] && forall o :: o in r.value <==> o in orders && o.userId == userId
    {
      OrdersOfMembers(orders, userId);
      var mine := OrdersOf(orders, userId);
      if mine == [] then Err(NoOrdersOf(userId))
      else assert mine[0] in mine; Ok(mine)
    }

    /** The loop of `createOrder`: looks up each cart item's product and
        builds its detail line; the first missing product fails. */
    method CollectLines(items: seq<CartItem>, orderId: nat, firstId: nat)
      returns (r: Result<seq<OrderDetail>>)
      ensures r == Lines(items, productService.products, orderId, firstId, 0, [])
    {
      var lines: seq<OrderDetail> := [];
      var k := 0;
      while k < |items|
        invariant k <= |items|
        invariant Lines(items, productService.products, orderId, firstId, k, lines)
                  == Lines(items, productService.products, orderId, firstId, 0, [])
      {
        var found := ProductIndex(productService.products, items[k].productId);
        if found.None? {
          return Err(ProductMissing(items[k].productId));
        }
        lines := lines + [Line(items[k], productService.products[found.value], orderId, firstId + k)];
        k := k + 1;
      }
      r := Ok(lines);
    }

    /** `createOrder`, with `now` the clock's instant and `today` its day.
        The order is saved before the cart is read, so a missing product
        fails the call after the order is stored and before any line is. */
    method CreateOrder(dto: OrderDTO, now: int, today: int) returns (r: Result<Order>)
      requires Valid()
      modifies this
      ensures Valid()
      ensures IndexById(userService.users, dto.userId).None? ==>
        r == Err(UserMissing(dto.userId))
        && orders == old(orders) && nextOrderId == old(nextOrderId)
        && details == old(details) && nextDetailId == old(nextDetailId)
      ensures IndexById(userService.users, dto.userId).Some? && !DateAccepted(dto, today) ==>
        r == Err(DateInPast)
        && orders == old(orders) && nextOrderId == old(nextOrderId)
        && details == old(details) && nextDetailId == old(nextDetailId)
      ensures IndexById(userService.users, dto.userId).Some? && DateAccepted(dto, today) ==>
        var o := NewOrder(dto, old(nextOrderId), now, today);
        var lines := Lines(dto.cartItems, productService.products, o.id, old(nextDetailId), 0, []);
        orders == old(orders) + [o] && nextOrderId == old(nextOrderId) + 1
        && (lines.Err? ==> r == Err(lines.error)
                           && details == old(details) && nextDetailId == old(nextDetailId))
        && (lines.Ok? ==> r == Ok(o) && details == old(details) + lines.value
                          && nextDetailId == old(nextDetailId) + |lines.value|)
    {
      if IndexById(userService.users, dto.userId).None? {
        return Err(UserMissing(dto.userId));
      }
      if ShippingDate(dto, today) < today {
        return Err(DateInPast);
      }
      var order := NewOrder(dto, nextOrderId, now, today);
      orders := orders + [order];
      nextOrderId := nextOrderId + 1;
      var lines := CollectLines(dto.cartItems, order.id, nextDetailId);
      if lines.Err? {
        return Err(lines.error);
      }
      SavedLines(dto.cartItems, productService.products, order.id, nextDetailId);
      details := details + lines.value;
      nextDetailId := nextDetailId + |lines.value|;
      r := Ok(order);
    }

    /** `updateOrder`.  The order must exist, then the user; as written,
        the message for a missing user names the order's id. */
    method UpdateOrder(id: nat, dto: OrderDTO) returns (r: Result<Order>)
      requires Valid()
      modifies this
      ensures Valid() && details == old(details)
      ensures nextOrderId == old(nextOrderId) && nextDetailId == old(nextDetailId)
      ensures old(GetOrder(id)).Err? ==> r == Err(OrderNotFound(id)) && orders == old(orders)
      ensures old(GetOrder(id)).Ok? && IndexById(userService.users, dto.userId).None? ==>
        r == Err(UserMissing(id)) && orders == old(orders)
      ensures old(GetOrder(id)).Ok? && IndexById(userService.users, dto.userId).Some? ==>
        var i := OrderIndex(old(orders), id).value;
        r == Ok(Overwritten(old(orders)[i], dto)) && orders == old(orders)[i := r.value]
        && GetOrder(id) == r
    {
      var found := OrderIndex(orders, id);
      if found.None? {
        return Err(OrderNotFound(id));
      }
      if IndexById(userService.users, dto.userId).None? {
        return Err(UserMissing(id));
      }
      var i := found.value;
      var updated := Overwritten(orders[i], dto);
      OrderIndexUpdate(orders, id, updated);
      orders := orders[i := updated];
      r := Ok(updated);
    }

    /** `deleteOrder`: a soft delete.  The order stays, inactive, and is
        still found by id. */
    method DeleteOrder(id: nat) returns (r: Result<()>)
      requires Valid()
      modifies this
      ensures Valid() && details == old(details)
      ensures nextOrderId == old(nextOrderId) && nextDetailId == old(nextDetailId)
      ensures old(GetOrder(id)).Err? ==> r == Err(OrderMissing(id)) && orders == old(orders)
      ensures old(GetOrder(id)).Ok? ==>
        var i := OrderIndex(old(orders), id).value;
        r == Ok(()) && orders == old(orders)[i := old(orders)[i].(active := false)]
        && GetOrder(id) == Ok(old(GetOrder(id)).value.(active := false))
    {
      var found := OrderIndex(orders, id);
      if found.None? {
        return Err(OrderMissing(id));
      }
      var i := found.value;
      OrderIndexUpdate(orders, id, orders[i].(active := false));
      orders := orders[i := orders[i].(active := false)];
      r := Ok(());
    }
  }

  /** The lines saved for a cart carry ids from `firstId` on and belong to
      the new order. */
  lemma SavedLines(items: seq<CartItem>, products: seq<Product>, orderId: nat, firstId: nat)
    requires Lines(items, products, orderId, firstId, 0, []).Ok?
    ensures var ls := Lines(items, products, orderId, firstId, 0, []).value;
      |ls| == |items|
      && forall i :: 0 <= i < |items| ==>
           ls[i].id == firstId + i && ls[i].orderId == orderId && ls[i].productId == items[i].productId
  {
    LinesNeedAll(items, products, orderId, firstId, 0, []);
    LinesSucceed(items, products, orderId, firstId, 0, []);
    var ls := Lines(items, products, orderId, firstId, 0, []).value;
    forall i | 0 <= i < |items|
      ensures ls[i].id == firstId + i && ls[i].orderId == orderId && ls[i].productId == items[i].productId
    {
      assert Found(products, items[i]);
    }
  }
}
