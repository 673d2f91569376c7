/** Checkout and the payment processor's webhook
    (backend/controllers/orderController.ts). The processor itself is a
    parameter: a function from the session request to its reply, and, for the
    webhook, the outcome of the signature check. */
module OrderController {
  import opened Common
  import opened Models
  import opened Db

  /** A restaurant's menu reference after `populate("menus")`. */
  datatype MenuDoc = MenuDoc(id: Id, menu: Menu)

  /** One line item of a hosted session; `unitAmount` is in cents. */
  datatype LineItem = LineItem(currency: string, name: string, images: seq<string>, unitAmount: int, quantity: int)

  /** The body of a checkout request. */
  datatype CheckoutRequest = CheckoutRequest(cartItems: seq<CartItem>, deliveryDetails: DeliveryDetails, restaurantId: Id)

  /** What the backend asks the processor for: the line items and the
      metadata (the new order's id and the restaurant's menu images). */
  datatype SessionRequest = SessionRequest(lineItems: seq<LineItem>, orderId: Id, images: seq<string>)

  /** The processor's answer to a session request: it throws, or it returns a
      session whose `url` may be missing. */
  datatype ProcessorReply = ProcessorError | Session(url: Option<string>)

  /** A webhook event after its signature was checked. */
  datatype WebhookEvent = WebhookEvent(eventType: string, orderId: Option<Id>, amountTotal: Option<int>)
  datatype Verification = BadSignature | Verified(event: WebhookEvent)

  const Pending := "pending"
  const Confirmed := "confirmed"
  const CheckoutCompleted := "checkout.session.completed"
  const Currency := "usd"

  /** The menus of a restaurant in the order of its `menus` array; ids whose
      menu document is gone are dropped, as `populate` drops them. */
  function Populate(ids: seq<Id>, menus: map<Id, Menu>): (docs: seq<MenuDoc>)
    ensures |docs| <= |ids|
    ensures forall d :: d in docs ==> d.id in ids && d.id in menus && d.menu == menus[d.id]
    ensures forall id :: id in ids && id in menus ==> MenuDoc(id, menus[id]) in docs
  {
    if ids == [] then []
    else if ids[0] in menus then [MenuDoc(ids[0], menus[ids[0]])] + Populate(ids[1..], menus)
    else Populate(ids[1..], menus)
  }

  /** Populating works piecewise, so the menus keep the order (and the
      repetitions) of the restaurant's `menus` array. */
  lemma {:induction false} PopulateAppend(a: seq<Id>, b: seq<Id>, menus: map<Id, Menu>)
    ensures Populate(a + b, menus) == Populate(a, menus) + Populate(b, menus)
  {
    if a == [] {
      assert a + b == b;
    } else {
      assert (a + b)[1..] == a[1..] + b;
      PopulateAppend(a[1..], b, menus);
    }
  }

  /** The restaurant's menu images, in menu order (the `images` metadata). */
  function MenuImages(docs: seq<MenuDoc>): (images: seq<string>)
    ensures |images| == |docs|
    ensures forall i :: 0 <= i < |docs| ==> images[i] == docs[i].menu.image
  {
    seq(|docs|, i requires 0 <= i < |docs| => docs[i].menu.image)
  }

  /** Some menu of the restaurant has this id. */
  predicate Resolves(docs: seq<MenuDoc>, id: Id) {
    exists j :: 0 <= j < |docs| && docs[j].id == id
  }

  /** `menuItems.find(item => item._id === id)`: the first menu with the id. */
  function FindMenu(docs: seq<MenuDoc>, id: Id): (r: Option<Menu>)
    ensures r.None? <==> !Resolves(docs, id)
    ensures r.Some? ==> exists j :: 0 <= j < |docs| && docs[j].id == id && docs[j].menu == r.value
                                   && forall k :: 0 <= k < j ==> docs[k].id != id
  {
    if docs == [] then None
    else if docs[0].id == id then Some(docs[0].menu)
    else
      var r := FindMenu(docs[1..], id);
      assert Resolves(docs[1..], id) ==> Resolves(docs, id);
      assert Resolves(docs, id) ==> Resolves(docs[1..], id) by {
        if Resolves(docs, id) {
          var j :| 0 <= j < |docs| && docs[j].id == id;
          assert docs[1..][j - 1].id == id;
        }
      }
      if r.Some? then
        var j :| 0 <= j < |docs[1..]| && docs[1..][j].id == id && docs[1..][j].menu == r.value
                 && forall k :: 0 <= k < j ==> docs[1..][k].id != id;
        assert forall k :: 0 <= k < j + 1 ==> docs[k].id != id by {
          forall k | 0 <= k < j + 1 ensures docs[k].id != id {
            if k > 0 { assert docs[k] == docs[1..][k - 1]; }
          }
        }
        assert docs[j + 1] == docs[1..][j];
        r
      else r
  }

  /** The line item for a cart line resolved to catalog menu `m`: name,
      image and unit price come from the catalog, the quantity from the cart. */
  predicate PricedFromCatalog(item: LineItem, m: Menu, line: CartItem) {
    && item.currency == Currency
    && item.name == m.name
    && item.images == [m.image]
    && item.unitAmount == m.price
    && item.quantity == line.quantity
  }

  /** `createLineItems`: one line item per cart line, in cart order, or a
      failure (the thrown "Menu item id not found") if some line names no
      menu of the restaurant. */
  function CreateLineItems(cart: seq<CartItem>, docs: seq<MenuDoc>): (r: Option<seq<LineItem>>)
    ensures r.None? <==> exists i :: 0 <= i < |cart| && !Resolves(docs, cart[i].menuId)
    ensures r.Some? ==> |r.value| == |cart|
    ensures r.Some? ==> forall i :: 0 <= i < |cart| ==>
              && FindMenu(docs, cart[i].menuId).Some?
              && PricedFromCatalog(r.value[i], FindMenu(docs, cart[i].menuId).value, cart[i])
  {
    if cart == [] then Some([])
    else
      match FindMenu(docs, cart[0].menuId)
      case None => None
      case Some(m) =>
        var rest := CreateLineItems(cart[1..], docs);
        assert forall i :: 1 <= i < |cart| ==> cart[i] == cart[1..][i - 1];
        if rest.None? then
          assert exists i :: 0 <= i < |cart[1..]| && !Resolves(docs, cart[1..][i].menuId);
          None
        else
          Some([LineItem(Currency, m.name, [m.image], m.price, cart[0].quantity)] + rest.value)
  }

  /** The order total of lines 57-58: a left fold of `price * quantity` over
      the cart, using the prices the client sent. */
  function CartTotal(cart: seq<CartItem>): (total: int)
    ensures (forall i :: 0 <= i < |cart| ==> cart[i].price >= 0 && cart[i].quantity >= 0) ==> total >= 0
    ensures (forall i :: 0 <= i < |cart| ==> cart[i].quantity == 0) ==> total == 0
  {
    if cart == [] then 0
    else CartTotal(cart[..|cart| - 1]) + cart[|cart| - 1].price * cart[|cart| - 1].quantity
  }

  /** What the processor charges for the line items: unit amount times quantity. */
  function AmountCharged(items: seq<LineItem>): int {
    if items == [] then 0 else items[0].unitAmount * items[0].quantity + AmountCharged(items[1..])
  }

  /** The cart total distributes over concatenation of carts. */
  lemma {:induction false} CartTotalAppend(a: seq<CartItem>, b: seq<CartItem>)
    ensures CartTotal(a + b) == CartTotal(a) + CartTotal(b)
    decreases |b|
  {
    if b == [] {
      assert a + b == a;
    } else {
      var b' := b[..|b| - 1];
      assert (a + b)[..|a + b| - 1] == a + b';
      assert (a + b)[|a + b| - 1] == b[|b| - 1];
      CartTotalAppend(a, b');
    }
  }

  /** The cart total read from the front: first line plus the rest. */
  lemma CartTotalCons(cart: seq<CartItem>)
    requires cart != []
    ensures CartTotal(cart) == cart[0].price * cart[0].quantity + CartTotal(cart[1..])
  {
    assert cart == [cart[0]] + cart[1..];
    CartTotalAppend([cart[0]], cart[1..]);
    assert [cart[0]][..0] == [];
  }

  /** A successful `CreateLineItems` is the first line's item followed by
      the items of the rest of the cart. */
  lemma CreateLineItemsCons(cart: seq<CartItem>, docs: seq<MenuDoc>)
    requires cart != [] && CreateLineItems(cart, docs).Some?
    ensures FindMenu(docs, cart[0].menuId).Some? && CreateLineItems(cart[1..], docs).Some?
    ensures var m := FindMenu(docs, cart[0].menuId).value;
            CreateLineItems(cart, docs).value
              == [LineItem(Currency, m.name, [m.image], m.price, cart[0].quantity)]
                 + CreateLineItems(cart[1..], docs).value
  {
  }

  /** When every cart price equals the catalog price of the menu it resolves
      to, the stored total equals what the processor charges. */
  lemma {:induction false} TotalMatchesChargeWhenPricesAgree(cart: seq<CartItem>, docs: seq<MenuDoc>)
    requires CreateLineItems(cart, docs).Some?
    requires forall i :: 0 <= i < |cart| ==> cart[i].price == FindMenu(docs, cart[i].menuId).value.price
    ensures CartTotal(cart) == AmountCharged(CreateLineItems(cart, docs).value)
  {
    if cart != [] {
      CreateLineItemsCons(cart, docs);
      var items := CreateLineItems(cart, docs).value;
      var rest := CreateLineItems(cart[1..], docs).value;
      assert items[1..] == rest;
      assert forall i :: 0 <= i < |cart[1..]| ==> cart[1..][i] == cart[i + 1];
      TotalMatchesChargeWhenPricesAgree(cart[1..], docs);
      CartTotalCons(cart);
    }
  }

  /** With a stale or forged client price the stored total and the amount
      charged differ: a line priced 10.00 by the client, 12.00 in the catalog,
      quantity 2, is stored as 2000 cents while the processor charges 2400. */
  lemma ClientPriceDecidesStoredTotal()
    ensures var docs := [MenuDoc(7, Menu("A", "", 1200, "a.png"))];
            var cart := [CartItem(7, "A", "a.png", 1000, 2)];
            && CreateLineItems(cart, docs).Some?
            && CartTotal(cart) == 2000
            && AmountCharged(CreateLineItems(cart, docs).value) == 2400
  {
  }

  /** The order built at lines 60-67, before anything is saved. */
  function PendingOrder(req: CheckoutRequest, user: Id): (o: Order)
    ensures o.status == Pending && o.totalAmount == CartTotal(req.cartItems)
    ensures o.restaurant == req.restaurantId && o.user == user
    ensures o.cartItems == req.cartItems && o.deliveryDetails == req.deliveryDetails
  {
    Order(req.restaurantId, user, req.deliveryDetails, req.cartItems, Pending, CartTotal(req.cartItems))
  }

  /** `createCheckoutSession`: resolve the restaurant, build the pending
      order, build the line items, ask the processor for a session carrying
      the order id, and save the order only once the session has a URL. */
  method CreateCheckoutSession(db: Database, caller: Id, req: CheckoutRequest,
                               processor: SessionRequest -> ProcessorReply)
    returns (reply: Reply, sent: Option<SessionRequest>)
    requires db.Valid()
    modifies db
    ensures db.Valid()
    ensures db.users == old(db.users) && db.restaurants == old(db.restaurants) && db.menus == old(db.menus)
    ensures reply.status != 200 ==> db.orders == old(db.orders) && db.nextId == old(db.nextId)
    ensures req.restaurantId !in old(db.restaurants) ==> reply == Reply(404, "Restaurant not found.") && sent.None?
    ensures req.restaurantId in old(db.restaurants) ==>
              var docs := Populate(old(db.restaurants)[req.restaurantId].menus, old(db.menus));
              var items := CreateLineItems(req.cartItems, docs);
              && (items.None? ==> reply == InternalError && sent.None?)
              && (items.Some? ==> sent == Some(SessionRequest(items.value, old(db.nextId), MenuImages(docs))))
    ensures sent.Some? ==> match processor(sent.value)
              case ProcessorError => reply == InternalError
              case Session(url) =>
                if TruthyOpt(url) then
                  && reply == Reply(200, "")
                  && db.orders == old(db.orders)[sent.value.orderId := PendingOrder(req, caller)]
                else reply == Reply(400, "Error while creating session")
  {
    sent := None;
    if req.restaurantId !in db.restaurants {
      return Reply(404, "Restaurant not found."), None;
    }
    var restaurant := db.restaurants[req.restaurantId];
    var docs := Populate(restaurant.menus, db.menus);
    // `new Order(...)` assigns an id without saving anything.
    var orderId := db.nextId;
    var order := PendingOrder(req, caller);
    var lineItems := CreateLineItems(req.cartItems, docs);
    if lineItems.None? {
      return InternalError, None;
    }
    var request := SessionRequest(lineItems.value, orderId, MenuImages(docs));
    sent := Some(request);
    var session := processor(request);
    if session.ProcessorError? {
      return InternalError, sent;
    }
    if !TruthyOpt(session.url) {
      return Reply(400, "Error while creating session"), sent;
    }
    var id := db.NewId();
    db.orders := db.orders[id := order];
    reply := Reply(200, "");
  }

  /** A completed checkout applied to an order: confirmed, and the total
      replaced by the processor's amount when that amount is truthy. */
  function Confirm(o: Order, amountTotal: Option<int>): (c: Order)
    ensures c.status == Confirmed
    ensures amountTotal.Some? && amountTotal.value != 0 ==> c.totalAmount == amountTotal.value
    ensures amountTotal.None? || amountTotal.value == 0 ==> c.totalAmount == o.totalAmount
    ensures c.restaurant == o.restaurant && c.user == o.user
    ensures c.deliveryDetails == o.deliveryDetails && c.cartItems == o.cartItems
  {
    var total := if amountTotal.Some? && amountTotal.value != 0 then amountTotal.value else o.totalAmount;
    o.(status := Confirmed, totalAmount := total)
  }

  /** The event names an existing order and completes its checkout. */
  predicate ConfirmsOrder(orders: map<Id, Order>, v: Verification) {
    && v.Verified?
    && v.event.eventType == CheckoutCompleted
    && v.event.orderId.Some?
    && v.event.orderId.value in orders
  }

  /** The order collection after the webhook handled `v`. */
  function WebhookOrders(orders: map<Id, Order>, v: Verification): (r: map<Id, Order>)
    ensures r.Keys == orders.Keys
    ensures !ConfirmsOrder(orders, v) ==> r == orders
    ensures ConfirmsOrder(orders, v) ==>
              var id := v.event.orderId.value;
              && r[id] == Confirm(orders[id], v.event.amountTotal)
              && forall other :: other in orders && other != id ==> r[other] == orders[other]
  {
    if ConfirmsOrder(orders, v) then
      var id := v.event.orderId.value;
      orders[id := Confirm(orders[id], v.event.amountTotal)]
    else orders
  }

  /** Confirming twice is confirming once: both updates are plain assignments. */
  lemma ConfirmIdempotent(o: Order, amountTotal: Option<int>)
    ensures Confirm(Confirm(o, amountTotal), amountTotal) == Confirm(o, amountTotal)
  {
  }

  /** Delivering the same event twice leaves the orders as delivering it once. */
  lemma WebhookIdempotent(orders: map<Id, Order>, v: Verification)
    ensures WebhookOrders(WebhookOrders(orders, v), v) == WebhookOrders(orders, v)
  {
  }

  /** `stripeWebhook`: check the signature, then confirm the order a
      completed checkout names. */
  method StripeWebhook(db: Database, v: Verification) returns (reply: Reply)
    requires db.Valid()
    modifies db`orders
    ensures db.Valid()
    ensures db.orders == WebhookOrders(old(db.orders), v)
    ensures v.BadSignature? ==> reply == Reply(400, "Webhook error")
    ensures v.Verified? && v.event.eventType != CheckoutCompleted ==> reply == Reply(200, "")
    ensures v.Verified? && v.event.eventType == CheckoutCompleted ==>
              if ConfirmsOrder(old(db.orders), v) then reply == Reply(200, "")
              else reply == Reply(404, "Order not found")
  {
    if v.BadSignature? {
      return Reply(400, "Webhook error");
    }
    var event := v.event;
    if event.eventType == CheckoutCompleted {
      if event.orderId.None? || event.orderId.value !in db.orders {
        return Reply(404, "Order not found");
      }
      var id := event.orderId.value;
      var order := db.orders[id];
      if event.amountTotal.Some? && event.amountTotal.value != 0 {
        order := order.(totalAmount := event.amountTotal.value);
      }
      order := order.(status := Confirmed);
      db.orders := db.orders[id := order];
    }
    reply := Reply(200, "");
  }
}
