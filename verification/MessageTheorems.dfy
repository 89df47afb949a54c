/** What decoding the bytes of a message gives back, at every nesting level. */
module MessageTheorems {
  import opened Wrappers
  import opened MachineInts
  import opened Wire
  import opened DecodeLoop
  import opened Messages

  // ---------- What a writer can write, and what a reader can take ----------

  /** Every length prefix fits in 32 bits; otherwise the writer throws. */
  predicate FitsText(t: text) { |t| < TWO_32 }

  predicate FitsCartItem(m: CartItem) { FitsText(m.productId) }

  predicate FitsCart(m: Cart) {
    FitsText(m.userId) && forall v | v in m.items :: FitsCartItem(v) && |EncodeCartItem(v)| < TWO_32
  }

  predicate FitsAddress(m: Address) {
    FitsText(m.streetAddress) && FitsText(m.city) && FitsText(m.state) && FitsText(m.country) && FitsText(m.zipCode)
  }

  predicate FitsMoney(m: Money) { FitsText(m.currencyCode) }

  predicate FitsCreditCard(m: CreditCardInfo) { FitsText(m.creditCardNumber) }

  predicate FitsOrderItem(m: OrderItem) {
    && (m.item.Some? ==> FitsCartItem(m.item.value) && |EncodeCartItem(m.item.value)| < TWO_32)
    && (m.cost.Some? ==> FitsMoney(m.cost.value) && |EncodeMoney(m.cost.value)| < TWO_32)
  }

  predicate FitsOrderResult(m: OrderResult) {
    && FitsText(m.orderId) && FitsText(m.shippingTrackingId)
    && (m.shippingCost.Some? ==> FitsMoney(m.shippingCost.value) && |EncodeMoney(m.shippingCost.value)| < TWO_32)
    && (m.shippingAddress.Some? ==>
          FitsAddress(m.shippingAddress.value) && |EncodeAddress(m.shippingAddress.value)| < TWO_32)
    && forall v | v in m.items :: FitsOrderItem(v) && |EncodeOrderItem(v)| < TWO_32
  }

  predicate FitsConfirmation(m: SendOrderConfirmationRequest) {
    && FitsText(m.email)
    && (m.order.Some? ==> FitsOrderResult(m.order.value) && |EncodeOrderResult(m.order.value)| < TWO_32)
  }

  predicate FitsPlaceOrder(m: PlaceOrderRequest) {
    && FitsText(m.userId) && FitsText(m.userCurrency) && FitsText(m.email)
    && (m.address.Some? ==> FitsAddress(m.address.value) && |EncodeAddress(m.address.value)| < TWO_32)
    && (m.creditCard.Some? ==>
          FitsCreditCard(m.creditCard.value) && |EncodeCreditCardInfo(m.creditCard.value)| < TWO_32)
  }

  /** Every amount in the message is one a JavaScript number holds exactly. */
  predicate SafeMoney(m: Money) { IsSafeInteger(m.units) }

  predicate SafeOrderItem(m: OrderItem) { m.cost.Some? ==> SafeMoney(m.cost.value) }

  predicate SafeOrderItems(items: seq<OrderItem>) { forall v | v in items :: SafeOrderItem(v) }

  predicate SafeOrderResult(m: OrderResult) {
    (m.shippingCost.Some? ==> SafeMoney(m.shippingCost.value)) && SafeOrderItems(m.items)
  }

  predicate SafeConfirmation(m: SendOrderConfirmationRequest) { m.order.Some? ==> SafeOrderResult(m.order.value) }

  // ---------- Shallow merge ----------

  /** Section "Last One Wins" for a scalar the writer leaves out when it is the default. */
  function Later<T(==)>(a: T, b: T, unset: T): T {
    if b != unset then b else a
  }

  function MergeCartItem(a: CartItem, b: CartItem): CartItem {
    CartItem(Later(a.productId, b.productId, []), Later(a.quantity, b.quantity, 0))
  }

  function MergeCart(a: Cart, b: Cart): Cart {
    Cart(Later(a.userId, b.userId, []), a.items + b.items)
  }

  function MergeAddress(a: Address, b: Address): Address {
    Address(Later(a.streetAddress, b.streetAddress, []), Later(a.city, b.city, []), Later(a.state, b.state, []),
            Later(a.country, b.country, []), Later(a.zipCode, b.zipCode, []))
  }

  function MergeMoney(a: Money, b: Money): Money {
    Money(Later(a.currencyCode, b.currencyCode, []), Later(a.units, b.units, 0), Later(a.nanos, b.nanos, 0))
  }

  function MergeCreditCard(a: CreditCardInfo, b: CreditCardInfo): CreditCardInfo {
    CreditCardInfo(
      Later(a.creditCardNumber, b.creditCardNumber, []), Later(a.creditCardCvv, b.creditCardCvv, 0),
      Later(a.creditCardExpirationYear, b.creditCardExpirationYear, 0),
      Later(a.creditCardExpirationMonth, b.creditCardExpirationMonth, 0))
  }

  function MergeOrderItem(a: OrderItem, b: OrderItem): OrderItem {
    OrderItem(Later(a.item, b.item, None), Later(a.cost, b.cost, None))
  }

  function MergeOrderResult(a: OrderResult, b: OrderResult): OrderResult {
    OrderResult(
      Later(a.orderId, b.orderId, []), Later(a.shippingTrackingId, b.shippingTrackingId, []),
      Later(a.shippingCost, b.shippingCost, None), Later(a.shippingAddress, b.shippingAddress, None),
      a.items + b.items)
  }

  function MergeConfirmation(a: SendOrderConfirmationRequest, b: SendOrderConfirmationRequest)
    : SendOrderConfirmationRequest
  {
    SendOrderConfirmationRequest(Later(a.email, b.email, []), Later(a.order, b.order, None))
  }

  function MergePlaceOrder(a: PlaceOrderRequest, b: PlaceOrderRequest): PlaceOrderRequest {
    PlaceOrderRequest(
      Later(a.userId, b.userId, []), Later(a.userCurrency, b.userCurrency, []),
      Later(a.address, b.address, None), Later(a.email, b.email, []), Later(a.creditCard, b.creditCard, None))
  }

  // ---------- The bytes of a message merge it into whatever was there ----------

  /** An int32 field as the loop lemmas see one. */
  function ReadInt32(s: seq<byte>): Parse<int64> {
    var (v, t) :- Int32(s);
    Got(v, t)
  }

  lemma Int32FieldCarries<M(!new)>(h: Handler<M>, tag: nat, v: int32, m: M, m': M)
    requires Shrinks(h) && 0 < tag < TWO_32
    requires v == 0 ==> m == m'
    requires v != 0 ==> forall s | Int32(s).Got? && Int32(s).value == v :: h(m, tag, s) == Done(m', Int32(s).rest)
    ensures Carries(h, IntField(tag, v), m, m')
  {
    forall rest: seq<byte>
      ensures ReadInt32(EncSigned(v) + rest) == Got(v, rest)
    {
      SignedInverse(v, rest);
    }
    IntFieldRuns(h, tag, v, ReadInt32, m, Some(m'));
  }

  lemma CartItemCarries(b: CartItem, m: CartItem)
    requires FitsCartItem(m)
    ensures Carries(CartItemField, EncodeCartItem(m), b, MergeCartItem(b, m))
  {
    var b1 := b.(productId := Later(b.productId, m.productId, []));
    StringFieldCarries(CartItemField, 10, m.productId, b, b1);
    Int32FieldCarries(CartItemField, 16, m.quantity, b1, MergeCartItem(b, m));
    CarriesConcat(CartItemField, StringField(10, m.productId), IntField(16, m.quantity), b, b1, MergeCartItem(b, m));
  }

  lemma AddressCarries(b: Address, m: Address)
    requires FitsAddress(m)
    ensures Carries(AddressField, EncodeAddress(m), b, MergeAddress(b, m))
  {
    var b1 := b.(streetAddress := Later(b.streetAddress, m.streetAddress, []));
    var b2 := b1.(city := Later(b.city, m.city, []));
    var b3 := b2.(state := Later(b.state, m.state, []));
    var b4 := b3.(country := Later(b.country, m.country, []));
    var b5 := MergeAddress(b, m);
    var f1, f2, f3 := StringField(10, m.streetAddress), StringField(18, m.city), StringField(26, m.state);
    var f4, f5 := StringField(34, m.country), StringField(42, m.zipCode);
    StringFieldCarries(AddressField, 10, m.streetAddress, b, b1);
    StringFieldCarries(AddressField, 18, m.city, b1, b2);
    CarriesConcat(AddressField, f1, f2, b, b1, b2);
    StringFieldCarries(AddressField, 26, m.state, b2, b3);
    CarriesConcat(AddressField, f1 + f2, f3, b, b2, b3);
    StringFieldCarries(AddressField, 34, m.country, b3, b4);
    CarriesConcat(AddressField, f1 + f2 + f3, f4, b, b3, b4);
    StringFieldCarries(AddressField, 42, m.zipCode, b4, b5);
    CarriesConcat(AddressField, f1 + f2 + f3 + f4, f5, b, b4, b5);
  }

  lemma CreditCardCarries(b: CreditCardInfo, m: CreditCardInfo)
    requires FitsCreditCard(m)
    ensures Carries(CreditCardField, EncodeCreditCardInfo(m), b, MergeCreditCard(b, m))
  {
    var b1 := b.(creditCardNumber := Later(b.creditCardNumber, m.creditCardNumber, []));
    var b2 := b1.(creditCardCvv := Later(b.creditCardCvv, m.creditCardCvv, 0));
    var b3 := b2.(creditCardExpirationYear := Later(b.creditCardExpirationYear, m.creditCardExpirationYear, 0));
    var b4 := MergeCreditCard(b, m);
    var f1, f2 := StringField(10, m.creditCardNumber), IntField(16, m.creditCardCvv);
    var f3, f4 := IntField(24, m.creditCardExpirationYear), IntField(32, m.creditCardExpirationMonth);
    StringFieldCarries(CreditCardField, 10, m.creditCardNumber, b, b1);
    Int32FieldCarries(CreditCardField, 16, m.creditCardCvv, b1, b2);
    CarriesConcat(CreditCardField, f1, f2, b, b1, b2);
    Int32FieldCarries(CreditCardField, 24, m.creditCardExpirationYear, b2, b3);
    CarriesConcat(CreditCardField, f1 + f2, f3, b, b2, b3);
    Int32FieldCarries(CreditCardField, 32, m.creditCardExpirationMonth, b3, b4);
    CarriesConcat(CreditCardField, f1 + f2 + f3, f4, b, b3, b4);
  }

  lemma UnitsRun(v: int64, b: Money)
    ensures Runs(MoneyField, IntField(16, v), b,
                 if IsSafeInteger(v) then Some(b.(units := Later(b.units, v, 0))) else None)
  {
    forall rest: seq<byte>
      ensures SafeInt64(EncSigned(v) + rest) == if IsSafeInteger(v) then Got(v, rest) else Fail
    {
      SignedInverse(v, rest);
    }
    IntFieldRuns(MoneyField, 16, v, SafeInt64, b,
                 if IsSafeInteger(v) then Some(b.(units := Later(b.units, v, 0))) else None);
  }

  lemma MoneyRuns(b: Money, m: Money)
    requires FitsMoney(m)
    ensures Runs(MoneyField, EncodeMoney(m), b, if SafeMoney(m) then Some(MergeMoney(b, m)) else None)
  {
    var b1 := b.(currencyCode := Later(b.currencyCode, m.currencyCode, []));
    var b2 := b1.(units := Later(b.units, m.units, 0));
    var r2 := if SafeMoney(m) then Some(b2) else None;
    StringFieldCarries(MoneyField, 10, m.currencyCode, b, b1);
    UnitsRun(m.units, b1);
    RunsConcat(MoneyField, StringField(10, m.currencyCode), IntField(16, m.units), b, Some(b1), r2);
    Int32FieldCarries(MoneyField, 24, m.nanos, b2, MergeMoney(b, m));
    RunsConcat(MoneyField, StringField(10, m.currencyCode) + IntField(16, m.units), IntField(24, m.nanos), b, r2,
               Some(MergeMoney(b, m)));
  }

  lemma {:induction false} CartItemsCarry(b: Cart, items: seq<CartItem>)
    requires forall v | v in items :: FitsCartItem(v) && |EncodeCartItem(v)| < TWO_32
    ensures Carries(CartField, EncodeCartItems(items), b, b.(items := b.items + items))
  {
    hide EncodeCartItem, FitsCartItem, EncVarint;
    if items == [] {
      EmptyCarries(CartField, b);
      assert b.items + items == b.items;
    } else {
      var front, v := items[..|items| - 1], items[|items| - 1];
      CartItemsCarry(b, front);
      var b1, b2 := b.(items := b.items + front), b.(items := b.items + items);
      assert b.items + front + [v] == b.items + items;
      CartItemCarries(BASE_CART_ITEM, v);
      MessageFieldRuns(CartField, CartItemField, 18, Some(EncodeCartItem(v)), BASE_CART_ITEM, Some(v), b1, b2);
      CarriesConcat(CartField, EncodeCartItems(front), MessageField(18, Some(EncodeCartItem(v))), b, b1, b2);
    }
  }

  lemma CartCarries(b: Cart, m: Cart)
    requires FitsCart(m)
    ensures Carries(CartField, EncodeCart(m), b, MergeCart(b, m))
  {
    var b1 := b.(userId := Later(b.userId, m.userId, []));
    StringFieldCarries(CartField, 10, m.userId, b, b1);
    CartItemsCarry(b1, m.items);
    CarriesConcat(CartField, StringField(10, m.userId), EncodeCartItems(m.items), b, b1, MergeCart(b, m));
  }

  lemma OrderItemRuns(b: OrderItem, m: OrderItem)
    requires FitsOrderItem(m)
    ensures Runs(OrderItemField, EncodeOrderItem(m), b, if SafeOrderItem(m) then Some(MergeOrderItem(b, m)) else None)
  {
    var b1 := b.(item := Later(b.item, m.item, None));
    if m.item.Some? {
      CartItemCarries(BASE_CART_ITEM, m.item.value);
    }
    MessageFieldRuns(OrderItemField, CartItemField, 10, Encoded(m.item, EncodeCartItem), BASE_CART_ITEM, m.item, b, b1);
    if m.cost.Some? {
      MoneyRuns(BASE_MONEY, m.cost.value);
    }
    var cost := if SafeOrderItem(m) then m.cost else None;
    MessageFieldRuns(
      OrderItemField, MoneyField, 18, Encoded(m.cost, EncodeMoney), BASE_MONEY, cost, b1, MergeOrderItem(b, m));
    RunsConcat(OrderItemField, MessageField(10, Encoded(m.item, EncodeCartItem)),
               MessageField(18, Encoded(m.cost, EncodeMoney)), b, Some(b1),
               if SafeOrderItem(m) then Some(MergeOrderItem(b, m)) else None);
  }

  lemma OneOrderItemRuns(b: OrderResult, v: OrderItem)
    requires FitsOrderItem(v) && |EncodeOrderItem(v)| < TWO_32
    ensures Runs(OrderResultField, MessageField(42, Some(EncodeOrderItem(v))), b,
                 if SafeOrderItem(v) then Some(b.(items := b.items + [v])) else None)
  {
    OrderItemRuns(BASE_ORDER_ITEM, v);
    var r := if SafeOrderItem(v) then Some(v) else None;
    MessageFieldRuns(OrderResultField, OrderItemField, 42, Some(EncodeOrderItem(v)), BASE_ORDER_ITEM, r, b,
                     b.(items := b.items + [v]));
  }

  lemma {:induction false} OrderItemsRun(b: OrderResult, items: seq<OrderItem>)
    requires forall v | v in items :: FitsOrderItem(v) && |EncodeOrderItem(v)| < TWO_32
    ensures Runs(OrderResultField, EncodeOrderItems(items), b,
                 if SafeOrderItems(items) then Some(b.(items := b.items + items)) else None)
  {
    if items == [] {
      EmptyCarries(OrderResultField, b);
      assert b.items + items == b.items;
    } else {
      var front, v := items[..|items| - 1], items[|items| - 1];
      assert SafeOrderItems(items) <==> SafeOrderItems(front) && SafeOrderItem(v) by {
        assert items == front + [v];
      }
      var b1, b2 := b.(items := b.items + front), b.(items := b.items + items);
      assert b.items + front + [v] == b.items + items;
      OrderItemsRun(b, front);
      OneOrderItemRuns(b1, v);
      RunsConcat(OrderResultField, EncodeOrderItems(front), MessageField(42, Some(EncodeOrderItem(v))), b,
                 if SafeOrderItems(front) then Some(b1) else None, if SafeOrderItem(v) then Some(b2) else None);
    }
  }

  lemma OrderResultRuns(b: OrderResult, m: OrderResult)
    requires FitsOrderResult(m)
    ensures Runs(OrderResultField, EncodeOrderResult(m), b,
                 if SafeOrderResult(m) then Some(MergeOrderResult(b, m)) else None)
  {
    var b1 := b.(orderId := Later(b.orderId, m.orderId, []));
    var b2 := b1.(shippingTrackingId := Later(b.shippingTrackingId, m.shippingTrackingId, []));
    var b3 := b2.(shippingCost := Later(b.shippingCost, m.shippingCost, None));
    var b4 := b3.(shippingAddress := Later(b.shippingAddress, m.shippingAddress, None));
    var costSafe := m.shippingCost.Some? ==> SafeMoney(m.shippingCost.value);
    var f1, f2 := StringField(10, m.orderId), StringField(18, m.shippingTrackingId);
    var f3 := MessageField(26, Encoded(m.shippingCost, EncodeMoney));
    var f4 := MessageField(34, Encoded(m.shippingAddress, EncodeAddress));
    StringFieldCarries(OrderResultField, 10, m.orderId, b, b1);
    StringFieldCarries(OrderResultField, 18, m.shippingTrackingId, b1, b2);
    CarriesConcat(OrderResultField, f1, f2, b, b1, b2);
    ShippingCostRuns(m.shippingCost, b2);
    RunsConcat(OrderResultField, f1 + f2, f3, b, Some(b2), if costSafe then Some(b3) else None);
    ShippingAddressCarries(m.shippingAddress, b3);
    RunsConcat(OrderResultField, f1 + f2 + f3, f4, b, if costSafe then Some(b3) else None, Some(b4));
    OrderItemsRun(b4, m.items);
    RunsConcat(OrderResultField, f1 + f2 + f3 + f4, EncodeOrderItems(m.items), b,
               if costSafe then Some(b4) else None,
               if SafeOrderItems(m.items) then Some(MergeOrderResult(b, m)) else None);
  }

  lemma ShippingCostRuns(cost: Option<Money>, b: OrderResult)
    requires cost.Some? ==> FitsMoney(cost.value) && |EncodeMoney(cost.value)| < TWO_32
    ensures Runs(OrderResultField, MessageField(26, Encoded(cost, EncodeMoney)), b,
                 if cost.Some? ==> SafeMoney(cost.value)
                 then Some(b.(shippingCost := Later(b.shippingCost, cost, None))) else None)
  {
    if cost.Some? {
      MoneyRuns(BASE_MONEY, cost.value);
    }
    var n := if cost.Some? && SafeMoney(cost.value) then cost else None;
    MessageFieldRuns(OrderResultField, MoneyField, 26, Encoded(cost, EncodeMoney), BASE_MONEY, n, b,
                     b.(shippingCost := Later(b.shippingCost, cost, None)));
  }

  lemma ShippingAddressCarries(address: Option<Address>, b: OrderResult)
    requires address.Some? ==> FitsAddress(address.value) && |EncodeAddress(address.value)| < TWO_32
    ensures Carries(OrderResultField, MessageField(34, Encoded(address, EncodeAddress)), b,
                    b.(shippingAddress := Later(b.shippingAddress, address, None)))
  {
    if address.Some? {
      AddressCarries(BASE_ADDRESS, address.value);
    }
    MessageFieldRuns(OrderResultField, AddressField, 34, Encoded(address, EncodeAddress), BASE_ADDRESS, address, b,
                     b.(shippingAddress := Later(b.shippingAddress, address, None)));
  }

  lemma ConfirmationRuns(b: SendOrderConfirmationRequest, m: SendOrderConfirmationRequest)
    requires FitsConfirmation(m)
    ensures Runs(ConfirmationField, EncodeConfirmation(m), b,
                 if SafeConfirmation(m) then Some(MergeConfirmation(b, m)) else None)
  {
    var b1 := b.(email := Later(b.email, m.email, []));
    StringFieldCarries(ConfirmationField, 10, m.email, b, b1);
    if m.order.Some? {
      OrderResultRuns(BASE_ORDER_RESULT, m.order.value);
      assert MergeOrderResult(BASE_ORDER_RESULT, m.order.value) == m.order.value;
    }
    var order := if SafeConfirmation(m) then m.order else None;
    MessageFieldRuns(ConfirmationField, OrderResultField, 18, Encoded(m.order, EncodeOrderResult), BASE_ORDER_RESULT,
                     order, b1, MergeConfirmation(b, m));
    RunsConcat(ConfirmationField, StringField(10, m.email), MessageField(18, Encoded(m.order, EncodeOrderResult)), b,
               Some(b1), if SafeConfirmation(m) then Some(MergeConfirmation(b, m)) else None);
  }

  lemma PlaceOrderCarries(b: PlaceOrderRequest, m: PlaceOrderRequest)
    requires FitsPlaceOrder(m)
    ensures Carries(PlaceOrderField, EncodePlaceOrder(m), b, MergePlaceOrder(b, m))
  {
    var b1 := b.(userId := Later(b.userId, m.userId, []));
    var b2 := b1.(userCurrency := Later(b.userCurrency, m.userCurrency, []));
    var b3 := b2.(address := Later(b.address, m.address, None));
    var b4 := b3.(email := Later(b.email, m.email, []));
    var b5 := MergePlaceOrder(b, m);
    var f1, f2, f4 := StringField(10, m.userId), StringField(18, m.userCurrency), StringField(42, m.email);
    var f3 := MessageField(26, Encoded(m.address, EncodeAddress));
    var f5 := MessageField(50, Encoded(m.creditCard, EncodeCreditCardInfo));
    StringFieldCarries(PlaceOrderField, 10, m.userId, b, b1);
    StringFieldCarries(PlaceOrderField, 18, m.userCurrency, b1, b2);
    CarriesConcat(PlaceOrderField, f1, f2, b, b1, b2);
    if m.address.Some? {
      AddressCarries(BASE_ADDRESS, m.address.value);
    }
    MessageFieldRuns(PlaceOrderField, AddressField, 26, Encoded(m.address, EncodeAddress), BASE_ADDRESS, m.address,
                     b2, b3);
    CarriesConcat(PlaceOrderField, f1 + f2, f3, b, b2, b3);
    StringFieldCarries(PlaceOrderField, 42, m.email, b3, b4);
    CarriesConcat(PlaceOrderField, f1 + f2 + f3, f4, b, b3, b4);
    if m.creditCard.Some? {
      CreditCardCarries(BASE_CREDIT_CARD, m.creditCard.value);
    }
    MessageFieldRuns(PlaceOrderField, CreditCardField, 50, Encoded(m.creditCard, EncodeCreditCardInfo),
                     BASE_CREDIT_CARD, m.creditCard, b4, b5);
    CarriesConcat(PlaceOrderField, f1 + f2 + f3 + f4, f5, b, b4, b5);
  }

  // ---------- Round trips ----------

  /** Decoding the bytes of a message gives the message back and leaves nothing unread,
      exactly when every amount in it is a safe integer; otherwise decoding throws. */
  lemma MoneyRoundTrip(m: Money)
    requires FitsMoney(m)
    ensures Decode(MoneyField, EncodeMoney(m), BASE_MONEY) == if IsSafeInteger(m.units) then Got(m, []) else Fail
  {
    MoneyRuns(BASE_MONEY, m);
    RunsDecodes(MoneyField, EncodeMoney(m), BASE_MONEY, if SafeMoney(m) then Some(m) else None);
  }

  lemma OrderResultRoundTrip(m: OrderResult)
    requires FitsOrderResult(m)
    ensures Decode(OrderResultField, EncodeOrderResult(m), BASE_ORDER_RESULT)
         == if SafeOrderResult(m) then Got(m, []) else Fail
  {
    OrderResultRuns(BASE_ORDER_RESULT, m);
    assert MergeOrderResult(BASE_ORDER_RESULT, m) == m;
    RunsDecodes(OrderResultField, EncodeOrderResult(m), BASE_ORDER_RESULT,
                if SafeOrderResult(m) then Some(m) else None);
  }

  lemma ConfirmationRoundTrip(m: SendOrderConfirmationRequest)
    requires FitsConfirmation(m)
    ensures Decode(ConfirmationField, EncodeConfirmation(m), BASE_CONFIRMATION)
         == if SafeConfirmation(m) then Got(m, []) else Fail
  {
    ConfirmationRuns(BASE_CONFIRMATION, m);
    RunsDecodes(ConfirmationField, EncodeConfirmation(m), BASE_CONFIRMATION,
                if SafeConfirmation(m) then Some(m) else None);
  }

  lemma CartRoundTrip(m: Cart)
    requires FitsCart(m)
    ensures Decode(CartField, EncodeCart(m), BASE_CART) == Got(m, [])
  {
    CartCarries(BASE_CART, m);
    assert MergeCart(BASE_CART, m) == m;
    RunsDecodes(CartField, EncodeCart(m), BASE_CART, Some(m));
  }

  lemma PlaceOrderRoundTrip(m: PlaceOrderRequest)
    requires FitsPlaceOrder(m)
    ensures Decode(PlaceOrderField, EncodePlaceOrder(m), BASE_PLACE_ORDER) == Got(m, [])
  {
    PlaceOrderCarries(BASE_PLACE_ORDER, m);
    RunsDecodes(PlaceOrderField, EncodePlaceOrder(m), BASE_PLACE_ORDER, Some(m));
  }

  /** Inside a larger buffer the decode of a submessage stops exactly at the end its length
      prefix names, whatever bytes follow. */
  lemma NestedOrderStopsAtItsLength(m: OrderResult, rest: seq<byte>)
    requires FitsOrderResult(m) && SafeOrderResult(m) && |EncodeOrderResult(m)| < TWO_32
    ensures Nested(OrderResultField, LengthDelimited(EncodeOrderResult(m)) + rest, BASE_ORDER_RESULT) == Got(m, rest)
  {
    OrderResultRuns(BASE_ORDER_RESULT, m);
    assert MergeOrderResult(BASE_ORDER_RESULT, m) == m;
    RunsDecodes(OrderResultField, EncodeOrderResult(m), BASE_ORDER_RESULT, Some(m));
  }

  /** Different messages have different bytes. In particular a present submessage whose
      fields are all unset is not an absent one. */
  lemma ConfirmationBytesAreUnique(a: SendOrderConfirmationRequest, b: SendOrderConfirmationRequest)
    requires FitsConfirmation(a) && SafeConfirmation(a) && FitsConfirmation(b) && SafeConfirmation(b)
    requires EncodeConfirmation(a) == EncodeConfirmation(b)
    ensures a == b
  {
    ConfirmationRoundTrip(a);
    ConfirmationRoundTrip(b);
  }

  // ---------- Concatenation ----------

  /** Decoding two messages written one after the other is their shallow merge: later scalars
      win, a later submessage replaces the earlier one as a whole, repeated items are joined. */
  lemma OrderResultConcatMerges(a: OrderResult, b: OrderResult)
    requires FitsOrderResult(a) && FitsOrderResult(b)
    ensures Decode(OrderResultField, EncodeOrderResult(a) + EncodeOrderResult(b), BASE_ORDER_RESULT)
         == if SafeOrderResult(a) && SafeOrderResult(b) then Got(MergeOrderResult(a, b), []) else Fail
  {
    OrderResultRuns(BASE_ORDER_RESULT, a);
    assert MergeOrderResult(BASE_ORDER_RESULT, a) == a;
    OrderResultRuns(a, b);
    var r := if SafeOrderResult(b) then Some(MergeOrderResult(a, b)) else None;
    var r0 := if SafeOrderResult(a) then Some(a) else None;
    RunsConcat(OrderResultField, EncodeOrderResult(a), EncodeOrderResult(b), BASE_ORDER_RESULT, r0, r);
    RunsDecodes(OrderResultField, EncodeOrderResult(a) + EncodeOrderResult(b), BASE_ORDER_RESULT,
                if r0.Some? then r else None);
  }

  lemma ConfirmationConcatMerges(a: SendOrderConfirmationRequest, b: SendOrderConfirmationRequest)
    requires FitsConfirmation(a) && FitsConfirmation(b)
    ensures Decode(ConfirmationField, EncodeConfirmation(a) + EncodeConfirmation(b), BASE_CONFIRMATION)
         == if SafeConfirmation(a) && SafeConfirmation(b) then Got(MergeConfirmation(a, b), []) else Fail
  {
    ConfirmationRuns(BASE_CONFIRMATION, a);
    ConfirmationRuns(a, b);
    var r := if SafeConfirmation(b) then Some(MergeConfirmation(a, b)) else None;
    var r0 := if SafeConfirmation(a) then Some(a) else None;
    RunsConcat(ConfirmationField, EncodeConfirmation(a), EncodeConfirmation(b), BASE_CONFIRMATION, r0, r);
    RunsDecodes(ConfirmationField, EncodeConfirmation(a) + EncodeConfirmation(b), BASE_CONFIRMATION,
                if r0.Some? then r else None);
  }

  lemma CartConcatMerges(a: Cart, b: Cart)
    requires FitsCart(a) && FitsCart(b)
    ensures Decode(CartField, EncodeCart(a) + EncodeCart(b), BASE_CART) == Got(MergeCart(a, b), [])
  {
    CartCarries(BASE_CART, a);
    assert MergeCart(BASE_CART, a) == a;
    CartCarries(a, b);
    CarriesConcat(CartField, EncodeCart(a), EncodeCart(b), BASE_CART, a, MergeCart(a, b));
    RunsDecodes(CartField, EncodeCart(a) + EncodeCart(b), BASE_CART, Some(MergeCart(a, b)));
  }

  lemma PlaceOrderConcatMerges(a: PlaceOrderRequest, b: PlaceOrderRequest)
    requires FitsPlaceOrder(a) && FitsPlaceOrder(b)
    ensures Decode(PlaceOrderField, EncodePlaceOrder(a) + EncodePlaceOrder(b), BASE_PLACE_ORDER)
         == Got(MergePlaceOrder(a, b), [])
  {
    PlaceOrderCarries(BASE_PLACE_ORDER, a);
    PlaceOrderCarries(a, b);
    CarriesConcat(PlaceOrderField, EncodePlaceOrder(a), EncodePlaceOrder(b), BASE_PLACE_ORDER, a,
                  MergePlaceOrder(a, b));
    RunsDecodes(PlaceOrderField, EncodePlaceOrder(a) + EncodePlaceOrder(b), BASE_PLACE_ORDER,
                Some(MergePlaceOrder(a, b)));
  }

  // ---------- Unknown fields ----------

  lemma CartItemIsWellBehaved()
    ensures WellBehaved(CartItemField)
  {
    hide Bytes, Varint;
    BytesExtend();
  }

  lemma BytesExtend()
    ensures forall s: seq<byte>, x: seq<byte> {:trigger Bytes(s + x)} | Bytes(s).Got? ::
              Bytes(s + x) == Got(Bytes(s).value, Bytes(s).rest + x)
    ensures forall s: seq<byte>, x: seq<byte> {:trigger Varint(s + x, MAX_VARINT_BYTES)} |
              Varint(s, MAX_VARINT_BYTES).Got? ::
              Varint(s + x, MAX_VARINT_BYTES)
              == Got(Varint(s, MAX_VARINT_BYTES).value, Varint(s, MAX_VARINT_BYTES).rest + x)
  {
    forall s: seq<byte>, x: seq<byte> | Bytes(s).Got?
      ensures Bytes(s + x) == Got(Bytes(s).value, Bytes(s).rest + x)
    {
      BytesExtends(s, x);
    }
    forall s: seq<byte>, x: seq<byte> | Varint(s, MAX_VARINT_BYTES).Got?
      ensures Varint(s + x, MAX_VARINT_BYTES)
           == Got(Varint(s, MAX_VARINT_BYTES).value, Varint(s, MAX_VARINT_BYTES).rest + x)
    {
      VarintExtends(s, MAX_VARINT_BYTES, x);
    }
  }

  lemma NestedExtend<M(!new)>(h: Handler<M>, base: M)
    requires WellBehaved(h)
    ensures forall s: seq<byte>, x: seq<byte> {:trigger Nested(h, s + x, base)} | Nested(h, s, base).Got? ::
              Nested(h, s + x, base) == Got(Nested(h, s, base).value, Nested(h, s, base).rest + x)
  {
    forall s: seq<byte>, x: seq<byte> | Nested(h, s, base).Got?
      ensures Nested(h, s + x, base) == Got(Nested(h, s, base).value, Nested(h, s, base).rest + x)
    {
      NestedExtends(h, s, base, x);
    }
  }

  lemma CartIsWellBehaved()
    ensures WellBehaved(CartField)
  {
    hide Bytes, Varint;
    BytesExtend();
    CartItemIsWellBehaved();
    NestedExtend(CartItemField, BASE_CART_ITEM);
  }

  lemma AddressIsWellBehaved()
    ensures WellBehaved(AddressField)
  {
    hide Bytes, Varint;
    BytesExtend();
  }

  lemma MoneyIsWellBehaved()
    ensures WellBehaved(MoneyField)
  {
    hide Bytes, Varint;
    BytesExtend();
  }

  lemma CreditCardIsWellBehaved()
    ensures WellBehaved(CreditCardField)
  {
    hide Bytes, Varint;
    BytesExtend();
  }

  lemma OrderItemIsWellBehaved()
    ensures WellBehaved(OrderItemField)
  {
    CartItemIsWellBehaved();
    NestedExtend(CartItemField, BASE_CART_ITEM);
    MoneyIsWellBehaved();
    NestedExtend(MoneyField, BASE_MONEY);
  }

  lemma OrderResultIsWellBehaved()
    ensures WellBehaved(OrderResultField)
  {
    hide Bytes, Varint;
    BytesExtend();
    MoneyIsWellBehaved();
    NestedExtend(MoneyField, BASE_MONEY);
    AddressIsWellBehaved();
    NestedExtend(AddressField, BASE_ADDRESS);
    OrderItemIsWellBehaved();
    NestedExtend(OrderItemField, BASE_ORDER_ITEM);
  }

  lemma ConfirmationIsWellBehaved()
    ensures WellBehaved(ConfirmationField)
  {
    hide Bytes, Varint;
    BytesExtend();
    OrderResultIsWellBehaved();
    NestedExtend(OrderResultField, BASE_ORDER_RESULT);
  }

  lemma PlaceOrderIsWellBehaved()
    ensures WellBehaved(PlaceOrderField)
  {
    hide Bytes, Varint;
    BytesExtend();
    AddressIsWellBehaved();
    NestedExtend(AddressField, BASE_ADDRESS);
    CreditCardIsWellBehaved();
    NestedExtend(CreditCardField, BASE_CREDIT_CARD);
  }

  lemma OrderResultTagsAreItsSchema(rs: seq<Record>)
    ensures forall r | r in rs :: Foreign(OrderResultField, r) <==> r.tag !in {10, 18, 26, 34, 42}
  {
    hide Nested, Bytes;
    forall r | r in rs
      ensures Foreign(OrderResultField, r) <==> r.tag !in {10, 18, 26, 34, 42}
    {
      assert OrderResultField(BASE_ORDER_RESULT, r.tag, []).Unknown? <==> r.tag !in {10, 18, 26, 34, 42};
    }
  }

  lemma ConfirmationTagsAreItsSchema(rs: seq<Record>)
    ensures forall r | r in rs :: Foreign(ConfirmationField, r) <==> r.tag !in {10, 18}
  {
    hide Nested, Bytes;
    forall r | r in rs
      ensures Foreign(ConfirmationField, r) <==> r.tag !in {10, 18}
    {
      assert ConfirmationField(BASE_CONFIRMATION, r.tag, []).Unknown? <==> r.tag !in {10, 18};
    }
  }

  lemma CartTagsAreItsSchema(rs: seq<Record>)
    ensures forall r | r in rs :: Foreign(CartField, r) <==> r.tag !in {10, 18}
  {
    hide Nested, Bytes;
    forall r | r in rs
      ensures Foreign(CartField, r) <==> r.tag !in {10, 18}
    {
      assert CartField(BASE_CART, r.tag, []).Unknown? <==> r.tag !in {10, 18};
    }
  }

  lemma PlaceOrderTagsAreItsSchema(rs: seq<Record>)
    ensures forall r | r in rs :: Foreign(PlaceOrderField, r) <==> r.tag !in {10, 18, 26, 42, 50}
  {
    hide Nested, Bytes;
    forall r | r in rs
      ensures Foreign(PlaceOrderField, r) <==> r.tag !in {10, 18, 26, 42, 50}
    {
      assert PlaceOrderField(BASE_PLACE_ORDER, r.tag, []).Unknown? <==> r.tag !in {10, 18, 26, 42, 50};
    }
  }

  /** Fields whose tag is not in the schema, a known number with another wire type included,
      change nothing wherever whole fields end: between any bytes `p` that are whole fields
      and any bytes `q` at all. */
  lemma OrderResultToleratesUnknownFields(p: seq<byte>, rs: seq<Record>, q: seq<byte>)
    requires WholeFields(OrderResultField, p, BASE_ORDER_RESULT).Got?
    requires forall r | r in rs :: r.WellFormed() && r.tag !in {10, 18, 26, 34, 42}
    ensures Decode(OrderResultField, p + Serialize(rs) + q, BASE_ORDER_RESULT)
         == Decode(OrderResultField, p + q, BASE_ORDER_RESULT)
  {
    hide Loop, WholeFields, Serialize, OrderResultField;
    OrderResultIsWellBehaved();
    WholeFieldsCarry(OrderResultField, p, BASE_ORDER_RESULT);
    OrderResultTagsAreItsSchema(rs);
    UnknownFieldsIgnored(OrderResultField, p, rs, q, 0, BASE_ORDER_RESULT,
                         WholeFields(OrderResultField, p, BASE_ORDER_RESULT).value);
  }

  lemma ConfirmationToleratesUnknownFields(p: seq<byte>, rs: seq<Record>, q: seq<byte>)
    requires WholeFields(ConfirmationField, p, BASE_CONFIRMATION).Got?
    requires forall r | r in rs :: r.WellFormed() && r.tag !in {10, 18}
    ensures Decode(ConfirmationField, p + Serialize(rs) + q, BASE_CONFIRMATION)
         == Decode(ConfirmationField, p + q, BASE_CONFIRMATION)
  {
    hide Loop, WholeFields, Serialize, ConfirmationField;
    ConfirmationIsWellBehaved();
    WholeFieldsCarry(ConfirmationField, p, BASE_CONFIRMATION);
    ConfirmationTagsAreItsSchema(rs);
    UnknownFieldsIgnored(ConfirmationField, p, rs, q, 0, BASE_CONFIRMATION,
                         WholeFields(ConfirmationField, p, BASE_CONFIRMATION).value);
  }

  lemma CartToleratesUnknownFields(p: seq<byte>, rs: seq<Record>, q: seq<byte>)
    requires WholeFields(CartField, p, BASE_CART).Got?
    requires forall r | r in rs :: r.WellFormed() && r.tag !in {10, 18}
    ensures Decode(CartField, p + Serialize(rs) + q, BASE_CART) == Decode(CartField, p + q, BASE_CART)
  {
    hide Loop, WholeFields, Serialize, CartField;
    CartIsWellBehaved();
    WholeFieldsCarry(CartField, p, BASE_CART);
    CartTagsAreItsSchema(rs);
    UnknownFieldsIgnored(CartField, p, rs, q, 0, BASE_CART, WholeFields(CartField, p, BASE_CART).value);
  }

  lemma PlaceOrderToleratesUnknownFields(p: seq<byte>, rs: seq<Record>, q: seq<byte>)
    requires WholeFields(PlaceOrderField, p, BASE_PLACE_ORDER).Got?
    requires forall r | r in rs :: r.WellFormed() && r.tag !in {10, 18, 26, 42, 50}
    ensures Decode(PlaceOrderField, p + Serialize(rs) + q, BASE_PLACE_ORDER)
         == Decode(PlaceOrderField, p + q, BASE_PLACE_ORDER)
  {
    hide Loop, WholeFields, Serialize, PlaceOrderField;
    PlaceOrderIsWellBehaved();
    WholeFieldsCarry(PlaceOrderField, p, BASE_PLACE_ORDER);
    PlaceOrderTagsAreItsSchema(rs);
    UnknownFieldsIgnored(PlaceOrderField, p, rs, q, 0, BASE_PLACE_ORDER,
                         WholeFields(PlaceOrderField, p, BASE_PLACE_ORDER).value);
  }

  /** The boundaries inside encoded bytes are such places: what a message writes is followed
      by unknown fields and then by another message as if they were not there. */
  lemma UnknownFieldsAfterAnOrder(a: OrderResult, rs: seq<Record>, b: OrderResult)
    requires FitsOrderResult(a) && SafeOrderResult(a) && FitsOrderResult(b) && SafeOrderResult(b)
    requires forall r | r in rs :: r.WellFormed() && r.tag !in {10, 18, 26, 34, 42}
    ensures Decode(OrderResultField, EncodeOrderResult(a) + Serialize(rs) + EncodeOrderResult(b), BASE_ORDER_RESULT)
         == Got(MergeOrderResult(a, b), [])
  {
    hide Loop, Serialize, OrderResultField, EncodeOrderResult, FitsOrderResult;
    OrderResultRuns(BASE_ORDER_RESULT, a);
    assert MergeOrderResult(BASE_ORDER_RESULT, a) == a;
    OrderResultTagsAreItsSchema(rs);
    UnknownFieldsIgnored(OrderResultField, EncodeOrderResult(a), rs, EncodeOrderResult(b), 0, BASE_ORDER_RESULT, a);
    OrderResultConcatMerges(a, b);
  }

  /** In the order inside a confirmation: the unknown fields are counted by the length
      prefix, and the confirmation decodes as if they were not there. */
  lemma UnknownFieldsInsideTheOrder(m: SendOrderConfirmationRequest, a: OrderResult, rs: seq<Record>, b: OrderResult,
                                    rest: seq<byte>)
    requires FitsOrderResult(a) && SafeOrderResult(a)
    requires forall r | r in rs :: r.WellFormed() && r.tag !in {10, 18, 26, 34, 42}
    requires |EncodeOrderResult(a) + Serialize(rs) + EncodeOrderResult(b)| < TWO_32
    ensures ConfirmationField(
              m, 18, LengthDelimited(EncodeOrderResult(a) + Serialize(rs) + EncodeOrderResult(b)) + rest)
         == ConfirmationField(m, 18, LengthDelimited(EncodeOrderResult(a) + EncodeOrderResult(b)) + rest)
  {
    hide Loop, Serialize, OrderResultField, EncodeOrderResult, FitsOrderResult;
    OrderResultRuns(BASE_ORDER_RESULT, a);
    assert MergeOrderResult(BASE_ORDER_RESULT, a) == a;
    OrderResultTagsAreItsSchema(rs);
    NestedUnknownFieldsIgnored(OrderResultField, EncodeOrderResult(a), rs, EncodeOrderResult(b), rest,
                               BASE_ORDER_RESULT, a);
  }
}
