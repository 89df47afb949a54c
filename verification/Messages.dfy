/** The messages of the order path: their bytes, and the cases of their tag switches.

    Strings are the bytes of their UTF-8 form. */
module Messages {
  import opened Wrappers
  import opened MachineInts
  import opened Wire
  import opened DecodeLoop

  type text = seq<byte>

  datatype CartItem = CartItem(productId: text, quantity: int32)

  datatype Cart = Cart(userId: text, items: seq<CartItem>)

  datatype Address = Address(streetAddress: text, city: text, state: text, country: text, zipCode: text)

  datatype Money = Money(currencyCode: text, units: int64, nanos: int32)

  datatype CreditCardInfo = CreditCardInfo(
    creditCardNumber: text, creditCardCvv: int32, creditCardExpirationYear: int32, creditCardExpirationMonth: int32)

  datatype OrderItem = OrderItem(item: Option<CartItem>, cost: Option<Money>)

  datatype OrderResult = OrderResult(
    orderId: text, shippingTrackingId: text, shippingCost: Option<Money>, shippingAddress: Option<Address>,
    items: seq<OrderItem>)

  datatype SendOrderConfirmationRequest = SendOrderConfirmationRequest(email: text, order: Option<OrderResult>)

  datatype PlaceOrderRequest = PlaceOrderRequest(
    userId: text, userCurrency: text, address: Option<Address>, email: text, creditCard: Option<CreditCardInfo>)

  const BASE_CART_ITEM := CartItem([], 0)
  const BASE_CART := Cart([], [])
  const BASE_ADDRESS := Address([], [], [], [], [])
  const BASE_MONEY := Money([], 0, 0)
  const BASE_CREDIT_CARD := CreditCardInfo([], 0, 0, 0)
  const BASE_ORDER_ITEM := OrderItem(None, None)
  const BASE_ORDER_RESULT := OrderResult([], [], None, None, [])
  const BASE_CONFIRMATION := SendOrderConfirmationRequest([], None)
  const BASE_PLACE_ORDER := PlaceOrderRequest([], [], None, [], None)

  // ---------- Encoding ----------

  function EncodeCartItem(m: CartItem): seq<byte> {
    StringField(10, m.productId) + IntField(16, m.quantity)
  }

  function EncodeCartItems(items: seq<CartItem>): seq<byte> {
    if items == [] then []
    else EncodeCartItems(items[..|items| - 1]) + MessageField(18, Some(EncodeCartItem(items[|items| - 1])))
  }

  function EncodeCart(m: Cart): seq<byte> {
    StringField(10, m.userId) + EncodeCartItems(m.items)
  }

  function EncodeAddress(m: Address): seq<byte> {
    StringField(10, m.streetAddress) + StringField(18, m.city) + StringField(26, m.state)
    + StringField(34, m.country) + StringField(42, m.zipCode)
  }

  function EncodeMoney(m: Money): seq<byte> {
    StringField(10, m.currencyCode) + IntField(16, m.units) + IntField(24, m.nanos)
  }

  function EncodeCreditCardInfo(m: CreditCardInfo): seq<byte> {
    StringField(10, m.creditCardNumber) + IntField(16, m.creditCardCvv)
    + IntField(24, m.creditCardExpirationYear) + IntField(32, m.creditCardExpirationMonth)
  }

  function Encoded<T>(o: Option<T>, encode: T -> seq<byte>): Option<seq<byte>> {
    if o.Some? then Some(encode(o.value)) else None
  }

  function EncodeOrderItem(m: OrderItem): seq<byte> {
    MessageField(10, Encoded(m.item, EncodeCartItem)) + MessageField(18, Encoded(m.cost, EncodeMoney))
  }

  function EncodeOrderItems(items: seq<OrderItem>): seq<byte> {
    if items == [] then []
    else EncodeOrderItems(items[..|items| - 1]) + MessageField(42, Some(EncodeOrderItem(items[|items| - 1])))
  }

  function EncodeOrderResult(m: OrderResult): seq<byte> {
    StringField(10, m.orderId) + StringField(18, m.shippingTrackingId)
    + MessageField(26, Encoded(m.shippingCost, EncodeMoney))
    + MessageField(34, Encoded(m.shippingAddress, EncodeAddress))
    + EncodeOrderItems(m.items)
  }

  function EncodeConfirmation(m: SendOrderConfirmationRequest): seq<byte> {
    StringField(10, m.email) + MessageField(18, Encoded(m.order, EncodeOrderResult))
  }

  function EncodePlaceOrder(m: PlaceOrderRequest): seq<byte> {
    StringField(10, m.userId) + StringField(18, m.userCurrency)
    + MessageField(26, Encoded(m.address, EncodeAddress))
    + StringField(42, m.email)
    + MessageField(50, Encoded(m.creditCard, EncodeCreditCardInfo))
  }

  // ---------- Decoding ----------

  /** Assigns what was parsed, or throws. */
  function Put<T, M>(p: Parse<T>, assign: T -> M): Handled<M> {
    if p.Fail? then Bad else Done(assign(p.value), p.rest)
  }

  predicate IsSafeInteger(v: int) {
    -TWO_53 < v < TWO_53
  }

  /** `longToNumber`: a 64-bit value that a JavaScript number may not hold exactly throws. */
  function LongToNumber(v: int64): Result<int64> {
    if v > TWO_53 - 1 then Failure
    else if v < -(TWO_53 - 1) then Failure
    else Success(v)
  }

  function SafeInt64(s: seq<byte>): (r: Parse<int64>)
    ensures r.Got? ==> |r.rest| < |s|
  {
    var (v, t) :- Int64(s);
    var n := LongToNumber(v);
    if n.Failure? then Fail else Got(n.value, t)
  }

  function CartItemField(m: CartItem, tag: nat, s: seq<byte>): (r: Handled<CartItem>)
    ensures r.Done? ==> |r.rest| <= |s|
  {
    match tag
    case 10 => Put(Bytes(s), (v: text) => m.(productId := v))
    case 16 => Put(Int32(s), (v: int32) => m.(quantity := v))
    case _ => Unknown
  }

  function CartField(m: Cart, tag: nat, s: seq<byte>): (r: Handled<Cart>)
    ensures r.Done? ==> |r.rest| <= |s|
  {
    match tag
    case 10 => Put(Bytes(s), (v: text) => m.(userId := v))
    case 18 => Put(Nested(CartItemField, s, BASE_CART_ITEM), (v: CartItem) => m.(items := m.items + [v]))
    case _ => Unknown
  }

  function AddressField(m: Address, tag: nat, s: seq<byte>): (r: Handled<Address>)
    ensures r.Done? ==> |r.rest| <= |s|
  {
    match tag
    case 10 => Put(Bytes(s), (v: text) => m.(streetAddress := v))
    case 18 => Put(Bytes(s), (v: text) => m.(city := v))
    case 26 => Put(Bytes(s), (v: text) => m.(state := v))
    case 34 => Put(Bytes(s), (v: text) => m.(country := v))
    case 42 => Put(Bytes(s), (v: text) => m.(zipCode := v))
    case _ => Unknown
  }

  function MoneyField(m: Money, tag: nat, s: seq<byte>): (r: Handled<Money>)
    ensures r.Done? ==> |r.rest| <= |s|
  {
    match tag
    case 10 => Put(Bytes(s), (v: text) => m.(currencyCode := v))
    case 16 => Put(SafeInt64(s), (v: int64) => m.(units := v))
    case 24 => Put(Int32(s), (v: int32) => m.(nanos := v))
    case _ => Unknown
  }

  function CreditCardField(m: CreditCardInfo, tag: nat, s: seq<byte>): (r: Handled<CreditCardInfo>)
    ensures r.Done? ==> |r.rest| <= |s|
  {
    match tag
    case 10 => Put(Bytes(s), (v: text) => m.(creditCardNumber := v))
    case 16 => Put(Int32(s), (v: int32) => m.(creditCardCvv := v))
    case 24 => Put(Int32(s), (v: int32) => m.(creditCardExpirationYear := v))
    case 32 => Put(Int32(s), (v: int32) => m.(creditCardExpirationMonth := v))
    case _ => Unknown
  }

  function OrderItemField(m: OrderItem, tag: nat, s: seq<byte>): (r: Handled<OrderItem>)
    ensures r.Done? ==> |r.rest| <= |s|
  {
    match tag
    case 10 => Put(Nested(CartItemField, s, BASE_CART_ITEM), (v: CartItem) => m.(item := Some(v)))
    case 18 => Put(Nested(MoneyField, s, BASE_MONEY), (v: Money) => m.(cost := Some(v)))
    case _ => Unknown
  }

  function OrderResultField(m: OrderResult, tag: nat, s: seq<byte>): (r: Handled<OrderResult>)
    ensures r.Done? ==> |r.rest| <= |s|
  {
    match tag
    case 10 => Put(Bytes(s), (v: text) => m.(orderId := v))
    case 18 => Put(Bytes(s), (v: text) => m.(shippingTrackingId := v))
    case 26 => Put(Nested(MoneyField, s, BASE_MONEY), (v: Money) => m.(shippingCost := Some(v)))
    case 34 => Put(Nested(AddressField, s, BASE_ADDRESS), (v: Address) => m.(shippingAddress := Some(v)))
    case 42 => Put(Nested(OrderItemField, s, BASE_ORDER_ITEM), (v: OrderItem) => m.(items := m.items + [v]))
    case _ => Unknown
  }

  function ConfirmationField(m: SendOrderConfirmationRequest, tag: nat, s: seq<byte>)
    : (r: Handled<SendOrderConfirmationRequest>)
    ensures r.Done? ==> |r.rest| <= |s|
  {
    match tag
    case 10 => Put(Bytes(s), (v: text) => m.(email := v))
    case 18 => Put(Nested(OrderResultField, s, BASE_ORDER_RESULT), (v: OrderResult) => m.(order := Some(v)))
    case _ => Unknown
  }

  function PlaceOrderField(m: PlaceOrderRequest, tag: nat, s: seq<byte>): (r: Handled<PlaceOrderRequest>)
    ensures r.Done? ==> |r.rest| <= |s|
  {
    match tag
    case 10 => Put(Bytes(s), (v: text) => m.(userId := v))
    case 18 => Put(Bytes(s), (v: text) => m.(userCurrency := v))
    case 26 => Put(Nested(AddressField, s, BASE_ADDRESS), (v: Address) => m.(address := Some(v)))
    case 42 => Put(Bytes(s), (v: text) => m.(email := v))
    case 50 => Put(Nested(CreditCardField, s, BASE_CREDIT_CARD), (v: CreditCardInfo) => m.(creditCard := Some(v)))
    case _ => Unknown
  }
}
