/** What the decoder gives for bytes that no single encode wrote: two messages in a row,
    compared with section "Last One Wins" of the Encoding guide, and arbitrary input. */
module MessageStandard {
  import opened Wrappers
  import opened MachineInts
  import opened Wire
  import opened DecodeLoop
  import opened Messages
  import opened MessageTheorems

  // ---------- The merge of the standard ----------

  /** A submessage present in both is merged, field by field. */
  function Both<T>(a: Option<T>, b: Option<T>, merge: (T, T) -> T): Option<T> {
    if a.Some? && b.Some? then Some(merge(a.value, b.value)) else if b.Some? then b else a
  }

  function StandardOrderResult(a: OrderResult, b: OrderResult): OrderResult {
    OrderResult(
      Later(a.orderId, b.orderId, []), Later(a.shippingTrackingId, b.shippingTrackingId, []),
      Both(a.shippingCost, b.shippingCost, MergeMoney), Both(a.shippingAddress, b.shippingAddress, MergeAddress),
      a.items + b.items)
  }

  function StandardConfirmation(a: SendOrderConfirmationRequest, b: SendOrderConfirmationRequest)
    : SendOrderConfirmationRequest
  {
    SendOrderConfirmationRequest(Later(a.email, b.email, []), Both(a.order, b.order, StandardOrderResult))
  }

  function StandardPlaceOrder(a: PlaceOrderRequest, b: PlaceOrderRequest): PlaceOrderRequest {
    PlaceOrderRequest(
      Later(a.userId, b.userId, []), Later(a.userCurrency, b.userCurrency, []),
      Both(a.address, b.address, MergeAddress), Later(a.email, b.email, []),
      Both(a.creditCard, b.creditCard, MergeCreditCard))
  }

  // ---------- When replacing and merging agree ----------

  /** The earlier value is unset, repeated, or overwritten: replacing loses nothing of it. */
  predicate Superseded<T(==)>(a: T, b: T, unset: T) {
    a == unset || a == b || b != unset
  }

  predicate MoneySuperseded(a: Money, b: Money) {
    && Superseded(a.currencyCode, b.currencyCode, []) && Superseded(a.units, b.units, 0)
    && Superseded(a.nanos, b.nanos, 0)
  }

  predicate AddressSuperseded(a: Address, b: Address) {
    && Superseded(a.streetAddress, b.streetAddress, []) && Superseded(a.city, b.city, [])
    && Superseded(a.state, b.state, []) && Superseded(a.country, b.country, [])
    && Superseded(a.zipCode, b.zipCode, [])
  }

  predicate CreditCardSuperseded(a: CreditCardInfo, b: CreditCardInfo) {
    && Superseded(a.creditCardNumber, b.creditCardNumber, []) && Superseded(a.creditCardCvv, b.creditCardCvv, 0)
    && Superseded(a.creditCardExpirationYear, b.creditCardExpirationYear, 0)
    && Superseded(a.creditCardExpirationMonth, b.creditCardExpirationMonth, 0)
  }

  /** A present part must be present again. */
  predicate PartSuperseded<T>(a: Option<T>, b: Option<T>, superseded: (T, T) -> bool) {
    a.Some? ==> b.Some? && superseded(a.value, b.value)
  }

  /** Replacing one order by another, as a whole, loses nothing; its items are never repeated. */
  predicate OrderSuperseded(a: OrderResult, b: OrderResult) {
    && Superseded(a.orderId, b.orderId, []) && Superseded(a.shippingTrackingId, b.shippingTrackingId, [])
    && PartSuperseded(a.shippingCost, b.shippingCost, MoneySuperseded)
    && PartSuperseded(a.shippingAddress, b.shippingAddress, AddressSuperseded)
    && a.items == []
  }

  lemma ReplacedOrderIsMerged(a: OrderResult, b: OrderResult)
    ensures StandardOrderResult(a, b) == b <==> OrderSuperseded(a, b)
  {
    assert |a.items + b.items| == |a.items| + |b.items|;
    assert a.items == [] ==> a.items + b.items == b.items;
  }

  /** Two encoded orders in a row decode to the standard's merge if and only if all amounts are
      safe and, of each submessage present in both, the later one supersedes the earlier. */
  lemma OrdersMergeByTheStandard(a: OrderResult, b: OrderResult)
    requires FitsOrderResult(a) && FitsOrderResult(b)
    ensures var decoded := Decode(OrderResultField, EncodeOrderResult(a) + EncodeOrderResult(b), BASE_ORDER_RESULT);
            decoded == Got(StandardOrderResult(a, b), []) <==>
              && SafeOrderResult(a) && SafeOrderResult(b)
              && (a.shippingCost.Some? && b.shippingCost.Some? ==>
                    MoneySuperseded(a.shippingCost.value, b.shippingCost.value))
              && (a.shippingAddress.Some? && b.shippingAddress.Some? ==>
                    AddressSuperseded(a.shippingAddress.value, b.shippingAddress.value))
  {
    hide Decode, EncodeOrderResult, FitsOrderResult, SafeOrderResult;
    OrderResultConcatMerges(a, b);
  }

  /** For a confirmation request that takes an order which supersedes the earlier one wholly. */
  lemma ConfirmationsMergeByTheStandard(a: SendOrderConfirmationRequest, b: SendOrderConfirmationRequest)
    requires FitsConfirmation(a) && FitsConfirmation(b)
    ensures var decoded := Decode(ConfirmationField, EncodeConfirmation(a) + EncodeConfirmation(b), BASE_CONFIRMATION);
            decoded == Got(StandardConfirmation(a, b), []) <==>
              && SafeConfirmation(a) && SafeConfirmation(b)
              && (a.order.Some? && b.order.Some? ==> OrderSuperseded(a.order.value, b.order.value))
  {
    hide Decode, EncodeConfirmation, FitsConfirmation, SafeConfirmation, OrderSuperseded, StandardOrderResult;
    ConfirmationConcatMerges(a, b);
    if a.order.Some? && b.order.Some? {
      ReplacedOrderIsMerged(a.order.value, b.order.value);
    }
  }

  lemma PlaceOrdersMergeByTheStandard(a: PlaceOrderRequest, b: PlaceOrderRequest)
    requires FitsPlaceOrder(a) && FitsPlaceOrder(b)
    ensures var decoded := Decode(PlaceOrderField, EncodePlaceOrder(a) + EncodePlaceOrder(b), BASE_PLACE_ORDER);
            decoded == Got(StandardPlaceOrder(a, b), []) <==>
              && (a.address.Some? && b.address.Some? ==> AddressSuperseded(a.address.value, b.address.value))
              && (a.creditCard.Some? && b.creditCard.Some? ==>
                    CreditCardSuperseded(a.creditCard.value, b.creditCard.value))
  {
    hide Decode, EncodePlaceOrder, FitsPlaceOrder;
    PlaceOrderConcatMerges(a, b);
  }

  /** Two orders whose shipping costs the standard would merge to one unit and five nanos; here
      the second cost replaces the first. */
  lemma SubmessagesAreNotMerged()
    ensures exists a: OrderResult, b: OrderResult ::
      && StandardOrderResult(a, b).shippingCost == Some(Money([], 1, 5))
      && Decode(OrderResultField, EncodeOrderResult(a) + EncodeOrderResult(b), BASE_ORDER_RESULT)
         == Got(b, []) != Got(StandardOrderResult(a, b), [])
  {
    hide Decode, EncodeOrderResult, FitsOrderResult, SafeOrderResult;
    SmallCostFits(1, 0);
    SmallCostFits(0, 5);
    var a, b := OnlyCost(1, 0), OnlyCost(0, 5);
    OrderResultConcatMerges(a, b);
    assert MergeOrderResult(a, b) == b;
  }

  function OnlyCost(units: int64, nanos: int32): OrderResult {
    BASE_ORDER_RESULT.(shippingCost := Some(Money([], units, nanos)))
  }

  lemma SmallCostFits(units: int64, nanos: int32)
    requires 0 <= units < 128 && 0 <= nanos < 128
    ensures FitsOrderResult(OnlyCost(units, nanos)) && SafeOrderResult(OnlyCost(units, nanos))
  {
    assert |EncodeMoney(Money([], units, nanos))| <= 4;
  }

  // ---------- Arbitrary bytes ----------

  /** Whatever bytes are decoded, an amount that comes out is a safe integer. */
  lemma DecodedMoneyIsSafe(s: seq<byte>, stop: int)
    ensures var p := Loop(MoneyField, s, stop, BASE_MONEY); p.Got? ==> SafeMoney(p.value)
  {
    hide Loop, Varint, Bytes;
    LoopKeeps(MoneyField, SafeMoney, s, stop, BASE_MONEY);
  }

  lemma DecodedOrderItemIsSafe(s: seq<byte>, stop: int)
    ensures var p := Loop(OrderItemField, s, stop, BASE_ORDER_ITEM); p.Got? ==> SafeOrderItem(p.value)
  {
    hide Loop, Varint, Bytes, SafeMoney;
    forall s, stop
      ensures var p := Loop(MoneyField, s, stop, BASE_MONEY); p.Got? ==> SafeMoney(p.value)
    {
      DecodedMoneyIsSafe(s, stop);
    }
    LoopKeeps(OrderItemField, SafeOrderItem, s, stop, BASE_ORDER_ITEM);
  }

  lemma DecodedOrderIsSafe(s: seq<byte>, stop: int)
    ensures var p := Loop(OrderResultField, s, stop, BASE_ORDER_RESULT); p.Got? ==> SafeOrderResult(p.value)
  {
    hide Loop, Varint, Bytes, SafeMoney, SafeOrderItem;
    forall s, stop
      ensures var p := Loop(MoneyField, s, stop, BASE_MONEY); p.Got? ==> SafeMoney(p.value)
      ensures var p := Loop(OrderItemField, s, stop, BASE_ORDER_ITEM); p.Got? ==> SafeOrderItem(p.value)
    {
      DecodedMoneyIsSafe(s, stop);
      DecodedOrderItemIsSafe(s, stop);
    }
    LoopKeeps(OrderResultField, SafeOrderResult, s, stop, BASE_ORDER_RESULT);
  }

  lemma DecodedConfirmationIsSafe(s: seq<byte>, stop: int)
    ensures var p := Loop(ConfirmationField, s, stop, BASE_CONFIRMATION); p.Got? ==> SafeConfirmation(p.value)
  {
    hide Loop, Varint, Bytes, SafeOrderResult;
    forall s, stop
      ensures var p := Loop(OrderResultField, s, stop, BASE_ORDER_RESULT); p.Got? ==> SafeOrderResult(p.value)
    {
      DecodedOrderIsSafe(s, stop);
    }
    LoopKeeps(ConfirmationField, SafeConfirmation, s, stop, BASE_CONFIRMATION);
  }

  /** Any bytes that decode, whoever wrote them: the message that came out is written again and
      read back as the same message, whenever its lengths fit. */
  lemma DecodedConfirmationIsStable(s: seq<byte>)
    requires Decode(ConfirmationField, s, BASE_CONFIRMATION).Got?
    ensures var m := Decode(ConfirmationField, s, BASE_CONFIRMATION).value;
            FitsConfirmation(m) ==> Decode(ConfirmationField, EncodeConfirmation(m), BASE_CONFIRMATION) == Got(m, [])
  {
    hide Loop, EncodeConfirmation, FitsConfirmation, SafeConfirmation;
    DecodedConfirmationIsSafe(s, 0);
    var m := Decode(ConfirmationField, s, BASE_CONFIRMATION).value;
    if FitsConfirmation(m) {
      ConfirmationRoundTrip(m);
    }
  }

  lemma DecodedOrderIsStable(s: seq<byte>)
    requires Decode(OrderResultField, s, BASE_ORDER_RESULT).Got?
    ensures var m := Decode(OrderResultField, s, BASE_ORDER_RESULT).value;
            FitsOrderResult(m) ==> Decode(OrderResultField, EncodeOrderResult(m), BASE_ORDER_RESULT) == Got(m, [])
  {
    hide Loop, EncodeOrderResult, FitsOrderResult, SafeOrderResult;
    DecodedOrderIsSafe(s, 0);
    var m := Decode(OrderResultField, s, BASE_ORDER_RESULT).value;
    if FitsOrderResult(m) {
      OrderResultRoundTrip(m);
    }
  }
}
