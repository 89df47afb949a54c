/** How long a decoded message is when it is written again: at most six times the bytes it was
    read from, so what comes out of a buffer that is not too large always fits. */
module MessageSizes {
  import opened Wrappers
  import opened MachineInts
  import opened Wire
  import opened DecodeLoop
  import opened Messages
  import opened MessageTheorems
  import opened MessageStandard

  /** Six of these are less than 2^32. */
  const LARGE_BUFFER: nat := 715_827_882

  // ---------- Any message ----------

  /** Every field a handler reads, its tag of at least one byte included, adds at most six times
      its own bytes to the written message. */
  ghost predicate Grows<M(!new)>(h: Handler<M>, size: M -> nat, fits: M -> bool) {
    forall m, tag, s {:trigger h(m, tag, s)} | |s| < LARGE_BUFFER && fits(m) && h(m, tag, s).Done? ::
      fits(h(m, tag, s).msg) && size(h(m, tag, s).msg) <= size(m) + 6 * (|s| - |h(m, tag, s).rest|) + 6
  }

  lemma {:induction false} LoopGrows<M(!new)>(
    h: Handler<M>, size: M -> nat, fits: M -> bool, s: seq<byte>, stop: int, m: M)
    requires Shrinks(h) && Grows(h, size, fits) && |s| <= LARGE_BUFFER && fits(m)
    ensures var p := Loop(h, s, stop, m);
            p.Got? ==> fits(p.value) && size(p.value) <= size(m) + 6 * (|s| - |p.rest|)
    decreases |s|
  {
    if |s| > stop && Uint32(s).Got? {
      var (tag, t) := Uint32(s).Extract();
      if h(m, tag, t).Done? {
        LoopGrows(h, size, fits, h(m, tag, t).rest, stop, h(m, tag, t).msg);
      } else if h(m, tag, t).Unknown? && tag % 8 != 4 && tag != 0 && Skip(tag % 8, t).Got? {
        LoopGrows(h, size, fits, Skip(tag % 8, t).rest, stop, m);
      }
    }
  }

  /** A submessage, written behind a prefix, is within what its field may add. */
  ghost predicate ChildGrows<M(!new)>(h: Handler<M>, base: M, size: M -> nat, fits: M -> bool)
    requires Shrinks(h)
  {
    forall s {:trigger Nested(h, s, base)} | |s| < LARGE_BUFFER && Nested(h, s, base).Got? ::
      var p := Nested(h, s, base);
      fits(p.value) && size(p.value) + 6 <= 6 * (|s| - |p.rest|) && size(p.value) < TWO_32
  }

  lemma NestedGrows<M(!new)>(h: Handler<M>, base: M, size: M -> nat, fits: M -> bool)
    requires Shrinks(h) && Grows(h, size, fits) && fits(base) && size(base) == 0
    ensures ChildGrows(h, base, size, fits)
  {
    hide Loop, Uint32, Grows;
    forall s | |s| < LARGE_BUFFER && Nested(h, s, base).Got?
      ensures var p := Nested(h, s, base);
              fits(p.value) && size(p.value) + 6 <= 6 * (|s| - |p.rest|) && size(p.value) < TWO_32
    {
      var (n, t) := Uint32(s).Extract();
      LoopGrows(h, size, fits, t, |t| - n, base);
    }
  }

  // ---------- One field ----------

  lemma {:induction false} VarintAtMost(n: nat, k: nat)
    requires k >= 1 && n < Pow128(k)
    ensures |EncVarint(n)| <= k
  {
    if n >= 128 {
      VarintAtMost(n / 128, k - 1);
    }
  }

  lemma PrefixAtMost(n: nat)
    requires n < TWO_64
    ensures |EncVarint(n)| <= 10
  {
    TenBytesHold64Bits();
    VarintAtMost(n, 10);
  }

  lemma FieldsAtMost()
    ensures forall tag: nat, v: text {:trigger StringField(tag, v)} | tag < 128 && |v| < TWO_32 ::
              |StringField(tag, v)| <= 11 + |v|
    ensures forall tag: nat, v: int64 {:trigger IntField(tag, v)} | tag < 128 :: |IntField(tag, v)| <= 11
    ensures forall tag: nat, b: Option<seq<byte>> {:trigger MessageField(tag, b)} |
              tag < 128 && b.Some? && |b.value| < TWO_32 ::
              |MessageField(tag, b)| <= 11 + |b.value|
  {
    forall n: nat | n < TWO_64
      ensures |EncVarint(n)| <= 10
    {
      PrefixAtMost(n);
    }
  }

  /** A text is shorter than the bytes it was read from. */
  lemma TextsAreShorter()
    ensures forall s: seq<byte> {:trigger Bytes(s)} | Bytes(s).Got? :: |Bytes(s).value| + 1 <= |s| - |Bytes(s).rest|
  {
  }

  lemma ItemsSnoc(items: seq<OrderItem>, v: OrderItem)
    ensures EncodeOrderItems(items + [v]) == EncodeOrderItems(items) + MessageField(42, Some(EncodeOrderItem(v)))
  {
    assert (items + [v])[..|items|] == items;
  }

  // ---------- The messages ----------

  function ProductSize(m: CartItem): nat { |EncodeCartItem(m)| }

  function AmountSize(m: Money): nat { |EncodeMoney(m)| }

  function PlaceSize(m: Address): nat { |EncodeAddress(m)| }

  function ItemSize(m: OrderItem): nat { |EncodeOrderItem(m)| }

  function OrderSize(m: OrderResult): nat { |EncodeOrderResult(m)| }

  function RequestSize(m: SendOrderConfirmationRequest): nat { |EncodeConfirmation(m)| }

  lemma ProductGrows()
    ensures Grows(CartItemField, ProductSize, FitsCartItem)
  {
    hide Bytes, Int32, StringField, IntField;
    FieldsAtMost();
    TextsAreShorter();
  }

  lemma AmountGrows()
    ensures Grows(MoneyField, AmountSize, FitsMoney)
  {
    hide Bytes, Int32, SafeInt64, StringField, IntField;
    FieldsAtMost();
    TextsAreShorter();
  }

  lemma PlaceGrows()
    ensures Grows(AddressField, PlaceSize, FitsAddress)
  {
    hide Bytes, StringField;
    FieldsAtMost();
    TextsAreShorter();
  }

  lemma ItemGrows()
    ensures Grows(OrderItemField, ItemSize, FitsOrderItem)
  {
    ProductGrows();
    NestedGrows(CartItemField, BASE_CART_ITEM, ProductSize, FitsCartItem);
    AmountGrows();
    NestedGrows(MoneyField, BASE_MONEY, AmountSize, FitsMoney);
    hide Nested, MessageField, EncodeCartItem, EncodeMoney, FitsCartItem, FitsMoney;
    FieldsAtMost();
  }

  lemma OrderGrows()
    ensures Grows(OrderResultField, OrderSize, FitsOrderResult)
  {
    AmountGrows();
    NestedGrows(MoneyField, BASE_MONEY, AmountSize, FitsMoney);
    PlaceGrows();
    NestedGrows(AddressField, BASE_ADDRESS, PlaceSize, FitsAddress);
    ItemGrows();
    NestedGrows(OrderItemField, BASE_ORDER_ITEM, ItemSize, FitsOrderItem);
    hide Nested;
    forall m, tag, s | |s| < LARGE_BUFFER && FitsOrderResult(m) && OrderResultField(m, tag, s).Done?
      ensures OrderStep(m, tag, s)
    {
      if tag == 42 {
        OrderTakesItem(m, s);
      } else {
        OrderTakesPart(m, tag, s);
      }
    }
  }

  /** One field read into an order adds what it may. */
  ghost predicate OrderStep(m: OrderResult, tag: nat, s: seq<byte>)
    requires OrderResultField(m, tag, s).Done?
  {
    var r := OrderResultField(m, tag, s);
    FitsOrderResult(r.msg) && OrderSize(r.msg) <= OrderSize(m) + 6 * (|s| - |r.rest|) + 6
  }

  lemma OrderTakesItem(m: OrderResult, s: seq<byte>)
    requires ChildGrows(OrderItemField, BASE_ORDER_ITEM, ItemSize, FitsOrderItem)
    requires |s| < LARGE_BUFFER && FitsOrderResult(m) && OrderResultField(m, 42, s).Done?
    ensures OrderStep(m, 42, s)
  {
    hide Nested, MessageField, StringField, EncodeOrderItem, EncodeOrderItems, FitsMoney, FitsAddress, FitsOrderItem;
    FieldsAtMost();
    ItemsSnoc(m.items, Nested(OrderItemField, s, BASE_ORDER_ITEM).value);
  }

  lemma OrderTakesPart(m: OrderResult, tag: nat, s: seq<byte>)
    requires ChildGrows(MoneyField, BASE_MONEY, AmountSize, FitsMoney)
    requires ChildGrows(AddressField, BASE_ADDRESS, PlaceSize, FitsAddress)
    requires |s| < LARGE_BUFFER && FitsOrderResult(m) && tag != 42 && OrderResultField(m, tag, s).Done?
    ensures OrderStep(m, tag, s)
  {
    hide Nested, Bytes, MessageField, StringField, EncodeMoney, EncodeAddress, EncodeOrderItems;
    hide FitsMoney, FitsAddress, FitsOrderItem;
    FieldsAtMost();
    TextsAreShorter();
  }

  lemma RequestGrows()
    ensures Grows(ConfirmationField, RequestSize, FitsConfirmation)
  {
    OrderGrows();
    NestedGrows(OrderResultField, BASE_ORDER_RESULT, OrderSize, FitsOrderResult);
    hide Nested, Bytes, MessageField, StringField, EncodeOrderResult, FitsOrderResult;
    FieldsAtMost();
    TextsAreShorter();
  }

  /** Any buffer of at most 715,827,882 bytes: the request that comes out fits, and is written
      again in at most six times those bytes. */
  lemma DecodedConfirmationFits(s: seq<byte>)
    requires |s| <= LARGE_BUFFER && Decode(ConfirmationField, s, BASE_CONFIRMATION).Got?
    ensures var m := Decode(ConfirmationField, s, BASE_CONFIRMATION).value;
            FitsConfirmation(m) && |EncodeConfirmation(m)| <= 6 * |s|
  {
    RequestGrows();
    hide Grows, Loop;
    LoopGrows(ConfirmationField, RequestSize, FitsConfirmation, s, 0, BASE_CONFIRMATION);
  }

  /** So it is read back as itself, whoever wrote the buffer. */
  lemma SmallBuffersAreStable(s: seq<byte>)
    requires |s| <= LARGE_BUFFER && Decode(ConfirmationField, s, BASE_CONFIRMATION).Got?
    ensures var m := Decode(ConfirmationField, s, BASE_CONFIRMATION).value;
            Decode(ConfirmationField, EncodeConfirmation(m), BASE_CONFIRMATION) == Got(m, [])
  {
    hide Decode, EncodeConfirmation, FitsConfirmation;
    DecodedConfirmationFits(s);
    DecodedConfirmationIsStable(s);
  }
}
