/** What `encode` writes as trees of fields, so that unknown fields may be put into it anywhere. */
module EncodedTrees {
  import opened Wrappers
  import opened MachineInts
  import opened Wire
  import opened DecodeLoop
  import opened Messages
  import opened MessageTheorems
  import opened FieldTrees

  // ---------- The trees ----------

  function TextTree(tag: nat, v: text): seq<Field> {
    if v == [] then [] else [Scalar(Record(tag, LengthDelimited(v)))]
  }

  function NumberTree(tag: nat, v: int64): seq<Field> {
    if v == 0 then [] else [Scalar(Record(tag, EncSigned(v)))]
  }

  function PartTree<T>(tag: nat, level: Level, o: Option<T>, tree: T -> seq<Field>): seq<Field> {
    if o.None? then [] else [Child(tag, level, tree(o.value))]
  }

  function ProductTree(m: CartItem): seq<Field> {
    TextTree(10, m.productId) + NumberTree(16, m.quantity)
  }

  function AmountTree(m: Money): seq<Field> {
    TextTree(10, m.currencyCode) + NumberTree(16, m.units) + NumberTree(24, m.nanos)
  }

  function PlaceTree(m: Address): seq<Field> {
    TextTree(10, m.streetAddress) + TextTree(18, m.city) + TextTree(26, m.state) + TextTree(34, m.country)
    + TextTree(42, m.zipCode)
  }

  function ItemTree(m: OrderItem): seq<Field> {
    PartTree(10, Product, m.item, ProductTree) + PartTree(18, Amount, m.cost, AmountTree)
  }

  function ItemTrees(items: seq<OrderItem>): seq<Field> {
    if items == [] then []
    else ItemTrees(items[..|items| - 1]) + [Child(42, Item, ItemTree(items[|items| - 1]))]
  }

  function OrderTree(m: OrderResult): seq<Field> {
    TextTree(10, m.orderId) + TextTree(18, m.shippingTrackingId)
    + PartTree(26, Amount, m.shippingCost, AmountTree) + PartTree(34, Place, m.shippingAddress, PlaceTree)
    + ItemTrees(m.items)
  }

  function RequestTree(m: SendOrderConfirmationRequest): seq<Field> {
    TextTree(10, m.email) + PartTree(18, Order, m.order, OrderTree)
  }

  // ---------- They spell what is written ----------

  predicate Spells(level: Level, fs: seq<Field>, b: seq<byte>) {
    Conforms(level, fs) && Write(fs) == b
  }

  lemma SpellsConcat(level: Level, fs: seq<Field>, b: seq<byte>, gs: seq<Field>, c: seq<byte>)
    requires Spells(level, fs, b) && Spells(level, gs, c)
    ensures Spells(level, fs + gs, b + c)
  {
    WriteConcat(fs, gs);
  }

  lemma SpellsText(level: Level, tag: nat, v: text)
    requires FitsText(v) && tag in ScalarTags(level) && tag % 8 == 2 && tag < TWO_32
    ensures Spells(level, TextTree(tag, v), StringField(tag, v))
  {
    if v != [] {
      var r := Record(tag, LengthDelimited(v));
      assert LengthDelimited(v) + [] == LengthDelimited(v);
      BytesInverse(v, []);
      SkipTakesPayloads(2, LengthDelimited(v));
      WriteOne(Scalar(r));
    }
  }

  lemma SpellsNumber(level: Level, tag: nat, v: int64)
    requires tag in ScalarTags(level) && tag % 8 == 0 && 0 < tag < TWO_32
    ensures Spells(level, NumberTree(tag, v), IntField(tag, v))
  {
    if v != 0 {
      assert EncSigned(v) + [] == EncSigned(v);
      SignedInverse(v, []);
      SkipTakesPayloads(0, EncSigned(v));
      WriteOne(Scalar(Record(tag, EncSigned(v))));
    }
  }

  lemma SpellsChild(level: Level, tag: nat, child: Level, fs: seq<Field>, b: seq<byte>)
    requires ChildLevel(level, tag) == Some(child) && Spells(child, fs, b) && |b| < TWO_32
    ensures Spells(level, [Child(tag, child, fs)], MessageField(tag, Some(b)))
  {
    WriteOne(Child(tag, child, fs));
  }

  lemma SpellsPart<T>(level: Level, tag: nat, child: Level, o: Option<T>, tree: T -> seq<Field>, encode: T -> seq<byte>)
    requires ChildLevel(level, tag) == Some(child)
    requires o.Some? ==> Spells(child, tree(o.value), encode(o.value)) && |encode(o.value)| < TWO_32
    ensures Spells(level, PartTree(tag, child, o, tree), MessageField(tag, Encoded(o, encode)))
  {
    if o.Some? {
      SpellsChild(level, tag, child, tree(o.value), encode(o.value));
    }
  }

  lemma ProductSpelled(m: CartItem)
    requires FitsCartItem(m)
    ensures Spells(Product, ProductTree(m), EncodeCartItem(m))
  {
    hide Spells, TextTree, NumberTree, StringField, IntField;
    SpellsText(Product, 10, m.productId);
    SpellsNumber(Product, 16, m.quantity);
    SpellsConcat(Product, TextTree(10, m.productId), StringField(10, m.productId),
                 NumberTree(16, m.quantity), IntField(16, m.quantity));
  }

  lemma AmountSpelled(m: Money)
    requires FitsMoney(m)
    ensures Spells(Amount, AmountTree(m), EncodeMoney(m))
  {
    hide Spells, TextTree, NumberTree, StringField, IntField;
    SpellsText(Amount, 10, m.currencyCode);
    SpellsNumber(Amount, 16, m.units);
    SpellsNumber(Amount, 24, m.nanos);
    SpellsConcat(Amount, TextTree(10, m.currencyCode), StringField(10, m.currencyCode),
                 NumberTree(16, m.units), IntField(16, m.units));
    SpellsConcat(Amount, TextTree(10, m.currencyCode) + NumberTree(16, m.units),
                 StringField(10, m.currencyCode) + IntField(16, m.units),
                 NumberTree(24, m.nanos), IntField(24, m.nanos));
  }

  /** One more text at the end of what is spelled already. */
  lemma SpellsTextAfter(level: Level, fs: seq<Field>, b: seq<byte>, tag: nat, v: text)
    requires FitsText(v) && tag in ScalarTags(level) && tag % 8 == 2 && tag < TWO_32 && Spells(level, fs, b)
    ensures Spells(level, fs + TextTree(tag, v), b + StringField(tag, v))
  {
    hide Spells, TextTree, StringField;
    SpellsText(level, tag, v);
    SpellsConcat(level, fs, b, TextTree(tag, v), StringField(tag, v));
  }

  lemma PlaceSpelled(m: Address)
    requires FitsAddress(m)
    ensures Spells(Place, PlaceTree(m), EncodeAddress(m))
  {
    hide Spells, TextTree, StringField, FitsText;
    SpellsText(Place, 10, m.streetAddress);
    var f1, b1 := TextTree(10, m.streetAddress), StringField(10, m.streetAddress);
    SpellsTextAfter(Place, f1, b1, 18, m.city);
    var f2, b2 := f1 + TextTree(18, m.city), b1 + StringField(18, m.city);
    SpellsTextAfter(Place, f2, b2, 26, m.state);
    var f3, b3 := f2 + TextTree(26, m.state), b2 + StringField(26, m.state);
    SpellsTextAfter(Place, f3, b3, 34, m.country);
    SpellsTextAfter(Place, f3 + TextTree(34, m.country), b3 + StringField(34, m.country), 42, m.zipCode);
  }

  lemma ItemSpelled(m: OrderItem)
    requires FitsOrderItem(m)
    ensures Spells(Item, ItemTree(m), EncodeOrderItem(m))
  {
    hide Spells, PartTree, MessageField, FitsCartItem, FitsMoney;
    if m.item.Some? {
      ProductSpelled(m.item.value);
    }
    if m.cost.Some? {
      AmountSpelled(m.cost.value);
    }
    SpellsPart(Item, 10, Product, m.item, ProductTree, EncodeCartItem);
    SpellsPart(Item, 18, Amount, m.cost, AmountTree, EncodeMoney);
    SpellsConcat(Item, PartTree(10, Product, m.item, ProductTree), MessageField(10, Encoded(m.item, EncodeCartItem)),
                 PartTree(18, Amount, m.cost, AmountTree), MessageField(18, Encoded(m.cost, EncodeMoney)));
  }

  lemma {:induction false} ItemsSpelled(items: seq<OrderItem>)
    requires forall v | v in items :: FitsOrderItem(v) && |EncodeOrderItem(v)| < TWO_32
    ensures Spells(Order, ItemTrees(items), EncodeOrderItems(items))
  {
    if items != [] {
      hide Spells, MessageField, FitsOrderItem, EncodeOrderItem, ItemTree;
      var front, v := items[..|items| - 1], items[|items| - 1];
      ItemsSpelled(front);
      ItemSpelled(v);
      SpellsChild(Order, 42, Item, ItemTree(v), EncodeOrderItem(v));
      SpellsConcat(Order, ItemTrees(front), EncodeOrderItems(front), [Child(42, Item, ItemTree(v))],
                   MessageField(42, Some(EncodeOrderItem(v))));
    }
  }

  lemma OrderSpelled(m: OrderResult)
    requires FitsOrderResult(m)
    ensures Spells(Order, OrderTree(m), EncodeOrderResult(m))
  {
    hide Spells, PartTree, TextTree, StringField, MessageField, ItemTrees, EncodeOrderItems;
    hide FitsAddress, FitsMoney, FitsOrderItem, FitsText;
    var costs, cost :=
      PartTree(26, Amount, m.shippingCost, AmountTree), MessageField(26, Encoded(m.shippingCost, EncodeMoney));
    var places, place :=
      PartTree(34, Place, m.shippingAddress, PlaceTree), MessageField(34, Encoded(m.shippingAddress, EncodeAddress));
    if m.shippingCost.Some? {
      AmountSpelled(m.shippingCost.value);
    }
    if m.shippingAddress.Some? {
      PlaceSpelled(m.shippingAddress.value);
    }
    SpellsText(Order, 10, m.orderId);
    var f1, b1 := TextTree(10, m.orderId), StringField(10, m.orderId);
    SpellsTextAfter(Order, f1, b1, 18, m.shippingTrackingId);
    var f2, b2 := f1 + TextTree(18, m.shippingTrackingId), b1 + StringField(18, m.shippingTrackingId);
    SpellsPart(Order, 26, Amount, m.shippingCost, AmountTree, EncodeMoney);
    SpellsConcat(Order, f2, b2, costs, cost);
    SpellsPart(Order, 34, Place, m.shippingAddress, PlaceTree, EncodeAddress);
    SpellsConcat(Order, f2 + costs, b2 + cost, places, place);
    ItemsSpelled(m.items);
    SpellsConcat(Order, f2 + costs + places, b2 + cost + place, ItemTrees(m.items), EncodeOrderItems(m.items));
  }

  /** An encoded request is the tree of its fields. */
  lemma RequestSpelled(m: SendOrderConfirmationRequest)
    requires FitsConfirmation(m)
    ensures Spells(Request, RequestTree(m), EncodeConfirmation(m))
  {
    hide Spells, PartTree, TextTree, StringField, MessageField, FitsOrderResult;
    if m.order.Some? {
      OrderSpelled(m.order.value);
    }
    SpellsText(Request, 10, m.email);
    SpellsPart(Request, 18, Order, m.order, OrderTree, EncodeOrderResult);
    SpellsConcat(Request, TextTree(10, m.email), StringField(10, m.email),
                 PartTree(18, Order, m.order, OrderTree), MessageField(18, Encoded(m.order, EncodeOrderResult)));
  }

  /** The round trip with unknown fields put anywhere into what was written, at every level:
      the very same request, if and only if every amount in it is safe. */
  lemma NoisyRoundTrip(m: SendOrderConfirmationRequest, fs: seq<Field>)
    requires FitsConfirmation(m) && Conforms(Request, fs) && Known(fs) == RequestTree(m)
    ensures Decode(ConfirmationField, Write(fs), BASE_CONFIRMATION) == if SafeConfirmation(m) then Got(m, []) else Fail
  {
    hide Decode, Conforms, FitsConfirmation, SafeConfirmation, EncodeConfirmation;
    RequestSpelled(m);
    UnknownFieldsAtEveryLevel(fs);
    ConfirmationRoundTrip(m);
  }
}
