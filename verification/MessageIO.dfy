/** `encode` and `decode` of each message as the generated code runs them: a writer appended
    to in place, a reader moved forward in a tag-dispatch loop. Each is proved to compute
    the functions of `Messages`, thrown errors included. */
module MessageIO {
  import opened Wrappers
  import opened MachineInts
  import opened Wire
  import opened DecodeLoop
  import opened Messages
  import opened MessageTheorems
  import opened WireIO

  /** What `fork` and `join` leave around the bytes of a child. */
  lemma ChildField(before: seq<byte>, tag: nat, child: seq<byte>)
    ensures before + EncVarint(tag) + LengthDelimited([] + child) == before + MessageField(tag, Some(child))
  {
  }

  /** How many bytes lie behind the bound a `decode` call is given. */
  ghost function Stop(unread: seq<byte>, length: Option<nat>): int {
    if length.None? then 0 else |unread| - length.value
  }

  // ---------- CartItem ----------

  method WriteCartItem(message: CartItem, writer: Writer) returns (r: Result<()>)
    modifies writer
    ensures r.Success? <==> FitsCartItem(message)
    ensures r.Success? ==> writer.buf == old(writer.buf) + EncodeCartItem(message)
    ensures r.Success? ==> writer.stack == old(writer.stack)
  {
    hide EncVarint, LengthDelimited, StringField, IntField;
    var _ :- writer.StringField(10, message.productId);
    writer.IntField(16, message.quantity);
    assert writer.buf == old(writer.buf) + (
             StringField(10, message.productId) + IntField(16, message.quantity));
    return Success(());
  }

  method ReadCartItem(reader: Reader, length: Option<nat>) returns (r: Result<CartItem>)
    requires reader.Valid()
    modifies reader`pos
    ensures reader.Valid()
    ensures reader.Outcome(r)
         == Loop(CartItemField, old(reader.Rest()), Stop(old(reader.Rest()), length), BASE_CART_ITEM)
  {
    hide Loop, Wire.Uint32, Wire.Int32, Wire.Int64, Wire.Bytes, Wire.Skip;
    var end := if length.None? then |reader.buf| else reader.pos + length.value;
    var message := BASE_CART_ITEM;
    while reader.pos < end
      invariant reader.Valid()
      invariant Loop(CartItemField, reader.Rest(), |reader.buf| - end, message)
             == Loop(CartItemField, old(reader.Rest()), |reader.buf| - end, BASE_CART_ITEM)
      decreases |reader.buf| - reader.pos
    {
      LoopTurn(CartItemField, reader.Rest(), |reader.buf| - end, message);
      var tag :- reader.Uint32();
      match tag {
        case 10 =>
          var v :- reader.Bytes();
          message := message.(productId := v);
        case 16 =>
          var v :- reader.Int32();
          message := message.(quantity := v);
        case _ =>
          if tag % 8 == 4 || tag == 0 {
            break;
          }
          var _ :- reader.Skip(tag % 8);
      }
    }
    if reader.pos >= end {
      LoopTurn(CartItemField, reader.Rest(), |reader.buf| - end, message);
    }
    return Success(message);
  }

  /** The length prefix of a cart item, and a cart item read up to it. */
  method ReadCartItemChild(reader: Reader) returns (r: Result<CartItem>)
    requires reader.Valid()
    modifies reader`pos
    ensures reader.Valid()
    ensures reader.Outcome(r) == Nested(CartItemField, old(reader.Rest()), BASE_CART_ITEM)
  {
    hide Loop, Wire.Uint32, CartItemField;
    var size :- reader.Uint32();
    r := ReadCartItem(reader, Some(size));
  }

  /** The field of a present cart item: its tag, and its bytes behind their length. */
  method WriteCartItemField(tag: nat, v: Option<CartItem>, writer: Writer) returns (r: Result<()>)
    requires tag < TWO_32
    modifies writer
    ensures r.Success? <==> (v.Some? ==> FitsCartItem(v.value) && |EncodeCartItem(v.value)| < TWO_32)
    ensures r.Success? ==> writer.buf == old(writer.buf) + MessageField(tag, Encoded(v, EncodeCartItem))
    ensures r.Success? ==> writer.stack == old(writer.stack)
  {
    hide EncVarint, EncodeCartItem;
    if v.Some? {
      writer.Tag(tag);
      writer.Fork();
      var _ :- WriteCartItem(v.value, writer);
      var _ :- writer.Join();
      ChildField(old(writer.buf), tag, EncodeCartItem(v.value));
    }
    return Success(());
  }

  /** One field for each item, in order. */
  method WriteCartItems(items: seq<CartItem>, writer: Writer) returns (r: Result<()>)
    modifies writer
    ensures r.Success? <==> forall v | v in items :: FitsCartItem(v) && |EncodeCartItem(v)| < TWO_32
    ensures r.Success? ==> writer.buf == old(writer.buf) + EncodeCartItems(items)
    ensures r.Success? ==> writer.stack == old(writer.stack)
  {
    hide EncVarint, EncodeCartItem, FitsCartItem, MessageField;
    for i := 0 to |items|
      invariant forall v | v in items[..i] :: FitsCartItem(v) && |EncodeCartItem(v)| < TWO_32
      invariant writer.buf == old(writer.buf) + EncodeCartItems(items[..i]) && writer.stack == old(writer.stack)
    {
      ghost var before := writer.buf;
      writer.Tag(18);
      writer.Fork();
      var _ :- WriteCartItem(items[i], writer);
      var _ :- writer.Join();
      ChildField(before, 18, EncodeCartItem(items[i]));
      assert items[..i + 1] == items[..i] + [items[i]];
      assert items[..i + 1][..i] == items[..i];
    }
    assert items[..|items|] == items;
    return Success(());
  }

  // ---------- Cart ----------

  method WriteCart(message: Cart, writer: Writer) returns (r: Result<()>)
    modifies writer
    ensures r.Success? <==> FitsCart(message)
    ensures r.Success? ==> writer.buf == old(writer.buf) + EncodeCart(message)
    ensures r.Success? ==> writer.stack == old(writer.stack)
  {
    hide EncVarint, LengthDelimited, StringField, IntField, EncodeCartItems;
    var _ :- writer.StringField(10, message.userId);
    var _ :- WriteCartItems(message.items, writer);
    assert writer.buf == old(writer.buf) + (
             StringField(10, message.userId) + EncodeCartItems(message.items));
    return Success(());
  }

  method ReadCart(reader: Reader, length: Option<nat>) returns (r: Result<Cart>)
    requires reader.Valid()
    modifies reader`pos
    ensures reader.Valid()
    ensures reader.Outcome(r)
         == Loop(CartField, old(reader.Rest()), Stop(old(reader.Rest()), length), BASE_CART)
  {
    hide Loop, Wire.Uint32, Wire.Int32, Wire.Int64, Wire.Bytes, Wire.Skip, CartItemField, Nested;
    var end := if length.None? then |reader.buf| else reader.pos + length.value;
    var message := BASE_CART;
    while reader.pos < end
      invariant reader.Valid()
      invariant Loop(CartField, reader.Rest(), |reader.buf| - end, message)
             == Loop(CartField, old(reader.Rest()), |reader.buf| - end, BASE_CART)
      decreases |reader.buf| - reader.pos
    {
      LoopTurn(CartField, reader.Rest(), |reader.buf| - end, message);
      var tag :- reader.Uint32();
      match tag {
        case 10 =>
          var v :- reader.Bytes();
          message := message.(userId := v);
        case 18 =>
          var v :- ReadCartItemChild(reader);
          message := message.(items := message.items + [v]);
        case _ =>
          if tag % 8 == 4 || tag == 0 {
            break;
          }
          var _ :- reader.Skip(tag % 8);
      }
    }
    if reader.pos >= end {
      LoopTurn(CartField, reader.Rest(), |reader.buf| - end, message);
    }
    return Success(message);
  }

  // ---------- Address ----------

  method WriteAddress(message: Address, writer: Writer) returns (r: Result<()>)
    modifies writer
    ensures r.Success? <==> FitsAddress(message)
    ensures r.Success? ==> writer.buf == old(writer.buf) + EncodeAddress(message)
    ensures r.Success? ==> writer.stack == old(writer.stack)
  {
    hide EncVarint, LengthDelimited, StringField, IntField;
    var _ :- writer.StringField(10, message.streetAddress);
    var _ :- writer.StringField(18, message.city);
    var _ :- writer.StringField(26, message.state);
    var _ :- writer.StringField(34, message.country);
    var _ :- writer.StringField(42, message.zipCode);
    assert writer.buf == old(writer.buf) + (
             StringField(10, message.streetAddress) + StringField(18, message.city)
             + StringField(26, message.state) + StringField(34, message.country)
             + StringField(42, message.zipCode));
    return Success(());
  }

  method ReadAddress(reader: Reader, length: Option<nat>) returns (r: Result<Address>)
    requires reader.Valid()
    modifies reader`pos
    ensures reader.Valid()
    ensures reader.Outcome(r)
         == Loop(AddressField, old(reader.Rest()), Stop(old(reader.Rest()), length), BASE_ADDRESS)
  {
    hide Loop, Wire.Uint32, Wire.Int32, Wire.Int64, Wire.Bytes, Wire.Skip;
    var end := if length.None? then |reader.buf| else reader.pos + length.value;
    var message := BASE_ADDRESS;
    while reader.pos < end
      invariant reader.Valid()
      invariant Loop(AddressField, reader.Rest(), |reader.buf| - end, message)
             == Loop(AddressField, old(reader.Rest()), |reader.buf| - end, BASE_ADDRESS)
      decreases |reader.buf| - reader.pos
    {
      LoopTurn(AddressField, reader.Rest(), |reader.buf| - end, message);
      var tag :- reader.Uint32();
      match tag {
        case 10 =>
          var v :- reader.Bytes();
          message := message.(streetAddress := v);
        case 18 =>
          var v :- reader.Bytes();
          message := message.(city := v);
        case 26 =>
          var v :- reader.Bytes();
          message := message.(state := v);
        case 34 =>
          var v :- reader.Bytes();
          message := message.(country := v);
        case 42 =>
          var v :- reader.Bytes();
          message := message.(zipCode := v);
        case _ =>
          if tag % 8 == 4 || tag == 0 {
            break;
          }
          var _ :- reader.Skip(tag % 8);
      }
    }
    if reader.pos >= end {
      LoopTurn(AddressField, reader.Rest(), |reader.buf| - end, message);
    }
    return Success(message);
  }

  /** The length prefix of an address, and an address read up to it. */
  method ReadAddressChild(reader: Reader) returns (r: Result<Address>)
    requires reader.Valid()
    modifies reader`pos
    ensures reader.Valid()
    ensures reader.Outcome(r) == Nested(AddressField, old(reader.Rest()), BASE_ADDRESS)
  {
    hide Loop, Wire.Uint32, AddressField;
    var size :- reader.Uint32();
    r := ReadAddress(reader, Some(size));
  }

  /** The field of a present address: its tag, and its bytes behind their length. */
  method WriteAddressField(tag: nat, v: Option<Address>, writer: Writer) returns (r: Result<()>)
    requires tag < TWO_32
    modifies writer
    ensures r.Success? <==> (v.Some? ==> FitsAddress(v.value) && |EncodeAddress(v.value)| < TWO_32)
    ensures r.Success? ==> writer.buf == old(writer.buf) + MessageField(tag, Encoded(v, EncodeAddress))
    ensures r.Success? ==> writer.stack == old(writer.stack)
  {
    hide EncVarint, EncodeAddress;
    if v.Some? {
      writer.Tag(tag);
      writer.Fork();
      var _ :- WriteAddress(v.value, writer);
      var _ :- writer.Join();
      ChildField(old(writer.buf), tag, EncodeAddress(v.value));
    }
    return Success(());
  }

  // ---------- Money ----------

  method WriteMoney(message: Money, writer: Writer) returns (r: Result<()>)
    modifies writer
    ensures r.Success? <==> FitsMoney(message)
    ensures r.Success? ==> writer.buf == old(writer.buf) + EncodeMoney(message)
    ensures r.Success? ==> writer.stack == old(writer.stack)
  {
    hide EncVarint, LengthDelimited, StringField, IntField;
    var _ :- writer.StringField(10, message.currencyCode);
    writer.IntField(16, message.units);
    writer.IntField(24, message.nanos);
    assert writer.buf == old(writer.buf) + (
             StringField(10, message.currencyCode) + IntField(16, message.units)
             + IntField(24, message.nanos));
    return Success(());
  }

  method ReadMoney(reader: Reader, length: Option<nat>) returns (r: Result<Money>)
    requires reader.Valid()
    modifies reader`pos
    ensures reader.Valid()
    ensures reader.Outcome(r)
         == Loop(MoneyField, old(reader.Rest()), Stop(old(reader.Rest()), length), BASE_MONEY)
  {
    hide Loop, Wire.Uint32, Wire.Int32, Wire.Int64, Wire.Bytes, Wire.Skip;
    var end := if length.None? then |reader.buf| else reader.pos + length.value;
    var message := BASE_MONEY;
    while reader.pos < end
      invariant reader.Valid()
      invariant Loop(MoneyField, reader.Rest(), |reader.buf| - end, message)
             == Loop(MoneyField, old(reader.Rest()), |reader.buf| - end, BASE_MONEY)
      decreases |reader.buf| - reader.pos
    {
      LoopTurn(MoneyField, reader.Rest(), |reader.buf| - end, message);
      var tag :- reader.Uint32();
      match tag {
        case 10 =>
          var v :- reader.Bytes();
          message := message.(currencyCode := v);
        case 16 =>
          var v :- reader.Int64();
          var n :- LongToNumber(v);
          message := message.(units := n);
        case 24 =>
          var v :- reader.Int32();
          message := message.(nanos := v);
        case _ =>
          if tag % 8 == 4 || tag == 0 {
            break;
          }
          var _ :- reader.Skip(tag % 8);
      }
    }
    if reader.pos >= end {
      LoopTurn(MoneyField, reader.Rest(), |reader.buf| - end, message);
    }
    return Success(message);
  }

  /** The length prefix of an amount, and an amount read up to it. */
  method ReadMoneyChild(reader: Reader) returns (r: Result<Money>)
    requires reader.Valid()
    modifies reader`pos
    ensures reader.Valid()
    ensures reader.Outcome(r) == Nested(MoneyField, old(reader.Rest()), BASE_MONEY)
  {
    hide Loop, Wire.Uint32, MoneyField;
    var size :- reader.Uint32();
    r := ReadMoney(reader, Some(size));
  }

  /** The field of a present amount: its tag, and its bytes behind their length. */
  method WriteMoneyField(tag: nat, v: Option<Money>, writer: Writer) returns (r: Result<()>)
    requires tag < TWO_32
    modifies writer
    ensures r.Success? <==> (v.Some? ==> FitsMoney(v.value) && |EncodeMoney(v.value)| < TWO_32)
    ensures r.Success? ==> writer.buf == old(writer.buf) + MessageField(tag, Encoded(v, EncodeMoney))
    ensures r.Success? ==> writer.stack == old(writer.stack)
  {
    hide EncVarint, EncodeMoney;
    if v.Some? {
      writer.Tag(tag);
      writer.Fork();
      var _ :- WriteMoney(v.value, writer);
      var _ :- writer.Join();
      ChildField(old(writer.buf), tag, EncodeMoney(v.value));
    }
    return Success(());
  }

  // ---------- CreditCardInfo ----------

  method WriteCreditCardInfo(message: CreditCardInfo, writer: Writer) returns (r: Result<()>)
    modifies writer
    ensures r.Success? <==> FitsCreditCard(message)
    ensures r.Success? ==> writer.buf == old(writer.buf) + EncodeCreditCardInfo(message)
    ensures r.Success? ==> writer.stack == old(writer.stack)
  {
    hide EncVarint, LengthDelimited, StringField, IntField;
    var _ :- writer.StringField(10, message.creditCardNumber);
    writer.IntField(16, message.creditCardCvv);
    writer.IntField(24, message.creditCardExpirationYear);
    writer.IntField(32, message.creditCardExpirationMonth);
    assert writer.buf == old(writer.buf) + (
             StringField(10, message.creditCardNumber) + IntField(16, message.creditCardCvv)
             + IntField(24, message.creditCardExpirationYear)
             + IntField(32, message.creditCardExpirationMonth));
    return Success(());
  }

  method ReadCreditCardInfo(reader: Reader, length: Option<nat>) returns (r: Result<CreditCardInfo>)
    requires reader.Valid()
    modifies reader`pos
    ensures reader.Valid()
    ensures reader.Outcome(r)
         == Loop(CreditCardField, old(reader.Rest()), Stop(old(reader.Rest()), length), BASE_CREDIT_CARD)
  {
    hide Loop, Wire.Uint32, Wire.Int32, Wire.Int64, Wire.Bytes, Wire.Skip;
    var end := if length.None? then |reader.buf| else reader.pos + length.value;
    var message := BASE_CREDIT_CARD;
    while reader.pos < end
      invariant reader.Valid()
      invariant Loop(CreditCardField, reader.Rest(), |reader.buf| - end, message)
             == Loop(CreditCardField, old(reader.Rest()), |reader.buf| - end, BASE_CREDIT_CARD)
      decreases |reader.buf| - reader.pos
    {
      LoopTurn(CreditCardField, reader.Rest(), |reader.buf| - end, message);
      var tag :- reader.Uint32();
      match tag {
        case 10 =>
          var v :- reader.Bytes();
          message := message.(creditCardNumber := v);
        case 16 =>
          var v :- reader.Int32();
          message := message.(creditCardCvv := v);
        case 24 =>
          var v :- reader.Int32();
          message := message.(creditCardExpirationYear := v);
        case 32 =>
          var v :- reader.Int32();
          message := message.(creditCardExpirationMonth := v);
        case _ =>
          if tag % 8 == 4 || tag == 0 {
            break;
          }
          var _ :- reader.Skip(tag % 8);
      }
    }
    if reader.pos >= end {
      LoopTurn(CreditCardField, reader.Rest(), |reader.buf| - end, message);
    }
    return Success(message);
  }

  /** The length prefix of a credit card, and a credit card read up to it. */
  method ReadCreditCardInfoChild(reader: Reader) returns (r: Result<CreditCardInfo>)
    requires reader.Valid()
    modifies reader`pos
    ensures reader.Valid()
    ensures reader.Outcome(r) == Nested(CreditCardField, old(reader.Rest()), BASE_CREDIT_CARD)
  {
    hide Loop, Wire.Uint32, CreditCardField;
    var size :- reader.Uint32();
    r := ReadCreditCardInfo(reader, Some(size));
  }

  /** The field of a present credit card: its tag, and its bytes behind their length. */
  method WriteCreditCardInfoField(tag: nat, v: Option<CreditCardInfo>, writer: Writer) returns (r: Result<()>)
    requires tag < TWO_32
    modifies writer
    ensures r.Success? <==> (v.Some? ==> FitsCreditCard(v.value) && |EncodeCreditCardInfo(v.value)| < TWO_32)
    ensures r.Success? ==> writer.buf == old(writer.buf) + MessageField(tag, Encoded(v, EncodeCreditCardInfo))
    ensures r.Success? ==> writer.stack == old(writer.stack)
  {
    hide EncVarint, EncodeCreditCardInfo;
    if v.Some? {
      writer.Tag(tag);
      writer.Fork();
      var _ :- WriteCreditCardInfo(v.value, writer);
      var _ :- writer.Join();
      ChildField(old(writer.buf), tag, EncodeCreditCardInfo(v.value));
    }
    return Success(());
  }

  // ---------- OrderItem ----------

  method WriteOrderItem(message: OrderItem, writer: Writer) returns (r: Result<()>)
    modifies writer
    ensures r.Success? <==> FitsOrderItem(message)
    ensures r.Success? ==> writer.buf == old(writer.buf) + EncodeOrderItem(message)
    ensures r.Success? ==> writer.stack == old(writer.stack)
  {
    hide EncVarint, LengthDelimited, StringField, IntField, EncodeCartItem, EncodeMoney;
    var _ :- WriteCartItemField(10, message.item, writer);
    var _ :- WriteMoneyField(18, message.cost, writer);
    assert writer.buf == old(writer.buf) + (
             MessageField(10, Encoded(message.item, EncodeCartItem))
             + MessageField(18, Encoded(message.cost, EncodeMoney)));
    return Success(());
  }

  method ReadOrderItem(reader: Reader, length: Option<nat>) returns (r: Result<OrderItem>)
    requires reader.Valid()
    modifies reader`pos
    ensures reader.Valid()
    ensures reader.Outcome(r)
         == Loop(OrderItemField, old(reader.Rest()), Stop(old(reader.Rest()), length), BASE_ORDER_ITEM)
  {
    hide Loop, Wire.Uint32, Wire.Int32, Wire.Int64, Wire.Bytes, Wire.Skip, CartItemField, MoneyField, Nested;
    var end := if length.None? then |reader.buf| else reader.pos + length.value;
    var message := BASE_ORDER_ITEM;
    while reader.pos < end
      invariant reader.Valid()
      invariant Loop(OrderItemField, reader.Rest(), |reader.buf| - end, message)
             == Loop(OrderItemField, old(reader.Rest()), |reader.buf| - end, BASE_ORDER_ITEM)
      decreases |reader.buf| - reader.pos
    {
      LoopTurn(OrderItemField, reader.Rest(), |reader.buf| - end, message);
      var tag :- reader.Uint32();
      match tag {
        case 10 =>
          var v :- ReadCartItemChild(reader);
          message := message.(item := Some(v));
        case 18 =>
          var v :- ReadMoneyChild(reader);
          message := message.(cost := Some(v));
        case _ =>
          if tag % 8 == 4 || tag == 0 {
            break;
          }
          var _ :- reader.Skip(tag % 8);
      }
    }
    if reader.pos >= end {
      LoopTurn(OrderItemField, reader.Rest(), |reader.buf| - end, message);
    }
    return Success(message);
  }

  /** The length prefix of an order item, and an order item read up to it. */
  method ReadOrderItemChild(reader: Reader) returns (r: Result<OrderItem>)
    requires reader.Valid()
    modifies reader`pos
    ensures reader.Valid()
    ensures reader.Outcome(r) == Nested(OrderItemField, old(reader.Rest()), BASE_ORDER_ITEM)
  {
    hide Loop, Wire.Uint32, OrderItemField;
    var size :- reader.Uint32();
    r := ReadOrderItem(reader, Some(size));
  }

  /** One field for each item, in order. */
  method WriteOrderItems(items: seq<OrderItem>, writer: Writer) returns (r: Result<()>)
    modifies writer
    ensures r.Success? <==> forall v | v in items :: FitsOrderItem(v) && |EncodeOrderItem(v)| < TWO_32
    ensures r.Success? ==> writer.buf == old(writer.buf) + EncodeOrderItems(items)
    ensures r.Success? ==> writer.stack == old(writer.stack)
  {
    hide EncVarint, EncodeOrderItem, FitsOrderItem, MessageField;
    for i := 0 to |items|
      invariant forall v | v in items[..i] :: FitsOrderItem(v) && |EncodeOrderItem(v)| < TWO_32
      invariant writer.buf == old(writer.buf) + EncodeOrderItems(items[..i]) && writer.stack == old(writer.stack)
    {
      ghost var before := writer.buf;
      writer.Tag(42);
      writer.Fork();
      var _ :- WriteOrderItem(items[i], writer);
      var _ :- writer.Join();
      ChildField(before, 42, EncodeOrderItem(items[i]));
      assert items[..i + 1] == items[..i] + [items[i]];
      assert items[..i + 1][..i] == items[..i];
    }
    assert items[..|items|] == items;
    return Success(());
  }

  // ---------- OrderResult ----------

  method WriteOrderResult(message: OrderResult, writer: Writer) returns (r: Result<()>)
    modifies writer
    ensures r.Success? <==> FitsOrderResult(message)
    ensures r.Success? ==> writer.buf == old(writer.buf) + EncodeOrderResult(message)
    ensures r.Success? ==> writer.stack == old(writer.stack)
  {
    hide EncVarint, LengthDelimited, StringField, IntField, EncodeMoney, EncodeAddress, EncodeOrderItems;
    var _ :- writer.StringField(10, message.orderId);
    var _ :- writer.StringField(18, message.shippingTrackingId);
    var _ :- WriteMoneyField(26, message.shippingCost, writer);
    var _ :- WriteAddressField(34, message.shippingAddress, writer);
    var _ :- WriteOrderItems(message.items, writer);
    assert writer.buf == old(writer.buf) + (
             StringField(10, message.orderId) + StringField(18, message.shippingTrackingId)
             + MessageField(26, Encoded(message.shippingCost, EncodeMoney))
             + MessageField(34, Encoded(message.shippingAddress, EncodeAddress))
             + EncodeOrderItems(message.items));
    return Success(());
  }

  method ReadOrderResult(reader: Reader, length: Option<nat>) returns (r: Result<OrderResult>)
    requires reader.Valid()
    modifies reader`pos
    ensures reader.Valid()
    ensures reader.Outcome(r)
         == Loop(OrderResultField, old(reader.Rest()), Stop(old(reader.Rest()), length), BASE_ORDER_RESULT)
  {
    hide Loop, Wire.Uint32, Wire.Int32, Wire.Int64, Wire.Bytes, Wire.Skip, Nested;
    hide MoneyField, AddressField, OrderItemField;
    var end := if length.None? then |reader.buf| else reader.pos + length.value;
    var message := BASE_ORDER_RESULT;
    while reader.pos < end
      invariant reader.Valid()
      invariant Loop(OrderResultField, reader.Rest(), |reader.buf| - end, message)
             == Loop(OrderResultField, old(reader.Rest()), |reader.buf| - end, BASE_ORDER_RESULT)
      decreases |reader.buf| - reader.pos
    {
      LoopTurn(OrderResultField, reader.Rest(), |reader.buf| - end, message);
      var tag :- reader.Uint32();
      match tag {
        case 10 =>
          var v :- reader.Bytes();
          message := message.(orderId := v);
        case 18 =>
          var v :- reader.Bytes();
          message := message.(shippingTrackingId := v);
        case 26 =>
          var v :- ReadMoneyChild(reader);
          message := message.(shippingCost := Some(v));
        case 34 =>
          var v :- ReadAddressChild(reader);
          message := message.(shippingAddress := Some(v));
        case 42 =>
          var v :- ReadOrderItemChild(reader);
          message := message.(items := message.items + [v]);
        case _ =>
          if tag % 8 == 4 || tag == 0 {
            break;
          }
          var _ :- reader.Skip(tag % 8);
      }
    }
    if reader.pos >= end {
      LoopTurn(OrderResultField, reader.Rest(), |reader.buf| - end, message);
    }
    return Success(message);
  }

  /** The length prefix of an order, and an order read up to it. */
  method ReadOrderResultChild(reader: Reader) returns (r: Result<OrderResult>)
    requires reader.Valid()
    modifies reader`pos
    ensures reader.Valid()
    ensures reader.Outcome(r) == Nested(OrderResultField, old(reader.Rest()), BASE_ORDER_RESULT)
  {
    hide Loop, Wire.Uint32, OrderResultField;
    var size :- reader.Uint32();
    r := ReadOrderResult(reader, Some(size));
  }

  /** The field of a present order: its tag, and its bytes behind their length. */
  method WriteOrderResultField(tag: nat, v: Option<OrderResult>, writer: Writer) returns (r: Result<()>)
    requires tag < TWO_32
    modifies writer
    ensures r.Success? <==> (v.Some? ==> FitsOrderResult(v.value) && |EncodeOrderResult(v.value)| < TWO_32)
    ensures r.Success? ==> writer.buf == old(writer.buf) + MessageField(tag, Encoded(v, EncodeOrderResult))
    ensures r.Success? ==> writer.stack == old(writer.stack)
  {
    hide EncVarint, EncodeOrderResult;
    if v.Some? {
      writer.Tag(tag);
      writer.Fork();
      var _ :- WriteOrderResult(v.value, writer);
      var _ :- writer.Join();
      ChildField(old(writer.buf), tag, EncodeOrderResult(v.value));
    }
    return Success(());
  }

  // ---------- SendOrderConfirmationRequest ----------

  method WriteSendOrderConfirmationRequest(message: SendOrderConfirmationRequest, writer: Writer)
    returns (r: Result<()>)
    modifies writer
    ensures r.Success? <==> FitsConfirmation(message)
    ensures r.Success? ==> writer.buf == old(writer.buf) + EncodeConfirmation(message)
    ensures r.Success? ==> writer.stack == old(writer.stack)
  {
    hide EncVarint, LengthDelimited, StringField, IntField, EncodeOrderResult;
    var _ :- writer.StringField(10, message.email);
    var _ :- WriteOrderResultField(18, message.order, writer);
    assert writer.buf == old(writer.buf) + (
             StringField(10, message.email)
             + MessageField(18, Encoded(message.order, EncodeOrderResult)));
    return Success(());
  }

  method ReadSendOrderConfirmationRequest(reader: Reader, length: Option<nat>)
    returns (r: Result<SendOrderConfirmationRequest>)
    requires reader.Valid()
    modifies reader`pos
    ensures reader.Valid()
    ensures reader.Outcome(r)
         == Loop(ConfirmationField, old(reader.Rest()), Stop(old(reader.Rest()), length), BASE_CONFIRMATION)
  {
    hide Loop, Wire.Uint32, Wire.Int32, Wire.Int64, Wire.Bytes, Wire.Skip, OrderResultField, Nested;
    var end := if length.None? then |reader.buf| else reader.pos + length.value;
    var message := BASE_CONFIRMATION;
    while reader.pos < end
      invariant reader.Valid()
      invariant Loop(ConfirmationField, reader.Rest(), |reader.buf| - end, message)
             == Loop(ConfirmationField, old(reader.Rest()), |reader.buf| - end, BASE_CONFIRMATION)
      decreases |reader.buf| - reader.pos
    {
      LoopTurn(ConfirmationField, reader.Rest(), |reader.buf| - end, message);
      var tag :- reader.Uint32();
      match tag {
        case 10 =>
          var v :- reader.Bytes();
          message := message.(email := v);
        case 18 =>
          var v :- ReadOrderResultChild(reader);
          message := message.(order := Some(v));
        case _ =>
          if tag % 8 == 4 || tag == 0 {
            break;
          }
          var _ :- reader.Skip(tag % 8);
      }
    }
    if reader.pos >= end {
      LoopTurn(ConfirmationField, reader.Rest(), |reader.buf| - end, message);
    }
    return Success(message);
  }

  // ---------- PlaceOrderRequest ----------

  method WritePlaceOrderRequest(message: PlaceOrderRequest, writer: Writer) returns (r: Result<()>)
    modifies writer
    ensures r.Success? <==> FitsPlaceOrder(message)
    ensures r.Success? ==> writer.buf == old(writer.buf) + EncodePlaceOrder(message)
    ensures r.Success? ==> writer.stack == old(writer.stack)
  {
    hide EncVarint, LengthDelimited, StringField, IntField, EncodeAddress, EncodeCreditCardInfo;
    var _ :- writer.StringField(10, message.userId);
    var _ :- writer.StringField(18, message.userCurrency);
    var _ :- WriteAddressField(26, message.address, writer);
    var _ :- writer.StringField(42, message.email);
    var _ :- WriteCreditCardInfoField(50, message.creditCard, writer);
    assert writer.buf == old(writer.buf) + (
             StringField(10, message.userId) + StringField(18, message.userCurrency)
             + MessageField(26, Encoded(message.address, EncodeAddress))
             + StringField(42, message.email)
             + MessageField(50, Encoded(message.creditCard, EncodeCreditCardInfo)));
    return Success(());
  }

  method ReadPlaceOrderRequest(reader: Reader, length: Option<nat>) returns (r: Result<PlaceOrderRequest>)
    requires reader.Valid()
    modifies reader`pos
    ensures reader.Valid()
    ensures reader.Outcome(r)
         == Loop(PlaceOrderField, old(reader.Rest()), Stop(old(reader.Rest()), length), BASE_PLACE_ORDER)
  {
    hide Loop, Wire.Uint32, Wire.Int32, Wire.Int64, Wire.Bytes, Wire.Skip, AddressField, CreditCardField, Nested;
    var end := if length.None? then |reader.buf| else reader.pos + length.value;
    var message := BASE_PLACE_ORDER;
    while reader.pos < end
      invariant reader.Valid()
      invariant Loop(PlaceOrderField, reader.Rest(), |reader.buf| - end, message)
             == Loop(PlaceOrderField, old(reader.Rest()), |reader.buf| - end, BASE_PLACE_ORDER)
      decreases |reader.buf| - reader.pos
    {
      LoopTurn(PlaceOrderField, reader.Rest(), |reader.buf| - end, message);
      var tag :- reader.Uint32();
      match tag {
        case 10 =>
          var v :- reader.Bytes();
          message := message.(userId := v);
        case 18 =>
          var v :- reader.Bytes();
          message := message.(userCurrency := v);
        case 26 =>
          var v :- ReadAddressChild(reader);
          message := message.(address := Some(v));
        case 42 =>
          var v :- reader.Bytes();
          message := message.(email := v);
        case 50 =>
          var v :- ReadCreditCardInfoChild(reader);
          message := message.(creditCard := Some(v));
        case _ =>
          if tag % 8 == 4 || tag == 0 {
            break;
          }
          var _ :- reader.Skip(tag % 8);
      }
    }
    if reader.pos >= end {
      LoopTurn(PlaceOrderField, reader.Rest(), |reader.buf| - end, message);
    }
    return Success(message);
  }

  /** Writing a confirmation into a fresh buffer and reading that buffer back gives the
      confirmation, and throws in the one place where an amount is not a safe integer. */
  method Resend(message: SendOrderConfirmationRequest) returns (r: Result<SendOrderConfirmationRequest>)
    requires FitsConfirmation(message)
    ensures r == if SafeConfirmation(message) then Success(message) else Failure
  {
    var writer := new Writer();
    var written := WriteSendOrderConfirmationRequest(message, writer);
    var reader := new Reader(writer.buf);
    r := ReadSendOrderConfirmationRequest(reader, None);
    assert written.Success?;
    assert [] + EncodeConfirmation(message) == EncodeConfirmation(message);
    ConfirmationRoundTrip(message);
  }
}
