/** The bytes themselves: examples of the Encoding guide, and every field of every message under
    its number, in the order in which it is written. */
module MessageBytes {
  import opened Wrappers
  import opened MachineInts
  import opened Wire
  import opened DecodeLoop
  import opened Messages

  /** Sections "Base 128 Varints", "A Simple Message", "Length-Delimited Records" and "Signed
      Integers". */
  lemma GuideExamples()
    ensures EncVarint(150) == [0x96, 0x01]
    ensures IntField(8, 150) == [0x08, 0x96, 0x01]
    ensures StringField(0x12, [0x74, 0x65, 0x73, 0x74, 0x69, 0x6e, 0x67])
         == [0x12, 0x07, 0x74, 0x65, 0x73, 0x74, 0x69, 0x6e, 0x67]
  {
    assert EncVarint(1) == [1] && EncVarint(7) == [7] && EncVarint(0x12) == [0x12] && EncVarint(8) == [8];
    assert EncVarint(150) == [0x96] + EncVarint(1);
  }

  lemma MinusTwo()
    ensures EncSigned(-2) == [0xfe, 0xff, 0xff, 0xff, 0xff, 0xff, 0xff, 0xff, 0xff, 0x01]
  {
    assert EncVarint(1) == [1];
    assert -2 % TWO_64 == 0xffff_ffff_ffff_fffe;
    hide EncVarint;
    var b1 := Next(0xff, 1, [1]);
    var b2 := Next(0x7fff, 0xff, b1);
    var b3 := Next(0x3f_ffff, 0x7fff, b2);
    var b4 := Next(0x1fff_ffff, 0x3f_ffff, b3);
    var b5 := Next(0xf_ffff_ffff, 0x1fff_ffff, b4);
    var b6 := Next(0x7ff_ffff_ffff, 0xf_ffff_ffff, b5);
    var b7 := Next(0x3_ffff_ffff_ffff, 0x7ff_ffff_ffff, b6);
    var b8 := Next(0x1ff_ffff_ffff_ffff, 0x3_ffff_ffff_ffff, b7);
    var b9 := Next(0xffff_ffff_ffff_fffe, 0x1ff_ffff_ffff_ffff, b8);
  }

  lemma Next(n: nat, m: nat, b: seq<byte>) returns (c: seq<byte>)
    requires n >= 128 && m == n / 128 && EncVarint(m) == b
    ensures EncVarint(n) == c == [128 + n % 128] + b
  {
    c := EncVarint(n);
  }

  type short = b: byte | 0 < b < 128 witness 1

  /** Texts of one byte, small numbers and small submessages. */
  lemma ShortFields()
    ensures forall tag: nat, a: byte {:trigger StringField(tag, [a])} | tag < 128 ::
              StringField(tag, [a]) == [tag, 1, a]
    ensures forall tag: nat, n: short {:trigger IntField(tag, n)} | tag < 128 :: IntField(tag, n) == [tag, n]
    ensures forall tag: nat, b: seq<byte> {:trigger MessageField(tag, Some(b))} | tag < 128 && |b| < 128 ::
              MessageField(tag, Some(b)) == [tag, |b|] + b
  {
    ShortVarints();
    hide EncVarint;
    forall n: short
      ensures EncSigned(n) == [n]
    {
      assert n % TWO_64 == n;
    }
  }

  lemma ShortVarints()
    ensures forall n: nat | n < 128 :: EncVarint(n) == [n]
  {
  }

  lemma ProductBytes(a: byte, n: short)
    ensures EncodeCartItem(CartItem([a], n)) == [10, 1, a, 16, n]
  {
    hide StringField, IntField;
    ShortFields();
  }

  lemma AmountBytes(a: byte, n: short, k: short)
    ensures EncodeMoney(Money([a], n, k)) == [10, 1, a, 16, n, 24, k]
  {
    hide StringField, IntField;
    ShortFields();
  }

  lemma PlaceBytes(a: byte, b: byte, c: byte, d: byte, e: byte)
    ensures EncodeAddress(Address([a], [b], [c], [d], [e])) == [10, 1, a, 18, 1, b, 26, 1, c, 34, 1, d, 42, 1, e]
  {
    hide StringField;
    ShortFields();
  }

  lemma CardBytes(a: byte, cvv: short, year: short, month: short)
    ensures EncodeCreditCardInfo(CreditCardInfo([a], cvv, year, month)) == [10, 1, a, 16, cvv, 24, year, 32, month]
  {
    hide StringField, IntField;
    ShortFields();
  }

  lemma CartBytes(a: byte, b: byte, n: short)
    ensures EncodeCart(Cart([a], [CartItem([b], n)])) == [10, 1, a, 18, 5, 10, 1, b, 16, n]
  {
    hide StringField, IntField, MessageField;
    ShortFields();
    ProductBytes(b, n);
    assert [CartItem([b], n)][..0] == [];
    assert EncodeCartItems([CartItem([b], n)]) == MessageField(18, Some(EncodeCartItem(CartItem([b], n))));
  }

  lemma ItemBytes(a: byte, n: short)
    ensures EncodeOrderItem(OrderItem(Some(CartItem([a], n)), Some(BASE_MONEY))) == [10, 5, 10, 1, a, 16, n, 18, 0]
  {
    hide StringField, MessageField;
    ShortFields();
    ProductBytes(a, n);
    assert EncodeMoney(BASE_MONEY) == [] by {
      NothingSet();
    }
  }

  /** Fields that are not set leave no bytes. */
  lemma NothingSet()
    ensures EncodeMoney(BASE_MONEY) == [] && EncodeAddress(BASE_ADDRESS) == [] && EncodeCartItem(BASE_CART_ITEM) == []
    ensures EncodeCart(BASE_CART) == [] && EncodeCreditCardInfo(BASE_CREDIT_CARD) == []
    ensures EncodeOrderItem(BASE_ORDER_ITEM) == [] && EncodeOrderResult(BASE_ORDER_RESULT) == []
    ensures EncodeConfirmation(BASE_CONFIRMATION) == [] && EncodePlaceOrder(BASE_PLACE_ORDER) == []
  {
  }

  lemma OrderBytes(a: byte, b: byte)
    ensures EncodeOrderResult(OrderResult([a], [b], Some(BASE_MONEY), Some(BASE_ADDRESS), [BASE_ORDER_ITEM]))
         == [10, 1, a, 18, 1, b, 26, 0, 34, 0, 42, 0]
  {
    NothingSet();
    hide StringField, MessageField, EncodeMoney, EncodeAddress, EncodeOrderItem;
    ShortFields();
    assert [BASE_ORDER_ITEM][..0] == [];
    assert EncodeOrderItems([BASE_ORDER_ITEM]) == MessageField(42, Some(EncodeOrderItem(BASE_ORDER_ITEM)));
  }

  lemma RequestBytes(a: byte)
    ensures EncodeConfirmation(SendOrderConfirmationRequest([a], Some(BASE_ORDER_RESULT))) == [10, 1, a, 18, 0]
  {
    NothingSet();
    hide StringField, MessageField, EncodeOrderResult;
    ShortFields();
  }

  lemma PlaceOrderBytes(a: byte, b: byte, c: byte)
    ensures EncodePlaceOrder(PlaceOrderRequest([a], [b], Some(BASE_ADDRESS), [c], Some(BASE_CREDIT_CARD)))
         == [10, 1, a, 18, 1, b, 26, 0, 42, 1, c, 50, 0]
  {
    NothingSet();
    hide StringField, MessageField, EncodeAddress, EncodeCreditCardInfo;
    ShortFields();
  }
}
