/** Unknown fields at every nesting level at once: the bytes of a request as a tree of fields. */
module FieldTrees {
  import opened Wrappers
  import opened MachineInts
  import opened Wire
  import opened DecodeLoop
  import opened Messages
  import opened MessageTheorems

  // ---------- Bytes that any loop reads alike ----------

  /** From `m` the bytes `p` and `q` lead to the same message, or both make the loop throw. */
  ghost predicate AlikeFrom<M(!new)>(h: Handler<M>, p: seq<byte>, q: seq<byte>, m: M)
    requires Shrinks(h)
  {
    exists r: Option<M> :: Runs(h, p, m, r) && Runs(h, q, m, r)
  }

  ghost predicate Alike<M(!new)>(h: Handler<M>, p: seq<byte>, q: seq<byte>)
    requires Shrinks(h)
  {
    forall m :: AlikeFrom(h, p, q, m)
  }

  lemma AlikeNothing<M(!new)>(h: Handler<M>)
    requires Shrinks(h)
    ensures Alike(h, [], [])
  {
    forall m
      ensures AlikeFrom(h, [], [], m)
    {
      EmptyCarries(h, m);
      assert Runs(h, [], m, Some(m));
    }
  }

  lemma AlikeConcat<M(!new)>(h: Handler<M>, p: seq<byte>, q: seq<byte>, p': seq<byte>, q': seq<byte>)
    requires Shrinks(h) && Alike(h, p, q) && Alike(h, p', q')
    ensures Alike(h, p + p', q + q')
  {
    hide Runs;
    forall m
      ensures AlikeFrom(h, p + p', q + q', m)
    {
      assert AlikeFrom(h, p, q, m);
      var r: Option<M> :| Runs(h, p, m, r) && Runs(h, q, m, r);
      var r': Option<M> := None;
      if r.Some? {
        assert AlikeFrom(h, p', q', r.value);
        r' :| Runs(h, p', r.value, r') && Runs(h, q', r.value, r');
      }
      RunsConcat(h, p, p', m, r, r');
      RunsConcat(h, q, q', m, r, r');
      assert Runs(h, p + p', m, if r.Some? then r' else None);
    }
  }

  lemma AlikeUnknown<M(!new)>(h: Handler<M>, r: Record)
    requires Shrinks(h) && r.WellFormed() && Foreign(h, r)
    ensures Alike(h, r.Bytes(), [])
  {
    forall m
      ensures AlikeFrom(h, r.Bytes(), [], m)
    {
      ForeignFieldCarries(h, r, m);
      EmptyCarries(h, m);
      assert Runs(h, r.Bytes(), m, Some(m)) && Runs(h, [], m, Some(m));
    }
  }

  /** The parser takes exactly the payload, whatever follows, or throws, whatever follows. */
  ghost predicate Takes<T(!new)>(parse: seq<byte> -> Parse<T>, payload: seq<byte>, o: Option<T>) {
    forall x: seq<byte> {:trigger payload + x} ::
      parse(payload + x) == if o.Some? then Got(o.value, x) else Fail
  }

  /** The handler assigns what `parse` reads under the tag. */
  ghost predicate Assigns<M(!new), T(!new)>(
    h: Handler<M>, tag: nat, parse: seq<byte> -> Parse<T>, assign: (M, T) -> M)
  {
    forall m, s {:trigger h(m, tag, s)} ::
      h(m, tag, s) == if parse(s).Fail? then Bad else Done(assign(m, parse(s).value), parse(s).rest)
  }

  /** Two payloads of a field with the same value. */
  lemma AlikeField<M(!new), T(!new)>(
    h: Handler<M>, tag: nat, p: seq<byte>, q: seq<byte>, parse: seq<byte> -> Parse<T>, assign: (M, T) -> M,
    o: Option<T>)
    requires Shrinks(h) && 0 < tag < TWO_32 && Assigns(h, tag, parse, assign)
    requires Takes(parse, p, o) && Takes(parse, q, o)
    ensures Alike(h, EncVarint(tag) + p, EncVarint(tag) + q)
  {
    forall m
      ensures AlikeFrom(h, EncVarint(tag) + p, EncVarint(tag) + q, m)
    {
      var r := if o.Some? then Some(assign(m, o.value)) else None;
      FieldRuns(h, tag, p, parse, assign, o, m);
      FieldRuns(h, tag, q, parse, assign, o, m);
      assert Runs(h, EncVarint(tag) + p, m, r);
    }
  }

  lemma FieldRuns<M(!new), T(!new)>(
    h: Handler<M>, tag: nat, p: seq<byte>, parse: seq<byte> -> Parse<T>, assign: (M, T) -> M, o: Option<T>, m: M)
    requires Shrinks(h) && 0 < tag < TWO_32 && Assigns(h, tag, parse, assign) && Takes(parse, p, o)
    ensures Runs(h, EncVarint(tag) + p, m, if o.Some? then Some(assign(m, o.value)) else None)
  {
    hide Loop, EncVarint;
    forall rest: seq<byte>, stop: int | stop <= |rest|
      ensures Loop(h, (EncVarint(tag) + p) + rest, stop, m)
           == if o.Some? then Loop(h, rest, stop, assign(m, o.value)) else Fail
    {
      Turn(h, tag, p, rest, stop, m);
      assert parse(p + rest) == if o.Some? then Got(o.value, rest) else Fail;
    }
  }

  /** Two submessages whose contents are alike. */
  lemma AlikeChild<M(!new), N(!new)>(
    h: Handler<M>, hn: Handler<N>, base: N, tag: nat, p: seq<byte>, q: seq<byte>, assign: (M, N) -> M)
    requires Shrinks(h) && Shrinks(hn) && 0 < tag < TWO_32 && |p| < TWO_32 && |q| < TWO_32
    requires Assigns(h, tag, s => Nested(hn, s, base), assign) && Alike(hn, p, q)
    ensures Alike(h, EncVarint(tag) + LengthDelimited(p), EncVarint(tag) + LengthDelimited(q))
  {
    hide Runs, Nested;
    assert AlikeFrom(hn, p, q, base);
    var r: Option<N> :| Runs(hn, p, base, r) && Runs(hn, q, base, r);
    RunsDecodes(hn, p, base, r);
    RunsDecodes(hn, q, base, r);
    AlikeField(h, tag, LengthDelimited(p), LengthDelimited(q), s => Nested(hn, s, base), assign, r);
  }

  lemma AlikeDecodes<M(!new)>(h: Handler<M>, p: seq<byte>, q: seq<byte>, base: M)
    requires Shrinks(h) && Alike(h, p, q)
    ensures Decode(h, p, base) == Decode(h, q, base)
  {
    hide Runs, Decode;
    assert AlikeFrom(h, p, q, base);
    var r: Option<M> :| Runs(h, p, base, r) && Runs(h, q, base, r);
    RunsDecodes(h, p, base, r);
    RunsDecodes(h, q, base, r);
  }

  // ---------- Scalars ----------

  lemma TakesBytes(payload: seq<byte>) returns (v: text)
    requires IsPayload(2, payload)
    ensures Takes(Bytes, payload, Some(v))
  {
    SkipTakesPayloads(2, payload);
    v := Bytes(payload).value;
    forall x: seq<byte>
      ensures Bytes(payload + x) == Got(v, x)
    {
      BytesExtends(payload, x);
      assert [] + x == x;
    }
  }

  lemma TakesVarint(payload: seq<byte>, x: seq<byte>)
    requires IsPayload(0, payload)
    ensures Varint(payload, MAX_VARINT_BYTES).Got?
    ensures Varint(payload + x, MAX_VARINT_BYTES) == Got(Varint(payload, MAX_VARINT_BYTES).value, x)
  {
    SkipTakesPayloads(0, payload);
    VarintExtends(payload, MAX_VARINT_BYTES, x);
    assert [] + x == x;
  }

  lemma TakesInt32(payload: seq<byte>) returns (v: int32)
    requires IsPayload(0, payload)
    ensures Takes(Int32, payload, Some(v))
  {
    TakesVarint(payload, []);
    v := Int32(payload).value;
    forall x: seq<byte>
      ensures Int32(payload + x) == Got(v, x)
    {
      TakesVarint(payload, x);
    }
  }

  lemma TakesSafeInt64(payload: seq<byte>) returns (o: Option<int64>)
    requires IsPayload(0, payload)
    ensures Takes(SafeInt64, payload, o)
  {
    TakesVarint(payload, []);
    var v := Wrap64(Varint(payload, MAX_VARINT_BYTES).value);
    o := if IsSafeInteger(v) then Some(v) else None;
    forall x: seq<byte>
      ensures SafeInt64(payload + x) == if o.Some? then Got(o.value, x) else Fail
    {
      TakesVarint(payload, x);
    }
  }

  // ---------- Trees ----------

  /** The messages a confirmation request is made of. */
  datatype Level = Request | Order | Item | Product | Amount | Place

  /** A scalar field of the message, a field unknown to it, or a submessage. */
  datatype Field = Scalar(record: Record) | Unknown(record: Record) | Child(tag: nat, level: Level, fields: seq<Field>)

  function Write(fs: seq<Field>): seq<byte> {
    if fs == [] then [] else WriteField(fs[0]) + Write(fs[1..])
  }

  function WriteField(f: Field): seq<byte> {
    match f
    case Child(tag, _, fields) => EncVarint(tag) + LengthDelimited(Write(fields))
    case _ => f.record.Bytes()
  }

  /** The tree without its unknown fields, at any depth. */
  function Known(fs: seq<Field>): seq<Field> {
    if fs == [] then [] else KnownField(fs[0]) + Known(fs[1..])
  }

  function KnownField(f: Field): seq<Field> {
    match f
    case Scalar(_) => [f]
    case Unknown(_) => []
    case Child(tag, level, fields) => [Child(tag, level, Known(fields))]
  }

  function ScalarTags(level: Level): set<nat> {
    match level
    case Request => {10}
    case Order => {10, 18}
    case Item => {}
    case Product => {10, 16}
    case Amount => {10, 16, 24}
    case Place => {10, 18, 26, 34, 42}
  }

  function ChildLevel(level: Level, tag: nat): Option<Level> {
    match (level, tag)
    case (Request, 18) => Some(Order)
    case (Order, 26) => Some(Amount)
    case (Order, 34) => Some(Place)
    case (Order, 42) => Some(Item)
    case (Item, 10) => Some(Product)
    case (Item, 18) => Some(Amount)
    case _ => None
  }

  /** Fields in any order and any number: well-formed ones, under the tags of the message or
      unknown to it, and submessages whose length fits a prefix. */
  predicate Conforms(level: Level, fs: seq<Field>)
    decreases fs
  {
    forall f | f in fs :: FieldConforms(level, f)
  }

  predicate FieldConforms(level: Level, f: Field)
    decreases f
  {
    match f
    case Scalar(r) => r.WellFormed() && r.tag in ScalarTags(level)
    case Unknown(r) => r.WellFormed() && r.tag !in ScalarTags(level) && ChildLevel(level, r.tag).None?
    case Child(tag, child, fields) =>
      ChildLevel(level, tag) == Some(child) && Conforms(child, fields) && |Write(fields)| < TWO_32
  }

  ghost predicate AlikeAt(level: Level, p: seq<byte>, q: seq<byte>) {
    match level
    case Request => Alike(ConfirmationField, p, q)
    case Order => Alike(OrderResultField, p, q)
    case Item => Alike(OrderItemField, p, q)
    case Product => Alike(CartItemField, p, q)
    case Amount => Alike(MoneyField, p, q)
    case Place => Alike(AddressField, p, q)
  }

  lemma NothingAlike(level: Level)
    ensures AlikeAt(level, [], [])
  {
    match level
    case Request => AlikeNothing(ConfirmationField);
    case Order => AlikeNothing(OrderResultField);
    case Item => AlikeNothing(OrderItemField);
    case Product => AlikeNothing(CartItemField);
    case Amount => AlikeNothing(MoneyField);
    case Place => AlikeNothing(AddressField);
  }

  lemma ConcatAlike(level: Level, p: seq<byte>, q: seq<byte>, p': seq<byte>, q': seq<byte>)
    requires AlikeAt(level, p, q) && AlikeAt(level, p', q')
    ensures AlikeAt(level, p + p', q + q')
  {
    match level
    case Request => AlikeConcat(ConfirmationField, p, q, p', q');
    case Order => AlikeConcat(OrderResultField, p, q, p', q');
    case Item => AlikeConcat(OrderItemField, p, q, p', q');
    case Product => AlikeConcat(CartItemField, p, q, p', q');
    case Amount => AlikeConcat(MoneyField, p, q, p', q');
    case Place => AlikeConcat(AddressField, p, q, p', q');
  }

  lemma UnknownAlike(level: Level, r: Record)
    requires FieldConforms(level, Field.Unknown(r))
    ensures AlikeAt(level, r.Bytes(), [])
  {
    hide Alike, Nested, Bytes;
    match level
    case Request => AlikeUnknown(ConfirmationField, r);
    case Order => AlikeUnknown(OrderResultField, r);
    case Item => AlikeUnknown(OrderItemField, r);
    case Product => AlikeUnknown(CartItemField, r);
    case Amount => AlikeUnknown(MoneyField, r);
    case Place => AlikeUnknown(AddressField, r);
  }

  lemma TextAlike<M(!new)>(h: Handler<M>, r: Record, assign: (M, text) -> M)
    requires Shrinks(h) && r.WellFormed() && r.tag % 8 == 2 && Assigns(h, r.tag, Bytes, assign)
    ensures Alike(h, r.Bytes(), r.Bytes())
  {
    hide Alike;
    var v := TakesBytes(r.payload);
    AlikeField(h, r.tag, r.payload, r.payload, Bytes, assign, Some(v));
  }

  lemma Int32Alike<M(!new)>(h: Handler<M>, r: Record, assign: (M, int32) -> M)
    requires Shrinks(h) && r.WellFormed() && r.tag % 8 == 0 && Assigns(h, r.tag, Int32, assign)
    ensures Alike(h, r.Bytes(), r.Bytes())
  {
    hide Alike;
    var v := TakesInt32(r.payload);
    AlikeField(h, r.tag, r.payload, r.payload, Int32, assign, Some(v));
  }

  lemma ScalarAlike(level: Level, r: Record)
    requires FieldConforms(level, Scalar(r))
    ensures AlikeAt(level, r.Bytes(), r.Bytes())
  {
    hide Alike, Bytes, Int32, SafeInt64, Nested;
    match level
    case Request =>
      TextAlike(ConfirmationField, r, (m: SendOrderConfirmationRequest, v: text) => m.(email := v));
    case Order =>
      if r.tag == 10 {
        TextAlike(OrderResultField, r, (m: OrderResult, v: text) => m.(orderId := v));
      } else {
        TextAlike(OrderResultField, r, (m: OrderResult, v: text) => m.(shippingTrackingId := v));
      }
    case Product =>
      if r.tag == 10 {
        TextAlike(CartItemField, r, (m: CartItem, v: text) => m.(productId := v));
      } else {
        Int32Alike(CartItemField, r, (m: CartItem, v: int32) => m.(quantity := v));
      }
    case Amount => AmountAlike(r);
    case Place => PlaceAlike(r);
    case Item =>
  }

  lemma AmountAlike(r: Record)
    requires FieldConforms(Amount, Scalar(r))
    ensures Alike(MoneyField, r.Bytes(), r.Bytes())
  {
    hide Alike, Bytes, Int32, SafeInt64;
    if r.tag == 10 {
      TextAlike(MoneyField, r, (m: Money, v: text) => m.(currencyCode := v));
    } else if r.tag == 16 {
      var o := TakesSafeInt64(r.payload);
      AlikeField(MoneyField, 16, r.payload, r.payload, SafeInt64, (m: Money, v: int64) => m.(units := v), o);
    } else {
      Int32Alike(MoneyField, r, (m: Money, v: int32) => m.(nanos := v));
    }
  }

  lemma PlaceAlike(r: Record)
    requires FieldConforms(Place, Scalar(r))
    ensures Alike(AddressField, r.Bytes(), r.Bytes())
  {
    hide Alike, Bytes;
    match r.tag
    case 10 => TextAlike(AddressField, r, (m: Address, v: text) => m.(streetAddress := v));
    case 18 => TextAlike(AddressField, r, (m: Address, v: text) => m.(city := v));
    case 26 => TextAlike(AddressField, r, (m: Address, v: text) => m.(state := v));
    case 34 => TextAlike(AddressField, r, (m: Address, v: text) => m.(country := v));
    case 42 => TextAlike(AddressField, r, (m: Address, v: text) => m.(zipCode := v));
    case _ =>
  }

  lemma ChildAlike(level: Level, tag: nat, child: Level, p: seq<byte>, q: seq<byte>)
    requires ChildLevel(level, tag) == Some(child) && AlikeAt(child, p, q) && |p| < TWO_32 && |q| < TWO_32
    ensures AlikeAt(level, EncVarint(tag) + LengthDelimited(p), EncVarint(tag) + LengthDelimited(q))
  {
    hide Alike, Bytes, Nested;
    match level
    case Request =>
      AlikeChild(ConfirmationField, OrderResultField, BASE_ORDER_RESULT, tag, p, q,
                 (m: SendOrderConfirmationRequest, v: OrderResult) => m.(order := Some(v)));
    case Order =>
      if tag == 26 {
        AlikeChild(OrderResultField, MoneyField, BASE_MONEY, tag, p, q,
                   (m: OrderResult, v: Money) => m.(shippingCost := Some(v)));
      } else if tag == 34 {
        AlikeChild(OrderResultField, AddressField, BASE_ADDRESS, tag, p, q,
                   (m: OrderResult, v: Address) => m.(shippingAddress := Some(v)));
      } else {
        AlikeChild(OrderResultField, OrderItemField, BASE_ORDER_ITEM, tag, p, q,
                   (m: OrderResult, v: OrderItem) => m.(items := m.items + [v]));
      }
    case Item =>
      if tag == 10 {
        AlikeChild(OrderItemField, CartItemField, BASE_CART_ITEM, tag, p, q,
                   (m: OrderItem, v: CartItem) => m.(item := Some(v)));
      } else {
        AlikeChild(OrderItemField, MoneyField, BASE_MONEY, tag, p, q,
                   (m: OrderItem, v: Money) => m.(cost := Some(v)));
      }
    case _ =>
  }

  lemma {:induction false} VarintGrows(a: nat, b: nat)
    requires a <= b
    ensures |EncVarint(a)| <= |EncVarint(b)|
  {
    if a >= 128 {
      VarintGrows(a / 128, b / 128);
    }
  }

  lemma {:induction false} WriteConcat(fs: seq<Field>, gs: seq<Field>)
    ensures Write(fs + gs) == Write(fs) + Write(gs)
  {
    if fs == [] {
      assert fs + gs == gs;
    } else {
      assert (fs + gs)[1..] == fs[1..] + gs;
      WriteConcat(fs[1..], gs);
    }
  }

  lemma WriteOne(f: Field)
    ensures Write([f]) == WriteField(f)
  {
    assert Write([f][1..]) == [];
  }

  /** A tree reads as it does without its unknown fields, and is no shorter. */
  lemma {:induction false} TreeAlike(level: Level, fs: seq<Field>)
    requires Conforms(level, fs)
    ensures AlikeAt(level, Write(fs), Write(Known(fs))) && |Write(Known(fs))| <= |Write(fs)|
    decreases fs
  {
    hide AlikeAt, FieldConforms;
    if fs == [] {
      NothingAlike(level);
    } else {
      assert fs[0] in fs && forall f | f in fs[1..] :: f in fs;
      FieldAlike(level, fs[0]);
      TreeAlike(level, fs[1..]);
      ConcatAlike(level, WriteField(fs[0]), Write(KnownField(fs[0])), Write(fs[1..]), Write(Known(fs[1..])));
      WriteConcat(KnownField(fs[0]), Known(fs[1..]));
    }
  }

  lemma {:induction false} FieldAlike(level: Level, f: Field)
    requires FieldConforms(level, f)
    ensures AlikeAt(level, WriteField(f), Write(KnownField(f))) && |Write(KnownField(f))| <= |WriteField(f)|
    decreases f
  {
    hide AlikeAt;
    match f
    case Scalar(r) =>
      WriteOne(f);
      ScalarAlike(level, r);
    case Unknown(r) => UnknownAlike(level, r);
    case Child(tag, child, fields) =>
      TreeAlike(child, fields);
      WriteOne(Child(tag, child, Known(fields)));
      VarintGrows(|Write(Known(fields))|, |Write(fields)|);
      ChildAlike(level, tag, child, Write(fields), Write(Known(fields)));
  }

  /** Unknown-field tolerance through the whole request: any number of unknown fields at the
      boundaries of any of its messages, the amount of an item of the order included, leave the
      decoded request, or the error, as it is. */
  lemma UnknownFieldsAtEveryLevel(fs: seq<Field>)
    requires Conforms(Request, fs)
    ensures Decode(ConfirmationField, Write(fs), BASE_CONFIRMATION)
         == Decode(ConfirmationField, Write(Known(fs)), BASE_CONFIRMATION)
  {
    hide Alike, Conforms, Decode;
    TreeAlike(Request, fs);
    AlikeDecodes(ConfirmationField, Write(fs), Write(Known(fs)), BASE_CONFIRMATION);
  }
}
