/** The decode loop every generated message shares, and what holds of it for any message.

    A message supplies a handler: the cases of its tag switch. The loop reads a tag,
    hands it to the handler, and steps over what the handler does not know. The nested
    bound `end` of the source is here `stop`, the number of bytes still unread at `end`;
    it is negative when a length prefix runs past the buffer. */
module DecodeLoop {
  import opened MachineInts
  import opened Wire
  import opened Wrappers

  /** What a tag switch does with one tag: not its field, a thrown error, or a field read. */
  datatype Handled<+M> = Unknown | Bad | Done(msg: M, rest: seq<byte>)

  type Handler<!M> = (M, nat, seq<byte>) -> Handled<M>

  ghost predicate Shrinks<M(!new)>(h: Handler<M>) {
    forall m, tag, s :: h(m, tag, s).Done? ==> |h(m, tag, s).rest| <= |s|
  }

  function Loop<M(!new)>(h: Handler<M>, s: seq<byte>, stop: int, m: M): (r: Parse<M>)
    requires Shrinks(h)
    ensures r.Got? ==> |r.rest| <= |s|
    decreases |s|
  {
    if |s| <= stop then Got(m, s)
    else
      var (tag, t) :- Uint32(s);
      match h(m, tag, t)
      case Bad => Fail
      case Done(m', u) => Loop(h, u, stop, m')
      case Unknown =>
        if tag % 8 == 4 || tag == 0 then Got(m, t)
        else
          var (_, u) :- Skip(tag % 8, t);
          Loop(h, u, stop, m)
  }

  /** A submessage: its length prefix, then its own loop up to that many bytes further. */
  function Nested<M(!new)>(h: Handler<M>, s: seq<byte>, base: M): (r: Parse<M>)
    requires Shrinks(h)
    ensures r.Got? ==> |r.rest| < |s|
  {
    var (n, t) :- Uint32(s);
    Loop(h, t, |t| - n, base)
  }

  /** Decoding a whole buffer. */
  function Decode<M(!new)>(h: Handler<M>, s: seq<byte>, base: M): Parse<M>
    requires Shrinks(h)
  {
    Loop(h, s, 0, base)
  }

  // ---------- One turn of the loop ----------

  lemma LoopTurn<M(!new)>(h: Handler<M>, s: seq<byte>, stop: int, m: M)
    requires Shrinks(h)
    ensures Loop(h, s, stop, m)
         == if |s| <= stop then Got(m, s)
            else if Uint32(s).Fail? then Fail
            else
              var (tag, t) := Uint32(s).Extract();
              match h(m, tag, t)
              case Bad => Fail
              case Done(m', u) => Loop(h, u, stop, m')
              case Unknown =>
                if tag % 8 == 4 || tag == 0 then Got(m, t)
                else if Skip(tag % 8, t).Fail? then Fail
                else Loop(h, Skip(tag % 8, t).rest, stop, m)
  {
  }

  lemma Turn<M(!new)>(h: Handler<M>, tag: nat, payload: seq<byte>, rest: seq<byte>, stop: int, m: M)
    requires Shrinks(h) && 0 < tag < TWO_32 && stop <= |rest|
    ensures Loop(h, EncVarint(tag) + payload + rest, stop, m)
         == match h(m, tag, payload + rest)
            case Bad => Fail
            case Done(m', u) => Loop(h, u, stop, m')
            case Unknown =>
              if tag % 8 == 4 then Got(m, payload + rest)
              else if Skip(tag % 8, payload + rest).Fail? then Fail
              else Loop(h, Skip(tag % 8, payload + rest).rest, stop, m)
  {
    assert EncVarint(tag) + payload + rest == EncVarint(tag) + (payload + rest);
    Uint32Inverse(tag, payload + rest);
  }

  lemma NestedInverse<M(!new)>(h: Handler<M>, b: seq<byte>, rest: seq<byte>, base: M)
    requires Shrinks(h) && |b| < TWO_32
    ensures Nested(h, LengthDelimited(b) + rest, base) == Loop(h, b + rest, |rest|, base)
  {
    hide *;
    PrefixInverse(b, rest);
    NestedUnfolds(h, LengthDelimited(b) + rest, |b|, b + rest, base);
  }

  lemma NestedUnfolds<M(!new)>(h: Handler<M>, s: seq<byte>, n: nat, t: seq<byte>, base: M)
    requires Shrinks(h) && Uint32(s) == Got(n, t)
    ensures Nested(h, s, base) == Loop(h, t, |t| - n, base)
  {
    hide Uint32, Loop;
  }

  /** What every field read keeps, the loop keeps, on any bytes. */
  lemma {:induction false} LoopKeeps<M(!new)>(h: Handler<M>, keeps: M -> bool, s: seq<byte>, stop: int, m: M)
    requires Shrinks(h) && keeps(m)
    requires forall m, tag, s :: keeps(m) && h(m, tag, s).Done? ==> keeps(h(m, tag, s).msg)
    ensures Loop(h, s, stop, m).Got? ==> keeps(Loop(h, s, stop, m).value)
    decreases |s|
  {
    if |s| > stop && Uint32(s).Got? {
      var (tag, t) := Uint32(s).Extract();
      if h(m, tag, t).Done? {
        LoopKeeps(h, keeps, h(m, tag, t).rest, stop, h(m, tag, t).msg);
      } else if h(m, tag, t).Unknown? && tag % 8 != 4 && tag != 0 && Skip(tag % 8, t).Got? {
        LoopKeeps(h, keeps, Skip(tag % 8, t).rest, stop, m);
      }
    }
  }

  // ---------- Field boundaries ----------

  /** The loop takes the bytes `p` as a whole number of fields, whatever follows them
      and wherever the bound lies behind them, and they turn `m` into `m'`. */
  ghost predicate Carries<M(!new)>(h: Handler<M>, p: seq<byte>, m: M, m': M)
    requires Shrinks(h)
  {
    forall rest: seq<byte>, stop: int {:trigger Loop(h, p + rest, stop, m)} | stop <= |rest| ::
      Loop(h, p + rest, stop, m) == Loop(h, rest, stop, m')
  }

  /** Bytes a handler leaves unread never change what it does. */
  ghost predicate Extends<M(!new)>(h: Handler<M>) {
    forall m, tag, s, x: seq<byte> {:trigger h(m, tag, s + x)} | h(m, tag, s).Done? ::
      h(m, tag, s + x) == Done(h(m, tag, s).msg, h(m, tag, s).rest + x)
  }

  /** Handlers tell their own tags from the tag alone. */
  ghost predicate DecidesByTag<M(!new)>(h: Handler<M>) {
    forall m, m', tag, s, s' {:trigger h(m, tag, s), h(m', tag, s')} ::
      h(m, tag, s).Unknown? <==> h(m', tag, s').Unknown?
  }

  ghost predicate WellBehaved<M(!new)>(h: Handler<M>) {
    Shrinks(h) && Extends(h) && DecidesByTag(h)
  }

  /** Reads `p` field by field to its very end, known and unknown fields alike;
      `Fail` when `p` does not end at a field boundary. */
  function WholeFields<M(!new)>(h: Handler<M>, p: seq<byte>, m: M): Parse<M>
    requires Shrinks(h)
    decreases |p|
  {
    if p == [] then Got(m, [])
    else
      var (tag, t) :- Uint32(p);
      match h(m, tag, t)
      case Bad => Fail
      case Done(m', u) => WholeFields(h, u, m')
      case Unknown =>
        if tag % 8 == 4 || tag == 0 then Fail
        else
          var (_, u) :- Skip(tag % 8, t);
          WholeFields(h, u, m)
  }

  /** Any bytes that read as whole fields on their own do so in front of any others. */
  lemma {:induction false} WholeFieldsCarry<M(!new)>(h: Handler<M>, p: seq<byte>, m: M)
    requires WellBehaved(h) && WholeFields(h, p, m).Got?
    ensures Carries(h, p, m, WholeFields(h, p, m).value)
    decreases |p|
  {
    forall rest: seq<byte>, stop: int | stop <= |rest|
      ensures Loop(h, p + rest, stop, m) == Loop(h, rest, stop, WholeFields(h, p, m).value)
    {
      if p == [] {
        assert p + rest == rest;
      } else {
        VarintExtends(p, MAX_VARINT_BYTES, rest);
        var (tag, t) := Uint32(p).Extract();
        assert h(m, tag, t).Unknown? <==> h(m, tag, t + rest).Unknown?;
        if h(m, tag, t).Done? {
          assert h(m, tag, t + rest) == Done(h(m, tag, t).msg, h(m, tag, t).rest + rest);
          WholeFieldsCarry(h, h(m, tag, t).rest, h(m, tag, t).msg);
        } else {
          SkipExtends(tag % 8, t, rest);
          WholeFieldsCarry(h, Skip(tag % 8, t).rest, m);
        }
      }
    }
  }

  lemma CarriesConcat<M(!new)>(h: Handler<M>, p: seq<byte>, q: seq<byte>, m0: M, m1: M, m2: M)
    requires Shrinks(h) && Carries(h, p, m0, m1) && Carries(h, q, m1, m2)
    ensures Carries(h, p + q, m0, m2)
  {
    RunsConcat(h, p, q, m0, Some(m1), Some(m2));
  }

  /** Like `Carries` for `Some`; for `None`, the loop throws within the bytes `p`. */
  ghost predicate Runs<M(!new)>(h: Handler<M>, p: seq<byte>, m: M, r: Option<M>)
    requires Shrinks(h)
  {
    match r
    case Some(m') => Carries(h, p, m, m')
    case None =>
      forall rest: seq<byte>, stop: int {:trigger Loop(h, p + rest, stop, m)} | stop <= |rest| ::
        Loop(h, p + rest, stop, m) == Fail
  }

  lemma RunsConcat<M(!new)>(h: Handler<M>, p: seq<byte>, q: seq<byte>, m: M, r: Option<M>, r': Option<M>)
    requires Shrinks(h) && Runs(h, p, m, r)
    requires r.Some? ==> Runs(h, q, r.value, r')
    ensures Runs(h, p + q, m, if r.Some? then r' else None)
  {
    forall rest: seq<byte>, stop: int | stop <= |rest|
      ensures Loop(h, (p + q) + rest, stop, m)
           == if r.Some? && r'.Some? then Loop(h, rest, stop, r'.value) else Fail
    {
      assert (p + q) + rest == p + (q + rest);
      if r.Some? {
        assert Loop(h, p + (q + rest), stop, m) == Loop(h, q + rest, stop, r.value);
      }
    }
  }

  /** The whole buffer, or exactly the bytes a length prefix counts. */
  lemma RunsDecodes<M(!new)>(h: Handler<M>, p: seq<byte>, m: M, r: Option<M>)
    requires Shrinks(h) && Runs(h, p, m, r)
    ensures Decode(h, p, m) == if r.Some? then Got(r.value, []) else Fail
    ensures |p| < TWO_32 ==> forall rest: seq<byte> {:trigger LengthDelimited(p) + rest} ::
              Nested(h, LengthDelimited(p) + rest, m) == if r.Some? then Got(r.value, rest) else Fail
  {
    assert p + [] == p;
    if |p| < TWO_32 {
      forall rest: seq<byte>
        ensures Nested(h, LengthDelimited(p) + rest, m) == if r.Some? then Got(r.value, rest) else Fail
      {
        NestedInverse(h, p, rest, m);
      }
    }
  }

  // ---------- The three kinds of field ----------

  /** An absent or default scalar leaves no bytes behind. */
  function StringField(tag: nat, v: seq<byte>): seq<byte> {
    if v == [] then [] else EncVarint(tag) + LengthDelimited(v)
  }

  function IntField(tag: nat, v: int64): seq<byte> {
    if v == 0 then [] else EncVarint(tag) + EncSigned(v)
  }

  /** A present submessage leaves a tag and a length even when its own bytes are empty. */
  function MessageField(tag: nat, b: Option<seq<byte>>): seq<byte> {
    if b.None? then [] else EncVarint(tag) + LengthDelimited(b.value)
  }

  lemma EmptyCarries<M(!new)>(h: Handler<M>, m: M)
    requires Shrinks(h)
    ensures Carries(h, [], m, m)
  {
    forall rest: seq<byte>, stop: int | stop <= |rest|
      ensures Loop(h, [] + rest, stop, m) == Loop(h, rest, stop, m)
    {
      assert [] + rest == rest;
    }
  }

  lemma StringFieldCarries<M(!new)>(h: Handler<M>, tag: nat, v: seq<byte>, m: M, m': M)
    requires Shrinks(h) && 0 < tag < TWO_32 && |v| < TWO_32
    requires v == [] ==> m == m'
    requires v != [] ==> forall s | Bytes(s).Got? && Bytes(s).value == v :: h(m, tag, s) == Done(m', Bytes(s).rest)
    ensures Carries(h, StringField(tag, v), m, m')
  {
    if v == [] {
      EmptyCarries(h, m);
    } else {
      forall rest: seq<byte>, stop: int | stop <= |rest|
        ensures Loop(h, StringField(tag, v) + rest, stop, m) == Loop(h, rest, stop, m')
      {
        Turn(h, tag, LengthDelimited(v), rest, stop, m);
        BytesInverse(v, rest);
      }
    }
  }

  /** `read` is how the handler reads the field: as an int32, or as an int64 that must be
      a safe integer. */
  lemma IntFieldRuns<M(!new)>(
    h: Handler<M>, tag: nat, v: int64, read: seq<byte> -> Parse<int64>, m: M, r: Option<M>)
    requires Shrinks(h) && 0 < tag < TWO_32
    requires v == 0 ==> r == Some(m)
    requires r.Some? ==> forall rest :: read(EncSigned(v) + rest) == Got(v, rest)
    requires r.Some? && v != 0 ==>
      forall s | read(s).Got? && read(s).value == v :: h(m, tag, s) == Done(r.value, read(s).rest)
    requires r.None? ==> forall rest :: h(m, tag, EncSigned(v) + rest).Bad?
    ensures Runs(h, IntField(tag, v), m, r)
  {
    if v == 0 {
      EmptyCarries(h, m);
    } else {
      forall rest: seq<byte>, stop: int | stop <= |rest|
        ensures Loop(h, IntField(tag, v) + rest, stop, m)
             == if r.Some? then Loop(h, rest, stop, r.value) else Fail
      {
        Turn(h, tag, EncSigned(v), rest, stop, m);
      }
    }
  }

  /** A submessage of handler `hn` whose bytes decode to `n`, or throw. */
  lemma MessageFieldRuns<M(!new), N(!new)>(
    h: Handler<M>, hn: Handler<N>, tag: nat, b: Option<seq<byte>>, base: N, n: Option<N>, m: M, m': M)
    requires Shrinks(h) && Shrinks(hn) && 0 < tag < TWO_32
    requires b.None? ==> m == m'
    requires b.Some? ==> |b.value| < TWO_32 && Runs(hn, b.value, base, n)
    requires b.Some? ==> forall s | Nested(hn, s, base).Fail? :: h(m, tag, s).Bad?
    requires b.Some? && n.Some? ==>
      forall s | Nested(hn, s, base).Got? && Nested(hn, s, base).value == n.value ::
        h(m, tag, s) == Done(m', Nested(hn, s, base).rest)
    ensures Runs(h, MessageField(tag, b), m, if b.None? || n.Some? then Some(m') else None)
  {
    if b.None? {
      EmptyCarries(h, m);
    } else {
      forall rest: seq<byte>, stop: int | stop <= |rest|
        ensures Loop(h, MessageField(tag, b) + rest, stop, m)
             == if n.Some? then Loop(h, rest, stop, m') else Fail
      {
        Turn(h, tag, LengthDelimited(b.value), rest, stop, m);
        NestedInverse(hn, b.value, rest, base);
        assert Loop(hn, b.value + rest, |rest|, base) == if n.Some? then Got(n.value, rest) else Fail;
      }
    }
  }

  // ---------- Unknown fields ----------

  /** A field as it lies on the wire. */
  datatype Record = Record(tag: nat, payload: seq<byte>) {
    function Bytes(): seq<byte> {
      EncVarint(tag) + payload
    }

    /** Section "Message Structure": the tag names one of the wire types that are not
        groups, and the payload is exactly one value of that type. */
    predicate WellFormed() {
      && 0 < tag < TWO_32
      && IsPayload(tag % 8, payload)
    }
  }

  function Serialize(rs: seq<Record>): seq<byte> {
    if rs == [] then [] else rs[0].Bytes() + Serialize(rs[1..])
  }

  /** No handler case takes the tag; a known number with another wire type is such a tag. */
  ghost predicate Foreign<M(!new)>(h: Handler<M>, r: Record) {
    forall m, s :: h(m, r.tag, s).Unknown?
  }

  lemma ForeignFieldCarries<M(!new)>(h: Handler<M>, r: Record, m: M)
    requires Shrinks(h) && r.WellFormed() && Foreign(h, r)
    ensures Carries(h, r.Bytes(), m, m)
  {
    forall rest: seq<byte>, stop: int | stop <= |rest|
      ensures Loop(h, r.Bytes() + rest, stop, m) == Loop(h, rest, stop, m)
    {
      Turn(h, r.tag, r.payload, rest, stop, m);
      SkipTakesPayloads(r.tag % 8, r.payload);
      SkipExtends(r.tag % 8, r.payload, rest);
      assert h(m, r.tag, r.payload + rest).Unknown?;
      assert [] + rest == rest;
    }
  }

  /** Other wire types end the message or make the loop throw, behind whole fields and before
      any bytes: an unknown tag of type 4, or the tag zero, ends it with the rest unread, and
      one of type 3, 6 or 7 throws. */
  lemma OtherWireTypes<M(!new)>(h: Handler<M>, tag: nat, rest: seq<byte>, stop: int, m: M)
    requires Shrinks(h) && tag < TWO_32 && stop <= |rest| && Foreign(h, Record(tag, []))
    requires tag % 8 in {3, 4, 6, 7} || tag == 0
    ensures Loop(h, EncVarint(tag) + rest, stop, m)
         == if tag % 8 == 4 || tag == 0 then Got(m, rest) else Fail
  {
    Uint32Inverse(tag, rest);
    assert h(m, Record(tag, []).tag, rest).Unknown?;
    hide EncVarint, Uint32;
    LoopTurn(h, EncVarint(tag) + rest, stop, m);
  }

  lemma {:induction false} ForeignFieldsCarry<M(!new)>(h: Handler<M>, rs: seq<Record>, m: M)
    requires Shrinks(h)
    requires forall r | r in rs :: r.WellFormed() && Foreign(h, r)
    ensures Carries(h, Serialize(rs), m, m)
  {
    if rs == [] {
      forall rest: seq<byte>, stop: int | stop <= |rest|
        ensures Loop(h, Serialize(rs) + rest, stop, m) == Loop(h, rest, stop, m)
      {
        assert Serialize(rs) + rest == rest;
      }
    } else {
      var r := rs[0];
      assert r in rs;
      ForeignFieldCarries(h, r, m);
      ForeignFieldsCarry(h, rs[1..], m);
      CarriesConcat(h, r.Bytes(), Serialize(rs[1..]), m, m, m);
    }
  }

  /** Unknown-field tolerance. At any field boundary, behind any bytes `p` that end at one
      and in front of any bytes `q`, well-formed or not, inserting unknown fields changes
      nothing: neither the message, nor the bytes left, nor whether decoding throws. */
  lemma UnknownFieldsIgnored<M(!new)>(
    h: Handler<M>, p: seq<byte>, rs: seq<Record>, q: seq<byte>, stop: int, m: M, m': M)
    requires Shrinks(h) && Carries(h, p, m, m')
    requires forall r | r in rs :: r.WellFormed() && Foreign(h, r)
    requires stop <= |q|
    ensures Loop(h, p + Serialize(rs) + q, stop, m) == Loop(h, p + q, stop, m)
  {
    ForeignFieldsCarry(h, rs, m');
    assert p + Serialize(rs) + q == p + (Serialize(rs) + q);
    assert Loop(h, p + (Serialize(rs) + q), stop, m) == Loop(h, Serialize(rs) + q, stop, m');
  }

  /** The same inside a submessage, whose length prefix then counts the unknown fields too:
      its parent gets the same submessage and goes on at the same byte. */
  lemma NestedUnknownFieldsIgnored<M(!new)>(
    h: Handler<M>, p: seq<byte>, rs: seq<Record>, q: seq<byte>, rest: seq<byte>, m: M, m': M)
    requires Shrinks(h) && Carries(h, p, m, m')
    requires forall r | r in rs :: r.WellFormed() && Foreign(h, r)
    requires |p + Serialize(rs) + q| < TWO_32
    ensures Nested(h, LengthDelimited(p + Serialize(rs) + q) + rest, m)
         == Nested(h, LengthDelimited(p + q) + rest, m)
  {
    hide EncVarint, Serialize, Loop, Nested, Skip;
    var long, short := p + Serialize(rs) + q, p + q;
    UnknownFieldsIgnored(h, p, rs, q + rest, |rest|, m, m');
    assert long + rest == p + Serialize(rs) + (q + rest);
    assert short + rest == p + (q + rest);
    NestedInverse(h, long, rest, m);
    NestedInverse(h, short, rest, m);
  }

  // ---------- Extension for loops ----------

  lemma {:induction false} LoopExtends<M(!new)>(h: Handler<M>, s: seq<byte>, stop: int, m: M, x: seq<byte>)
    requires WellBehaved(h) && Loop(h, s, stop, m).Got?
    ensures Loop(h, s + x, stop + |x|, m)
         == Got(Loop(h, s, stop, m).value, Loop(h, s, stop, m).rest + x)
    decreases |s|
  {
    if |s| > stop {
      VarintExtends(s, MAX_VARINT_BYTES, x);
      var (tag, t) := Uint32(s).Extract();
      assert h(m, tag, t).Unknown? <==> h(m, tag, t + x).Unknown?;
      if h(m, tag, t).Done? {
        assert h(m, tag, t + x) == Done(h(m, tag, t).msg, h(m, tag, t).rest + x);
        LoopExtends(h, h(m, tag, t).rest, stop, h(m, tag, t).msg, x);
      } else if tag % 8 != 4 && tag != 0 {
        SkipExtends(tag % 8, t, x);
        LoopExtends(h, Skip(tag % 8, t).rest, stop, m, x);
      }
    }
  }

  lemma NestedExtends<M(!new)>(h: Handler<M>, s: seq<byte>, base: M, x: seq<byte>)
    requires WellBehaved(h) && Nested(h, s, base).Got?
    ensures Nested(h, s + x, base) == Got(Nested(h, s, base).value, Nested(h, s, base).rest + x)
  {
    hide Varint, Loop;
    VarintExtends(s, MAX_VARINT_BYTES, x);
    var (n, t) := Uint32(s).Extract();
    LoopExtends(h, t, |t| - n, base, x);
  }
}
