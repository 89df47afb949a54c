/** The writer and the reader the generated code calls: objects updated in place. */
module WireIO {
  import opened Wrappers
  import opened MachineInts
  import opened Wire
  import DecodeLoop

  /** Bytes written so far; `fork` sets the open buffer aside and `join` writes the finished
      child behind its length. */
  class Writer {
    var buf: seq<byte>
    var stack: seq<seq<byte>>

    constructor ()
      ensures buf == [] && stack == []
    {
      buf, stack := [], [];
    }

    method Varint(v: nat)
      modifies `buf
      ensures buf == old(buf) + EncVarint(v)
    {
      var n: nat := v;
      while n >= 128
        invariant buf + EncVarint(n) == old(buf) + EncVarint(v)
      {
        buf := buf + [128 + n % 128];
        n := n / 128;
      }
      buf := buf + [n];
    }

    /** Throws on a value wider than 32 bits. */
    method Uint32(v: nat) returns (r: Result<()>)
      modifies `buf
      ensures r.Success? <==> v < TWO_32
      ensures r.Success? ==> buf == old(buf) + EncVarint(v)
      ensures r.Failure? ==> buf == old(buf)
    {
      if v >= TWO_32 {
        return Failure;
      }
      Varint(v);
      return Success(());
    }

    /** `uint32` of a constant of the schema, which cannot throw. */
    method Tag(tag: nat)
      requires tag < TWO_32
      modifies `buf
      ensures buf == old(buf) + EncVarint(tag)
    {
      Varint(tag);
    }

    method Signed(v: int64)
      modifies `buf
      ensures buf == old(buf) + EncSigned(v)
    {
      Varint(v % TWO_64);
    }

    method Bytes(b: seq<byte>) returns (r: Result<()>)
      modifies `buf
      ensures r.Success? <==> |b| < TWO_32
      ensures r.Success? ==> buf == old(buf) + LengthDelimited(b)
    {
      var _ :- Uint32(|b|);
      buf := buf + b;
      return Success(());
    }

    /** The field of a string, left out when empty. */
    method StringField(tag: nat, v: seq<byte>) returns (r: Result<()>)
      requires tag < TWO_32
      modifies `buf
      ensures r.Success? <==> |v| < TWO_32
      ensures r.Success? ==> buf == old(buf) + DecodeLoop.StringField(tag, v)
    {
      if v != [] {
        Tag(tag);
        var _ :- Bytes(v);
        assert buf == old(buf) + (EncVarint(tag) + LengthDelimited(v));
      }
      return Success(());
    }

    /** The field of an integer of either width, left out when zero. */
    method IntField(tag: nat, v: int64)
      requires tag < TWO_32
      modifies `buf
      ensures buf == old(buf) + DecodeLoop.IntField(tag, v)
    {
      if v != 0 {
        Tag(tag);
        Signed(v);
        assert buf == old(buf) + (EncVarint(tag) + EncSigned(v));
      }
    }

    method Fork()
      modifies this
      ensures stack == old(stack) + [old(buf)] && buf == []
    {
      stack := stack + [buf];
      buf := [];
    }

    method Join() returns (r: Result<()>)
      requires stack != []
      modifies this
      ensures r.Success? <==> |old(buf)| < TWO_32
      ensures r.Success? ==> stack == old(stack)[..|old(stack)| - 1]
      ensures r.Success? ==> buf == old(stack)[|old(stack)| - 1] + LengthDelimited(old(buf))
    {
      var chunk := buf;
      buf := stack[|stack| - 1];
      stack := stack[..|stack| - 1];
      r := Bytes(chunk);
    }
  }

  /** A position in a buffer that only moves forward. */
  class Reader {
    const buf: seq<byte>
    var pos: nat

    ghost predicate Valid()
      reads this
    {
      pos <= |buf|
    }

    /** The bytes not read yet. */
    ghost function Rest(): seq<byte>
      reads this
      requires Valid()
    {
      buf[pos..]
    }

    /** A result of this reader as the parse it stands for. */
    ghost function Outcome<T>(r: Result<T>): Parse<T>
      reads this
      requires Valid()
    {
      if r.Failure? then Fail else Got(r.value, Rest())
    }

    constructor (buf: seq<byte>)
      ensures Valid() && this.buf == buf && Rest() == buf
    {
      this.buf := buf;
      pos := 0;
    }

    method Varint() returns (r: Result<nat>)
      requires Valid()
      modifies `pos
      ensures Valid()
      ensures Outcome(r) == Wire.Varint(old(Rest()), MAX_VARINT_BYTES)
    {
      hide Scaled, Wire.Varint;
      var value: nat, unit: nat, k: nat := 0, 1, MAX_VARINT_BYTES;
      ScaledOnce(Wire.Varint(Rest(), k));
      while k > 0 && pos < |buf|
        invariant Valid() && k <= MAX_VARINT_BYTES
        invariant Wire.Varint(old(Rest()), MAX_VARINT_BYTES) == Scaled(value, unit, Wire.Varint(Rest(), k))
        decreases k
      {
        VarintTurn(Rest(), value, unit, k);
        var b := buf[pos];
        assert buf[pos + 1..] == Rest()[1..];
        pos := pos + 1;
        if b < 128 {
          return Success(value + unit * b);
        }
        value, unit, k := value + unit * (b - 128), 128 * unit, k - 1;
      }
      VarintTurn(Rest(), value, unit, k);
      return Failure;
    }

    /** A parse whose value is still to be scaled by the groups read before it. */
    static function Scaled(value: nat, unit: nat, p: Parse<nat>): Parse<nat> {
      if p.Fail? then Fail else Got(value + unit * p.value, p.rest)
    }

    static lemma ScaledOnce(p: Parse<nat>)
      ensures Scaled(0, 1, p) == p
    {
    }

    static lemma VarintTurn(s: seq<byte>, value: nat, unit: nat, k: nat)
      ensures Scaled(value, unit, Wire.Varint(s, k))
           == if s == [] || k == 0 then Fail
              else if s[0] < 128 then Got(value + unit * s[0], s[1..])
              else Scaled(value + unit * (s[0] - 128), 128 * unit, Wire.Varint(s[1..], k - 1))
    {
      if s != [] && k > 0 && s[0] >= 128 {
        var p := Wire.Varint(s[1..], k - 1);
        if p.Got? {
          assert unit * (s[0] - 128 + 128 * p.value) == unit * (s[0] - 128) + 128 * unit * p.value;
        }
      }
    }

    method Uint32() returns (r: Result<nat>)
      requires Valid()
      modifies `pos
      ensures Valid()
      ensures Outcome(r) == Wire.Uint32(old(Rest()))
    {
      var v :- Varint();
      return Success(v % TWO_32);
    }

    method Int32() returns (r: Result<int32>)
      requires Valid()
      modifies `pos
      ensures Valid()
      ensures Outcome(r) == Wire.Int32(old(Rest()))
    {
      var v :- Varint();
      return Success(Wrap32(v));
    }

    method Int64() returns (r: Result<int64>)
      requires Valid()
      modifies `pos
      ensures Valid()
      ensures Outcome(r) == Wire.Int64(old(Rest()))
    {
      var v :- Varint();
      return Success(Wrap64(v));
    }

    method Bytes() returns (r: Result<seq<byte>>)
      requires Valid()
      modifies `pos
      ensures Valid()
      ensures Outcome(r) == Wire.Bytes(old(Rest()))
    {
      var n :- Uint32();
      if pos + n > |buf| {
        return Failure;
      }
      ghost var t := Rest();
      assert buf[pos..pos + n] == t[..n];
      assert buf[pos + n..] == t[n..];
      r := Success(buf[pos..pos + n]);
      pos := pos + n;
    }

    method Skip(wireType: nat) returns (r: Result<()>)
      requires Valid()
      modifies `pos
      ensures Valid()
      ensures Outcome(r) == Wire.Skip(wireType, old(Rest()))
    {
      match wireType {
        case 0 =>
          var _ :- Varint();
          return Success(());
        case 1 =>
          r := Advance(8);
        case 2 =>
          var _ :- Bytes();
          return Success(());
        case 5 =>
          r := Advance(4);
        case _ =>
          return Failure;
      }
    }

    method Advance(n: nat) returns (r: Result<()>)
      requires Valid()
      modifies `pos
      ensures Valid()
      ensures Outcome(r) == Drop(old(Rest()), n)
    {
      if pos + n > |buf| {
        return Failure;
      }
      assert buf[pos + n..] == Rest()[n..];
      pos := pos + n;
      return Success(());
    }
  }
}
