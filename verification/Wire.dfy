/** The protobuf wire format on byte sequences.

    A reader is seen here as the bytes it has not read yet; every parser returns
    what is left. The sections named below are those of the Protocol Buffers
    "Encoding" guide. */
module Wire {
  import opened MachineInts

  type byte = b: int | 0 <= b < 256

  /** A parsed value and the unread bytes, or a thrown error. */
  datatype Parse<+T> = Fail | Got(value: T, rest: seq<byte>) {
    predicate IsFailure() {
      Fail?
    }

    function PropagateFailure<U>(): Parse<U>
      requires Fail?
    {
      Fail
    }

    function Extract(): (T, seq<byte>)
      requires Got?
    {
      (value, rest)
    }
  }

  // ---------- Writing ----------

  /** Section "Base 128 Varints". */
  function EncVarint(n: nat): (r: seq<byte>)
    ensures |r| >= 1
  {
    if n < 128 then [n] else [128 + n % 128] + EncVarint(n / 128)
  }

  /** A signed value as its 64-bit two's complement, so a negative one takes ten bytes. */
  function EncSigned(v: int64): seq<byte> {
    EncVarint(v % TWO_64)
  }

  /** Section "Length-Delimited Records". */
  function LengthDelimited(b: seq<byte>): seq<byte> {
    EncVarint(|b|) + b
  }

  // ---------- Reading ----------

  /** A varint of at most `k` bytes. */
  function Varint(s: seq<byte>, k: nat): (r: Parse<nat>)
    ensures r.Got? ==> |r.rest| < |s|
  {
    if s == [] || k == 0 then Fail
    else if s[0] < 128 then Got(s[0], s[1..])
    else
      var (v, t) :- Varint(s[1..], k - 1);
      Got(s[0] - 128 + 128 * v, t)
  }

  const MAX_VARINT_BYTES: nat := 10

  function Uint32(s: seq<byte>): (r: Parse<nat>)
    ensures r.Got? ==> |r.rest| < |s| && r.value < TWO_32
  {
    var (v, t) :- Varint(s, MAX_VARINT_BYTES);
    Got(v % TWO_32, t)
  }

  function Int32(s: seq<byte>): (r: Parse<int32>)
    ensures r.Got? ==> |r.rest| < |s|
  {
    var (v, t) :- Varint(s, MAX_VARINT_BYTES);
    Got(Wrap32(v), t)
  }

  function Int64(s: seq<byte>): (r: Parse<int64>)
    ensures r.Got? ==> |r.rest| < |s|
  {
    var (v, t) :- Varint(s, MAX_VARINT_BYTES);
    Got(Wrap64(v), t)
  }

  /** A length prefix and that many bytes; also the contents of a string. */
  function Bytes(s: seq<byte>): (r: Parse<seq<byte>>)
    ensures r.Got? ==> |r.rest| < |s|
  {
    var (n, t) :- Uint32(s);
    if n <= |t| then Got(t[..n], t[n..]) else Fail
  }

  function Drop(s: seq<byte>, n: nat): (r: Parse<()>)
    ensures r.Got? ==> |r.rest| <= |s|
  {
    if n <= |s| then Got((), s[n..]) else Fail
  }

  /** Steps over the payload of an unknown field of the given wire type. */
  function Skip(wireType: nat, s: seq<byte>): (r: Parse<()>)
    ensures r.Got? ==> |r.rest| <= |s|
  {
    match wireType
    case 0 =>
      var (_, t) :- Varint(s, MAX_VARINT_BYTES);
      Got((), t)
    case 1 => Drop(s, 8)
    case 2 =>
      var (_, t) :- Bytes(s);
      Got((), t)
    case 5 => Drop(s, 4)
    case _ => Fail
  }

  // ---------- Reading back what was written ----------

  function Pow128(k: nat): (r: nat)
    ensures r >= 1
  {
    if k == 0 then 1 else 128 * Pow128(k - 1)
  }

  lemma TenBytesHold64Bits()
    ensures Pow128(MAX_VARINT_BYTES) >= TWO_64
  {
    assert Pow128(5) == 0x8_0000_0000 by {
      assert Pow128(2) == 0x4000;
      assert Pow128(4) == 0x1000_0000;
    }
    assert Pow128(7) == 0x2_0000_0000_0000;
    assert Pow128(9) == 0x8000_0000_0000_0000;
  }

  lemma {:induction false} VarintInverse(n: nat, k: nat, rest: seq<byte>)
    requires k > 0 && n < Pow128(k)
    ensures Varint(EncVarint(n) + rest, k) == Got(n, rest)
  {
    var s := EncVarint(n) + rest;
    if n < 128 {
      assert s[1..] == rest;
    } else {
      VarintInverse(n / 128, k - 1, rest);
      assert s[1..] == EncVarint(n / 128) + rest;
    }
  }

  lemma Uint32Inverse(n: nat, rest: seq<byte>)
    requires n < TWO_32
    ensures Uint32(EncVarint(n) + rest) == Got(n, rest)
  {
    hide Varint, EncVarint, Pow128;
    TenBytesHold64Bits();
    VarintInverse(n, MAX_VARINT_BYTES, rest);
  }

  lemma SignedInverse(v: int64, rest: seq<byte>)
    ensures Int64(EncSigned(v) + rest) == Got(v, rest)
    ensures -TWO_31 <= v < TWO_31 ==> Int32(EncSigned(v) + rest) == Got(v, rest)
  {
    var u := v % TWO_64;
    assert u == if v < 0 then v + TWO_64 else v;
    TenBytesHold64Bits();
    VarintInverse(u, MAX_VARINT_BYTES, rest);
    WrapInverse(v);
  }

  lemma WrapInverse(v: int64)
    ensures Wrap64(if v < 0 then v + TWO_64 else v) == v
    ensures -TWO_31 <= v < TWO_31 ==> Wrap32(if v < 0 then v + TWO_64 else v) == v
  {
  }

  /** A negative value takes exactly ten bytes on the wire. */
  lemma NegativeTakesTenBytes(v: int64)
    requires v < 0
    ensures |EncSigned(v)| == 10
  {
    TenBytesHold64Bits();
    assert Pow128(9) == TWO_63 by {
      assert Pow128(2) == 0x4000;
      assert Pow128(4) == 0x1000_0000;
      assert Pow128(7) == 0x2_0000_0000_0000;
    }
    VarintLength(v % TWO_64, 9);
  }

  lemma {:induction false} VarintLength(n: nat, k: nat)
    requires Pow128(k) <= n < Pow128(k + 1)
    ensures |EncVarint(n)| == k + 1
  {
    if k > 0 {
      VarintLength(n / 128, k - 1);
    }
  }

  lemma BytesInverse(b: seq<byte>, rest: seq<byte>)
    requires |b| < TWO_32
    ensures Bytes(LengthDelimited(b) + rest) == Got(b, rest)
  {
    PrefixInverse(b, rest);
  }

  lemma PrefixInverse(b: seq<byte>, rest: seq<byte>)
    requires |b| < TWO_32
    ensures Uint32(LengthDelimited(b) + rest) == Got(|b|, b + rest)
  {
    hide Uint32, EncVarint;
    assert LengthDelimited(b) + rest == EncVarint(|b|) + (b + rest);
    Uint32Inverse(|b|, b + rest);
  }

  // ---------- Bytes after what a parser reads do not matter ----------

  lemma {:induction false} VarintExtends(s: seq<byte>, k: nat, x: seq<byte>)
    requires Varint(s, k).Got?
    ensures Varint(s + x, k) == Got(Varint(s, k).value, Varint(s, k).rest + x)
  {
    assert (s + x)[1..] == s[1..] + x;
    if s[0] >= 128 {
      VarintExtends(s[1..], k - 1, x);
    }
  }

  lemma BytesExtends(s: seq<byte>, x: seq<byte>)
    requires Bytes(s).Got?
    ensures Bytes(s + x) == Got(Bytes(s).value, Bytes(s).rest + x)
  {
    VarintExtends(s, MAX_VARINT_BYTES, x);
    var (n, t) := Uint32(s).Extract();
    assert (t + x)[..n] == t[..n];
    assert (t + x)[n..] == t[n..] + x;
  }

  lemma SkipExtends(wireType: nat, s: seq<byte>, x: seq<byte>)
    requires Skip(wireType, s).Got?
    ensures Skip(wireType, s + x) == Got((), Skip(wireType, s).rest + x)
  {
    match wireType
    case 0 => VarintExtends(s, MAX_VARINT_BYTES, x);
    case 1 => assert (s + x)[8..] == s[8..] + x;
    case 2 => BytesExtends(s, x);
    case 5 => assert (s + x)[4..] == s[4..] + x;
    case _ =>
  }

  // ---------- Payloads, without the reader ----------

  /** Section "Base 128 Varints": every byte but the last has its high bit set. */
  predicate IsVarint(p: seq<byte>) {
    p != [] && if p[0] < 128 then |p| == 1 else IsVarint(p[1..])
  }

  function VarintValue(p: seq<byte>): nat
    requires IsVarint(p)
  {
    if p[0] < 128 then p[0] else p[0] - 128 + 128 * VarintValue(p[1..])
  }

  predicate HasLengthPrefix(p: seq<byte>, k: nat) {
    && 0 < k <= 10 && k <= |p|
    && IsVarint(p[..k]) && VarintValue(p[..k]) % TWO_32 == |p| - k
  }

  /** Section "Message Structure": one value of a wire type that is not a group: a varint, eight
      bytes, a length and its bytes, or four bytes. */
  predicate IsPayload(wireType: nat, p: seq<byte>) {
    match wireType
    case 0 => IsVarint(p) && |p| <= 10
    case 1 => |p| == 8
    case 2 => exists k | 0 < k <= |p| :: HasLengthPrefix(p, k)
    case 5 => |p| == 4
    case _ => false
  }

  lemma {:induction false} VarintReads(p: seq<byte>, x: seq<byte>, k: nat)
    requires IsVarint(p) && |p| <= k
    ensures Varint(p + x, k) == Got(VarintValue(p), x)
  {
    assert (p + x)[1..] == p[1..] + x;
    if p[0] >= 128 {
      VarintReads(p[1..], x, k - 1);
    }
  }

  lemma {:induction false} ReadIsVarint(s: seq<byte>, k: nat)
    requires Varint(s, k).Got?
    ensures var n := |s| - |Varint(s, k).rest|;
            0 < n <= k && IsVarint(s[..n]) && Varint(s, k) == Got(VarintValue(s[..n]), s[n..])
  {
    if s[0] >= 128 {
      ReadIsVarint(s[1..], k - 1);
      var n := |s| - |Varint(s, k).rest|;
      assert s[..n][1..] == s[1..][..n - 1] && s[1..][n - 1..] == s[n..];
    }
  }

  /** Skipping takes the whole of exactly such bytes. */
  lemma SkipTakesPayloads(wireType: nat, p: seq<byte>)
    ensures Skip(wireType, p) == Got((), []) <==> IsPayload(wireType, p)
  {
    hide Varint, IsVarint, VarintValue;
    assert p + [] == p;
    match wireType
    case 0 =>
      if Varint(p, MAX_VARINT_BYTES).Got? {
        ReadIsVarint(p, MAX_VARINT_BYTES);
        assert p[..|p|] == p;
      }
      if IsPayload(0, p) {
        VarintReads(p, [], MAX_VARINT_BYTES);
      }
    case 2 =>
      if Skip(2, p) == Got((), []) {
        ReadIsVarint(p, MAX_VARINT_BYTES);
        assert HasLengthPrefix(p, |p| - |Varint(p, MAX_VARINT_BYTES).rest|);
      }
      if k: nat :| HasLengthPrefix(p, k) {
        VarintReads(p[..k], p[k..], MAX_VARINT_BYTES);
        assert p[..k] + p[k..] == p;
      }
    case _ =>
  }

  /** A reader of any width takes the whole varint and keeps the low bits of its value. */
  lemma ReadersKeepLowBits(p: seq<byte>, x: seq<byte>)
    requires IsVarint(p) && |p| <= MAX_VARINT_BYTES
    ensures Uint32(p + x).Got? && Uint32(p + x).rest == x && Uint32(p + x).value == VarintValue(p) % TWO_32
    ensures Int32(p + x).Got? && Int32(p + x).rest == x && (Int32(p + x).value - VarintValue(p)) % TWO_32 == 0
    ensures Int64(p + x).Got? && Int64(p + x).rest == x && (Int64(p + x).value - VarintValue(p)) % TWO_64 == 0
  {
    hide Varint, IsVarint, VarintValue;
    VarintReads(p, x, MAX_VARINT_BYTES);
    WrapsKeepLowBits(VarintValue(p));
    hide Wrap32, Wrap64;
  }
}
