/** Fixed-width integers of the source languages, written out over `int`. */
module MachineInts {

  const TWO_31: int := 0x8000_0000
  const TWO_32: int := 0x1_0000_0000
  const TWO_53: int := 0x20_0000_0000_0000
  const TWO_63: int := 0x8000_0000_0000_0000
  const TWO_64: int := 0x1_0000_0000_0000_0000

  type int32 = x: int | -0x8000_0000 <= x < 0x8000_0000

  type int64 = x: int | -0x8000_0000_0000_0000 <= x < 0x8000_0000_0000_0000

  /** The signed 32-bit value congruent to `x`. */
  function Wrap32(x: int): (r: int32)
    ensures -TWO_31 <= x < TWO_31 ==> r == x
  {
    (x + TWO_31) % TWO_32 - TWO_31
  }

  /** The signed 64-bit value congruent to `x`. */
  function Wrap64(x: int): (r: int64)
    ensures -TWO_63 <= x < TWO_63 ==> r == x
  {
    (x + TWO_63) % TWO_64 - TWO_63
  }

  /** Division of C, C++ and Go: the quotient is rounded toward zero. */
  function TruncDiv(a: int, b: int): (q: int)
    requires b > 0
    ensures a >= 0 ==> q == a / b
    ensures a < 0 ==> q == -((-a) / b)
  {
    if a >= 0 then a / b else -((-a) / b)
  }

  /** Remainder of C, C++ and Go: it takes the sign of the dividend. */
  function TruncMod(a: int, b: int): (r: int)
    requires b > 0
    ensures a == TruncDiv(a, b) * b + r
    ensures -b < r < b
    ensures a >= 0 ==> r >= 0
    ensures a <= 0 ==> r <= 0
  {
    a - TruncDiv(a, b) * b
  }

  /** Wrapping keeps a value up to a multiple of the width. */
  lemma WrapsKeepLowBits(x: int)
    ensures (Wrap32(x) - x) % TWO_32 == 0 && (Wrap64(x) - x) % TWO_64 == 0
  {
    MultipleOf(x + TWO_31, TWO_32);
    MultipleOf(x + TWO_63, TWO_64);
  }

  lemma MultipleOf(y: int, m: int)
    requires m > 0
    ensures (y % m - y) % m == 0
  {
    var q := y / m;
    assert y % m - y == m * -q;
    ZeroRemainder(-q, m);
  }

  lemma ZeroRemainder(k: int, m: int)
    requires m > 0
    ensures (m * k) % m == 0
  {
    SmallMultiple(k - m * k / m, m);
  }

  lemma SmallMultiple(j: int, m: int)
    requires m > 0 && -m < m * j < m
    ensures j == 0
  {
    if j > 0 {
      AtLeastOne(j, m);
    } else if j < 0 {
      AtLeastOne(-j, m);
    }
  }

  lemma AtLeastOne(k: int, m: int)
    requires k >= 1 && m > 0
    ensures m * k >= m
  {
  }
}
