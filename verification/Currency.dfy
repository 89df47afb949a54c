/** Amounts of the currency service. Doubles are exact real numbers here. */
module Currency {
  import opened MachineInts
  import opened CheckoutMoney

  function Pow10(k: nat): (p: nat)
    ensures p >= 1
  {
    if k == 0 then 1 else 10 * Pow10(k - 1)
  }

  function Abs(x: int): nat {
    if x < 0 then -x else x
  }

  /** Decimal digits of a number; none for zero. */
  function Digits(n: nat): nat {
    if n == 0 then 0 else 1 + Digits(n / 10)
  }

  /** The amount as it should be. */
  function Amount(m: Money): real {
    m.units as real + m.nanos as real / NANOS_MOD as real
  }

  /** What the digit loop makes of it: the digits of `nanos` right behind the point, however
      few there are. */
  function DigitAmount(m: Money): real {
    m.units as real + m.nanos as real / Pow10(Digits(Abs(m.nanos))) as real
  }

  method GetDouble(m: Money) returns (value: real)
    ensures value == DigitAmount(m)
  {
    var nanos: int := m.nanos;
    var decimal := 0.0;
    ghost var k: nat := 0;
    while nanos != 0
      invariant Digits(Abs(m.nanos)) == Digits(Abs(nanos)) + k
      invariant decimal == Fraction(m.nanos, nanos, k)
      decreases Abs(nanos)
    {
      var t := TruncMod(nanos, 10) as real / 10.0;
      FractionStep(m.nanos, nanos, k);
      TensDigit(nanos);
      nanos := TruncDiv(nanos, 10);
      decimal := decimal / 10.0 + t;
      k := k + 1;
    }
    value := m.units as real + decimal;
  }

  /** The last `k` digits of `n`, of which `r` is the rest, behind the point. */
  function Fraction(n: int, r: int, k: nat): real {
    (n - r * Pow10(k)) as real / Pow10(k) as real
  }

  lemma TensDigit(r: int)
    requires r != 0
    ensures Abs(TruncDiv(r, 10)) == Abs(r) / 10 && Abs(TruncDiv(r, 10)) < Abs(r)
  {
  }

  lemma FractionStep(n: int, r: int, k: nat)
    ensures Fraction(n, TruncDiv(r, 10), k + 1) == Fraction(n, r, k) / 10.0 + TruncMod(r, 10) as real / 10.0
  {
    assert Pow10(k + 1) == 10 * Pow10(k);
    hide Pow10, TruncDiv, TruncMod;
    DigitMoves(n, r, TruncDiv(r, 10), TruncMod(r, 10), Pow10(k));
  }

  lemma DigitMoves(n: int, r: int, q: int, d: int, p: int)
    requires r == q * 10 + d && p >= 1
    ensures (n - q * (10 * p)) as real / (10 * p) as real == (n - r * p) as real / p as real / 10.0 + d as real / 10.0
  {
    ShiftDigit(n, r, q, d, p);
    SumAsReal(n - r * p, d, p);
    Quotients((n - r * p) as real, d as real, p as real);
  }

  lemma ShiftDigit(n: int, r: int, q: int, d: int, p: int)
    requires r == q * 10 + d
    ensures n - q * (10 * p) == (n - r * p) + d * p
  {
    assert r * p == q * 10 * p + d * p;
  }

  lemma SumAsReal(a: int, d: int, p: int)
    ensures (a + d * p) as real == a as real + d as real * p as real
  {
  }

  lemma Quotients(a: real, d: real, p: real)
    requires p > 0.0
    ensures (a + d * p) / (10.0 * p) == a / p / 10.0 + d / 10.0
  {
    var x, y := a / p / 10.0 + d / 10.0, (a + d * p) / (10.0 * p);
    assert x * (10.0 * p) == a / p * p + d * p;
    assert a / p * p == a;
    assert y * (10.0 * p) == a + d * p;
    assert (x - y) * (10.0 * p) == 0.0;
  }

  // ---------- When the loop reads the amount ----------

  lemma {:induction false} DigitsBounds(n: nat, k: nat)
    ensures Digits(n) == k <==> if k == 0 then n == 0 else Pow10(k - 1) <= n < Pow10(k)
  {
    if n != 0 && k != 0 {
      DigitsBounds(n / 10, k - 1);
    }
  }

  lemma Pow10Values()
    ensures Pow10(8) == 100_000_000 && Pow10(9) == NANOS_MOD
  {
    assert Pow10(4) == 10_000;
  }

  lemma {:induction false} Pow10Grows(j: nat, k: nat)
    requires j < k
    ensures 10 * Pow10(j) <= Pow10(k)
  {
    if j + 1 < k {
      Pow10Grows(j, k - 1);
    }
  }

  /** The loop reads the true amount exactly when there are no nanos or they have all nine
      digits; with leading zeros, as in 1.05, they count ten times as much per missing digit. */
  lemma DigitAmountDomain(m: Money)
    ensures DigitAmount(m) == Amount(m) <==> m.nanos == 0 || 100_000_000 <= Abs(m.nanos) < NANOS_MOD
  {
    var k := Digits(Abs(m.nanos));
    DigitsBounds(Abs(m.nanos), 9);
    Pow10Values();
    if m.nanos != 0 && k != 9 {
      if k < 9 {
        Pow10Grows(k, 9);
      } else {
        Pow10Grows(9, k);
      }
      DifferentQuotients(m.nanos as real, Pow10(k) as real, NANOS_MOD as real);
    }
  }

  lemma DifferentQuotients(a: real, p: real, q: real)
    requires a != 0.0 && p > 0.0 && q > 0.0 && p != q
    ensures a / p != a / q
  {
  }

  lemma OneOhFiveIsReadAsOneAndAHalf()
    ensures DigitAmount(Money("USD", 1, 50_000_000)) == 1.5
  {
    DigitsBounds(50_000_000, 8);
    Pow10Values();
    assert Pow10(7) == 10_000_000;
  }

  // ---------- Back to units and nanos ----------

  /** A C++ conversion of a double to a long rounds toward zero. */
  function Truncate(x: real): (n: int)
    ensures x >= 0.0 ==> n as real <= x < n as real + 1.0
    ensures x <= 0.0 ==> n as real - 1.0 < x <= n as real
  {
    if x >= 0.0 then x.Floor else -((-x).Floor)
  }

  /** For every value a long can hold the whole part of, the result is a valid amount, less than
      a nano away and never further from zero. */
  method GetUnitsAndNanos(money: Money, value: real) returns (m: Money)
    requires -TWO_63 as real - 1.0 < value < TWO_63 as real
    ensures IsValid(m) && m.currencyCode == money.currencyCode
    ensures value >= 0.0 ==> Amount(m) <= value < Amount(m) + 1.0 / NANOS_MOD as real
    ensures value <= 0.0 ==> Amount(m) - 1.0 / NANOS_MOD as real < value <= Amount(m)
    ensures m == Packed(money, value)
  {
    var unit := Truncate(value);
    var rem := value - unit as real;
    var nano := Truncate(rem * NANOS_MOD as real);
    m := money.(units := unit, nanos := nano);
  }

  function Packed(money: Money, value: real): Money
    requires -TWO_63 as real - 1.0 < value < TWO_63 as real
  {
    var unit := Truncate(value);
    money.(units := unit, nanos := Truncate((value - unit as real) * NANOS_MOD as real))
  }

  /** Packing undoes the digit loop exactly where the loop reads the amount. */
  lemma PackedInverts(m: Money)
    requires IsValid(m)
    ensures -TWO_63 as real - 1.0 < DigitAmount(m) < TWO_63 as real
    ensures Packed(m, DigitAmount(m)) == m <==> m.nanos == 0 || Abs(m.nanos) >= 100_000_000
  {
    DigitAmountInRange(m);
    DigitAmountDomain(m);
    if DigitAmount(m) == Amount(m) {
      PackedAmount(m);
    } else {
      OtherAmountPacksElsewhere(m);
    }
  }

  lemma PackedAmount(m: Money)
    requires IsValid(m) && -TWO_63 as real - 1.0 < Amount(m) < TWO_63 as real
    ensures Packed(m, Amount(m)) == m
  {
    var v := Amount(m);
    var f := m.nanos as real / NANOS_MOD as real;
    assert -1.0 < f < 1.0;
    assert Truncate(v) == m.units;
    assert (v - m.units as real) * NANOS_MOD as real == m.nanos as real;
  }

  /** The fraction the loop reads is below one, so the units survive. */
  lemma DigitAmountInRange(m: Money)
    requires IsValid(m)
    ensures -TWO_63 as real - 1.0 < DigitAmount(m) < TWO_63 as real
    ensures var f := DigitAmount(m) - m.units as real;
            -1.0 < f < 1.0 && (m.nanos >= 0 ==> f >= 0.0) && (m.nanos <= 0 ==> f <= 0.0)
  {
    var n, k := Abs(m.nanos), Digits(Abs(m.nanos));
    DigitsBounds(n, k);
    BelowOne(m.nanos as real, Pow10(k) as real);
  }

  lemma BelowOne(a: real, p: real)
    requires p >= 1.0 && -p < a < p
    ensures -1.0 < a / p < 1.0 && (a >= 0.0 ==> a / p >= 0.0) && (a <= 0.0 ==> a / p <= 0.0)
  {
    var x := a / p;
    assert x * p == a;
    assert x < 1.0;
    assert x > -1.0;
  }

  /** A misread fraction is at least nine times the true one, so it packs to other nanos. */
  lemma OtherAmountPacksElsewhere(m: Money)
    requires IsValid(m) && -TWO_63 as real - 1.0 < DigitAmount(m) < TWO_63 as real
    requires m.nanos != 0 && Abs(m.nanos) < 100_000_000
    ensures Packed(m, DigitAmount(m)) != m
  {
    DigitAmountInRange(m);
    var v := DigitAmount(m);
    var k := Digits(Abs(m.nanos));
    DigitsBounds(Abs(m.nanos), k);
    Pow10Values();
    if k >= 9 {
      if k > 9 {
        Pow10Grows(8, k - 1);
      }
      assert false;
    }
    Pow10Grows(k, 9);
    assert Truncate(v) == m.units;
    Inflated(m.nanos as real, Pow10(k) as real);
  }

  lemma Inflated(a: real, p: real)
    requires p >= 1.0 && 10.0 * p <= NANOS_MOD as real
    ensures a > 0.0 ==> a / p * NANOS_MOD as real >= 10.0 * a
    ensures a < 0.0 ==> a / p * NANOS_MOD as real <= 10.0 * a
  {
    var x := a / p;
    assert x * p == a;
    assert x * NANOS_MOD as real - 10.0 * a == x * (NANOS_MOD as real - 10.0 * p);
    if a > 0.0 {
      assert x > 0.0;
    }
    if a < 0.0 {
      assert x < 0.0;
    }
  }

  // ---------- Convert ----------

  /** The exact conversion of what the loop reads, through euros. */
  function Converted(from: Money, rate: real, toRate: real): real
    requires rate > 0.0
  {
    DigitAmount(from) / rate * toRate
  }

  /** Converting scales what the loop reads by both rates, in either direction: proportional to
      the target's, inversely to the source's, and undone by the way back. */
  lemma ConversionScales(m: Money, rate: real, toRate: real, k: real)
    requires rate > 0.0
    ensures Converted(m, rate, k * toRate) == k * Converted(m, rate, toRate)
    ensures k > 0.0 ==> Converted(m, k * rate, k * toRate) == Converted(m, rate, toRate)
    ensures toRate > 0.0 ==> Converted(m, rate, toRate) / toRate * rate == DigitAmount(m)
    ensures Converted(m, rate, rate) == DigitAmount(m)
  {
    hide DigitAmount;
    var euros := DigitAmount(m) / rate;
    assert euros * rate == DigitAmount(m);
    assert euros * (k * toRate) == k * (euros * toRate);
    if toRate > 0.0 {
      assert euros * toRate / toRate == euros;
    }
    if k > 0.0 {
      Cancels(DigitAmount(m), rate, k);
      assert euros / k * (k * toRate) == euros * toRate;
    }
  }

  lemma Cancels(a: real, b: real, k: real)
    requires b > 0.0 && k > 0.0
    ensures k * b > 0.0 && a / (k * b) == a / b / k
  {
    var x, y := a / (k * b), a / b / k;
    assert x * (k * b) == a;
    assert y * k == a / b;
    assert a / b * b == a;
    assert y * (k * b) == a;
    assert (x - y) * (k * b) == 0.0;
  }

  /** From a currency with a rate: a valid amount less than a nano off the conversion. The rate
      of an unknown target code is zero, and so is the amount. */
  method Convert(from: Money, rate: real, toCode: string, toRate: real) returns (to: Money)
    requires rate > 0.0 && toRate >= 0.0
    requires -TWO_63 as real - 1.0 < Converted(from, rate, toRate) < TWO_63 as real
    ensures IsValid(to) && to == Packed(Money(toCode, 0, 0), Converted(from, rate, toRate))
    ensures -1.0 < (Converted(from, rate, toRate) - Amount(to)) * NANOS_MOD as real < 1.0
    ensures toRate == 0.0 ==> to == Money(toCode, 0, 0)
  {
    hide Packed, Amount, DigitAmount, IsValid;
    var value := GetDouble(from);
    var oneEuro := value / rate;
    var final := oneEuro * toRate;
    assert final == Converted(from, rate, toRate) && (toRate == 0.0 ==> final == 0.0);
    hide Converted;
    to := GetUnitsAndNanos(Money(toCode, 0, 0), final);
    Gap(final - Amount(to));
    if toRate == 0.0 {
      NothingPacked(toCode);
    }
  }

  lemma NothingPacked(code: string)
    ensures Packed(Money(code, 0, 0), 0.0) == Money(code, 0, 0)
  {
  }

  lemma Gap(x: real)
    requires -1.0 / NANOS_MOD as real < x < 1.0 / NANOS_MOD as real
    ensures -1.0 < x * NANOS_MOD as real < 1.0
  {
  }

  /** Into the same currency it changes nothing, exactly for amounts the loop reads. */
  lemma SameCurrencyKeepsTheAmount(m: Money, rate: real)
    requires IsValid(m) && rate > 0.0
    ensures -TWO_63 as real - 1.0 < Converted(m, rate, rate) < TWO_63 as real
    ensures Packed(m, Converted(m, rate, rate)) == m <==> m.nanos == 0 || Abs(m.nanos) >= 100_000_000
  {
    assert Converted(m, rate, rate) == DigitAmount(m);
    PackedInverts(m);
  }
}
