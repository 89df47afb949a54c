/** Amounts of the checkout service: whole units and nanos, both in machine integers. */
module CheckoutMoney {
  import opened Wrappers
  import opened MachineInts

  datatype Money = Money(currencyCode: string, units: int64, nanos: int32)

  const NANOS_MOD: int := 1_000_000_000
  const NANOS_MAX: int := 999_999_999

  predicate IsValid(m: Money) {
    SignMatches(m) && -NANOS_MAX <= m.nanos <= NANOS_MAX
  }

  predicate SignMatches(m: Money) {
    m.nanos == 0 || m.units == 0 || (m.nanos < 0 <==> m.units < 0)
  }

  /** The amount in nanos. */
  function Value(m: Money): int {
    m.units * NANOS_MOD + m.nanos
  }

  /** `Sum`, with the wrap-around of every int64 and int32 operation. */
  function Sum(l: Money, r: Money): Result<Money> {
    if !IsValid(l) || !IsValid(r) || l.currencyCode != r.currencyCode then Failure
    else
      var units := Wrap64(l.units + r.units);
      var nanos := Wrap32(l.nanos + r.nanos);
      if (units == 0 && nanos == 0) || (units > 0 && nanos >= 0) || (units < 0 && nanos <= 0) then
        Success(Money(l.currencyCode, Wrap64(units + TruncDiv(nanos, NANOS_MOD)), TruncMod(nanos, NANOS_MOD)))
      else if units > 0 then Success(Money(l.currencyCode, Wrap64(units - 1), Wrap32(nanos + NANOS_MOD)))
      else Success(Money(l.currencyCode, Wrap64(units + 1), Wrap32(nanos - NANOS_MOD)))
  }

  /** `Sum` as the source runs it, two variables changed in place. */
  method ComputeSum(l: Money, r: Money) returns (s: Result<Money>)
    ensures s == Sum(l, r)
  {
    if !IsValid(l) || !IsValid(r) {
      return Failure;
    } else if l.currencyCode != r.currencyCode {
      return Failure;
    }
    var units: int64 := Wrap64(l.units + r.units);
    var nanos: int32 := Wrap32(l.nanos + r.nanos);
    if (units == 0 && nanos == 0) || (units > 0 && nanos >= 0) || (units < 0 && nanos <= 0) {
      units := Wrap64(units + TruncDiv(nanos, NANOS_MOD));
      nanos := TruncMod(nanos, NANOS_MOD);
    } else if units > 0 {
      units := Wrap64(units - 1);
      nanos := Wrap32(nanos + NANOS_MOD);
    } else {
      units := Wrap64(units + 1);
      nanos := Wrap32(nanos - NANOS_MOD);
    }
    return Success(Money(l.currencyCode, units, nanos));
  }

  /** No int64 operation of `Sum` wraps. */
  predicate NoOverflow(l: Money, r: Money) {
    var u, n := l.units + r.units, l.nanos + r.nanos;
    && -TWO_63 <= u < TWO_63
    && (u > 0 && n >= NANOS_MOD ==> u + 1 < TWO_63)
    && (u < 0 && n <= -NANOS_MOD ==> u - 1 >= -TWO_63)
  }

  /** When a sum is exact: only a zero unit sum with a nano sum below -1147483648 is not,
      where subtracting a unit's worth of nanos leaves int32. */
  predicate SumIsExact(l: Money, r: Money) {
    l.units + r.units != 0 || l.nanos + r.nanos == 0 || l.nanos + r.nanos >= -1_147_483_648
  }

  /** When a sum is valid again: a zero unit sum must not have to borrow from a unit. */
  predicate SumIsValid(l: Money, r: Money) {
    l.units + r.units != 0 || l.nanos + r.nanos == 0 || l.nanos + r.nanos >= NANOS_MOD
  }

  lemma SumDomain(l: Money, r: Money)
    requires IsValid(l) && IsValid(r) && l.currencyCode == r.currencyCode && NoOverflow(l, r)
    ensures Sum(l, r).Success? && Sum(l, r).value.currencyCode == l.currencyCode
    ensures Value(Sum(l, r).value) == Value(l) + Value(r) <==> SumIsExact(l, r)
    ensures IsValid(Sum(l, r).value) <==> SumIsValid(l, r)
  {
    var u, n := l.units + r.units, l.nanos + r.nanos;
    assert Wrap64(u) == u && Wrap32(n) == n;
    if u == 0 && n < 0 {
      WrapBelow(n);
    }
  }

  /** Invalid amounts and two currencies are errors, and nothing else is; a sum is in the
      currency of both. */
  lemma SumSucceeds(l: Money, r: Money)
    ensures Sum(l, r).Success? <==> IsValid(l) && IsValid(r) && l.currencyCode == r.currencyCode
    ensures Sum(l, r).Success? ==> Sum(l, r).value.currencyCode == l.currencyCode == r.currencyCode
  {
  }

  lemma WrapBelow(n: int)
    requires -1_999_999_998 <= n < 0
    ensures Wrap32(n - NANOS_MOD) == if n >= -1_147_483_648 then n - NANOS_MOD else n - NANOS_MOD + TWO_32
  {
  }

  /** Two prices below one unit may add up to an amount that is not valid. */
  lemma SumMayBeInvalid()
    ensures var m := Money("USD", 0, 400_000_000);
            && IsValid(m) && Sum(m, m) == Success(Money("USD", 1, -200_000_000)) && !IsValid(Sum(m, m).value)
  {
  }

  // ---------- The canonical form ----------

  /** The one valid amount of `v` nanos, for `v` that is not negative. */
  function Canonical(currencyCode: string, v: nat): Money
    requires v < TWO_63 * NANOS_MOD
  {
    Money(currencyCode, v / NANOS_MOD, v % NANOS_MOD)
  }

  predicate NonNegative(m: Money) {
    IsValid(m) && m.units >= 0 && m.nanos >= 0
  }

  lemma CanonicalIsUnique(m: Money)
    requires NonNegative(m)
    ensures 0 <= Value(m) < TWO_63 * NANOS_MOD && m == Canonical(m.currencyCode, Value(m))
  {
  }

  /** Adding two amounts that are not negative is exact and canonical if and only if the total
      is nothing or at least one whole unit. */
  lemma SumOfNonNegatives(c: string, a: nat, b: nat)
    requires a + b < TWO_63 * NANOS_MOD
    ensures var s := Sum(Canonical(c, a), Canonical(c, b));
            && s.Success?
            && (s.value == Canonical(c, a + b) <==> a + b == 0 || a + b >= NANOS_MOD)
            && (IsValid(s.value) <==> a + b == 0 || a + b >= NANOS_MOD)
  {
  }

  // ---------- MultiplySlow ----------

  /** `Must` turns an error into a panic, which ends the whole request. */
  function MultiplySlow(m: Money, n: nat): Result<Money> {
    if n <= 1 then Success(m)
    else
      var out :- MultiplySlow(m, n - 1);
      Sum(out, m)
  }

  method ComputeMultiplySlow(m: Money, n: nat) returns (r: Result<Money>)
    ensures r == MultiplySlow(m, n)
  {
    hide Sum;
    var out := m;
    var left := n;
    while left > 1
      invariant left <= n && (left >= 1 || n == 0)
      invariant MultiplySlow(m, if n == 0 then 0 else n - left + 1) == Success(out)
    {
      PanicLasts(m, n - left + 2, n);
      out :- ComputeSum(out, m);
      left := left - 1;
    }
    return Success(out);
  }

  lemma {:induction false} PanicLasts(m: Money, k: nat, n: nat)
    requires k <= n
    ensures MultiplySlow(m, k).Failure? ==> MultiplySlow(m, n).Failure?
    decreases n - k
  {
    if k < n {
      PanicLasts(m, k + 1, n);
    }
  }

  /** Repeated addition is exact if and only if it is not needed, adds nothing, or two copies
      already reach a whole unit; otherwise two copies give an invalid amount and three panic. */
  predicate MultipliesExactly(v: nat, n: nat) {
    n <= 1 || v == 0 || 2 * v >= NANOS_MOD
  }

  lemma {:induction false} MultiplySlowDomain(c: string, v: nat, n: nat)
    requires n >= 1 && v < TWO_63 * NANOS_MOD && n * v < TWO_63 * NANOS_MOD
    ensures n * v >= 0
    ensures MultipliesExactly(v, n) ==> MultiplySlow(Canonical(c, v), n) == Success(Canonical(c, n * v))
    ensures !MultipliesExactly(v, n) ==>
              MultiplySlow(Canonical(c, v), n).Failure? || !IsValid(MultiplySlow(Canonical(c, v), n).value)
  {
    if n > 1 {
      Multiples(v, n);
      MultiplySlowDomain(c, v, n - 1);
      SumOfNonNegatives(c, (n - 1) * v, v);
      if MultipliesExactly(v, n) {
        assert n * v == 0 || n * v >= 2 * v;
      } else if n > 2 {
        assert !MultipliesExactly(v, n - 1);
      }
    }
  }

  lemma Multiples(v: nat, n: nat)
    requires n > 1
    ensures v <= (n - 1) * v <= n * v && (n - 1) * v + v == n * v && 2 * v <= n * v
  {
  }
}
