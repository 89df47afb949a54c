/** The order total of `PlaceOrder` and the promo discount taken off it. */
module Checkout {
  import opened Wrappers
  import opened MachineInts
  import opened CheckoutMoney

  datatype Line = Line(quantity: int32, cost: Money)

  /** `uint32(quantity)` */
  function Copies(l: Line): nat {
    l.quantity % TWO_32
  }

  /** How often the price is charged: the product starts from one copy, and a negative quantity
      is a large one. */
  function Charged(l: Line): (n: nat)
    ensures n >= 1
  {
    if Copies(l) == 0 then 1 else Copies(l)
  }

  /** Shipping, then every line, each step under `Must`; `Failure` is a panic. */
  function Total(currency: string, shipping: Money, lines: seq<Line>): Result<Money> {
    if lines == [] then Sum(Money(currency, 0, 0), shipping)
    else
      var l := lines[|lines| - 1];
      var total :- Total(currency, shipping, lines[..|lines| - 1]);
      var multPrice :- MultiplySlow(l.cost, Copies(l));
      Sum(total, multPrice)
  }

  method ComputeTotal(currency: string, shipping: Money, lines: seq<Line>) returns (r: Result<Money>)
    ensures r == Total(currency, shipping, lines)
  {
    var total := Money(currency, 0, 0);
    assert lines[..0] == [];
    PanicEndsTheOrder(currency, shipping, lines, 0);
    total :- ComputeSum(total, shipping);
    var i := 0;
    while i < |lines|
      invariant 0 <= i <= |lines| && Total(currency, shipping, lines[..i]) == Success(total)
    {
      assert lines[..i + 1][..i] == lines[..i];
      PanicEndsTheOrder(currency, shipping, lines, i + 1);
      var multPrice :- ComputeMultiplySlow(lines[i].cost, Copies(lines[i]));
      total :- ComputeSum(total, multPrice);
      i := i + 1;
    }
    assert lines[..i] == lines;
    return Success(total);
  }

  lemma {:induction false} PanicEndsTheOrder(currency: string, shipping: Money, lines: seq<Line>, i: nat)
    requires i <= |lines|
    ensures Total(currency, shipping, lines[..i]).Failure? ==> Total(currency, shipping, lines).Failure?
    decreases |lines| - i
  {
    if i < |lines| {
      assert lines[..i + 1][..i] == lines[..i];
      PanicEndsTheOrder(currency, shipping, lines, i + 1);
    } else {
      assert lines[..i] == lines;
    }
  }

  // ---------- The exact total ----------

  /** An order as the cart, catalog and currency services deliver it: amounts in the user's
      currency that are not negative, and any quantities. */
  predicate WellFormed(currency: string, shipping: Money, lines: seq<Line>) {
    && NonNegative(shipping) && shipping.currencyCode == currency
    && forall l | l in lines :: NonNegative(l.cost) && l.cost.currencyCode == currency
  }

  /** What is charged for every line, in nanos and without machine integers. */
  function LinesValue(lines: seq<Line>): int {
    if lines == [] then 0
    else LinesValue(lines[..|lines| - 1]) + LineValue(lines[|lines| - 1])
  }

  function LineValue(l: Line): int {
    Charged(l) * Value(l.cost)
  }

  /** Repeated addition is exact on every line. */
  predicate LinesMultiply(lines: seq<Line>) {
    forall l | l in lines :: 0 <= Value(l.cost) && MultipliesExactly(Value(l.cost), Charged(l))
  }

  /** Nothing, or at least one whole unit. */
  predicate Carries(t: int) {
    t == 0 || t >= NANOS_MOD
  }

  /** No running total lies strictly between nothing and one whole unit. */
  predicate RunningTotalsCarry(shipping: Money, lines: seq<Line>) {
    forall i | 0 <= i <= |lines| ::
      Carries(Value(shipping) + LinesValue(lines[..i]))
  }

  lemma LineIsNonNegative(l: Line)
    requires NonNegative(l.cost)
    ensures LineValue(l) >= 0
  {
  }

  lemma {:induction false} LinesAreNonNegative(currency: string, shipping: Money, lines: seq<Line>, i: nat)
    requires WellFormed(currency, shipping, lines) && i <= |lines|
    ensures 0 <= LinesValue(lines[..i]) <= LinesValue(lines)
  {
    hide LineValue, NonNegative, Value;
    if lines != [] {
      var front, l := lines[..|lines| - 1], lines[|lines| - 1];
      assert lines == front + [l] && l in lines;
      LineIsNonNegative(l);
      var k := if i < |lines| then i else |front|;
      LinesAreNonNegative(currency, shipping, front, k);
      assert front[..k] == lines[..k] && lines[..|lines|] == lines;
      assert front[..|front|] == front;
    }
  }

  /** Exactly when an order total comes out right, over every order that fits: it is the
      canonical form of shipping plus what is charged for each line; in every other case some
      step panics or the total is not a valid amount. */
  lemma {:induction false} TotalDomain(currency: string, shipping: Money, lines: seq<Line>)
    requires WellFormed(currency, shipping, lines)
    requires Value(shipping) + LinesValue(lines) < TWO_63 * NANOS_MOD
    ensures 0 <= Value(shipping) + LinesValue(lines)
    ensures LinesMultiply(lines) && RunningTotalsCarry(shipping, lines) ==>
              Total(currency, shipping, lines) == Success(Canonical(currency, Value(shipping) + LinesValue(lines)))
    ensures !(LinesMultiply(lines) && RunningTotalsCarry(shipping, lines)) ==>
              Total(currency, shipping, lines).Failure? || !IsValid(Total(currency, shipping, lines).value)
  {
    hide Sum, MultiplySlow, IsValid, MultipliesExactly, RunningTotalsCarry;
    TotalUnfolds(currency, shipping, lines);
    CanonicalIsUnique(shipping);
    if lines == [] {
      NoLinesCarry(shipping);
      SumOfNonNegatives(currency, 0, Value(shipping));
    } else {
      var front, l := lines[..|lines| - 1], lines[|lines| - 1];
      assert lines == front + [l] && l in lines;
      LinesAreNonNegative(currency, shipping, lines, |front|);
      TotalDomain(currency, shipping, front);
      OneMoreLine(currency, Value(shipping) + LinesValue(front), l);
      assert LinesMultiply(lines) <==> LinesMultiply(front) && MultipliesExactly(Value(l.cost), Charged(l));
      RunningTotalsSnoc(shipping, front, l);
      if Total(currency, shipping, front).Success? {
        SumNeedsValid(Total(currency, shipping, front).value, MultiplySlow(l.cost, Copies(l)));
      }
    }
  }

  lemma NoLinesCarry(shipping: Money)
    ensures RunningTotalsCarry(shipping, []) <==> Carries(Value(shipping))
  {
    var none: seq<Line> := [];
    assert none[..0] == [];
  }

  lemma TotalUnfolds(currency: string, shipping: Money, lines: seq<Line>)
    ensures Total(currency, shipping, lines)
         == if lines == [] then Sum(Money(currency, 0, 0), shipping)
            else
              var total := Total(currency, shipping, lines[..|lines| - 1]);
              var price := MultiplySlow(lines[|lines| - 1].cost, Copies(lines[|lines| - 1]));
              if total.Failure? || price.Failure? then Failure else Sum(total.value, price.value)
  {
  }

  lemma SumNeedsValid(l: Money, r: Result<Money>)
    ensures r.Success? && (!IsValid(l) || !IsValid(r.value)) ==> Sum(l, r.value).Failure?
  {
  }

  lemma LinesValueSnoc(front: seq<Line>, l: Line)
    ensures LinesValue(front + [l]) == LinesValue(front) + LineValue(l)
  {
  }

  lemma RunningTotalsSnoc(shipping: Money, front: seq<Line>, l: Line)
    ensures RunningTotalsCarry(shipping, front + [l])
       <==> RunningTotalsCarry(shipping, front)
            && Carries(Value(shipping) + LinesValue(front) + LineValue(l))
  {
    hide LineValue, LinesValue, Carries, Value;
    var lines := front + [l];
    assert lines[..|lines|] == lines && front[..|front|] == front;
    LinesValueSnoc(front, l);
    forall i | 0 <= i <= |front|
      ensures lines[..i] == front[..i]
    {
    }
    if RunningTotalsCarry(shipping, lines) {
      forall i | 0 <= i <= |front|
        ensures Carries(Value(shipping) + LinesValue(front[..i]))
      {
        assert Carries(Value(shipping) + LinesValue(lines[..i]));
      }
      assert Carries(Value(shipping) + LinesValue(lines[..|lines|]));
    }
  }

  lemma AtLeastOnce(n: nat, v: nat)
    requires n >= 1
    ensures v <= n * v
  {
  }

  lemma OneCopyAtLeast(l: Line)
    ensures MultiplySlow(l.cost, Copies(l)) == MultiplySlow(l.cost, Charged(l))
  {
  }

  /** What repeated addition makes of one line. */
  lemma LinePrice(currency: string, l: Line)
    requires NonNegative(l.cost) && l.cost.currencyCode == currency
    requires LineValue(l) < TWO_63 * NANOS_MOD
    ensures 0 <= Value(l.cost) <= LineValue(l)
    ensures MultipliesExactly(Value(l.cost), Charged(l)) ==>
              MultiplySlow(l.cost, Copies(l)) == Success(Canonical(currency, LineValue(l)))
    ensures !MultipliesExactly(Value(l.cost), Charged(l)) ==>
              MultiplySlow(l.cost, Copies(l)).Failure? || !IsValid(MultiplySlow(l.cost, Copies(l)).value)
  {
    hide MultiplySlow, IsValid, MultipliesExactly, Value, Canonical, NonNegative, Charged;
    CanonicalIsUnique(l.cost);
    var v := Value(l.cost);
    OneCopyAtLeast(l);
    AtLeastOnce(Charged(l), v);
    MultiplySlowDomain(currency, v, Charged(l));
  }

  /** One line added to a canonical running total. */
  lemma OneMoreLine(currency: string, t: nat, l: Line)
    requires NonNegative(l.cost) && l.cost.currencyCode == currency
    requires t + LineValue(l) < TWO_63 * NANOS_MOD
    ensures LineValue(l) >= 0 && Value(l.cost) >= 0
    ensures var price := MultiplySlow(l.cost, Copies(l));
            if MultipliesExactly(Value(l.cost), Charged(l)) then
              && price.Success?
              && var s := Sum(Canonical(currency, t), price.value);
                 if Carries(t + LineValue(l)) then s == Success(Canonical(currency, t + LineValue(l)))
                 else s.Success? && !IsValid(s.value)
            else price.Failure? || Sum(Canonical(currency, t), price.value).Failure?
  {
    hide Sum, MultiplySlow, IsValid, MultipliesExactly, LineValue, Canonical;
    LinePrice(currency, l);
    SumNeedsValid(Canonical(currency, t), MultiplySlow(l.cost, Copies(l)));
    SumOfNonNegatives(currency, t, LineValue(l));
  }

  /** With at least a unit of shipping the running totals always carry, so only the lines
      matter: the total is exact if every line multiplies exactly, and the request panics if
      one does not. */
  lemma TotalWithShipping(currency: string, shipping: Money, lines: seq<Line>)
    requires WellFormed(currency, shipping, lines) && shipping.units >= 1
    requires Value(shipping) + LinesValue(lines) < TWO_63 * NANOS_MOD
    ensures 0 <= Value(shipping) + LinesValue(lines)
    ensures Total(currency, shipping, lines)
         == if LinesMultiply(lines) then Success(Canonical(currency, Value(shipping) + LinesValue(lines))) else Failure
  {
    TotalDomain(currency, shipping, lines);
    forall i | 0 <= i <= |lines|
      ensures Value(shipping) + LinesValue(lines[..i]) >= NANOS_MOD
    {
      LinesAreNonNegative(currency, shipping, lines, i);
    }
    if !LinesMultiply(lines) {
      BadLinePanics(currency, shipping, lines);
    }
  }

  lemma {:induction false} BadLinePanics(currency: string, shipping: Money, lines: seq<Line>)
    requires WellFormed(currency, shipping, lines) && shipping.units >= 1 && !LinesMultiply(lines)
    requires Value(shipping) + LinesValue(lines) < TWO_63 * NANOS_MOD
    ensures Total(currency, shipping, lines).Failure?
  {
    var front, l := lines[..|lines| - 1], lines[|lines| - 1];
    assert lines == front + [l] && l in lines;
    LinesAreNonNegative(currency, shipping, lines, |front|);
    if LinesMultiply(front) {
      OneMoreLine(currency, Value(shipping) + LinesValue(front), l);
      TotalWithShippingOnly(currency, shipping, front);
    } else {
      BadLinePanics(currency, shipping, front);
    }
  }

  lemma TotalWithShippingOnly(currency: string, shipping: Money, lines: seq<Line>)
    requires WellFormed(currency, shipping, lines) && shipping.units >= 1 && LinesMultiply(lines)
    requires Value(shipping) + LinesValue(lines) < TWO_63 * NANOS_MOD
    ensures 0 <= Value(shipping) + LinesValue(lines)
    ensures Total(currency, shipping, lines)
         == Success(Canonical(currency, Value(shipping) + LinesValue(lines)))
  {
    TotalDomain(currency, shipping, lines);
    forall i | 0 <= i <= |lines|
      ensures Value(shipping) + LinesValue(lines[..i]) >= NANOS_MOD
    {
      LinesAreNonNegative(currency, shipping, lines, i);
    }
  }

  // ---------- The discount ----------

  /** `applyPromoDiscount`, in wrapping int64 arithmetic that rounds toward zero. */
  function ApplyPromoDiscount(m: Money, discountPct: int64): Money {
    if discountPct <= 0 then m
    else if discountPct >= 100 then Money(m.currencyCode, 0, 0)
    else
      var totalNanos := Wrap64(Wrap64(m.units * NANOS_MOD) + m.nanos);
      var kept := TruncDiv(Wrap64(totalNanos * (100 - discountPct)), 100);
      Money(m.currencyCode, Wrap64(TruncDiv(kept, NANOS_MOD)), Wrap32(TruncMod(kept, NANOS_MOD)))
  }

  /** The percentage a discount takes off: none below zero, all of it above a hundred. */
  function TakenOff(d: int): (p: int)
    ensures 0 <= p <= 100 && (0 <= d <= 100 ==> p == d)
  {
    if d <= 0 then 0 else if d >= 100 then 100 else d
  }

  /** The product the discount computes stays within 64 bits; nothing or everything off needs
      none. */
  predicate InRange(m: Money, d: int) {
    0 < d < 100 ==> -TWO_63 <= Value(m) * (100 - d) < TWO_63
  }

  /** Without overflow any discount keeps what is left of the percentage of the amount to the
      nano, rounded toward zero, and the result is a valid amount; negative amounts included. */
  lemma DiscountIsExact(m: Money, d: int64)
    requires IsValid(m) && InRange(m, d)
    ensures var r := ApplyPromoDiscount(m, d);
            && IsValid(r) && r.currencyCode == m.currencyCode
            && Value(r) == TruncDiv(Value(m) * (100 - TakenOff(d)), 100)
  {
    if 0 < d < 100 {
      PartialDiscountIsExact(m, d);
    } else if d >= 100 {
      assert Value(m) * (100 - TakenOff(d)) == 0;
    }
  }

  lemma PartialDiscountIsExact(m: Money, d: int64)
    requires IsValid(m) && 0 < d < 100
    requires -TWO_63 <= Value(m) * (100 - d) < TWO_63
    ensures var r := ApplyPromoDiscount(m, d);
            && IsValid(r) && r.currencyCode == m.currencyCode
            && Value(r) == TruncDiv(Value(m) * (100 - d), 100)
  {
    var p := 100 - d;
    var x := Value(m) * p;
    assert -TWO_63 <= Value(m) < TWO_63 by {
      ScaledBound(Value(m), p);
    }
    assert Wrap64(m.units * NANOS_MOD) == m.units * NANOS_MOD
        || Wrap64(Wrap64(m.units * NANOS_MOD) + m.nanos) == Value(m);
    assert Wrap64(x) == x;
    var kept := TruncDiv(x, 100);
    SplitNanos(kept);
  }

  lemma ScaledBound(v: int, p: int)
    requires p >= 1 && -TWO_63 <= v * p < TWO_63
    ensures -TWO_63 <= v < TWO_63
  {
  }

  lemma SplitNanos(kept: int)
    requires -TWO_63 < kept < TWO_63
    ensures Wrap64(TruncDiv(kept, NANOS_MOD)) == TruncDiv(kept, NANOS_MOD)
    ensures Wrap32(TruncMod(kept, NANOS_MOD)) == TruncMod(kept, NANOS_MOD)
    ensures kept >= 0 ==> TruncDiv(kept, NANOS_MOD) >= 0
    ensures kept <= 0 ==> TruncDiv(kept, NANOS_MOD) <= 0
  {
  }

  /** A larger amount never gives a smaller result, whatever the signs and the discount. */
  lemma DiscountGrowsWithAmount(m: Money, m': Money, d: int64)
    requires IsValid(m) && IsValid(m') && Value(m) <= Value(m') && InRange(m, d) && InRange(m', d)
    ensures Value(ApplyPromoDiscount(m, d)) <= Value(ApplyPromoDiscount(m', d))
  {
    hide ApplyPromoDiscount, IsValid, Value, TruncDiv, InRange;
    var p := 100 - TakenOff(d);
    Grows(Value(m), Value(m'), p);
    DiscountIsExact(m, d);
    DiscountIsExact(m', d);
    TruncDivGrows(Value(m) * p, Value(m') * p);
  }

  lemma Grows(a: int, b: int, p: nat)
    requires a <= b
    ensures a * p <= b * p
  {
  }

  lemma TruncDivGrows(x: int, y: int)
    requires x <= y
    ensures TruncDiv(x, 100) <= TruncDiv(y, 100)
  {
  }

  /** A larger discount moves the result toward zero, from either side: from the amount itself
      at zero percent to nothing at a hundred. */
  lemma DiscountShrinks(m: Money, d: int64, d': int64)
    requires IsValid(m) && d' <= d && InRange(m, d) && InRange(m, d')
    ensures var r, r' := Value(ApplyPromoDiscount(m, d)), Value(ApplyPromoDiscount(m, d'));
            && (if Value(m) >= 0 then 0 <= r <= r' <= Value(m) else Value(m) <= r' <= r <= 0)
            && (d' <= 0 ==> r' == Value(m)) && (d >= 100 ==> r == 0)
  {
    hide ApplyPromoDiscount, IsValid, InRange, Value;
    var v, p, q := Value(m), 100 - TakenOff(d), 100 - TakenOff(d');
    Shrinks(v, p, q);
    Shrinks(v, q, 100);
    DiscountIsExact(m, d);
    DiscountIsExact(m, d');
    if v >= 0 {
      TruncDivGrows(0, v * p);
      TruncDivGrows(v * p, v * q);
      TruncDivGrows(v * q, v * 100);
    } else {
      TruncDivGrows(v * 100, v * q);
      TruncDivGrows(v * q, v * p);
      TruncDivGrows(v * p, 0);
    }
  }

  lemma Shrinks(v: int, p: nat, q: nat)
    requires p <= q
    ensures if v >= 0 then 0 <= v * p <= v * q else v * q <= v * p <= 0
  {
  }

  /** For amounts that are not negative: rounded down, larger for a larger amount, smaller for
      a larger discount. */
  lemma DiscountIsMonotone(m: Money, m': Money, d: int64, d': int64)
    requires NonNegative(m) && NonNegative(m') && Value(m) <= Value(m')
    requires 0 < d' <= d < 100 && Value(m') * (100 - d') < TWO_63
    ensures Value(m) * (100 - d) >= 0
    ensures Value(ApplyPromoDiscount(m, d)) == Value(m) * (100 - d) / 100
    ensures Value(ApplyPromoDiscount(m, d)) <= Value(ApplyPromoDiscount(m', d'))
  {
    CanonicalIsUnique(m);
    CanonicalIsUnique(m');
    Products(Value(m), Value(m'), 100 - d, 100 - d');
    DiscountIsExact(m, d);
    DiscountIsExact(m', d');
  }

  lemma Products(a: nat, b: nat, p: nat, q: nat)
    requires a <= b && p <= q
    ensures 0 <= a * p <= b * q
  {
  }

  /** The product the discount computes stays within 64 bits. */
  predicate Fits(v: int, d: int64) {
    v * (100 - d) < TWO_63
  }

  function ValueOfAll(ms: seq<Money>): int {
    if ms == [] then 0 else ValueOfAll(ms[..|ms| - 1]) + Value(ms[|ms| - 1])
  }

  function KeptOfAll(ms: seq<Money>, d: int64): int {
    if ms == [] then 0 else KeptOfAll(ms[..|ms| - 1], d) + Value(ApplyPromoDiscount(ms[|ms| - 1], d))
  }

  /** Discounting the sum of n amounts gives at least the sum of the n discounted amounts and
      less than n nanos more. */
  lemma {:induction false} DiscountOfSum(ms: seq<Money>, currency: string, d: int64)
    requires 0 < d < 100 && forall m | m in ms :: NonNegative(m)
    requires Fits(ValueOfAll(ms), d)
    ensures 0 <= ValueOfAll(ms) < TWO_63
    ensures var whole := Value(ApplyPromoDiscount(Canonical(currency, ValueOfAll(ms)), d));
            && KeptOfAll(ms, d) <= whole
            && (if ms == [] then whole == 0 else whole < KeptOfAll(ms, d) + |ms|)
  {
    ValuesAreNonNegative(ms);
    KeptOfSum(ms, d);
    KeptOfValue(currency, ValueOfAll(ms), d);
  }

  lemma {:induction false} KeptOfSum(ms: seq<Money>, d: int64)
    requires 0 < d < 100 && forall m | m in ms :: NonNegative(m)
    requires Fits(ValueOfAll(ms), d)
    ensures 0 <= ValueOfAll(ms) < TWO_63
    ensures KeptOfAll(ms, d) <= Kept(ValueOfAll(ms), d) <= KeptOfAll(ms, d) + if ms == [] then 0 else |ms| - 1
  {
    hide NonNegative, Kept, Value, Fits, ValueOfAll, KeptOfAll;
    if ms == [] {
      NothingOfAll(d);
    } else {
      var front, m := ms[..|ms| - 1], ms[|ms| - 1];
      assert ms == front + [m] && m in ms;
      OneMoreAmount(front, m, d);
      KeptOfSum(front, d);
      if front == [] {
        NothingOfAll(d);
      }
    }
  }

  lemma NothingOfAll(d: int64)
    ensures ValueOfAll([]) == 0 == KeptOfAll([], d) == Kept(0, d)
  {
  }

  lemma OneMoreAmount(front: seq<Money>, m: Money, d: int64)
    requires 0 < d < 100 && NonNegative(m) && forall m | m in front :: NonNegative(m)
    requires Fits(ValueOfAll(front + [m]), d)
    ensures 0 <= ValueOfAll(front) && 0 <= ValueOfAll(front + [m]) < TWO_63 && Fits(ValueOfAll(front), d)
    ensures var more := KeptOfAll(front + [m], d) - KeptOfAll(front, d);
            && Kept(ValueOfAll(front), d) + more <= Kept(ValueOfAll(front + [m]), d)
                 <= Kept(ValueOfAll(front), d) + more + if front == [] then 0 else 1
  {
    hide ApplyPromoDiscount, Canonical, NonNegative, Kept, Value, Fits;
    assert (front + [m])[..|front|] == front;
    ValuesAreNonNegative(front);
    CanonicalIsUnique(m);
    KeptAdds(ValueOfAll(front), Value(m), d);
    KeptOfValue(m.currencyCode, Value(m), d);
    if front == [] {
      NothingKept(d);
    }
  }

  /** What is left of `v` nanos. */
  function Kept(v: nat, d: int64): int {
    v * (100 - d) / 100
  }

  lemma NothingKept(d: int64)
    ensures Kept(0, d) == 0 && Fits(0, d)
  {
  }

  /** Splitting an amount loses at most one nano, and both parts are within range. */
  lemma KeptAdds(a: nat, b: nat, d: int64)
    requires 0 < d < 100 && Fits(a + b, d)
    ensures a + b < TWO_63 && Fits(a, d) && Fits(b, d)
    ensures Kept(a, d) + Kept(b, d) <= Kept(a + b, d) <= Kept(a, d) + Kept(b, d) + 1
  {
    var p := 100 - d;
    Distributes(a, b, p);
    ScaledBound(a + b, p);
    FloorsAdd(a * p, b * p);
  }

  lemma Distributes(a: nat, b: nat, p: nat)
    ensures (a + b) * p == a * p + b * p && a * p >= 0 && b * p >= 0
  {
  }

  lemma KeptOfValue(currency: string, v: nat, d: int64)
    requires 0 < d < 100 && v < TWO_63 && Fits(v, d)
    ensures Value(ApplyPromoDiscount(Canonical(currency, v), d)) == Kept(v, d)
  {
    var m := Canonical(currency, v);
    assert Value(m) == v;
    DiscountIsMonotone(m, m, d, d);
  }

  lemma {:induction false} ValuesAreNonNegative(ms: seq<Money>)
    requires forall m | m in ms :: NonNegative(m)
    ensures ValueOfAll(ms) >= 0
  {
    if ms != [] {
      ValuesAreNonNegative(ms[..|ms| - 1]);
      assert ms[|ms| - 1] in ms;
      CanonicalIsUnique(ms[|ms| - 1]);
    }
  }

  lemma FloorsAdd(x: int, y: int)
    ensures x / 100 + y / 100 <= (x + y) / 100 <= x / 100 + y / 100 + 1
  {
  }
}
