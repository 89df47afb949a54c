/** Which orders come out right: whatever the quantities, the shipping and the order of the cart. */
module CheckoutOrders {
  import opened Wrappers
  import opened MachineInts
  import opened CheckoutMoney
  import opened Checkout

  /** No panic, and a valid total of what shipping and lines are charged. */
  predicate ComesOut(currency: string, shipping: Money, lines: seq<Line>) {
    TotalIs(currency, shipping, lines, Value(shipping) + LinesValue(lines))
  }

  predicate TotalIs(currency: string, shipping: Money, lines: seq<Line>, v: int) {
    var r := Total(currency, shipping, lines);
    r.Success? && IsValid(r.value) && Value(r.value) == v
  }

  lemma ComesOutExactly(currency: string, shipping: Money, lines: seq<Line>)
    requires WellFormed(currency, shipping, lines)
    requires Value(shipping) + LinesValue(lines) < TWO_63 * NANOS_MOD
    ensures ComesOut(currency, shipping, lines) <==> LinesMultiply(lines) && RunningTotalsCarry(shipping, lines)
    ensures ComesOut(currency, shipping, lines) <==>
              Total(currency, shipping, lines).Success? && IsValid(Total(currency, shipping, lines).value)
  {
    hide Total, LinesValue, MultipliesExactly, Canonical, IsValid, NonNegative, Value;
    hide RunningTotalsCarry, LinesMultiply;
    TotalDomain(currency, shipping, lines);
    CanonicalIsExact(currency, Value(shipping) + LinesValue(lines));
  }

  // ---------- One currency ----------

  lemma {:induction false} ProductKeepsCurrency(m: Money, n: nat)
    ensures MultiplySlow(m, n).Success? ==> MultiplySlow(m, n).value.currencyCode == m.currencyCode
    ensures MultiplySlow(m, n).Success? && IsValid(MultiplySlow(m, n).value) ==> IsValid(m)
  {
    if n > 1 {
      hide IsValid;
      ProductKeepsCurrency(m, n - 1);
      if MultiplySlow(m, n - 1).Success? {
        SumSucceeds(MultiplySlow(m, n - 1).value, m);
      }
    }
  }

  /** A total that does not panic was made of valid amounts, all in the user's currency. */
  lemma {:induction false} TotalHasOneCurrency(currency: string, shipping: Money, lines: seq<Line>)
    requires Total(currency, shipping, lines).Success?
    ensures Total(currency, shipping, lines).value.currencyCode == currency
    ensures shipping.currencyCode == currency && IsValid(shipping)
    ensures forall l | l in lines :: l.cost.currencyCode == currency && IsValid(l.cost)
  {
    hide Sum, MultiplySlow, IsValid;
    if lines == [] {
      SumSucceeds(Money(currency, 0, 0), shipping);
    } else {
      var front, l := lines[..|lines| - 1], lines[|lines| - 1];
      assert lines == front + [l];
      TotalHasOneCurrency(currency, shipping, front);
      ProductKeepsCurrency(l.cost, Copies(l));
      SumSucceeds(Total(currency, shipping, front).value, MultiplySlow(l.cost, Copies(l)).value);
    }
  }

  // ---------- Quantity times price ----------

  /** What the customer should pay for a line. */
  function LineDue(l: Line): int {
    l.quantity * Value(l.cost)
  }

  function LinesDue(lines: seq<Line>): int {
    if lines == [] then 0 else LinesDue(lines[..|lines| - 1]) + LineDue(lines[|lines| - 1])
  }

  /** At least one of it, or it is free. */
  predicate ChargedAsDue(l: Line) {
    l.quantity >= 1 || Value(l.cost) == 0
  }

  lemma LineOvercharge(l: Line)
    requires NonNegative(l.cost)
    ensures LineDue(l) <= LineValue(l)
    ensures LineDue(l) == LineValue(l) <==> ChargedAsDue(l)
  {
    CanonicalIsUnique(l.cost);
    hide NonNegative, Value;
    Overcharged(Charged(l), l.quantity, Value(l.cost));
  }

  lemma Overcharged(n: int, q: int, v: nat)
    requires q <= n
    ensures q * v <= n * v && (q * v == n * v <==> q == n || v == 0)
  {
    assert n * v - q * v == (n - q) * v;
  }

  lemma {:induction false} Overcharge(lines: seq<Line>)
    requires forall l | l in lines :: NonNegative(l.cost)
    ensures LinesDue(lines) <= LinesValue(lines)
    ensures LinesDue(lines) == LinesValue(lines) <==> forall l | l in lines :: ChargedAsDue(l)
  {
    hide NonNegative, LineDue, LineValue, ChargedAsDue;
    if lines != [] {
      var front, l := lines[..|lines| - 1], lines[|lines| - 1];
      assert lines == front + [l] && l in lines;
      Overcharge(front);
      LineOvercharge(l);
    }
  }

  /** For every quantity an int32 holds: the total is shipping plus quantity times price if and
      only if it comes out at all and every line with a price has at least one item. */
  lemma TotalIsQuantityTimesPrice(currency: string, shipping: Money, lines: seq<Line>)
    requires WellFormed(currency, shipping, lines)
    requires Value(shipping) + LinesValue(lines) < TWO_63 * NANOS_MOD
    ensures TotalIs(currency, shipping, lines, Value(shipping) + LinesDue(lines)) <==>
              && LinesMultiply(lines) && RunningTotalsCarry(shipping, lines)
              && forall l | l in lines :: ChargedAsDue(l)
  {
    hide Total, LinesValue, LinesDue, IsValid, NonNegative, RunningTotalsCarry, LinesMultiply, ChargedAsDue;
    ComesOutExactly(currency, shipping, lines);
    Overcharge(lines);
  }

  /** A line of quantity zero is charged once: 4.99 of shipping and none at 1.00 come to 5.99. */
  lemma ZeroQuantityIsCharged(c: string)
    ensures Total(c, Money(c, 4, 990_000_000), [Line(0, Money(c, 1, 0))])
         == Success(Money(c, 5, 990_000_000))
  {
    hide Total;
    var l := Line(0, Money(c, 1, 0));
    assert Charged(l) == 1;
    OneLine(c, Money(c, 4, 990_000_000), l);
  }

  /** A line of quantity -1 is charged 2^32 - 1 times. */
  lemma NegativeQuantityIsCharged(c: string)
    ensures Total(c, Money(c, 1, 0), [Line(-1, Money(c, 1, 0))])
         == Success(Money(c, 0x1_0000_0000, 0))
  {
    hide Total;
    var l := Line(-1, Money(c, 1, 0));
    assert Charged(l) == 0xFFFF_FFFF;
    OneLine(c, Money(c, 1, 0), l);
  }

  lemma OneLine(c: string, shipping: Money, l: Line)
    requires shipping.currencyCode == l.cost.currencyCode == c
    requires NonNegative(shipping) && NonNegative(l.cost) && shipping.units >= 1 && l.cost.units >= 1
    requires Value(shipping) + Charged(l) * Value(l.cost) < TWO_63 * NANOS_MOD
    ensures Value(shipping) + Charged(l) * Value(l.cost) >= 0
    ensures Total(c, shipping, [l]) == Success(Canonical(c, Value(shipping) + Charged(l) * Value(l.cost)))
  {
    hide Total, LinesValue, MultipliesExactly, NonNegative, Value;
    OneLineValue(l);
    WholeUnitMultiplies(l);
    TotalWithShipping(c, shipping, [l]);
  }

  // ---------- Shipping ----------

  lemma {:induction false} CarryingLines(lines: seq<Line>, i: nat)
    requires i <= |lines| && forall l | l in lines :: LineValue(l) >= 0 && Carries(LineValue(l))
    ensures LinesValue(lines[..i]) >= 0 && Carries(LinesValue(lines[..i]))
  {
    hide LineValue;
    if i > 0 {
      CarryingLines(lines, i - 1);
      assert lines[..i][..i - 1] == lines[..i - 1] && lines[i - 1] in lines;
    }
  }

  /** With prices of nothing or at least one unit every order comes out right, if and only if
      shipping is nothing or at least one unit too. */
  lemma WholeUnitPricesNeverPanic(currency: string, shipping: Money, lines: seq<Line>)
    requires WellFormed(currency, shipping, lines)
    requires forall l | l in lines :: Value(l.cost) == 0 || l.cost.units >= 1
    requires Value(shipping) + LinesValue(lines) < TWO_63 * NANOS_MOD
    ensures ComesOut(currency, shipping, lines) <==> Value(shipping) == 0 || shipping.units >= 1
  {
    CanonicalIsUnique(shipping);
    assert Carries(Value(shipping)) <==> Value(shipping) == 0 || shipping.units >= 1;
    hide ComesOut, MultipliesExactly, NonNegative, Value, LineValue, LinesValue, Carries;
    forall l | l in lines
      ensures 0 <= Value(l.cost) && MultipliesExactly(Value(l.cost), Charged(l))
      ensures LineValue(l) >= 0 && Carries(LineValue(l))
    {
      WholeUnitMultiplies(l);
    }
    ComesOutExactly(currency, shipping, lines);
    ShippingCarries(shipping, lines);
  }

  /** Lines that carry keep the running totals where shipping puts them. */
  lemma ShippingCarries(shipping: Money, lines: seq<Line>)
    requires NonNegative(shipping) && forall l | l in lines :: LineValue(l) >= 0 && Carries(LineValue(l))
    ensures RunningTotalsCarry(shipping, lines) <==> Carries(Value(shipping))
  {
    CanonicalIsUnique(shipping);
    hide NonNegative, Value, LineValue;
    assert LinesValue(lines[..0]) == 0;
    forall i | 0 <= i <= |lines|
      ensures Carries(Value(shipping)) ==> Carries(Value(shipping) + LinesValue(lines[..i]))
    {
      CarryingLines(lines, i);
    }
  }

  lemma WholeUnitMultiplies(l: Line)
    requires NonNegative(l.cost) && (Value(l.cost) == 0 || l.cost.units >= 1)
    ensures 0 <= Value(l.cost) && MultipliesExactly(Value(l.cost), Charged(l))
    ensures LineValue(l) >= 0 && Carries(LineValue(l))
  {
    AtLeastOnce(Charged(l), Value(l.cost));
  }

  lemma CanonicalIsExact(currency: string, v: nat)
    requires v < TWO_63 * NANOS_MOD
    ensures Value(Canonical(currency, v)) == v && IsValid(Canonical(currency, v))
  {
  }

  /** Shipping of 0.50 and one item at 2.00: the running total starts below one unit. */
  lemma CheapShippingPanics(c: string)
    ensures Total(c, Money(c, 0, 500_000_000), [Line(1, Money(c, 2, 0))]).Failure?
  {
    var l := Line(1, Money(c, 2, 0));
    assert [l][..0] == [];
    assert Sum(Money(c, 0, 0), Money(c, 0, 500_000_000)) == Success(Money(c, 1, -500_000_000));
  }

  /** Two items at 0.40 after 4.99 of shipping: the first multiplication gives an amount with
      mixed signs and adding it panics. */
  lemma CheapItemsPanic(c: string)
    ensures Total(c, Money(c, 4, 990_000_000), [Line(2, Money(c, 0, 400_000_000))]).Failure?
  {
    var m := Money(c, 0, 400_000_000);
    assert MultiplySlow(m, 1) == Success(m);
    assert MultiplySlow(m, 2) == Success(Money(c, 1, -200_000_000));
  }

  // ---------- The order of the cart ----------

  /** With at least one unit of shipping, any permutation of the cart has the same total to the
      nano, or panics alike. */
  lemma CartOrderDoesNotMatter(currency: string, shipping: Money, lines: seq<Line>, permuted: seq<Line>)
    requires WellFormed(currency, shipping, lines) && shipping.units >= 1
    requires Value(shipping) + LinesValue(lines) < TWO_63 * NANOS_MOD
    requires multiset(lines) == multiset(permuted)
    ensures Total(currency, shipping, permuted) == Total(currency, shipping, lines)
  {
    hide Total, LinesValue, NonNegative, Value, MultipliesExactly, Canonical;
    SameValue(lines, permuted);
    SameLines(lines, permuted);
    TotalWithShipping(currency, shipping, lines);
    TotalWithShipping(currency, shipping, permuted);
  }

  lemma {:induction false} SameValue(a: seq<Line>, b: seq<Line>)
    requires multiset(a) == multiset(b)
    ensures LinesValue(a) == LinesValue(b)
  {
    hide LineValue;
    if a == [] {
      assert b == [];
    } else {
      var front, l := a[..|a| - 1], a[|a| - 1];
      assert a == front + [l] && l in multiset(b);
      var j :| 0 <= j < |b| && b[j] == l;
      WithoutLine(front, l, b, j);
      SameValue(front, b[..j] + b[j + 1..]);
      TakeOut(b, j);
    }
  }

  lemma WithoutLine(front: seq<Line>, l: Line, b: seq<Line>, j: nat)
    requires j < |b| && b[j] == l && multiset(front + [l]) == multiset(b)
    ensures multiset(front) == multiset(b[..j] + b[j + 1..])
  {
    var others := b[..j] + b[j + 1..];
    assert b == b[..j] + [l] + b[j + 1..];
    assert multiset(b) == multiset(others) + multiset{l};
    assert multiset(front) == multiset(front + [l]) - multiset{l};
  }

  lemma {:induction false} TakeOut(b: seq<Line>, j: nat)
    requires j < |b|
    ensures LinesValue(b) == LinesValue(b[..j] + b[j + 1..]) + LineValue(b[j])
  {
    if j == |b| - 1 {
      assert b[..j] + b[j + 1..] == b[..|b| - 1];
    } else {
      var front := b[..|b| - 1];
      TakeOut(front, j);
      var c := b[..j] + b[j + 1..];
      assert c[..|c| - 1] == front[..j] + front[j + 1..];
    }
  }

  lemma SameLines(a: seq<Line>, b: seq<Line>)
    requires multiset(a) == multiset(b)
    ensures forall l :: l in a <==> l in b
  {
    assert forall l :: l in a <==> l in multiset(a);
    assert forall l :: l in b <==> l in multiset(b);
  }

  /** Every order of the cart comes out right if and only if every line multiplies exactly and
      shipping is at least one unit, or shipping is nothing and so, or at least one unit, is
      every line. */
  lemma EveryCartOrderComesOut(currency: string, shipping: Money, lines: seq<Line>)
    requires WellFormed(currency, shipping, lines)
    requires Value(shipping) + LinesValue(lines) < TWO_63 * NANOS_MOD
    ensures (forall p | multiset(p) == multiset(lines) :: ComesOut(currency, shipping, p)) <==>
              && LinesMultiply(lines)
              && (shipping.units >= 1 || (Value(shipping) == 0 && forall l | l in lines :: Carries(LineValue(l))))
  {
    hide ComesOut, LinesMultiply;
    if forall p | multiset(p) == multiset(lines) :: ComesOut(currency, shipping, p) {
      OrdersNeedCarrying(currency, shipping, lines);
    }
    if LinesMultiply(lines) && shipping.units >= 1 {
      forall p | multiset(p) == multiset(lines)
        ensures ComesOut(currency, shipping, p)
      {
        ShippedOrderComesOut(currency, shipping, lines, p);
      }
    }
    if LinesMultiply(lines) && Value(shipping) == 0 && forall l | l in lines :: Carries(LineValue(l)) {
      forall p | multiset(p) == multiset(lines)
        ensures ComesOut(currency, shipping, p)
      {
        CarryingOrderComesOut(currency, shipping, lines, p);
      }
    }
  }

  lemma OrdersNeedCarrying(currency: string, shipping: Money, lines: seq<Line>)
    requires WellFormed(currency, shipping, lines)
    requires Value(shipping) + LinesValue(lines) < TWO_63 * NANOS_MOD
    requires forall p | multiset(p) == multiset(lines) :: ComesOut(currency, shipping, p)
    ensures LinesMultiply(lines)
    ensures shipping.units >= 1 || (Value(shipping) == 0 && forall l | l in lines :: Carries(LineValue(l)))
  {
    ComesOutExactly(currency, shipping, lines);
    NoLines(shipping, lines);
    if shipping.units < 1 {
      CanonicalIsUnique(shipping);
      forall l | l in lines
        ensures Carries(LineValue(l))
      {
        LineFirst(currency, shipping, lines, l);
      }
    }
  }

  lemma NoLines(shipping: Money, lines: seq<Line>)
    requires RunningTotalsCarry(shipping, lines)
    ensures Carries(Value(shipping))
  {
    assert Carries(Value(shipping) + LinesValue(lines[..0]));
  }

  /** Any line may come first in the cart. */
  lemma LineFirst(currency: string, shipping: Money, lines: seq<Line>, l: Line)
    requires WellFormed(currency, shipping, lines) && l in lines && Value(shipping) == 0
    requires Value(shipping) + LinesValue(lines) < TWO_63 * NANOS_MOD
    requires forall p | multiset(p) == multiset(lines) :: ComesOut(currency, shipping, p)
    ensures Carries(LineValue(l))
  {
    hide ComesOut, LineValue, LinesValue, NonNegative, LinesMultiply, Carries, Value;
    var p := MovedToFront(lines, l);
    SameValue(lines, p);
    SameLines(lines, p);
    ComesOutExactly(currency, shipping, p);
    OneLineValue(l);
    assert Carries(Value(shipping) + LinesValue(p[..1]));
  }

  lemma OneLineValue(l: Line)
    ensures LinesValue([l]) == LineValue(l)
  {
    assert [l][..0] == [];
  }

  lemma MovedToFront(lines: seq<Line>, l: Line) returns (p: seq<Line>)
    requires l in lines
    ensures multiset(p) == multiset(lines) && |p| == |lines| > 0 && p[..1] == [l]
  {
    var j :| 0 <= j < |lines| && lines[j] == l;
    p := [l] + (lines[..j] + lines[j + 1..]);
    assert lines == lines[..j] + [l] + lines[j + 1..];
  }

  lemma ShippedOrderComesOut(currency: string, shipping: Money, lines: seq<Line>, p: seq<Line>)
    requires WellFormed(currency, shipping, lines) && LinesMultiply(lines) && shipping.units >= 1
    requires Value(shipping) + LinesValue(lines) < TWO_63 * NANOS_MOD
    requires multiset(p) == multiset(lines)
    ensures ComesOut(currency, shipping, p)
  {
    hide Total, LinesValue, MultipliesExactly, Canonical, IsValid, NonNegative, Value;
    SameValue(lines, p);
    SameLines(lines, p);
    TotalWithShipping(currency, shipping, p);
    CanonicalIsExact(currency, Value(shipping) + LinesValue(p));
  }

  lemma CarryingOrderComesOut(currency: string, shipping: Money, lines: seq<Line>, p: seq<Line>)
    requires WellFormed(currency, shipping, lines) && LinesMultiply(lines) && Value(shipping) == 0
    requires forall l | l in lines :: Carries(LineValue(l))
    requires Value(shipping) + LinesValue(lines) < TWO_63 * NANOS_MOD
    requires multiset(p) == multiset(lines)
    ensures ComesOut(currency, shipping, p)
  {
    hide ComesOut, LinesValue, MultipliesExactly, NonNegative, Value, LineValue;
    SameValue(lines, p);
    SameLines(lines, p);
    ComesOutExactly(currency, shipping, p);
    forall l | l in p
      ensures LineValue(l) >= 0 && Carries(LineValue(l))
    {
      LineIsNonNegative(l);
    }
    ShippingCarries(shipping, p);
  }

  /** Without shipping the order of the cart matters: 1.00 and then 0.40 come to 1.40, and the
      other way around they panic. */
  lemma CartOrderMayMatter(c: string)
    ensures var unit, cheap := Line(1, Money(c, 1, 0)), Line(1, Money(c, 0, 400_000_000));
            && Total(c, Money(c, 0, 0), [unit, cheap]) == Success(Money(c, 1, 400_000_000))
            && Total(c, Money(c, 0, 0), [cheap, unit]).Failure?
  {
    var unit, cheap := Money(c, 1, 0), Money(c, 0, 400_000_000);
    var free := Money(c, 0, 0);
    Sums(c);
    hide Sum;
    TwoLines(c, free, unit, cheap);
    TwoLines(c, free, cheap, unit);
  }

  lemma Sums(c: string)
    ensures var free, unit, cheap := Money(c, 0, 0), Money(c, 1, 0), Money(c, 0, 400_000_000);
            && Sum(free, free) == Success(free) && Sum(free, unit) == Success(unit)
            && Sum(unit, cheap) == Success(Money(c, 1, 400_000_000))
            && Sum(free, cheap) == Success(Money(c, 1, -600_000_000))
            && Sum(Money(c, 1, -600_000_000), unit).Failure?
  {
  }

  lemma TwoLines(c: string, shipping: Money, a: Money, b: Money)
    requires Sum(Money(c, 0, 0), shipping) == Success(shipping) && Sum(shipping, a).Success?
    ensures Total(c, shipping, [Line(1, a), Line(1, b)]) == Sum(Sum(shipping, a).value, b)
  {
    hide Sum;
    var l, k := Line(1, a), Line(1, b);
    assert [l, k][..1] == [l] && [l][..0] == [];
    assert Total(c, shipping, [l]) == Sum(shipping, a);
  }
}
