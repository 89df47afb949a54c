/** How a payment that is going to fail spreads its time over the attempts. A random draw is
    an arbitrary real number from 0 up to but not including 1. */
module PaymentTiming {

  type Draw = r: real | 0.0 <= r < 1.0 witness 0.0

  datatype Slot = Slot(apiDelay: int, backoff: int)

  const TOTAL_MIN_MS := 4000
  const TOTAL_MAX_MS := 10000
  const THREE_ATTEMPTS_MIN_MS := 4000
  const THREE_ATTEMPTS_MAX_MS := 7300

  function Time(s: Slot): int {
    s.apiDelay + s.backoff
  }

  function TotalTime(slots: seq<Slot>): int {
    if slots == [] then 0 else TotalTime(slots[..|slots| - 1]) + Time(slots[|slots| - 1])
  }

  lemma TotalTimeSnoc(slots: seq<Slot>, s: Slot)
    ensures TotalTime(slots + [s]) == TotalTime(slots) + Time(s)
  {
  }

  /** `Math.floor((to - from) * Math.random() + from)`; the bounds may come in either order. */
  function RandomInt(from: int, to: int, r: Draw): (n: int)
    ensures from < to ==> from <= n < to
    ensures to <= from ==> to <= n <= from
  {
    hide Product;
    FloorBetween(Product((to - from) as real, r), from, to);
    (Product((to - from) as real, r) + from as real).Floor
  }

  /** A larger draw never gives a number further from where the range ends. */
  lemma RandomIntFollowsTheDraw(from: int, to: int, r: Draw, r': Draw)
    requires r <= r'
    ensures from <= to ==> RandomInt(from, to, r) <= RandomInt(from, to, r')
    ensures from >= to ==> RandomInt(from, to, r) >= RandomInt(from, to, r')
  {
    var span := (to - from) as real;
    if span >= 0.0 {
      Nonnegative(span, r' - r);
      assert span * (r' - r) == span * r' - span * r;
    } else {
      Nonnegative(-span, r' - r);
      assert -span * (r' - r) == span * r - span * r';
    }
  }

  /** Every number of the range is drawn, from either order of the bounds. */
  lemma RandomIntReaches(from: int, to: int, n: int) returns (r: Draw)
    requires from <= n < to || to <= n <= from
    ensures RandomInt(from, to, r) == n
  {
    if from == to {
      r := 0.0;
    } else {
      var x := if n == to then 0.5 else 0.0;
      r := DrawFor((to - from) as real, (n - from) as real + x);
    }
  }

  lemma DrawFor(span: real, x: real) returns (r: Draw)
    requires 0.0 <= x < span || span < x <= 0.0
    ensures span * r == x
  {
    var q := x / span;
    InUnit(q, span, x);
    r := q;
  }

  lemma InUnit(q: real, span: real, x: real)
    requires 0.0 <= x < span || span < x <= 0.0
    requires q * span == x
    ensures 0.0 <= q < 1.0
  {
    var size, part := if span > 0.0 then span else -span, if span > 0.0 then x else -x;
    assert q * size == part;
    assert (1.0 - q) * size == size - part;
    Factor(q, size);
    Factor(1.0 - q, size);
  }

  lemma Factor(a: real, b: real)
    requires b > 0.0
    ensures a * b >= 0.0 ==> a >= 0.0
    ensures a * b > 0.0 ==> a > 0.0
  {
    if a < 0.0 {
      Negative(a, b);
    }
  }

  lemma Negative(a: real, b: real)
    requires a < 0.0 && b > 0.0
    ensures a * b < 0.0
  {
  }

  function Product(span: real, r: Draw): (x: real)
    ensures span > 0.0 ==> 0.0 <= x < span
    ensures span <= 0.0 ==> span <= x <= 0.0
  {
    Between(span, r);
    span * r
  }

  lemma FloorBetween(x: real, from: int, to: int)
    ensures 0.0 <= x < (to - from) as real ==> from <= (x + from as real).Floor < to
    ensures (to - from) as real <= x <= 0.0 ==> to <= (x + from as real).Floor <= from
  {
    var y := x + from as real;
    assert y.Floor as real <= y < y.Floor as real + 1.0;
  }

  lemma Between(span: real, r: Draw)
    ensures span > 0.0 ==> 0.0 <= span * r < span
    ensures span <= 0.0 ==> span <= span * r <= 0.0
  {
  }

  lemma NoTime()
    ensures TotalTime([]) == 0
  {
  }

  function Min(a: int, b: int): int {
    if a < b then a else b
  }

  /** Neither part is negative, and the gateway's is seven tenths, rounded down. */
  predicate SplitWell(s: Slot) {
    s.apiDelay >= 0 && s.backoff >= 0 && 10 * s.apiDelay <= 7 * Time(s) < 10 * s.apiDelay + 10
  }

  lemma WellSplit(s: Slot)
    requires SplitWell(s)
    ensures s.apiDelay >= 0 && s.backoff >= 0
  {
  }

  /** Seven tenths of a slot go to the gateway, the rest to the wait after it. */
  function Split(time: nat): (s: Slot)
    ensures SplitWell(s) && Time(s) == time
  {
    var apiDelay := (time as real * 0.7).Floor;
    Slot(apiDelay, time - apiDelay)
  }

  /** The controlled plan of version B: every millisecond of the total is in exactly one slot. */
  method PlanFailure(totalDraw: Draw, threeDraw: Draw, portions: seq<Draw>)
    returns (timings: seq<Slot>, totalDurationMs: int)
    requires |portions| == 2
    ensures totalDurationMs == RandomInt(TOTAL_MIN_MS, TOTAL_MAX_MS, totalDraw)
    ensures |timings| == 4 && 4000 <= totalDurationMs < 10000
    ensures forall i | 0 <= i < 4 :: timings[i].apiDelay >= 0 && timings[i].backoff >= 0
    ensures forall i | 0 <= i < 3 :: SplitWell(timings[i])
    ensures TotalTime(timings) == totalDurationMs
    ensures timings[3].backoff == 0
    ensures timings[3].apiDelay >= 500 <==> LeavesHalfASecond(totalDurationMs, threeDraw)
    ensures var three := TotalTime(timings[..3]);
            && three == ThreeAttempts(totalDurationMs, threeDraw) >= 0
            && Time(timings[0]) == Part(three, portions[0]) <= three
            && Time(timings[1]) == Part(three - Time(timings[0]), portions[1])
            && 4 * Time(timings[2]) >= three
            && (InPromisedRange(three) <==> totalDurationMs >= 4500 || threeDraw == 0.0)
            && (totalDurationMs <= 4500 ==> totalDurationMs - 500 <= three <= THREE_ATTEMPTS_MIN_MS)
  {
    hide Part, SplitWell, LeavesHalfASecond, ThreeAttempts, RandomInt, Split, TotalTime;
    totalDurationMs := RandomInt(TOTAL_MIN_MS, TOTAL_MAX_MS, totalDraw);
    var threeAttemptsDuration := ThreeAttempts(totalDurationMs, threeDraw);
    ThreeAttemptsDomain(totalDurationMs, threeDraw);
    FourthAttemptDomain(totalDurationMs, threeDraw);
    var fourthAttemptDuration := totalDurationMs - threeAttemptsDuration;
    ghost var first := Part(threeAttemptsDuration, portions[0]);
    PartBounds(threeAttemptsDuration, portions[0]);
    ghost var second := Part(threeAttemptsDuration - first, portions[1]);
    PartBounds(threeAttemptsDuration - first, portions[1]);
    ghost var times := [first, second, threeAttemptsDuration - first - second];
    NoTime();
    timings := [];
    var remaining := threeAttemptsDuration;
    for i := 0 to 3
      invariant |timings| == i && TotalTime(timings) + remaining == threeAttemptsDuration
      invariant forall j | 0 <= j < i :: SplitWell(timings[j]) && Time(timings[j]) == times[j]
      invariant remaining == if i == 3 then 0 else if i == 0 then threeAttemptsDuration
                             else if i == 1 then threeAttemptsDuration - first else times[2]
    {
      var attemptTime := remaining;
      if i < 2 {
        attemptTime := Part(remaining, portions[i]);
      }
      TotalTimeSnoc(timings, Split(attemptTime));
      timings := timings + [Split(attemptTime)];
      remaining := remaining - attemptTime;
    }
    forall i | 0 <= i < 3
      ensures timings[i].apiDelay >= 0 && timings[i].backoff >= 0
    {
      WellSplit(timings[i]);
    }
    TotalTimeSnoc(timings, Slot(fourthAttemptDuration, 0));
    assert (timings + [Slot(fourthAttemptDuration, 0)])[..3] == timings;
    timings := timings + [Slot(fourthAttemptDuration, 0)];
  }

  /** What the first three attempts get of the total; 500 ms are meant for the fourth. */
  function ThreeAttempts(totalDurationMs: int, r: Draw): int {
    RandomInt(THREE_ATTEMPTS_MIN_MS, Min(THREE_ATTEMPTS_MAX_MS, totalDurationMs - 500), r)
  }

  /** 4 to 7.3 seconds, as the source's comments promise for three attempts. */
  predicate InPromisedRange(three: int) {
    4000 <= three < 7300
  }

  /** The promise holds exactly for totals of 4500 ms and more, or when the draw is zero: below
      that the range drawn from is upside down. */
  lemma ThreeAttemptsDomain(totalDurationMs: int, r: Draw)
    requires TOTAL_MIN_MS <= totalDurationMs < TOTAL_MAX_MS
    ensures InPromisedRange(ThreeAttempts(totalDurationMs, r)) <==> totalDurationMs >= 4500 || r == 0.0
    ensures totalDurationMs <= 4500 ==>
              totalDurationMs - 500 <= ThreeAttempts(totalDurationMs, r) <= THREE_ATTEMPTS_MIN_MS
    ensures 0 <= ThreeAttempts(totalDurationMs, r) <= totalDurationMs
  {
    var span := (Min(THREE_ATTEMPTS_MAX_MS, totalDurationMs - 500) - THREE_ATTEMPTS_MIN_MS) as real;
    if totalDurationMs < 4500 && r > 0.0 {
      NegativeProduct(span, r);
    }
  }

  /** Every duration up to 7.3 seconds that leaves the fourth attempt more than its 500 ms is
      drawn for the first three. */
  lemma ThreeAttemptsReaches(totalDurationMs: int, three: int) returns (r: Draw)
    requires 4000 <= three < 7300 && three < totalDurationMs - 500
    ensures ThreeAttempts(totalDurationMs, r) == three
  {
    hide RandomInt;
    r := RandomIntReaches(THREE_ATTEMPTS_MIN_MS, Min(THREE_ATTEMPTS_MAX_MS, totalDurationMs - 500), three);
  }

  /** The total is large enough, or what is missing to 4500 ms and the draw leave less than one
      millisecond of it to the range that is upside down. */
  predicate LeavesHalfASecond(totalDurationMs: int, r: Draw) {
    totalDurationMs >= 4500 || (4500 - totalDurationMs) as real * (1.0 - r) < 1.0
  }

  /** When the fourth attempt gets the 500 ms meant for it. */
  lemma FourthAttemptDomain(totalDurationMs: int, r: Draw)
    requires TOTAL_MIN_MS <= totalDurationMs < TOTAL_MAX_MS
    ensures totalDurationMs - ThreeAttempts(totalDurationMs, r) >= 500 <==> LeavesHalfASecond(totalDurationMs, r)
  {
    if totalDurationMs < 4500 {
      var missing := 4500 - totalDurationMs;
      assert totalDurationMs - 500 - THREE_ATTEMPTS_MIN_MS == -missing;
      var x := (-missing) as real * r;
      assert missing as real * (1.0 - r) == missing as real + x;
      assert ThreeAttempts(totalDurationMs, r) == (x + THREE_ATTEMPTS_MIN_MS as real).Floor;
    }
  }

  lemma NegativeProduct(x: real, r: real)
    requires x < 0.0 && r > 0.0
    ensures x * r < 0.0
  {
  }

  /** A total of 4200 ms and a middling draw: three attempts take 3850 ms. */
  lemma ThreeAttemptsCanBeTooShort()
    ensures ThreeAttempts(4200, 0.5) == 3850 && !InPromisedRange(3850)
  {
  }

  function Portion(n: nat, portion: real): real {
    n as real * portion
  }

  /** A random 20 to 50 percent of what is left. */
  function Part(n: nat, r: Draw): int {
    Portion(n, 0.2 + r * (0.5 - 0.2)).Floor
  }

  lemma PartBounds(n: nat, r: Draw)
    ensures 0 <= 2 * Part(n, r) <= n < 5 * Part(n, r) + 5
  {
    hide Portion;
    var portion := 0.2 + r * (0.5 - 0.2);
    AtMostHalf(n, portion);
    AtLeastAFifth(n, portion);
  }

  lemma AtLeastAFifth(n: nat, portion: real)
    requires portion >= 0.2
    ensures n < 5 * Portion(n, portion).Floor + 5
  {
    Nonnegative(n as real, portion - 0.2);
    assert Portion(n, portion) == n as real * 0.2 + n as real * (portion - 0.2);
  }

  /** Every whole number of milliseconds from 20 to below 50 percent is some draw's part. */
  lemma PartReaches(n: nat, x: nat) returns (r: Draw)
    requires n <= 5 * x && 2 * x < n
    ensures Part(n, r) == x
  {
    var share := x as real / n as real;
    assert share * n as real == x as real;
    ShareBetween(x, n, share);
    r := (share - 0.2) / 0.3;
    assert 0.2 + r * (0.5 - 0.2) == share;
  }

  lemma ShareBetween(x: nat, n: nat, share: real)
    requires n <= 5 * x && 2 * x < n && share * n as real == x as real
    ensures 0.2 <= share < 0.5
  {
    Scales(share, 0.2, n as real);
    Scales(0.5, share, n as real);
  }

  lemma Scales(a: real, b: real, n: real)
    requires n > 0.0
    ensures a < b ==> a * n < b * n
    ensures a <= b ==> a * n <= b * n
  {
  }

  lemma AtMostHalf(n: nat, portion: real)
    requires 0.0 <= portion <= 0.5
    ensures 0 <= 2 * Portion(n, portion).Floor <= n
  {
    hide Portion;
    PortionIsAtMostHalf(n, portion);
    FloorOfHalf(n, Portion(n, portion));
  }

  lemma FloorOfHalf(n: nat, y: real)
    requires 0.0 <= y && y + y <= n as real
    ensures 0 <= 2 * y.Floor <= n
  {
  }

  lemma PortionIsAtMostHalf(n: nat, portion: real)
    requires 0.0 <= portion <= 0.5
    ensures 0.0 <= Portion(n, portion) && Portion(n, portion) + Portion(n, portion) <= n as real
  {
    Nonnegative(n as real, portion);
    Nonnegative(n as real, 0.5 - portion);
  }

  lemma Nonnegative(x: real, y: real)
    requires x >= 0.0 && y >= 0.0
    ensures x * y >= 0.0
  {
  }

  // ---------- The geometric fallback ----------

  /** `Math.pow(1.5, i)` */
  function Weight(i: nat): (w: real)
    ensures w >= 1.0
  {
    if i == 0 then 1.0 else 1.5 * Weight(i - 1)
  }

  function TotalWeight(n: nat): (w: real)
    ensures w >= n as real
  {
    if n == 0 then 0.0 else TotalWeight(n - 1) + Weight(n - 1)
  }

  /** The exact part of the time that attempt `i` of `n` is due. */
  function Share(i: nat, n: nat, totalDurationMs: nat): (s: real)
    requires n >= 1
    ensures s >= 0.0
  {
    ShareIsNonNegative(Weight(i), TotalWeight(n), totalDurationMs as real);
    Weight(i) / TotalWeight(n) * totalDurationMs as real
  }

  lemma ShareIsNonNegative(w: real, total: real, t: real)
    requires w > 0.0 && total > 0.0 && t >= 0.0
    ensures w / total * t >= 0.0
  {
  }

  lemma SharesGrow(i: nat, n: nat, t: nat)
    requires n >= 1
    ensures Share(i, n, t) <= Share(i + 1, n, t)
  {
  }

  /** The shares grow by half from attempt to attempt, and together are the whole time. */
  lemma SharesAreGeometric(i: nat, n: nat, t: nat)
    requires n >= 1
    ensures Share(i + 1, n, t) == 1.5 * Share(i, n, t)
    ensures ShareSum(n, n, t) == t as real
  {
    hide Share, ShareSum, Left;
    ShareGrows(i, n, t);
    SharesAddUp(n, n, t);
    NothingLeft(n, t);
  }

  lemma ShareGrows(i: nat, n: nat, t: nat)
    requires n >= 1
    ensures Share(i + 1, n, t) == 1.5 * Share(i, n, t)
  {
    assert Weight(i + 1) == 1.5 * Weight(i);
    QuotientScales(Weight(i), TotalWeight(n), t as real);
  }

  lemma QuotientScales(w: real, total: real, t: real)
    requires total > 0.0
    ensures 1.5 * w / total * t == 1.5 * (w / total * t)
  {
    assert 1.5 * w / total == 1.5 * (w / total);
  }

  function ShareSum(k: nat, n: nat, t: nat): real
    requires n >= 1
  {
    if k == 0 then 0.0 else ShareSum(k - 1, n, t) + Share(k - 1, n, t)
  }

  lemma {:induction false} SharesAddUp(k: nat, n: nat, t: nat)
    requires n >= 1
    ensures ShareSum(k, n, t) + Left(k, n, t) == t as real
  {
    hide Share, Left;
    if k == 0 {
      LeftStep(0, n, t);
    } else {
      SharesAddUp(k - 1, n, t);
      LeftStep(k - 1, n, t);
    }
  }

  /** What is left after the first `i` shares, before any rounding. */
  function Left(i: nat, n: nat, t: nat): real
    requires n >= 1
  {
    (TotalWeight(n) - TotalWeight(i)) / TotalWeight(n) * t as real
  }

  lemma LeftStep(i: nat, n: nat, t: nat)
    requires n >= 1
    ensures Left(i, n, t) - Share(i, n, t) == Left(i + 1, n, t)
    ensures Left(0, n, t) == t as real
  {
  }

  /** For every number of attempts the rounded slots and the remainder add up to the total, no
      slot is shorter than the one before, and the last gets at least its own share. */
  method PlanFallback(totalAttempts: nat, baseTarget: nat, totalDraw: Draw)
    returns (timings: seq<Slot>, totalDurationMs: nat)
    ensures totalDurationMs == RandomInt(baseTarget, baseTarget + 1000, totalDraw)
    ensures baseTarget <= totalDurationMs < baseTarget + 1000
    ensures |timings| == totalAttempts
    ensures forall i | 0 <= i < |timings| :: timings[i].apiDelay >= 0 && timings[i].backoff >= 0
    ensures forall i | 0 <= i < totalAttempts - 1 ::
              SplitWell(timings[i]) && Time(timings[i]) == Share(i, totalAttempts, totalDurationMs).Floor
    ensures forall i | 0 <= i < |timings| - 1 :: Time(timings[i]) <= Time(timings[i + 1])
    ensures totalAttempts >= 1 ==>
              && TotalTime(timings) == totalDurationMs
              && timings[totalAttempts - 1].backoff == 0
              && timings[totalAttempts - 1].apiDelay as real >= Share(totalAttempts - 1, totalAttempts, totalDurationMs)
  {
    hide Share, Left, TotalTime, RandomInt, Split;
    totalDurationMs := RandomInt(baseTarget, baseTarget + 1000, totalDraw);
    timings := [];
    NoTime();
    var remaining: int := totalDurationMs;
    if totalAttempts == 0 {
      return;
    }
    var last := totalAttempts - 1;
    LeftStep(0, totalAttempts, totalDurationMs);
    LastShare(totalAttempts, totalDurationMs);
    for i := 0 to totalAttempts
      invariant |timings| == i && TotalTime(timings) + remaining == totalDurationMs
      invariant i <= last ==> remaining as real >= Left(i, totalAttempts, totalDurationMs)
      invariant forall j | 0 <= j < i && j < last ::
        SplitWell(timings[j]) && Time(timings[j]) == Share(j, totalAttempts, totalDurationMs).Floor
      invariant i > last ==>
        remaining == 0 && timings[last].backoff == 0
        && timings[last].apiDelay as real >= Share(last, totalAttempts, totalDurationMs)
    {
      var isLastAttempt := i == last;
      var attemptTime := if isLastAttempt then remaining else Share(i, totalAttempts, totalDurationMs).Floor;
      var slot := if isLastAttempt then Slot(attemptTime, 0) else Split(attemptTime);
      LeftStep(i, totalAttempts, totalDurationMs);
      TotalTimeSnoc(timings, slot);
      timings := timings + [slot];
      remaining := remaining - attemptTime;
    }
    FloorsGrow(totalAttempts, totalDurationMs);
  }

  lemma LastShare(n: nat, t: nat)
    requires n >= 1
    ensures Left(n - 1, n, t) == Share(n - 1, n, t)
  {
    LeftStep(n - 1, n, t);
    NothingLeft(n, t);
  }

  lemma FloorsGrow(n: nat, t: nat)
    requires n >= 1
    ensures forall i: nat :: Share(i, n, t).Floor <= Share(i + 1, n, t).Floor
  {
    hide Share;
    forall i: nat
      ensures Share(i, n, t).Floor <= Share(i + 1, n, t).Floor
    {
      SharesGrow(i, n, t);
    }
  }

  lemma NothingLeft(n: nat, t: nat)
    requires n >= 1
    ensures Left(n, n, t) == 0.0
  {
  }
}
