/** The user derived from a session id: a wrapping string hash seeds a linear congruential
    generator. Every double the source computes here is an integer below 2^53, or such an
    integer divided by 2^32, so the arithmetic is exact. */
module UserAttributes {
  import opened MachineInts

  /** UTF-16 code units. */
  type code = c: int | 0 <= c < 0x1_0000

  // ---------- The hash ----------

  /** One turn: `hash << 5` wraps, the difference and the sum do not, `& hash` wraps again. */
  function HashStep(hash: int32, c: code): int32 {
    Wrap32(Wrap32(hash * 32) - hash + c)
  }

  /** The polynomial the hash is meant to be, without wrapping. */
  function Polynomial(s: seq<code>): int {
    if s == [] then 0 else 31 * Polynomial(s[..|s| - 1]) + s[|s| - 1]
  }

  function Power31(n: nat): (p: nat)
    ensures p >= 1
  {
    if n == 0 then 1 else 31 * Power31(n - 1)
  }

  /** The weights are falling powers of 31, the last code unit having weight one. */
  lemma {:induction false} PolynomialWeights(c: code, s: seq<code>)
    ensures Polynomial([c] + s) == c * Power31(|s|) + Polynomial(s)
  {
    if s == [] {
      assert [c] + s == [c];
      assert [c][..0] == [];
    } else {
      assert ([c] + s)[..|s|] == [c] + s[..|s| - 1];
      PolynomialWeights(c, s[..|s| - 1]);
      assert 31 * (c * Power31(|s| - 1)) == c * Power31(|s|);
    }
  }

  /** `simpleHash` before `Math.abs` is the polynomial wrapped to 32 bits. */
  method SimpleHash(s: seq<code>) returns (r: nat)
    ensures r == Abs(Wrap32(Polynomial(s))) && r <= TWO_31
  {
    hide Wrap32;
    var hash: int32 := Wrap32(0);
    assert s[..0] == [];
    for i := 0 to |s|
      invariant hash == Wrap32(Polynomial(s[..i]))
    {
      assert s[..i + 1][..i] == s[..i];
      StepIsPolynomial(Polynomial(s[..i]), s[i]);
      hash := HashStep(hash, s[i]);
    }
    assert s[..|s|] == s;
    r := Abs(hash);
  }

  function Abs(x: int): (r: nat)
    ensures x >= -TWO_31 && x < TWO_31 ==> r <= TWO_31
  {
    if x < 0 then -x else x
  }

  lemma StepIsPolynomial(p: int, c: code)
    ensures HashStep(Wrap32(p), c) == Wrap32(31 * p + c)
  {
    var h := Wrap32(p);
    var k := Quotient(p);
    assert p == h + TWO_32 * k;
    var j := Quotient(h * 32);
    assert h * 32 == Wrap32(h * 32) + TWO_32 * j;
    assert Wrap32(h * 32) - h + c == 31 * p + c + TWO_32 * (-j - 31 * k);
    WrapIgnoresMultiples(31 * p + c, -j - 31 * k);
  }

  /** How many times 2^32 a value lies off the 32-bit range. */
  function Quotient(x: int): (k: int)
    ensures x == Wrap32(x) + TWO_32 * k
  {
    (x + TWO_31) / TWO_32
  }

  lemma WrapIgnoresMultiples(x: int, k: int)
    ensures Wrap32(x + TWO_32 * k) == Wrap32(x)
  {
    var q := Quotient(x + TWO_32 * k);
    var q' := Quotient(x);
    assert Wrap32(x + TWO_32 * k) - Wrap32(x) == TWO_32 * (k - q + q');
  }

  /** Hashing a concatenation, up to multiples of 2^32. */
  lemma HashOfConcat(s: seq<code>, t: seq<code>)
    ensures Wrap32(Polynomial(s + t)) == Wrap32(Wrap32(Polynomial(s)) * Power31(|t|) + Wrap32(Polynomial(t)))
  {
    hide Wrap32, Polynomial, Quotient;
    PolynomialOfConcat(s, t);
    var ps, pt, p := Polynomial(s), Polynomial(t), Power31(|t|);
    var a, b := Quotient(ps), Quotient(pt);
    Regroup(Wrap32(ps), a, p, Wrap32(pt), b);
    WrapIgnoresMultiples(Wrap32(ps) * p + Wrap32(pt), a * p + b);
  }

  lemma Regroup(x: int, a: int, p: int, y: int, b: int)
    ensures (x + TWO_32 * a) * p + (y + TWO_32 * b) == x * p + y + TWO_32 * (a * p + b)
  {
    assert TWO_32 * a * p == TWO_32 * (a * p);
  }

  lemma {:induction false} PolynomialOfConcat(s: seq<code>, t: seq<code>)
    ensures Polynomial(s + t) == Polynomial(s) * Power31(|t|) + Polynomial(t)
  {
    if t == [] {
      assert s + t == s;
    } else {
      assert (s + t)[..|s + t| - 1] == s + t[..|t| - 1];
      PolynomialOfConcat(s, t[..|t| - 1]);
      assert 31 * (Polynomial(s) * Power31(|t| - 1)) == Polynomial(s) * Power31(|t|);
    }
  }

  // ---------- The generator ----------

  const A: int := 1664525
  const C: int := 1013904223
  /** A · A_INVERSE is 1 + A_MULTIPLE · 2^32. */
  const A_INVERSE: int := 4276115653
  const A_MULTIPLE: int := 1657219

  predicate IsState(seed: int) {
    0 <= seed < TWO_32
  }

  function Lcg(seed: int): (next: int)
    ensures IsState(next)
  {
    (A * seed + C) % TWO_32
  }

  /** The products and the sum stay below 2^53, so the double holds them exactly. */
  lemma LcgIsExact(seed: int, span: int)
    requires IsState(seed) && 1 <= span <= 5001
    ensures 0 <= A * seed + C < TWO_53 && 0 <= seed * span < TWO_53
  {
    Products(span, 5001, seed);
  }

  /** The step can be undone, so no two states have the same successor and none is lost. */
  lemma LcgIsInjective(x: int, y: int)
    requires IsState(x) && IsState(y) && Lcg(x) == Lcg(y)
    ensures x == y
  {
    LcgUndone(x);
    LcgUndone(y);
  }

  function Undo(next: int): (seed: int)
    ensures IsState(seed)
  {
    A_INVERSE * (next - C) % TWO_32
  }

  lemma LcgUndone(x: int)
    requires IsState(x)
    ensures Undo(Lcg(x)) == x
  {
    var q := (A * x + C) / TWO_32;
    assert Lcg(x) == A * x + C - TWO_32 * q;
    assert A_INVERSE * (Lcg(x) - C) == x + TWO_32 * (A_MULTIPLE * x - A_INVERSE * q);
    ModOfMultiple(x, A_MULTIPLE * x - A_INVERSE * q);
  }

  lemma ModOfMultiple(x: int, k: int)
    requires IsState(x)
    ensures (x + TWO_32 * k) % TWO_32 == x
  {
    var y := x + TWO_32 * k;
    assert y == TWO_32 * (y / TWO_32) + y % TWO_32;
    assert -TWO_32 < TWO_32 * (k - y / TWO_32) < TWO_32;
  }

  class SeededRandom {
    var seed: int

    constructor (seed: int)
      requires IsState(seed)
      ensures this.seed == seed
    {
      this.seed := seed;
    }

    /** A multiple of 2^-32 from 0 up to but not including 1. */
    method Random() returns (r: real)
      requires IsState(seed)
      modifies this
      ensures IsState(seed) && seed == Lcg(old(seed))
      ensures r == seed as real / TWO_32 as real && 0.0 <= r < 1.0
    {
      seed := (A * seed + C) % TWO_32;
      r := seed as real / TWO_32 as real;
    }

    method RandomInt(min: int, max: int) returns (n: int)
      requires IsState(seed) && min <= max
      modifies this
      ensures IsState(seed) && seed == Lcg(old(seed))
      ensures n == Scale(seed, min, max) && min <= n <= max
    {
      var r := Random();
      ScaleFloor(seed, max - min + 1);
      n := (r * (max - min + 1) as real).Floor + min;
    }
  }

  /** `Math.floor(random() * (max - min + 1)) + min`, in integers. */
  function Scale(seed: int, min: int, max: int): (n: int)
    requires IsState(seed) && min <= max
    ensures min <= n <= max
  {
    ScaleBound(seed, max - min + 1);
    seed * (max - min + 1) / TWO_32 + min
  }

  lemma ScaleBound(seed: int, span: nat)
    requires IsState(seed) && span >= 1
    ensures 0 <= seed * span / TWO_32 < span
  {
    Products(seed, TWO_32 - 1, span);
    Below(seed * span, span);
  }

  lemma Products(a: nat, b: nat, n: nat)
    requires a <= b
    ensures 0 <= a * n <= b * n
  {
  }

  lemma Below(x: nat, q: nat)
    requires q >= 1 && x <= (TWO_32 - 1) * q
    ensures x / TWO_32 < q
  {
  }

  lemma ScaleFloor(seed: int, span: nat)
    requires IsState(seed) && span >= 1
    ensures (seed as real / TWO_32 as real * span as real).Floor == seed * span / TWO_32
  {
    var n, q := seed * span, seed * span / TWO_32;
    var x := seed as real / TWO_32 as real * span as real;
    assert x == n as real / TWO_32 as real;
    assert n == q * TWO_32 + n % TWO_32;
    assert q as real <= n as real / TWO_32 as real < q as real + 1.0;
  }

  // ---------- The user ----------

  datatype User = User(id: int, role: string)

  const ADMIN_IDS: seq<int> := [34, 37, 41]

  /** The user a seed stands for, from its first two draws. */
  function UserOf(hash: int): (u: User)
    requires IsState(hash)
  {
    var first := Lcg(hash);
    var r := first as real / TWO_32 as real;
    if r < 0.08 then User(ADMIN_IDS[Scale(Lcg(first), 0, 2)], "Admin")
    else if r < 0.50 then User(Scale(Lcg(first), 1000, 6000), "Member")
    else User(99999, "Guest")
  }

  /** Roles and ids as thresholds on the first and the second state after the hash. */
  lemma UserThresholds(hash: int)
    requires IsState(hash)
    ensures var first, second, u := Lcg(hash), Lcg(Lcg(hash)), UserOf(hash);
            && (u.role == "Admin" <==> first <= 343597383) && (u.role == "Guest" <==> first >= TWO_31)
            && (u.role == "Member" <==> 343597383 < first < TWO_31)
            && (u.role == "Admin" ==>
                  u.id == if 3 * second < TWO_32 then 34 else if 3 * second < 2 * TWO_32 then 37 else 41)
            && (u.role == "Member" ==> (u.id - 1000) * TWO_32 <= 5001 * second < (u.id - 999) * TWO_32)
            && (u.role == "Guest" ==> u.id == 99999)
  {
    var first := Lcg(hash);
    RoleNamesDiffer();
    hide Lcg;
    FractionBelow(first, 0.08);
    FractionBelow(first, 0.50);
  }

  lemma RoleNamesDiffer()
    ensures "Admin" != "Member" && "Admin" != "Guest" && "Member" != "Guest"
  {
    assert |"Admin"| == 5 && |"Member"| == 6 && |"Guest"| == 5 && "Admin"[0] != "Guest"[0];
  }

  lemma FractionBelow(n: nat, x: real)
    ensures n as real / TWO_32 as real < x <==> n as real < x * TWO_32 as real
  {
    assert n as real / TWO_32 as real * TWO_32 as real == n as real;
  }

  /** The codes of "ab" hash as Java hashes that string. */
  lemma HashOfAb()
    ensures Wrap32(Polynomial([97, 98])) == 3105
  {
    assert Polynomial([97, 98][..1]) == 97;
  }

  /** The user of the empty session id. */
  lemma EmptySessionUser()
    ensures Polynomial([]) == 0 && UserOf(0) == User(2393, "Member")
  {
    assert Lcg(0) == 1013904223 && Lcg(1013904223) == 1196435762;
    UserThresholds(0);
  }

  /** The id always belongs to its role, and equal session ids give equal users. */
  method RandomUser(sessionId: seq<code>) returns (u: User)
    ensures u == UserOf(Abs(Wrap32(Polynomial(sessionId))))
    ensures u.role == "Admin" ==> u.id in ADMIN_IDS
    ensures u.role == "Member" ==> 1000 <= u.id <= 6000
    ensures u.role == "Guest" ==> u.id == 99999
    ensures u.role in {"Admin", "Member", "Guest"}
  {
    var hash := SimpleHash(sessionId);
    var rng := new SeededRandom(hash);
    var r := rng.Random();
    if r < 0.08 {
      var adminIndex := rng.RandomInt(0, |ADMIN_IDS| - 1);
      u := User(ADMIN_IDS[adminIndex], "Admin");
    } else if r < 0.50 {
      var id := rng.RandomInt(1000, 6000);
      u := User(id, "Member");
    } else {
      u := User(99999, "Guest");
    }
  }
}
