/** IEEE 754 doubles where the analyzer meets them: integers converted to a double, and
    the ceiling of a quotient of integers. Rounding is to 53 bits, to nearest, ties to
    even. */
module Doubles {
  const EXACT_DOUBLES: nat := 0x20_0000_0000_0000

  function CeilDiv(a: nat, b: nat): nat
    requires b > 0
  {
    (a + b - 1) / b
  }

  function Pow2(e: nat): (p: nat)
    ensures p >= 1
  {
    if e == 0 then 1 else 2 * Pow2(e - 1)
  }

  /** The position of the highest bit. */
  function Log2(n: nat): (e: nat)
    requires n > 0
    ensures Pow2(e) <= n < 2 * Pow2(e)
  {
    if n == 1 then 0 else 1 + Log2(n / 2)
  }

  /** `n / d` to the nearest integer, and to the even one of two. */
  function Nearest(n: nat, d: nat): nat
    requires d > 0
  {
    if 2 * (n % d) < d || (2 * (n % d) == d && (n / d) % 2 == 0) then n / d else n / d + 1
  }

  /** No integer is nearer, and of two that are as near the even one is taken. */
  lemma {:induction false} NearestIsNearest(n: nat, d: nat)
    requires d > 0
    ensures
      var m := Nearest(n, d);
      && 2 * n <= 2 * (m * d) + d && 2 * (m * d) <= 2 * n + d
      && (2 * n == 2 * (m * d) + d || 2 * (m * d) == 2 * n + d ==> m % 2 == 0)
  {
    var q := n / d;
    assert n == q * d + n % d && (q + 1) * d == q * d + d;
  }

  /** An integer as a double: only its 53 highest bits survive. */
  function AsDouble(n: nat): nat {
    if n == 0 || Log2(n) <= 52 then n
    else
      var unit := Pow2(Log2(n) - 52);
      Nearest(n, unit) * unit
  }

  /** `math.ceil(n / d)` for a quotient of one or more: with its highest bit at `e`, the
      nearest double is a multiple of 2^(e - 52). */
  function CeilOfQuotient(n: nat, d: nat): nat
    requires 0 < d <= n
  {
    QuotientIsPositive(n, d);
    var e := Log2(n / d);
    if e <= 52 then CeilDiv(Nearest(n * Pow2(52 - e), d), Pow2(52 - e))
    else Nearest(n, d * Pow2(e - 52)) * Pow2(e - 52)
  }

  lemma {:induction false} QuotientIsPositive(n: nat, d: nat)
    requires 0 < d <= n
    ensures n / d > 0
  {
  }

  /** `r / d` is at most half the distance between doubles of highest bit `e`, and `k`,
      the integer below, is the one that rounding prefers. */
  predicate Negligible(k: nat, r: nat, d: nat, e: nat)
    requires e <= 52
  {
    var twice := 2 * (r * Pow2(52 - e));
    twice < d || (twice == d && (e < 52 || k % 2 == 0))
  }

  /** The quotient is not an integer, but so little above one that the nearest double is
      that integer. */
  predicate RoundsShort(n: nat, d: nat)
    requires d > 0
  {
    n / d > 0 && n % d > 0 && Log2(n / d) <= 52 && Negligible(n / d, n % d, d, Log2(n / d))
  }

  /** Below 2^53 an integer is its own double. */
  lemma {:induction false} SmallIntegersAreDoubles(n: nat)
    requires n < EXACT_DOUBLES
    ensures AsDouble(n) == n
  {
    if n > 0 {
      HighestBit(n);
    }
  }

  // ---- Division ----------------------------------------------------------

  lemma {:induction false} Grows(a: nat, b: nat, factor: nat)
    requires a <= b
    ensures a * factor <= b * factor
  {
  }

  lemma {:induction false} CeilDivCovers(a: nat, b: nat)
    requires b > 0
    ensures CeilDiv(a, b) * b >= a
    ensures a > 0 ==> (CeilDiv(a, b) - 1) * b < a
  {
    var q := CeilDiv(a, b);
    assert a + b - 1 == q * b + (a + b - 1) % b;
    assert (q - 1) * b == q * b - b;
  }

  lemma {:induction false} CeilDivOfMultiple(k: nat, b: nat)
    requires b > 0
    ensures CeilDiv(k * b, b) == k
  {
    CeilDivCovers(k * b, b);
    var q := CeilDiv(k * b, b);
    if q < k {
      Grows(q + 1, k, b);
    } else if q > k {
      Grows(k, q - 1, b);
    }
  }

  lemma {:induction false} CeilDivBetween(k: nat, r: nat, b: nat)
    requires 0 < r < b
    ensures CeilDiv(k * b + r, b) == k + 1
  {
    var a := k * b + r;
    CeilDivCovers(a, b);
    var q := CeilDiv(a, b);
    if q <= k {
      Grows(q, k, b);
    } else if q > k + 1 {
      Grows(k + 1, q - 1, b);
    }
  }

  lemma {:induction false} DivisionIsUnique(n: nat, d: nat, q: nat, u: nat)
    requires d > 0 && n == q * d + u && u < d
    ensures n / d == q && n % d == u
  {
    var p := n / d;
    assert n == p * d + n % d;
    if p < q {
      Grows(p + 1, q, d);
    } else if p > q {
      Grows(q + 1, p, d);
    }
  }

  // ---- Powers of two -----------------------------------------------------

  lemma {:induction false} PowersGrow(a: nat, b: nat)
    requires a <= b
    ensures Pow2(a) <= Pow2(b)
  {
    if a < b {
      PowersGrow(a, b - 1);
    }
  }

  lemma {:induction false} PowersAdd(a: nat, b: nat)
    ensures Pow2(a) * Pow2(b) == Pow2(a + b)
  {
    if a > 0 {
      PowersAdd(a - 1, b);
      assert Pow2(a) * Pow2(b) == 2 * (Pow2(a - 1) * Pow2(b));
    }
  }

  lemma {:induction false} SomePowers()
    ensures Pow2(17) == 0x2_0000 && Pow2(36) == 0x10_0000_0000 && Pow2(53) == EXACT_DOUBLES
  {
    assert Pow2(1) == 2 && Pow2(2) == 4 && Pow2(4) == 16;
    PowersAdd(4, 4);
    PowersAdd(8, 8);
    PowersAdd(16, 1);
    PowersAdd(17, 1);
    PowersAdd(18, 18);
    PowersAdd(36, 17);
  }

  lemma {:induction false} HighestBit(k: nat)
    requires 0 < k < EXACT_DOUBLES
    ensures Log2(k) <= 52
  {
    SomePowers();
    if Log2(k) > 52 {
      PowersGrow(53, Log2(k));
    }
  }

  lemma {:induction false} BitOf(e: nat, n: nat)
    requires n == Pow2(e)
    ensures Log2(n) == e
  {
    if Log2(n) > e {
      PowersGrow(e + 1, Log2(n));
    } else if Log2(n) < e {
      PowersGrow(Log2(n) + 1, e);
    }
  }

  // ---- The ceiling of a quotient -----------------------------------------

  /** For quotients below 2^53, the ceiling of the double is the exact ceiling, or one
      less exactly when the quotient rounds down to an integer. */
  lemma {:induction false} CeilingExactly(n: nat, d: nat)
    requires 0 < d <= n && n / d < EXACT_DOUBLES
    ensures CeilOfQuotient(n, d) == CeilDiv(n, d) - if RoundsShort(n, d) then 1 else 0
  {
    QuotientIsPositive(n, d);
    HighestBit(n / d);
    var j := Significand(n, d, n / d, n % d, Log2(n / d));
    CeilOfScaled(n / d, j, Pow2(52 - Log2(n / d)));
    ExactCeiling(n, d, n / d, n % d);
    assert n % d == 0 ==> Negligible(n / d, 0, d, Log2(n / d));
  }

  lemma {:induction false} ExactCeiling(n: nat, d: nat, k: nat, r: nat)
    requires d > 0 && k == n / d && r == n % d
    ensures CeilDiv(n, d) == if r == 0 then k else k + 1
  {
    assert n == k * d + r;
    if r == 0 {
      CeilDivOfMultiple(k, d);
    } else {
      CeilDivBetween(k, r, d);
    }
  }

  /** The 53-bit significand is the scaled integer part and `j` units above it. */
  lemma {:induction false} Significand(n: nat, d: nat, k: nat, r: nat, e: nat) returns (j: nat)
    requires 0 < d && k == n / d && r == n % d && e <= 52
    ensures j <= Pow2(52 - e) && Nearest(n * Pow2(52 - e), d) == k * Pow2(52 - e) + j
    ensures j == 0 <==> Negligible(k, r, d, e)
  {
    var scale := Pow2(52 - e);
    var rest := r * scale;
    Scaled(n, d, k, r, scale);
    StaysBelow(r, scale, d);
    Parity(k, scale, e);
    j := Units(n * scale, d, k * scale, rest, scale);
  }

  lemma {:induction false} Scaled(n: nat, d: nat, k: nat, r: nat, scale: nat)
    requires d > 0 && k == n / d && r == n % d
    ensures n * scale / d == k * scale + r * scale / d && n * scale % d == r * scale % d
  {
    var t, u := r * scale / d, r * scale % d;
    assert n == k * d + r;
    WholePlusRest(r * scale, d);
    Regrouped(k, d, r, scale, t, u);
    DivisionIsUnique(n * scale, d, k * scale + t, u);
  }

  lemma {:induction false} WholePlusRest(n: nat, d: nat)
    requires d > 0
    ensures n == n / d * d + n % d
  {
  }

  lemma {:induction false} Regrouped(k: nat, d: nat, r: nat, scale: nat, t: nat, u: nat)
    requires r * scale == t * d + u
    ensures (k * d + r) * scale == (k * scale + t) * d + u
  {
    Distributes(k * d, r, scale);
    Distributes(k * scale, t, d);
    Swapped(k, d, scale);
  }

  lemma {:induction false} Distributes(a: nat, b: nat, factor: nat)
    ensures (a + b) * factor == a * factor + b * factor
  {
  }

  lemma {:induction false} Swapped(a: nat, b: nat, c: nat)
    ensures a * b * c == a * c * b
  {
  }

  lemma {:induction false} StaysBelow(r: nat, scale: nat, d: nat)
    requires r < d && scale > 0
    ensures r * scale / d < scale
  {
    var t := r * scale / d;
    assert r * scale == t * d + r * scale % d;
    if t >= scale {
      Grows(scale, t, d);
      Grows(r + 1, d, scale);
    }
  }

  lemma {:induction false} Parity(k: nat, scale: nat, e: nat)
    requires e <= 52 && scale == Pow2(52 - e)
    ensures (k * scale) % 2 == 0 <==> e < 52 || k % 2 == 0
  {
    if e < 52 {
      assert scale == 2 * Pow2(51 - e);
      assert k * scale == 2 * (k * Pow2(51 - e));
    }
  }

  lemma {:induction false} Units(total: nat, d: nat, base: nat, rest: nat, scale: nat) returns (j: nat)
    requires d > 0 && total / d == base + rest / d && total % d == rest % d && rest / d < scale
    ensures j <= scale && Nearest(total, d) == base + j
    ensures j == 0 <==> 2 * rest < d || (2 * rest == d && base % 2 == 0)
  {
    j := Nearest(total, d) - base;
    WholePart(rest, d);
  }

  lemma {:induction false} WholePart(rest: nat, d: nat)
    requires d > 0
    ensures rest / d == 0 ==> rest == rest % d
    ensures rest / d >= 1 ==> rest >= d
  {
    var t := rest / d;
    assert rest == t * d + rest % d;
    if t >= 1 {
      Grows(1, t, d);
    }
  }

  lemma {:induction false} CeilOfScaled(k: nat, j: nat, scale: nat)
    requires scale > 0 && j <= scale
    ensures CeilDiv(k * scale + j, scale) == if j == 0 then k else k + 1
  {
    if j == 0 {
      CeilDivOfMultiple(k, scale);
    } else if j == scale {
      assert k * scale + j == (k + 1) * scale;
      CeilDivOfMultiple(k + 1, scale);
    } else {
      CeilDivBetween(k, j, scale);
    }
  }

  /** No quotient of a number below 2^53 rounds down to an integer. */
  lemma {:induction false} SmallNeverRoundsShort(n: nat, d: nat)
    requires 0 < d && n < EXACT_DOUBLES
    ensures !RoundsShort(n, d)
  {
    if RoundsShort(n, d) {
      FarApart(n / d, n % d, d, Log2(n / d));
      IntegerPart(n, d);
    }
  }

  lemma {:induction false} IntegerPart(n: nat, d: nat)
    requires d > 0
    ensures (n / d) * d <= n
  {
    assert n == (n / d) * d + n % d;
  }

  lemma {:induction false} FarApart(k: nat, r: nat, d: nat, e: nat)
    requires r > 0 && e <= 52 && Pow2(e) <= k && 2 * (r * Pow2(52 - e)) <= d
    ensures k * d >= EXACT_DOUBLES
  {
    var low, unit := Pow2(e), Pow2(53 - e);
    assert unit <= d by {
      assert unit == 2 * Pow2(52 - e);
      Grows(1, r, Pow2(52 - e));
    }
    assert low * unit == EXACT_DOUBLES by {
      PowersAdd(e, 53 - e);
      SomePowers();
    }
    Product(low, k, unit, d);
  }

  lemma {:induction false} Product(a: nat, b: nat, x: nat, y: nat)
    requires a <= b && x <= y
    ensures a * x <= b * y
  {
    Grows(x, y, a);
    Grows(a, b, y);
  }
}
