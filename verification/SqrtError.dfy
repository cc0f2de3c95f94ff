/**
  * Error analysis of the Goldschmidt iterations for the square root, over the reals.
  * `m` is the argument, `r` approximates 1/sqrt(m), `s` approximates sqrt(m), `q == r * r * m` measures how well.
  */
module SqrtError {
  /** One unit in the last place of a 2.30 fixed-point number. */
  const E: real := 1.0 / 1073741824.0

  /** One unit in the last place of the 3.61 fixed-point result; its square root's argument is exact to half of it. */
  const G: real := 1.0 / 2305843009213693952.0

  lemma Grow(a: real, b: real, c: real)
    requires a <= b && 0.0 <= c
    ensures a * c <= b * c && c * a <= c * b
  {
  }

  lemma Product(x: real, y: real, a: real, b: real)
    requires 0.0 <= x <= a && 0.0 <= y <= b
    ensures 0.0 <= x * y <= a * b
  {
    Grow(x, a, y);
    Grow(y, b, a);
  }

  lemma Sandwich(d: real, c: real, lo: real, hi: real, k: real)
    requires 0.0 - lo <= d <= hi && 0.0 <= c <= k && 0.0 <= lo && 0.0 <= hi
    ensures 0.0 - lo * k <= d * c <= hi * k
  {
    Product(0.0, 0.0, lo, k);
    Product(0.0, 0.0, hi, k);
    if d >= 0.0 {
      Product(d, c, hi, k);
    } else {
      Product(0.0 - d, c, lo, k);
      assert (0.0 - d) * c == 0.0 - d * c;
    }
  }

  /** Replacing a factor by one that is near it. */
  lemma NearMul(a: real, b: real, lo: real, hi: real, c: real, k: real)
    requires a - lo <= b <= a + hi && 0.0 <= c <= k && 0.0 <= lo && 0.0 <= hi
    ensures a * c - lo * k <= b * c <= a * c + hi * k
  {
    var d := b - a;
    assert b * c == a * c + d * c by { assert b == a + d; }
    Sandwich(d, c, lo, hi, k);
  }

  /** What a Newton step makes of the measure: 1 - (3hh - hhh)/4 where h is how far it was from one. */
  function Improved(q: real): real { q * (3.0 - q) * (3.0 - q) / 4.0 }

  lemma ImprovedIs(q: real)
    ensures var h := q - 1.0; Improved(q) == 1.0 - (3.0 * (h * h) - h * h * h) / 4.0
  {
  }

  lemma ImprovedBounds(q: real, a: real)
    requires 0.0 <= a <= 1.0 && 1.0 - a <= q <= 1.0 + a
    ensures 1.0 - 0.75 * (a * a) - 0.25 * (a * a * a) <= Improved(q) <= 1.0
  {
    var h := q - 1.0;
    ImprovedIs(q);
    SquareWithin(h, a);
    assert h * h * h == h * (h * h);
    assert a * a * a == a * (a * a);
    Grow(h, 1.0, h * h);
    Grow(0.0 - a, h, h * h);
    Grow(h * h, a * a, a);
  }

  lemma SquareOrder(x: real, y: real)
    requires 0.0 <= x <= y
    ensures x * x <= y * y && (x < y ==> x * x < y * y)
  {
    assert y * y - x * x == (y - x) * (y + x);
    if x < y { Positive(y - x, y + x); }
  }

  lemma Positive(a: real, b: real)
    requires a > 0.0 && b > 0.0
    ensures a * b > 0.0
  {
  }

  lemma SquareWithin(h: real, a: real)
    requires 0.0 - a <= h <= a
    ensures 0.0 <= h * h <= a * a
  {
    var g := if h >= 0.0 then h else 0.0 - h;
    assert g * g == h * h;
    SquareOrder(g, a);
  }

  lemma NewtonMeasure(m: real, r: real, q: real, p: real)
    requires q == r * r * m && p == r * (3.0 - q) / 2.0
    ensures p * p * m == Improved(q)
  {
    var k := (3.0 - q) * (3.0 - q) / 4.0;
    assert p * p == r * r * k;
    assert p * p * m == (r * r * m) * k;
  }

  /** A root bound without roots. */
  lemma TimesArgument(m: real, x: real, n: real, bound: real)
    requires 0.0 < m <= 4.0 && x >= 0.0 && bound > 0.0 && x * x * m == n && 4.0 * n <= bound * bound
    ensures x * m <= bound
  {
    var y := x * m;
    assert y * y == n * m by { assert y * y == (x * x * m) * m; }
    Grow(m, 4.0, n);
    if y > bound { SquareOrder(bound, y); }
  }

  /** A step that misses the Newton step by `w` moves the measure by no more than about four times as much. */
  lemma Perturbed(m: real, p: real, w: real, wl: real, wh: real, n: real)
    requires 1.0 <= m <= 4.0 && p >= 0.0 && p * p * m == n <= 1.0
    requires 0.0 - wl <= w <= wh && 0.0 <= wl <= wh
    ensures n - 4.0 * wl <= (p + w) * (p + w) * m <= n + 4.0 * wh + 4.0 * (wh * wh)
  {
    TimesArgument(m, p, n, 2.0);
    var k := p * m;
    assert k >= 0.0;
    Expand(m, p, w, n);
    Sandwich(w, k, wl, wh, 2.0);
    assert w * k == k * w;
    SquareWithin(w, wh);
    SquarePart(m, w * w, wh * wh);
  }

  lemma Expand(m: real, p: real, w: real, n: real)
    requires p * p * m == n
    ensures (p + w) * (p + w) * m == n + 2.0 * (p * m * w) + w * w * m
  {
    assert (p + w) * (p + w) == p * p + 2.0 * (p * w) + w * w;
    assert (p * p + 2.0 * (p * w) + w * w) * m == p * p * m + 2.0 * (p * w) * m + w * w * m;
    assert 2.0 * (p * w) * m == 2.0 * (p * m * w);
  }

  lemma SquarePart(m: real, w2: real, b2: real)
    requires 0.0 <= m <= 4.0 && 0.0 <= w2 <= b2
    ensures 0.0 <= w2 * m <= 4.0 * b2
  {
  }

  // ----- One iteration -----

  /** The first product uses the upper half of the argument only. */
  lemma Estimate(m: real, mu: real, r: real, s: real)
    requires mu <= m < mu + E && 0.0 < r <= 1.0 && mu * r - E < s <= mu * r
    ensures m * r - 2.0 * E < s <= m * r
  {
    NearMul(m, mu, E, 0.0, r, 1.0);
    Between(m * r, mu * r, s);
  }

  lemma Between(x: real, y: real, s: real)
    requires x - E <= y <= x && y - E < s <= y
    ensures x - 2.0 * E < s <= x
  {
  }

  /** `s * r` measures the estimate as well as `s` approximates `m * r`. */
  lemma Residual(m: real, r: real, q: real, s: real, lo: real, hi: real)
    requires q == r * r * m && 0.0 < r <= 1.0 && 0.0 <= lo && 0.0 <= hi && m * r - lo <= s <= m * r + hi
    ensures q - lo <= s * r <= q + hi
  {
    NearMul(m * r, s, lo, hi, r, 1.0);
    assert m * r * r == q;
  }

  /** How far the new estimate is from the Newton step when the correction is off. */
  lemma Miss(r: real, q: real, u: real, r1: real, lo: real, hi: real)
    requires 0.0 < r <= 1.0 && 0.0 <= lo && 0.0 <= hi && 3.0 - q - lo <= u <= 3.0 - q + hi
    requires r * u / 2.0 - E / 2.0 < r1 <= r * u / 2.0
    ensures 0.0 - (lo + E) / 2.0 <= r1 - r * (3.0 - q) / 2.0 <= hi / 2.0
  {
    NearMul(3.0 - q, u, lo, hi, r, 1.0);
    assert (3.0 - q) * r == r * (3.0 - q) && u * r == r * u;
    MissBy(r * (3.0 - q), r * u, r1, lo, hi);
  }

  lemma MissBy(x: real, y: real, r1: real, lo: real, hi: real)
    requires x - lo <= y <= x + hi && y / 2.0 - E / 2.0 < r1 <= y / 2.0
    ensures 0.0 - (lo + E) / 2.0 <= r1 - x / 2.0 <= hi / 2.0
  {
  }

  /** The root's estimate follows the reciprocal's; the products have names. */
  lemma Follow(m: real, r: real, s: real, u: real, r1: real, s1: real, p: real, ru: real, su: real, mr1: real)
    requires p == m * r && ru == r * u && su == s * u && mr1 == m * r1
    requires 1.0 <= m <= 4.0 && p - 2.0 * E <= s <= p && 0.0 <= u <= 2.1
    requires ru / 2.0 - E / 2.0 <= r1 <= ru / 2.0 && su / 2.0 - 2.0 * E <= s1 <= su / 2.0
    ensures mr1 - 4.1 * E <= s1 <= mr1 + 2.0 * E
  {
    var k := Regrouped(m, r, u, p, ru);
    FollowRoot(p, s, u, k, su);
    FollowReciprocal(m, ru, k, r1, mr1);
    FollowBy(k, su, mr1, s1);
  }

  lemma Regrouped(m: real, r: real, u: real, p: real, ru: real) returns (k: real)
    requires p == m * r && ru == r * u
    ensures k == p * u && k == m * ru
  {
    k := m * r * u;
  }

  lemma FollowRoot(p: real, s: real, u: real, k: real, su: real)
    requires p - 2.0 * E <= s <= p && 0.0 <= u <= 2.1 && k == p * u && su == s * u
    ensures k - 4.2 * E <= su <= k
  {
    NearMul(p, s, 2.0 * E, 0.0, u, 2.1);
  }

  lemma FollowReciprocal(m: real, ru: real, k: real, r1: real, mr1: real)
    requires 1.0 <= m <= 4.0 && ru / 2.0 - E / 2.0 <= r1 <= ru / 2.0 && k == m * ru && mr1 == m * r1
    ensures k / 2.0 - 2.0 * E <= mr1 <= k / 2.0
  {
    NearMul(ru / 2.0, r1, E / 2.0, 0.0, m, 4.0);
    assert ru / 2.0 * m == k / 2.0 && r1 * m == mr1;
  }

  lemma FollowBy(k: real, su: real, mr1: real, s1: real)
    requires k - 4.2 * E <= su <= k && k / 2.0 - 2.0 * E <= mr1 <= k / 2.0
    requires su / 2.0 - 2.0 * E <= s1 <= su / 2.0
    ensures mr1 - 4.1 * E <= s1 <= mr1 + 2.0 * E
  {
  }

  const A0: real := 1.0 / 128.0
  const A1: real := 0.000046

  /** The measure after a step, from the measure before it and the miss. */
  lemma Measured(m: real, r: real, q: real, r1: real, q1: real, a: real, wl: real, wh: real)
    requires 1.0 <= m <= 4.0 && 0.0 < r && q == r * r * m && q1 == r1 * r1 * m
    requires 0.0 <= a <= 1.0 && 1.0 - a <= q <= 1.0 + a
    requires 0.0 <= wl <= wh && 0.0 - wl <= r1 - r * (3.0 - q) / 2.0 <= wh
    ensures 1.0 - 0.75 * (a * a) - 0.25 * (a * a * a) - 4.0 * wl <= q1 <= 1.0 + 4.0 * wh + 4.0 * (wh * wh)
  {
    var p, w := NewtonPoint(m, r, q, r1, wl, wh);
    ImprovedBounds(q, a);
    MeasuredFrom(m, p, w, Improved(q), 1.0 - 0.75 * (a * a) - 0.25 * (a * a * a), r1, q1, wl, wh);
  }

  lemma MeasuredFrom(m: real, p: real, w: real, n: real, low: real, r1: real, q1: real, wl: real, wh: real)
    requires 1.0 <= m <= 4.0 && p >= 0.0 && p * p * m == n && low <= n <= 1.0
    requires 0.0 - wl <= w <= wh && 0.0 <= wl <= wh && r1 == p + w && q1 == r1 * r1 * m
    ensures low - 4.0 * wl <= q1 <= 1.0 + 4.0 * wh + 4.0 * (wh * wh)
  {
    Perturbed(m, p, w, wl, wh, n);
  }

  lemma NewtonPoint(m: real, r: real, q: real, r1: real, wl: real, wh: real) returns (p: real, w: real)
    requires 0.0 < r && q == r * r * m && q <= 3.0 && 0.0 - wl <= r1 - r * (3.0 - q) / 2.0 <= wh
    ensures p + w == r1 && p >= 0.0 && p * p * m == Improved(q) && 0.0 - wl <= w <= wh
  {
    p := r * (3.0 - q) / 2.0;
    w := r1 - p;
    NewtonMeasure(m, r, q, p);
    Product(0.0, 0.0, r, 3.0 - q);
  }

  lemma Numbers()
    ensures 0.75 * (A0 * A0) + 0.25 * (A0 * A0 * A0) + 2.0 * E <= A1 && 7.0 * E <= A1 <= A0
    ensures 6.0 * E + 4.0 * ((1.5 * E) * (1.5 * E)) <= 7.0 * E
    ensures 0.75 * (A1 * A1) + 0.25 * (A1 * A1 * A1) + 6.0 * E <= 8.0 * E
    ensures 10.2 * E + 4.0 * ((2.55 * E) * (2.55 * E)) <= 10.3 * E
  {
  }

  lemma Shift(q: real, sr: real, d: real, lo: real, hi: real)
    requires q - lo <= sr <= q + hi && sr - E < d <= sr
    ensures q - lo - E < d <= q + hi
  {
  }

  /** From seven good bits to fourteen. */
  lemma FirstRound(m: real, r: real, q: real, s: real, d: real, r1: real, q1: real)
    requires 1.0 <= m <= 4.0 && 0.0 < r <= 1.0
    requires q == r * r * m && 1.0 - A0 <= q <= 1.0 + A0 && q1 == r1 * r1 * m
    requires m * r - 2.0 * E <= s <= m * r && s * r - E < d <= s * r
    requires r * (3.0 - d) / 2.0 - E / 2.0 < r1 <= r * (3.0 - d) / 2.0
    ensures 1.0 - A1 <= q1 <= 1.0 + 7.0 * E
  {
    FirstResidual(m, r, q, s, d);
    Numbers();
    Miss(r, q, 3.0 - d, r1, 0.0, 3.0 * E);
    Measured(m, r, q, r1, q1, A0, E / 2.0, 1.5 * E);
  }

  lemma FirstResidual(m: real, r: real, q: real, s: real, d: real)
    requires q == r * r * m && 0.0 < r <= 1.0 && m * r - 2.0 * E <= s <= m * r && s * r - E < d <= s * r
    ensures q - 3.0 * E < d <= q
  {
    Residual(m, r, q, s, 2.0 * E, 0.0);
    Shift(q, s * r, d, 2.0 * E, 0.0);
  }

  lemma SecondResidual(m: real, r: real, q: real, s: real, d: real)
    requires q == r * r * m && 0.0 < r <= 1.0 && s * r - E < d <= s * r
    requires m * r - 4.1 * E <= s <= m * r + 2.0 * E
    ensures q - 5.1 * E < d <= q + 2.0 * E
  {
    Residual(m, r, q, s, 4.1 * E, 2.0 * E);
    Shift(q, s * r, d, 4.1 * E, 2.0 * E);
  }

  /** From fourteen good bits to twenty-seven. */
  lemma SecondRound(m: real, r: real, q: real, s: real, d: real, r1: real, q1: real)
    requires 1.0 <= m <= 4.0 && 0.0 < r <= 1.0
    requires q == r * r * m && 1.0 - A1 <= q <= 1.0 + 7.0 * E && q1 == r1 * r1 * m
    requires m * r - 4.1 * E <= s <= m * r + 2.0 * E && s * r - E < d <= s * r
    requires r * (3.0 - d) / 2.0 - E / 2.0 < r1 <= r * (3.0 - d) / 2.0
    ensures 1.0 - 8.0 * E <= q1 <= 1.0 + 10.3 * E
  {
    SecondResidual(m, r, q, s, d);
    Numbers();
    Miss(r, q, 3.0 - d, r1, 2.0 * E, 5.1 * E);
    Measured(m, r, q, r1, q1, A1, 1.5 * E, 2.55 * E);
  }

  // ----- The estimates stay below one, so they fit their words -----

  const TOP_ENTRY: real := 65282.0 / 65536.0

  lemma FirstBelowOne(m: real, r: real, q: real, d: real, r1: real)
    requires 1.0 <= m && 0.0 < r <= TOP_ENTRY && q == r * r * m && q - 3.0 * E < d
    requires r1 <= r * (3.0 - d) / 2.0
    ensures r1 < 1.0
  {
    var x := r * r;
    assert x <= q by { Grow(1.0, m, x); }
    assert r * (3.0 - d) <= r * (3.0 - x + 3.0 * E) by { Grow(3.0 - d, 3.0 - x + 3.0 * E, r); }
    assert r * (3.0 - x + 3.0 * E) == r * (3.0 - x) + 3.0 * (r * E);
    assert r * E <= E by { Grow(r, 1.0, E); }
    BelowPeak(r);
    FirstSum(r * (3.0 - d), r * (3.0 - x), r * E, r1);
  }

  lemma FirstSum(a: real, b: real, c: real, r1: real)
    requires a <= b + 3.0 * c && b <= 1.9999 + 0.00008 && c <= E && r1 <= a / 2.0
    ensures r1 < 1.0
  {
  }

  lemma BelowPeak(r: real)
    requires 0.0 < r <= TOP_ENTRY
    ensures r * (3.0 - r * r) <= 1.99998
  {
    var k := (1.0 - r) * (1.0 - r);
    assert k >= 0.000015 by { SquareOrder(1.0 - TOP_ENTRY, 1.0 - r); }
    assert r * (3.0 - r * r) == 2.0 - k * (2.0 + r);
    assert k * (2.0 + r) >= 2.0 * k by { Grow(2.0, 2.0 + r, k); }
  }

  lemma SecondBelowOne(m: real, r: real)
    requires 1.0 + 12.0 * E <= m && r > 0.0 && r * r * m <= 1.0 + 10.3 * E
    ensures r < 1.0
  {
    if r >= 1.0 {
      SquareOrder(1.0, r);
      Grow(1.0, r * r, m);
    }
  }

  lemma RootBelowFour(m: real, r: real, q: real, s: real)
    requires 1.0 <= m <= 4.0 && r > 0.0 && q == r * r * m && q <= 1.0 + A0 && s <= m * r + 2.0 * E
    ensures s < 2.1
  {
    TimesArgument(m, r, q, 2.05);
    assert r * m == m * r;
  }

  // ----- The last iteration -----

  /** The correction never overshoots: its square stays below the argument. */
  lemma Undershoot(m: real, r: real, s: real, z: real) returns (f: real)
    requires 0.0 <= s <= m * r && z == s * r && 0.0 <= z <= 2.0 && 0.0 < m
    ensures 2.0 * f == s * (3.0 - z) && 0.0 <= f && f * f <= m
  {
    f := s * (3.0 - z) / 2.0;
    var k := Slope(s, z, f);
    Product(0.0, 0.0, s, 3.0 - z);
    Product(0.0, 0.0, s, k);
    BelowArgument(m, r, s, z, k);
  }

  lemma Slope(s: real, z: real, f: real) returns (k: real)
    requires 2.0 * f == s * (3.0 - z)
    ensures k >= 0.0 && z * k == Improved(z) && f * f == s * (s * k)
  {
    k := (3.0 - z) * (3.0 - z) / 4.0;
  }

  lemma BelowArgument(m: real, r: real, s: real, z: real, k: real)
    requires 0.0 <= s <= m * r && z == s * r && 0.0 <= z <= 2.0 && 0.0 < m && k >= 0.0 && z * k == Improved(z)
    ensures s * (s * k) <= m
  {
    var t := s * k;
    assert t >= 0.0 by { Product(0.0, 0.0, s, k); }
    assert r * t == Improved(z) by { assert r * (s * k) == s * r * k; }
    ScaledBelow(m, r, s, z, t);
  }

  lemma ScaledBelow(m: real, r: real, s: real, z: real, t: real)
    requires s <= m * r && 0.0 <= z <= 2.0 && 0.0 < m && t >= 0.0 && r * t == Improved(z)
    ensures s * t <= m
  {
    assert s * t <= m * (r * t) by { Grow(s, m * r, t); assert m * r * t == m * (r * t); }
    ImprovedBounds(z, 1.0);
    Grow(Improved(z), 1.0, m);
  }

  /** What was cut off the product costs the corrected root hardly more than itself. */
  lemma Truncated(k: real, s: real, q: real, z: real, e: real)
    requires k >= 0.0 && z <= q && z >= 0.8 && 0.0 <= e && s == k - e
    ensures s * (3.0 - z) >= k * (3.0 - q) - 2.2 * e
  {
    assert k * (3.0 - q) <= k * (3.0 - z) by { Grow(3.0 - q, 3.0 - z, k); }
    assert e * (3.0 - z) <= 2.2 * e by { assert 3.0 - z <= 2.2; }
    assert (k - e) * (3.0 - z) == k * (3.0 - z) - e * (3.0 - z);
  }

  /** The exact Newton step for the root, and how close its square is to the argument. */
  lemma RootStep(m: real, r: real, q: real) returns (g: real)
    requires 1.0 <= m <= 4.0 && 0.0 < r <= 1.0 && q == r * r * m && 1.0 - 8.0 * E <= q <= 1.0 + 10.3 * E
    ensures 2.0 * g == m * r * (3.0 - q) && g * g >= m * (1.0 - 80.0 * (E * E)) && g >= 0.48 * m
  {
    var p := r * (3.0 - q) / 2.0;
    g := m * r * (3.0 - q) / 2.0;
    assert g == m * p;
    assert g * g == m * (p * p * m) by { assert m * p * (m * p) == m * (p * p * m); }
    assert p * p * m == Improved(q) by { NewtonMeasure(m, r, q, p); }
    assert Improved(q) >= 1.0 - 80.0 * (E * E) by { ImprovedBounds(q, 10.3 * E); }
    Grow(1.0 - 80.0 * (E * E), Improved(q), m);
    assert r >= 0.49 by {
      if r < 0.49 {
        SquareOrder(r, 0.49);
        Product(r * r, m, 0.2401, 4.0);
      }
    }
    assert p >= 0.48 by { Product(0.49, 0.99, r, (3.0 - q) / 2.0); assert r * ((3.0 - q) / 2.0) == p; }
    Grow(0.48, p, m);
  }

  /** Two hundred and fifty units more are too many. */
  lemma Overshoot(m: real, g: real)
    requires 1.0 <= m && g * g >= m * (1.0 - 80.0 * (E * E)) && g >= 0.48 * m
    ensures (g + 250.0 * G) * (g + 250.0 * G) > m
  {
    var e := E * E;
    assert G == 0.5 * e && e > 0.0;
    assert (g + 125.0 * e) * (g + 125.0 * e) == g * g + 250.0 * (g * e) + 15625.0 * (e * e);
    assert g * e >= 0.48 * m * e by { Grow(0.48 * m, g, e); }
    assert m * e > 0.0 by { Positive(m, e); }
    assert e * e > 0.0 by { Positive(e, e); }
    assert m * (1.0 - 80.0 * e) == m - 80.0 * (m * e);
    assert 0.48 * m * e == 0.48 * (m * e);
  }

  lemma LastCorrection(s: real, z: real, d: real, f: real)
    requires 0.0 <= s <= 2.1 && z - 1.5 * G < d <= z && 2.0 * f == s * (3.0 - z)
    ensures 2.0 * f <= s * (3.0 - d) <= 2.0 * f + 3.15 * G
  {
    NearMul(3.0 - z, 3.0 - d, 0.0, 1.5 * G, s, 2.1);
    assert (3.0 - z) * s == s * (3.0 - z) && (3.0 - d) * s == s * (3.0 - d);
    Grow(3.0 - z, 3.0 - d, s);
  }

  /** From twenty-seven good bits to the last one but a few units. */
  lemma LastRound(m: real, r: real, q: real, s: real, d: real, s1: real)
    requires 1.0 <= m <= 4.0 && 0.0 < r <= 1.0 && q == r * r * m && 1.0 - 8.0 * E <= q <= 1.0 + 10.3 * E
    requires m * r - 1.5 * G < s <= m * r && 0.0 <= s && s * r - 1.5 * G < d <= s * r
    requires s * (3.0 - d) / 2.0 - 3.0 * G < s1 <= s * (3.0 - d) / 2.0
    ensures s1 >= 2.0 * G ==> (s1 - 2.0 * G) * (s1 - 2.0 * G) <= m
    ensures (s1 + 255.0 * G) * (s1 + 255.0 * G) > m
  {
    var z := LastMeasure(m, r, q, s);
    NotAbove(m, r, s, z, d, s1);
    NotBelow(m, r, q, s, z, d, s1);
  }

  lemma LastMeasure(m: real, r: real, q: real, s: real) returns (z: real)
    requires 1.0 <= m <= 4.0 && 0.0 < r <= 1.0 && q == r * r * m && 1.0 - 8.0 * E <= q <= 1.0 + 10.3 * E
    requires m * r - 1.5 * G < s <= m * r
    ensures z == s * r && q - 1.5 * G <= z <= q && s <= 2.1
  {
    z := s * r;
    Residual(m, r, q, s, 1.5 * G, 0.0);
    RootBelowFour(m, r, q, s);
  }

  lemma NotAbove(m: real, r: real, s: real, z: real, d: real, s1: real)
    requires 0.0 < m && 0.0 <= s <= m * r && s <= 2.1 && z == s * r && 0.0 <= z <= 2.0
    requires z - 1.5 * G < d <= z && s1 <= s * (3.0 - d) / 2.0
    ensures s1 >= 2.0 * G ==> (s1 - 2.0 * G) * (s1 - 2.0 * G) <= m
  {
    var f := Undershoot(m, r, s, z);
    LastCorrection(s, z, d, f);
    if s1 >= 2.0 * G { SquareOrder(s1 - 2.0 * G, f); }
  }

  lemma NotBelow(m: real, r: real, q: real, s: real, z: real, d: real, s1: real)
    requires 1.0 <= m <= 4.0 && 0.0 < r <= 1.0 && q == r * r * m && 1.0 - 8.0 * E <= q <= 1.0 + 10.3 * E
    requires m * r - 1.5 * G < s <= m * r && 0.0 <= s && 0.8 <= z <= q && d <= z
    requires s * (3.0 - d) / 2.0 - 3.0 * G < s1
    ensures (s1 + 255.0 * G) * (s1 + 255.0 * G) > m
  {
    NearStep(m * r, q, s, z, d, s1);
    StepBelow(m, r, q, s1);
  }

  lemma StepBelow(m: real, r: real, q: real, s1: real)
    requires 1.0 <= m <= 4.0 && 0.0 < r <= 1.0 && q == r * r * m && 1.0 - 8.0 * E <= q <= 1.0 + 10.3 * E
    requires m * r * (3.0 - q) <= 2.0 * s1 + 10.0 * G
    ensures (s1 + 255.0 * G) * (s1 + 255.0 * G) > m
  {
    var g := RootStep(m, r, q);
    FarAbove(m, g, s1);
  }

  lemma FarAbove(m: real, g: real, s1: real)
    requires 1.0 <= m && g * g >= m * (1.0 - 80.0 * (E * E)) && g >= 0.48 * m && g <= s1 + 5.0 * G
    ensures (s1 + 255.0 * G) * (s1 + 255.0 * G) > m
  {
    Overshoot(m, g);
    SquareOrder(g + 250.0 * G, s1 + 255.0 * G);
  }

  /** What was cut off leaves the new estimate within five units below the exact step. */
  lemma NearStep(k: real, q: real, s: real, z: real, d: real, s1: real)
    requires 0.0 <= s && k - 1.5 * G < s <= k && 0.8 <= z <= q && d <= z
    requires s * (3.0 - d) / 2.0 - 3.0 * G < s1
    ensures k * (3.0 - q) <= 2.0 * s1 + 10.0 * G
  {
    Truncated(k, s, q, z, k - s);
    Grow(3.0 - z, 3.0 - d, s);
    NearSum(s * (3.0 - d), s * (3.0 - z), k * (3.0 - q), k - s, s1);
  }

  lemma NearSum(a: real, b: real, k: real, e: real, s1: real)
    requires a >= b >= k - 2.2 * e && e <= 1.5 * G && a / 2.0 - 3.0 * G < s1
    ensures k <= 2.0 * s1 + 10.0 * G
  {
  }
}
