/** The integer-only square root of a double: a table, two 32-bit iterations, one 64-bit iteration, one rounding. */
module Sqrt {
  import opened Wrappers
  import opened Bits
  import opened SqrtError

  const LONG := 0x1_0000_0000_0000_0000
  type Long = w: int | 0 <= w < 0x1_0000_0000_0000_0000

  // ----- The table of reciprocal square roots -----

  function Row(k: nat): seq<nat>
    requires k < 16
  {
    if k == 0 then [0xb451, 0xb2f0, 0xb196, 0xb044, 0xaef9, 0xadb6, 0xac79, 0xab43]
    else if k == 1 then [0xaa14, 0xa8eb, 0xa7c8, 0xa6aa, 0xa592, 0xa480, 0xa373, 0xa26b]
    else if k == 2 then [0xa168, 0xa06a, 0x9f70, 0x9e7b, 0x9d8a, 0x9c9d, 0x9bb5, 0x9ad1]
    else if k == 3 then [0x99f0, 0x9913, 0x983a, 0x9765, 0x9693, 0x95c4, 0x94f8, 0x9430]
    else if k == 4 then [0x936b, 0x92a9, 0x91ea, 0x912e, 0x9075, 0x8fbe, 0x8f0a, 0x8e59]
    else if k == 5 then [0x8daa, 0x8cfe, 0x8c54, 0x8bac, 0x8b07, 0x8a64, 0x89c4, 0x8925]
    else if k == 6 then [0x8889, 0x87ee, 0x8756, 0x86c0, 0x862b, 0x8599, 0x8508, 0x8479]
    else if k == 7 then [0x83ec, 0x8361, 0x82d8, 0x8250, 0x81c9, 0x8145, 0x80c2, 0x8040]
    else if k == 8 then [0xff02, 0xfd0e, 0xfb25, 0xf947, 0xf773, 0xf5aa, 0xf3ea, 0xf234]
    else if k == 9 then [0xf087, 0xeee3, 0xed47, 0xebb3, 0xea27, 0xe8a3, 0xe727, 0xe5b2]
    else if k == 10 then [0xe443, 0xe2dc, 0xe17a, 0xe020, 0xdecb, 0xdd7d, 0xdc34, 0xdaf1]
    else if k == 11 then [0xd9b3, 0xd87b, 0xd748, 0xd61a, 0xd4f1, 0xd3cd, 0xd2ad, 0xd192]
    else if k == 12 then [0xd07b, 0xcf69, 0xce5b, 0xcd51, 0xcc4a, 0xcb48, 0xca4a, 0xc94f]
    else if k == 13 then [0xc858, 0xc764, 0xc674, 0xc587, 0xc49d, 0xc3b7, 0xc2d4, 0xc1f4]
    else if k == 14 then [0xc116, 0xc03c, 0xbf65, 0xbe90, 0xbdbe, 0xbcef, 0xbc23, 0xbb59]
    else [0xba91, 0xb9cc, 0xb90a, 0xb84a, 0xb78c, 0xb6d0, 0xb617, 0xb560]
  }

  function Entry(i: nat): nat
    requires i < 128
  {
    if i % 8 < |Row(i / 8)| then Row(i / 8)[i % 8] else 0
  }

  /** The entry's square times any argument of its cell is within one part in 128 of one. */
  predicate Fits(t: nat, c: nat, h: nat) {
    0x8040 <= t <= 0xff02 && 127 * h <= t * t * c && t * t * (c + 1) <= 129 * h
  }

  predicate RowFits(row: seq<nat>, c: nat, h: nat) {
    |row| == 8 && forall j | 0 <= j < 8 :: Fits(row[j], c + j, h)
  }

  lemma LowRows(k: nat)
    requires k < 8
    ensures RowFits(Row(k), 64 + 8 * k, 0x4000_0000)
  {
    if k < 4 { LowerLowRows(k); } else { UpperLowRows(k); }
  }

  lemma LowerLowRows(k: nat)
    requires k < 4
    ensures RowFits(Row(k), 64 + 8 * k, 0x4000_0000)
  {
  }

  lemma UpperLowRows(k: nat)
    requires 4 <= k < 8
    ensures RowFits(Row(k), 64 + 8 * k, 0x4000_0000)
  {
  }

  lemma HighRows(k: nat)
    requires k < 8
    ensures RowFits(Row(8 + k), 64 + 8 * k, 0x8000_0000)
  {
  }

  /** The argument, as a 2.62 fixed-point number, lies in cell `i`. */
  predicate Cell(m: nat, i: nat) {
    if i < 64 then (64 + i) * 0x200_0000_0000_0000 <= m < (65 + i) * 0x200_0000_0000_0000
    else i < 128 && i * 0x100_0000_0000_0000 <= m < (i + 1) * 0x100_0000_0000_0000
  }

  lemma EntryFits(i: nat)
    requires i < 128
    ensures if i < 64 then Fits(Entry(i), 64 + i, 0x4000_0000) else Fits(Entry(i), i, 0x8000_0000)
  {
    if i < 64 { LowRows(i / 8); } else { HighRows(i / 8 - 8); }
  }

  const UNIT87 := 0x80_0000_0000_0000_0000_0000

  /** The table's estimate is right to one part in 128. */
  lemma TableEstimate(m: nat, i: nat)
    requires i < 128 && Cell(m, i)
    ensures 0x8040 <= Entry(i) <= 0xff02
    ensures 127 * UNIT87 <= Entry(i) * Entry(i) * m <= 129 * UNIT87
  {
    EntryFits(i);
    var t, w := Entry(i), if i < 64 then 0x200_0000_0000_0000 else 0x100_0000_0000_0000;
    var c := if i < 64 then 64 + i else i;
    Spread(t * t, c, w, m);
  }

  lemma Spread(k: nat, c: nat, w: nat, m: nat)
    requires c * w <= m < (c + 1) * w
    ensures k * c * w <= k * m <= k * (c + 1) * w
  {
    MulOrder(c * w, m, k);
    MulOrder(m, (c + 1) * w, k);
    assert k * c * w == c * w * k && k * (c + 1) * w == (c + 1) * w * k;
  }

  // ----- Products -----

  /** The upper word of a product: the true scaled product less an error in [0, 1). */
  function Mul32(a: Word, b: Word): (p: Word)
    ensures p * WORD <= a * b < (p + 1) * WORD
  {
    HighWord(a, b);
    a * b / WORD
  }

  lemma HighWord(a: Word, b: Word)
    ensures 0 <= a * b / WORD < WORD
  {
    LowProduct(a, b);
    Quotient(a * b);
  }

  lemma Quotient(p: int)
    requires 0 <= p < LONG
    ensures 0 <= p / WORD < WORD
  {
  }

  lemma LowProduct(a: Word, b: Word)
    ensures 0 <= a * b < LONG
  {
    MulOrder(a, WORD - 1, b);
    assert (WORD - 1) * b < LONG;
  }

  function Mul64(a: Long, b: Long): nat {
    var ahi, alo, bhi, blo := a / WORD, a % WORD, b / WORD, b % WORD;
    ahi * bhi + ahi * blo / WORD + alo * bhi / WORD
  }

  /** The cheap 64-bit product is the true scaled product less an error in [0, 3), so it fits its word. */
  lemma Mul64Error(a: Long, b: Long)
    ensures Mul64(a, b) * LONG <= a * b < (Mul64(a, b) + 3) * LONG && Mul64(a, b) < LONG
  {
    var ahi, alo, bhi, blo := a / WORD, a % WORD, b / WORD, b % WORD;
    assert a == ahi * WORD + alo && b == bhi * WORD + blo;
    Schoolbook(ahi, alo, bhi, blo);
    HighWord(ahi, blo);
    HighWord(alo, bhi);
    LowProduct(alo, blo);
    FourParts(a * b, ahi * bhi, ahi * blo, alo * bhi, alo * blo);
    LongProduct(a, b);
  }

  lemma Schoolbook(ahi: nat, alo: nat, bhi: nat, blo: nat)
    ensures (ahi * WORD + alo) * (bhi * WORD + blo)
         == ahi * bhi * LONG + ahi * blo * WORD + alo * bhi * WORD + alo * blo
  {
    assert ahi * WORD * (bhi * WORD) == ahi * bhi * LONG;
    assert (ahi * WORD + alo) * (bhi * WORD + blo)
        == ahi * WORD * (bhi * WORD) + ahi * WORD * blo + alo * (bhi * WORD) + alo * blo;
    assert ahi * WORD * blo == ahi * blo * WORD && alo * (bhi * WORD) == alo * bhi * WORD;
  }

  lemma FourParts(p: nat, hh: nat, hl: nat, lh: nat, ll: nat)
    requires p == hh * LONG + hl * WORD + lh * WORD + ll && ll < LONG
    ensures (hh + hl / WORD + lh / WORD) * LONG <= p < (hh + hl / WORD + lh / WORD + 3) * LONG
  {
  }

  lemma LongProduct(a: Long, b: Long)
    ensures a * b < LONG * LONG
  {
    MulOrder(a, LONG - 1, b);
    MulOrder(b, LONG - 1, LONG - 1);
  }

  // ----- Fixed-point numbers as reals -----

  function R30(x: int): real { x as real / 1073741824.0 }
  function R32(x: int): real { x as real / 4294967296.0 }
  function R61(x: int): real { x as real / 2305843009213693952.0 }
  function R62(x: int): real { x as real / 4611686018427387904.0 }
  function R64(x: int): real { x as real / 18446744073709551616.0 }

  lemma Quotients(x: real, y: real)
    ensures (x / 1073741824.0) * (y / 4294967296.0) == x * y / 4611686018427387904.0
    ensures (x / 4294967296.0) * (y / 1073741824.0) == x * y / 4611686018427387904.0
    ensures (x / 1073741824.0) * (y / 1073741824.0) == x * y / 1152921504606846976.0
  {
  }

  lemma LongQuotients(x: real, y: real)
    ensures (x / 4611686018427387904.0) * (y / 18446744073709551616.0)
         == x * y / 85070591730234615865843651857942052864.0
    ensures (x / 4611686018427387904.0) * (y / 4611686018427387904.0)
         == x * y / 21267647932558653966460912964485513216.0
  {
  }

  lemma RealProduct(a: int, b: int)
    ensures (a * b) as real == a as real * b as real
  {
  }

  /** Rounding errors of the three kinds of 32-bit products. */
  lemma RoundingS(a: Word, b: Word, p: Word)
    requires p == Mul32(a, b)
    ensures R30(p) <= R30(a) * R32(b) < R30(p) + E
  {
    RealProduct(a, b);
    Quotients(a as real, b as real);
    Rounded32(a * b, p);
  }

  lemma HalvedR(a: Word, b: Word, p: Word)
    requires p == Mul32(a, b)
    ensures R32(2 * p) <= R32(a) * R30(b) / 2.0 < R32(2 * p) + E / 2.0
  {
    RealProduct(a, b);
    Quotients(a as real, b as real);
    Rounded32(a * b, p);
  }

  lemma HalvedS(a: Word, b: Word, p: Word)
    requires p == Mul32(a, b)
    ensures R30(2 * p) <= R30(a) * R30(b) / 2.0 < R30(2 * p) + 2.0 * E
  {
    RealProduct(a, b);
    Quotients(a as real, b as real);
    Rounded32(a * b, p);
  }

  lemma Rounded32(x: int, p: int)
    requires p * WORD <= x < (p + 1) * WORD
    ensures R30(p) <= x as real / 4611686018427387904.0 < R30(p) + E
    ensures R32(2 * p) <= x as real / 4611686018427387904.0 / 2.0 < R32(2 * p) + E / 2.0
    ensures R30(2 * p) <= x as real / 1152921504606846976.0 / 2.0 < R30(2 * p) + 2.0 * E
  {
  }

  /** Rounding errors of the two kinds of 64-bit products. */
  lemma Rounding64(a: Long, b: Long, p: Long)
    requires p == Mul64(a, b)
    ensures R62(p) <= R62(a) * R64(b) < R62(p) + 1.5 * G
  {
    Mul64Error(a, b);
    RealProduct(a, b);
    LongQuotients(a as real, b as real);
    Rounded64(a * b, p);
  }

  lemma Halved64(a: Long, b: Long, p: Long)
    requires p == Mul64(a, b)
    ensures R61(p) <= R62(a) * R62(b) / 2.0 < R61(p) + 3.0 * G
  {
    Mul64Error(a, b);
    RealProduct(a, b);
    LongQuotients(a as real, b as real);
    Rounded64(a * b, p);
  }

  lemma Rounded64(x: int, p: int)
    requires p * LONG <= x < (p + 3) * LONG
    ensures R62(p) <= x as real / 85070591730234615865843651857942052864.0 < R62(p) + 1.5 * G
    ensures R61(p) <= x as real / 21267647932558653966460912964485513216.0 / 2.0 < R61(p) + 3.0 * G
  {
  }

  // ----- The first iteration -----

  const THREE: Word := 0xc000_0000

  /** Seven good bits: how far the reciprocal's measure is from one. */
  ghost predicate Seven(m: Long, r: Word) {
    var x, y := R62(m), R32(r);
    1.0 <= x <= 4.0 && 0.5 < y <= TOP_ENTRY && 1.0 - A0 <= y * y * x <= 1.0 + A0
  }

  lemma StartEstimate(m: Long, i: nat, r: Word)
    requires i < 128 && Cell(m, i) && r == Entry(i) * 0x1_0000
    ensures Seven(m, r)
  {
    TableEstimate(m, i);
    EntryEstimate(m, Entry(i), r);
  }

  lemma EntryEstimate(m: Long, e: nat, r: Word)
    requires 0x4000_0000_0000_0000 <= m && r == e * 0x1_0000 && 0x8040 <= e <= 0xff02
    requires 127 * UNIT87 <= e * e * m <= 129 * UNIT87
    ensures Seven(m, r)
  {
    assert R32(r) == e as real / 65536.0;
    RealProduct(e, e);
    RealProduct(e * e, m);
    EntryMeasure(e as real, m as real);
  }

  lemma EntryMeasure(e: real, m: real)
    ensures e / 65536.0 * (e / 65536.0) * (m / 4611686018427387904.0) == e * e * m / 19807040628566084398385987584.0
  {
  }

  /** Fourteen good bits: the reciprocal's measure, and the root's estimate beside it. */
  ghost predicate Fourteen(m: Long, r: Word, s: Word) {
    var x, y, z := R62(m), R32(r), R30(s);
    && 0.0 < y && 1.0 - A1 <= y * y * x <= 1.0 + 7.0 * E
    && x * y - 4.1 * E <= z <= x * y + 2.0 * E
  }

  ghost predicate TwentySeven(m: Long, r: Word) {
    var x, y := R62(m), R32(r);
    0.0 < y && 1.0 - 8.0 * E <= y * y * x <= 1.0 + 10.3 * E
  }

  lemma UpperHalf(m: Long)
    ensures R30(m / WORD) <= R62(m) < R30(m / WORD) + E
  {
    assert m / WORD * WORD <= m < (m / WORD + 1) * WORD;
  }

  lemma FirstProducts(m: Long, r: Word, s: Word, d: Word)
    requires Seven(m, r) && s == Mul32(m / WORD, r) && d == Mul32(s, r)
    ensures d < 0x6000_0000
    ensures R62(m) * R32(r) - 2.0 * E <= R30(s) <= R62(m) * R32(r) && R30(s) * R32(r) - E < R30(d) <= R30(s) * R32(r)
    ensures var q := R32(r) * R32(r) * R62(m); q - 3.0 * E < R30(d) <= q
  {
    RoundingS(s, r, d);
    FirstProduct(m, r, s);
    FirstResidual(R62(m), R32(r), R32(r) * R32(r) * R62(m), R30(s), R30(d));
  }

  lemma FirstProduct(m: Long, r: Word, s: Word)
    requires Seven(m, r) && s == Mul32(m / WORD, r)
    ensures R62(m) * R32(r) - 2.0 * E <= R30(s) <= R62(m) * R32(r)
  {
    UpperHalf(m);
    RoundingS(m / WORD, r, s);
    Estimate(R62(m), R30(m / WORD), R32(r), R30(s));
  }

  lemma FirstIteration(m: Long, r: Word, s: Word, d: Word, u: Word, r1: nat, s1: nat)
    requires Seven(m, r) && s == Mul32(m / WORD, r) && d == Mul32(s, r)
    requires d < 0x6000_0000 && u == THREE - d && r1 == 2 * Mul32(r, u) && s1 == 2 * Mul32(s, u)
    ensures r1 < WORD && s1 < WORD && Fourteen(m, r1, s1)
  {
    FirstProducts(m, r, s, d);
    StepR(r, d, u, r1);
    StepS(s, d, u, s1);
    FirstOutcome(m, r, s, d, r1, s1);
  }

  lemma StepR(r: Word, d: Word, u: Word, r1: nat)
    requires d < 0x6000_0000 && u == THREE - d && r1 == 2 * Mul32(r, u)
    ensures R32(r1) <= R32(r) * (3.0 - R30(d)) / 2.0 < R32(r1) + E / 2.0
  {
    HalvedR(r, u, Mul32(r, u));
    Correction(d, u);
  }

  lemma StepS(s: Word, d: Word, u: Word, s1: nat)
    requires d < 0x6000_0000 && u == THREE - d && s1 == 2 * Mul32(s, u)
    ensures R30(s1) <= R30(s) * (3.0 - R30(d)) / 2.0 < R30(s1) + 2.0 * E
  {
    HalvedS(s, u, Mul32(s, u));
    Correction(d, u);
  }

  lemma Correction(d: Word, u: Word)
    requires u == THREE - d
    ensures R30(u) == 3.0 - R30(d)
  {
  }

  lemma FirstOutcome(m: Long, r: Word, s: Word, d: Word, r1: nat, s1: nat)
    requires Seven(m, r)
    requires R32(r1) <= R32(r) * (3.0 - R30(d)) / 2.0 < R32(r1) + E / 2.0
    requires R30(s1) <= R30(s) * (3.0 - R30(d)) / 2.0 < R30(s1) + 2.0 * E
    requires R62(m) * R32(r) - 2.0 * E <= R30(s) <= R62(m) * R32(r) && R30(s) * R32(r) - E < R30(d) <= R30(s) * R32(r)
    requires var q := R32(r) * R32(r) * R62(m); q - 3.0 * E < R30(d) <= q
    ensures r1 < WORD && s1 < WORD && Fourteen(m, r1, s1)
  {
    OutcomeMeasure(m, r, s, d, r1);
    OutcomeFollows(m, r, s, d, r1, s1);
    FirstRootFits(R62(m), R32(r1), R30(s1));
  }

  lemma OutcomeMeasure(m: Long, r: Word, s: Word, d: Word, r1: nat)
    requires Seven(m, r)
    requires R32(r1) <= R32(r) * (3.0 - R30(d)) / 2.0 < R32(r1) + E / 2.0
    requires R62(m) * R32(r) - 2.0 * E <= R30(s) <= R62(m) * R32(r) && R30(s) * R32(r) - E < R30(d) <= R30(s) * R32(r)
    requires var q := R32(r) * R32(r) * R62(m); q - 3.0 * E < R30(d) <= q
    ensures 0.0 < R32(r1) < 1.0 && 1.0 - A1 <= R32(r1) * R32(r1) * R62(m) <= 1.0 + 7.0 * E
    ensures 0.9 <= R30(d) <= 3.0
  {
    FirstMeasure(R62(m), R32(r), R32(r) * R32(r) * R62(m), R30(s), R30(d), R32(r1));
  }

  lemma OutcomeFollows(m: Long, r: Word, s: Word, d: Word, r1: nat, s1: nat)
    requires 1.0 <= R62(m) <= 4.0 && 0.9 <= R30(d) <= 3.0
    requires R32(r1) <= R32(r) * (3.0 - R30(d)) / 2.0 < R32(r1) + E / 2.0
    requires R30(s1) <= R30(s) * (3.0 - R30(d)) / 2.0 < R30(s1) + 2.0 * E
    requires R62(m) * R32(r) - 2.0 * E <= R30(s) <= R62(m) * R32(r)
    ensures R62(m) * R32(r1) - 4.1 * E <= R30(s1) <= R62(m) * R32(r1) + 2.0 * E
  {
    FirstFollows(R62(m), R32(r), R30(s), R30(d), R32(r1), R30(s1),
                 R62(m) * R32(r), R32(r) * (3.0 - R30(d)), R30(s) * (3.0 - R30(d)), R62(m) * R32(r1));
  }

  lemma FirstMeasure(m: real, r: real, q: real, s: real, d: real, r1: real)
    requires 1.0 <= m <= 4.0 && 0.5 < r <= TOP_ENTRY && q == r * r * m && 1.0 - A0 <= q <= 1.0 + A0
    requires m * r - 2.0 * E <= s <= m * r && s * r - E < d <= s * r && q - 3.0 * E < d <= q
    requires r1 <= r * (3.0 - d) / 2.0 < r1 + E / 2.0
    ensures 0.0 < r1 < 1.0 && 1.0 - A1 <= r1 * r1 * m <= 1.0 + 7.0 * E
  {
    FirstRound(m, r, q, s, d, r1, r1 * r1 * m);
    FirstFits(m, r, q, d, r1);
  }

  lemma FirstFollows(m: real, r: real, s: real, d: real, r1: real, s1: real,
                     p: real, ru: real, su: real, mr1: real)
    requires p == m * r && ru == r * (3.0 - d) && su == s * (3.0 - d) && mr1 == m * r1
    requires 1.0 <= m <= 4.0 && p - 2.0 * E <= s <= p && 0.9 <= d <= 3.0
    requires r1 <= ru / 2.0 < r1 + E / 2.0 && s1 <= su / 2.0 < s1 + 2.0 * E
    ensures mr1 - 4.1 * E <= s1 <= mr1 + 2.0 * E
  {
    Follow(m, r, s, 3.0 - d, r1, s1, p, ru, su, mr1);
  }

  lemma FirstRootFits(m: real, r1: real, s1: real)
    requires 1.0 <= m <= 4.0 && 0.0 < r1 && r1 * r1 * m <= 1.0 + 7.0 * E && s1 <= m * r1 + 2.0 * E
    ensures s1 < 3.0
  {
    RootBelowFour(m, r1, r1 * r1 * m, s1);
  }

  lemma FirstFits(m: real, r: real, q: real, d: real, r1: real)
    requires 1.0 <= m && 0.5 < r <= TOP_ENTRY && q == r * r * m && q <= 1.0 + A0 && q - 3.0 * E < d <= q
    requires r1 <= r * (3.0 - d) / 2.0 < r1 + E / 2.0
    ensures 0.0 < r1 < 1.0
  {
    FirstBelowOne(m, r, q, d, r1);
    StaysPositive(r, d, r1);
  }

  lemma StaysPositive(r: real, d: real, r1: real)
    requires 0.4 < r && d <= 1.1 && r * (3.0 - d) / 2.0 < r1 + E / 2.0
    ensures 0.3 < r1
  {
    Product(0.4, 1.9, r, 3.0 - d);
  }

  // ----- The second iteration -----

  ghost predicate InRange(m: Long) { 1.0 <= R62(m) <= 4.0 }

  lemma SecondProducts(m: Long, r: Word, s: Word, d: Word)
    requires InRange(m) && Fourteen(m, r, s) && d == Mul32(s, r)
    ensures d < 0x6000_0000 && R30(s) * R32(r) - E < R30(d) <= R30(s) * R32(r)
  {
    RoundingS(s, r, d);
    SecondResidual(R62(m), R32(r), R32(r) * R32(r) * R62(m), R30(s), R30(d));
  }

  lemma SecondIteration(m: Long, r: Word, s: Word, d: Word, u: Word, r1: nat)
    requires InRange(m) && Fourteen(m, r, s) && d == Mul32(s, r)
    requires d < 0x6000_0000 && u == THREE - d && r1 == 2 * Mul32(r, u)
    ensures R32(r1) > 0.0 && 1.0 - 8.0 * E <= R32(r1) * R32(r1) * R62(m) <= 1.0 + 10.3 * E
    ensures m / WORD >= 0x4000_000c ==> r1 < WORD
  {
    SecondProducts(m, r, s, d);
    StepR(r, d, u, r1);
    SecondOutcome(m, r, s, d, R32(r) * (3.0 - R30(d)), r1);
  }

  lemma SecondOutcome(m: Long, r: Word, s: Word, d: Word, ru: real, r1: nat)
    requires InRange(m) && Fourteen(m, r, s) && d < 0x6000_0000 && ru == R32(r) * (3.0 - R30(d))
    requires R32(r1) <= ru / 2.0 < R32(r1) + E / 2.0 && R30(s) * R32(r) - E < R30(d) <= R30(s) * R32(r)
    ensures R32(r1) > 0.0 && 1.0 - 8.0 * E <= R32(r1) * R32(r1) * R62(m) <= 1.0 + 10.3 * E
    ensures m / WORD >= 0x4000_000c ==> r1 < WORD
  {
    SecondReal(R62(m), R32(r), R30(s), R30(d), R32(r1), ru);
    if m / WORD >= 0x4000_000c {
      UpperHalf(m);
      SecondBelowOne(R62(m), R32(r1));
    }
  }

  lemma SecondReal(m: real, r: real, s: real, d: real, r1: real, ru: real)
    requires 1.0 <= m <= 4.0 && 0.0 < r <= 1.0 && 1.0 - A1 <= r * r * m <= 1.0 + 7.0 * E
    requires m * r - 4.1 * E <= s <= m * r + 2.0 * E && s * r - E < d <= s * r && d <= 1.5
    requires ru == r * (3.0 - d) && r1 <= ru / 2.0 < r1 + E / 2.0
    ensures r1 > 0.0 && 1.0 - 8.0 * E <= r1 * r1 * m <= 1.0 + 10.3 * E
  {
    SecondRound(m, r, r * r * m, s, d, r1, r1 * r1 * m);
    AtLeastHalf(m, r);
    SecondPositive(r, d, r1, ru);
  }

  lemma AtLeastHalf(m: real, r: real)
    requires 1.0 <= m <= 4.0 && 0.0 < r && 1.0 - A1 <= r * r * m
    ensures r > 0.4
  {
    if r <= 0.4 {
      SquareOrder(r, 0.4);
      Product(r * r, m, 0.16, 4.0);
    }
  }

  lemma SecondPositive(r: real, d: real, r1: real, ru: real)
    requires 0.4 < r && d <= 1.5 && ru == r * (3.0 - d) && ru / 2.0 < r1 + E / 2.0
    ensures 0.0 < r1
  {
    Product(0.4, 1.5, r, 3.0 - d);
  }

  /** The two 32-bit iterations for the reciprocal. */
  function Reciprocal(h: nat, r: nat): int {
    var s := h * r / WORD;
    var u := THREE - s * r / WORD;
    var r1, s1 := 2 * (r * u / WORD), 2 * (s * u / WORD);
    var u1 := THREE - s1 * r1 / WORD;
    2 * (r1 * u1 / WORD)
  }

  /** The same iterations by their intermediate results, for the first table entry. */
  predicate Chain(h: nat, s: nat, u: nat, r: nat, s1: nat, u1: nat) {
    && s == h * 0xff02_0000 / WORD && u == THREE - s * 0xff02_0000 / WORD
    && r == 2 * (0xff02_0000 * u / WORD) && s1 == 2 * (s * u / WORD) && u1 == THREE - s1 * r / WORD
    && 2 * (r * u1 / WORD) < WORD
  }

  /** Right above one the bound is too weak to show that the estimate stays below one; there are twelve cases. */
  lemma NearOne(h: nat)
    requires 0x4000_0000 <= h < 0x4000_000c
    ensures Reciprocal(h, 0xff02_0000) < WORD
  {
    var s, u, r, s1, u1 := Intermediates(h);
  }

  lemma Intermediates(h: nat) returns (s: nat, u: nat, r: nat, s1: nat, u1: nat)
    requires 0x4000_0000 <= h < 0x4000_000c
    ensures Chain(h, s, u, r, s1, u1)
  {
    if h == 0x4000_0000 { return 0x3fc0_8000, 0x807e_c0ff, 0xfffe_8676, 0x3fff_a19c, 0x8000_bcc6; }
    else if h == 0x4000_0001 { return 0x3fc0_8000, 0x807e_c0ff, 0xfffe_8676, 0x3fff_a19c, 0x8000_bcc6; }
    else if h == 0x4000_0002 { return 0x3fc0_8001, 0x807e_c0ff, 0xfffe_8676, 0x3fff_a19e, 0x8000_bcc4; }
    else if h == 0x4000_0003 { return 0x3fc0_8002, 0x807e_c0fe, 0xfffe_8674, 0x3fff_a19e, 0x8000_bcc5; }
    else if h == 0x4000_0004 { return 0x3fc0_8003, 0x807e_c0fd, 0xfffe_8672, 0x3fff_a19e, 0x8000_bcc5; }
    else if h == 0x4000_0005 { return 0x3fc0_8004, 0x807e_c0fc, 0xfffe_8670, 0x3fff_a1a0, 0x8000_bcc4; }
    else if h == 0x4000_0006 { return 0x3fc0_8005, 0x807e_c0fb, 0xfffe_866e, 0x3fff_a1a0, 0x8000_bcc4; }
    else if h == 0x4000_0007 { return 0x3fc0_8006, 0x807e_c0fa, 0xfffe_866c, 0x3fff_a1a0, 0x8000_bcc5; }
    else if h == 0x4000_0008 { return 0x3fc0_8007, 0x807e_c0f9, 0xfffe_866a, 0x3fff_a1a0, 0x8000_bcc5; }
    else if h == 0x4000_0009 { return 0x3fc0_8008, 0x807e_c0f8, 0xfffe_8668, 0x3fff_a1a2, 0x8000_bcc4; }
    else if h == 0x4000_000a { return 0x3fc0_8009, 0x807e_c0f7, 0xfffe_8666, 0x3fff_a1a2, 0x8000_bcc4; }
    else { return 0x3fc0_800a, 0x807e_c0f6, 0xfffe_8664, 0x3fff_a1a2, 0x8000_bcc5; }
  }

  // ----- The last iteration -----

  lemma Widened(r: Word)
    ensures 0 <= r * WORD < LONG && R64(r * WORD) == R32(r)
  {
  }

  lemma LastProducts(m: Long, r: Word, s: Long, d: Long)
    requires InRange(m) && TwentySeven(m, r) && s == Mul64(m, r * WORD) && d == Mul64(s, r * WORD)
    ensures R62(m) * R32(r) - 1.5 * G < R62(s) <= R62(m) * R32(r)
    ensures R62(s) * R32(r) - 1.5 * G < R62(d) <= R62(s) * R32(r) && d < 0x6000_0000_0000_0000
  {
    WideProduct(m, r, s);
    WideProduct(s, r, d);
    LastMeasure(m, r, s, d);
  }

  lemma WideProduct(a: Long, r: Word, p: Long)
    requires 0 <= r * WORD < LONG && p == Mul64(a, r * WORD)
    ensures R62(a) * R32(r) - 1.5 * G < R62(p) <= R62(a) * R32(r)
  {
    Widened(r);
    Rounding64(a, r * WORD, p);
  }

  lemma LastMeasure(m: Long, r: Word, s: Long, d: Long)
    requires InRange(m) && TwentySeven(m, r) && R62(d) <= R62(s) * R32(r)
    requires R62(m) * R32(r) - 1.5 * G < R62(s) <= R62(m) * R32(r)
    ensures d < 0x6000_0000_0000_0000
  {
    Residual(R62(m), R32(r), R32(r) * R32(r) * R62(m), R62(s), 1.5 * G, 0.0);
  }

  lemma LastIteration(m: Long, r: Word, s: Long, d: Long, u: Long, s1: Long)
    requires InRange(m) && TwentySeven(m, r) && s == Mul64(m, r * WORD) && d == Mul64(s, r * WORD)
    requires d < 0x6000_0000_0000_0000 && u == THREE * WORD - d && s1 == Mul64(s, u)
    ensures RootWithin(m, s1)
  {
    LastProducts(m, r, s, d);
    LastStep(s, d, u, s1);
    LastOutcome(m, r, s, d, s1);
  }

  lemma LastStep(s: Long, d: Long, u: Long, s1: Long)
    requires u == THREE * WORD - d && s1 == Mul64(s, u)
    ensures R61(s1) <= R62(s) * (3.0 - R62(d)) / 2.0 < R61(s1) + 3.0 * G
  {
    Halved64(s, u, s1);
    LongCorrection(d, u);
  }

  lemma LongCorrection(d: Long, u: Long)
    requires u == THREE * WORD - d
    ensures R62(u) == 3.0 - R62(d)
  {
  }

  /** Two units less are not above the root, 255 more are. */
  ghost predicate RootWithin(m: Long, s: Long) {
    s >= 2 && (s - 2) * (s - 2) <= m * 0x1000_0000_0000_0000 < (s + 255) * (s + 255)
  }

  lemma LastOutcome(m: Long, r: Word, s: Long, d: Long, s1: Long)
    requires InRange(m) && TwentySeven(m, r)
    requires R62(m) * R32(r) - 1.5 * G < R62(s) <= R62(m) * R32(r)
    requires R62(s) * R32(r) - 1.5 * G < R62(d) <= R62(s) * R32(r)
    requires R61(s1) <= R62(s) * (3.0 - R62(d)) / 2.0 < R61(s1) + 3.0 * G
    ensures RootWithin(m, s1)
  {
    LastRound(R62(m), R32(r), R32(r) * R32(r) * R62(m), R62(s), R62(d), R61(s1));
    UpperInteger(m, s1 + 255);
    SmallRoot(m, s1);
    LowerInteger(m, if s1 < 2 then 0 else s1 - 2);
  }

  lemma UpperInteger(m: Long, x: nat)
    requires R61(x) * R61(x) > R62(m)
    ensures m * 0x1000_0000_0000_0000 < x * x
  {
    RealProduct(x, x);
    SquareOf61(x as real);
    assert (x * x) as real > (m as real) * 1152921504606846976.0;
  }

  lemma LowerInteger(m: Long, x: nat)
    requires R61(x) * R61(x) <= R62(m)
    ensures x * x <= m * 0x1000_0000_0000_0000
  {
    RealProduct(x, x);
    SquareOf61(x as real);
    assert (x * x) as real <= (m as real) * 1152921504606846976.0;
  }

  lemma SquareOf61(x: real)
    ensures (x / 2305843009213693952.0) * (x / 2305843009213693952.0)
         == x * x / 5316911983139663491615228241121378304.0
  {
  }

  lemma SmallRoot(m: Long, s: nat)
    requires InRange(m)
    ensures s < 2 ==> m * 0x1000_0000_0000_0000 >= (s + 255) * (s + 255)
  {
  }

  lemma Truncation(m: Long, s1: Long, s: nat)
    requires RootWithin(m, s1) && s == (s1 - 2) / 512
    ensures s * s <= m * 0x400_0000_0000 && 4 * (m * 0x400_0000_0000) < (2 * s + 3) * (2 * s + 3)
  {
    assert 512 * s <= s1 - 2 && s1 + 255 <= 256 * (2 * s + 3);
    Square(512 * s, s1 - 2);
    Square(s1 + 255, 256 * (2 * s + 3));
    assert 512 * s * (512 * s) == 0x4_0000 * (s * s);
    assert 256 * (2 * s + 3) * (256 * (2 * s + 3)) == 0x1_0000 * ((2 * s + 3) * (2 * s + 3));
  }

  lemma Square(x: nat, y: nat)
    ensures x <= y ==> x * x <= y * y
  {
    if x <= y {
      MulOrder(x, y, x);
      MulOrder(x, y, y);
    }
  }

  /** What the whole approximation promises: it is the root's integer part or one less, and never off by 1.5. */
  method Approximate(m: Long, i: nat) returns (s: nat)
    requires i < 128 && Cell(m, i)
    ensures s * s <= m * 0x400_0000_0000 && 4 * (m * 0x400_0000_0000) < (2 * s + 3) * (2 * s + 3)
  {
    var r := Narrow(m, i);
    s := Wide(m, r);
  }

  /** The table lookup and the two iterations on 32 bits. */
  method Narrow(m: Long, i: nat) returns (r2: nat)
    requires i < 128 && Cell(m, i)
    ensures r2 < WORD && InRange(m) && TwentySeven(m, r2)
  {
    var r: nat := Entry(i) * 0x1_0000;
    StartEstimate(m, i, r);
    var s0 := Mul32(m / WORD, r);
    var d := Mul32(s0, r);
    FirstProducts(m, r, s0, d);
    var u := THREE - d;
    var r1, s1 := 2 * Mul32(r, u), 2 * Mul32(s0, u);
    FirstIteration(m, r, s0, d, u, r1, s1);
    d := Mul32(s1, r1);
    SecondProducts(m, r1, s1, d);
    u := THREE - d;
    r2 := 2 * Mul32(r1, u);
    SecondIteration(m, r1, s1, d, u, r2);
    if m / WORD < 0x4000_000c {
      NearOne(m / WORD);
    }
  }

  /** The last iteration, on 64 bits. */
  method Wide(m: Long, r: Word) returns (s: nat)
    requires InRange(m) && TwentySeven(m, r)
    ensures s * s <= m * 0x400_0000_0000 && 4 * (m * 0x400_0000_0000) < (2 * s + 3) * (2 * s + 3)
  {
    var r3 := r * WORD;
    Widened(r);
    var t := Mul64(m, r3);
    Mul64Error(m, r3);
    var e := Mul64(t, r3);
    Mul64Error(t, r3);
    LastProducts(m, r, t, e);
    var v := THREE * WORD - e;
    var t1 := Mul64(t, v);
    Mul64Error(t, v);
    LastIteration(m, r, t, e, v, t1);
    s := (t1 - 2) / 512;
    Truncation(m, t1, s);
  }

  // ----- Doubles -----

  const HIDDEN := 0x10_0000_0000_0000
  const SIGN := 0x8000_0000_0000_0000
  const INFINITY: Long := 0x7ff0_0000_0000_0000

  function Field(x: Long): nat { x % SIGN / HIDDEN }

  /** A finite double's magnitude is `Sig(x) * 2 ^ (Exp(x) - 1075)`. */
  function Sig(x: Long): nat { if Field(x) == 0 then x % HIDDEN else HIDDEN + x % HIDDEN }
  function Exp(x: Long): nat { if Field(x) == 0 then 1 else Field(x) }

  /**
    * `y` is normal and less than half a unit of its last place away from the root of `x`,
    * and at the bottom of its binade not above that root; the powers of two are all on one side, so nothing is rounded.
    */
  ghost predicate NearestRoot(x: Long, y: Long) {
    && HIDDEN <= y < INFINITY
    && (Sig(y) == HIDDEN ==> 4 * (HIDDEN * HIDDEN) * Pow2(2 * Exp(y)) <= 4 * Sig(x) * Pow2(Exp(x) + 1075))
    && (2 * Sig(y) - 1) * (2 * Sig(y) - 1) * Pow2(2 * Exp(y)) < 4 * Sig(x) * Pow2(Exp(x) + 1075)
    && 4 * Sig(x) * Pow2(Exp(x) + 1075) < (2 * Sig(y) + 1) * (2 * Sig(y) + 1) * Pow2(2 * Exp(y))
  }

  // ----- The last rounding -----

  /** Differences taken modulo 2^64 still tell which of two neighbours is nearer. */
  method RoundNearest(m: Long, s: nat) returns (r: nat)
    requires 0x4000_0000_0000_0000 <= m <= LONG - 0x800
    requires s * s <= m * 0x400_0000_0000 && 4 * (m * 0x400_0000_0000) < (2 * s + 3) * (2 * s + 3)
    ensures HIDDEN <= r < 2 * HIDDEN
    ensures (2 * r - 1) * (2 * r - 1) < 4 * (m * 0x400_0000_0000) < (2 * r + 1) * (2 * r + 1)
  {
    RootBelow(m, s);
    var d0 := (m * 0x400_0000_0000 - s * s) % LONG;
    assert d0 == m * 0x400_0000_0000 - s * s by { Remainder(m * 0x400_0000_0000, s); }
    var d1 := (s - d0) % LONG;
    assert d1 / SIGN == if d0 > s then 1 else 0 by { SignBit(s, d0); }
    r := s + d1 / SIGN;
    Halfway(m * 0x400_0000_0000, s, r);
    InBinade(m, r);
  }

  lemma RootBelow(m: Long, s: nat)
    requires s * s <= m * 0x400_0000_0000
    ensures s < 2 * HIDDEN
  {
    Square(2 * HIDDEN, s);
  }

  lemma Remainder(n: nat, s: nat)
    requires s * s <= n && 4 * n < (2 * s + 3) * (2 * s + 3) && s < 2 * HIDDEN
    ensures (n - s * s) % LONG == n - s * s && n - s * s <= 3 * s + 2
  {
    assert (2 * s + 3) * (2 * s + 3) == 4 * (s * s) + 12 * s + 9;
  }

  lemma SignBit(s: nat, d: nat)
    requires s < 2 * HIDDEN && d <= 3 * s + 2
    ensures (s - d) % LONG / SIGN == if d > s then 1 else 0
  {
  }

  lemma Halfway(n: nat, s: nat, r: nat)
    requires s * s <= n && 4 * n < (2 * s + 3) * (2 * s + 3) && r == if n - s * s > s then s + 1 else s
    ensures (2 * r - 1) * (2 * r - 1) < 4 * n < (2 * r + 1) * (2 * r + 1) || n == 0
  {
    assert (2 * s + 1) * (2 * s + 1) == 4 * (s * s) + 4 * s + 1;
    assert (2 * s - 1) * (2 * s - 1) == 4 * (s * s) - 4 * s + 1;
  }

  lemma InBinade(m: Long, r: nat)
    requires 0x4000_0000_0000_0000 <= m <= LONG - 0x800
    requires (2 * r - 1) * (2 * r - 1) < 4 * (m * 0x400_0000_0000) < (2 * r + 1) * (2 * r + 1)
    ensures HIDDEN <= r < 2 * HIDDEN
  {
    OddSquares(r);
  }

  lemma OddSquares(r: nat)
    ensures r < HIDDEN ==> (2 * r + 1) * (2 * r + 1) <= (2 * HIDDEN - 1) * (2 * HIDDEN - 1)
    ensures r >= 2 * HIDDEN ==> (2 * r - 1) * (2 * r - 1) >= (4 * HIDDEN - 1) * (4 * HIDDEN - 1)
  {
    if r < HIDDEN {
      Square(2 * r + 1, 2 * HIDDEN - 1);
    } else if r >= 2 * HIDDEN {
      Square(4 * HIDDEN - 1, 2 * r - 1);
    }
  }

  // ----- The whole function -----

  lemma {:induction false} OrTop(a: nat, k: nat)
    requires a < Pow2(k + 1)
    ensures Or(a, Pow2(k)) == a % Pow2(k) + Pow2(k)
  {
    if k > 0 {
      OrTop(a / 2, k - 1);
      ModDouble(a, Pow2(k - 1));
    }
  }

  lemma LongPowers()
    ensures Pow2(52) == HIDDEN && Pow2(63) == SIGN && Pow2(64) == LONG
  {
    Pow2Values();
    Pow2Adds(32, 32);
    assert Pow2(64) == 2 * Pow2(63);
    Pow2Adds(32, 20);
    Pow2Adds(16, 4);
    assert Pow2(4) == 16;
  }

  /** How many places a subnormal's fraction is from the hidden bit. */
  function Places(f: nat): (k: nat)
    requires 0 < f < 2 * HIDDEN
    ensures HIDDEN <= f * Pow2(k) < 2 * HIDDEN
    decreases 2 * HIDDEN - f
  {
    if f >= HIDDEN then 0
    else
      var k := Places(2 * f);
      assert f * Pow2(k + 1) == 2 * f * Pow2(k);
      k + 1
  }

  lemma PlacesBounded(f: nat)
    requires 0 < f < HIDDEN
    ensures 1 <= Places(f) <= 52
  {
    LongPowers();
    var k := Places(f);
    if k > 52 {
      PowerGrows(53, k);
      assert Pow2(53) == 2 * Pow2(52);
      MulOrder(1, f, Pow2(k));
    }
  }

  lemma {:induction false} PowerGrows(j: nat, k: nat)
    requires j <= k
    ensures Pow2(j) <= Pow2(k)
  {
    if j < k { PowerGrows(j, k - 1); }
  }

  /** The bits of a positive subnormal times 2^52, a product that is exact. */
  function Rescaled(x: Long): (z: Long)
    requires 0 < x < HIDDEN
    ensures Field(z) == 53 - Places(x) && Sig(z) == x * Pow2(Places(x)) && HIDDEN <= z < INFINITY
  {
    PlacesBounded(x);
    (53 - Places(x)) * HIDDEN + (x * Pow2(Places(x)) - HIDDEN)
  }

  lemma RescaledValue(x: Long)
    requires 0 < x < HIDDEN
    ensures Sig(Rescaled(x)) * Pow2(Field(Rescaled(x))) == Sig(x) * Pow2(Exp(x) + 52)
  {
    PlacesBounded(x);
    var z, k := Rescaled(x), Places(x);
    assert Sig(z) == x * Pow2(k) && Field(z) == 53 - k;
    assert Sig(x) == x && Exp(x) == 1 by { Subnormal(x); }
    MovedPlaces(x, k, 53 - k, 53);
  }

  lemma Subnormal(x: Long)
    requires x < HIDDEN
    ensures Field(x) == 0 && Sig(x) == x && Exp(x) == 1
  {
  }

  lemma MovedPlaces(x: nat, k: nat, w: nat, s: nat)
    requires k + w == s
    ensures x * Pow2(k) * Pow2(w) == x * Pow2(s)
  {
    PowerSum(k, w, s);
    Regroup(x, Pow2(k), Pow2(w), Pow2(s), 1, x, Pow2(s));
  }

  lemma Parts(z: Long, e: nat, f: nat)
    requires z == e * HIDDEN + f && 1 <= e < 0x7ff && f < HIDDEN
    ensures Field(z) == e && Sig(z) == HIDDEN + f
    ensures z / 0x4000_0000_0000 == e * 64 + f / 0x4000_0000_0000
  {
  }

  lemma ShiftedUp(z: Long, e: nat, f: nat)
    requires z == e * HIDDEN + f && f < HIDDEN
    ensures z * 0x800 % LONG % SIGN == f * 0x800
  {
    var k := e / 2;
    assert z * 0x800 == k * LONG + (e - 2 * k) * SIGN + f * 0x800;
  }

  lemma Split(z: Long) returns (e: nat, f: nat)
    requires HIDDEN <= z < INFINITY
    ensures z == e * HIDDEN + f && 1 <= e < 0x7ff && f < HIDDEN && Field(z) == e && Sig(z) == HIDDEN + f
  {
    e, f := z / HIDDEN, z % HIDDEN;
    Parts(z, e, f);
  }

  /** Shifting the fraction up and setting the top bit gives the significand as a fixed-point number. */
  lemma TopBitSet(z: Long)
    requires HIDDEN <= z < INFINITY
    ensures Or(z * 0x800 % LONG, SIGN) == Sig(z) * 0x800
  {
    var e, f := Split(z);
    ShiftedUp(z, e, f);
    OrSign(z * 0x800 % LONG);
  }

  lemma OrSign(a: Long)
    ensures Or(a, SIGN) == a % SIGN + SIGN
  {
    LongPowers();
    OrTop(a, 63);
  }

  /** Seven bits of the double select the cell of its significand. */
  lemma IndexSelectsCell(z: Long, m: nat)
    requires HIDDEN <= z < INFINITY && m == if Field(z) % 2 == 1 then Sig(z) * 0x400 else Sig(z) * 0x800
    ensures Cell(m, z / 0x4000_0000_0000 % 128) && 0x4000_0000_0000_0000 <= m <= LONG - 0x800
  {
    var e, f := Split(z);
    Parts(z, e, f);
    var j := f / 0x4000_0000_0000;
    IndexOf(e, j);
    CellOf(e, f, j, m);
  }

  lemma IndexOf(e: nat, j: nat)
    requires j < 64
    ensures (e * 64 + j) % 128 == e % 2 * 64 + j
  {
  }

  lemma CellOf(e: nat, f: nat, j: nat, m: nat)
    requires f < HIDDEN && j == f / 0x4000_0000_0000
    requires m == if e % 2 == 1 then (HIDDEN + f) * 0x400 else (HIDDEN + f) * 0x800
    ensures Cell(m, e % 2 * 64 + j) && 0x4000_0000_0000_0000 <= m <= LONG - 0x800
  {
    assert j * 0x4000_0000_0000 <= f < (j + 1) * 0x4000_0000_0000 && j < 64;
  }

  /** Putting the exponent back; `shift` is 52 when the argument was rescaled. */
  lemma Assembled(x: Long, z: Long, shift: nat, m: nat, r: nat, top: nat, y: Long)
    requires HIDDEN <= z < INFINITY && (shift == 0 || shift == 52)
    requires Sig(z) * Pow2(Field(z)) == Sig(x) * Pow2(Exp(x) + shift)
    requires m == (if Field(z) % 2 == 1 then Sig(z) * 0x400 else Sig(z) * 0x800)
    requires top == (Field(z) - shift + 0x3ff) / 2
    requires HIDDEN <= r < 2 * HIDDEN && y == top * HIDDEN + (r - HIDDEN)
    requires (2 * r - 1) * (2 * r - 1) < 4 * (m * 0x400_0000_0000) < (2 * r + 1) * (2 * r + 1)
    ensures NearestRoot(x, y)
  {
    var e, f := Split(z);
    Parts(y, top, r - HIDDEN);
    ScaledArgument(x, z, shift, m, top);
    assert 4 * (HIDDEN * HIDDEN) <= 4 * (m * 0x400_0000_0000) by { IndexSelectsCell(z, m); }
    MulOrder(4 * (HIDDEN * HIDDEN), 4 * (m * 0x400_0000_0000), Pow2(2 * top));
    Stretch((2 * r - 1) * (2 * r - 1), 4 * (m * 0x400_0000_0000), (2 * r + 1) * (2 * r + 1), Pow2(2 * top));
  }

  lemma Stretch(a: int, b: int, c: int, p: nat)
    requires a < b < c && p > 0
    ensures a * p < b * p < c * p
  {
    MulAtLeast(b - a, p);
    MulAtLeast(c - b, p);
    assert (b - a) * p == b * p - a * p && (c - b) * p == c * p - b * p;
  }

  lemma ScaledArgument(x: Long, z: Long, shift: nat, m: nat, top: nat)
    requires HIDDEN <= z < INFINITY && (shift == 0 || shift == 52)
    requires Sig(z) * Pow2(Field(z)) == Sig(x) * Pow2(Exp(x) + shift)
    requires m == (if Field(z) % 2 == 1 then Sig(z) * 0x400 else Sig(z) * 0x800)
    requires top == (Field(z) - shift + 0x3ff) / 2
    ensures 4 * (m * 0x400_0000_0000) * Pow2(2 * top) == 4 * Sig(x) * Pow2(Exp(x) + 1075)
  {
    var e, f := Split(z);
    Rebalanced(Sig(z), e, Sig(x), Exp(x), shift, m, top);
  }

  lemma Rebalanced(n: nat, e: nat, k: nat, g: nat, shift: nat, m: nat, top: nat)
    requires 1 <= e < 0x7ff && (shift == 0 || shift == 52) && n * Pow2(e) == k * Pow2(g + shift)
    requires m == (if e % 2 == 1 then n * 0x400 else n * 0x800) && top == (e - shift + 0x3ff) / 2
    ensures 4 * (m * 0x400_0000_0000) * Pow2(2 * top) == 4 * k * Pow2(g + 1075)
  {
    var c, w := if e % 2 == 1 then 52 else 53, 1075 - shift;
    assert c + 2 * top == e + w;
    PowerSum(c, 2 * top, e + w);
    PowerSum(e, w, e + w);
    Pow2Adds(g + shift, w);
    assert g + shift + w == g + 1075;
    Regroup(n, Pow2(c), Pow2(2 * top), Pow2(e), Pow2(w), k, Pow2(g + shift));
    ShiftedArgument(n, m, e, c);
    FourTimes(m * 0x400_0000_0000, Pow2(2 * top), k, Pow2(g + shift + w));
  }

  lemma PowerSum(a: nat, b: nat, c: nat)
    requires a + b == c
    ensures Pow2(a) * Pow2(b) == Pow2(c)
  {
    Pow2Adds(a, b);
  }

  lemma ShiftedArgument(n: nat, m: nat, e: nat, c: nat)
    requires m == (if e % 2 == 1 then n * 0x400 else n * 0x800) && c == if e % 2 == 1 then 52 else 53
    ensures m * 0x400_0000_0000 == n * Pow2(c)
  {
    LongPowers();
    assert Pow2(53) == 2 * Pow2(52);
  }

  lemma FourTimes(a: int, p: int, k: int, q: int)
    requires a * p == k * q
    ensures 4 * a * p == 4 * k * q
  {
    assert 4 * a * p == 4 * (a * p) && 4 * k * q == 4 * (k * q);
  }

  lemma Regroup(n: int, pc: int, pt: int, pe: int, ps: int, k: int, px: int)
    requires pc * pt == pe * ps && n * pe == k * px
    ensures n * pc * pt == k * (px * ps)
  {
    assert n * pc * pt == n * (pc * pt);
    assert n * (pe * ps) == n * pe * ps;
    assert k * px * ps == k * (px * ps);
  }

  /** The part after the special cases: `z` is `x`, or `x` rescaled. */
  method NormalRoot(z: Long, top: nat, ghost x: Long, ghost shift: nat) returns (y: Long)
    requires HIDDEN <= z < INFINITY && (shift == 0 || shift == 52) && top == (Field(z) - shift) % LONG
    requires Sig(z) * Pow2(Field(z)) == Sig(x) * Pow2(Exp(x) + shift)
    ensures NearestRoot(x, y)
  {
    TopBitSet(z);
    var m := Or(z * 0x800 % LONG, SIGN);
    if top % 2 == 1 { m := m / 2; }
    var half := (top + 0x3ff) % LONG / 2;
    Wraps(z, shift, top);
    var i := z / 0x4000_0000_0000 % 128;
    IndexSelectsCell(z, m);
    var s := Approximate(m, i);
    var r := RoundNearest(m, s);
    PutTogether(half, r);
    y := Or(half * HIDDEN, And(r, HIDDEN - 1));
    Assembled(x, z, shift, m, r, half, y);
  }

  lemma Wraps(z: Long, shift: nat, top: nat)
    requires HIDDEN <= z < INFINITY && (shift == 0 || shift == 52) && top == (Field(z) - shift) % LONG
    ensures top % 2 == Field(z) % 2 && (top + 0x3ff) % LONG / 2 == (Field(z) - shift + 0x3ff) / 2
    ensures 0 < (Field(z) - shift + 0x3ff) / 2 < 0x7ff
  {
    var e, f := Split(z);
  }

  lemma PutTogether(top: nat, r: nat)
    requires HIDDEN <= r < 2 * HIDDEN && 0 < top < 0x7ff
    ensures Or(top * HIDDEN, And(r, HIDDEN - 1)) == top * HIDDEN + (r - HIDDEN)
    ensures 0 <= top * HIDDEN + (r - HIDDEN) < LONG
  {
    LowBits(r);
    HighBits(top, r - HIDDEN);
  }

  lemma LowBits(r: nat)
    requires HIDDEN <= r < 2 * HIDDEN
    ensures And(r, HIDDEN - 1) == r - HIDDEN
  {
    LongPowers();
    AndMask(r, 52);
  }

  lemma HighBits(top: nat, f: nat)
    requires f < HIDDEN
    ensures Or(top * HIDDEN, f) == top * HIDDEN + f
  {
    LongPowers();
    OrDisjoint(top, 52, f);
  }

  /**
    * The correctly rounded root of every positive finite double; zeros and positive infinity are their own roots,
    * and every negative number or NaN gives NaN (`None`).
    */
  method Sqrt(x: Long) returns (y: Option<Long>)
    ensures x % SIGN == 0 || x == INFINITY ==> y == Some(x)
    ensures x > INFINITY && x != SIGN ==> y == None
    ensures 0 < x < INFINITY ==> y.Some? && NearestRoot(x, y.value)
  {
    Classified(x);
    var top := x / HIDDEN;
    if (top - 1) % LONG >= 0x7ff - 1 {
      if x * 2 % LONG == 0 { return Some(x); }
      if x == INFINITY { return Some(x); }
      if x > INFINITY { return None; }
      var ix := Rescaled(x);
      RescaledValue(x);
      FieldOf(ix);
      var root := NormalRoot(ix, (ix / HIDDEN - 52) % LONG, x, 52);
      y := Some(root);
    } else {
      FieldOf(x);
      var root := NormalRoot(x, top, x, 0);
      y := Some(root);
    }
  }

  lemma Classified(x: Long)
    ensures (x / HIDDEN - 1) % LONG >= 0x7ff - 1 <==> x < HIDDEN || x >= INFINITY
    ensures x * 2 % LONG == 0 <==> x % SIGN == 0
  {
  }

  lemma FieldOf(z: Long)
    requires HIDDEN <= z < INFINITY
    ensures Field(z) == z / HIDDEN == Exp(z) && z / HIDDEN % LONG == z / HIDDEN
  {
    var e, f := Split(z);
  }

  // ----- What a nearest root is -----

  /** There is only one. */
  lemma OneNearest(x: Long, y: Long, z: Long)
    requires NearestRoot(x, y) && NearestRoot(x, z)
    ensures y == z
  {
    var ey, fy := Split(y);
    var ez, fz := Split(z);
    var t := 4 * Sig(x) * Pow2(Exp(x) + 1075);
    if ey == ez {
      SameBinade(Sig(y), Sig(z), Pow2(2 * ey), t);
      SameBinade(Sig(z), Sig(y), Pow2(2 * ey), t);
    } else if ey < ez {
      NotBoth(ey, ez, Sig(y), Sig(z), t);
    } else {
      NotBoth(ez, ey, Sig(z), Sig(y), t);
    }
  }

  /** No number in a lower binade is nearest when one in a higher binade is. */
  lemma NotBoth(e: nat, g: nat, r: nat, q: nat, t: nat)
    requires e < g && r < 2 * HIDDEN && HIDDEN <= q && t < (2 * r + 1) * (2 * r + 1) * Pow2(2 * e)
    ensures !((2 * q - 1) * (2 * q - 1) * Pow2(2 * g) < t && (q == HIDDEN ==> 4 * (HIDDEN * HIDDEN) * Pow2(2 * g) <= t))
  {
    LowerBinade(e, r, t);
    if (2 * q - 1) * (2 * q - 1) * Pow2(2 * g) < t && (q == HIDDEN ==> 4 * (HIDDEN * HIDDEN) * Pow2(2 * g) <= t) {
      HigherBinade(e, g, q, t);
    }
  }

  lemma SameBinade(r: nat, q: nat, p: nat, t: nat)
    requires r >= 1 && (2 * r - 1) * (2 * r - 1) * p < t < (2 * q + 1) * (2 * q + 1) * p
    ensures r <= q
  {
    if r > q {
      Square(2 * q + 1, 2 * r - 1);
      MulOrder((2 * q + 1) * (2 * q + 1), (2 * r - 1) * (2 * r - 1), p);
    }
  }

  /** A number in a lower binade is nearest only to roots below that binade's end. */
  lemma LowerBinade(e: nat, r: nat, t: nat)
    requires r < 2 * HIDDEN && t < (2 * r + 1) * (2 * r + 1) * Pow2(2 * e)
    ensures t < (4 * HIDDEN - 1) * (4 * HIDDEN - 1) * Pow2(2 * e)
  {
    Square(2 * r + 1, 4 * HIDDEN - 1);
    MulOrder((2 * r + 1) * (2 * r + 1), (4 * HIDDEN - 1) * (4 * HIDDEN - 1), Pow2(2 * e));
  }

  lemma HigherBinade(e: nat, g: nat, q: nat, t: nat)
    requires e < g && HIDDEN <= q
    requires q == HIDDEN ==> 4 * (HIDDEN * HIDDEN) * Pow2(2 * g) <= t
    requires (2 * q - 1) * (2 * q - 1) * Pow2(2 * g) < t
    ensures 16 * (HIDDEN * HIDDEN) * Pow2(2 * e) <= t
  {
    var w := Pow2(2 * g);
    assert 4 * (HIDDEN * HIDDEN) * w <= t by {
      if q > HIDDEN {
        Square(2 * HIDDEN, 2 * q - 1);
        MulOrder(4 * (HIDDEN * HIDDEN), (2 * q - 1) * (2 * q - 1), w);
      }
    }
    FourfoldPower(e, g);
  }

  lemma FourfoldPower(e: nat, g: nat)
    requires e < g
    ensures 4 * Pow2(2 * e) <= Pow2(2 * g)
  {
    PowerGrows(2 * e + 2, 2 * g);
    assert Pow2(2 * e + 2) == 2 * Pow2(2 * e + 1);
  }

  /** The root of a square is found exactly, and by the uniqueness above nothing else is. */
  lemma SquareHasRoot(x: Long, y: Long)
    requires HIDDEN <= y < INFINITY && Sig(x) * Pow2(Exp(x) + 1075) == Sig(y) * Sig(y) * Pow2(2 * Exp(y))
    ensures NearestRoot(x, y)
  {
    var e, f := Split(y);
    var r, p := Sig(y), Pow2(2 * Exp(y));
    assert (2 * r - 1) * (2 * r - 1) == 4 * (r * r) - 4 * r + 1;
    assert (2 * r + 1) * (2 * r + 1) == 4 * (r * r) + 4 * r + 1;
    Stretch((2 * r - 1) * (2 * r - 1), 4 * (r * r), (2 * r + 1) * (2 * r + 1), p);
    FourTimes(r * r, p, Sig(x), Pow2(Exp(x) + 1075));
  }
}
