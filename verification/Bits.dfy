/** Bit operations on unsigned words, and the software count of leading zeros. */
module Bits {
  type Byte = b: int | 0 <= b < 0x100
  type Unit = u: int | 0 <= u < 0x1_0000
  type Word = w: int | 0 <= w < 0x1_0000_0000
  type Int32 = i: int | -0x8000_0000 <= i < 0x8000_0000

  const WORD := 0x1_0000_0000

  function Pow2(k: nat): (p: nat)
    ensures p > 0
  {
    if k == 0 then 1 else 2 * Pow2(k - 1)
  }

  function And(a: nat, b: nat): nat {
    if a == 0 || b == 0 then 0 else (if a % 2 == 1 && b % 2 == 1 then 1 else 0) + 2 * And(a / 2, b / 2)
  }

  function Or(a: nat, b: nat): nat {
    if a == 0 then b else if b == 0 then a
    else (if a % 2 + b % 2 > 0 then 1 else 0) + 2 * Or(a / 2, b / 2)
  }

  /** Reading a signed word as an unsigned one, and the negation of a signed word. */
  function AsWord(i: Int32): Word { if i < 0 then i + WORD else i }
  function Negate(i: Int32): Int32 { if i == -0x8000_0000 then i else -i }

  /** The `k`-th binary digit. */
  function Bit(a: nat, k: nat): (d: nat)
    ensures d < 2
  {
    if k == 0 then a % 2 else Bit(a / 2, k - 1)
  }

  lemma {:induction false} BitIs(a: nat, k: nat)
    ensures Bit(a, k) == a / Pow2(k) % 2
    decreases k
  {
    if k > 0 {
      BitIs(a / 2, k - 1);
      HalfFirst(a, k);
    }
  }

  lemma {:induction false} AndBit(a: nat, b: nat, k: nat)
    ensures Bit(And(a, b), k) == 1 <==> Bit(a, k) == 1 && Bit(b, k) == 1
    decreases k
  {
    AndHalves(a, b);
    if k > 0 { AndBit(a / 2, b / 2, k - 1); }
  }

  lemma {:induction false} OrBit(a: nat, b: nat, k: nat)
    ensures Bit(Or(a, b), k) == 1 <==> Bit(a, k) == 1 || Bit(b, k) == 1
    decreases k
  {
    OrHalves(a, b);
    if k > 0 { OrBit(a / 2, b / 2, k - 1); }
  }

  lemma AndHalves(a: nat, b: nat)
    ensures And(a, b) / 2 == And(a / 2, b / 2) && (And(a, b) % 2 == 1 <==> a % 2 == 1 && b % 2 == 1)
  {
  }

  lemma OrHalves(a: nat, b: nat)
    ensures Or(a, b) / 2 == Or(a / 2, b / 2) && Or(a, b) % 2 == if a % 2 + b % 2 > 0 then 1 else 0
  {
  }

  lemma HalfFirst(a: nat, k: nat)
    requires k > 0
    ensures a / Pow2(k) == a / 2 / Pow2(k - 1)
  {
    var p := Pow2(k - 1);
    var q, r := a / 2 / p, a / 2 % p;
    assert a / 2 == q * p + r && q * (2 * p) == 2 * (q * p);
    DivModUnique(a, 2 * p, q, 2 * r + a % 2);
  }

  // ----- Shifts and masks are division and remainder -----

  lemma {:induction false} AndMask(a: nat, k: nat)
    ensures And(a, Pow2(k) - 1) == a % Pow2(k)
  {
    if k > 0 {
      AndMask(a / 2, k - 1);
      AndOdd(a, Pow2(k - 1));
      ModDouble(a, Pow2(k - 1));
    }
  }

  lemma AndOdd(a: nat, p: nat)
    requires p > 0
    ensures And(a, 2 * p - 1) == a % 2 + 2 * And(a / 2, p - 1)
  {
    assert (2 * p - 1) / 2 == p - 1 && (2 * p - 1) % 2 == 1;
  }

  lemma ModDouble(a: nat, p: nat)
    requires p > 0
    ensures a % (2 * p) == a % 2 + 2 * (a / 2 % p)
  {
    var q, r := a / 2 / p, a / 2 % p;
    assert a / 2 == q * p + r;
    assert q * (2 * p) == 2 * (q * p);
    DivModUnique(a, 2 * p, q, 2 * r + a % 2);
  }

  lemma DivModUnique(a: int, m: nat, q: int, r: nat)
    requires 0 <= r < m && a == q * m + r
    ensures a / m == q && a % m == r
  {
    var d := a / m - q;
    assert d * m == (a / m) * m - q * m == r - a % m;
    MulAtLeast(d, m);
  }

  lemma MulAtLeast(d: int, m: nat)
    ensures d > 0 ==> d * m >= m
    ensures d < 0 ==> d * m <= 0 - m
  {
  }

  lemma MulOrder(a: int, b: int, m: nat)
    requires a <= b
    ensures a * m <= b * m
  {
  }

  lemma {:induction false} OrDisjoint(a: nat, k: nat, b: nat)
    requires b < Pow2(k)
    ensures Or(a * Pow2(k), b) == a * Pow2(k) + b
  {
    if k > 0 {
      OrDisjoint(a, k - 1, b / 2);
      Twice(a, Pow2(k - 1));
      OrDouble(a * Pow2(k - 1), b);
    }
  }

  lemma Twice(a: nat, p: nat)
    ensures a * (2 * p) == 2 * (a * p)
  {
  }

  lemma OrDouble(m: nat, b: nat)
    ensures Or(2 * m, b) == b % 2 + 2 * Or(m, b / 2)
  {
    OrHalves(2 * m, b);
  }

  lemma {:induction false} AndSelf(r: nat)
    ensures And(r, r) == r
  {
    if r > 0 { AndSelf(r / 2); }
  }

  /** `r & (r - 1) == 0` is the test for a power of two. */
  lemma {:induction false} PowerOfTwoTest(r: nat) returns (k: nat)
    requires r > 0
    ensures And(r, r - 1) == 0 <==> r == Pow2(k)
    ensures forall j :: r == Pow2(j) ==> And(r, r - 1) == 0
  {
    if r == 1 {
      k := 0;
    } else if r % 2 == 0 {
      k := PowerOfTwoTest(r / 2);
      assert (r - 1) / 2 == r / 2 - 1;
      forall j: nat | r == Pow2(j) ensures And(r, r - 1) == 0 {
        if j > 0 { assert r / 2 == Pow2(j - 1); }
      }
      k := k + 1;
    } else {
      AndSelf(r / 2);
      k := 0;
    }
  }

  // ----- moonbit_clz32 -----

  const CLZ4: seq<nat> := [4, 3, 2, 2, 1, 1, 1, 1, 0, 0, 0, 0, 0, 0, 0, 0]

  function Clz32(x: Word): nat {
    var x1, r1 := if x > 0xffff then x / 0x1_0000 else x, if x > 0xffff then 0 else 16;
    var x2, r2 := if x1 > 0xff then x1 / 0x100 else x1, if x1 > 0xff then r1 else r1 + 8;
    var x3, r3 := if x2 > 0xf then x2 / 0x10 else x2, if x2 > 0xf then r2 else r2 + 4;
    r3 + CLZ4[x3]
  }

  lemma Pow2Values()
    ensures Pow2(4) == 0x10 && Pow2(8) == 0x100 && Pow2(16) == 0x1_0000 && Pow2(32) == WORD
  {
    Pow2Adds(16, 16);
  }

  lemma {:induction false} Pow2Adds(j: nat, k: nat)
    ensures Pow2(j + k) == Pow2(j) * Pow2(k)
  {
    if k > 0 {
      Pow2Adds(j, k - 1);
      assert Pow2(j + k) == 2 * Pow2(j + k - 1);
    }
  }

  /** The binary search and the table find the highest bit that is set. */
  lemma ClzFindsTopBit(x: Word)
    requires x > 0
    ensures Clz32(x) < 32 && Pow2(31 - Clz32(x)) <= x < Pow2(32 - Clz32(x))
  {
    var (k, p) := TopNibble(x);
    TopNibbleWeight(x);
    ClzOfTopNibble(x);
    ScaleTopBit(x, k, p, 3 - CLZ4[x / p]);
  }

  lemma ClzOfZero()
    ensures Clz32(0) == 32
  {
  }

  lemma ScaleTopBit(x: Word, k: nat, p: nat, j: nat)
    requires p == Pow2(4 * k) && 1 <= x / p < 16 && j == 3 - CLZ4[x / p]
    ensures Pow2(j + 4 * k) <= x < Pow2(j + 4 * k + 1)
  {
    NibbleTopBit(x / p);
    Pow2Adds(j, 4 * k);
    Pow2Adds(j + 1, 4 * k);
    assert j + 1 + 4 * k == j + 4 * k + 1;
    Between(Pow2(j), Pow2(j + 1), x, p);
  }

  lemma NibbleTopBit(y: nat)
    requires 1 <= y < 16
    ensures CLZ4[y] < 4 && Pow2(3 - CLZ4[y]) <= y < Pow2(4 - CLZ4[y])
  {
    assert Pow2(1) == 2 && Pow2(2) == 4 && Pow2(3) == 8 && Pow2(4) == 16;
  }

  lemma Between(lo: nat, hi: nat, x: nat, p: nat)
    requires p > 0 && lo <= x / p < hi
    ensures lo * p <= x < hi * p
  {
    MulOrder(lo, x / p, p);
    MulOrder(x / p + 1, hi, p);
  }

  lemma NestedShifts(x: nat)
    ensures x / 0x1_0000 / 0x100 == x / 0x100_0000 && x / 0x1_0000 / 0x100 / 0x10 == x / 0x1000_0000
    ensures x / 0x1_0000 / 0x10 == x / 0x10_0000 && x / 0x100 / 0x10 == x / 0x1000
  {
  }

  /** The position of the highest nibble that is not zero, and the weight of that position. */
  function TopNibble(x: Word): (nat, nat) {
    if x < 0x10 then (0, 1) else if x < 0x100 then (1, 0x10)
    else if x < 0x1000 then (2, 0x100) else if x < 0x1_0000 then (3, 0x1000)
    else if x < 0x10_0000 then (4, 0x1_0000) else if x < 0x100_0000 then (5, 0x10_0000)
    else if x < 0x1000_0000 then (6, 0x100_0000) else (7, 0x1000_0000)
  }

  lemma TopNibbleWeight(x: Word)
    requires x > 0
    ensures var (k, p) := TopNibble(x); k < 8 && p == Pow2(4 * k) && 1 <= x / p < 16
  {
    assert Pow2(0) == 1 && Pow2(4) == 0x10 && Pow2(8) == 0x100 && Pow2(12) == 0x1000;
    assert Pow2(16) == 0x1_0000 && Pow2(20) == 0x10_0000 && Pow2(24) == 0x100_0000 && Pow2(28) == 0x1000_0000;
  }

  lemma ClzOfTopNibble(x: Word)
    requires x > 0
    ensures var (k, p) := TopNibble(x); x / p < 16 && Clz32(x) == 28 - 4 * k + CLZ4[x / p]
  {
    if x > 0xffff { ClzOfHighHalf(x); } else { ClzOfLowHalf(x); }
  }

  lemma ClzOfHighHalf(x: Word)
    requires x > 0xffff
    ensures var (k, p) := TopNibble(x); x / p < 16 && Clz32(x) == 28 - 4 * k + CLZ4[x / p]
  {
    NestedShifts(x);
  }

  lemma ClzOfLowHalf(x: Word)
    requires 0 < x <= 0xffff
    ensures var (k, p) := TopNibble(x); x / p < 16 && Clz32(x) == 28 - 4 * k + CLZ4[x / p]
  {
    NestedShifts(x);
  }

  // ----- moonbit_ctz32 -----

  /** The built-in count of trailing zeros. */
  function Ctz32(x: Word): nat
    requires x > 0
  {
    if x % 2 == 1 then 0 else 1 + Ctz32(x / 2)
  }

  lemma {:induction false} CtzOfPowerOfTwo(x: Word, k: nat)
    requires x > 0 && x == Pow2(k)
    ensures Ctz32(x) == k
  {
    if k > 0 { CtzOfPowerOfTwo(x / 2, k - 1); }
  }

  const DE_BRUIJN := 0x077c_b531

  function Index32(i: nat): nat
    requires i < 32
  {
    if i == 0 then 0 else if i == 1 then 1 else if i == 2 then 28 else if i == 3 then 2 else if i == 4 then 29 else
    if i == 5 then 14 else if i == 6 then 24 else if i == 7 then 3 else if i == 8 then 30 else if i == 9 then 22 else
    if i == 10 then 20 else if i == 11 then 15 else if i == 12 then 25 else if i == 13 then 17 else
    if i == 14 then 4 else if i == 15 then 8 else if i == 16 then 31 else if i == 17 then 27 else
    if i == 18 then 13 else if i == 19 then 23 else if i == 20 then 21 else if i == 21 then 19 else
    if i == 22 then 16 else if i == 23 then 7 else if i == 24 then 26 else if i == 25 then 12 else
    if i == 26 then 18 else if i == 27 then 6 else if i == 28 then 11 else if i == 29 then 5 else
    if i == 30 then 10 else 9
  }

  /** The software count: the lowest bit times a de Bruijn sequence selects a table entry. */
  function SoftwareCtz32(x: Word): nat {
    (if x == 0 then 32 else 0) + Index32(DE_BRUIJN * And(x, (WORD - x) % WORD) % WORD / 0x800_0000)
  }

  lemma {:induction false} AndComplement(y: nat, m: nat)
    requires y < Pow2(m)
    ensures And(y, Pow2(m) - 1 - y) == 0
  {
    if m > 0 {
      AndComplement(y / 2, m - 1);
      assert (Pow2(m) - 1 - y) / 2 == Pow2(m - 1) - 1 - y / 2;
    }
  }

  /** `x & -x` keeps the lowest bit only. */
  lemma {:induction false} LowestBit(x: Word, n: nat)
    requires 0 < x < Pow2(n)
    ensures And(x, Pow2(n) - x) == Pow2(Ctz32(x)) && Ctz32(x) < n
  {
    if x % 2 == 0 {
      LowestBit(x / 2, n - 1);
      assert (Pow2(n) - x) / 2 == Pow2(n - 1) - x / 2;
    } else {
      AndComplement(x / 2, n - 1);
      assert (Pow2(n) - x) / 2 == Pow2(n - 1) - 1 - x / 2;
    }
  }

  /** The sequence shifted by `k` places. */
  function Shifted(k: nat): nat
    requires k < 32
  {
    if k == 0 then 0x077c_b531 else if k == 1 then 0x0ef9_6a62 else if k == 2 then 0x1df2_d4c4 else
    if k == 3 then 0x3be5_a988 else if k == 4 then 0x77cb_5310 else if k == 5 then 0xef96_a620 else
    if k == 6 then 0xdf2d_4c40 else if k == 7 then 0xbe5a_9880 else if k == 8 then 0x7cb5_3100 else
    if k == 9 then 0xf96a_6200 else if k == 10 then 0xf2d4_c400 else if k == 11 then 0xe5a9_8800 else
    if k == 12 then 0xcb53_1000 else if k == 13 then 0x96a6_2000 else if k == 14 then 0x2d4c_4000 else
    if k == 15 then 0x5a98_8000 else if k == 16 then 0xb531_0000 else if k == 17 then 0x6a62_0000 else
    if k == 18 then 0xd4c4_0000 else if k == 19 then 0xa988_0000 else if k == 20 then 0x5310_0000 else
    if k == 21 then 0xa620_0000 else if k == 22 then 0x4c40_0000 else if k == 23 then 0x9880_0000 else
    if k == 24 then 0x3100_0000 else if k == 25 then 0x6200_0000 else if k == 26 then 0xc400_0000 else
    if k == 27 then 0x8800_0000 else if k == 28 then 0x1000_0000 else if k == 29 then 0x2000_0000 else
    if k == 30 then 0x4000_0000 else 0x8000_0000
  }

  lemma ShiftStep(k: nat)
    requires k < 31
    ensures Shifted(k + 1) == 2 * Shifted(k) % WORD
  {
  }

  lemma IndexOfShifted(k: nat)
    requires k < 32
    ensures 0 <= Shifted(k) / 0x800_0000 < 32 && Index32(Shifted(k) / 0x800_0000) == k
  {
  }

  lemma {:induction false} ShiftedIs(k: nat)
    requires k < 32
    ensures DE_BRUIJN * Pow2(k) % WORD == Shifted(k)
  {
    if k > 0 {
      ShiftedIs(k - 1);
      ShiftStep(k - 1);
      Twice(DE_BRUIJN, Pow2(k - 1));
      DoubleModulo(DE_BRUIJN * Pow2(k - 1));
    }
  }

  lemma DoubleModulo(a: nat)
    ensures 2 * a % WORD == 2 * (a % WORD) % WORD
  {
    var r := a % WORD;
    var c := if 2 * r >= WORD then 1 else 0;
    DivModUnique(2 * a, WORD, 2 * (a / WORD) + c, 2 * r - c * WORD);
    DivModUnique(2 * r, WORD, c, 2 * r - c * WORD);
  }

  lemma FromLowestBit(x: Word, k: nat)
    requires x > 0 && k < 32 && And(x, (WORD - x) % WORD) == Pow2(k)
    ensures SoftwareCtz32(x) == k
  {
    ShiftedIs(k);
    IndexOfShifted(k);
  }

  lemma OwnLowestBit(x: Word)
    requires x > 0
    ensures And(x, (WORD - x) % WORD) == Pow2(Ctz32(x)) && Ctz32(x) < 32
  {
    Pow2Values();
    LowestBit(x, 32);
    Complement(x);
  }

  lemma Complement(x: Word)
    requires x > 0
    ensures (WORD - x) % WORD == WORD - x
  {
  }

  /** The software count agrees with the built-in one, and is 32 for zero. */
  lemma SoftwareCtzAgrees(x: Word)
    ensures SoftwareCtz32(x) == if x == 0 then 32 else Ctz32(x)
  {
    if x > 0 {
      OwnLowestBit(x);
      FromLowestBit(x, Ctz32(x));
    } else {
      assert And(0, 0) == 0;
    }
  }
}
