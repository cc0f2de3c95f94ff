/** Printing a 32-bit integer in any radix, and reading decimal text back. */
module IntText {
  import opened Wrappers
  import opened Bits

  // ----- What the text is -----

  /** The digits of a number, most significant first; zero has none. */
  function Digits(n: nat, r: nat): (ds: seq<nat>)
    requires r >= 2
    ensures forall i | 0 <= i < |ds| :: ds[i] < r
  {
    if n == 0 then [] else Digits(n / r, r) + [n % r]
  }

  /** The characters 0-9 and a-z. */
  function DigitChar(d: nat): Byte
    requires d < 36
  {
    if d < 10 then 48 + d else 87 + d
  }

  function Chars(ds: seq<nat>): (s: seq<Byte>)
    requires forall i | 0 <= i < |ds| :: ds[i] < 36
    ensures |s| == |ds| && forall i | 0 <= i < |s| :: s[i] == DigitChar(ds[i])
  {
    seq(|ds|, i requires 0 <= i < |ds| => DigitChar(ds[i]))
  }

  const MINUS: Byte := 45

  function Magnitude(x: Int32): nat { if x < 0 then 0 - x else x }

  function Sign(x: Int32): seq<Byte> { if x < 0 then [MINUS] else [] }

  function Text(x: Int32, r: nat): seq<Byte>
    requires 2 <= r <= 36
  {
    if x == 0 then [48] else Sign(x) + Chars(Digits(Magnitude(x), r))
  }

  // ----- The text denotes the number -----

  function DigitValue(c: Byte): nat { if c < 58 then (if c < 48 then 0 else c - 48) else if c < 87 then 0 else c - 87 }

  function Value(s: seq<Byte>, r: nat): nat {
    if s == [] then 0 else Value(s[..|s| - 1], r) * r + DigitValue(s[|s| - 1])
  }

  function Denoted(s: seq<Byte>, r: nat): int {
    if s != [] && s[0] == MINUS then 0 - Value(s[1..], r) else Value(s, r)
  }

  lemma DivStep(n: nat, r: nat)
    requires r >= 2 && n > 0
    ensures 0 <= n / r < n && n == n / r * r + n % r && (n < r ==> n / r == 0 && n % r == n) && (n >= r ==> n / r > 0)
  {
    var q := n / r;
    assert n == q * r + n % r;
    if n < r { DivModUnique(n, r, 0, n); }
    MulAtLeast(q, r);
    MulOrder(2, r, q);
    assert r * q == q * r;
  }

  lemma {:induction false} CharsHaveValue(n: nat, r: nat)
    requires 2 <= r <= 36
    ensures Value(Chars(Digits(n, r)), r) == n
  {
    if n > 0 {
      DivStep(n, r);
      CharsHaveValue(n / r, r);
      LastDigit(Digits(n / r, r), n % r, r);
    }
  }

  lemma LastDigit(ds: seq<nat>, d: nat, r: nat)
    requires d < 36 && forall i | 0 <= i < |ds| :: ds[i] < 36
    ensures forall i | 0 <= i < |ds + [d]| :: (ds + [d])[i] < 36
    ensures Value(Chars(ds + [d]), r) == Value(Chars(ds), r) * r + d
  {
    var s := Chars(ds + [d]);
    assert s[..|s| - 1] == Chars(ds);
  }

  lemma {:induction false} FirstDigit(n: nat, r: nat)
    requires 2 <= r && n > 0
    ensures Digits(n, r) != [] && Digits(n, r)[0] > 0
    decreases n
  {
    DivStep(n, r);
    if n >= r {
      FirstDigit(n / r, r);
      assert Digits(n, r)[0] == Digits(n / r, r)[0];
    }
  }

  /**
    * The printed text denotes the printed number; it starts with a minus exactly for negative numbers, what follows
    * are digits of the radix, 0-9 and a-z, and the first of them is a zero only when it stands alone.
    */
  lemma TextDenotes(x: Int32, r: nat)
    requires 2 <= r <= 36
    ensures Denoted(Text(x, r), r) == x
    ensures var t, first := Text(x, r), if x < 0 then 1 else 0;
      && |t| > first && (t[0] == 45 <==> x < 0) && (t[first] == 48 ==> t == [48])
      && forall i | first <= i < |t| :: (48 <= t[i] < 58 && t[i] < 48 + r) || 97 <= t[i] < 87 + r
  {
    if x == 0 {
      assert Text(0, r) == [48] && Text(0, r)[..0] == [];
      assert Value([], r) == 0;
    } else {
      var s := Chars(Digits(Magnitude(x), r));
      CharsHaveValue(Magnitude(x), r);
      FirstDigit(Magnitude(x), r);
      assert s[0] == DigitChar(Digits(Magnitude(x), r)[0]) && s[0] != MINUS && s[0] != 48;
      if x < 0 { assert Text(x, r)[1..] == s; } else { assert Text(x, r) == s; }
    }
  }

  lemma {:induction false} PositionalValue(s: seq<Byte>, c: Byte, r: nat)
    ensures Value([], r) == 0 && Value(s + [c], r) == Value(s, r) * r + DigitValue(c)
    ensures 48 <= c < 58 ==> DigitValue(c) == c - 48
    ensures 97 <= c < 123 ==> DigitValue(c) == c - 97 + 10
  {
    assert (s + [c])[..|s|] == s;
  }

  // ----- Predicted lengths -----

  method RadixCount32(value: Word, radix: nat) returns (count: nat)
    requires 2 <= radix <= 36
    ensures count == if value == 0 then 1 else |Digits(value, radix)|
  {
    if value == 0 {
      return 1;
    }
    var num := value;
    count := 0;
    while num > 0
      invariant num >= 0 && count + |Digits(num, radix)| == |Digits(value, radix)|
    {
      DivStep(num, radix);
      num := num / radix;
      count := count + 1;
    }
  }

  function HexCount32(value: Word): nat {
    if value == 0 then 1
    else (31 - Clz32(value)) / 4 + 1
  }

  function DecCount32(value: Word): nat {
    if value >= 100000 then
      if value >= 10000000 then
        if value >= 1000000000 then 10 else if value >= 100000000 then 9 else 8
      else if value >= 1000000 then 7 else 6
    else if value >= 1000 then
      if value >= 10000 then 5 else 4
    else if value >= 100 then 3
    else if value >= 10 then 2 else 1
  }

  lemma {:induction false} DecCountExact(n: Word)
    requires n > 0
    ensures DecCount32(n) == |Digits(n, 10)|
  {
    if n >= 10 { DecCountExact(n / 10); }
  }

  lemma {:induction false} HexDigitsOfBits(n: nat, b: nat)
    requires Pow2(b) <= n < Pow2(b + 1)
    ensures |Digits(n, 16)| == b / 4 + 1
    decreases b
  {
    if b < 4 {
      assert Pow2(1) == 2 && Pow2(2) == 4 && Pow2(3) == 8 && Pow2(4) == 16;
      assert n / 16 == 0;
    } else {
      assert Pow2(b) == 2 * Pow2(b - 1) == 4 * Pow2(b - 2) == 8 * Pow2(b - 3) == 16 * Pow2(b - 4);
      HexDigitsOfBits(n / 16, b - 4);
    }
  }

  lemma HexCountExact(n: Word)
    requires n > 0
    ensures HexCount32(n) == |Digits(n, 16)|
  {
    ClzFindsTopBit(n);
    HexDigitsOfBits(n, 31 - Clz32(n));
  }

  // ----- Filling the buffer -----

  /** The cells from `start + offset` on hold the last digits of `ds`; the cells outside
      [start, start + |ds|) are as before. */
  ghost predicate Filled(now: seq<Unit>, before: seq<Unit>, ds: seq<nat>, start: nat, offset: int) {
    && (forall i | 0 <= i < |ds| :: ds[i] < 36)
    && 0 <= offset <= |ds| && start + |ds| <= |now| == |before|
    && (forall j | 0 <= j < start || start + |ds| <= j < |now| :: now[j] == before[j])
    && (forall j | start + offset <= j < start + |ds| :: now[j] == DigitChar(ds[j - start]))
  }

  /** Writing the digits just before `offset`. */
  lemma FilledStep(now: seq<Unit>, next: seq<Unit>, before: seq<Unit>, ds: seq<nat>, start: nat, offset: int, k: nat)
    requires Filled(now, before, ds, start, offset) && k <= offset && |next| == |now|
    requires forall j | 0 <= j < start + offset - k || start + offset <= j < |now| :: next[j] == now[j]
    requires forall j | start + offset - k <= j < start + offset :: next[j] == DigitChar(ds[j - start])
    ensures Filled(next, before, ds, start, offset - k)
  {
  }

  lemma FilledBuffer(now: seq<Unit>, before: seq<Unit>, ds: seq<nat>, start: nat)
    requires Filled(now, before, ds, start, 0)
    ensures now == before[..start] + Chars(ds) + before[start + |ds|..]
  {
  }

  /** Taking the last digits off what is left: those of `n` are the digits before `offset`. */
  lemma Peel(n: nat, m: nat, r: nat, ds: seq<nat>, offset: int, tail: seq<nat>)
    requires r >= 2 && 0 <= offset <= |ds| && ds[..offset] == Digits(n, r)
    requires Digits(n, r) == Digits(m, r) + tail
    ensures |tail| <= offset && ds[..offset - |tail|] == Digits(m, r)
    ensures forall j | offset - |tail| <= j < offset :: ds[j] == tail[j - (offset - |tail|)]
  {
    var k := |tail|;
    assert |ds[..offset]| == |Digits(m, r)| + k;
    assert ds[..offset - k] == ds[..offset][..offset - k];
    forall j | offset - k <= j < offset ensures ds[j] == tail[j - (offset - k)] {
      assert ds[j] == ds[..offset][j];
    }
  }

  lemma OneDigit(n: nat, r: nat)
    requires r >= 2 && n > 0
    ensures Digits(n, r) == Digits(n / r, r) + [n % r]
  {
  }

  lemma TwoDigits(n: nat, r: nat)
    requires r >= 2 && n >= r
    ensures Digits(n, r) == Digits(n / r / r, r) + [n / r % r, n % r]
  {
    DivStep(n, r);
  }

  lemma DecimalParts(n: nat)
    ensures n / 10 / 10 == n / 100 && n / 100 / 10 / 10 == n / 10000
    ensures var q := n % 10000;
            && q / 100 / 10 == n / 100 / 10 % 10 && q / 100 % 10 == n / 100 % 10
            && q % 100 / 10 == n / 10 % 10 && q % 100 % 10 == n % 10
    ensures n % 100 / 10 == n / 10 % 10 && n % 100 % 10 == n % 10
  {
  }

  lemma FourDecimals(n: nat)
    requires n >= 10000
    ensures var d1, d2 := n % 10000 / 100, n % 10000 % 100;
            Digits(n, 10) == Digits(n / 10000, 10) + [d1 / 10, d1 % 10, d2 / 10, d2 % 10]
  {
    TwoDigits(n, 10);
    TwoDigits(n / 100, 10);
    DecimalParts(n);
  }

  lemma TwoDecimals(n: nat)
    requires n >= 10
    ensures Digits(n, 10) == Digits(n / 100, 10) + [n % 100 / 10, n % 100 % 10]
    ensures n < 100 ==> Digits(n, 10) == Digits(0, 10) + [n / 10, n % 10]
  {
    TwoDigits(n, 10);
    DecimalParts(n);
  }

  lemma OneDecimal(n: nat)
    requires 0 < n < 10
    ensures Digits(n, 10) == Digits(0, 10) + [n]
  {
    assert Digits(0, 10) == [];
  }

  method IntToStringDec(buffer: array<Unit>, num: Word, start: nat, total: nat)
    requires num > 0 && start + |Digits(num, 10)| == total <= buffer.Length
    modifies buffer
    ensures buffer[..] == old(buffer[..start]) + Chars(Digits(num, 10)) + old(buffer[total..])
  {
    ghost var before, ds := buffer[..], Digits(num, 10);
    var n: nat, offset: int := num, total - start;
    while n >= 10000
      invariant n > 0 && Filled(buffer[..], before, ds, start, offset) && ds[..offset] == Digits(n, 10)
    {
      var t, q := n / 10000, n % 10000;
      var d1, d2 := q / 100, q % 100;
      FourDecimals(n);
      ghost var now, tail := buffer[..], [d1 / 10, d1 % 10, d2 / 10, d2 % 10];
      Peel(n, t, 10, ds, offset, tail);
      buffer[start + offset - 4] := 48 + d1 / 10;
      buffer[start + offset - 3] := 48 + d1 % 10;
      buffer[start + offset - 2] := 48 + d2 / 10;
      buffer[start + offset - 1] := 48 + d2 % 10;
      FilledStep(now, buffer[..], before, ds, start, offset, 4);
      n, offset := t, offset - 4;
    }
    LastDecimals(buffer, n, start, offset, ds, before);
    FilledBuffer(buffer[..], before, ds, start);
  }

  /** The inner loop of the decimal printer: at most four digits are left. */
  method LastDecimals(buffer: array<Unit>, few: nat, start: nat, end: int, ghost ds: seq<nat>, ghost before: seq<Unit>)
    requires 0 < few < 10000 && Filled(buffer[..], before, ds, start, end) && ds[..end] == Digits(few, 10)
    modifies buffer
    ensures Filled(buffer[..], before, ds, start, 0)
  {
    var n, offset := few, end;
    while n >= 100
      invariant 0 < n < 10000 && Filled(buffer[..], before, ds, start, offset) && ds[..offset] == Digits(n, 10)
    {
      var t, d := n / 100, n % 100;
      TwoDecimals(n);
      ghost var now, tail := buffer[..], [d / 10, d % 10];
      Peel(n, t, 10, ds, offset, tail);
      buffer[start + offset - 2] := 48 + d / 10;
      buffer[start + offset - 1] := 48 + d % 10;
      FilledStep(now, buffer[..], before, ds, start, offset, 2);
      n, offset := t, offset - 2;
    }
    LastOneOrTwo(buffer, n, start, offset, ds, before);
  }

  method LastOneOrTwo(buffer: array<Unit>, n: nat, start: nat, offset: int, ghost ds: seq<nat>, ghost before: seq<Unit>)
    requires 0 < n < 100 && Filled(buffer[..], before, ds, start, offset) && ds[..offset] == Digits(n, 10)
    modifies buffer
    ensures Filled(buffer[..], before, ds, start, 0)
  {
    ghost var now := buffer[..];
    if n >= 10 {
      TwoDecimals(n);
      Peel(n, 0, 10, ds, offset, [n / 10, n % 10]);
      buffer[start + offset - 2] := 48 + n / 10;
      buffer[start + offset - 1] := 48 + n % 10;
      FilledStep(now, buffer[..], before, ds, start, offset, 2);
    } else {
      OneDecimal(n);
      Peel(n, 0, 10, ds, offset, [n]);
      buffer[start + offset - 1] := 48 + n;
      FilledStep(now, buffer[..], before, ds, start, offset, 1);
    }
  }

  lemma ShiftAndMask(n: nat, radix: nat, shift: nat)
    requires radix == Pow2(shift)
    ensures And(n, radix - 1) == n % radix && n / Pow2(shift) == n / radix
  {
    AndMask(n, shift);
  }

  lemma NothingLeft(r: nat, ds: seq<nat>, offset: int)
    requires r >= 2 && 0 <= offset <= |ds| && ds[..offset] == Digits(0, r)
    ensures offset == 0
  {
    assert |ds[..offset]| == offset;
  }

  method IntToStringGeneric(buffer: array<Unit>, num: Word, start: nat, total: nat, radix: nat)
    requires 2 <= radix <= 36
    requires num > 0 && start + |Digits(num, radix)| == total <= buffer.Length
    modifies buffer
    ensures buffer[..] == old(buffer[..start]) + Chars(Digits(num, radix)) + old(buffer[total..])
  {
    ghost var before, ds := buffer[..], Digits(num, radix);
    if And(radix, radix - 1) == 0 {
      ghost var k := PowerOfTwoTest(radix);
      CtzOfPowerOfTwo(radix, k);
      ByShifting(buffer, num, start, total, radix, Ctz32(radix), ds, before);
    } else {
      ByDividing(buffer, num, start, total, radix, ds, before);
    }
    FilledBuffer(buffer[..], before, ds, start);
  }

  /** The loop for a radix that is a power of two. */
  method ByShifting(buffer: array<Unit>, num: Word, start: nat, total: nat, radix: nat, shift: nat,
                    ghost ds: seq<nat>, ghost before: seq<Unit>)
    requires 2 <= radix <= 36 && radix == Pow2(shift) && ds == Digits(num, radix) && before == buffer[..]
    requires start + |ds| == total <= buffer.Length
    modifies buffer
    ensures Filled(buffer[..], before, ds, start, 0)
  {
    var mask := radix - 1;
    var n: nat, offset: int := num, total - start;
    while n > 0
      invariant Filled(buffer[..], before, ds, start, offset) && ds[..offset] == Digits(n, radix)
    {
      ShiftAndMask(n, radix, shift);
      DivStep(n, radix);
      var digit, rest := And(n, mask), n / Pow2(shift);
      OneDigit(n, radix);
      Peel(n, rest, radix, ds, offset, [digit]);
      ghost var now := buffer[..];
      buffer[start + offset - 1] := DigitChar(digit);
      FilledStep(now, buffer[..], before, ds, start, offset, 1);
      offset := offset - 1;
      n := rest;
    }
    NothingLeft(radix, ds, offset);
  }

  /** The loop for any other radix. */
  method ByDividing(buffer: array<Unit>, num: Word, start: nat, total: nat, radix: nat,
                    ghost ds: seq<nat>, ghost before: seq<Unit>)
    requires 2 <= radix <= 36 && ds == Digits(num, radix) && before == buffer[..]
    requires start + |ds| == total <= buffer.Length
    modifies buffer
    ensures Filled(buffer[..], before, ds, start, 0)
  {
    var n: nat, offset: int := num, total - start;
    while n > 0
      invariant Filled(buffer[..], before, ds, start, offset) && ds[..offset] == Digits(n, radix)
    {
      DivStep(n, radix);
      var q := n / radix;
      var digit := n - q * radix;
      OneDigit(n, radix);
      Peel(n, q, radix, ds, offset, [digit]);
      ghost var now := buffer[..];
      buffer[start + offset - 1] := DigitChar(digit);
      FilledStep(now, buffer[..], before, ds, start, offset, 1);
      offset := offset - 1;
      n := q;
    }
    NothingLeft(radix, ds, offset);
  }

  lemma HexPair(n: nat)
    requires |Digits(n, 16)| >= 2
    ensures And(n, 255) == n % 256 && n > 0
    ensures Digits(n, 16) == Digits(n / 256, 16) + [n % 256 / 16, n % 256 % 16]
  {
    assert n >= 16;
    TwoDigits(n, 16);
    assert n / 16 / 16 == n / 256 && n % 256 / 16 == n / 16 % 16 && n % 256 % 16 == n % 16;
    Pow2Values();
    AndMask(n, 8);
  }

  lemma HexSingle(n: nat)
    requires |Digits(n, 16)| == 1
    ensures And(n, 15) == n % 16 && Digits(n, 16) == Digits(0, 16) + [n % 16]
  {
    assert Digits(n / 16, 16) == [];
    assert Digits(0, 16) == [];
    Pow2Values();
    AndMask(n, 4);
  }

  /** Two digits a round, driven by the predicted length alone. */
  method IntToStringHex(buffer: array<Unit>, num: Word, start: nat, total: nat)
    requires num > 0 && start + |Digits(num, 16)| == total <= buffer.Length
    modifies buffer
    ensures buffer[..] == old(buffer[..start]) + Chars(Digits(num, 16)) + old(buffer[total..])
  {
    ghost var before, ds := buffer[..], Digits(num, 16);
    var n: nat, offset: int := num, total - start;
    while offset >= 2
      invariant Filled(buffer[..], before, ds, start, offset) && ds[..offset] == Digits(n, 16)
    {
      var byte, rest := And(n, 255), n / 256;
      HexPair(n);
      var hi, lo := byte / 16, byte % 16;
      Peel(n, rest, 16, ds, offset, [hi, lo]);
      ghost var now := buffer[..];
      buffer[start + offset - 2] := DigitChar(hi);
      buffer[start + offset - 1] := DigitChar(lo);
      FilledStep(now, buffer[..], before, ds, start, offset, 2);
      n, offset := rest, offset - 2;
    }
    if offset == 1 {
      HexSingle(n);
      Peel(n, 0, 16, ds, 1, [And(n, 15)]);
      ghost var now := buffer[..];
      buffer[start] := DigitChar(And(n, 15));
      FilledStep(now, buffer[..], before, ds, start, 1, 1);
    }
    FilledBuffer(buffer[..], before, ds, start);
  }

  /** The number of digits, predicted in one of three ways. */
  method DigitCount(num: Word, radix: nat) returns (count: nat)
    requires num > 0 && 2 <= radix <= 36
    ensures count == |Digits(num, radix)|
  {
    if radix == 10 { count := DecCount32(num); DecCountExact(num); }
    else if radix == 16 { count := HexCount32(num); HexCountExact(num); }
    else { count := RadixCount32(num, radix); }
  }

  /** The digits, written by one of three loops. */
  method FillDigits(buffer: array<Unit>, num: Word, start: nat, total: nat, radix: nat)
    requires 2 <= radix <= 36 && num > 0 && start + |Digits(num, radix)| == total <= buffer.Length
    modifies buffer
    ensures buffer[..] == old(buffer[..start]) + Chars(Digits(num, radix)) + old(buffer[total..])
  {
    if radix == 10 { IntToStringDec(buffer, num, start, total); }
    else if radix == 16 { IntToStringHex(buffer, num, start, total); }
    else { IntToStringGeneric(buffer, num, start, total, radix); }
  }

  /** `Int::to_string`: exact for every 32-bit integer and every radix from 2 to 36, and an
      abort for any other radix. */
  method IntToString(self: Int32, radix: Int32) returns (result: Result<seq<Unit>, string>)
    ensures result.Success? <==> 2 <= radix <= 36
    ensures result.Success? ==> result.value == Text(self, radix)
  {
    if radix < 2 || radix > 36 {
      return Failure("radix must be between 2 and 36");
    }
    if self == 0 {
      return Success([48]);
    }
    var negative := self < 0;
    var num := if negative then AsWord(Negate(self)) else AsWord(self);
    assert num == Magnitude(self);
    var digitLen := DigitCount(num, radix);
    var start := if negative then 1 else 0;
    var total := digitLen + start;
    var buffer := new Unit[total](_ => 0);
    FillDigits(buffer, num, start, total, radix);
    assert buffer[..][start..] == Chars(Digits(num, radix));
    if negative {
      buffer[0] := MINUS;
    }
    assert buffer[..] == Sign(self) + Chars(Digits(num, radix));
    return Success(buffer[..]);
  }
}
