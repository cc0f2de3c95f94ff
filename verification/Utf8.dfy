/** Reading command-line bytes as UTF-16 text. */
module Utf8 {
  import opened Bits
  import opened StringBuilders

  /** A Unicode scalar value: every code point but the surrogates. */
  type Scalar = c: nat | c < 0xd800 || 0xe000 <= c <= 0x10_ffff

  // ----- The two encodings: section 3 of RFC 3629, section 2.1 of RFC 2781 -----

  function EncodeScalar(c: Scalar): (b: seq<Byte>)
    ensures |b| == if c < 0x80 then 1 else if c < 0x800 then 2 else if c < 0x1_0000 then 3 else 4
  {
    if c < 0x80 then [c]
    else if c < 0x800 then [0xc0 + c / 0x40, 0x80 + c % 0x40]
    else if c < 0x1_0000 then [0xe0 + c / 0x1000, 0x80 + c / 0x40 % 0x40, 0x80 + c % 0x40]
    else [0xf0 + c / 0x4_0000, 0x80 + c / 0x1000 % 0x40, 0x80 + c / 0x40 % 0x40, 0x80 + c % 0x40]
  }

  function Encode(s: seq<Scalar>): seq<Byte> {
    if s == [] then [] else EncodeScalar(s[0]) + Encode(s[1..])
  }

  function Utf16(s: seq<Scalar>): seq<Unit> {
    if s == [] then [] else Units(s[0]) + Utf16(s[1..])
  }

  /** Reads well-formed UTF-16 back. */
  function FromUtf16(u: seq<Unit>): seq<nat> {
    if u == [] then []
    else if HIGH_SURROGATE <= u[0] < LOW_SURROGATE && |u| >= 2 && u[1] >= LOW_SURROGATE
    then [(u[0] - HIGH_SURROGATE) * 1024 + (u[1] - LOW_SURROGATE) + 65536] + FromUtf16(u[2..])
    else [u[0]] + FromUtf16(u[1..])
  }

  /** The text determines the scalar values. */
  lemma {:induction false} Utf16RoundTrip(s: seq<Scalar>)
    ensures FromUtf16(Utf16(s)) == s
  {
    if s != [] {
      var u := Utf16(s);
      Utf16RoundTrip(s[1..]);
      assert u[|Units(s[0])|..] == Utf16(s[1..]);
    }
  }

  // ----- What the loop does to arbitrary bytes -----

  /** How many bytes the loop consumes for a leading byte; a stray continuation byte counts as the start of a pair. */
  function Need(lead: Byte): nat {
    if lead < 128 then 1 else if lead < 224 then 2 else if lead < 240 then 3 else 4
  }

  function Two(b0: nat, b1: nat): nat { b0 % 32 * 64 + b1 % 64 }
  function Three(b0: nat, b1: nat, b2: nat): nat { (b0 % 16 * 64 + b1 % 64) * 64 + b2 % 64 }
  function Four(b0: nat, b1: nat, b2: nat, b3: nat): nat { ((b0 % 8 * 64 + b1 % 64) * 64 + b2 % 64) * 64 + b3 % 64 }

  /** The units written for the chunk at the front. */
  function ChunkUnits(b: seq<Byte>): (u: seq<Unit>)
    requires b != [] && Need(b[0]) <= |b|
    ensures 1 <= |u| <= Need(b[0])
  {
    if b[0] < 128 then [b[0]]
    else if b[0] < 224 then [Two(b[0], b[1])]
    else if b[0] < 240 then [Three(b[0], b[1], b[2])]
    else
      var c := Four(b[0], b[1], b[2], b[3]) - 65536;
      [HIGH_SURROGATE + c / 1024, LOW_SURROGATE + c % 1024]
  }

  function Decoded(b: seq<Byte>): (u: seq<Unit>)
    ensures |u| <= |b|
  {
    if b == [] || |b| < Need(b[0]) then [] else ChunkUnits(b) + Decoded(b[Need(b[0])..])
  }

  /** The unit for a pair, valid or not, holds the low bits of its two bytes. */
  lemma PairDecodes(b: seq<Byte>)
    requires |b| >= 2 && 0x80 <= b[0] < 0xe0
    ensures var d := Decoded(b);
      d != [] && d[0] / 0x40 == b[0] % 0x20 && d[0] % 0x40 == b[1] % 0x40 && d[1..] == Decoded(b[2..])
  {
  }

  lemma TripleDecodes(b: seq<Byte>)
    requires |b| >= 3 && 0xe0 <= b[0] < 0xf0
    ensures var d := Decoded(b);
      d != [] && d[0] / 0x40 / 0x40 == b[0] % 0x10 && d[0] / 0x40 % 0x40 == b[1] % 0x40
      && d[0] % 0x40 == b[2] % 0x40 && d[1..] == Decoded(b[3..])
  {
  }

  /** Four bytes, valid or not, become two units that together hold their low bits, also when they are overlong. */
  lemma QuadrupleDecodes(b: seq<Byte>)
    requires |b| >= 4 && 0xf0 <= b[0]
    ensures var d := Decoded(b);
      |d| >= 2 && 0xdc00 <= d[1] < 0xe000 && d[2..] == Decoded(b[4..])
      && (d[0] as int - 0xd800) * 0x400 + (d[1] as int - 0xdc00) + 0x1_0000
         == b[0] as int % 8 * 0x4_0000 + b[1] as int % 0x40 * 0x1000 + b[2] as int % 0x40 * 0x40 + b[3] as int % 0x40
  {
  }

  /** A plain byte stands for itself, and what is cut short or empty adds nothing. */
  lemma PlainDecodes(b: seq<Byte>)
    ensures b != [] && b[0] < 0x80 ==> Decoded(b) == [b[0] as Unit] + Decoded(b[1..])
    ensures b == [] || |b| < (if b[0] < 0x80 then 1 else if b[0] < 0xe0 then 2 else if b[0] < 0xf0 then 3 else 4)
      ==> Decoded(b) == []
  {
  }

  // ----- Decoding an encoding -----

  lemma Sextets(c: nat)
    ensures c / 0x1000 == c / 0x40 / 0x40 && c / 0x4_0000 == c / 0x40 / 0x40 / 0x40
  {
  }

  lemma FourBytes(c: nat)
    requires 0x1_0000 <= c <= 0x10_ffff
    ensures Four(0xf0 + c / 0x4_0000, 0x80 + c / 0x1000 % 0x40, 0x80 + c / 0x40 % 0x40, 0x80 + c % 0x40) == c
    ensures 240 <= 0xf0 + c / 0x4_0000 < 256
  {
    Sextets(c);
    assert (0xf0 + c / 0x4_0000) % 8 == c / 0x4_0000;
  }

  lemma ThreeBytes(c: nat)
    requires 0x800 <= c < 0x1_0000
    ensures Three(0xe0 + c / 0x1000, 0x80 + c / 0x40 % 0x40, 0x80 + c % 0x40) == c
    ensures 224 <= 0xe0 + c / 0x1000 < 240
  {
    Sextets(c);
    assert (0xe0 + c / 0x1000) % 16 == c / 0x1000;
  }

  lemma TwoBytes(c: nat)
    requires 0x80 <= c < 0x800
    ensures Two(0xc0 + c / 0x40, 0x80 + c % 0x40) == c && 192 <= 0xc0 + c / 0x40 < 224
  {
  }

  lemma ChunkOf(b: seq<Byte>, c: nat)
    requires b != [] && |b| == Need(b[0]) && c <= 0x10_ffff
    requires match |b|
      case 1 => c == b[0]
      case 2 => c == Two(b[0], b[1])
      case 3 => c == Three(b[0], b[1], b[2])
      case _ => c == Four(b[0], b[1], b[2], b[3])
    requires c <= LARGEST_UNIT <==> |b| < 4
    ensures ChunkUnits(b) == Units(c)
  {
  }

  lemma ScalarRoundTrip(c: Scalar)
    ensures |EncodeScalar(c)| == Need(EncodeScalar(c)[0]) && ChunkUnits(EncodeScalar(c)) == Units(c)
  {
    if c < 0x80 {
    } else if c < 0x800 {
      TwoBytes(c);
    } else if c < 0x1_0000 {
      ThreeBytes(c);
    } else {
      FourBytes(c);
    }
    ChunkOf(EncodeScalar(c), c);
  }

  lemma DecodesChunk(head: seq<Byte>, rest: seq<Byte>)
    requires head != [] && |head| == Need(head[0])
    ensures Decoded(head + rest) == ChunkUnits(head) + Decoded(rest)
  {
    assert (head + rest)[|head|..] == rest;
  }

  /** Whole characters decode to their UTF-16 form, and whatever follows them is decoded on its own. */
  lemma {:induction false} DecodesPrefix(s: seq<Scalar>, rest: seq<Byte>)
    ensures Decoded(Encode(s) + rest) == Utf16(s) + Decoded(rest)
  {
    if s == [] {
      assert Encode(s) + rest == rest;
    } else {
      ScalarRoundTrip(s[0]);
      DecodesPrefix(s[1..], rest);
      PutChunk(EncodeScalar(s[0]), Encode(s[1..]), rest, Utf16(s[1..]));
    }
  }

  lemma PutChunk(head: seq<Byte>, more: seq<Byte>, rest: seq<Byte>, u: seq<Unit>)
    requires head != [] && |head| == Need(head[0]) && Decoded(more + rest) == u + Decoded(rest)
    ensures Decoded(head + more + rest) == ChunkUnits(head) + u + Decoded(rest)
  {
    DecodesChunk(head, more + rest);
    Assoc(head, more, rest);
    Assoc(ChunkUnits(head), u, Decoded(rest));
  }

  lemma Assoc<T>(x: seq<T>, y: seq<T>, z: seq<T>)
    ensures x + y + z == x + (y + z)
  {
  }

  /** Decoding undoes encoding; a character cut short at the end adds nothing. */
  lemma DecodeOfEncode(s: seq<Scalar>, last: Scalar, k: nat)
    requires k < |EncodeScalar(last)|
    ensures Decoded(Encode(s) + EncodeScalar(last)[..k]) == Utf16(s)
    ensures Decoded(Encode(s)) == Utf16(s) && FromUtf16(Decoded(Encode(s))) == s
  {
    ScalarRoundTrip(last);
    DecodesPrefix(s, EncodeScalar(last)[..k]);
    DecodesPrefix(s, []);
    assert Encode(s) + [] == Encode(s);
    Utf16RoundTrip(s);
  }

  // ----- The loop -----

  lemma Masks(a: nat)
    ensures And(a, 7) == a % 8 && And(a, 15) == a % 16 && And(a, 31) == a % 32
    ensures And(a, 63) == a % 64 && And(a, 1023) == a % 1024
  {
    AndMask(a, 3);
    AndMask(a, 4);
    AndMask(a, 5);
    AndMask(a, 6);
    AndMask(a, 10);
    assert Pow2(3) == 8 && Pow2(4) == 16 && Pow2(5) == 32 && Pow2(6) == 64 && Pow2(10) == 1024;
  }

  lemma Or6(a: nat, b: nat)
    requires b < 64
    ensures Or(a * 64, b) == a * 64 + b
  {
    assert Pow2(6) == 64;
    OrDisjoint(a, 6, b);
  }

  lemma Or12(a: nat, b: nat)
    requires b < 64
    ensures Or(a * 4096, b * 64) == a * 4096 + b * 64
  {
    assert Pow2(12) == 4096;
    OrDisjoint(a, 12, b * 64);
  }

  lemma Or18(a: nat, b: nat)
    requires b < 64
    ensures Or(a * 0x4_0000, b * 4096) == a * 0x4_0000 + b * 4096
  {
    assert Pow2(12) == 0x1000;
    Pow2Adds(12, 6);
    OrDisjoint(a, 18, b * 4096);
  }

  function Pair(b0: Byte, b1: Byte): nat {
    Or(And(b0, 31) * 0x40, And(b1, 63))
  }

  function Triple(b0: Byte, b1: Byte, b2: Byte): nat {
    Or(Or(And(b0, 15) * 0x1000, And(b1, 63) * 0x40), And(b2, 63))
  }

  function Quadruple(b0: Byte, b1: Byte, b2: Byte, b3: Byte): nat {
    Or(Or(Or(And(b0, 7) * 0x4_0000, And(b1, 63) * 0x1000), And(b2, 63) * 0x40), And(b3, 63))
  }

  lemma PairIs(b0: Byte, b1: Byte)
    ensures Pair(b0, b1) == Two(b0, b1)
  {
    Masks(b0);
    Masks(b1);
    Or6(b0 % 32, b1 % 64);
  }

  lemma TripleIs(b0: Byte, b1: Byte, b2: Byte)
    ensures Triple(b0, b1, b2) == Three(b0, b1, b2)
  {
    Masks(b0);
    Masks(b1);
    Masks(b2);
    Or12(b0 % 16, b1 % 64);
    Or6(b0 % 16 * 64 + b1 % 64, b2 % 64);
  }

  lemma JoinFour(a: nat, b: nat, c: nat, d: nat)
    requires b < 64 && c < 64 && d < 64
    ensures Or(Or(Or(a * 0x4_0000, b * 0x1000), c * 0x40), d) == ((a * 64 + b) * 64 + c) * 64 + d
  {
    Or18(a, b);
    Or12(a * 64 + b, c);
    Or6((a * 64 + b) * 64 + c, d);
  }

  lemma QuadrupleIs(b0: Byte, b1: Byte, b2: Byte, b3: Byte)
    ensures Quadruple(b0, b1, b2, b3) == Four(b0, b1, b2, b3)
  {
    Masks(b0);
    Masks(b1);
    Masks(b2);
    Masks(b3);
    JoinFour(b0 % 8, b1 % 64, b2 % 64, b3 % 64);
  }

  /** The pair of units for a four-byte chunk; an overlong one makes the difference negative. */
  lemma PairOfUnits(c: Int32)
    requires -65536 <= c < 0x1f_0000
    ensures 0 <= c / 1024 + HIGH_SURROGATE <= LARGEST_UNIT
    ensures And(AsWord(c), 1023) == c % 1024
  {
    Masks(AsWord(c));
    LowBits(c);
  }

  lemma LowBits(c: Int32)
    ensures AsWord(c) % 1024 == c % 1024
  {
    if c < 0 { DivModUnique(AsWord(c), 1024, c / 1024 + 0x40_0000, c % 1024); }
  }

  lemma Advance(all: seq<Unit>, done: seq<Unit>, b: seq<Byte>, i: nat)
    requires i < |b| && i + Need(b[i]) <= |b| && all == done + Decoded(b[i..])
    ensures all == done + ChunkUnits(b[i..]) + Decoded(b[i + Need(b[i])..])
  {
    assert b[i..][Need(b[i])..] == b[i + Need(b[i])..];
  }

  lemma CutShort(all: seq<Unit>, done: seq<Unit>, b: seq<Byte>, i: nat)
    requires i < |b| < i + Need(b[i]) && all == done + Decoded(b[i..])
    ensures all == done
  {
  }

  /** Writes the chunk at `i`, which is all there. */
  method WriteChunk(res: StringBuilder, bytes: seq<Byte>, i: nat)
    requires i < |bytes| && i + Need(bytes[i]) <= |bytes|
    requires res.Valid() && res.len + 4 <= 0x4000_0000
    modifies res, res.data
    ensures res.Valid() && (res.data == old(res.data) || fresh(res.data))
    ensures res.Contents() == old(res.Contents()) + ChunkUnits(bytes[i..])
  {
    var c: Int32 := bytes[i];
    var ok;
    if c < 128 {
      ok := res.WriteChar(c);
    } else if c < 224 {
      PairIs(c, bytes[i + 1]);
      ok := res.WriteChar(Pair(c, bytes[i + 1]));
    } else if c < 240 {
      TripleIs(c, bytes[i + 1], bytes[i + 2]);
      ok := res.WriteChar(Triple(c, bytes[i + 1], bytes[i + 2]));
    } else {
      QuadrupleIs(c, bytes[i + 1], bytes[i + 2], bytes[i + 3]);
      c := Quadruple(c, bytes[i + 1], bytes[i + 2], bytes[i + 3]);
      c := c - 65536;
      PairOfUnits(c);
      ok := res.WriteChar(c / 1024 + HIGH_SURROGATE);
      assert ok;
      ok := res.WriteChar(And(AsWord(c), 1023) + LOW_SURROGATE);
    }
    assert ok;
  }

  /** On any bytes whatever the loop ends, its index checks hold and no write is refused. */
  method BytesToString(bytes: seq<Byte>) returns (text: array<Unit>)
    requires |bytes| + 4 <= 0x4000_0000
    ensures text[..] == Decoded(bytes)
  {
    var res := new StringBuilder(0);
    var len, i := |bytes|, 0;
    while i < len
      invariant 0 <= i <= len && res.Valid() && fresh(res) && fresh(res.data)
      invariant res.len <= i
      invariant Decoded(bytes) == res.Contents() + Decoded(bytes[i..])
    {
      var n := Need(bytes[i]);
      if i + n > len {
        CutShort(Decoded(bytes), res.Contents(), bytes, i);
        break;
      }
      Advance(Decoded(bytes), res.Contents(), bytes, i);
      WriteChunk(res, bytes, i);
      i := i + n;
    }
    text := res.ToString();
  }
}
