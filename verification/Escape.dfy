/** Printing a string as a literal: escapes are written one by one, what lies between them in whole segments. */
module Escape {
  import opened Wrappers
  import opened Bits
  import opened StringBuilders
  import opened Utf8

  // ----- The escape of one unit, and of a text -----

  const QUOTE: Unit := 34
  const BACKSLASH: Unit := 92

  predicate NeedsEscape(c: Unit) { c == QUOTE || c == BACKSLASH || c < 32 }

  function HexDigit(d: nat): (c: Unit)
    requires d < 16
  {
    if d < 10 then d + 48 else d + 97 - 10
  }

  function EscapeUnit(c: Unit): (e: seq<Unit>)
    ensures 1 <= |e| <= 6
  {
    if c == QUOTE || c == BACKSLASH then [BACKSLASH, c]
    else if c == 10 then [BACKSLASH, 110]
    else if c == 13 then [BACKSLASH, 114]
    else if c == 8 then [BACKSLASH, 98]
    else if c == 9 then [BACKSLASH, 116]
    else if c < 32 then [BACKSLASH, 117, 123, HexDigit(c / 16), HexDigit(c % 16), 125]
    else [c]
  }

  function Escaped(s: seq<Unit>): (e: seq<Unit>)
    ensures |e| <= 6 * |s|
  {
    if s == [] then [] else EscapeUnit(s[0]) + Escaped(s[1..])
  }

  function Literal(s: seq<Unit>, quote: bool): seq<Unit> {
    if quote then [QUOTE] + Escaped(s) + [QUOTE] else Escaped(s)
  }

  /** The escapes, one by one; everything else stands for itself. */
  lemma EscapeTable(c: Unit)
    ensures EscapeUnit(34) == [92, 34] && EscapeUnit(92) == [92, 92]
    ensures EscapeUnit(10) == [92, 110] && EscapeUnit(13) == [92, 114]
    ensures EscapeUnit(8) == [92, 98] && EscapeUnit(9) == [92, 116]
    ensures c < 32 && c !in {8, 9, 10, 13} ==>
      |EscapeUnit(c)| == 6 && EscapeUnit(c)[..3] == [92, 117, 123] && EscapeUnit(c)[5] == 125
    ensures c < 32 && c !in {8, 9, 10, 13} ==>
      EscapeUnit(c)[3] == 48 + c / 16 && EscapeUnit(c)[4] == (if c % 16 < 10 then 48 + c % 16 else 87 + c % 16)
    ensures c >= 32 && c != 34 && c != 92 ==> EscapeUnit(c) == [c]
  {
  }

  /** A text is escaped unit by unit, and a quoted one is put between two quotes. */
  lemma LiteralOf(s: seq<Unit>, c: Unit)
    ensures Escaped([]) == [] && Escaped(s + [c]) == Escaped(s) + EscapeUnit(c)
    ensures Literal(s, true) == [34] + Escaped(s) + [34] && Literal(s, false) == Escaped(s)
  {
    EscapedAppend(s, [c]);
    assert Escaped([c]) == EscapeUnit(c);
  }

  // ----- Reading a literal back -----

  function HexValue(c: Unit): Option<nat> {
    if 48 <= c < 58 then Some(c - 48) else if 97 <= c < 103 then Some(c - 87) else None
  }

  /** The unit a backslash sequence stands for, and how long the sequence is. */
  function ReadEscape(u: seq<Unit>): (r: Option<(Unit, nat)>)
    requires u != []
    ensures r.Some? ==> 2 <= r.value.1 <= |u|
  {
    if |u| < 2 then None
    else if u[1] == QUOTE || u[1] == BACKSLASH then Some((u[1], 2))
    else if u[1] == 110 then Some((10, 2))
    else if u[1] == 114 then Some((13, 2))
    else if u[1] == 98 then Some((8, 2))
    else if u[1] == 116 then Some((9, 2))
    else if |u| >= 6 && u[1] == 117 && u[2] == 123 && HexValue(u[3]).Some? && HexValue(u[4]).Some? && u[5] == 125
    then Some((16 * HexValue(u[3]).value + HexValue(u[4]).value, 6))
    else None
  }

  /** The text up to the closing quote, and what follows that quote. */
  function ReadBody(u: seq<Unit>): Option<(seq<Unit>, seq<Unit>)> {
    if u == [] || u[0] < 32 then None
    else if u[0] == QUOTE then Some(([], u[1..]))
    else if u[0] == BACKSLASH then
      match ReadEscape(u)
      case None => None
      case Some((c, n)) => (match ReadBody(u[n..])
        case None => None
        case Some((s, rest)) => Some(([c] + s, rest)))
    else match ReadBody(u[1..])
      case None => None
      case Some((s, rest)) => Some(([u[0]] + s, rest))
  }

  function ReadLiteral(u: seq<Unit>): Option<(seq<Unit>, seq<Unit>)> {
    if u == [] || u[0] != QUOTE then None else ReadBody(u[1..])
  }

  lemma ReadsUnit(c: Unit, rest: seq<Unit>)
    requires NeedsEscape(c)
    ensures var u := EscapeUnit(c) + rest; u[0] == BACKSLASH && ReadEscape(u) == Some((c, |EscapeUnit(c)|))
  {
    if c < 32 { assert c == c / 16 * 16 + c % 16; }
  }

  lemma ReadsOne(c: Unit, tail: seq<Unit>, s: seq<Unit>, rest: seq<Unit>)
    requires ReadBody(tail) == Some((s, rest))
    ensures ReadBody(EscapeUnit(c) + tail) == Some(([c] + s, rest))
  {
    var u := EscapeUnit(c) + tail;
    assert u[|EscapeUnit(c)|..] == tail;
    if NeedsEscape(c) { ReadsUnit(c, tail); }
  }

  lemma {:induction false} ReadsBody(s: seq<Unit>, rest: seq<Unit>)
    ensures ReadBody(Escaped(s) + [QUOTE] + rest) == Some((s, rest))
  {
    if s == [] {
      assert (Escaped(s) + [QUOTE] + rest)[1..] == rest;
    } else {
      ReadsBody(s[1..], rest);
      ReadsOne(s[0], Escaped(s[1..]) + [QUOTE] + rest, s[1..], rest);
      assert [s[0]] + s[1..] == s;
      Assoc(EscapeUnit(s[0]), Escaped(s[1..]), [QUOTE]);
      Assoc(EscapeUnit(s[0]), Escaped(s[1..]) + [QUOTE], rest);
    }
  }

  /** A literal is read back as the text it was made from, and shows where it ends. */
  lemma LiteralRoundTrip(s: seq<Unit>, rest: seq<Unit>)
    ensures ReadLiteral(Literal(s, true) + rest) == Some((s, rest))
  {
    ReadsBody(s, rest);
    WithoutFirst(QUOTE, Escaped(s) + [QUOTE], rest);
    Assoc([QUOTE], Escaped(s), [QUOTE]);
  }

  lemma WithoutFirst(c: Unit, s: seq<Unit>, rest: seq<Unit>)
    ensures ([c] + s + rest)[1..] == s + rest
  {
  }

  lemma {:induction false} EscapedAppend(a: seq<Unit>, b: seq<Unit>)
    ensures Escaped(a + b) == Escaped(a) + Escaped(b)
  {
    if a == [] {
      assert a + b == b;
    } else {
      EscapedAppend(a[1..], b);
      assert (a + b)[0] == a[0] && (a + b)[1..] == a[1..] + b;
      Assoc(EscapeUnit(a[0]), Escaped(a[1..]), Escaped(b));
    }
  }

  lemma {:induction false} PlainRun(s: seq<Unit>)
    requires forall k | 0 <= k < |s| :: !NeedsEscape(s[k])
    ensures Escaped(s) == s
  {
    if s != [] { PlainRun(s[1..]); }
  }

  // ----- Where a string may be cut -----

  predicate Trailing(c: Unit) { 56320 <= c <= 57343 }

  /** A piece of a string is refused when either of its borders splits a surrogate pair. */
  predicate Cut(str: seq<Unit>, start: nat, stop: nat)
    requires start <= stop <= |str|
  {
    (start < |str| ==> !Trailing(str[start])) && (stop < |str| ==> !Trailing(str[stop]))
  }

  /** A trailing surrogate where a segment starts: at the front of the view or right behind an escaped unit. */
  predicate SplitsAt(str: seq<Unit>, start: nat, p: nat)
    requires start <= p < |str|
  {
    Trailing(str[p]) && (p == start || NeedsEscape(str[p - 1]))
  }

  predicate SplitsAtEnd(str: seq<Unit>, start: nat, stop: nat)
    requires start <= stop <= |str|
  {
    start < stop < |str| && Trailing(str[stop]) && !NeedsEscape(str[stop - 1])
  }

  /** The views that can be escaped without a panic. */
  predicate Escapable(str: seq<Unit>, start: nat, stop: nat)
    requires start <= stop <= |str|
  {
    (forall p | start <= p < stop :: !SplitsAt(str, start, p)) && !SplitsAtEnd(str, start, stop)
  }

  /** Slices may not start or stop in front of a unit from DC00 to DFFF. */
  lemma CutIs(str: seq<Unit>, start: nat, stop: nat)
    requires start <= stop <= |str|
    ensures Cut(str, start, stop) <==> forall p | p in {start, stop} && p < |str| :: str[p] < 0xdc00 || 0xe000 <= str[p]
  {
    assert start in {start, stop} && stop in {start, stop};
  }

  /**
    * What panics: a view that holds such a unit at its front or right behind an escaped unit, or that stops in front of
    * one and does not end in an escaped unit.
    */
  lemma EscapableIs(str: seq<Unit>, start: nat, stop: nat)
    requires start <= stop <= |str|
    ensures Escapable(str, start, stop) <==>
      && (forall p | start <= p < stop && 0xdc00 <= str[p] < 0xe000 ::
            p > start && 32 <= str[p - 1] && str[p - 1] != 34 && str[p - 1] != 92)
      && (start < stop < |str| && 0xdc00 <= str[stop] < 0xe000 ==>
            str[stop - 1] < 32 || str[stop - 1] == 34 || str[stop - 1] == 92)
  {
    if !Escapable(str, start, stop) && !SplitsAtEnd(str, start, stop) {
      var p :| start <= p < stop && SplitsAt(str, start, p);
      assert 0xdc00 <= str[p] < 0xe000;
    }
    if Escapable(str, start, stop) {
      forall p | start <= p < stop && 0xdc00 <= str[p] < 0xe000
        ensures p > start && 32 <= str[p - 1] && str[p - 1] != 34 && str[p - 1] != 92
      {
        assert !SplitsAt(str, start, p);
      }
    }
  }

  /** Every trailing surrogate follows a leading one. */
  predicate Paired(s: seq<Unit>) {
    forall p | 0 <= p < |s| && Trailing(s[p]) :: p > 0 && 55296 <= s[p - 1] < 56320
  }

  lemma {:induction false} Utf16IsPaired(s: seq<Scalar>)
    ensures Paired(Utf16(s))
  {
    if s != [] {
      Utf16IsPaired(s[1..]);
      UnitsPaired(s[0]);
      PairedJoin(Units(s[0]), Utf16(s[1..]));
    }
  }

  lemma UnitsPaired(c: Scalar)
    ensures Paired(Units(c))
  {
  }

  lemma PairedJoin(a: seq<Unit>, b: seq<Unit>)
    requires Paired(a) && Paired(b)
    ensures Paired(a + b)
  {
    var u := a + b;
    forall p | 0 <= p < |u| && Trailing(u[p]) ensures p > 0 && 55296 <= u[p - 1] < 56320 {
      if p < |a| { assert u[p] == a[p]; } else { assert u[p] == b[p - |a|]; }
    }
  }

  /** A view of paired text whose borders do not split a pair is escapable. */
  lemma PairedIsEscapable(str: seq<Unit>, start: nat, stop: nat)
    requires start <= stop <= |str| && Paired(str) && Cut(str, start, stop)
    ensures Escapable(str, start, stop)
  {
    forall p | start <= p < stop ensures !SplitsAt(str, start, p) {
      assert Trailing(str[p]) ==> p > 0 && 55296 <= str[p - 1] < 56320;
    }
  }

  /** Every argument that was valid UTF-8 is escapable. */
  lemma DecodedIsEscapable(s: seq<Scalar>)
    ensures Escapable(Decoded(Encode(s)), 0, |Decoded(Encode(s))|)
  {
    Utf16IsPaired(s);
    DecodeOfEncode(s, 0, 0);
    PairedAtZero(Utf16(s));
  }

  lemma PairedAtZero(u: seq<Unit>)
    requires Paired(u)
    ensures Escapable(u, 0, |u|)
  {
    PairedIsEscapable(u, 0, |u|);
  }

  // ----- The loop -----

  /** A string may be the builder's own buffer when that is full: then the next write moves to another one. */
  ghost predicate Apart(str: array<Unit>, logger: StringBuilder)
    reads logger
  {
    str != logger.data || logger.len == logger.data.Length
  }

  method Write(logger: StringBuilder, u: seq<Unit>, ghost str: array<Unit>)
    requires logger.Valid() && logger.len + |u| + 2 <= 0x4000_0000 && Apart(str, logger)
    modifies logger, logger.data
    ensures logger.Valid() && (logger.data == old(logger.data) || fresh(logger.data))
    ensures Apart(str, logger) && str[..] == old(str[..])
    ensures logger.Contents() == old(logger.Contents()) + u
  {
    var text := new Unit[|u|](i requires 0 <= i < |u| => u[i]);
    logger.WriteView(text, 0, |u|);
    assert text[0..|u|] == u;
  }

  method WriteUnit(logger: StringBuilder, c: Unit, ghost str: array<Unit>)
    requires logger.Valid() && logger.len + 2 <= 0x4000_0000 && Apart(str, logger)
    modifies logger, logger.data
    ensures logger.Valid() && (logger.data == old(logger.data) || fresh(logger.data))
    ensures Apart(str, logger) && str[..] == old(str[..])
    ensures logger.Contents() == old(logger.Contents()) + [c]
  {
    var _ := logger.WriteChar(c);
  }

  /** Writes the view's units from `seg` to `i`, when there are any; refuses a segment that splits a pair. */
  method FlushSegment(str: array<Unit>, start: nat, logger: StringBuilder, seg: nat, i: nat) returns (ok: bool)
    requires seg <= i && start + i <= str.Length && Apart(str, logger)
    requires logger.Valid() && logger.len + (i - seg) <= 0x4000_0000
    modifies logger, logger.data
    ensures logger.Valid() && (logger.data == old(logger.data) || fresh(logger.data))
    ensures Apart(str, logger) && str[..] == old(str[..])
    ensures ok <==> i == seg || Cut(old(str[..]), start + seg, start + i)
    ensures logger.Contents() == old(logger.Contents()) + if ok then old(str[start + seg..start + i]) else []
  {
    ok := true;
    if i > seg {
      ok := Cut(str[..], start + seg, start + i);
      if ok { logger.WriteView(str, start + seg, start + i); }
    }
  }

  /** Writes the escape of the unit at `i`. */
  method WriteEscape(logger: StringBuilder, code: Unit, ghost str: array<Unit>)
    requires logger.Valid() && logger.len + 8 <= 0x4000_0000 && NeedsEscape(code) && Apart(str, logger)
    modifies logger, logger.data
    ensures logger.Valid() && (logger.data == old(logger.data) || fresh(logger.data))
    ensures Apart(str, logger) && str[..] == old(str[..])
    ensures logger.Contents() == old(logger.Contents()) + EscapeUnit(code)
  {
    if code == QUOTE || code == BACKSLASH {
      WriteUnit(logger, BACKSLASH, str);
      WriteUnit(logger, code, str);
    } else if code == 10 {
      Write(logger, [BACKSLASH, 110], str);
    } else if code == 13 {
      Write(logger, [BACKSLASH, 114], str);
    } else if code == 8 {
      Write(logger, [BACKSLASH, 98], str);
    } else if code == 9 {
      Write(logger, [BACKSLASH, 116], str);
    } else {
      Write(logger, [BACKSLASH, 117, 123], str);
      Write(logger, [HexDigit(code / 16), HexDigit(code % 16)], str);
      WriteUnit(logger, 125, str);
    }
  }

  ghost predicate Progress(s: seq<Unit>, seg: nat, i: nat, done: seq<Unit>, now: seq<Unit>) {
    && seg <= i <= |s| && now == done + Escaped(s[..seg])
    && (forall k | seg <= k < i :: !NeedsEscape(s[k])) && (seg == 0 || NeedsEscape(s[seg - 1]))
  }

  lemma Flushed(s: seq<Unit>, seg: nat, i: nat, done: seq<Unit>, before: seq<Unit>)
    requires Progress(s, seg, i, done, before)
    ensures before + s[seg..i] == done + Escaped(s[..i])
    ensures |before| + (i - seg) <= |done| + 6 * i
  {
    assert s[..i] == s[..seg] + s[seg..i];
    EscapedAppend(s[..seg], s[seg..i]);
    PlainRun(s[seg..i]);
    Assoc(done, Escaped(s[..seg]), s[seg..i]);
  }

  lemma OneMore(s: seq<Unit>, i: nat, done: seq<Unit>)
    requires i < |s|
    ensures done + Escaped(s[..i]) + EscapeUnit(s[i]) == done + Escaped(s[..i + 1])
  {
    assert s[..i + 1] == s[..i] + [s[i]];
    EscapedAppend(s[..i], [s[i]]);
    assert Escaped([s[i]]) == EscapeUnit(s[i]);
    Assoc(done, Escaped(s[..i]), EscapeUnit(s[i]));
  }

  ghost predicate NoneSplit(str: seq<Unit>, start: nat, stop: nat)
    requires start <= stop <= |str|
  {
    forall p | start <= p < stop :: !SplitsAt(str, start, p)
  }

  /** A segment that ends before an escaped unit is refused just when a surrogate is split at its start. */
  lemma InnerFlush(str: seq<Unit>, start: nat, stop: nat, seg: nat, i: nat, done: seq<Unit>, now: seq<Unit>)
    requires start <= stop <= |str| && i < stop - start && Progress(str[start..stop], seg, i, done, now)
    requires NoneSplit(str, start, start + seg) && NeedsEscape(str[start + i])
    ensures if i == seg || Cut(str, start + seg, start + i) then NoneSplit(str, start, start + i + 1)
            else SplitsAt(str, start, start + seg)
  {
    var s := str[start..stop];
    assert forall k | 0 <= k < stop - start :: s[k] == str[start + k];
    if i == seg || Cut(str, start + seg, start + i) {
      forall p | start <= p < start + i + 1 ensures !SplitsAt(str, start, p) {
        if start + seg < p < start + i { assert !NeedsEscape(s[p - 1 - start]); }
      }
    }
  }

  lemma InnerWrites(str: seq<Unit>, start: nat, stop: nat, seg: nat, i: nat, done: seq<Unit>, now: seq<Unit>)
    requires start <= stop <= |str| && i < stop - start && Progress(str[start..stop], seg, i, done, now)
    requires NeedsEscape(str[start + i])
    ensures |now| + (i - seg) <= |done| + 6 * i
    ensures Progress(str[start..stop], i + 1, i + 1, done,
                     now + str[start + seg..start + i] + EscapeUnit(str[start + i]))
  {
    var s := str[start..stop];
    assert forall k | 0 <= k < stop - start :: s[k] == str[start + k];
    assert str[start + seg..start + i] == s[seg..i];
    Flushed(s, seg, i, done, now);
    OneMore(s, i, done);
  }

  lemma LastFlush(str: seq<Unit>, start: nat, stop: nat, seg: nat, done: seq<Unit>, now: seq<Unit>)
    requires start <= stop <= |str| && Progress(str[start..stop], seg, stop - start, done, now)
    requires NoneSplit(str, start, start + seg)
    ensures stop - start == seg || Cut(str, start + seg, stop) <==> Escapable(str, start, stop)
  {
    var s := str[start..stop];
    assert forall k | 0 <= k < stop - start :: s[k] == str[start + k];
    if stop - start > seg && !Cut(str, start + seg, stop) {
      if Trailing(str[start + seg]) {
        assert seg > 0 ==> s[seg - 1] == str[start + seg - 1];
        assert SplitsAt(str, start, start + seg);
      } else {
        assert s[stop - start - 1] == str[stop - 1];
        assert SplitsAtEnd(str, start, stop);
      }
    } else {
      forall p | start <= p < stop ensures !SplitsAt(str, start, p) {
        if p > start + seg { assert !NeedsEscape(s[p - 1 - start]); }
      }
    }
  }

  lemma LastWrites(str: seq<Unit>, start: nat, stop: nat, seg: nat, done: seq<Unit>, now: seq<Unit>)
    requires start <= stop <= |str| && Progress(str[start..stop], seg, stop - start, done, now)
    ensures |now| + (stop - start - seg) <= |done| + 6 * (stop - start)
    ensures now + str[start + seg..stop] == done + Escaped(str[start..stop])
  {
    var s := str[start..stop];
    assert str[start + seg..stop] == s[seg..stop - start] && s[..stop - start] == s;
    Flushed(s, seg, stop - start, done, now);
  }

  /** Where the loop stands at unit `i` of the view, with everything before `seg` written. */
  ghost predicate Standing(all: seq<Unit>, start: nat, stop: nat, seg: nat, i: nat, done: seq<Unit>, now: seq<Unit>) {
    start <= stop <= |all| && i <= stop - start && Progress(all[start..stop], seg, i, done, now)
    && NoneSplit(all, start, start + seg)
  }

  lemma PlainTurn(all: seq<Unit>, start: nat, stop: nat, seg: nat, i: nat, done: seq<Unit>, now: seq<Unit>)
    requires Standing(all, start, stop, seg, i, done, now) && i < stop - start && !NeedsEscape(all[start + i])
    ensures Standing(all, start, stop, seg, i + 1, done, now)
  {
  }

  lemma EscapeTurn(all: seq<Unit>, start: nat, stop: nat, seg: nat, i: nat, done: seq<Unit>, now: seq<Unit>)
    requires Standing(all, start, stop, seg, i, done, now) && i < stop - start && NeedsEscape(all[start + i])
    ensures |now| + (i - seg) <= |done| + 6 * i
    ensures if i == seg || Cut(all, start + seg, start + i)
            then Standing(all, start, stop, i + 1, i + 1, done,
                          now + all[start + seg..start + i] + EscapeUnit(all[start + i]))
            else !Escapable(all, start, stop)
  {
    InnerFlush(all, start, stop, seg, i, done, now);
    InnerWrites(all, start, stop, seg, i, done, now);
  }

  lemma LastTurn(all: seq<Unit>, start: nat, stop: nat, seg: nat, done: seq<Unit>, now: seq<Unit>)
    requires start <= stop && Standing(all, start, stop, seg, stop - start, done, now)
    ensures |now| + (stop - start - seg) <= |done| + 6 * (stop - start)
    ensures stop - start == seg || Cut(all, start + seg, stop) <==> Escapable(all, start, stop)
    ensures now + all[start + seg..stop] == done + Escaped(all[start..stop])
  {
    LastFlush(all, start, stop, seg, done, now);
    LastWrites(all, start, stop, seg, done, now);
  }

  /** The steps for a unit that needs an escape. */
  method FlushAndEscape(str: array<Unit>, start: nat, logger: StringBuilder, seg: nat, i: nat, ghost all: seq<Unit>)
      returns (ok: bool)
    requires seg <= i && start + i < str.Length && Apart(str, logger) && NeedsEscape(str[start + i]) && all == str[..]
    requires logger.Valid() && logger.len + (i - seg) + 8 <= 0x4000_0000
    modifies logger, logger.data
    ensures logger.Valid() && (logger.data == old(logger.data) || fresh(logger.data))
    ensures Apart(str, logger) && str[..] == all
    ensures ok <==> i == seg || Cut(all, start + seg, start + i)
    ensures ok ==>
      logger.Contents() == old(logger.Contents()) + all[start + seg..start + i] + EscapeUnit(all[start + i])
  {
    assert str[start + seg..start + i] == all[start + seg..start + i];
    var code := str[start + i];
    ok := FlushSegment(str, start, logger, seg, i);
    if ok { WriteEscape(logger, code, str); }
  }

  /** One turn of the loop; `next` is where the segment after it starts. */
  method Turn(str: array<Unit>, start: nat, stop: nat, logger: StringBuilder, seg: nat, i: nat,
              ghost all: seq<Unit>, ghost done: seq<Unit>) returns (ok: bool, next: nat)
    requires logger.Valid() && Apart(str, logger) && str[..] == all && i < stop - start
    requires Standing(all, start, stop, seg, i, done, logger.Contents())
    requires |done| + 6 * (stop - start) + 8 <= 0x4000_0000
    modifies logger, logger.data
    ensures logger.Valid() && (logger.data == old(logger.data) || fresh(logger.data))
    ensures Apart(str, logger) && str[..] == all
    ensures if ok then Standing(all, start, stop, next, i + 1, done, logger.Contents())
            else !Escapable(all, start, stop)
  {
    if NeedsEscape(str[start + i]) {
      EscapeTurn(all, start, stop, seg, i, done, logger.Contents());
      ok := FlushAndEscape(str, start, logger, seg, i, all);
      next := i + 1;
    } else {
      PlainTurn(all, start, stop, seg, i, done, logger.Contents());
      ok, next := true, seg;
    }
  }

  method EscapeBody(str: array<Unit>, start: nat, stop: nat, logger: StringBuilder) returns (ok: bool)
    requires start <= stop <= str.Length && Apart(str, logger)
    requires logger.Valid() && logger.len + 6 * (stop - start) + 8 <= 0x4000_0000
    modifies logger, logger.data
    ensures logger.Valid() && (logger.data == old(logger.data) || fresh(logger.data))
    ensures Apart(str, logger) && str[..] == old(str[..])
    ensures ok <==> Escapable(old(str[..]), start, stop)
    ensures ok ==> logger.Contents() == old(logger.Contents()) + Escaped(old(str[..])[start..stop])
  {
    ghost var all, done := str[..], logger.Contents();
    var len, i, seg := stop - start, 0, 0;
    while i < len
      invariant logger.Valid() && (logger.data == old(logger.data) || fresh(logger.data))
      invariant Apart(str, logger) && str[..] == all
      invariant i <= len && Standing(all, start, stop, seg, i, done, logger.Contents())
    {
      ok, seg := Turn(str, start, stop, logger, seg, i, all, done);
      if !ok { return; }
      i := i + 1;
    }
    LastTurn(all, start, stop, seg, done, logger.Contents());
    ok := LastSegment(str, start, stop, logger, seg, all);
  }

  method LastSegment(str: array<Unit>, start: nat, stop: nat, logger: StringBuilder, seg: nat, ghost all: seq<Unit>)
      returns (ok: bool)
    requires start + seg <= stop <= str.Length && Apart(str, logger) && all == str[..]
    requires logger.Valid() && logger.len + (stop - start - seg) <= 0x4000_0000
    modifies logger, logger.data
    ensures logger.Valid() && (logger.data == old(logger.data) || fresh(logger.data))
    ensures Apart(str, logger) && str[..] == all
    ensures ok <==> stop - start == seg || Cut(all, start + seg, stop)
    ensures ok ==> logger.Contents() == old(logger.Contents()) + all[start + seg..stop]
  {
    assert str[start + seg..stop] == all[start + seg..stop];
    ok := FlushSegment(str, start, logger, seg, stop - start);
  }

  /** Flushing by segments writes the unit-by-unit escape; it panics exactly on the views that are not escapable. */
  method EscapeTo(str: array<Unit>, start: nat, stop: nat, logger: StringBuilder, quote: bool) returns (ok: bool)
    requires start <= stop <= str.Length && Apart(str, logger)
    requires logger.Valid() && logger.len + 6 * (stop - start) + 16 <= 0x4000_0000
    modifies logger, logger.data
    ensures logger.Valid() && str[..] == old(str[..])
    ensures ok <==> Escapable(old(str[..]), start, stop)
    ensures ok ==> logger.Contents() == old(logger.Contents()) + Literal(old(str[..])[start..stop], quote)
  {
    ghost var all, before := str[..], logger.Contents();
    if quote { WriteUnit(logger, QUOTE, str); }
    ok := EscapeBody(str, start, stop, logger);
    if ok && quote { WriteUnit(logger, QUOTE, str); }
    Bracketed(before, all[start..stop], quote);
  }

  lemma Bracketed(before: seq<Unit>, s: seq<Unit>, quote: bool)
    ensures var mark := if quote then [QUOTE] else [];
      (before + mark + Escaped(s)) + mark == before + Literal(s, quote)
    ensures !quote ==> before + Escaped(s) == before + Literal(s, quote)
  {
  }

  /** Bytes that a command line can hold and that decode to a text on which escaping panics: half a pair, in UTF-8. */
  lemma HalfPairPanics()
    ensures Decoded([0xed, 0xb0, 0x80]) == [0xdc00] && !Escapable(Decoded([0xed, 0xb0, 0x80]), 0, 1)
  {
    var bytes: seq<Byte>, u := [0xed, 0xb0, 0x80], Decoded([0xed, 0xb0, 0x80]);
    assert u == [0xdc00];
    assert SplitsAt(u, 0, 0);
  }
}
