/** Reading the test selectors `file:start-end/file:start-end/...` from the command line. */
module Selectors {
  import opened Wrappers
  import opened Bits
  import opened IntText
  import opened StringBuilders
  import opened Utf8

  type Text16 = seq<Unit>

  const SLASH: Unit := 47
  const COLON: Unit := 58
  const HYPHEN: Unit := 45

  // ----- Splitting and joining -----

  /** The pieces between separators; there is always one more piece than there are separators. */
  function Pieces(s: Text16, sep: Unit): (ps: seq<Text16>)
    ensures |ps| >= 1
  {
    if s == [] then [[]]
    else
      var n, ps := |s| - 1, Pieces(s[..|s| - 1], sep);
      if s[n] == sep then ps + [[]] else ps[..|ps| - 1] + [ps[|ps| - 1] + [s[n]]]
  }

  function Join(ps: seq<Text16>, sep: Unit): Text16 {
    if ps == [] then [] else if |ps| == 1 then ps[0] else Join(ps[..|ps| - 1], sep) + [sep] + ps[|ps| - 1]
  }

  /** What the splitter returns: an empty last piece is dropped. */
  function DropEmptyLast(ps: seq<Text16>): seq<Text16> {
    if ps != [] && ps[|ps| - 1] == [] then ps[..|ps| - 1] else ps
  }

  lemma {:induction false} PiecesOfPlain(t: Text16, piece: Text16, sep: Unit)
    requires sep !in piece
    ensures Pieces(t + [sep] + piece, sep) == Pieces(t, sep) + [piece]
    ensures Pieces(piece, sep) == [piece]
  {
    var s := t + [sep] + piece;
    if piece == [] {
      assert s[..|s| - 1] == t;
    } else {
      var front := piece[..|piece| - 1];
      PiecesOfPlain(t, front, sep);
      assert s[..|s| - 1] == t + [sep] + front && front + [s[|s| - 1]] == piece;
      assert piece[|piece| - 1] in piece;
    }
  }

  /** Splitting undoes joining, up to one dropped empty piece at the end. */
  lemma {:induction false} SplitOfJoin(ps: seq<Text16>, sep: Unit)
    requires ps != [] && forall p | p in ps :: sep !in p
    ensures Pieces(Join(ps, sep), sep) == ps
  {
    var n := |ps| - 1;
    assert ps == ps[..n] + [ps[n]] && ps[n] in ps;
    if n > 0 {
      SplitOfJoin(ps[..n], sep);
      PiecesOfPlain(Join(ps[..n], sep), ps[n], sep);
    } else {
      PiecesOfPlain([], ps[0], sep);
    }
  }

  /** Joining undoes splitting, and no piece holds a separator. */
  lemma {:induction false} JoinOfSplit(s: Text16, sep: Unit)
    ensures Join(Pieces(s, sep), sep) == s
    ensures forall p | p in Pieces(s, sep) :: sep !in p
  {
    if s != [] {
      var n, front := |s| - 1, Pieces(s[..|s| - 1], sep);
      var ps := Pieces(s, sep);
      JoinOfSplit(s[..n], sep);
      var k := |front| - 1;
      if s[n] == sep {
        assert ps[..|ps| - 1] == front;
      } else {
        assert ps[..k] == front[..k];
        assert sep !in front[k];
      }
      assert s == s[..n] + [s[n]];
    }
  }

  /** What joining puts together. */
  lemma JoinSnoc(ps: seq<Text16>, p: Text16, sep: Unit)
    ensures Join([], sep) == [] && Join([p], sep) == p
    ensures ps != [] ==> Join(ps + [p], sep) == Join(ps, sep) + [sep] + p
  {
    assert (ps + [p])[..|ps|] == ps;
  }

  lemma {:induction false} FrontPiece(piece: Text16, rest: Text16, sep: Unit)
    requires sep !in piece
    ensures Pieces(piece + [sep] + rest, sep) == [piece] + Pieces(rest, sep)
  {
    if rest == [] {
      PiecesOfPlain(piece, [], sep);
      PiecesOfPlain([], piece, sep);
    } else {
      var front, c := rest[..|rest| - 1], rest[|rest| - 1];
      FrontPiece(piece, front, sep);
      FrontStep(piece + [sep] + front, front, piece, c, sep);
      assert piece + [sep] + front + [c] == piece + [sep] + rest && front + [c] == rest;
    }
  }

  lemma FrontStep(whole: Text16, front: Text16, piece: Text16, c: Unit, sep: Unit)
    requires Pieces(whole, sep) == [piece] + Pieces(front, sep)
    ensures Pieces(whole + [c], sep) == [piece] + Pieces(front + [c], sep)
  {
    PiecesSnoc(whole, c, sep);
    PiecesSnoc(front, c, sep);
    AddUnit(Pieces(front, sep), piece, c);
  }

  lemma PiecesSnoc(s: Text16, c: Unit, sep: Unit)
    ensures var ps := Pieces(s, sep);
      Pieces(s + [c], sep) == if c == sep then ps + [[]] else ps[..|ps| - 1] + [ps[|ps| - 1] + [c]]
  {
    assert (s + [c])[..|s|] == s;
  }

  lemma AddUnit(qs: seq<Text16>, piece: Text16, c: Unit)
    requires qs != []
    ensures var ps := [piece] + qs;
      ps + [[]] == [piece] + (qs + [[]])
      && ps[..|ps| - 1] + [ps[|ps| - 1] + [c]] == [piece] + (qs[..|qs| - 1] + [qs[|qs| - 1] + [c]])
  {
  }

  /** The splitter's first two pieces: everything up to the first separator, and from there to the next or the end. */
  lemma FirstTwo(a: Text16, b: Text16, t: Text16, sep: Unit)
    requires sep !in a && sep !in b && (t == [] || t[0] == sep)
    ensures var ps := DropEmptyLast(Pieces(a + [sep] + b + t, sep));
      if t == [] && b == [] then |ps| < 2 else |ps| >= 2 && ps[0] == a && ps[1] == b
  {
    assert a + [sep] + b + t == a + [sep] + (b + t);
    FrontPiece(a, b + t, sep);
    if t == [] {
      assert b + t == b;
      PiecesOfPlain([], b, sep);
    } else {
      assert b + t == b + [sep] + t[1..];
      FrontPiece(b, t[1..], sep);
    }
  }

  lemma OnePiece(s: Text16, sep: Unit)
    requires sep !in s
    ensures |DropEmptyLast(Pieces(s, sep))| < 2
  {
    PiecesOfPlain([], s, sep);
  }

  lemma PiecesStep(s: Text16, i: nat, sep: Unit, res: seq<Text16>, start: nat)
    requires start <= i < |s| && Pieces(s[..i], sep) == res + [s[start..i]]
    ensures Pieces(s[..i + 1], sep) ==
            if s[i] == sep then res + [s[start..i]] + [s[i + 1..i + 1]] else res + [s[start..i + 1]]
  {
    assert s[..i + 1][..i] == s[..i] && s[start..i + 1] == s[start..i] + [s[i]];
    assert (res + [s[start..i]])[..|res|] == res && s[i + 1..i + 1] == [];
  }

  method Split(s: Text16, sep: Unit) returns (res: seq<Text16>)
    ensures res == DropEmptyLast(Pieces(s, sep))
  {
    res := [];
    var i, start := 0, 0;
    while i < |s|
      invariant 0 <= start <= i <= |s|
      invariant Pieces(s[..i], sep) == res + [s[start..i]]
    {
      PiecesStep(s, i, sep, res, start);
      if s[i] == sep {
        res := res + [s[start..i]];
        start := i + 1;
      }
      i := i + 1;
    }
    assert s[..i] == s && s[start..i] == s[start..];
    assert (res + [s[start..]])[..|res|] == res;
    if start < |s| {
      res := res + [s[start..]];
    }
  }

  // ----- Numbers -----

  /** Reading an unbounded result as a 32-bit one. */
  function Wrapped(n: int): Int32 {
    var m := n % WORD;
    if m < 0x8000_0000 then m else m - WORD
  }

  method ParseInt(s: Text16) returns (res: Int32)
    ensures res == Wrapped(Positional(s))
  {
    res := 0;
    var i := 0;
    while i < |s|
      invariant 0 <= i <= |s| && res == Wrapped(Positional(s[..i]))
    {
      assert s[..i + 1][..i] == s[..i];
      WrapStep(Positional(s[..i]), s[i]);
      res := Wrapped(Wrapped(res * 10) + Digit(s[i]));
      i := i + 1;
    }
    assert s[..i] == s;
  }

  function Digit(c: int): int { c - 48 }

  /** Every unit counts as a digit, whatever it is. */
  function Positional(s: Text16): int {
    if s == [] then 0 else Positional(s[..|s| - 1]) * 10 + Digit(s[|s| - 1])
  }

  lemma PositionalSnoc(s: Text16, c: Unit)
    ensures Positional([]) == 0 && Positional(s + [c]) == Positional(s) * 10 + (c - 48)
  {
    assert (s + [c])[..|s|] == s;
  }

  lemma WrapsBy(n: int) returns (q: int)
    ensures n == Wrapped(n) + q * 0x1_0000_0000
  {
    q := if n % WORD < 0x8000_0000 then n / WORD else n / WORD + 1;
  }

  lemma WrapShift(n: int, q: int)
    ensures Wrapped(n + q * WORD) == Wrapped(n)
  {
    DivModUnique(n + q * WORD, WORD, n / WORD + q, n % WORD);
  }

  lemma WrapStep(n: int, c: Unit)
    ensures Wrapped(Wrapped(Wrapped(n) * 10) + Digit(c)) == Wrapped(n * 10 + Digit(c))
  {
    var q := if n % WORD < 0x8000_0000 then n / WORD else n / WORD + 1;
    assert Wrapped(n) == n - q * WORD;
    WrapShift(n * 10, -10 * q);
    var m := n * 10;
    var p := if m % WORD < 0x8000_0000 then m / WORD else m / WORD + 1;
    assert Wrapped(m) == m - p * WORD;
    WrapShift(m + Digit(c), -p);
  }

  predicate Decimal(s: Text16) { s != [] && forall i | 0 <= i < |s| :: 48 <= s[i] < 58 }

  lemma {:induction false} PositionalIsValue(s: seq<Byte>)
    requires forall i | 0 <= i < |s| :: 48 <= s[i] < 58
    ensures Positional(s) == Value(s, 10)
  {
    if s != [] { PositionalIsValue(s[..|s| - 1]); }
  }

  lemma PrintedIsDecimal(x: Int32)
    requires x >= 0
    ensures Decimal(Text(x, 10)) && Wrapped(Positional(Text(x, 10))) == x
  {
    TextDenotes(x, 10);
    DecimalText(x);
    PositionalIsValue(Text(x, 10));
  }

  lemma DecimalText(x: Int32)
    requires x >= 0
    ensures Decimal(Text(x, 10)) && Denoted(Text(x, 10), 10) == Value(Text(x, 10), 10)
  {
    TextDenotes(x, 10);
    assert forall i | 0 <= i < |Text(x, 10)| :: 48 <= Text(x, 10)[i] < 58;
  }

  // ----- Selectors -----

  datatype Range = Range(file: Text16, start: Int32, stop: Int32)

  /** Too few pieces make the driver panic. */
  function ReadOne(sel: Text16): Option<Range> {
    var fileAndRange := DropEmptyLast(Pieces(sel, COLON));
    if |fileAndRange| < 2 then None
    else
      var startAndEnd := DropEmptyLast(Pieces(fileAndRange[1], HYPHEN));
      if |startAndEnd| < 2 then None
      else Some(Range(fileAndRange[0], Wrapped(Positional(startAndEnd[0])), Wrapped(Positional(startAndEnd[1]))))
  }

  function Indices(r: Range): seq<(Text16, Int32)>
    decreases r.stop - r.start
  {
    if r.stop <= r.start then [] else Indices(r.(stop := r.stop - 1)) + [(r.file, r.stop - 1)]
  }

  /** A range stands for its indices, from the first up to but not including the last. */
  lemma {:induction false} IndicesAre(r: Range)
    ensures |Indices(r)| == if r.stop <= r.start then 0 else r.stop - r.start
    ensures forall k | 0 <= k < |Indices(r)| :: Indices(r)[k] == (r.file, r.start + k)
    decreases r.stop - r.start
  {
    if r.start < r.stop { IndicesAre(r.(stop := r.stop - 1)); }
  }

  /** A selector is read as its file, what stands before the first hyphen and what stands behind it. */
  lemma ReadsSelector(file: Text16, a: Text16, b: Text16, u: Text16, t: Text16)
    requires 58 !in file && 58 !in a + [45] + b + u && (t == [] || t[0] == 58)
    requires 45 !in a && 45 !in b && (u == [] || u[0] == 45) && (b != [] || u != [])
    ensures ReadOne(file + [58] + (a + [45] + b + u) + t)
         == Some(Range(file, Wrapped(Positional(a)), Wrapped(Positional(b))))
  {
    FirstTwo(file, a + [45] + b + u, t, 58);
    FirstTwo(a, b, u, 45);
  }

  /** It is refused exactly when it has no colon, or in the piece behind it no hyphen but perhaps one at the end. */
  lemma RefusedIff(file: Text16, p: Text16, t: Text16)
    requires 58 !in file && 58 !in p && (t == [] || t[0] == 58)
    ensures ReadOne(file).None?
    ensures ReadOne(file + [58] + p + t).None? <==> 45 !in p || (p[|p| - 1] == 45 && 45 !in p[..|p| - 1])
  {
    OnePiece(file, 58);
    FirstTwo(file, p, t, 58);
    if 45 !in p {
      OnePiece(p, 45);
    } else {
      var a, b, u := AtFirst(p, 45);
      FirstTwo(a, b, u, 45);
      HyphenAtEnd(p, a, b, u);
    }
  }

  lemma HyphenAtEnd(p: Text16, a: Text16, b: Text16, u: Text16)
    requires p == a + [45] + b + u && 45 !in a && 45 !in b && (u == [] || u[0] == 45)
    ensures p[|p| - 1] == 45 && 45 !in p[..|p| - 1] <==> b == [] && u == []
  {
    if b == [] && u == [] {
      assert p[..|p| - 1] == a;
    } else {
      assert p[..|p| - 1][|a|] == 45;
    }
  }

  /** A text around the first separator, and up to the next. */
  lemma {:induction false} AtFirst(s: Text16, sep: Unit) returns (a: Text16, b: Text16, t: Text16)
    requires sep in s
    ensures s == a + [sep] + b + t && sep !in a && sep !in b && (t == [] || t[0] == sep)
  {
    var i := FirstAt(s, sep);
    a := s[..i];
    var rest := s[i + 1..];
    if sep in rest {
      var j := FirstAt(rest, sep);
      b, t := rest[..j], rest[j..];
    } else {
      b, t := rest, [];
    }
  }

  lemma {:induction false} FirstAt(s: Text16, sep: Unit) returns (i: nat)
    requires sep in s
    ensures i < |s| && s[i] == sep && sep !in s[..i]
  {
    if s[0] == sep {
      i := 0;
    } else {
      var k := FirstAt(s[1..], sep);
      i := k + 1;
      assert s[..i] == [s[0]] + s[1..][..k];
    }
  }

  function ReadAll(sels: seq<Text16>): Option<seq<(Text16, Int32)>> {
    if sels == [] then Some([])
    else match ReadAll(sels[..|sels| - 1])
      case None => None
      case Some(done) => (match ReadOne(sels[|sels| - 1])
        case None => None
        case Some(r) => Some(done + Indices(r)))
  }

  method PushRange(found: seq<(Text16, Int32)>, file: Text16, start: Int32, stop: Int32)
    returns (all: seq<(Text16, Int32)>)
    ensures all == found + Indices(Range(file, start, stop))
  {
    all := found;
    var i := start;
    while i < stop
      invariant start <= i && (i <= stop || i == start)
      invariant all == found + Indices(Range(file, start, i))
    {
      all := all + [(file, i)];
      i := i + 1;
    }
  }

  method ReadSelector(sel: Text16) returns (r: Option<Range>)
    ensures r == ReadOne(sel)
  {
    var fileAndRange := Split(sel, COLON);
    if |fileAndRange| < 2 { return None; }
    var startAndEnd := Split(fileAndRange[1], HYPHEN);
    if |startAndEnd| < 1 { return None; }
    var start := ParseInt(startAndEnd[0]);
    if |startAndEnd| < 2 { return None; }
    var stop := ParseInt(startAndEnd[1]);
    r := Some(Range(fileAndRange[0], start, stop));
  }

  method NativeParseArgs(cliArgs: seq<seq<Byte>>) returns (found: Option<seq<(Text16, Int32)>>)
    requires forall a | a in cliArgs :: |a| + 4 <= 0x4000_0000
    ensures found == if |cliArgs| < 2 then None else ReadAll(DropEmptyLast(Pieces(Decoded(cliArgs[1]), SLASH)))
  {
    if |cliArgs| < 2 {
      return None;
    }
    assert cliArgs[1] in cliArgs;
    var arg := BytesToString(cliArgs[1]);
    var testArgs := Split(arg[..], SLASH);
    var fileAndIndex, k := [], 0;
    while k < |testArgs|
      invariant 0 <= k <= |testArgs| && ReadAll(testArgs[..k]) == Some(fileAndIndex)
    {
      ReadNext(testArgs, k);
      var r := ReadSelector(testArgs[k]);
      if r.None? { return None; }
      fileAndIndex := PushRange(fileAndIndex, r.value.file, r.value.start, r.value.stop);
      k := k + 1;
    }
    assert testArgs[..k] == testArgs;
    found := Some(fileAndIndex);
  }

  lemma ReadNext(sels: seq<Text16>, k: nat)
    requires k < |sels| && ReadAll(sels[..k]).Some?
    ensures match ReadOne(sels[k])
      case None => ReadAll(sels).None?
      case Some(r) => ReadAll(sels[..k + 1]) == Some(ReadAll(sels[..k]).value + Indices(r))
  {
    assert sels[..k + 1][..k] == sels[..k];
    if ReadOne(sels[k]).None? { NoneStays(sels, k + 1); }
  }

  lemma NoneGrows(sels: seq<Text16>)
    requires sels != [] && ReadAll(sels[..|sels| - 1]).None?
    ensures ReadAll(sels).None?
  {
  }

  lemma {:induction false} NoneStays(sels: seq<Text16>, k: nat)
    requires k <= |sels| && ReadAll(sels[..k]).None?
    ensures ReadAll(sels).None?
  {
    var n := |sels| - 1;
    if k <= n {
      assert sels[..n][..k] == sels[..k];
      NoneStays(sels[..n], k);
      NoneGrows(sels);
    } else {
      assert sels[..k] == sels;
    }
  }

  // ----- Rendering -----

  function RenderOne(r: Range): Text16 {
    r.file + [COLON] + (Text(r.start, 10) + [HYPHEN] + Text(r.stop, 10))
  }

  function RenderAll(rs: seq<Range>): (ps: seq<Text16>)
    ensures |ps| == |rs|
  {
    if rs == [] then [] else RenderAll(rs[..|rs| - 1]) + [RenderOne(rs[|rs| - 1])]
  }

  function AllIndices(rs: seq<Range>): seq<(Text16, Int32)> {
    if rs == [] then [] else AllIndices(rs[..|rs| - 1]) + Indices(rs[|rs| - 1])
  }

  predicate Printable(r: Range) {
    COLON !in r.file && SLASH !in r.file && r.start >= 0 && r.stop >= 0
  }

  lemma TwoPieces(a: Text16, b: Text16, sep: Unit)
    requires sep !in a && sep !in b && b != []
    ensures DropEmptyLast(Pieces(a + [sep] + b, sep)) == [a, b]
  {
    PiecesOfPlain(a, b, sep);
    PiecesOfPlain([], a, sep);
  }

  lemma OneRoundTrip(r: Range)
    requires Printable(r)
    ensures ReadOne(RenderOne(r)) == Some(r) && SLASH !in RenderOne(r) && RenderOne(r) != []
  {
    var a, b := Text(r.start, 10), Text(r.stop, 10);
    PrintedIsDecimal(r.start);
    PrintedIsDecimal(r.stop);
    assert COLON !in a && COLON !in b && HYPHEN !in a && HYPHEN !in b && SLASH !in a && SLASH !in b;
    TwoPieces(r.file, a + [HYPHEN] + b, COLON);
    TwoPieces(a, b, HYPHEN);
  }

  lemma {:induction false} AllRoundTrip(rs: seq<Range>)
    requires forall r | r in rs :: Printable(r)
    ensures ReadAll(RenderAll(rs)) == Some(AllIndices(rs))
    ensures forall p | p in RenderAll(rs) :: SLASH !in p && p != []
  {
    if rs != [] {
      var n := |rs| - 1;
      var front := RenderAll(rs[..n]);
      AllRoundTrip(rs[..n]);
      OneRoundTrip(rs[n]);
      assert RenderAll(rs)[..n] == front;
    }
  }

  function Concat<T>(ss: seq<seq<T>>): seq<T> {
    if ss == [] then [] else Concat(ss[..|ss| - 1]) + ss[|ss| - 1]
  }

  lemma ConcatSnoc<T>(ss: seq<seq<T>>, s: seq<T>)
    ensures Concat<T>([]) == [] && Concat(ss + [s]) == Concat(ss) + s
  {
    assert (ss + [s])[..|ss|] == ss;
  }

  /** The indices of the ranges, one range after the other. */
  lemma {:induction false} AllIndicesAre(rs: seq<Range>) returns (chunks: seq<seq<(Text16, Int32)>>)
    ensures AllIndices(rs) == Concat(chunks) && |chunks| == |rs|
    ensures forall j | 0 <= j < |rs| :: chunks[j] == Indices(rs[j])
  {
    chunks := [];
    if rs != [] {
      var n := |rs| - 1;
      var before := AllIndicesAre(rs[..n]);
      ConcatSnoc(before, Indices(rs[n]));
      chunks := before + [Indices(rs[n])];
    }
  }

  /**
    * Rendering a list of ranges and reading the text back gives, range after range,
    * its file with every index from its start up to but not including its end.
    */
  lemma SelectorRoundTrip(rs: seq<Range>, ps: seq<Text16>)
      returns (found: seq<(Text16, Int32)>, chunks: seq<seq<(Text16, Int32)>>)
    requires forall r | r in rs :: 58 !in r.file && 47 !in r.file && r.start >= 0 && r.stop >= 0
    requires |ps| == |rs| && forall j | 0 <= j < |ps| ::
      ps[j] == rs[j].file + [58] + Text(rs[j].start, 10) + [45] + Text(rs[j].stop, 10)
    ensures ReadAll(DropEmptyLast(Pieces(Join(ps, 47), 47))) == Some(found)
    ensures found == Concat(chunks) && |chunks| == |rs|
    ensures forall j | 0 <= j < |rs| :: |chunks[j]| == if rs[j].stop <= rs[j].start then 0 else rs[j].stop - rs[j].start
    ensures forall j, k | 0 <= j < |rs| && 0 <= k < |chunks[j]| :: chunks[j][k] == (rs[j].file, rs[j].start + k)
  {
    RenderedAre(rs, ps);
    AllRoundTrip(rs);
    ReadsJoined(rs);
    found := AllIndices(rs);
    chunks := AllIndicesAre(rs);
    forall j | 0 <= j < |rs| { IndicesAre(rs[j]); }
  }

  lemma ReadsJoined(rs: seq<Range>)
    requires forall r | r in rs :: Printable(r)
    ensures ReadAll(DropEmptyLast(Pieces(Join(RenderAll(rs), 47), 47))) == Some(AllIndices(rs))
  {
    AllRoundTrip(rs);
    if rs == [] {
      assert Pieces([], SLASH) == [[]];
    } else {
      SplitOfJoin(RenderAll(rs), SLASH);
    }
  }

  lemma {:induction false} RenderedAre(rs: seq<Range>, ps: seq<Text16>)
    requires |ps| == |rs| && forall j | 0 <= j < |ps| ::
      ps[j] == rs[j].file + [58] + Text(rs[j].start, 10) + [45] + Text(rs[j].stop, 10)
    ensures ps == RenderAll(rs)
  {
    if rs != [] {
      var n := |rs| - 1;
      RenderedAre(rs[..n], ps[..n]);
      assert ps[n] == RenderOne(rs[n]) && ps == ps[..n] + [ps[n]];
    }
  }

  /** The same through the command line: the argument's bytes are decoded first. */
  lemma ArgumentRoundTrip(rs: seq<Range>, ps: seq<Text16>, arg: seq<Scalar>)
      returns (found: seq<(Text16, Int32)>, chunks: seq<seq<(Text16, Int32)>>)
    requires forall r | r in rs :: 58 !in r.file && 47 !in r.file && r.start >= 0 && r.stop >= 0
    requires |ps| == |rs| && forall j | 0 <= j < |ps| ::
      ps[j] == rs[j].file + [58] + Text(rs[j].start, 10) + [45] + Text(rs[j].stop, 10)
    requires Utf16(arg) == Join(ps, 47)
    ensures ReadAll(DropEmptyLast(Pieces(Decoded(Encode(arg)), 47))) == Some(found)
    ensures found == Concat(chunks) && |chunks| == |rs|
    ensures forall j | 0 <= j < |rs| :: |chunks[j]| == if rs[j].stop <= rs[j].start then 0 else rs[j].stop - rs[j].start
    ensures forall j, k | 0 <= j < |rs| && 0 <= k < |chunks[j]| :: chunks[j][k] == (rs[j].file, rs[j].start + k)
  {
    DecodeOfEncode(arg, 0, 0);
    found, chunks := SelectorRoundTrip(rs, ps);
  }
}
