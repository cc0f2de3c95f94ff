/** Quoting words for the shell, and the reading of a command line that undoes it. */
module Shell {
  import opened Wrappers
  import opened Bits
  import opened CStrings
  import E = Escape

  /** A text of the program, in UTF-16 code units; a byte is such a unit too. */
  type Text = seq<Unit>

  const QUOTE: Unit := 39
  const BACKSLASH: Unit := 92
  const SPACE: Unit := 32
  const AMPERSAND: Unit := 38
  const GREATER: Unit := 62

  // ----- Quoting -----

  function QuotedUnit(c: Unit): Text {
    if c == QUOTE then [QUOTE, BACKSLASH, QUOTE, QUOTE] else [c]
  }

  function Body(s: Text): Text {
    if s == [] then [] else Body(s[..|s| - 1]) + QuotedUnit(s[|s| - 1])
  }

  function Quoted(s: Text): Text { [QUOTE] + Body(s) + [QUOTE] }

  lemma {:induction false} BodyStep(s: Text, i: nat)
    requires i < |s|
    ensures Body(s[..i + 1]) == Body(s[..i]) + QuotedUnit(s[i])
    ensures |Body(s[..i])| + |QuotedUnit(s[i])| <= |Body(s)|
    decreases |s| - i
  {
    assert s[..i + 1][..i] == s[..i];
    if i + 1 < |s| {
      BodyStep(s, i + 1);
    } else {
      assert s[..i + 1] == s;
    }
  }

  /** What quoting writes. */
  lemma QuotedIs(s: Text, c: Unit)
    ensures Quoted(s) == [39] + Body(s) + [39] && Body([]) == []
    ensures Body(s + [c]) == Body(s) + if c == 39 then [39, 92, 39, 39] else [c]
  {
    assert (s + [c])[..|s|] == s;
  }

  method QuotedLength(value: seq<Byte>) returns (length: nat)
    ensures length == |Quoted(CText(value))|
  {
    ghost var text := CText(value);
    length := 2;
    var i := 0;
    while i < |value| && value[i] != 0
      invariant 0 <= i <= |text| && length == 2 + |Body(text[..i])|
    {
      BodyStep(text, i);
      length := length + if value[i] == QUOTE then 4 else 1;
      i := i + 1;
    }
    assert text[..i] == text;
  }

  method WriteUnit(quoted: array<Byte>, index: nat, c: Byte) returns (next: nat)
    requires index + |QuotedUnit(c)| <= quoted.Length
    modifies quoted
    ensures next == index + |QuotedUnit(c)| && quoted[..next] == old(quoted[..index]) + QuotedUnit(c)
  {
    if c == QUOTE {
      quoted[index], quoted[index + 1] := QUOTE, BACKSLASH;
      quoted[index + 2], quoted[index + 3] := QUOTE, QUOTE;
      next := index + 4;
    } else {
      quoted[index] := c;
      next := index + 1;
    }
  }

  /** The second pass fills exactly the buffer that the first pass measured, terminator included. */
  method ShellQuote(value: seq<Byte>) returns (quoted: array<Byte>)
    ensures fresh(quoted) && quoted[..] == Quoted(CText(value)) + [0]
  {
    var length := QuotedLength(value);
    quoted := new Byte[length + 1](_ => 0);
    quoted[0] := QUOTE;
    var index := WriteBody(quoted, value, CText(value));
    Terminate(quoted, index);
  }

  method WriteBody(quoted: array<Byte>, value: seq<Byte>, ghost text: seq<Byte>) returns (index: nat)
    requires text <= value && 0 !in text && (|text| < |value| ==> value[|text|] == 0)
    requires quoted.Length == |Quoted(text)| + 1 && quoted[0] == QUOTE
    modifies quoted
    ensures index == 1 + |Body(text)| && quoted[..index] == [QUOTE] + Body(text)
  {
    index := 1;
    var i := 0;
    BeforeNul(value, text);
    while i < |value| && value[i] != 0
      invariant 0 <= i <= |text| && index == 1 + |Body(text[..i])| <= quoted.Length - 2
      invariant quoted[..index] == [QUOTE] + Body(text[..i])
    {
      BodyStep(text, i);
      index := WriteUnit(quoted, index, value[i]);
      i := i + 1;
    }
    assert text[..i] == text;
  }

  lemma BeforeNul(value: seq<Byte>, text: seq<Byte>)
    requires text <= value && 0 !in text && (|text| < |value| ==> value[|text|] == 0)
    ensures forall i | 0 <= i <= |text| :: (i < |value| && value[i] != 0) <==> i < |text|
    ensures forall i | 0 <= i < |text| :: value[i] == text[i]
  {
    assert forall i | 0 <= i < |text| :: text[i] in text;
  }

  /** The closing quote and the terminator. */
  method Terminate(quoted: array<Byte>, index: nat)
    requires index + 2 == quoted.Length
    modifies quoted
    ensures quoted[..] == old(quoted[..index]) + [QUOTE, 0]
  {
    quoted[index] := QUOTE;
    quoted[index + 1] := 0;
  }

  // ----- Reading a command line: section 2.2 and 2.3 of the POSIX.1-2017 Shell Command Language -----

  datatype Token = Word(text: Text) | IoNumber(digits: Text) | AndIf | Op(c: Unit)

  /** The word being read; `bare` as long as nothing in it was quoted. */
  datatype Partial = Nothing | Part(text: Text, bare: bool)

  function Extend(w: Partial, c: Unit, quoted: bool): Partial {
    if w.Nothing? then Part([c], !quoted) else Part(w.text + [c], w.bare && !quoted)
  }

  function Opened(w: Partial): Partial {
    if w.Nothing? then Part([], false) else Part(w.text, false)
  }

  predicate AllDigits(s: Text) { forall i | 0 <= i < |s| :: 48 <= s[i] < 58 }

  function Finished(w: Partial): seq<Token> {
    if w.Nothing? then [] else [Word(w.text)]
  }

  function FinishedBefore(w: Partial): seq<Token> {
    if w.Part? && w.bare && AllDigits(w.text) then [IoNumber(w.text)] else Finished(w)
  }

  /** Unquoted, these start an expansion, a pattern, a comment or an operator that no quoted command line uses. */
  predicate Active(c: Unit) {
    c == 10 || c == 13 || c == 33 || c == 34 || c == 35 || c == 36 || c == 42 || c == 59 || c == 60 || c == 61
    || c == 63 || c == 91 || c == 96 || c == 123 || c == 124 || c == 126 || c == 0
  }

  /** The tokens of a line; `None` for an unclosed quote or for anything beyond words, `&&`, `(`, `)` and `>`. */
  function Lex(s: Text, done: seq<Token>, w: Partial, inQuotes: bool): Option<seq<Token>>
    decreases |s|
  {
    if s == [] then (if inQuotes then None else Some(done + Finished(w)))
    else if inQuotes then
      (if s[0] == QUOTE then Lex(s[1..], done, w, false) else Lex(s[1..], done, Extend(w, s[0], true), true))
    else if s[0] == QUOTE then Lex(s[1..], done, Opened(w), true)
    else if s[0] == BACKSLASH then
      (if |s| < 2 || s[1] == 10 then None else Lex(s[2..], done, Extend(w, s[1], true), false))
    else if s[0] == SPACE || s[0] == 9 then Lex(s[1..], done + Finished(w), Nothing, false)
    else if s[0] == AMPERSAND then
      (if |s| < 2 || s[1] != AMPERSAND then None else Lex(s[2..], done + Finished(w) + [AndIf], Nothing, false))
    else if s[0] == 40 || s[0] == 41 then Lex(s[1..], done + Finished(w) + [Op(s[0])], Nothing, false)
    else if s[0] == GREATER then
      (if |s| >= 2 && (s[1] == GREATER || s[1] == AMPERSAND) then None
       else Lex(s[1..], done + FinishedBefore(w) + [Op(GREATER)], Nothing, false))
    else if Active(s[0]) then None
    else Lex(s[1..], done, Extend(w, s[0], false), false)
  }

  function Tokens(s: Text): Option<seq<Token>> { Lex(s, [], Nothing, false) }

  // ----- Quoted text is read back as it was -----

  lemma ReadsUnit(c: Unit, rest: Text, done: seq<Token>, v: Text)
    ensures Lex(QuotedUnit(c) + rest, done, Part(v, false), true) == Lex(rest, done, Part(v + [c], false), true)
  {
    var s := QuotedUnit(c) + rest;
    if c == QUOTE {
      var s1, s2, w := s[1..], s[3..], Part(v + [c], false);
      assert s1[2..] == s2 && s2[1..] == rest;
      assert Lex(s, done, Part(v, false), true) == Lex(s1, done, Part(v, false), false);
      assert Lex(s1, done, Part(v, false), false) == Lex(s2, done, w, false);
      assert Lex(s2, done, w, false) == Lex(rest, done, w, true);
    } else {
      assert s[1..] == rest;
    }
  }

  lemma {:induction false} ReadsBody(s: Text, rest: Text, done: seq<Token>)
    ensures Lex(Body(s) + rest, done, Part([], false), true) == Lex(rest, done, Part(s, false), true)
  {
    if s == [] {
      assert Body(s) + rest == rest;
    } else {
      var front, c := s[..|s| - 1], s[|s| - 1];
      assert Body(s) + rest == Body(front) + (QuotedUnit(c) + rest) && front + [c] == s;
      ReadsBody(front, QuotedUnit(c) + rest, done);
      ReadsUnit(c, rest, done, front);
    }
  }

  /** A quoted text is one word, whatever it holds. */
  lemma ReadsQuoted(s: Text, rest: Text, done: seq<Token>)
    ensures Lex(Quoted(s) + rest, done, Nothing, false) == Lex(rest, done, Part(s, false), false)
  {
    var line := Quoted(s) + rest;
    assert line[1..] == Body(s) + ([QUOTE] + rest);
    ReadsBody(s, [QUOTE] + rest, done);
    assert ([QUOTE] + rest)[1..] == rest;
  }

  // ----- Whole command lines -----

  /** Words separated by single spaces. */
  function Spaced(words: seq<Text>): Text {
    if words == [] then [] else if |words| == 1 then words[0] else words[0] + [SPACE] + Spaced(words[1..])
  }

  function QuotedAll(words: seq<Text>): (qs: seq<Text>)
    ensures |qs| == |words|
  {
    if words == [] then [] else [Quoted(words[0])] + QuotedAll(words[1..])
  }

  function Words(words: seq<Text>): (ts: seq<Token>)
    ensures |ts| == |words|
  {
    if words == [] then [] else [Word(words[0])] + Words(words[1..])
  }

  lemma Blank(rest: Text, done: seq<Token>, w: Partial)
    ensures Lex([SPACE] + rest, done, w, false) == Lex(rest, done + Finished(w), Nothing, false)
  {
    assert ([SPACE] + rest)[1..] == rest;
  }

  lemma ReadsFirst(word: Text, more: Text, done: seq<Token>)
    ensures Lex(Quoted(word) + ([SPACE] + more), done, Nothing, false) == Lex(more, done + [Word(word)], Nothing, false)
  {
    ReadsQuoted(word, [SPACE] + more, done);
    Blank(more, done, Part(word, false));
  }

  lemma SpacedFirst(words: seq<Text>, rest: Text)
    requires |words| > 1
    ensures Spaced(QuotedAll(words)) + rest == Quoted(words[0]) + ([SPACE] + (Spaced(QuotedAll(words[1..])) + rest))
  {
    var q, qs := Quoted(words[0]), QuotedAll(words[1..]);
    SpacedCons(q, qs);
    Regroup(q, [SPACE], Spaced(qs), rest);
  }

  lemma SpacedCons(q: Text, qs: seq<Text>)
    requires qs != []
    ensures Spaced([q] + qs) == q + [SPACE] + Spaced(qs)
  {
    assert ([q] + qs)[1..] == qs;
  }

  lemma Regroup(a: Text, b: Text, c: Text, d: Text)
    ensures a + b + c + d == a + (b + (c + d))
  {
  }

  /** A space-separated list of quoted words is read back as that list, the last word still open. */
  lemma {:induction false} ReadsWords(words: seq<Text>, rest: Text, done: seq<Token>)
    requires words != []
    ensures var n := |words| - 1;
      Lex(Spaced(QuotedAll(words)) + rest, done, Nothing, false)
      == Lex(rest, done + Words(words)[..n], Part(words[n], false), false)
  {
    var n := |words| - 1;
    if n == 0 {
      assert QuotedAll(words) == [Quoted(words[0])];
      ReadsQuoted(words[0], rest, done);
      assert done + Words(words)[..0] == done;
    } else {
      SpacedFirst(words, rest);
      ReadsFirst(words[0], Spaced(QuotedAll(words[1..])) + rest, done);
      ReadsWords(words[1..], rest, done + [Word(words[0])]);
      WordsFront(words, done);
    }
  }

  lemma WordsFront(words: seq<Text>, done: seq<Token>)
    requires |words| > 1
    ensures done + [Word(words[0])] + Words(words[1..])[..|words| - 2] == done + Words(words)[..|words| - 1]
  {
    PrefixOfCons(done, Word(words[0]), Words(words[1..]), |words| - 2);
  }

  lemma PrefixOfCons(done: seq<Token>, w: Token, ws: seq<Token>, n: nat)
    requires n <= |ws|
    ensures done + [w] + ws[..n] == done + ([w] + ws)[..n + 1]
  {
    assert ([w] + ws)[..n + 1] == [w] + ws[..n];
  }

  lemma {:induction false} WordAt(words: seq<Text>, i: nat)
    requires i < |words|
    ensures Words(words)[i] == Word(words[i])
  {
    if i > 0 { WordAt(words[1..], i - 1); }
  }

  datatype Command = Command(program: Text, args: seq<Text>, cwd: Option<Text>)

  const CD: Text := [99, 100]

  function CommandLine(c: Command): Text {
    var words := Spaced(QuotedAll([c.program] + c.args));
    if c.cwd.Some? then CD + [SPACE] + Quoted(c.cwd.value) + [SPACE, AMPERSAND, AMPERSAND, SPACE] + words else words
  }

  function CommandTokens(c: Command): seq<Token> {
    (if c.cwd.Some? then [Word(CD), Word(c.cwd.value), AndIf] else []) + Words([c.program] + c.args)
  }

  /** The line: the quoted words behind each other with spaces, behind `cd`, the quoted directory and `&&`. */
  lemma CommandLineIs(c: Command, a: Text, dir: Text)
    ensures CommandLine(Command(c.program, [], None)) == Quoted(c.program)
    ensures CommandLine(c.(args := c.args + [a])) == CommandLine(c) + [32] + Quoted(a)
    ensures CommandLine(c.(cwd := Some(dir)))
         == [99, 100, 32] + Quoted(dir) + [32, 38, 38, 32] + CommandLine(c.(cwd := None))
  {
    assert QuotedAll([c.program]) == [Quoted(c.program)] && [c.program] + [] == [c.program];
    OneArgumentMore(c, a);
  }

  lemma OneArgumentMore(c: Command, a: Text)
    ensures CommandLine(c.(args := c.args + [a])) == CommandLine(c) + [32] + Quoted(a)
  {
    var words := [c.program] + c.args;
    assert [c.program] + (c.args + [a]) == words + [a];
    OneWordMore(words, a);
    if c.cwd.Some? {
      PutBehind(CD + [SPACE] + Quoted(c.cwd.value) + [SPACE, AMPERSAND, AMPERSAND, SPACE],
                Spaced(QuotedAll(words)), [32], Quoted(a));
    }
  }

  lemma OneWordMore(words: seq<Text>, a: Text)
    requires words != []
    ensures Spaced(QuotedAll(words + [a])) == Spaced(QuotedAll(words)) + [32] + Quoted(a)
  {
    QuotedSnoc(words, a);
    SpacedSnoc(QuotedAll(words), Quoted(a));
  }

  lemma PutBehind(a: Text, b: Text, c: Text, d: Text)
    ensures a + (b + c + d) == a + b + c + d
  {
  }

  lemma {:induction false} SpacedSnoc(qs: seq<Text>, q: Text)
    requires qs != []
    ensures Spaced(qs + [q]) == Spaced(qs) + [32] + q
  {
    if |qs| == 1 {
      assert (qs + [q])[1..] == [q];
    } else {
      SpacedSnoc(qs[1..], q);
      assert (qs + [q])[1..] == qs[1..] + [q];
      Regroup(qs[0] + [SPACE], Spaced(qs[1..]), [32], q);
    }
  }

  /** The slices of one unit that quoting is made of refuse half of a surrogate pair. */
  predicate Sliceable(s: Text) { forall i | 0 <= i < |s| :: !E.Trailing(s[i]) }

  predicate SliceableAll(words: seq<Text>) { forall w | w in words :: Sliceable(w) }

  predicate Quotable(c: Command) {
    Sliceable(c.program) && SliceableAll(c.args) && (c.cwd.Some? ==> Sliceable(c.cwd.value))
  }

  lemma SliceableIs(s: Text)
    ensures Sliceable(s) <==> forall u | u in s :: u < 0xdc00 || 0xe000 <= u
  {
    if forall u | u in s :: u < 0xdc00 || 0xe000 <= u {
      assert forall i | 0 <= i < |s| :: s[i] in s;
    }
    if Sliceable(s) {
      forall u | u in s ensures u < 0xdc00 || 0xe000 <= u {
        var i :| 0 <= i < |s| && s[i] == u;
        assert !E.Trailing(s[i]);
      }
    }
  }

  lemma QuotableIs(c: Command)
    ensures Quotable(c) <==>
      (forall w | w in [c.program] + c.args :: forall u | u in w :: u < 0xdc00 || 0xe000 <= u)
      && (c.cwd.Some? ==> forall u | u in c.cwd.value :: u < 0xdc00 || 0xe000 <= u)
  {
    forall w: Text ensures Sliceable(w) <==> forall u | u in w :: u < 0xdc00 || 0xe000 <= u { SliceableIs(w); }
    assert c.program in [c.program] + c.args && forall w | w in c.args :: w in [c.program] + c.args;
  }

  /** The quoter of the program itself, which panics (`None`) on a unit it cannot slice out. */
  method QuoteShellArg(value: Text) returns (quoted: Option<Text>)
    ensures quoted == if Sliceable(value) then Some(Quoted(value)) else None
  {
    var parts := [];
    var i := 0;
    while i < |value|
      invariant 0 <= i <= |value| && parts == Body(value[..i]) && Sliceable(value[..i])
    {
      if E.Trailing(value[i]) || (i + 1 < |value| && E.Trailing(value[i + 1])) {
        return None;
      }
      BodyStep(value, i);
      assert value[..i + 1] == value[..i] + [value[i]];
      parts := parts + QuotedUnit(value[i]);
      i := i + 1;
    }
    assert value[..i] == value;
    quoted := Some([QUOTE] + parts + [QUOTE]);
  }

  method ToShellCommand(c: Command) returns (line: Option<Text>)
    ensures line == if Quotable(c) then Some(CommandLine(c)) else None
  {
    var first := QuoteShellArg(c.program);
    if first.None? { return None; }
    var parts := [first.value];
    var i := 0;
    while i < |c.args|
      invariant 0 <= i <= |c.args| && parts == QuotedAll([c.program] + c.args[..i]) && SliceableAll(c.args[..i])
    {
      var part := QuoteShellArg(c.args[i]);
      if part.None? { return None; }
      assert c.args[..i + 1] == c.args[..i] + [c.args[i]];
      assert [c.program] + c.args[..i + 1] == [c.program] + c.args[..i] + [c.args[i]];
      QuotedSnoc([c.program] + c.args[..i], c.args[i]);
      parts := parts + [part.value];
      i := i + 1;
    }
    assert c.args[..i] == c.args;
    var command := Spaced(parts);
    if c.cwd.None? { return Some(command); }
    var dir := QuoteShellArg(c.cwd.value);
    if dir.None? { return None; }
    line := Some(CD + [SPACE] + dir.value + [SPACE, AMPERSAND, AMPERSAND, SPACE] + command);
  }

  lemma {:induction false} QuotedSnoc(words: seq<Text>, w: Text)
    ensures QuotedAll(words + [w]) == QuotedAll(words) + [Quoted(w)]
  {
    if words == [] {
      assert words + [w] == [w];
    } else {
      QuotedSnoc(words[1..], w);
      assert (words + [w])[1..] == words[1..] + [w];
    }
  }

  lemma ReadsCd(rest: Text, done: seq<Token>)
    ensures Lex(CD + [SPACE] + rest, done, Nothing, false) == Lex(rest, done + [Word(CD)], Nothing, false)
  {
    var s := CD + [SPACE] + rest;
    var s1, s2 := s[1..], s[2..];
    assert s1[1..] == s2 == [SPACE] + rest && [99] + [100] == CD;
    assert Lex(s, done, Nothing, false) == Lex(s1, done, Part([99], true), false);
    assert Lex(s1, done, Part([99], true), false) == Lex(s2, done, Part([99] + [100], true), false);
    Blank(rest, done, Part([99] + [100], true));
  }

  lemma ReadsAndIf(rest: Text, done: seq<Token>, w: Partial)
    ensures Lex([SPACE, AMPERSAND, AMPERSAND, SPACE] + rest, done, w, false)
         == Lex(rest, done + Finished(w) + [AndIf], Nothing, false)
  {
    var s := [SPACE, AMPERSAND, AMPERSAND, SPACE] + rest;
    var s1, s2, d := s[1..], s[3..], done + Finished(w);
    assert s1[2..] == s2 && s2 == [SPACE] + rest;
    assert Lex(s, done, w, false) == Lex(s1, d, Nothing, false);
    assert d + Finished(Nothing) + [AndIf] == d + [AndIf];
    assert Lex(s1, d, Nothing, false) == Lex(s2, d + [AndIf], Nothing, false);
    Blank(rest, d + [AndIf], Nothing);
    assert d + [AndIf] + Finished(Nothing) == d + [AndIf];
  }

  lemma ReadsDirectory(dir: Text, line: Text, done: seq<Token>)
    ensures Lex(CD + [SPACE] + (Quoted(dir) + ([SPACE, AMPERSAND, AMPERSAND, SPACE] + line)), done, Nothing, false)
         == Lex(line, done + [Word(CD)] + [Word(dir)] + [AndIf], Nothing, false)
  {
    var tail := [SPACE, AMPERSAND, AMPERSAND, SPACE] + line;
    ReadsCd(Quoted(dir) + tail, done);
    ReadsQuoted(dir, tail, done + [Word(CD)]);
    ReadsAndIf(line, done + [Word(CD)], Part(dir, false));
  }

  /** The shell sees the program, the arguments and the directory as they were given. */
  lemma ReadsCommand(c: Command, rest: Text, done: seq<Token>)
    ensures var ts, words := CommandTokens(c), [c.program] + c.args;
      ts != [] && ts[|ts| - 1] == Word(words[|words| - 1])
      && Lex(CommandLine(c) + rest, done, Nothing, false)
         == Lex(rest, done + ts[..|ts| - 1], Part(words[|words| - 1], false), false)
  {
    var words := [c.program] + c.args;
    WordAt(words, |words| - 1);
    if c.cwd.None? {
      ReadsWords(words, rest, done);
      assert CommandTokens(c) == Words(words);
    } else {
      ReadsInDirectory(c, words, rest, done);
    }
  }

  lemma ReadsInDirectory(c: Command, words: seq<Text>, rest: Text, done: seq<Token>)
    requires c.cwd.Some? && words == [c.program] + c.args
    ensures var ts := CommandTokens(c);
      ts == [Word(CD), Word(c.cwd.value), AndIf] + Words(words)
      && Lex(CommandLine(c) + rest, done, Nothing, false)
         == Lex(rest, done + ts[..|ts| - 1], Part(words[|words| - 1], false), false)
  {
    var dir, line := c.cwd.value, Spaced(QuotedAll(words)) + rest;
    var d := done + [Word(CD)] + [Word(dir)] + [AndIf];
    LineInDirectory(Spaced(QuotedAll(words)), dir, rest);
    ReadsDirectory(dir, line, done);
    ReadsWords(words, rest, d);
    DirectoryTokens(done, dir, Words(words), |words| - 1);
  }

  lemma LineInDirectory(words: Text, dir: Text, rest: Text)
    ensures CD + [SPACE] + Quoted(dir) + [SPACE, AMPERSAND, AMPERSAND, SPACE] + words + rest
         == CD + [SPACE] + (Quoted(dir) + ([SPACE, AMPERSAND, AMPERSAND, SPACE] + (words + rest)))
  {
  }

  lemma DirectoryTokens(done: seq<Token>, dir: Text, ws: seq<Token>, n: nat)
    requires |ws| == n + 1
    ensures var ts := [Word(CD), Word(dir), AndIf] + ws;
      done + [Word(CD)] + [Word(dir)] + [AndIf] + ws[..n] == done + ts[..|ts| - 1]
  {
  }

  /** The line handed to the system: the command in a subshell with both output streams redirected. */
  function Redirected(command: Text, out: Text, err: Text): Text {
    [40] + command + [41, SPACE, GREATER, SPACE] + Quoted(out) + [SPACE, 50, GREATER, SPACE] + Quoted(err)
  }

  lemma ReadsOut(rest: Text, done: seq<Token>, w: Text)
    ensures Lex([41, SPACE, GREATER, SPACE] + rest, done, Part(w, false), false)
         == Lex(rest, done + [Word(w), Op(41), Op(GREATER)], Nothing, false)
  {
    var s := [41, SPACE, GREATER, SPACE] + rest;
    var s1, s2, s3, d := s[1..], s[2..], s[3..], done + [Word(w)] + [Op(41)];
    assert s1[1..] == s2 && s2[1..] == s3 && s1 == [SPACE] + s2 && s3 == [SPACE] + rest;
    assert Lex(s, done, Part(w, false), false) == Lex(s1, d, Nothing, false);
    Blank(s2, d, Nothing);
    assert d + Finished(Nothing) == d && d + FinishedBefore(Nothing) + [Op(GREATER)] == d + [Op(GREATER)];
    assert Lex(s2, d, Nothing, false) == Lex(s3, d + [Op(GREATER)], Nothing, false);
    Blank(rest, d + [Op(GREATER)], Nothing);
    assert d + [Op(GREATER)] + Finished(Nothing) == done + [Word(w), Op(41), Op(GREATER)];
  }

  lemma ReadsErr(rest: Text, done: seq<Token>, w: Text)
    ensures Lex([SPACE, 50, GREATER, SPACE] + rest, done, Part(w, false), false)
         == Lex(rest, done + [Word(w), IoNumber([50]), Op(GREATER)], Nothing, false)
  {
    var s := [SPACE, 50, GREATER, SPACE] + rest;
    var s1, s2, s3, d, two := s[1..], s[2..], s[3..], done + [Word(w)], Part([50], true);
    assert s1[1..] == s2 && s2[1..] == s3 && s == [SPACE] + s1 && s3 == [SPACE] + rest;
    Blank(s1, done, Part(w, false));
    assert Extend(Nothing, 50, false) == two && !Active(50);
    assert Lex(s1, d, Nothing, false) == Lex(s2, d, two, false);
    assert FinishedBefore(two) == [IoNumber([50])];
    assert Lex(s2, d, two, false) == Lex(s3, d + [IoNumber([50])] + [Op(GREATER)], Nothing, false);
    Blank(rest, d + [IoNumber([50])] + [Op(GREATER)], Nothing);
    assert d + [IoNumber([50])] + [Op(GREATER)] + Finished(Nothing) == done + [Word(w), IoNumber([50]), Op(GREATER)];
  }

  function Redirections(out: Text, err: Text): seq<Token> {
    [Op(41), Op(GREATER), Word(out), IoNumber([50]), Op(GREATER), Word(err)]
  }

  lemma ReadsRedirections(out: Text, err: Text, done: seq<Token>, w: Text)
    ensures Lex([41, SPACE, GREATER, SPACE] + (Quoted(out) + ([SPACE, 50, GREATER, SPACE] + Quoted(err))),
                done, Part(w, false), false)
         == Some(done + [Word(w)] + Redirections(out, err))
  {
    var e := [SPACE, 50, GREATER, SPACE] + Quoted(err);
    ReadsOut(Quoted(out) + e, done, w);
    var d1 := done + [Word(w), Op(41), Op(GREATER)];
    ReadsQuoted(out, e, d1);
    ReadsErr(Quoted(err), d1, out);
    var d2 := d1 + [Word(out), IoNumber([50]), Op(GREATER)];
    ReadsLast(err, d2);
    assert d2 + [Word(err)] == done + [Word(w)] + Redirections(out, err);
  }

  lemma ReadsLast(err: Text, done: seq<Token>)
    ensures Lex(Quoted(err), done, Nothing, false) == Some(done + [Word(err)])
  {
    assert Quoted(err) == Quoted(err) + [];
    ReadsQuoted(err, [], done);
  }

  /** Redirecting adds exactly the two redirections, whatever the command and the file names are. */
  lemma ReadsRedirected(c: Command, out: Text, err: Text)
    ensures Tokens(Redirected(CommandLine(c), out, err)) == Some([Op(40)] + CommandTokens(c) + Redirections(out, err))
  {
    var o := [41, SPACE, GREATER, SPACE] + (Quoted(out) + ([SPACE, 50, GREATER, SPACE] + Quoted(err)));
    assert Redirected(CommandLine(c), out, err) == [40] + (CommandLine(c) + o);
    Opens(CommandLine(c) + o);
    ReadsInside(c, out, err, o);
  }

  lemma ReadsInside(c: Command, out: Text, err: Text, o: Text)
    requires o == [41, SPACE, GREATER, SPACE] + (Quoted(out) + ([SPACE, 50, GREATER, SPACE] + Quoted(err)))
    ensures Lex(CommandLine(c) + o, [Op(40)], Nothing, false)
      == Some([Op(40)] + CommandTokens(c) + Redirections(out, err))
  {
    var ts := CommandTokens(c);
    ReadsCommand(c, o, [Op(40)]);
    var n := |ts| - 1;
    ReadsRedirections(out, err, [Op(40)] + ts[..n], ts[n].text);
    PutBack([Op(40)], ts);
  }

  lemma PutBack(a: seq<Token>, ts: seq<Token>)
    requires ts != []
    ensures a + ts[..|ts| - 1] + [ts[|ts| - 1]] == a + ts
  {
  }

  lemma Opens(rest: Text)
    ensures Tokens([40] + rest) == Lex(rest, [Op(40)], Nothing, false)
  {
    assert ([40] + rest)[1..] == rest && [] + Finished(Nothing) + [Op(40)] == [Op(40)];
  }

  // ----- When the shell sees the command as it was given -----

  /** The bytes handed over: each unit cut down to its lowest byte. */
  function Narrow(s: Text): (b: seq<Byte>)
    ensures |b| == |s| && forall i | 0 <= i < |s| :: b[i] == s[i] % 0x100
  {
    seq(|s|, i requires 0 <= i < |s| => s[i] % 0x100)
  }

  /** Units that survive as bytes of a C string. */
  predicate Plain(s: Text) { forall u | u in s :: 0 < u < 0x100 }

  predicate PlainCommand(c: Command) {
    Plain(c.program) && (forall a | a in c.args :: Plain(a)) && (c.cwd.Some? ==> Plain(c.cwd.value))
  }

  function TokenText(t: Token): Text {
    match t
    case Word(text) => text
    case IoNumber(digits) => digits
    case AndIf => []
    case Op(c) => [c]
  }

  // ----- What the tokens make the shell do -----

  /** A program run in a directory, with its arguments and the files that its two output streams go to. */
  datatype Invocation = Invocation(cwd: Option<Text>, argv: seq<Text>, stdout: Text, stderr: Text)

  function LeadingWords(ts: seq<Token>): (ws: seq<Text>)
    ensures |ws| <= |ts|
  {
    if ts == [] || !ts[0].Word? then [] else [ts[0].text] + LeadingWords(ts[1..])
  }

  /** `( words ) > file 2> file`, where `cd dir &&` may stand before the words. */
  function Understood(ts: seq<Token>): Option<Invocation> {
    if ts == [] || ts[0] != Op(40) then None
    else
      var first := LeadingWords(ts[1..]);
      AfterWords(first, ts[1 + |first|..])
  }

  function AfterWords(first: seq<Text>, rest: seq<Token>): Option<Invocation> {
    if rest == [] || rest[0] != AndIf then Streams(None, first, rest)
    else if |first| != 2 || first[0] != [99, 100] then None
    else
      var second := LeadingWords(rest[1..]);
      Streams(Some(first[1]), second, rest[1 + |second|..])
  }

  /** Without a number `>` sends the standard output away, with the number 2 the error output. */
  function Streams(cwd: Option<Text>, argv: seq<Text>, ts: seq<Token>): Option<Invocation> {
    if |ts| == 6 && ts[0] == Op(41) && ts[1] == Op(62) && ts[2].Word?
       && ts[3] == IoNumber([50]) && ts[4] == Op(62) && ts[5].Word?
    then Some(Invocation(cwd, argv, ts[2].text, ts[5].text))
    else None
  }

  lemma {:induction false} LeadingAre(words: seq<Text>, rest: seq<Token>)
    requires rest == [] || !rest[0].Word?
    ensures LeadingWords(Words(words) + rest) == words
  {
    if words == [] {
      assert Words(words) + rest == rest;
    } else {
      LeadingAre(words[1..], rest);
      WordInFront(words[0], Words(words[1..]), rest);
    }
  }

  lemma WordInFront(w: Text, ws: seq<Token>, rest: seq<Token>)
    ensures LeadingWords([Word(w)] + ws + rest) == [w] + LeadingWords(ws + rest)
  {
    assert ([Word(w)] + ws + rest)[1..] == ws + rest;
  }

  lemma UnderstoodInPlace(words: seq<Text>, r: seq<Token>)
    requires r != [] && r[0] == Op(41)
    ensures Understood([Op(40)] + (Words(words) + r)) == Streams(None, words, r)
  {
    var ts := [Op(40)] + (Words(words) + r);
    LeadingAre(words, r);
    assert ts[1..] == Words(words) + r && ts[1 + |words|..] == r;
  }

  lemma UnderstoodInDirectory(dir: Text, words: seq<Text>, r: seq<Token>)
    requires r != [] && r[0] == Op(41)
    ensures Understood([Op(40)] + ([Word(CD), Word(dir)] + ([AndIf] + (Words(words) + r))))
         == Streams(Some(dir), words, r)
  {
    var more := Words(words) + r;
    var ts := [Op(40)] + ([Word(CD), Word(dir)] + ([AndIf] + more));
    LeadingTwo(dir, [AndIf] + more);
    AfterTwo(dir, more, ts);
    LeadingAre(words, r);
    assert more[|words|..] == r;
  }

  lemma LeadingTwo(dir: Text, rest: seq<Token>)
    requires rest != [] && !rest[0].Word?
    ensures LeadingWords([Word(CD), Word(dir)] + rest) == [CD, dir]
  {
    TwoWords(CD, dir);
    LeadingAre([CD, dir], rest);
  }

  lemma AfterTwo(dir: Text, more: seq<Token>, ts: seq<Token>)
    requires ts == [Op(40)] + ([Word(CD), Word(dir)] + ([AndIf] + more))
    requires LeadingWords([Word(CD), Word(dir)] + ([AndIf] + more)) == [CD, dir]
    ensures Understood(ts) == Streams(Some(dir), LeadingWords(more), more[|LeadingWords(more)|..])
  {
    assert ts[1..] == [Word(CD), Word(dir)] + ([AndIf] + more) && ts[3..] == [AndIf] + more;
    AfterDirectory(dir, more);
  }

  lemma AfterDirectory(dir: Text, more: seq<Token>)
    ensures AfterWords([CD, dir], [AndIf] + more)
         == Streams(Some(dir), LeadingWords(more), more[|LeadingWords(more)|..])
  {
    var rest, n := [AndIf] + more, |LeadingWords(more)|;
    assert rest[1..] == more && rest[1 + n..] == more[n..];
  }

  lemma TwoWords(a: Text, b: Text)
    ensures Words([a, b]) == [Word(a), Word(b)]
  {
    var ws: seq<Text> := [a, b];
    assert ws[1..] == [b] && |ws[1..][1..]| == 0;
  }

  lemma IntendedIsUnderstood(c: Command, out: Text, err: Text)
    ensures Understood(Intended(c, out, err)) == Some(Invocation(c.cwd, [c.program] + c.args, out, err))
  {
    var words, r := [c.program] + c.args, Redirections(out, err);
    if c.cwd.None? {
      UnderstoodInPlace(words, r);
      assert Intended(c, out, err) == [Op(40)] + (Words(words) + r);
    } else {
      UnderstoodInDirectory(c.cwd.value, words, r);
      Behind(Words(words), r, c.cwd.value);
    }
  }

  lemma Behind(ws: seq<Token>, r: seq<Token>, dir: Text)
    ensures [Op(40)] + ([Word(CD), Word(dir), AndIf] + ws) + r
         == [Op(40)] + ([Word(CD), Word(dir)] + ([AndIf] + (ws + r)))
  {
  }

  predicate PlainTokens(ts: seq<Token>) { forall t | t in ts :: Plain(TokenText(t)) }

  /** The shell's reading of a command, or `None` when the command cannot be quoted or the line cannot be read. */
  function Seen(c: Command, out: seq<Byte>, err: seq<Byte>): Option<seq<Token>> {
    if Quotable(c) then Tokens(Redirected(CText(Narrow(CommandLine(c))), CText(out), CText(err))) else None
  }

  function Intended(c: Command, out: Text, err: Text): seq<Token> {
    [Op(40)] + CommandTokens(c) + Redirections(out, err)
  }

  /** The lexer yields no unit that is not in its line. */
  lemma {:induction false} LexKeepsPlain(s: Text, done: seq<Token>, w: Partial, inQuotes: bool)
    requires Plain(s) && PlainTokens(done) && (w.Part? ==> Plain(w.text)) && Lex(s, done, w, inQuotes).Some?
    ensures PlainTokens(Lex(s, done, w, inQuotes).value)
    decreases |s|
  {
    if s != [] {
      assert s[0] in s && Plain(s[1..]) by { PlainAppend([s[0]], s[1..]); assert s == [s[0]] + s[1..]; }
      if inQuotes {
        LexKeepsPlain(s[1..], done, if s[0] == QUOTE then w else Extend(w, s[0], true), s[0] != QUOTE);
      } else if s[0] == QUOTE {
        LexKeepsPlain(s[1..], done, Opened(w), true);
      } else if s[0] == BACKSLASH {
        assert s[1] in s && forall u | u in s[2..] :: u in s;
        LexKeepsPlain(s[2..], done, Extend(w, s[1], true), false);
      } else if s[0] == SPACE || s[0] == 9 {
        MoreTokens(done, w, []);
        LexKeepsPlain(s[1..], done + Finished(w), Nothing, false);
      } else if s[0] == AMPERSAND {
        assert forall u | u in s[2..] :: u in s;
        MoreTokens(done, w, [AndIf]);
        LexKeepsPlain(s[2..], done + Finished(w) + [AndIf], Nothing, false);
      } else if s[0] == 40 || s[0] == 41 {
        MoreTokens(done, w, [Op(s[0])]);
        LexKeepsPlain(s[1..], done + Finished(w) + [Op(s[0])], Nothing, false);
      } else if s[0] == GREATER {
        MoreTokens(done, w, [Op(GREATER)]);
        LexKeepsPlain(s[1..], done + FinishedBefore(w) + [Op(GREATER)], Nothing, false);
      } else {
        LexKeepsPlain(s[1..], done, Extend(w, s[0], false), false);
      }
    }
  }

  lemma MoreTokens(done: seq<Token>, w: Partial, ts: seq<Token>)
    requires PlainTokens(done) && (w.Part? ==> Plain(w.text)) && PlainTokens(ts)
    ensures PlainTokens(done + Finished(w)) && PlainTokens(done + Finished(w) + ts)
    ensures PlainTokens(done + FinishedBefore(w) + ts)
  {
  }

  lemma {:induction false} BodyPlain(s: Text)
    ensures Plain(Body(s)) <==> Plain(s)
  {
    if s != [] {
      BodyPlain(s[..|s| - 1]);
      assert s == s[..|s| - 1] + [s[|s| - 1]];
      PlainAppend(s[..|s| - 1], [s[|s| - 1]]);
      PlainAppend(Body(s[..|s| - 1]), QuotedUnit(s[|s| - 1]));
      UnitPlain(s[|s| - 1]);
    }
  }

  lemma UnitPlain(c: Unit)
    ensures Plain(QuotedUnit(c)) <==> Plain([c])
  {
    assert c in QuotedUnit(c) && c in [c];
  }

  lemma PlainAppend(a: Text, b: Text)
    ensures Plain(a + b) <==> Plain(a) && Plain(b)
  {
    assert forall u :: u in a + b <==> u in a || u in b;
  }

  lemma QuotedPlain(s: Text)
    ensures Plain(Quoted(s)) <==> Plain(s)
  {
    BodyPlain(s);
    PlainAppend([QUOTE], Body(s));
    PlainAppend([QUOTE] + Body(s), [QUOTE]);
  }

  lemma {:induction false} SpacedPlain(words: seq<Text>)
    requires forall w | w in words :: Plain(w)
    ensures Plain(Spaced(QuotedAll(words)))
  {
    if words != [] {
      QuotedPlain(words[0]);
      if |words| > 1 {
        SpacedPlain(words[1..]);
        SpacedCons(Quoted(words[0]), QuotedAll(words[1..]));
        PlainAppend(Quoted(words[0]), [SPACE]);
        PlainAppend(Quoted(words[0]) + [SPACE], Spaced(QuotedAll(words[1..])));
      }
    }
  }

  lemma LinePlain(c: Command)
    requires PlainCommand(c)
    ensures Plain(CommandLine(c))
  {
    var words := [c.program] + c.args;
    SpacedPlain(words);
    if c.cwd.Some? {
      var cd, gap := CD + [SPACE], [SPACE, AMPERSAND, AMPERSAND, SPACE];
      QuotedPlain(c.cwd.value);
      PlainAppend(cd, Quoted(c.cwd.value));
      PlainAppend(cd + Quoted(c.cwd.value), gap);
      PlainAppend(cd + Quoted(c.cwd.value) + gap, Spaced(QuotedAll(words)));
    }
  }

  lemma RedirectedPlain(command: Text, out: Text, err: Text)
    requires Plain(command) && Plain(out) && Plain(err)
    ensures Plain(Redirected(command, out, err))
  {
    QuotedPlain(out);
    QuotedPlain(err);
    var a, b := [40] + command + [41, SPACE, GREATER, SPACE], [SPACE, 50, GREATER, SPACE];
    PlainAppend([40], command);
    PlainAppend([40] + command, [41, SPACE, GREATER, SPACE]);
    PlainAppend(a, Quoted(out));
    PlainAppend(a + Quoted(out), b);
    PlainAppend(a + Quoted(out) + b, Quoted(err));
  }

  lemma CTextPlain(b: seq<Byte>)
    ensures Plain(CText(b))
  {
  }

  lemma PlainNarrow(s: Text)
    requires Plain(s)
    ensures CText(Narrow(s)) == s
  {
    forall i | 0 <= i < |s| ensures Narrow(s)[i] == s[i] {
      assert s[i] in s;
    }
    assert Narrow(s) == s && 0 !in s;
  }

  lemma WordsPlain(words: seq<Text>)
    requires PlainTokens(Words(words))
    ensures forall w | w in words :: Plain(w)
  {
    forall w | w in words ensures Plain(w) {
      var i :| 0 <= i < |words| && words[i] == w;
      WordAt(words, i);
      assert Plain(TokenText(Words(words)[i]));
    }
  }

  lemma IntendedPlain(c: Command, out: Text, err: Text)
    requires PlainTokens(Intended(c, out, err))
    ensures PlainCommand(c) && Plain(out) && Plain(err)
  {
    var ts, words := Intended(c, out, err), [c.program] + c.args;
    assert forall t | t in Words(words) :: t in ts;
    WordsPlain(words);
    assert c.program in words && forall a | a in c.args :: a in words;
    assert Redirections(out, err)[2] in ts && Redirections(out, err)[5] in ts;
    if c.cwd.Some? { assert CommandTokens(c)[1] in ts; }
  }

  /**
    * The shell sees the directory, the program, the arguments and the two file names as they were given
    * exactly when all of them are made of units that survive as bytes of a C string.
    */
  lemma SeenAsIntendedIff(c: Command, out: seq<Byte>, err: seq<Byte>)
    ensures Seen(c, out, err) == Some(Intended(c, out, err)) <==> PlainCommand(c) && 0 !in out && 0 !in err
  {
    if PlainCommand(c) && 0 !in out && 0 !in err {
      LinePlain(c);
      PlainNarrow(CommandLine(c));
      ReadsRedirected(c, out, err);
      PlainIsQuotable(c);
    }
    if Seen(c, out, err) == Some(Intended(c, out, err)) {
      SeenPlain(c, out, err);
    }
  }

  lemma {:induction false} LeadingPlain(ts: seq<Token>)
    requires PlainTokens(ts)
    ensures forall w | w in LeadingWords(ts) :: Plain(w)
  {
    if ts != [] && ts[0].Word? {
      assert Plain(TokenText(ts[0])) && forall t | t in ts[1..] :: t in ts;
      LeadingPlain(ts[1..]);
    }
  }

  lemma UnderstoodPlain(ts: seq<Token>)
    requires PlainTokens(ts) && Understood(ts).Some?
    ensures PlainInvocation(Understood(ts).value)
  {
    var first := LeadingWords(ts[1..]);
    var rest := ts[1 + |first|..];
    assert forall t | t in ts[1..] :: t in ts;
    assert forall t | t in rest :: t in ts;
    LeadingPlain(ts[1..]);
    AfterWordsPlain(first, rest);
  }

  predicate PlainInvocation(i: Invocation) {
    (forall w | w in i.argv :: Plain(w)) && (i.cwd.Some? ==> Plain(i.cwd.value)) && Plain(i.stdout) && Plain(i.stderr)
  }

  lemma AfterWordsPlain(first: seq<Text>, rest: seq<Token>)
    requires (forall w | w in first :: Plain(w)) && PlainTokens(rest) && AfterWords(first, rest).Some?
    ensures PlainInvocation(AfterWords(first, rest).value)
  {
    if rest != [] && rest[0] == AndIf {
      var second := LeadingWords(rest[1..]);
      var last := rest[1 + |second|..];
      assert forall t | t in rest[1..] :: t in rest;
      assert forall t | t in last :: t in rest;
      LeadingPlain(rest[1..]);
      StreamsPlain(Some(first[1]), second, last);
      assert first[1] in first;
    } else {
      StreamsPlain(None, first, rest);
    }
  }

  lemma StreamsPlain(cwd: Option<Text>, argv: seq<Text>, ts: seq<Token>)
    requires PlainTokens(ts) && Streams(cwd, argv, ts).Some?
    ensures Plain(Streams(cwd, argv, ts).value.stdout) && Plain(Streams(cwd, argv, ts).value.stderr)
  {
    assert ts[2] in ts && ts[5] in ts;
    assert Plain(TokenText(ts[2])) && Plain(TokenText(ts[5]));
  }

  /**
    * The shell runs the program in the directory, with the arguments and with its two output streams sent to the files
    * that were given, exactly when the texts are made of units from 1 to 255.
    */
  lemma RunsAsGivenIff(c: Command, out: seq<Byte>, err: seq<Byte>)
    ensures (Seen(c, out, err).Some?
             && Understood(Seen(c, out, err).value) == Some(Invocation(c.cwd, [c.program] + c.args, out, err)))
      <==> (forall w | w in [c.program] + c.args :: forall u | u in w :: 0 < u < 0x100)
           && (c.cwd.Some? ==> forall u | u in c.cwd.value :: 0 < u < 0x100) && 0 !in out && 0 !in err
  {
    PlainWords(c);
    if PlainCommand(c) && 0 !in out && 0 !in err {
      SeenAsIntendedIff(c, out, err);
      IntendedIsUnderstood(c, out, err);
    }
    if Seen(c, out, err).Some? {
      RunIsPlain(c, out, err, Seen(c, out, err).value);
    }
  }

  lemma RunIsPlain(c: Command, out: seq<Byte>, err: seq<Byte>, ts: seq<Token>)
    requires Seen(c, out, err) == Some(ts)
    ensures Understood(ts) == Some(Invocation(c.cwd, [c.program] + c.args, out, err)) ==>
      PlainCommand(c) && 0 !in out && 0 !in err
  {
    SeenIsPlain(c, out, err);
    if Understood(ts).Some? { UnderstoodPlain(ts); }
    PlainWords(c);
  }

  lemma PlainWords(c: Command)
    ensures PlainCommand(c) <==>
      (forall w | w in [c.program] + c.args :: Plain(w)) && (c.cwd.Some? ==> Plain(c.cwd.value))
  {
    var words := [c.program] + c.args;
    assert c.program in words && forall a | a in c.args :: a in words;
  }

  lemma PlainIsQuotable(c: Command)
    requires PlainCommand(c)
    ensures Quotable(c)
  {
    forall s: Text | Plain(s) ensures Sliceable(s) {
      assert forall i | 0 <= i < |s| :: s[i] in s;
    }
  }

  lemma SeenPlain(c: Command, out: seq<Byte>, err: seq<Byte>)
    requires Seen(c, out, err) == Some(Intended(c, out, err))
    ensures PlainCommand(c) && 0 !in out && 0 !in err
  {
    SeenIsPlain(c, out, err);
    IntendedPlain(c, out, err);
  }

  lemma SeenIsPlain(c: Command, out: seq<Byte>, err: seq<Byte>)
    requires Seen(c, out, err).Some?
    ensures PlainTokens(Seen(c, out, err).value)
  {
    var command := CText(Narrow(CommandLine(c)));
    CTextPlain(Narrow(CommandLine(c)));
    CTextPlain(out);
    CTextPlain(err);
    RedirectedPlain(command, CText(out), CText(err));
    LexKeepsPlain(Redirected(command, CText(out), CText(err)), [], Nothing, false);
  }

  function Quotes(s: Text): nat { if s == [] then 0 else (if s[0] == QUOTE then 1 else 0) + Quotes(s[1..]) }

  /** Without backslashes, an odd number of quotes leaves one open. */
  lemma {:induction false} OddQuotes(s: Text, done: seq<Token>, w: Partial, inQuotes: bool)
    requires BACKSLASH !in s && Quotes(s) % 2 == if inQuotes then 0 else 1
    ensures Lex(s, done, w, inQuotes) == None
    decreases |s|
  {
    if s != [] {
      if inQuotes {
        OddQuotes(s[1..], done, if s[0] == QUOTE then w else Extend(w, s[0], true), s[0] != QUOTE);
      } else if s[0] == QUOTE {
        OddQuotes(s[1..], done, Opened(w), true);
      } else if s[0] == SPACE || s[0] == 9 {
        OddQuotes(s[1..], done + Finished(w), Nothing, false);
      } else if s[0] == AMPERSAND {
        if |s| >= 2 && s[1] == AMPERSAND {
          assert s[1..][1..] == s[2..];
          OddQuotes(s[2..], done + Finished(w) + [AndIf], Nothing, false);
        }
      } else if s[0] == 40 || s[0] == 41 {
        OddQuotes(s[1..], done + Finished(w) + [Op(s[0])], Nothing, false);
      } else if s[0] == GREATER {
        OddQuotes(s[1..], done + FinishedBefore(w) + [Op(GREATER)], Nothing, false);
      } else {
        OddQuotes(s[1..], done, Extend(w, s[0], false), false);
      }
    }
  }

  lemma {:induction false} QuotesAppend(a: Text, b: Text)
    ensures Quotes(a + b) == Quotes(a) + Quotes(b)
  {
    if a == [] {
      assert a + b == b;
    } else {
      QuotesAppend(a[1..], b);
      assert (a + b)[1..] == a[1..] + b;
    }
  }

  lemma {:induction false} NoQuotes(s: Text)
    requires QUOTE !in s
    ensures Quotes(s) == 0 && Body(s) == s
  {
    if s != [] {
      NoQuotes(s[1..]);
      NoQuotesBody(s, |s|);
      assert s[..|s|] == s;
    }
  }

  lemma {:induction false} NoQuotesBody(s: Text, n: nat)
    requires QUOTE !in s && n <= |s|
    ensures Body(s[..n]) == s[..n]
  {
    if n > 0 {
      assert s[..n][..n - 1] == s[..n - 1] && s[n - 1] in s;
      NoQuotesBody(s, n - 1);
    }
  }

  lemma EvenQuotes(s: Text)
    requires QUOTE !in s
    ensures Quotes(Quoted(s)) == 2 && Quoted(s) == [QUOTE] + s + [QUOTE]
  {
    NoQuotes(s);
    QuotesAppend([QUOTE], s);
    QuotesAppend([QUOTE] + s, [QUOTE]);
  }

  /** A command line that ends inside its quotes leaves a quote open for good. */
  lemma LeavesOpen(command: Text, out: Text, err: Text)
    requires Quotes(command) % 2 == 1 && BACKSLASH !in command
    requires QUOTE !in out && BACKSLASH !in out && QUOTE !in err && BACKSLASH !in err
    ensures Tokens(Redirected(command, out, err)) == None
  {
    QuotesOfLine(command, out, err);
    EvenQuotes(out);
    EvenQuotes(err);
    OddQuotes(Redirected(command, out, err), [], Nothing, false);
  }

  lemma QuotesOfLine(command: Text, out: Text, err: Text)
    requires QUOTE !in out && QUOTE !in err
    ensures Quotes(Redirected(command, out, err)) == Quotes(command) + 4
  {
    EvenQuotes(out);
    EvenQuotes(err);
    var a, b := [41, SPACE, GREATER, SPACE], [SPACE, 50, GREATER, SPACE];
    NoQuotes([40]);
    NoQuotes(a);
    NoQuotes(b);
    QuotesAppend([40], command);
    QuotesAppend([40] + command, a);
    QuotesAppend([40] + command + a, Quoted(out));
    QuotesAppend([40] + command + a + Quoted(out), b);
    QuotesAppend([40] + command + a + Quoted(out) + b, Quoted(err));
  }

  /** A NUL in the program's name cuts the line inside its quotes, and the shell cannot read what is handed over. */
  lemma NulOpensQuote(before: Text, after: Text, out: seq<Byte>, err: seq<Byte>)
    requires Plain(before) && QUOTE !in before && BACKSLASH !in before && Sliceable(after)
    requires QUOTE !in out && BACKSLASH !in out && QUOTE !in err && BACKSLASH !in err
    ensures Seen(Command(before + [0] + after, [], None), out, err) == None
  {
    var c := Command(before + [0] + after, [], None);
    var cut := [QUOTE] + before;
    CutLine(before, after);
    NoQuotes(before);
    QuotesAppend([QUOTE], before);
    LeavesOpen(cut, CText(out), CText(err));
    SeenNone(c, out, err, cut);
  }

  lemma SeenNone(c: Command, out: seq<Byte>, err: seq<Byte>, cut: Text)
    requires CText(Narrow(CommandLine(c))) == cut && Tokens(Redirected(cut, CText(out), CText(err))) == None
    ensures Seen(c, out, err) == None
  {
  }

  lemma NulInProgram()
    ensures Seen(Command([97, 0, 98], [], None), [47, 111], [47, 101]) == None
  {
    NulOpensQuote([97], [98], [47, 111], [47, 101]);
    assert [97] + [0] + [98] == [97, 0, 98];
  }

  lemma CutLine(before: Text, after: Text)
    requires Plain(before) && QUOTE !in before
    ensures CText(Narrow(CommandLine(Command(before + [0] + after, [], None)))) == [QUOTE] + before
  {
    var c := Command(before + [0] + after, [], None);
    var cut := [QUOTE] + before;
    assert [c.program] + c.args == [c.program] && QuotedAll([c.program]) == [Quoted(c.program)];
    QuotedNul(before, after);
    CutAt(cut + [0], Body(after) + [QUOTE], CommandLine(c));
  }

  lemma QuotedNul(before: Text, after: Text)
    requires QUOTE !in before
    ensures Quoted(before + [0] + after) == [QUOTE] + before + [0] + (Body(after) + [QUOTE])
  {
    NoQuotes(before);
    BodyAppend(before + [0], after);
    BodyAppend(before, [0]);
    BodyOfNul();
    Between(before, Body(after));
  }

  lemma BodyOfNul()
    ensures Body([0]) == [0]
  {
    assert [0][..0] == [] && QuotedUnit(0) == [0];
  }

  lemma Between(a: Text, b: Text)
    ensures [QUOTE] + (a + [0] + b) + [QUOTE] == [QUOTE] + a + [0] + (b + [QUOTE])
  {
  }

  lemma {:induction false} BodyAppend(a: Text, b: Text)
    ensures Body(a + b) == Body(a) + Body(b)
  {
    if b == [] {
      assert a + b == a;
    } else {
      var front := b[..|b| - 1];
      BodyAppend(a, front);
      assert (a + b)[..|a + b| - 1] == a + front && (a + b)[|a + b| - 1] == b[|b| - 1];
      assert Body(a) + Body(front) + QuotedUnit(b[|b| - 1]) == Body(a) + (Body(front) + QuotedUnit(b[|b| - 1]));
    }
  }

  lemma CutAt(front: Text, rest: Text, s: Text)
    requires s == front + rest && front != [] && front[|front| - 1] == 0 && Plain(front[..|front| - 1])
    ensures CText(Narrow(s)) == front[..|front| - 1]
  {
    var n, b := |front| - 1, Narrow(s);
    assert b[n] == 0;
    forall i | 0 <= i < n ensures b[i] == front[i] != 0 {
      assert front[i] in front[..n];
    }
  }
}
