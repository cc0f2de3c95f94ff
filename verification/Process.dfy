/** Running a shell command: capturing its output files, framing the result, reading the frame back. */
module Process {
  import opened Wrappers
  import opened Bits
  import opened IntText
  import S = Selectors
  import opened Shell
  import opened CStrings

  type Text = seq<Byte>

  // ----- The captured output -----

  const CHUNK := 4096

  /** A byte buffer that doubles; `data` is null before the first append and after a failed one. */
  class Capture {
    var data: array?<Byte>
    var length: nat
    var capacity: nat

    ghost predicate Valid()
      reads this
    {
      if data == null then length == 0 && capacity == 0 else length <= capacity == data.Length && capacity >= CHUNK
    }

    ghost function Contents(): (s: Text)
      requires Valid()
      reads this, data
      ensures |s| == length
    {
      if data == null then [] else data[..length]
    }

    constructor ()
      ensures Valid() && data == null && Contents() == []
    {
      data, length, capacity := null, 0, 0;
    }

    /** Appends a chunk; when memory runs out, which it may, everything captured so far is dropped. */
    method Append(chunk: Text, mayRunOut: bool) returns (ok: bool)
      requires Valid() && chunk != [] && length + |chunk| <= 0x4000_0000
      modifies this, data
      ensures Valid() && (data == null || data == old(data) || fresh(data))
      ensures (ok <==> data != null) && (!mayRunOut ==> ok)
      ensures Contents() == if ok then old(Contents()) + chunk else []
    {
      ghost var before := Contents();
      if length + |chunk| > capacity {
        var nextCapacity: Int32 := if capacity == 0 then CHUNK else capacity;
        while length + |chunk| > nextCapacity
          invariant capacity <= nextCapacity && CHUNK <= nextCapacity
          decreases length + |chunk| - nextCapacity
        {
          nextCapacity := nextCapacity * 2;
        }
        var enough: bool := *;
        if mayRunOut && !enough {
          data, length, capacity := null, 0, 0;
          return false;
        }
        var next := new Byte[nextCapacity](_ => 0);
        Copy(next, 0, before, length);
        data, capacity := next, nextCapacity;
      }
      Fill(data, length, chunk);
      assert data[..length] == before;
      length := length + |chunk|;
      ok := true;
    }

    method Bytes() returns (s: Text)
      requires Valid()
      ensures s == Contents()
    {
      s := if data == null then [] else data[..length];
    }

    /** The part of a reallocation that carries the old bytes over. */
    method Copy(next: array<Byte>, at: nat, ghost before: Text, n: nat)
      requires Valid() && at == 0 && n == length == |before| <= next.Length && before == Contents() && next != data
      modifies next
      ensures next[..n] == before
    {
      if data != null {
        forall i | 0 <= i < n { next[i] := data[i]; }
        assert next[..n] == data[..n];
      }
    }
  }

  method Fill(buffer: array<Byte>, at: nat, chunk: Text)
    requires at + |chunk| <= buffer.Length
    modifies buffer
    ensures buffer[..] == old(buffer[..at]) + chunk + old(buffer[at + |chunk|..])
  {
    forall i | 0 <= i < |chunk| { buffer[at + i] := chunk[i]; }
  }

  /** What may go wrong: memory running out, and reads that fail. */
  datatype Trouble = Trouble(memory: bool, reading: bool)

  /**
    * Reads a file chunk by chunk; the result is the whole file, a beginning of it when a read failed,
    * or nothing when it is missing or memory ran out.
    */
  method ReadFile(file: Option<Text>, trouble: Trouble) returns (contents: Text)
    requires file.Some? ==> |file.value| <= 0x4000_0000
    ensures file.None? ==> contents == []
    ensures file.Some? ==> contents == file.value || (trouble.memory && contents == [])
                           || (trouble.reading && contents <= file.value)
  {
    if file.None? {
      return [];
    }
    var capture := new Capture();
    var rest := file.value;
    while rest != []
      invariant capture.Valid() && fresh(capture) && (capture.data == null || fresh(capture.data))
      invariant capture.Contents() + rest == file.value
      decreases |rest|
    {
      var works: bool := *;
      if trouble.reading && !works {
        break;
      }
      var chunk, left := NextChunk(rest);
      var ok := capture.Append(chunk, trouble.memory);
      if !ok {
        return [];
      }
      rest := left;
    }
    contents := capture.Bytes();
  }

  /** What one `fread` gives, and what is left. */
  method NextChunk(rest: Text) returns (chunk: Text, left: Text)
    requires rest != []
    ensures chunk + left == rest && 1 <= |chunk| <= CHUNK
  {
    var n :| 1 <= n <= |rest| && n <= CHUNK;
    chunk, left := rest[..n], rest[n..];
  }

  // ----- Exit codes -----

  /** Of the status that `system` reports: -1 when it failed; the low seven bits are zero when the command exited. */
  function ExitCode(status: Int32): (c: Int32)
    ensures c == if status == -1 then 127 else if status % 0x80 == 0 then status / 0x100 % 0x100 else 128
  {
    StatusBits(status);
    if status == -1 then 127
    else if And(AsWord(status), 0x7f) == 0 then And(AsWord(status) / 0x100, 0xff)
    else 128
  }

  lemma StatusBits(status: Int32)
    ensures And(AsWord(status), 0x7f) == status % 0x80
    ensures And(AsWord(status) / 0x100, 0xff) == status / 0x100 % 0x100
  {
    var w := AsWord(status);
    AndMask(w, 7);
    AndMask(w / 0x100, 8);
    assert Pow2(7) == 0x80 && Pow2(8) == 0x100;
    if status < 0 { SignedBits(status); }
  }

  lemma SignedBits(i: Int32)
    requires i < 0
    ensures AsWord(i) % 0x80 == i % 0x80 && AsWord(i) / 0x100 % 0x100 == i / 0x100 % 0x100
  {
    DivModUnique(i + WORD, 0x80, i / 0x80 + 0x200_0000, i % 0x80);
    DivModUnique(i + WORD, 0x100, i / 0x100 + 0x100_0000, i % 0x100);
    DivModUnique(i / 0x100 + 0x100_0000, 0x100, i / 0x100 / 0x100 + 0x1_0000, i / 0x100 % 0x100);
  }

  // ----- The frame -----

  const NEWLINE: Byte := 10

  function Prefix(code: Int32, out: Int32, err: Int32): Text {
    Text10(code) + [NEWLINE] + Text10(out) + [NEWLINE] + Text10(err) + [NEWLINE]
  }

  function Text10(x: Int32): Text { IntText.Text(x, 10) }

  function Frame(code: Int32, out: Text, err: Text): Text
    requires |out| < 0x8000_0000 && |err| < 0x8000_0000
  {
    Prefix(code, |out|, |err|) + out + err
  }

  lemma {:induction false} FewDigits(n: nat, k: nat)
    requires n < Pow10(k)
    ensures |Digits(n, 10)| <= k
  {
    if n > 0 {
      DivStep(n, 10);
      FewDigits(n / 10, k - 1);
    }
  }

  function Pow10(k: nat): nat { if k == 0 then 1 else 10 * Pow10(k - 1) }

  /** The three numbers fit the buffer that is printed into, terminator included. */
  lemma PrefixFits(status: Int32, out: Int32, err: Int32)
    requires out >= 0 && err >= 0
    ensures |Prefix(ExitCode(status), out, err)| < 32
  {
    assert Pow10(3) == 1000 && Pow10(5) == 100000 && Pow10(10) == Pow10(5) * 100000;
    FewDigits(ExitCode(status), 3);
    FewDigits(out, 10);
    FewDigits(err, 10);
  }

  // ----- Reading the frame -----

  method ParseNumber(value: Text) returns (code: Int32)
    ensures code == S.Wrapped(S.Positional(value))
  {
    code := 0;
    var i := 0;
    while i < |value|
      invariant 0 <= i <= |value| && code == S.Wrapped(S.Positional(value[..i]))
    {
      assert value[..i + 1][..i] == value[..i];
      S.WrapStep(S.Positional(value[..i]), value[i]);
      code := S.Wrapped(S.Wrapped(code * 10) + S.Digit(value[i]));
      i := i + 1;
    }
    assert value[..i] == value;
  }

  /** Where the line that starts at `start` ends. */
  function LineEnd(s: Text, start: nat): (e: nat)
    requires start <= |s|
    ensures start <= e <= |s|
    decreases |s| - start
  {
    if start == |s| || s[start] == NEWLINE then start else LineEnd(s, start + 1)
  }

  method ParseNumberLine(encoded: Text, start: nat) returns (number: Int32, next: nat)
    requires start <= |encoded|
    ensures number == NumberAt(encoded, start) && next == LineEnd(encoded, start) + 1
  {
    var splitAt, i := |encoded|, start;
    while i < |encoded|
      invariant start <= i <= |encoded| && LineEnd(encoded, start) == LineEnd(encoded, i) && splitAt == |encoded|
    {
      if encoded[i] == NEWLINE {
        splitAt := i;
        break;
      }
      i := i + 1;
    }
    number := ParseNumber(encoded[start..splitAt]);
    next := splitAt + 1;
  }

  datatype Outcome = Outcome(code: Int32, stdout: Text, stderr: Text)

  /** Slicing a text: a negative position counts from its end, one outside it makes the reader panic (`None`). */
  function Sub(s: Text, start: int, stop: int): (r: Option<Text>)
    ensures 0 <= start <= stop <= |s| ==> r == Some(s[start..stop])
    ensures r.Some? ==> |r.value| <= |s|
  {
    var a := if start < 0 then |s| + start else start;
    var b := if stop < 0 then |s| + stop else stop;
    if 0 <= a <= b <= |s| then Some(s[a..b]) else None
  }

  /** What lies between two positions, each counted from the front or, negative, from the end. */
  lemma SubBetween(x: Text, y: Text, z: Text)
    ensures var s := x + y + z;
      && Sub(s, |x|, |x + y|) == Some(y) && (z != [] ==> Sub(s, |x|, -|z|) == Some(y))
      && (y + z != [] ==> Sub(s, -|y + z|, |x + y|) == Some(y)) && (z != [] ==> Sub(s, -|y + z|, -|z|) == Some(y))
  {
    var s := x + y + z;
    assert s[|x|..|x + y|] == y;
  }

  /** Nothing else is a slice. */
  lemma SubOnly(s: Text, start: int, stop: int) returns (x: Text, z: Text)
    requires Sub(s, start, stop).Some?
    ensures var y := Sub(s, start, stop).value;
      s == x + y + z && (start == |x| || start == -|y + z| < 0) && (stop == |x + y| || stop == -|z| < 0)
  {
    var a := if start < 0 then |s| + start else start;
    var b := if stop < 0 then |s| + stop else stop;
    x, z := s[..a], s[b..];
    assert Sub(s, start, stop) == Some(s[a..b]);
  }

  /** The reader of frames; positions are 32-bit integers that wrap around. */
  method ParseProcessResult(encoded: Text) returns (r: Option<Outcome>)
    ensures r == Parsed(encoded)
  {
    var code, afterExit := ParseNumberLine(encoded, 0);
    var header := ParseLengths(encoded, code, afterExit);
    r := if header.None? then None else Sliced(encoded, header.value);
  }

  /** The second and third line of the frame. */
  method ParseLengths(encoded: Text, code: Int32, afterExit: nat) returns (r: Option<Header>)
    ensures r == SecondLine(encoded, code, afterExit)
  {
    if afterExit > |encoded| { return None; }
    var outLength, afterOut := ParseNumberLine(encoded, afterExit);
    r := ParseLast(encoded, code, outLength, afterOut);
  }

  method ParseLast(encoded: Text, code: Int32, outLength: Int32, afterOut: nat) returns (r: Option<Header>)
    ensures r == ThirdLine(encoded, code, outLength, afterOut)
  {
    if afterOut > |encoded| { return None; }
    var errLength, afterErr := ParseNumberLine(encoded, afterOut);
    r := Some(Header(code, outLength, errLength, afterErr));
  }

  function NumberAt(s: Text, start: nat): Int32
    requires start <= |s|
  {
    S.Wrapped(S.Positional(s[start..LineEnd(s, start)]))
  }

  /** The three numbers and where the outputs begin. */
  datatype Header = Header(code: Int32, out: Int32, err: Int32, body: nat)

  function HeaderOf(s: Text): Option<Header> { SecondLine(s, NumberAt(s, 0), LineEnd(s, 0) + 1) }

  function SecondLine(s: Text, code: Int32, a: nat): Option<Header> {
    if a > |s| then None else ThirdLine(s, code, NumberAt(s, a), LineEnd(s, a) + 1)
  }

  function ThirdLine(s: Text, code: Int32, out: Int32, b: nat): Option<Header> {
    if b > |s| then None else Some(Header(code, out, NumberAt(s, b), LineEnd(s, b) + 1))
  }

  function Plus(a: int, b: int): Int32 { S.Wrapped(a + b) }

  /** The two outputs, which follow the header and each other. */
  function Sliced(s: Text, h: Header): Option<Outcome> {
    var d := Plus(h.body, h.out);
    var e := Plus(d, h.err);
    var stdout, stderr := Sub(s, h.body, d), Sub(s, d, e);
    if stdout.None? || stderr.None? then None else Some(Outcome(h.code, stdout.value, stderr.value))
  }

  function Parsed(s: Text): Option<Outcome> {
    if HeaderOf(s).None? then None else Sliced(s, HeaderOf(s).value)
  }

  // ----- The frame is read back -----

  lemma {:induction false} LineEndAt(s: Text, start: nat, n: nat)
    requires start + n < |s| && s[start + n] == NEWLINE && forall i | start <= i < start + n :: s[i] != NEWLINE
    ensures LineEnd(s, start) == start + n
    decreases n
  {
    if n > 0 { LineEndAt(s, start + 1, n - 1); }
  }

  ghost predicate LineAt(s: Text, start: nat, t: Text) {
    start + |t| < |s| && s[start..start + |t|] == t && s[start + |t|] == NEWLINE
  }

  /** The digits of a number, however they were printed. */
  ghost predicate Shows(t: Text, x: int) {
    (forall i | 0 <= i < |t| :: 48 <= t[i] < 58) && S.Wrapped(S.Positional(t)) == x
  }

  lemma PrintedShows(x: Int32)
    requires x >= 0
    ensures Shows(Text10(x), x)
  {
    S.PrintedIsDecimal(x);
  }

  lemma ReadsNumber(s: Text, start: nat, t: Text, x: int)
    requires LineAt(s, start, t) && Shows(t, x)
    ensures LineEnd(s, start) == start + |t| && NumberAt(s, start) == x
  {
    ReadsLine(s, start, t);
  }

  lemma ReadsLine(s: Text, start: nat, t: Text)
    requires LineAt(s, start, t) && forall i | 0 <= i < |t| :: 48 <= t[i] < 58
    ensures LineEnd(s, start) == start + |t|
  {
    forall i | start <= i < start + |t| ensures s[i] != NEWLINE {
      assert s[i] == s[start..start + |t|][i - start];
    }
    LineEndAt(s, start, |t|);
  }

  lemma FrameParts(t0: Text, t1: Text, t2: Text, n: Text, out: Text, err: Text)
    requires n == [NEWLINE]
    ensures var s := t0 + n + t1 + n + t2 + n + out + err;
      LineAt(s, 0, t0) && LineAt(s, |t0| + 1, t1) && LineAt(s, |t0| + |t1| + 2, t2)
    ensures var s, c := t0 + n + t1 + n + t2 + n + out + err, |t0| + |t1| + |t2| + 3;
      |s| == c + |out| + |err| && s[c..c + |out|] == out && s[c + |out|..c + |out| + |err|] == err
  {
  }

  lemma PlusFits(a: int, b: int)
    requires -0x8000_0000 <= a + b < 0x8000_0000
    ensures Plus(a, b) == a + b
  {
  }

  lemma SlicesBoth(s: Text, code: Int32, c: nat, out: Text, err: Text)
    requires |s| == c + |out| + |err| < 0x8000_0000
    requires s[c..c + |out|] == out && s[c + |out|..c + |out| + |err|] == err
    ensures Sliced(s, Header(code, |out|, |err|, c)) == Some(Outcome(code, out, err))
  {
    PlusFits(c, |out|);
    PlusFits(c + |out|, |err|);
  }

  lemma ThreeNumbers(s: Text, a: nat, b: nat, c: nat, code: Int32, out: Int32, err: Int32)
    requires LineEnd(s, 0) + 1 == a <= |s| && NumberAt(s, 0) == code
    requires LineEnd(s, a) + 1 == b <= |s| && NumberAt(s, a) == out
    requires LineEnd(s, b) + 1 == c && NumberAt(s, b) == err
    ensures HeaderOf(s) == Some(Header(code, out, err, c))
  {
  }

  lemma ReadsHeader(s: Text, code: Int32, out: Int32, err: Int32, t0: Text, t1: Text, t2: Text)
    requires Shows(t0, code) && Shows(t1, out) && Shows(t2, err)
    requires LineAt(s, 0, t0) && LineAt(s, |t0| + 1, t1) && LineAt(s, |t0| + |t1| + 2, t2)
    ensures HeaderOf(s) == Some(Header(code, out, err, |t0| + |t1| + |t2| + 3))
  {
    ReadsNumber(s, 0, t0, code);
    ReadsNumber(s, |t0| + 1, t1, out);
    ReadsNumber(s, |t0| + |t1| + 2, t2, err);
    ThreeNumbers(s, |t0| + 1, |t0| + |t1| + 2, |t0| + |t1| + |t2| + 3, code, out, err);
  }

  lemma ReadsFrame(s: Text, code: Int32, out: Text, err: Text, c: nat)
    requires |s| == c + |out| + |err| < 0x8000_0000 && HeaderOf(s) == Some(Header(code, |out|, |err|, c))
    requires s[c..c + |out|] == out && s[c + |out|..c + |out| + |err|] == err
    ensures Parsed(s) == Some(Outcome(code, out, err))
  {
    SlicesBoth(s, code, c, out, err);
  }

  lemma AnyFrame(t0: Text, t1: Text, t2: Text, code: Int32, out: Text, err: Text)
    requires Shows(t0, code) && Shows(t1, |out|) && Shows(t2, |err|)
    requires |t0| + |t1| + |t2| + 3 + |out| + |err| < 0x8000_0000
    ensures var n := [NEWLINE]; Parsed(t0 + n + t1 + n + t2 + n + out + err) == Some(Outcome(code, out, err))
  {
    var n := [NEWLINE];
    FrameParts(t0, t1, t2, n, out, err);
    var s := t0 + n + t1 + n + t2 + n + out + err;
    ReadsHeader(s, code, |out|, |err|, t0, t1, t2);
    ReadsFrame(s, code, out, err, |t0| + |t1| + |t2| + 3);
  }

  /**
    * Whatever the two outputs hold, newlines and digits included, the frame is read back as it was written,
    * provided that its length is a 32-bit integer.
    */
  lemma FrameRoundTrip(code: Int32, out: Text, err: Text)
    requires code >= 0 && |out| < 0x8000_0000 && |err| < 0x8000_0000 && |Frame(code, out, err)| < 0x8000_0000
    ensures Parsed(Frame(code, out, err)) == Some(Outcome(code, out, err))
  {
    PrintedShows(code);
    PrintedShows(|out|);
    PrintedShows(|err|);
    AnyFrame(Text10(code), Text10(|out|), Text10(|err|), code, out, err);
  }

  function Size(file: Option<Text>): nat { if file.None? then 0 else |file.value| }

  /** `snprintf` into a buffer that was measured with `strlen`: nothing is cut off. */
  method FormatLine(command: Text, outQuoted: Text, errQuoted: Text) returns (line: Text)
    ensures line ==
      [40] + CText(command) + [41, SPACE, GREATER, SPACE] + CText(outQuoted)
      + [SPACE, 50, GREATER, SPACE] + CText(errQuoted)
  {
    var a, b, c := CText(command), CText(outQuoted), CText(errQuoted);
    var room := |a| + |b| + |c| + 16;
    line := PrintedInto([40] + a + [41, 32, 62, 32] + b + [32, 50, 62, 32] + c, room);
  }

  function PrintedInto(text: Text, room: nat): Text
    requires room > 0
  {
    if |text| < room then text else text[..room - 1]
  }

  lemma QuotedIsCText(value: Text, quoted: Text)
    requires 0 !in value && quoted == Quoted(value) + [0]
    ensures CText(quoted) == Quoted(value)
  {
    QuotedHasNoNul(value);
    UpToNulIs<Byte>(quoted[..|Quoted(value)|], 0, []);
    assert quoted[..|Quoted(value)|] + [0] + [] == quoted;
  }

  lemma {:induction false} QuotedHasNoNul(value: Text)
    requires 0 !in value
    ensures 0 !in Quoted(value)
  {
    forall u | u in value ensures 0 < u < 0x100 {
    }
    QuotedPlain(value);
  }

  /**
    * One run of a command.  `line` is what is handed to the system, if anything; what the system does with it
    * is given by its status and the two files it leaves.
    */
  method RunShell(command: Text, paths: Option<(Text, Text)>, status: Int32,
                  outFile: Option<Text>, errFile: Option<Text>, trouble: Trouble)
    returns (result: Text, line: Option<Text>)
    requires Size(outFile) <= 0x4000_0000 && Size(errFile) <= 0x4000_0000
    requires Size(outFile) + Size(errFile) + 32 <= 0x8000_0000
    ensures line.Some? ==> paths.Some?
    ensures line.Some? ==> line.value == [40] + CText(command) + [41, 32, 62, 32] + Quoted(CText(paths.value.0))
                                         + [32, 50, 62, 32] + Quoted(CText(paths.value.1))
    ensures line.None? ==> paths.None? || trouble.memory
    ensures Parsed(result).Some?
    ensures line.None? ==> Parsed(result).value == Outcome(127, [], [])
    ensures line.Some? ==> (var code := Parsed(result).value.code;
      code == if status == -1 then 127 else if status % 0x80 == 0 then status / 0x100 % 0x100 else 128)
    ensures line.Some? && outFile.None? ==> Parsed(result).value.stdout == []
    ensures line.Some? && errFile.None? ==> Parsed(result).value.stderr == []
    ensures line.Some? && outFile.Some? ==> var s, file := Parsed(result).value.stdout, outFile.value;
      s == file || (trouble.memory && s == []) || (trouble.reading && s <= file)
    ensures line.Some? && errFile.Some? ==> var s, file := Parsed(result).value.stderr, errFile.value;
      s == file || (trouble.memory && s == []) || (trouble.reading && s <= file)
    ensures var o := Parsed(result).value;
      result == IntText.Text(o.code, 10) + [10] + IntText.Text(|o.stdout|, 10) + [10]
                + IntText.Text(|o.stderr|, 10) + [10] + o.stdout + o.stderr
  {
    var exitCode: Int32 := 127;
    var stdout, stderr := [], [];
    line := None;
    var enough: bool := *;
    if paths.Some? && (enough || !trouble.memory) {
      var outQuoted := ShellQuote(paths.value.0);
      var errQuoted := ShellQuote(paths.value.1);
      QuotedIsCText(CText(paths.value.0), outQuoted[..]);
      QuotedIsCText(CText(paths.value.1), errQuoted[..]);
      var text := FormatLine(command, outQuoted[..], errQuoted[..]);
      line := Some(text);
      exitCode := ExitCode(status);
      stdout := ReadFile(outFile, trouble);
      stderr := ReadFile(errFile, trouble);
    }
    result := Prefix(exitCode, |stdout|, |stderr|) + stdout + stderr;
    PrefixFits(if line.Some? then status else -1, |stdout|, |stderr|);
    FrameRoundTrip(exitCode, stdout, stderr);
  }
}
