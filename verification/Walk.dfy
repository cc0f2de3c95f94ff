/** Listing every path below a directory, depth first, into a growing buffer, within the limits on path lengths. */
module Walk {
  import opened Wrappers
  import opened Bits
  import opened CStrings

  type Text = seq<Byte>
  type Name = n: Text | n != [] && 0 !in n witness [46]

  const SLASH: Byte := 47
  const NEWLINE: Byte := 10
  const PATH_MAX := 4096

  /** What `readdir` and `lstat` show: anything that is not a directory, symbolic links among it, is a leaf. */
  datatype Node = Leaf | Dir(readable: bool, entries: seq<Entry>)
  datatype Entry = Entry(name: Name, node: Node)

  predicate IsDot(name: Name) { name == [46] || name == [46, 46] }

  // ----- Paths -----

  function Joined(left: Text, right: Text): Text {
    if left != [] && left[|left| - 1] == SLASH then left + right else left + [SLASH] + right
  }

  function Child(rel: Text, name: Name): Text { if rel == [] then name else Joined(rel, name) }

  function Absolute(root: Text, rel: Text): Text { if rel == [] then root else Joined(root, rel) }

  /** A path is listed when both it and its absolute form fit their buffers. */
  predicate Fits(root: Text, line: Text) { |line| < PATH_MAX && |Joined(root, line)| < PATH_MAX }

  method JoinInto(limit: nat, left: Text, right: Text) returns (out: Option<Text>)
    ensures out == if |Joined(left, right)| < limit then Some(Joined(left, right)) else None
  {
    var separator := if |left| > 0 && left[|left| - 1] == SLASH then [] else [SLASH];
    assert left + separator + right == Joined(left, right);
    out := if |left + separator + right| < limit then Some(left + separator + right) else None;
  }

  /** The limits are those of two buffers of 4096 bytes with their terminators. */
  lemma FitsIs(root: Text, line: Text)
    ensures Fits(root, line) <==>
      |line| < 4096 && |root| + (if root != [] && root[|root| - 1] == 47 then 0 else 1) + |line| < 4096
  {
  }

  // ----- The listing -----

  /** The paths below a directory, parents first; an unreadable directory shows nothing. */
  function Lines(rel: Text, es: seq<Entry>): seq<Text>
    decreases es
  {
    if es == [] then [] else EntryLines(rel, es[0]) + Lines(rel, es[1..])
  }

  function EntryLines(rel: Text, e: Entry): seq<Text>
    decreases e
  {
    if IsDot(e.name) then [] else [Child(rel, e.name)] + NodeLines(Child(rel, e.name), e.node)
  }

  function NodeLines(rel: Text, n: Node): seq<Text>
    decreases n
  {
    if n.Dir? && n.readable then Lines(rel, n.entries) else []
  }

  function Render(lines: seq<Text>): Text {
    if lines == [] then [] else lines[0] + [NEWLINE] + Render(lines[1..])
  }

  predicate AllFit(root: Text, lines: seq<Text>) { forall l | l in lines :: Fits(root, l) }

  /** The lines before the first one that does not fit. */
  function Fitting(root: Text, lines: seq<Text>): (p: seq<Text>)
    ensures p <= lines && AllFit(root, p)
    ensures |p| < |lines| ==> !Fits(root, lines[|p|])
  {
    if lines == [] || !Fits(root, lines[0]) then [] else [lines[0]] + Fitting(root, lines[1..])
  }

  lemma {:induction false} FittingAppend(root: Text, a: seq<Text>, b: seq<Text>)
    ensures Fitting(root, a + b) == if AllFit(root, a) then a + Fitting(root, b) else Fitting(root, a)
  {
    if a == [] {
      assert a + b == b;
    } else {
      assert (a + b)[1..] == a[1..] + b;
      AllFitFirst(root, a);
      if Fits(root, a[0]) {
        FittingAppend(root, a[1..], b);
        if AllFit(root, a[1..]) { PutFront(a, Fitting(root, b)); }
      }
    }
  }

  lemma PutFront(a: seq<Text>, x: seq<Text>)
    requires a != []
    ensures [a[0]] + (a[1..] + x) == a + x
  {
  }

  lemma AllFitFirst(root: Text, a: seq<Text>)
    requires a != []
    ensures AllFit(root, a) <==> Fits(root, a[0]) && AllFit(root, a[1..])
  {
    assert a == [a[0]] + a[1..];
  }

  lemma {:induction false} FittingAll(root: Text, a: seq<Text>)
    ensures AllFit(root, a) <==> Fitting(root, a) == a
  {
    var p := Fitting(root, a);
    if |p| < |a| { assert a[|p|] in a; } else { assert p == a; }
  }

  lemma {:induction false} RenderAppend(a: seq<Text>, b: seq<Text>)
    ensures Render(a + b) == Render(a) + Render(b)
  {
    if a == [] {
      assert a + b == b;
    } else {
      assert (a + b)[1..] == a[1..] + b;
      RenderAppend(a[1..], b);
      assert a[0] + [NEWLINE] + (Render(a[1..]) + Render(b)) == a[0] + [NEWLINE] + Render(a[1..]) + Render(b);
    }
  }

  /** Each line is followed by a newline. */
  lemma RenderSnoc(lines: seq<Text>, line: Text)
    ensures Render([]) == [] && Render(lines + [line]) == Render(lines) + line + [10]
  {
    RenderAppend(lines, [line]);
    assert [line][1..] == [] && Render([line]) == line + [10];
    assert Render(lines) + (line + [10]) == Render(lines) + line + [10];
  }

  /** What is written of a listing. */
  function Out(root: Text, lines: seq<Text>): Text { Render(Fitting(root, lines)) }

  // ----- The buffer -----

  class Buffer {
    var data: array?<Byte>
    var length: nat
    var capacity: nat

    ghost predicate Valid()
      reads this, data
    {
      if data == null then length == 0 && capacity == 0
      else length < capacity == data.Length && capacity >= 256 && data[length] == 0
    }

    ghost function Contents(): Text
      requires Valid()
      reads this, data
    {
      if data == null then [] else data[..length]
    }

    constructor ()
      ensures Valid() && data == null
    {
      data, length, capacity := null, 0, 0;
    }

    /** Appends a text and its terminator; the capacity doubles until both fit. */
    method Append(text: Text)
      requires Valid()
      modifies this, data
      ensures Valid() && (data == old(data) || fresh(data)) && data != null
      ensures Contents() == old(Contents()) + text
    {
      ghost var before := Contents();
      if length + |text| + 1 > capacity {
        var nextCapacity := if capacity == 0 then 256 else capacity;
        while length + |text| + 1 > nextCapacity
          invariant nextCapacity >= 256
          decreases length + |text| + 1 - nextCapacity
        {
          nextCapacity := nextCapacity * 2;
        }
        var next := new Byte[nextCapacity](_ => 0);
        if data != null {
          forall i | 0 <= i < length { next[i] := data[i]; }
          assert next[..length] == data[..length];
        }
        data, capacity := next, nextCapacity;
      }
      assert data[..length] == before;
      forall i | 0 <= i < |text| { data[length + i] := text[i]; }
      assert data[..length + |text|] == before + text;
      length := length + |text|;
      data[length] := 0;
      assert data[..length] == before + text;
    }
  }

  // ----- The walk -----

  /** The directory's own path fits whenever it was listed: only the root can be too long. */
  lemma OnlyRootTooLong(root: Text, rel: Text)
    requires rel == [] || Fits(root, rel)
    ensures |Absolute(root, rel)| >= PATH_MAX ==> rel == [] && |root| >= PATH_MAX
  {
  }

  /** One call of the walk: it writes the lines up to the first that does not fit, and says whether there was none. */
  method WalkInto(root: Text, rel: Text, node: Node, buffer: Buffer) returns (ok: bool)
    requires buffer.Valid() && node.Dir? && (rel == [] || Fits(root, rel))
    modifies buffer, buffer.data
    ensures buffer.Valid() && (buffer.data == old(buffer.data) || fresh(buffer.data))
    ensures ok <==> !(rel == [] && |root| >= PATH_MAX) && AllFit(root, NodeLines(rel, node))
    ensures buffer.Contents() == old(buffer.Contents()) +
      if rel == [] && |root| >= PATH_MAX then [] else Out(root, NodeLines(rel, node))
    decreases node, 1
  {
    OnlyRootTooLong(root, rel);
    if rel == [] {
      if |root| >= PATH_MAX { return false; }
    } else {
      var dirPath := JoinInto(PATH_MAX, root, rel);
      if dirPath.None? { return false; }
    }
    if !node.readable {
      return true;
    }
    ok := WalkEntries(root, rel, node.entries, buffer);
  }

  method WalkEntries(root: Text, rel: Text, es: seq<Entry>, buffer: Buffer) returns (ok: bool)
    requires buffer.Valid()
    modifies buffer, buffer.data
    ensures buffer.Valid() && (buffer.data == old(buffer.data) || fresh(buffer.data))
    ensures ok <==> AllFit(root, Lines(rel, es))
    ensures buffer.Contents() == old(buffer.Contents()) + Out(root, Lines(rel, es))
    decreases es, 1
  {
    ghost var before := buffer.Contents();
    var i := 0;
    ghost var done: seq<Text> := [];
    while i < |es|
      invariant 0 <= i <= |es| && Lines(rel, es) == done + Lines(rel, es[i..]) && AllFit(root, done)
      invariant buffer.Valid() && (buffer.data == old(buffer.data) || fresh(buffer.data))
      invariant buffer.Contents() == before + Render(done)
    {
      NextEntry(root, rel, es, i, done, before);
      ok := WalkEntry(root, rel, es[i], buffer);
      if !ok {
        return;
      }
      done := done + EntryLines(rel, es[i]);
      i := i + 1;
    }
    assert es[i..] == [] && done + [] == done;
    FittingAll(root, done);
    ok := true;
  }

  lemma NextEntry(root: Text, rel: Text, es: seq<Entry>, i: nat, done: seq<Text>, before: Text)
    requires i < |es| && Lines(rel, es) == done + Lines(rel, es[i..]) && AllFit(root, done)
    ensures AllFit(root, EntryLines(rel, es[i])) ==> AllFit(root, done + EntryLines(rel, es[i]))
    ensures Lines(rel, es) == done + EntryLines(rel, es[i]) + Lines(rel, es[i + 1..])
    ensures !AllFit(root, EntryLines(rel, es[i])) ==> !AllFit(root, Lines(rel, es))
    ensures before + Render(done) + Out(root, EntryLines(rel, es[i])) == before +
      if AllFit(root, EntryLines(rel, es[i])) then Render(done + EntryLines(rel, es[i])) else Out(root, Lines(rel, es))
  {
    var mine, rest := EntryLines(rel, es[i]), Lines(rel, es[i + 1..]);
    assert es[i..][1..] == es[i + 1..];
    Interrupted(root, done, mine, rest, before);
  }

  lemma Interrupted(root: Text, done: seq<Text>, mine: seq<Text>, rest: seq<Text>, before: Text)
    requires AllFit(root, done)
    ensures done + (mine + rest) == done + mine + rest
    ensures AllFit(root, mine) ==> AllFit(root, done + mine)
    ensures !AllFit(root, mine) ==> !AllFit(root, done + (mine + rest))
    ensures before + Render(done) + Out(root, mine)
         == before + if AllFit(root, mine) then Render(done + mine) else Out(root, done + (mine + rest))
  {
    FittingAll(root, mine);
    if AllFit(root, mine) {
      RenderAppend(done, mine);
      Assoc(before, Render(done), Render(mine));
    } else {
      NotAll(root, done, mine, rest);
      FittingAppend(root, done, mine + rest);
      FittingAppend(root, mine, rest);
      RenderAppend(done, Fitting(root, mine));
      Assoc(before, Render(done), Out(root, mine));
    }
  }

  lemma Assoc(a: Text, b: Text, c: Text)
    ensures a + b + c == a + (b + c)
  {
  }

  lemma NotAll(root: Text, a: seq<Text>, b: seq<Text>, c: seq<Text>)
    requires !AllFit(root, b)
    ensures !AllFit(root, a + (b + c))
  {
    var l :| l in b && !Fits(root, l);
    assert l in a + (b + c);
  }

  lemma FirstLine(root: Text, line: Text, more: seq<Text>)
    ensures AllFit(root, [line] + more) <==> Fits(root, line) && AllFit(root, more)
    ensures Out(root, [line] + more) == if Fits(root, line) then line + [NEWLINE] + Out(root, more) else []
  {
    assert line in [line] + more && ([line] + more)[1..] == more;
    assert ([line] + Fitting(root, more))[1..] == Fitting(root, more);
  }

  /** One turn of the directory loop. */
  method WalkEntry(root: Text, rel: Text, e: Entry, buffer: Buffer) returns (ok: bool)
    requires buffer.Valid()
    modifies buffer, buffer.data
    ensures buffer.Valid() && (buffer.data == old(buffer.data) || fresh(buffer.data))
    ensures ok <==> AllFit(root, EntryLines(rel, e))
    ensures buffer.Contents() == old(buffer.Contents()) + Out(root, EntryLines(rel, e))
    decreases e, 0
  {
    if IsDot(e.name) {
      return true;
    }
    FirstLine(root, Child(rel, e.name), NodeLines(Child(rel, e.name), e.node));
    var childRel := e.name;
    if rel == [] {
      if |e.name| >= PATH_MAX { return false; }
    } else {
      var joined := JoinInto(PATH_MAX, rel, e.name);
      if joined.None? { return false; }
      childRel := joined.value;
    }
    var childAbs := JoinInto(PATH_MAX, root, childRel);
    if childAbs.None? { return false; }
    ghost var before := buffer.Contents();
    buffer.Append(childRel);
    buffer.Append([NEWLINE]);
    Assoc(before, childRel, [NEWLINE]);
    Assoc(before, childRel + [NEWLINE], Out(root, NodeLines(childRel, e.node)));
    ok := true;
    if e.node.Dir? {
      ok := WalkInto(root, childRel, e.node, buffer);
    } else {
      assert Out(root, []) == [];
    }
  }

  /**
    * The text returned: every listed path on a line of its own, up to the first that is too long.
    * `node` is what the root, up to a NUL, names.
    */
  method DiscoverPaths(root: Text, node: Node) returns (result: Text)
    ensures result == if |CText(root)| < 4096 then Out(CText(root), NodeLines([], node)) else []
  {
    var buffer := new Buffer();
    if node.Dir? {
      var _ := WalkInto(CText(root), [], node, buffer);
    }
    result := if buffer.data == null then [] else buffer.data[..buffer.length];
  }

  // ----- What is listed -----

  /** The names lead from the directory to something in it, through readable directories only. */
  ghost predicate Reaches(es: seq<Entry>, ns: seq<Name>)
    decreases |ns|, 1
  {
    ns != [] && ns[0] != [46] && ns[0] != [46, 46] && exists e | e in es :: Via(e, ns)
  }

  ghost predicate Via(e: Entry, ns: seq<Name>)
    requires ns != []
    decreases |ns|, 0
  {
    e.name == ns[0] && (|ns| == 1 || (e.node.Dir? && e.node.readable && Reaches(e.node.entries, ns[1..])))
  }

  function PathOf(rel: Text, ns: seq<Name>): Text
    decreases |ns|
  {
    if ns == [] then rel else PathOf(Child(rel, ns[0]), ns[1..])
  }

  /** A path is the names that lead to it with slashes between them. */
  lemma {:induction false} PathOfNames(rel: Text, ns: seq<Name>, n: Name)
    requires (forall m | m in ns :: SLASH !in m) && SLASH !in n && Plain(rel)
    ensures PathOf([], [n]) == n && PathOf(rel, []) == rel
    ensures rel != [] || ns != [] ==> PathOf(rel, ns + [n]) == PathOf(rel, ns) + [47] + n
    decreases |ns|
  {
    assert PathOf(n, [n][1..]) == n;
    if ns == [] {
      assert ns + [n] == [n];
      assert rel != [] ==> PathOf(Joined(rel, n), []) == rel + [47] + n;
    } else {
      assert ns[0] in ns && ns[0][|ns[0]| - 1] in ns[0];
      assert (ns + [n])[1..] == ns[1..] + [n] && (forall m | m in ns[1..] :: m in ns);
      PathOfNames(Child(rel, ns[0]), ns[1..], n);
    }
  }

  /** The entries of a directory are listed in the order in which it is read. */
  lemma {:induction false} LinesAppend(rel: Text, a: seq<Entry>, b: seq<Entry>)
    ensures Lines(rel, []) == [] && Lines(rel, a + b) == Lines(rel, a) + Lines(rel, b)
  {
    if a == [] {
      assert a + b == b;
    } else {
      LinesAppend(rel, a[1..], b);
      assert (a + b)[1..] == a[1..] + b && (a + b)[0] == a[0];
      AssocLines(EntryLines(rel, a[0]), Lines(rel, a[1..]), Lines(rel, b));
    }
  }

  lemma AssocLines(a: seq<Text>, b: seq<Text>, c: seq<Text>)
    ensures a + b + c == a + (b + c)
  {
  }

  lemma {:induction false} EverythingListed(rel: Text, es: seq<Entry>, ns: seq<Name>)
    requires Reaches(es, ns)
    ensures PathOf(rel, ns) in Lines(rel, es)
    decreases |ns|
  {
    var e :| e in es && Via(e, ns);
    EntryListed(rel, es, e);
    assert Child(rel, e.name) in EntryLines(rel, e);
    if |ns| == 1 {
      assert ns[1..] == [];
    } else {
      EverythingListed(Child(rel, e.name), e.node.entries, ns[1..]);
      assert PathOf(rel, ns) in NodeLines(Child(rel, e.name), e.node);
      assert PathOf(rel, ns) in EntryLines(rel, e);
    }
  }

  lemma {:induction false} EntryListed(rel: Text, es: seq<Entry>, e: Entry)
    requires e in es
    ensures forall l | l in EntryLines(rel, e) :: l in Lines(rel, es)
  {
    if e != es[0] { EntryListed(rel, es[1..], e); }
  }

  lemma {:induction false} NothingElse(rel: Text, es: seq<Entry>, line: Text) returns (ns: seq<Name>)
    requires line in Lines(rel, es)
    ensures Reaches(es, ns) && line == PathOf(rel, ns)
    decreases es
  {
    var e := es[0];
    if line in EntryLines(rel, e) {
      if line in NodeLines(Child(rel, e.name), e.node) {
        var more := NothingElse(Child(rel, e.name), e.node.entries, line);
        ns := [e.name] + more;
        assert ns[1..] == more;
      } else {
        ns := [e.name];
        assert ns[1..] == [];
      }
      assert e in es && Via(e, ns);
    } else {
      ns := NothingElse(rel, es[1..], line);
      var d :| d in es[1..] && Via(d, ns);
      assert d in es;
    }
  }

  // ----- Parents first, each path once -----

  /** Names are file names: distinct within a directory, and without a slash. */
  predicate Proper(es: seq<Entry>)
    decreases es
  {
    es == [] || (SLASH !in es[0].name && (forall e | e in es[1..] :: e.name != es[0].name)
      && ProperNode(es[0].node) && Proper(es[1..]))
  }

  predicate ProperNode(n: Node)
    decreases n
  {
    n.Dir? ==> Proper(n.entries)
  }

  /** In each directory, entry by entry. */
  lemma {:induction false} ProperIs(es: seq<Entry>)
    ensures Proper(es) <==>
      && (forall i | 0 <= i < |es| :: 47 !in es[i].name && (es[i].node.Dir? ==> Proper(es[i].node.entries)))
      && (forall i, j | 0 <= i < j < |es| :: es[i].name != es[j].name)
    decreases |es|
  {
    if es != [] {
      var tail := es[1..];
      ProperIs(tail);
      assert forall i | 0 <= i < |es| :: es[i] == if i == 0 then es[0] else tail[i - 1];
      assert forall i | 0 < i < |es| :: es[i] in tail;
    }
  }

  function Parent(line: Text): Text {
    if line == [] then [] else if line[|line| - 1] == SLASH then line[..|line| - 1] else Parent(line[..|line| - 1])
  }

  predicate Plain(rel: Text) { rel == [] || rel[|rel| - 1] != SLASH }

  lemma {:induction false} ParentOfChild(rel: Text, name: Text)
    requires SLASH !in name
    ensures Parent(rel + [SLASH] + name) == rel && Parent(name) == []
  {
    if name == [] {
      assert rel + [SLASH] + name == rel + [SLASH];
      assert (rel + [SLASH])[..|rel|] == rel;
    } else {
      var front, line := name[..|name| - 1], rel + [SLASH] + name;
      assert name[|name| - 1] in name && line[..|line| - 1] == rel + [SLASH] + front;
      ParentOfChild(rel, front);
    }
  }

  predicate ParentsFirst(rel: Text, lines: seq<Text>) {
    forall i | 0 <= i < |lines| :: Parent(lines[i]) == rel || Parent(lines[i]) in lines[..i]
  }

  lemma ParentsJoin(rel: Text, a: seq<Text>, b: seq<Text>)
    requires ParentsFirst(rel, a) && ParentsFirst(rel, b)
    ensures ParentsFirst(rel, a + b)
  {
    var s := a + b;
    forall i | 0 <= i < |s| && Parent(s[i]) != rel ensures Parent(s[i]) in s[..i] {
      if i < |a| {
        assert s[..i] == a[..i];
      } else {
        assert s[..i] == a + b[..i - |a|];
      }
    }
  }

  lemma ParentsUnder(rel: Text, child: Text, lines: seq<Text>)
    requires Parent(child) == rel && ParentsFirst(child, lines)
    ensures ParentsFirst(rel, [child] + lines)
  {
    var s := [child] + lines;
    forall i | 0 <= i < |s| && Parent(s[i]) != rel ensures Parent(s[i]) in s[..i] {
      assert s[..i] == [child] + lines[..i - 1];
    }
  }

  /** Every line's parent is the walked directory itself or an earlier line. */
  lemma {:induction false} ParentsComeFirst(rel: Text, es: seq<Entry>)
    requires Proper(es) && Plain(rel)
    ensures ParentsFirst(rel, Lines(rel, es))
    decreases es
  {
    if es != [] {
      var e := es[0];
      var child := Child(rel, e.name);
      ParentsComeFirst(rel, es[1..]);
      if !IsDot(e.name) {
        ParentOfChild(rel, e.name);
        assert child[|child| - 1] == e.name[|e.name| - 1] && e.name[|e.name| - 1] in e.name;
        if e.node.Dir? && e.node.readable { ParentsComeFirst(child, e.node.entries); }
        ParentsUnder(rel, child, NodeLines(child, e.node));
      }
      ParentsJoin(rel, EntryLines(rel, e), Lines(rel, es[1..]));
    }
  }

  predicate Distinct(lines: seq<Text>) { forall i, j | 0 <= i < j < |lines| :: lines[i] != lines[j] }

  function Prefix(rel: Text): Text { if rel == [] then [] else rel + [SLASH] }

  /** The first name of a path below `rel`. */
  function Head(s: Text): Text { if s == [] || s[0] == SLASH then [] else [s[0]] + Head(s[1..]) }

  lemma {:induction false} HeadIs(name: Text, tail: Text)
    requires SLASH !in name && (tail == [] || tail[0] == SLASH)
    ensures Head(name + tail) == name
  {
    if name == [] {
      assert name + tail == tail;
    } else {
      assert name[0] in name && (name + tail)[1..] == name[1..] + tail;
      HeadIs(name[1..], tail);
    }
  }

  /** Whatever is listed for an entry starts with that entry's path. */
  lemma {:induction false} EntryHead(rel: Text, e: Entry, line: Text)
    requires SLASH !in e.name && ProperNode(e.node) && Plain(rel) && line in EntryLines(rel, e)
    ensures Prefix(rel) <= line && Head(line[|Prefix(rel)|..]) == e.name
    ensures line != Child(rel, e.name) ==> |line| > |Child(rel, e.name)|
    decreases e
  {
    var child := Child(rel, e.name);
    ChildIs(rel, e.name);
    if line == child {
      HeadOf(rel, e.name, [], line);
    } else {
      BelowPrefix(child, e.node.entries, line);
      HeadOf(rel, e.name, line[|child|..], line);
    }
  }

  lemma ChildIs(rel: Text, name: Name)
    requires SLASH !in name && Plain(rel)
    ensures Child(rel, name) == Prefix(rel) + name && Plain(Child(rel, name))
  {
    assert name[|name| - 1] in name;
  }

  lemma HeadOf(rel: Text, name: Text, tail: Text, line: Text)
    requires SLASH !in name && (tail == [] || tail[0] == SLASH) && line == Prefix(rel) + name + tail
    ensures Prefix(rel) <= line && Head(line[|Prefix(rel)|..]) == name
  {
    HeadIs(name, tail);
    assert line[|Prefix(rel)|..] == name + tail;
  }

  lemma {:induction false} BelowPrefix(rel: Text, es: seq<Entry>, line: Text)
    requires Proper(es) && Plain(rel) && rel != [] && line in Lines(rel, es)
    ensures Prefix(rel) <= line
    decreases es
  {
    if line in EntryLines(rel, es[0]) {
      EntryHead(rel, es[0], line);
    } else {
      BelowPrefix(rel, es[1..], line);
    }
  }

  lemma {:induction false} HeadAmong(rel: Text, es: seq<Entry>, line: Text) returns (e: Entry)
    requires Proper(es) && Plain(rel) && line in Lines(rel, es)
    ensures e in es && Prefix(rel) <= line && Head(line[|Prefix(rel)|..]) == e.name
  {
    if line in EntryLines(rel, es[0]) {
      e := es[0];
      EntryHead(rel, e, line);
    } else {
      e := HeadAmong(rel, es[1..], line);
    }
  }

  /** No path is listed twice. */
  lemma {:induction false} ListedOnce(rel: Text, es: seq<Entry>)
    requires Proper(es) && Plain(rel)
    ensures Distinct(Lines(rel, es))
    decreases es
  {
    if es != [] {
      ListedOnce(rel, es[1..]);
      EntryListedOnce(rel, es[0]);
      forall l | l in EntryLines(rel, es[0]) ensures l !in Lines(rel, es[1..]) {
        EntryHead(rel, es[0], l);
        if l in Lines(rel, es[1..]) { var d := HeadAmong(rel, es[1..], l); }
      }
      DistinctJoin(EntryLines(rel, es[0]), Lines(rel, es[1..]));
    }
  }

  lemma {:induction false} EntryListedOnce(rel: Text, e: Entry)
    requires SLASH !in e.name && ProperNode(e.node) && Plain(rel)
    ensures Distinct(EntryLines(rel, e))
    decreases e
  {
    var child := Child(rel, e.name);
    if !IsDot(e.name) && e.node.Dir? && e.node.readable {
      ChildIs(rel, e.name);
      ListedOnce(child, e.node.entries);
      forall l | l in NodeLines(child, e.node) ensures l != child {
        BelowPrefix(child, e.node.entries, l);
      }
      DistinctJoin([child], NodeLines(child, e.node));
    }
  }

  lemma DistinctJoin(a: seq<Text>, b: seq<Text>)
    requires Distinct(a) && Distinct(b) && forall l | l in a :: l !in b
    ensures Distinct(a + b)
  {
    forall i, j | 0 <= i < j < |a + b| ensures (a + b)[i] != (a + b)[j] {
      if i < |a| <= j { assert (a + b)[i] in a && (a + b)[j] in b; }
    }
  }

  // ----- The text is read back -----

  function ReadLines(text: Text, line: Text): seq<Text>
    decreases |text|
  {
    if text == [] then [] else if text[0] == NEWLINE then [line] + ReadLines(text[1..], [])
    else ReadLines(text[1..], line + [text[0]])
  }

  lemma {:induction false} ReadsOneLine(line: Text, rest: Text, before: Text)
    requires NEWLINE !in line
    ensures ReadLines(line + [NEWLINE] + rest, before) == [before + line] + ReadLines(rest, [])
    decreases |line|
  {
    var text := line + [NEWLINE] + rest;
    if line == [] {
      assert text[1..] == rest && before + line == before;
    } else {
      assert line[0] in line && text[1..] == line[1..] + [NEWLINE] + rest;
      ReadsOneLine(line[1..], rest, before + [line[0]]);
      assert before + [line[0]] + line[1..] == before + line;
    }
  }

  /** Splitting the text at newlines gives the listed paths, when no name holds one. */
  lemma {:induction false} TextRoundTrip(lines: seq<Text>)
    requires forall l | l in lines :: NEWLINE !in l
    ensures ReadLines(Render(lines), []) == lines
  {
    if lines != [] {
      TextRoundTrip(lines[1..]);
      ReadsOneLine(lines[0], Render(lines[1..]), []);
      assert [] + lines[0] == lines[0];
    }
  }
}
