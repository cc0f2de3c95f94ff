/** Removing a tree of test files, guarded by a check on the text of its path. */
module RemoveTree {
  import opened Wrappers
  import opened Bits
  import opened CStrings
  import S = Selectors

  type Text = S.Text16

  /** A path as the C code holds it. */
  type CPath = t: Text | 0 !in t
  type Path = seq<Text>

  const SLASH: Unit := 47
  const DOT: Text := [46]
  const DOTS: Text := [46, 46]
  const PATH_MAX := 4096

  // ----- Paths as text and as names -----

  /** The names along a path; empty names and `.` lead nowhere. */
  function Significant(ps: seq<Text>): Path {
    if ps == [] then []
    else Significant(ps[..|ps| - 1]) + if ps[|ps| - 1] == [] || ps[|ps| - 1] == DOT then [] else [ps[|ps| - 1]]
  }

  function Names(path: Text): Path { Significant(S.Pieces(path, SLASH)) }

  /** What the C code reads of a path that it is handed. */
  function CPathOf(path: Text): (text: CPath)
    ensures text <= path && (text == path <==> 0 !in path)
  {
    UpToNul<Unit>(path, 0)
  }

  function Joined(left: Text, right: Text): (path: Text)
    ensures 0 !in left && 0 !in right ==> 0 !in path
  {
    if left != [] && left[|left| - 1] == SLASH then left + right else left + [SLASH] + right
  }

  /** What a directory can hold, apart from the two entries that are skipped. */
  predicate FileName(name: Text) { name != [] && name != DOT && name != DOTS && SLASH !in name && 0 !in name }

  /** What the recursion joins. */
  lemma JoinedIs(left: Text, right: Text)
    ensures Joined(left, right) == left + (if left != [] && left[|left| - 1] == 47 then [] else [47]) + right
  {
    assert left + [] == left;
  }

  /** The names along a path are what stands between its slashes, but for nothing and a single dot. */
  lemma NamesAre(ps: seq<Text>, p: Text)
    ensures Significant([]) == []
    ensures Significant(ps + [p]) == if p == [] || p == [46] then Significant(ps) else Significant(ps) + [p]
  {
    assert (ps + [p])[..|ps|] == ps;
  }

  /** A path without the one slash that may end it. */
  function Base(path: Text): (b: Text)
    ensures b <= path
  {
    if path != [] && path[|path| - 1] == SLASH then path[..|path| - 1] else path
  }

  lemma PiecesOfJoined(path: Text, name: Text)
    requires SLASH !in name
    ensures S.Pieces(Joined(path, name), SLASH) == S.Pieces(Base(path), SLASH) + [name]
  {
    assert Joined(path, name) == Base(path) + [SLASH] + name;
    S.PiecesOfPlain(Base(path), name, SLASH);
  }

  lemma PiecesOfBase(path: Text)
    ensures S.Pieces(path, SLASH) == S.Pieces(Base(path), SLASH) + if Base(path) == path then [] else [[]]
  {
    if Base(path) != path {
      assert path == Base(path) + [SLASH] + [];
      S.PiecesOfPlain(Base(path), [], SLASH);
    }
  }

  lemma SignificantSnoc(ps: seq<Text>, p: Text)
    ensures Significant(ps + [p]) == Significant(ps) + if p == [] || p == DOT then [] else [p]
  {
    assert (ps + [p])[..|ps|] == ps;
  }

  lemma NamesOfJoined(path: Text, name: Text)
    requires FileName(name)
    ensures Names(Joined(path, name)) == Names(path) + [name]
  {
    var ps := S.Pieces(Base(path), SLASH);
    PiecesOfJoined(path, name);
    PiecesOfBase(path);
    SignificantSnoc(ps, name);
    SignificantSnoc(ps, []);
  }

  // ----- The lexical check -----

  const BUILD: Text := [95, 98, 117, 105, 108, 100]
  const READDIRP: Text := [114, 101, 97, 100, 100, 105, 114, 112, 45]
  const PLAIN_PREFIX: Text := BUILD + [SLASH] + READDIRP
  const DOT_PREFIX: Text := DOT + [SLASH] + PLAIN_PREFIX

  predicate Safe(path: Text) {
    !(path != [] && path[0] == SLASH) && DOTS !in S.Pieces(path, SLASH) && (DOT_PREFIX <= path || PLAIN_PREFIX <= path)
  }

  /** Safe: relative, no piece `..`, and one of the prefixes `./_build/readdirp-` and `_build/readdirp-`. */
  lemma SafeIs(path: Text)
    ensures var plain: Text := [95, 98, 117, 105, 108, 100, 47, 114, 101, 97, 100, 100, 105, 114, 112, 45];
      Safe(path) <==> (plain <= path || [46, 47] + plain <= path)
                      && forall i | 0 <= i < |S.Pieces(path, 47)| :: S.Pieces(path, 47)[i] != [46, 46]
  {
    var plain: Text := [95, 98, 117, 105, 108, 100, 47, 114, 101, 97, 100, 100, 105, 114, 112, 45];
    assert PLAIN_PREFIX == plain;
    assert DOT_PREFIX == [46, 47] + plain;
    assert DOTS !in S.Pieces(path, 47)
      <==> forall i | 0 <= i < |S.Pieces(path, 47)| :: S.Pieces(path, 47)[i] != [46, 46];
    assert plain <= path ==> path[0] == plain[0] == 95;
    assert [46, 47] + plain <= path ==> path[0] == ([46, 47] + plain)[0] == 46;
  }

  /** `strcspn(segment, "/")`. */
  method Span(path: Text, from: nat) returns (end: nat)
    requires from <= |path|
    ensures from <= end <= |path| && SLASH !in path[from..end] && (end < |path| ==> path[end] == SLASH)
  {
    end := from;
    while end < |path| && path[end] != SLASH
      invariant from <= end <= |path| && SLASH !in path[from..end]
    {
      assert path[from..end + 1] == path[from..end] + [path[end]];
      end := end + 1;
    }
  }

  lemma FirstPiece(path: Text, from: nat, end: nat)
    requires from <= end <= |path| && SLASH !in path[from..end] && (end < |path| ==> path[end] == SLASH)
    ensures S.Pieces(path[from..], SLASH) ==
            [path[from..end]] + if end < |path| then S.Pieces(path[end + 1..], SLASH) else []
  {
    if end < |path| {
      assert path[from..] == path[from..end] + [SLASH] + path[end + 1..];
      S.FrontPiece(path[from..end], path[end + 1..], SLASH);
    } else {
      assert path[from..] == path[from..end];
      S.PiecesOfPlain([], path[from..end], SLASH);
    }
  }

  lemma NextSegment(path: Text, from: nat, end: nat)
    requires from <= end <= |path| && SLASH !in path[from..end] && (end < |path| ==> path[end] == SLASH)
    ensures var next := if end < |path| then end + 1 else end;
      DOTS in S.Pieces(path[from..], SLASH) <==> path[from..end] == DOTS || DOTS in S.Pieces(path[next..], SLASH)
  {
    FirstPiece(path, from, end);
    if end == |path| { NothingLeft(path); }
  }

  lemma NothingLeft(path: Text)
    ensures path[|path|..] == [] && DOTS !in S.Pieces(path[|path|..], SLASH)
  {
    assert S.Pieces([], SLASH) == [[]];
  }

  lemma SegmentIsDots(path: Text, from: nat, end: nat)
    requires from <= end <= |path| && SLASH !in path[from..end] && (end < |path| ==> path[end] == SLASH)
    ensures var next := if end < |path| then end + 1 else end;
      DOTS in S.Pieces(path[from..], SLASH) <==>
      (end - from == 2 && path[from] == 46 && path[from + 1] == 46) || DOTS in S.Pieces(path[next..], SLASH)
  {
    NextSegment(path, from, end);
    var s := path[from..end];
    assert s == DOTS <==> |s| == 2 && s[0] == 46 && s[1] == 46;
  }

  method HasDots(path: Text) returns (found: bool)
    ensures found <==> DOTS in S.Pieces(path, SLASH)
  {
    var segment := 0;
    assert path[0..] == path;
    while segment < |path|
      invariant 0 <= segment <= |path|
      invariant DOTS in S.Pieces(path, SLASH) <==> DOTS in S.Pieces(path[segment..], SLASH)
    {
      var end := Span(path, segment);
      SegmentIsDots(path, segment, end);
      if end - segment == 2 && path[segment] == 46 && path[segment + 1] == 46 {
        return true;
      }
      segment := end;
      if segment < |path| {
        segment := segment + 1;
      }
    }
    NothingLeft(path);
    found := false;
  }

  method IsSafe(path: CPath) returns (safe: bool)
    ensures safe <==> Safe(path)
  {
    if path != [] && path[0] == SLASH {
      return false;
    }
    var found := HasDots(path);
    if found {
      return false;
    }
    safe := DOT_PREFIX <= path || PLAIN_PREFIX <= path;
  }

  /** Whatever lies directly in a safe directory has a safe path too. */
  lemma SafeInside(path: Text, name: Text)
    requires Safe(path) && FileName(name)
    ensures Safe(Joined(path, name)) && |path| < |Joined(path, name)|
  {
    DotsInside(path, name);
    assert Joined(path, name)[..|path|] == path;
  }

  lemma DotsInside(path: Text, name: Text)
    requires FileName(name)
    ensures DOTS in S.Pieces(Joined(path, name), SLASH) <==> DOTS in S.Pieces(path, SLASH)
  {
    PiecesOfJoined(path, name);
    PiecesOfBase(path);
  }

  /** A safe path stays below a `readdirp-` entry of `_build`. */
  lemma SafeStaysInside(path: Text)
    requires Safe(path)
    ensures |Names(path)| >= 2 && Names(path)[0] == BUILD && READDIRP <= Names(path)[1]
  {
    if PLAIN_PREFIX <= path {
      PlainStaysInside(path, path[|BUILD| + 1..]);
    } else {
      var rest := path[2..];
      assert path == DOT + [SLASH] + rest;
      assert PLAIN_PREFIX <= rest by {
        assert DOT_PREFIX[2..] == PLAIN_PREFIX && rest[..|PLAIN_PREFIX|] == PLAIN_PREFIX;
      }
      S.FrontPiece(DOT, rest, SLASH);
      SignificantFront(DOT, S.Pieces(rest, SLASH));
      PlainStaysInside(rest, rest[|BUILD| + 1..]);
    }
  }

  lemma PlainStaysInside(path: Text, tail: Text)
    requires PLAIN_PREFIX <= path && tail == path[|BUILD| + 1..]
    ensures |Names(path)| >= 2 && Names(path)[0] == BUILD && READDIRP <= Names(path)[1]
  {
    assert path == BUILD + [SLASH] + tail && tail[..|READDIRP|] == READDIRP;
    S.FrontPiece(BUILD, tail, SLASH);
    var ps := S.Pieces(tail, SLASH);
    SignificantFront(BUILD, ps);
    FirstStartsLike(tail, READDIRP);
    FirstIsSignificant(ps);
  }

  lemma FirstIsSignificant(ps: seq<Text>)
    requires ps != [] && READDIRP <= ps[0]
    ensures Significant(ps) != [] && Significant(ps)[0] == ps[0]
  {
    assert ps == [ps[0]] + ps[1..];
    SignificantFront(ps[0], ps[1..]);
  }

  lemma {:induction false} SignificantFront(p: Text, ps: seq<Text>)
    ensures Significant([p] + ps) == (if p == [] || p == DOT then [] else [p]) + Significant(ps)
  {
    if ps == [] {
      assert [p] + ps == [] + [p];
      SignificantSnoc([], p);
    } else {
      var front, last := ps[..|ps| - 1], ps[|ps| - 1];
      assert ps == front + [last] && [p] + ps == ([p] + front) + [last];
      SignificantFront(p, front);
      SignificantSnoc([p] + front, last);
      SignificantSnoc(front, last);
    }
  }

  lemma {:induction false} FirstStartsLike(s: Text, prefix: Text)
    requires prefix <= s && SLASH !in prefix
    ensures prefix <= S.Pieces(s, SLASH)[0]
  {
    if s == prefix {
      S.PiecesOfPlain([], s, SLASH);
    } else {
      FirstStartsLike(s[..|s| - 1], prefix);
    }
  }

  // ----- The file system -----

  /** Symbolic links are files here: `lstat` does not follow them and `unlink` removes the link. */
  datatype Kind = File | Directory

  datatype Errno = NoEntry | NotDirectory | NameTooLong | NotPermitted | Other

  predicate Below(p: Path, q: Path) { p <= q && p != q }

  /** Everything has a directory above it, and no entry has one of the names that are skipped. */
  ghost predicate Tree(nodes: map<Path, Kind>) {
    && (forall p, q | q in nodes && Below(p, q) && p != [] :: p in nodes && nodes[p] == Directory)
    && (forall q, i | q in nodes && 0 <= i < |q| :: FileName(q[i]))
  }

  predicate IsDirectory(nodes: map<Path, Kind>, p: Path) { p in nodes && nodes[p] == Directory }

  ghost predicate Bare(nodes: map<Path, Kind>, p: Path) { forall q | q in nodes :: !Below(p, q) }

  /** The names in a directory. */
  function Entries(nodes: map<Path, Kind>, p: Path): set<Text> {
    set q | q in nodes && |q| == |p| + 1 && p <= q :: q[|p|]
  }

  predicate Skipped(name: Text) { name == DOT || name == DOTS }

  predicate Listed(nodes: map<Path, Kind>, p: Path, names: seq<Text>) {
    forall n | n in names :: n == [46] || n == [46, 46] || n in Entries(nodes, p)
  }

  predicate Complete(nodes: map<Path, Kind>, p: Path, names: seq<Text>) {
    forall n | n in Entries(nodes, p) :: n in names
  }

  /** The path leads through something that is not a directory. */
  predicate Blocked(nodes: map<Path, Kind>, path: Text) {
    exists i | 0 < i < |S.Pieces(path, SLASH)| :: IsFile(nodes, Significant(S.Pieces(path, SLASH)[..i]))
  }

  predicate IsFile(nodes: map<Path, Kind>, p: Path) { p != [] && p in nodes && nodes[p] == File }

  function Flag(b: bool): nat { if b then 1 else 0 }

  predicate Distinct(names: seq<Text>) { forall i, j | 0 <= i < j < |names| :: names[i] != names[j] }

  /** A file system whose calls may also fail for reasons of their own, which are counted. */
  class FileSystem {
    var nodes: map<Path, Kind>
    ghost var removed: seq<Path>
    ghost var texts: seq<Text>
    ghost var failures: nat // calls that failed, or a listing that ended too soon, although nothing stood in the way
    ghost var early: nat    // calls of `rmdir` on a directory that still held something

    /** A tree; nothing is left at or below what was removed, and nothing was removed after a directory above it. */
    ghost predicate Valid()
      reads this
    {
      && Tree(nodes) && (forall p, q | p in removed && q in nodes :: !(p <= q))
      && (forall i, j | 0 <= i < j < |removed| :: !(removed[i] <= removed[j]))
    }

    method Lstat(path: Text) returns (r: Result<Kind, Errno>)
      modifies `failures
      ensures r.Failure? ==> r.error in {NoEntry, NotDirectory, Other}
      ensures failures == old(failures) + Flag(r == Failure(Other))
      ensures r == Failure(NotDirectory) ==> Blocked(nodes, path)
      ensures r == Failure(NoEntry) ==> !Blocked(nodes, path) && Names(path) !in nodes
      ensures r.Success? ==> !Blocked(nodes, path) && Names(path) in nodes && nodes[Names(path)] == r.value
    {
      var works: bool := *;
      if !works {
        failures := failures + 1;
        r := Failure(Other);
      } else if Blocked(nodes, path) {
        r := Failure(NotDirectory);
      } else if Names(path) in nodes {
        r := Success(nodes[Names(path)]);
      } else {
        r := Failure(NoEntry);
      }
    }

    /** The names in a directory, in any order and with the two that are skipped; or only some of them. */
    method ReadDir(path: Text) returns (names: Option<seq<Text>>)
      modifies `failures
      ensures names.None? ==> failures == old(failures) + 1
      ensures names.Some? ==> Distinct(names.value) && Listed(nodes, Names(path), names.value)
      ensures names.Some? ==> failures == old(failures) + Flag(!Complete(nodes, Names(path), names.value))
    {
      var found: seq<Text> := *;
      var works: bool := *;
      if works && Distinct(found) && Listed(nodes, Names(path), found) {
        failures := failures + Flag(!Complete(nodes, Names(path), found));
        names := Some(found);
      } else {
        failures := failures + 1;
        names := None;
      }
    }

    method CloseDir() returns (ok: bool)
      modifies `failures
      ensures failures == old(failures) + Flag(!ok)
    {
      ok := *;
      failures := failures + Flag(!ok);
    }

    /** Fails on a directory. */
    method Unlink(path: Text) returns (ok: bool)
      requires Valid() && Names(path) != []
      modifies this
      ensures Valid() && texts == old(texts) + [path] && early == old(early)
      ensures ok ==> IsFile(old(nodes), Names(path))
      ensures failures == old(failures) + Flag(!ok && IsFile(old(nodes), Names(path)))
      ensures nodes == if ok then old(nodes) - {Names(path)} else old(nodes)
      ensures removed == if ok then old(removed) + [Names(path)] else old(removed)
    {
      texts := texts + [path];
      var works: bool := *;
      ok := works && IsFile(nodes, Names(path));
      failures := failures + Flag(!ok && IsFile(nodes, Names(path)));
      if ok {
        Take(Names(path));
      }
    }

    /** Fails on a directory that still holds something. */
    method Rmdir(path: Text) returns (ok: bool)
      requires Valid() && IsDirectory(nodes, Names(path))
      modifies this
      ensures Valid() && texts == old(texts) + [path]
      ensures early == old(early) + Flag(!Bare(old(nodes), Names(path)))
      ensures ok ==> Bare(old(nodes), Names(path))
      ensures failures == old(failures) + Flag(!ok && Bare(old(nodes), Names(path)))
      ensures nodes == if ok then old(nodes) - {Names(path)} else old(nodes)
      ensures removed == if ok then old(removed) + [Names(path)] else old(removed)
    {
      texts := texts + [path];
      early := early + Flag(!Bare(nodes, Names(path)));
      var works: bool := *;
      ok := works && forall q | q in nodes :: !Below(Names(path), q);
      failures := failures + Flag(!ok && Bare(nodes, Names(path)));
      if ok {
        Take(Names(path));
      }
    }

    method Take(p: Path)
      requires Valid() && p in nodes && Bare(nodes, p)
      modifies `nodes, `removed
      ensures Valid() && nodes == old(nodes) - {p} && removed == old(removed) + [p]
    {
      forall i | 0 <= i < |removed| ensures !(removed[i] <= p) {
        assert removed[i] in removed;
      }
      nodes := nodes - {p};
      removed := removed + [p];
    }
  }

  // ----- Which trees can be removed -----

  /** The path that the recursion forms for what lies at `rel` below `path`. */
  function TextOf(path: Text, rel: Path): Text
    decreases |rel|
  {
    if |rel| == 0 then path else TextOf(Joined(path, rel[0]), rel[1..])
  }

  /** Every path that is formed below `path` fits its buffer. */
  ghost predicate Fits(nodes: map<Path, Kind>, path: Text) {
    forall rel: Path | rel != [] && Names(path) + rel in nodes :: |TextOf(path, rel)| < PATH_MAX
  }

  ghost predicate ChildFits(nodes: map<Path, Kind>, path: Text, name: Text) {
    |Joined(path, name)| < PATH_MAX && Fits(nodes, Joined(path, name))
  }

  lemma FirstBelow(nodes: map<Path, Kind>, p: Path, q: Path)
    requires Tree(nodes) && q in nodes && Below(p, q)
    ensures p + [q[|p|]] in nodes && q[|p|] in Entries(nodes, p) && FileName(q[|p|]) && p + [q[|p|]] <= q
  {
    var c := p + [q[|p|]];
    assert c == q[..|p| + 1];
    assert c in nodes by { if c != q { assert Below(c, q); } }
    assert c[|p|] == q[|p|];
  }

  lemma ChildBelow(path: Text, name: Text, rel: Path)
    requires FileName(name)
    ensures Names(Joined(path, name)) + rel == Names(path) + ([name] + rel)
    ensures TextOf(path, [name] + rel) == TextOf(Joined(path, name), rel)
  {
    NamesOfJoined(path, name);
    assert ([name] + rel)[1..] == rel;
  }

  lemma FitsByEntries(nodes: map<Path, Kind>, path: Text)
    requires Tree(nodes)
    ensures Fits(nodes, path) <==> forall n | n in Entries(nodes, Names(path)) :: ChildFits(nodes, path, n)
  {
    if Fits(nodes, path) {
      forall n | n in Entries(nodes, Names(path)) ensures ChildFits(nodes, path, n) {
        EntryFits(nodes, path, n);
      }
    }
    if forall n | n in Entries(nodes, Names(path)) :: ChildFits(nodes, path, n) {
      forall rel: Path | rel != [] && Names(path) + rel in nodes ensures |TextOf(path, rel)| < PATH_MAX {
        FirstBelow(nodes, Names(path), Names(path) + rel);
        ThroughEntry(nodes, path, rel);
      }
    }
  }

  lemma EntryFits(nodes: map<Path, Kind>, path: Text, n: Text)
    requires Tree(nodes) && Fits(nodes, path) && n in Entries(nodes, Names(path))
    ensures ChildFits(nodes, path, n)
  {
    EntryIsBelow(nodes, Names(path), n);
    ChildBelow(path, n, []);
    assert [n] + [] == [n] && |TextOf(path, [n])| < PATH_MAX;
    forall rel: Path | rel != [] && Names(Joined(path, n)) + rel in nodes
      ensures |TextOf(Joined(path, n), rel)| < PATH_MAX
    {
      ChildBelow(path, n, rel);
    }
  }

  lemma ThroughEntry(nodes: map<Path, Kind>, path: Text, rel: Path)
    requires rel != [] && Names(path) + rel in nodes && FileName(rel[0]) && ChildFits(nodes, path, rel[0])
    ensures |TextOf(path, rel)| < PATH_MAX
  {
    ChildBelow(path, rel[0], rel[1..]);
    assert [rel[0]] + rel[1..] == rel;
  }

  lemma EntryIsBelow(nodes: map<Path, Kind>, p: Path, n: Text)
    requires Tree(nodes) && n in Entries(nodes, p)
    ensures p + [n] in nodes && Below(p, p + [n]) && FileName(n)
  {
    var q :| q in nodes && |q| == |p| + 1 && p <= q && q[|p|] == n;
    assert q == p + [n];
  }

  lemma NothingBelowOthers(nodes: map<Path, Kind>, path: Text)
    requires Tree(nodes) && Names(path) != [] && !IsDirectory(nodes, Names(path))
    ensures Bare(nodes, Names(path)) && Fits(nodes, path)
  {
    forall rel: Path | rel != [] && Names(path) + rel in nodes ensures false {
      assert Below(Names(path), Names(path) + rel);
    }
  }

  /** Whatever lies in a directory is reached through directories only. */
  lemma ChildNotBlocked(nodes: map<Path, Kind>, path: Text, name: Text)
    requires Tree(nodes) && IsDirectory(nodes, Names(path)) && FileName(name)
    ensures !Blocked(nodes, Joined(path, name))
  {
    var base := S.Pieces(Base(path), SLASH);
    PiecesOfJoined(path, name);
    NamesOfBase(path);
    forall i | 0 < i < |base + [name]| ensures !IsFile(nodes, Significant((base + [name])[..i])) {
      assert (base + [name])[..i] == base[..i];
      SignificantPrefix(base, i);
      AboveDirectory(nodes, Names(path), Significant(base[..i]));
    }
  }

  lemma NamesOfBase(path: Text)
    ensures Names(path) == Significant(S.Pieces(Base(path), SLASH))
  {
    PiecesOfBase(path);
    SignificantSnoc(S.Pieces(Base(path), SLASH), []);
  }

  lemma AboveDirectory(nodes: map<Path, Kind>, p: Path, r: Path)
    requires Tree(nodes) && IsDirectory(nodes, p) && r <= p
    ensures !IsFile(nodes, r)
  {
    if r != p { assert Below(r, p); }
  }

  lemma {:induction false} SignificantPrefix(ps: seq<Text>, i: nat)
    requires i <= |ps|
    ensures Significant(ps[..i]) <= Significant(ps)
  {
    if i < |ps| {
      SignificantPrefix(ps[..|ps| - 1], i);
      assert ps[..|ps| - 1][..i] == ps[..i];
    } else {
      assert ps[..i] == ps;
    }
  }

  // ----- What a removal leaves alone -----

  datatype Snapshot = Snapshot(nodes: map<Path, Kind>, removed: seq<Path>, texts: seq<Text>)

  ghost function Now(fs: FileSystem): Snapshot
    reads fs
  {
    Snapshot(fs.nodes, fs.removed, fs.texts)
  }

  /** What a call may change: nothing outside the subtree, and only under safe texts when it was given one. */
  ghost predicate Within(path: Text, a: Snapshot, b: Snapshot) {
    && (forall q | q in a.nodes && !(Names(path) <= q) :: q in b.nodes)
    && (forall q | q in b.nodes :: q in a.nodes && b.nodes[q] == a.nodes[q])
    && a.texts <= b.texts && a.removed <= b.removed
    && (Safe(path) ==> forall i | |a.texts| <= i < |b.texts| :: Safe(b.texts[i]))
  }

  lemma WithinChild(path: Text, name: Text, a: Snapshot, b: Snapshot, c: Snapshot)
    requires FileName(name) && Within(path, a, b) && Within(Joined(path, name), b, c)
    ensures Within(path, a, c)
  {
    NamesOfJoined(path, name);
    if Safe(path) { SafeInside(path, name); }
    WithinTrans(path, Joined(path, name), a, b, c);
  }

  lemma WithinTrans(path: Text, child: Text, a: Snapshot, b: Snapshot, c: Snapshot)
    requires Within(path, a, b) && Within(child, b, c) && Names(path) <= Names(child) && (Safe(path) ==> Safe(child))
    ensures Within(path, a, c)
  {
    forall q | q in a.nodes && !(Names(path) <= q) ensures q in c.nodes {
      assert !(Names(child) <= q);
    }
    forall i | |a.texts| <= i < |c.texts| && Safe(path) ensures Safe(c.texts[i]) {
      if i < |b.texts| { assert c.texts[i] == b.texts[i]; }
    }
  }

  /** While the entries of a directory are being removed: those in `done` may be gone, nothing else is. */
  ghost predicate Spared(p: Path, done: seq<Text>, a: map<Path, Kind>, b: map<Path, Kind>) {
    && (forall q | q in a && !(Below(p, q) && q[|p|] in done) :: q in b)
    && (forall q | q in b :: q in a && b[q] == a[q])
  }

  lemma ChildPrefix(p: Path, n: Text, q: Path)
    ensures p + [n] <= q <==> Below(p, q) && q[|p|] == n
  {
    if Below(p, q) && q[|p|] == n { assert q == p + [n] + q[|p| + 1..]; }
  }

  lemma SparedChild(path: Text, names: seq<Text>, i: nat, a: map<Path, Kind>, b: Snapshot, c: Snapshot)
    requires i < |names| && FileName(names[i])
    requires Spared(Names(path), names[..i], a, b.nodes) && Within(Joined(path, names[i]), b, c)
    ensures Spared(Names(path), names[..i + 1], a, c.nodes)
  {
    var p, n := Names(path), names[i];
    NamesOfJoined(path, n);
    assert names[..i + 1] == names[..i] + [n];
    forall q | q in a && !(Below(p, q) && q[|p|] in names[..i + 1]) ensures q in c.nodes {
      assert q in b.nodes;
      ChildPrefix(p, n, q);
    }
  }

  lemma SparedMore(p: Path, done: seq<Text>, more: seq<Text>, a: map<Path, Kind>, b: map<Path, Kind>)
    requires Spared(p, done, a, b) && forall n | n in done :: n in more
    ensures Spared(p, more, a, b)
  {
  }

  /** An entry whose turn has not come is as it was. */
  lemma EntryAsBefore(path: Text, names: seq<Text>, i: nat, a: map<Path, Kind>, b: map<Path, Kind>)
    requires i < |names| && Distinct(names) && FileName(names[i])
    requires Spared(Names(path), names[..i], a, b)
    ensures Fits(b, Joined(path, names[i])) <==> Fits(a, Joined(path, names[i]))
  {
    var p, n := Names(path), names[i];
    NamesOfJoined(path, n);
    forall rel: Path ensures (p + [n]) + rel in a <==> (p + [n]) + rel in b {
      assert ((p + [n]) + rel)[|p|] == n && n !in names[..i];
    }
  }

  /** No entry in `done` is left. */
  ghost predicate Gone(p: Path, done: seq<Text>, nodes: map<Path, Kind>) {
    forall q | q in nodes && Below(p, q) :: q[|p|] !in done
  }

  lemma GoneChild(p: Path, names: seq<Text>, i: nat, b: map<Path, Kind>, c: map<Path, Kind>)
    requires i < |names| && Gone(p, names[..i], b) && (forall q | q in c :: q in b)
    requires forall q | q in c :: !(p + [names[i]] <= q)
    ensures Gone(p, names[..i + 1], c)
  {
    forall q | q in c && Below(p, q) ensures q[|p|] !in names[..i + 1] {
      ChildPrefix(p, names[i], q);
      assert names[..i + 1] == names[..i] + [names[i]];
    }
  }

  ghost predicate EntriesFit(nodes: map<Path, Kind>, path: Text, names: seq<Text>) {
    forall n | n in names && !Skipped(n) :: ChildFits(nodes, path, n)
  }

  /** Where the loop over the entries stands after `i` turns. */
  ghost predicate Removing(path: Text, names: seq<Text>, i: nat, a: map<Path, Kind>, b: map<Path, Kind>) {
    i <= |names| && Spared(Names(path), names[..i], a, b) && Gone(Names(path), names[..i], b)
    && EntriesFit(a, path, names[..i])
  }

  lemma EntrySkipped(path: Text, names: seq<Text>, i: nat, a: map<Path, Kind>, b: map<Path, Kind>)
    requires i < |names| && Skipped(names[i]) && Tree(b) && Removing(path, names, i, a, b)
    ensures Removing(path, names, i + 1, a, b)
  {
    assert names[..i + 1] == names[..i] + [names[i]];
    SparedMore(Names(path), names[..i], names[..i + 1], a, b);
    forall q | q in b && Below(Names(path), q) ensures q[|Names(path)|] != names[i] {
      FirstBelow(b, Names(path), q);
    }
  }

  lemma EntryReady(path: Text, names: seq<Text>, i: nat, a: map<Path, Kind>, b: map<Path, Kind>)
    requires i < |names| && Distinct(names) && !Skipped(names[i]) && Tree(a) && Tree(b) && Names(path) != []
    requires Listed(a, Names(path), names) && Spared(Names(path), names[..i], a, b) && IsDirectory(a, Names(path))
    ensures FileName(names[i]) && Names(Joined(path, names[i])) == Names(path) + [names[i]]
    ensures Removable(b, Joined(path, names[i])) <==> Fits(a, Joined(path, names[i]))
    ensures !Blocked(b, Joined(path, names[i]))
  {
    EntryIsBelow(a, Names(path), names[i]);
    NamesOfJoined(path, names[i]);
    EntryAsBefore(path, names, i, a, b);
    assert IsDirectory(b, Names(path));
    ChildNotBlocked(b, path, names[i]);
  }

  lemma EntryDone(path: Text, names: seq<Text>, i: nat, a: map<Path, Kind>, b: map<Path, Kind>, c: map<Path, Kind>)
    requires i < |names| && ChildFits(a, path, names[i]) && EntriesFit(a, path, names[..i])
    requires Gone(Names(path), names[..i], b) && (forall q | q in c :: q in b)
    requires forall q | q in c :: !(Names(path) + [names[i]] <= q)
    ensures Gone(Names(path), names[..i + 1], c) && EntriesFit(a, path, names[..i + 1])
  {
    GoneChild(Names(path), names, i, b, c);
    assert names[..i + 1] == names[..i] + [names[i]];
  }

  // ----- The removal -----

  /** The tree can be removed when no file stands where a directory is needed and every path formed below fits. */
  lemma RemovableIs(nodes: map<Path, Kind>, path: Text)
    ensures Removable(nodes, path) <==>
      (forall i | 0 < i < |S.Pieces(path, 47)| :: var p := Significant(S.Pieces(path, 47)[..i]);
         p != [] && p in nodes ==> nodes[p] == Directory)
      && (forall rel: Path | rel != [] && Names(path) + rel in nodes :: |TextOf(path, rel)| < 4096)
  {
    forall i | 0 < i < |S.Pieces(path, 47)| && IsFile(nodes, Significant(S.Pieces(path, 47)[..i]))
      ensures Blocked(nodes, path)
    {
    }
  }

  lemma {:induction false} TextOfSnoc(path: Text, rel: Path, name: Text)
    ensures TextOf(path, []) == path && TextOf(path, rel + [name]) == Joined(TextOf(path, rel), name)
    decreases |rel|
  {
    if rel == [] {
      assert rel + [name] == [name] && [name][1..] == [];
    } else {
      assert (rel + [name])[1..] == rel[1..] + [name];
      TextOfSnoc(Joined(path, rel[0]), rel[1..], name);
    }
  }

  /** Whether everything at a path can be removed, as far as the tree itself is concerned. */
  ghost predicate Removable(nodes: map<Path, Kind>, path: Text) { !Blocked(nodes, path) && Fits(nodes, path) }

  /**
    * Nothing is left exactly when no call failed for reasons of its own and the tree can be removed;
    * then no directory is ever removed before its contents.
    */
  method RemovePath(fs: FileSystem, path: CPath) returns (status: int, errno: Errno)
    requires fs.Valid() && Names(path) != []
    modifies fs
    ensures fs.Valid() && Within(path, old(Now(fs)), Now(fs))
    ensures fs.failures >= old(fs.failures) && (fs.failures == old(fs.failures) ==> fs.early == old(fs.early))
    ensures status == 0 || status == -1
    ensures status == 0 <==> fs.failures == old(fs.failures) && Removable(old(fs.nodes), path)
    ensures status == 0 ==> forall q | q in fs.nodes :: !(Names(path) <= q)
    ensures status != 0 && fs.failures == old(fs.failures) ==>
      errno == if Blocked(old(fs.nodes), path) then NotDirectory else NameTooLong
    decreases Room(path), 3
  {
    errno := Other;
    var info := fs.Lstat(path);
    if info == Failure(NoEntry) || (info.Success? && info.value != Directory) {
      NothingBelowOthers(fs.nodes, path);
    }
    if info.Failure? {
      status := if info.error == NoEntry then 0 else -1;
      errno := info.error;
    } else if info.value != Directory {
      var ok := fs.Unlink(path);
      status := if ok then 0 else -1;
    } else {
      status, errno := RemoveDirectory(fs, path);
    }
  }

  /** The part of the removal that deals with directories. */
  method RemoveDirectory(fs: FileSystem, path: CPath) returns (status: int, errno: Errno)
    requires fs.Valid() && Names(path) != [] && IsDirectory(fs.nodes, Names(path))
    modifies fs
    ensures fs.Valid() && Within(path, old(Now(fs)), Now(fs))
    ensures fs.failures >= old(fs.failures) && (fs.failures == old(fs.failures) ==> fs.early == old(fs.early))
    ensures status == 0 || status == -1
    ensures status == 0 <==> fs.failures == old(fs.failures) && Fits(old(fs.nodes), path)
    ensures status == 0 ==> forall q | q in fs.nodes :: !(Names(path) <= q)
    ensures status != 0 && fs.failures == old(fs.failures) ==> errno == NameTooLong
    decreases Room(path), 2
  {
    ghost var start := fs.nodes;
    errno := Other;
    var dir := fs.ReadDir(path);
    if dir.None? {
      return -1, errno;
    }
    ListedFits(start, path, dir.value);
    status, errno := RemoveEntries(fs, path, dir.value);
    var closed := fs.CloseDir();
    if status != 0 {
      return;
    }
    if !closed {
      return -1, errno;
    }
    WhatIsLeft(start, fs.nodes, Names(path), dir.value);
    var ok := fs.Rmdir(path);
    status := if ok then 0 else -1;
  }

  /** A complete listing decides whether the tree below fits. */
  lemma ListedFits(nodes: map<Path, Kind>, path: Text, names: seq<Text>)
    requires Tree(nodes) && Listed(nodes, Names(path), names)
    ensures Complete(nodes, Names(path), names) ==> (EntriesFit(nodes, path, names) <==> Fits(nodes, path))
  {
    FitsByEntries(nodes, path);
    forall n | n in Entries(nodes, Names(path)) ensures !Skipped(n) {
      EntryIsBelow(nodes, Names(path), n);
    }
  }

  /** The directory is bare exactly when its listing was complete. */
  lemma WhatIsLeft(a: map<Path, Kind>, b: map<Path, Kind>, p: Path, names: seq<Text>)
    requires Tree(a) && Spared(p, names, a, b) && Gone(p, names, b)
    ensures Bare(b, p) <==> Complete(a, p, names)
  {
    forall n | n in Entries(a, p) && n !in names ensures !Bare(b, p) {
      EntryIsBelow(a, p, n);
      assert p + [n] in b;
    }
    forall q | q in b && Below(p, q) ensures q[|p|] in Entries(a, p) && q[|p|] !in names {
      FirstBelow(a, p, q);
    }
  }

  /** The room left for longer paths; every step down needs some. */
  function Room(path: Text): nat { if |path| < PATH_MAX then PATH_MAX - |path| else PATH_MAX + 1 }

  method RemoveEntries(fs: FileSystem, path: CPath, names: seq<Text>) returns (status: int, errno: Errno)
    requires fs.Valid() && Names(path) != [] && IsDirectory(fs.nodes, Names(path)) && Distinct(names)
    requires Listed(fs.nodes, Names(path), names)
    modifies fs
    ensures fs.Valid() && Within(path, old(Now(fs)), Now(fs)) && Spared(Names(path), names, old(fs.nodes), fs.nodes)
    ensures fs.failures >= old(fs.failures) && (fs.failures == old(fs.failures) ==> fs.early == old(fs.early))
    ensures status == 0 || status == -1
    ensures status == 0 <==> fs.failures == old(fs.failures) && EntriesFit(old(fs.nodes), path, names)
    ensures status == 0 ==> Gone(Names(path), names, fs.nodes)
    ensures status != 0 && fs.failures == old(fs.failures) ==> errno == NameTooLong
    decreases Room(path), 1
  {
    ghost var start := Now(fs);
    status, errno := 0, Other;
    var i := 0;
    while i < |names|
      invariant 0 <= i <= |names| && fs.Valid() && Within(path, start, Now(fs)) && status == 0
      invariant fs.failures == old(fs.failures) && fs.early == old(fs.early)
      invariant Removing(path, names, i, start.nodes, fs.nodes)
    {
      status, errno := RemoveEntry(fs, path, names, i, start);
      if status != 0 {
        return;
      }
      i := i + 1;
    }
    assert names[..i] == names;
  }

  /** One turn of the loop over the entries of a directory. */
  method RemoveEntry(fs: FileSystem, path: CPath, names: seq<Text>, i: nat, ghost start: Snapshot)
      returns (status: int, errno: Errno)
    requires fs.Valid() && Names(path) != [] && IsDirectory(start.nodes, Names(path)) && Distinct(names)
    requires Listed(start.nodes, Names(path), names) && Tree(start.nodes)
    requires i < |names| && Within(path, start, Now(fs)) && Removing(path, names, i, start.nodes, fs.nodes)
    modifies fs
    ensures fs.Valid() && Within(path, start, Now(fs)) && Spared(Names(path), names, start.nodes, fs.nodes)
    ensures fs.failures >= old(fs.failures) && (fs.failures == old(fs.failures) ==> fs.early == old(fs.early))
    ensures status == 0 || status == -1
    ensures status == 0 <==>
      fs.failures == old(fs.failures) && (Skipped(names[i]) || ChildFits(start.nodes, path, names[i]))
    ensures status == 0 ==> Removing(path, names, i + 1, start.nodes, fs.nodes)
    ensures status != 0 && fs.failures == old(fs.failures) ==> errno == NameTooLong
    decreases Room(path), 0
  {
    var name := names[i];
    SparedMore(Names(path), names[..i], names, start.nodes, fs.nodes);
    if name == DOT || name == DOTS {
      EntrySkipped(path, names, i, start.nodes, fs.nodes);
      return 0, Other;
    }
    var child := Joined(path, name);
    if |child| >= PATH_MAX {
      return -1, NameTooLong;
    }
    ghost var before := Now(fs);
    EntryReady(path, names, i, start.nodes, fs.nodes);
    assert FileName(name);
    status, errno := RemovePath(fs, child);
    WithinChild(path, name, start, before, Now(fs));
    SparedChild(path, names, i, start.nodes, before, Now(fs));
    SparedMore(Names(path), names[..i + 1], names, start.nodes, fs.nodes);
    if status == 0 {
      EntryDone(path, names, i, start.nodes, before.nodes, fs.nodes);
    }
  }

  /** The exported call: refused without touching anything unless the text of the path, up to a NUL, is safe. */
  method TestRemoveTree(fs: FileSystem, path: Text) returns (status: int, errno: Errno)
    requires fs.Valid()
    modifies fs
    ensures fs.Valid() && Within(CPathOf(path), old(Now(fs)), Now(fs))
    ensures !Safe(CPathOf(path)) ==> status == -1 && errno == NotPermitted && Now(fs) == old(Now(fs))
    ensures fs.failures == old(fs.failures) ==> fs.early == old(fs.early)
    ensures status == 0 <==>
      Safe(CPathOf(path)) && fs.failures == old(fs.failures) && Removable(old(fs.nodes), CPathOf(path))
    ensures forall q | q in old(fs.nodes) && !(Names(CPathOf(path)) <= q) ::
      q in fs.nodes && fs.nodes[q] == old(fs.nodes)[q]
    ensures forall q | q in fs.nodes :: q in old(fs.nodes) && (status == 0 ==> !(Names(CPathOf(path)) <= q))
    ensures status != 0 && Safe(CPathOf(path)) && fs.failures == old(fs.failures) ==>
      errno == if Blocked(old(fs.nodes), CPathOf(path)) then NotDirectory else NameTooLong
  {
    var text := CPathOf(path);
    var safe := IsSafe(text);
    if !safe {
      return -1, NotPermitted;
    }
    SafeStaysInside(text);
    status, errno := RemovePath(fs, text);
  }

  /** A text with a NUL is not the path that is checked and removed. */
  lemma NulEndsPath(path: CPath, rest: Text)
    ensures CPathOf(path + [0] + rest) == path
  {
    UpToNulIs<Unit>(path, 0, rest);
  }

  /** So a `..` behind a NUL is not seen, and the tree in front of it is removed. */
  lemma DotsBehindNul(path: CPath)
    requires Safe(path)
    ensures var text := path + [0] + [SLASH] + DOTS; !Safe(text) && CPathOf(text) == path
  {
    NulEndsPath(path, [SLASH] + DOTS);
    assert path + [0] + ([SLASH] + DOTS) == path + [0] + [SLASH] + DOTS;
    DotsAreUnsafe(path + [0]);
  }

  lemma DotsAreUnsafe(front: Text)
    ensures !Safe(front + [SLASH] + DOTS)
  {
    EndsInDots(front);
  }

  lemma EndsInDots(front: Text)
    ensures DOTS in S.Pieces(front + [SLASH] + DOTS, SLASH)
  {
    S.PiecesOfPlain(front, DOTS, SLASH);
    assert (S.Pieces(front, SLASH) + [DOTS])[|S.Pieces(front, SLASH)|] == DOTS;
  }
}
