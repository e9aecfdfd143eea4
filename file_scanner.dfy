/**
 * The file scanner of FileScanner.cpp: splitting a `;`-separated pattern
 * list, the depth-first walk of `FileScannerBase` over a stack of
 * directory listings, and the `Path::GetDirectories` filter.
 *
 * The directory listings the operating system would return are a finite
 * tree of `Child` values: a directory entry carries the listing the scanner
 * would read for it, so `GetDirectoryChildren` becomes reading that field.
 * Paths are joined with one `/` between directory and name.
 */
module FileScanner {
  import opened Common
  import opened Wildcard

  const Semicolon: Byte := 0x3B
  const Separator: Byte := 0x2F

  // ---------------------------------------------------------------------------
  // GetPatterns (FileScanner.cpp:201-227)
  // ---------------------------------------------------------------------------

  /** The pieces of `s` between semicolons, empty ones included. */
  function SplitOnSemicolons(s: seq<Byte>): (r: seq<seq<Byte>>)
    ensures |r| >= 1
  {
    if s == [] then [[]]
    else
      var rest := SplitOnSemicolons(s[1..]);
      if s[0] == Semicolon then [[]] + rest else [[s[0]] + rest[0]] + rest[1..]
  }

  /** The pieces joined again, one semicolon between neighbours. */
  function JoinWithSemicolons(ps: seq<seq<Byte>>): seq<Byte>
  {
    if ps == [] then []
    else if |ps| == 1 then ps[0]
    else ps[0] + [Semicolon] + JoinWithSemicolons(ps[1..])
  }

  /** The non-empty pieces of `ps`, in order (what they are is stated by `NonEmptyPieces`). */
  function NonEmpty(ps: seq<seq<Byte>>): (r: seq<seq<Byte>>)
  {
    if ps == [] then []
    else (if ps[0] == [] then [] else [ps[0]]) + NonEmpty(ps[1..])
  }

  /** The patterns a delimited list names: its non-empty pieces, in order. */
  function Patterns(delimited: seq<Byte>): seq<seq<Byte>>
  {
    NonEmpty(SplitOnSemicolons(CString(delimited)))
  }

  /** Splitting and joining again gives back the string: the pieces are the whole text between the semicolons. */
  lemma {:induction false} JoinSplit(s: seq<Byte>)
    ensures JoinWithSemicolons(SplitOnSemicolons(s)) == s
    ensures forall i :: 0 <= i < |SplitOnSemicolons(s)| ==> Semicolon !in SplitOnSemicolons(s)[i]
  {
    if s != [] {
      var rest := SplitOnSemicolons(s[1..]);
      JoinSplit(s[1..]);
      if s[0] == Semicolon {
        assert ([[]] + rest)[1..] == rest;
        assert s == [Semicolon] + s[1..];
      } else {
        var r := [[s[0]] + rest[0]] + rest[1..];
        assert r[1..] == rest[1..];
        if |rest| == 1 {
          assert s == [s[0]] + s[1..];
        } else {
          assert rest == [rest[0]] + rest[1..];
          assert JoinWithSemicolons(rest) == rest[0] + [Semicolon] + JoinWithSemicolons(rest[1..]);
          assert s == [s[0]] + s[1..];
        }
        forall i | 0 <= i < |r|
          ensures Semicolon !in r[i]
        {
          if i > 0 {
            assert r[i] == rest[i];
          }
        }
      }
    }
  }

  lemma {:induction false} SplitWithoutSemicolon(a: seq<Byte>)
    requires Semicolon !in a
    ensures SplitOnSemicolons(a) == [a]
  {
    if a != [] {
      SplitWithoutSemicolon(a[1..]);
      assert a == [a[0]] + a[1..];
    }
  }

  lemma {:induction false} SplitAtSemicolon(a: seq<Byte>, b: seq<Byte>)
    requires Semicolon !in a
    ensures SplitOnSemicolons(a + [Semicolon] + b) == [a] + SplitOnSemicolons(b)
  {
    var s := a + [Semicolon] + b;
    if a == [] {
      assert s[1..] == b;
    } else {
      assert s[1..] == a[1..] + [Semicolon] + b;
      SplitAtSemicolon(a[1..], b);
      assert a == [a[0]] + a[1..];
    }
  }

  /** The pieces kept are the non-empty ones: each kept piece is a non-empty piece, and each non-empty piece is kept. */
  lemma {:induction false} NonEmptyPieces(ps: seq<seq<Byte>>)
    ensures forall i :: 0 <= i < |NonEmpty(ps)| ==> NonEmpty(ps)[i] != [] && NonEmpty(ps)[i] in ps
    ensures forall i :: 0 <= i < |ps| && ps[i] != [] ==> ps[i] in NonEmpty(ps)
  {
    if ps != [] {
      NonEmptyPieces(ps[1..]);
      assert forall i :: 1 <= i < |ps| ==> ps[i] == ps[1..][i - 1];
    }
  }

  /** No pattern is empty, none contains a semicolon or the terminator, and each is a piece of the list. */
  lemma PatternsWellFormed(delimited: seq<Byte>)
    ensures forall i :: 0 <= i < |Patterns(delimited)| ==>
      var p := Patterns(delimited)[i];
      p != [] && Semicolon !in p && 0 !in p && p in SplitOnSemicolons(CString(delimited))
  {
    var cs := CString(delimited);
    JoinSplit(cs);
    NonEmptyPieces(SplitOnSemicolons(cs));
    SplitBytesFrom(cs);
  }

  lemma {:induction false} SplitBytesFrom(s: seq<Byte>)
    ensures forall i, j :: 0 <= i < |SplitOnSemicolons(s)| && 0 <= j < |SplitOnSemicolons(s)[i]| ==>
      SplitOnSemicolons(s)[i][j] in s
  {
    if s != [] {
      SplitBytesFrom(s[1..]);
    }
  }

  /** Cutting the text at a semicolon or at its end emits the piece before the cut, if it is not empty. */
  lemma CutPiece(cs: seq<Byte>, start: nat, ch: nat, patterns: seq<seq<Byte>>, target: seq<seq<Byte>>)
    requires start <= ch <= |cs| && Semicolon !in cs[start..ch]
    requires ch == |cs| || cs[ch] == Semicolon
    requires patterns + NonEmpty(SplitOnSemicolons(cs[start..])) == target
    ensures var piece := cs[start..ch];
      var emitted := if |piece| > 0 then patterns + [piece] else patterns;
      (ch == |cs| ==> emitted == target)
      && (ch < |cs| ==> emitted + NonEmpty(SplitOnSemicolons(cs[ch + 1..])) == target)
  {
    var piece := cs[start..ch];
    if ch == |cs| {
      assert cs[start..] == piece;
      SplitWithoutSemicolon(piece);
    } else {
      assert cs[start..] == piece + [Semicolon] + cs[ch + 1..];
      SplitAtSemicolon(piece, cs[ch + 1..]);
      var rest := NonEmpty(SplitOnSemicolons(cs[ch + 1..]));
      assert NonEmpty([piece] + SplitOnSemicolons(cs[ch + 1..])) == (if piece == [] then [] else [piece]) + rest by {
        assert ([piece] + SplitOnSemicolons(cs[ch + 1..]))[1..] == SplitOnSemicolons(cs[ch + 1..]);
      }
    }
  }

  lemma CStringByte(t: seq<Byte>, i: nat)
    requires i <= |CString(t)|
    ensures i < |CString(t)| ==> At(t, i) == CString(t)[i] && At(t, i) != 0
    ensures i == |CString(t)| ==> At(t, i) == 0
  {
  }

  lemma PieceOfCString(t: seq<Byte>, a: nat, b: nat)
    requires a <= b <= |CString(t)|
    ensures t[a..b] == CString(t)[a..b]
  {
    var cs := CString(t);
    assert forall i :: a <= i < b ==> cs[i] == t[i];
  }

  lemma ExtendPiece(cs: seq<Byte>, start: nat, ch: nat)
    requires start <= ch < |cs| && Semicolon !in cs[start..ch] && cs[ch] != Semicolon
    ensures Semicolon !in cs[start..ch + 1]
  {
    assert cs[start..ch + 1] == cs[start..ch] + [cs[ch]];
  }

  /** `GetPatterns`: the `do ... while` over the list, cutting at each `;` and at the terminator. */
  method GetPatterns(delimitedPatterns: seq<Byte>) returns (patterns: seq<seq<Byte>>)
    ensures patterns == Patterns(delimitedPatterns)
  {
    ghost var cs := CString(delimitedPatterns);
    ghost var n := |cs|;
    patterns := [];
    var start := 0;
    var ch := 0;
    var done := false;
    while !done
      invariant 0 <= start <= ch && (!done ==> ch <= n)
      invariant !done ==> Semicolon !in cs[start..ch]
      invariant !done ==> patterns + NonEmpty(SplitOnSemicolons(cs[start..])) == Patterns(delimitedPatterns)
      invariant done ==> patterns == Patterns(delimitedPatterns)
      decreases n + 1 - ch, !done
    {
      var c := At(delimitedPatterns, ch);
      CStringByte(delimitedPatterns, ch);
      if c == 0 || c == Semicolon {
        var piece := delimitedPatterns[start..ch];
        PieceOfCString(delimitedPatterns, start, ch);
        CutPiece(cs, start, ch, patterns, Patterns(delimitedPatterns));
        if ch - start > 0 {
          patterns := patterns + [piece];
        }
        start := ch + 1;
      } else {
        ExtendPiece(cs, start, ch);
      }
      ch := ch + 1;
      done := c == 0;
    }
  }

  /** `Path::GetDirectory`: the pattern before its last separator. */
  function DirectoryOf(path: seq<Byte>): seq<Byte>
  {
    if path == [] then []
    else if path[|path| - 1] == Separator then path[..|path| - 1]
    else DirectoryOf(path[..|path| - 1])
  }

  /** `Path::GetFileName`: the pattern after its last separator. */
  function FileNameOf(path: seq<Byte>): seq<Byte>
  {
    if path == [] then []
    else if path[|path| - 1] == Separator then []
    else FileNameOf(path[..|path| - 1]) + [path[|path| - 1]]
  }

  /** The directory and file-name parts split the pattern at its last separator. */
  lemma {:induction false} SplitPath(path: seq<Byte>)
    ensures Separator !in FileNameOf(path)
    ensures Separator in path ==> DirectoryOf(path) + [Separator] + FileNameOf(path) == path
    ensures Separator !in path ==> DirectoryOf(path) == [] && FileNameOf(path) == path
  {
    if path != [] {
      var init := path[..|path| - 1];
      assert path == init + [path[|path| - 1]];
      SplitPath(init);
    }
  }

  // ---------------------------------------------------------------------------
  // The tree the scanner walks
  // ---------------------------------------------------------------------------

  /** One entry of a directory listing (`DirectoryChild`); a directory carries its own listing. */
  datatype Child =
    | FileEntry(name: seq<Byte>, size: UInt64, lastModified: bv64)
    | DirectoryEntry(name: seq<Byte>, listing: seq<Child>)

  /** What the scanner reports for the current file (`FileInfo`). */
  datatype FileInfo = FileInfo(name: seq<Byte>, size: UInt64, lastModified: bv64)

  /** One file the scanner yields: its path and its information. */
  datatype Found = Found(path: seq<Byte>, info: FileInfo)

  /** One level of the walk (`DirectoryState`): `index` is the entry last visited, -1 before the first. */
  datatype DirectoryState = DirectoryState(path: seq<Byte>, listing: seq<Child>, index: int)

  /** `Path::Append`: directory, one separator, name. */
  function Append(directory: seq<Byte>, name: seq<Byte>): seq<Byte>
  {
    directory + [Separator] + name
  }

  /** Whether some pattern matches the name (`PatternMatch`). */
  predicate Matches(patterns: seq<seq<Byte>>, name: seq<Byte>)
  {
    exists i :: 0 <= i < |patterns| && MatchWildcard(name, patterns[i])
  }

  /** The files a walk of `listing` under `directory` yields, in depth-first listing order. */
  function FilesIn(listing: seq<Child>, directory: seq<Byte>, patterns: seq<seq<Byte>>, recurse: bool): seq<Found>
    decreases listing
  {
    if listing == [] then []
    else FilesOf(listing[0], directory, patterns, recurse) + FilesIn(listing[1..], directory, patterns, recurse)
  }

  /** The files one entry contributes: a matching file itself, a directory its contents when recursing. */
  function FilesOf(c: Child, directory: seq<Byte>, patterns: seq<seq<Byte>>, recurse: bool): seq<Found>
    decreases c
  {
    match c
    case FileEntry(name, size, lastModified) =>
      if Matches(patterns, name) then [Found(Append(directory, name), FileInfo(name, size, lastModified))] else []
    case DirectoryEntry(name, listing) =>
      if recurse then FilesIn(listing, Append(directory, name), patterns, recurse) else []
  }

  /** The entries of a level the walk has not visited yet. */
  function Unvisited(state: DirectoryState): seq<Child>
  {
    if -1 <= state.index < |state.listing| then state.listing[state.index + 1..] else []
  }

  /** The files a stack of levels still yields, the top (last) level first. */
  function Pending(stack: seq<DirectoryState>, patterns: seq<seq<Byte>>, recurse: bool): seq<Found>
  {
    if stack == [] then []
    else
      var top := stack[|stack| - 1];
      FilesIn(Unvisited(top), top.path, patterns, recurse) + Pending(stack[..|stack| - 1], patterns, recurse)
  }

  function ListWeight(listing: seq<Child>): nat
    decreases listing
  {
    if listing == [] then 0 else ChildWeight(listing[0]) + ListWeight(listing[1..])
  }

  function ChildWeight(c: Child): nat
    decreases c
  {
    match c
    case FileEntry(_, _, _) => 1
    case DirectoryEntry(_, listing) => 2 + ListWeight(listing)
  }

  /** The work left in a stack: every level and every unvisited entry below it. */
  function StackWeight(stack: seq<DirectoryState>): nat
  {
    if stack == [] then 0
    else 1 + ListWeight(Unvisited(stack[|stack| - 1])) + StackWeight(stack[..|stack| - 1])
  }

  /** Every level on the stack has visited at most its last entry. */
  predicate ValidStack(stack: seq<DirectoryState>)
  {
    forall i :: 0 <= i < |stack| ==> -1 <= stack[i].index < |stack[i].listing|
  }

  lemma PushTop(rest: seq<DirectoryState>, top: DirectoryState, patterns: seq<seq<Byte>>, recurse: bool)
    ensures Pending(rest + [top], patterns, recurse)
      == FilesIn(Unvisited(top), top.path, patterns, recurse) + Pending(rest, patterns, recurse)
    ensures StackWeight(rest + [top]) == 1 + ListWeight(Unvisited(top)) + StackWeight(rest)
  {
    assert (rest + [top])[..|rest|] == rest;
  }

  /** Visiting the next entry of the top level moves that entry's files out of the top level's share. */
  lemma VisitNextFiles(state: DirectoryState, patterns: seq<seq<Byte>>, recurse: bool)
    requires -1 <= state.index && state.index + 1 < |state.listing|
    ensures FilesIn(Unvisited(state), state.path, patterns, recurse)
      == FilesOf(state.listing[state.index + 1], state.path, patterns, recurse)
        + FilesIn(Unvisited(state.(index := state.index + 1)), state.path, patterns, recurse)
  {
    var l := state.listing[state.index + 1..];
    assert l[1..] == state.listing[state.index + 2..];
  }

  lemma VisitNextWeight(state: DirectoryState)
    requires -1 <= state.index && state.index + 1 < |state.listing|
    ensures ListWeight(Unvisited(state))
      == ChildWeight(state.listing[state.index + 1]) + ListWeight(Unvisited(state.(index := state.index + 1)))
  {
    var l := state.listing[state.index + 1..];
    assert l[1..] == state.listing[state.index + 2..];
  }


  /** A level whose last entry has been visited yields nothing more and can be dropped. */
  lemma PopStep(stack: seq<DirectoryState>, patterns: seq<seq<Byte>>, recurse: bool)
    requires stack != [] && ValidStack(stack)
    requires stack[|stack| - 1].index + 1 >= |stack[|stack| - 1].listing|
    ensures var rest := stack[..|stack| - 1];
      ValidStack(rest) && Pending(rest, patterns, recurse) == Pending(stack, patterns, recurse)
      && StackWeight(rest) < StackWeight(stack)
  {
    var top := stack[|stack| - 1];
    assert Unvisited(top) == [];
  }

  /** Visiting the top level's next entry: that entry's files come first, then the rest of the stack's. */
  lemma AdvanceStep(stack: seq<DirectoryState>, patterns: seq<seq<Byte>>, recurse: bool)
    requires stack != [] && ValidStack(stack)
    requires stack[|stack| - 1].index + 1 < |stack[|stack| - 1].listing|
    ensures var top := stack[|stack| - 1];
      var next := stack[..|stack| - 1] + [top.(index := top.index + 1)];
      var c := top.listing[top.index + 1];
      ValidStack(next)
      && Pending(stack, patterns, recurse) == FilesOf(c, top.path, patterns, recurse) + Pending(next, patterns, recurse)
      && StackWeight(stack) == ChildWeight(c) + StackWeight(next)
  {
    var rest := stack[..|stack| - 1];
    var top := stack[|stack| - 1];
    var moved := top.(index := top.index + 1);
    assert stack == rest + [top];
    AdvancePending(rest, top, patterns, recurse);
    AdvanceWeight(rest, top);
    AdvanceValid(stack);
  }

  lemma AdvancePending(rest: seq<DirectoryState>, top: DirectoryState, patterns: seq<seq<Byte>>, recurse: bool)
    requires -1 <= top.index && top.index + 1 < |top.listing|
    ensures Pending(rest + [top], patterns, recurse)
      == FilesOf(top.listing[top.index + 1], top.path, patterns, recurse)
        + Pending(rest + [top.(index := top.index + 1)], patterns, recurse)
  {
    var moved := top.(index := top.index + 1);
    PushTop(rest, top, patterns, recurse);
    PushTop(rest, moved, patterns, recurse);
    VisitNextFiles(top, patterns, recurse);
    Regroup(Pending(rest + [top], patterns, recurse), Pending(rest + [moved], patterns, recurse),
      FilesIn(Unvisited(top), top.path, patterns, recurse),
      FilesOf(top.listing[top.index + 1], top.path, patterns, recurse),
      FilesIn(Unvisited(moved), top.path, patterns, recurse), Pending(rest, patterns, recurse));
  }

  lemma Regroup(whole: seq<Found>, next: seq<Found>, level: seq<Found>, first: seq<Found>, others: seq<Found>, below: seq<Found>)
    requires whole == level + below && level == first + others && next == others + below
    ensures whole == first + next
  {
  }

  lemma AdvanceWeight(rest: seq<DirectoryState>, top: DirectoryState)
    requires -1 <= top.index && top.index + 1 < |top.listing|
    ensures StackWeight(rest + [top])
      == ChildWeight(top.listing[top.index + 1]) + StackWeight(rest + [top.(index := top.index + 1)])
  {
    PushTop(rest, top, [], false);
    PushTop(rest, top.(index := top.index + 1), [], false);
    VisitNextWeight(top);
  }

  lemma AdvanceValid(stack: seq<DirectoryState>)
    requires stack != [] && ValidStack(stack)
    requires stack[|stack| - 1].index + 1 < |stack[|stack| - 1].listing|
    ensures var top := stack[|stack| - 1];
      ValidStack(stack[..|stack| - 1] + [top.(index := top.index + 1)])
  {
  }

  /** Descending into a directory entry: its files are exactly those of a fresh level for it. */
  lemma DescendStep(stack: seq<DirectoryState>, c: Child, directory: seq<Byte>, patterns: seq<seq<Byte>>)
    requires ValidStack(stack) && c.DirectoryEntry?
    ensures var sub := DirectoryState(Append(directory, c.name), c.listing, -1);
      ValidStack(stack + [sub])
      && FilesOf(c, directory, patterns, true) + Pending(stack, patterns, true) == Pending(stack + [sub], patterns, true)
      && StackWeight(stack + [sub]) < ChildWeight(c) + StackWeight(stack)
  {
    var sub := DirectoryState(Append(directory, c.name), c.listing, -1);
    PushTop(stack, sub, patterns, true);
    assert c.listing[0..] == c.listing;
  }

  lemma FileStep(c: Child, directory: seq<Byte>, patterns: seq<seq<Byte>>, recurse: bool)
    requires c.FileEntry?
    ensures FilesOf(c, directory, patterns, recurse)
      == if Matches(patterns, c.name) then [Found(Append(directory, c.name), FileInfo(c.name, c.size, c.lastModified))] else []
  {
  }

  /** Every yielded file matches a pattern, lies below the directory walked, and ends in its own name. */
  lemma {:induction false} FilesInShape(listing: seq<Child>, directory: seq<Byte>, patterns: seq<seq<Byte>>, recurse: bool)
    ensures forall f :: f in FilesIn(listing, directory, patterns, recurse) ==>
      Matches(patterns, f.info.name)
      && |f.path| > |directory| && f.path[..|directory| + 1] == directory + [Separator]
      && |f.path| >= |f.info.name| && f.path[|f.path| - |f.info.name|..] == f.info.name
    decreases listing
  {
    if listing != [] {
      FilesOfShape(listing[0], directory, patterns, recurse);
      FilesInShape(listing[1..], directory, patterns, recurse);
    }
  }

  lemma {:induction false} FilesOfShape(c: Child, directory: seq<Byte>, patterns: seq<seq<Byte>>, recurse: bool)
    ensures forall f :: f in FilesOf(c, directory, patterns, recurse) ==>
      Matches(patterns, f.info.name)
      && |f.path| > |directory| && f.path[..|directory| + 1] == directory + [Separator]
      && |f.path| >= |f.info.name| && f.path[|f.path| - |f.info.name|..] == f.info.name
    decreases c
  {
    match c
    case FileEntry(name, size, lastModified) =>
      var p := Append(directory, name);
      assert p[..|directory| + 1] == directory + [Separator];
      assert p[|p| - |name|..] == name;
    case DirectoryEntry(name, listing) =>
      if recurse {
        var sub := Append(directory, name);
        FilesInShape(listing, sub, patterns, recurse);
        forall f | f in FilesIn(listing, sub, patterns, recurse)
          ensures f.path[..|directory| + 1] == directory + [Separator]
        {
          assert f.path[..|directory| + 1] == f.path[..|sub| + 1][..|directory| + 1];
        }
      }
  }

  /** Each matching file of a listing is yielded, with its own path and information. */
  lemma {:induction false} MatchingFileFound(listing: seq<Child>, i: nat, directory: seq<Byte>, patterns: seq<seq<Byte>>, recurse: bool)
    requires i < |listing| && listing[i].FileEntry? && Matches(patterns, listing[i].name)
    ensures var c := listing[i];
      Found(Append(directory, c.name), FileInfo(c.name, c.size, c.lastModified)) in FilesIn(listing, directory, patterns, recurse)
  {
    if i > 0 {
      MatchingFileFound(listing[1..], i - 1, directory, patterns, recurse);
    }
  }

  /** When recursing, everything a subdirectory yields is yielded by its parent too. */
  lemma {:induction false} SubdirectoryFilesFound(listing: seq<Child>, i: nat, directory: seq<Byte>, patterns: seq<seq<Byte>>)
    requires i < |listing| && listing[i].DirectoryEntry?
    ensures var d := listing[i];
      forall f :: f in FilesIn(d.listing, Append(directory, d.name), patterns, true) ==>
        f in FilesIn(listing, directory, patterns, true)
  {
    if i > 0 {
      SubdirectoryFilesFound(listing[1..], i - 1, directory, patterns);
    }
  }

  /** Without recursion only the listing's own files are yielded, each directly below the directory. */
  lemma {:induction false} FlatWalk(listing: seq<Child>, directory: seq<Byte>, patterns: seq<seq<Byte>>)
    ensures |FilesIn(listing, directory, patterns, false)| <= |listing|
    ensures forall f :: f in FilesIn(listing, directory, patterns, false) ==>
      f.path == Append(directory, f.info.name)
      && FileEntry(f.info.name, f.info.size, f.info.lastModified) in listing
  {
    if listing != [] {
      FlatWalk(listing[1..], directory, patterns);
    }
  }

  // ---------------------------------------------------------------------------
  // FileScannerBase (FileScanner.cpp:67-228)
  // ---------------------------------------------------------------------------

  class FileScannerBase {
    // Options
    var rootPath: seq<Byte>
    var patterns: seq<seq<Byte>>
    var recurse: bool
    /** What `GetDirectoryChildren(rootPath)` returns: the tree below the root. */
    var root: seq<Child>

    // State
    var started: bool
    var stack: seq<DirectoryState>

    // Current
    var currentPath: seq<Byte>
    var currentInfo: FileInfo

    /** Every level on the stack has visited at most its last entry. */
    predicate Valid()
      reads this
    {
      ValidStack(stack) && (!started ==> stack == [])
    }

    /** The files the following calls of `Next` will yield, in order. */
    function Remaining(): seq<Found>
      reads this
    {
      if started then Pending(stack, patterns, recurse) else FilesIn(root, rootPath, patterns, recurse)
    }

    /** The scanner for `pattern` (a directory, a separator and a `;`-list of wildcards). */
    constructor (pattern: seq<Byte>, recurse: bool, root: seq<Child>)
      ensures rootPath == DirectoryOf(pattern) && patterns == Patterns(FileNameOf(pattern))
      ensures this.recurse == recurse && this.root == root
      ensures Valid() && !started && stack == [] && currentPath == []
      ensures Remaining() == FilesIn(root, rootPath, patterns, recurse)
    {
      rootPath := DirectoryOf(pattern);
      this.recurse := recurse;
      var ps := GetPatterns(FileNameOf(pattern));
      patterns := ps;
      this.root := root;
      currentInfo := FileInfo([], 0, 0);
      new;
      Reset();
    }

    /** `GetPathRelative`: the current path without the root and the separator after it. */
    function GetPathRelative(): (r: seq<Byte>)
      reads this
      requires |rootPath| < |currentPath|
      ensures |rootPath| + 1 + |r| == |currentPath|
      ensures currentPath[..|rootPath| + 1] == rootPath + [Separator] ==> currentPath == rootPath + [Separator] + r
    {
      currentPath[|rootPath| + 1..]
    }

    /** `Reset`: forget the walk; the next `Next` starts again from the root. */
    method Reset()
      modifies this
      ensures !started && stack == [] && currentPath == []
      ensures rootPath == old(rootPath) && patterns == old(patterns) && recurse == old(recurse) && root == old(root)
      ensures currentInfo == old(currentInfo)
      ensures Valid() && Remaining() == FilesIn(root, rootPath, patterns, recurse)
    {
      started := false;
      stack := [];
      currentPath := [];
    }

    /** `PushState`: a new level for `directory`, before its first entry. */
    method PushState(directory: seq<Byte>, listing: seq<Child>)
      requires Valid() && started
      modifies this
      ensures stack == old(stack) + [DirectoryState(directory, listing, -1)]
      ensures started == old(started) && currentPath == old(currentPath) && currentInfo == old(currentInfo)
      ensures rootPath == old(rootPath) && patterns == old(patterns) && recurse == old(recurse) && root == old(root)
      ensures Valid()
    {
      stack := stack + [DirectoryState(directory, listing, -1)];
    }

    /** `PatternMatch`: whether any of the scanner's patterns matches the name. */
    method PatternMatch(fileName: seq<Byte>) returns (matched: bool)
      ensures matched == Matches(patterns, fileName)
    {
      matched := false;
      var i := 0;
      while i < |patterns| && !matched
        invariant 0 <= i <= |patterns|
        invariant matched == (i > 0 && MatchWildcard(fileName, patterns[i - 1]))
        invariant forall j :: 0 <= j < i - 1 ==> !MatchWildcard(fileName, patterns[j])
        invariant !matched ==> forall j :: 0 <= j < i ==> !MatchWildcard(fileName, patterns[j])
      {
        matched := MatchWildcard(fileName, patterns[i]);
        i := i + 1;
      }
    }

    /**
     * `Next`: advance to the next matching file. It yields exactly the
     * files of `Remaining()`, one per call, and returns false once they are
     * used up, leaving nothing remaining, so every later call fails too.
     */
    method Next() returns (found: bool)
      requires Valid()
      modifies this
      ensures Valid() && started
      ensures rootPath == old(rootPath) && patterns == old(patterns) && recurse == old(recurse) && root == old(root)
      ensures old(Remaining()) == [] ==>
        !found && Remaining() == [] && currentPath == old(currentPath) && currentInfo == old(currentInfo)
      ensures old(Remaining()) != [] ==>
        found && Found(currentPath, currentInfo) == old(Remaining())[0] && Remaining() == old(Remaining())[1..]
    {
      if !started {
        started := true;
        PushState(rootPath, root);
        PushTop([], DirectoryState(rootPath, root, -1), patterns, recurse);
        assert [] + [DirectoryState(rootPath, root, -1)] == stack;
        assert root[0..] == root;
      }
      while |stack| != 0
        invariant Valid() && started
        invariant rootPath == old(rootPath) && patterns == old(patterns) && recurse == old(recurse) && root == old(root)
        invariant currentPath == old(currentPath) && currentInfo == old(currentInfo)
        invariant Pending(stack, patterns, recurse) == old(Remaining())
        decreases StackWeight(stack)
      {
        var yielded := Step();
        if yielded {
          return true;
        }
      }
      return false;
    }

    /**
     * One turn of the loop in `Next`: move the top level to its next entry,
     * dropping the level when it has none, descending into a directory when
     * recursing, and stopping at a matching file.
     */
    method Step() returns (yielded: bool)
      requires Valid() && stack != []
      modifies this
      ensures Valid() && started == old(started)
      ensures rootPath == old(rootPath) && patterns == old(patterns) && recurse == old(recurse) && root == old(root)
      ensures StackWeight(stack) < old(StackWeight(stack))
      ensures yielded ==>
        old(Pending(stack, patterns, recurse)) == [Found(currentPath, currentInfo)] + Pending(stack, patterns, recurse)
      ensures !yielded ==>
        Pending(stack, patterns, recurse) == old(Pending(stack, patterns, recurse))
        && currentPath == old(currentPath) && currentInfo == old(currentInfo)
    {
      var n := |stack|;
      var state := stack[n - 1];
      if state.index + 1 >= |state.listing| {
        PopStep(stack, patterns, recurse);
        stack := stack[..n - 1];
        yielded := false;
      } else {
        yielded := Visit();
      }
    }

    /** The part of `Step` for a top level that has an entry left: `state->Index++` and what follows. */
    method Visit() returns (yielded: bool)
      requires Valid() && stack != [] && stack[|stack| - 1].index + 1 < |stack[|stack| - 1].listing|
      modifies this
      ensures Valid() && started == old(started)
      ensures rootPath == old(rootPath) && patterns == old(patterns) && recurse == old(recurse) && root == old(root)
      ensures StackWeight(stack) < old(StackWeight(stack))
      ensures yielded ==>
        old(Pending(stack, patterns, recurse)) == [Found(currentPath, currentInfo)] + Pending(stack, patterns, recurse)
      ensures !yielded ==>
        Pending(stack, patterns, recurse) == old(Pending(stack, patterns, recurse))
        && currentPath == old(currentPath) && currentInfo == old(currentInfo)
    {
      var child, directory := Advance();
      if child.DirectoryEntry? {
        VisitDirectory(child, directory);
        yielded := false;
      } else {
        yielded := VisitFile(child, directory);
      }
    }

    /** `state->Index++`: the top level moves to its next entry, whose files come before the rest of the stack's. */
    method Advance() returns (child: Child, directory: seq<Byte>)
      requires Valid() && stack != [] && stack[|stack| - 1].index + 1 < |stack[|stack| - 1].listing|
      modifies this
      ensures Valid() && started == old(started)
      ensures rootPath == old(rootPath) && patterns == old(patterns) && recurse == old(recurse) && root == old(root)
      ensures currentPath == old(currentPath) && currentInfo == old(currentInfo)
      ensures var top := old(stack[|stack| - 1]);
        child == top.listing[top.index + 1] && directory == top.path
        && stack == old(stack[..|stack| - 1]) + [top.(index := top.index + 1)]
      ensures old(Pending(stack, patterns, recurse)) == FilesOf(child, directory, patterns, recurse) + Pending(stack, patterns, recurse)
      ensures old(StackWeight(stack)) == ChildWeight(child) + StackWeight(stack)
    {
      var n := |stack|;
      var state := stack[n - 1];
      AdvanceStep(stack, patterns, recurse);
      state := state.(index := state.index + 1);
      stack := stack[..n - 1] + [state];
      child, directory := state.listing[state.index], state.path;
    }

    /** A directory entry: pushed as a new level when recursing, skipped otherwise. */
    method VisitDirectory(child: Child, directory: seq<Byte>)
      requires Valid() && started && child.DirectoryEntry?
      modifies this
      ensures Valid() && started
      ensures rootPath == old(rootPath) && patterns == old(patterns) && recurse == old(recurse) && root == old(root)
      ensures currentPath == old(currentPath) && currentInfo == old(currentInfo)
      ensures Pending(stack, patterns, recurse) == FilesOf(child, directory, patterns, recurse) + old(Pending(stack, patterns, recurse))
      ensures StackWeight(stack) < ChildWeight(child) + old(StackWeight(stack))
    {
      if recurse {
        DescendStep(stack, child, directory, patterns);
        PushState(Append(directory, child.name), child.listing);
      }
    }

    /** A file entry: it becomes the current file when some pattern matches its name. */
    method VisitFile(child: Child, directory: seq<Byte>) returns (yielded: bool)
      requires child.FileEntry?
      modifies this
      ensures stack == old(stack) && started == old(started)
      ensures rootPath == old(rootPath) && patterns == old(patterns) && recurse == old(recurse) && root == old(root)
      ensures yielded ==> FilesOf(child, directory, patterns, recurse) == [Found(currentPath, currentInfo)]
      ensures !yielded ==> (FilesOf(child, directory, patterns, recurse) == []
        && currentPath == old(currentPath) && currentInfo == old(currentInfo))
    {
      yielded := PatternMatch(child.name);
      FileStep(child, directory, patterns, recurse);
      if yielded {
        currentPath := Append(directory, child.name);
        currentInfo := FileInfo(child.name, child.size, child.lastModified);
      }
    }
  }

  // ---------------------------------------------------------------------------
  // Path::GetDirectories (FileScanner.cpp:471-488)
  // ---------------------------------------------------------------------------

  /** The names of a listing's directories, in listing order. */
  function DirectoryNames(listing: seq<Child>): seq<seq<Byte>>
  {
    if listing == [] then []
    else (if listing[0].DirectoryEntry? then [listing[0].name] else []) + DirectoryNames(listing[1..])
  }

  /** Whether some directory entry of the listing is called `name`. */
  predicate HasDirectory(listing: seq<Child>, name: seq<Byte>)
  {
    exists i :: 0 <= i < |listing| && listing[i].DirectoryEntry? && listing[i].name == name
  }

  /** A name is listed exactly when some directory entry has it; files never contribute. */
  lemma {:induction false} DirectoryNamesExact(listing: seq<Child>)
    ensures |DirectoryNames(listing)| <= |listing|
    ensures forall name :: name in DirectoryNames(listing) <==> HasDirectory(listing, name)
  {
    if listing != [] {
      DirectoryNamesExact(listing[1..]);
      forall name
        ensures HasDirectory(listing, name) <==>
          (listing[0].DirectoryEntry? && listing[0].name == name) || HasDirectory(listing[1..], name)
      {
        if HasDirectory(listing, name) {
          var i :| 0 <= i < |listing| && listing[i].DirectoryEntry? && listing[i].name == name;
          if i > 0 {
            assert listing[1..][i - 1] == listing[i];
          }
        }
        if HasDirectory(listing[1..], name) {
          var i :| 0 <= i < |listing[1..]| && listing[1..][i].DirectoryEntry? && listing[1..][i].name == name;
          assert listing[i + 1] == listing[1..][i];
        }
      }
    }
  }

  /** `GetDirectories`: the subdirectory names of the listing `GetDirectoryChildren` returns for the path. */
  method GetDirectories(children: seq<Child>) returns (subDirectories: seq<seq<Byte>>)
    ensures subDirectories == DirectoryNames(children)
  {
    subDirectories := [];
    var i := 0;
    assert children[0..] == children;
    while i < |children|
      invariant 0 <= i <= |children|
      invariant subDirectories + DirectoryNames(children[i..]) == DirectoryNames(children)
    {
      assert children[i..][1..] == children[i + 1..];
      if children[i].DirectoryEntry? {
        subDirectories := subDirectories + [children[i].name];
      }
      i := i + 1;
    }
  }
}
