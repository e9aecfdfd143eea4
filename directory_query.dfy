/**
 * `GetPathChecksum` and `Path::QueryDirectory` of FileScanner.cpp: the
 * one-at-a-time hash of a path and the totals folded over every file a
 * recursive scan yields.
 *
 * The hash and the two checksums are 32-bit unsigned words (`bv32`), so
 * their arithmetic wraps as in the source. The file count and the summed
 * size are kept as numbers reduced modulo 2^32 and 2^64 after every step.
 */
module DirectoryQuery {
  import opened Common
  import opened FileScanner

  const ChecksumSeed: bv32 := 0xD843_0DED

  /** The word `hash += (*ch)` adds: the byte as a `char`, sign-extended where `char` is signed. */
  function Widen(c: Byte, charIsSigned: bool): bv32
  {
    if charIsSigned && c >= 0x80 then (c as bv32) | 0xFFFF_FF00 else c as bv32
  }

  /** The low byte of the word is the path byte; the upper 24 bits copy its sign bit only where `char` is signed. */
  lemma WidenIsSignExtension(c: Byte, charIsSigned: bool)
    ensures Widen(c, charIsSigned) & 0xFF == c as bv32
    ensures Widen(c, charIsSigned) >> 8 == if charIsSigned && c >= 0x80 then 0xFF_FFFF else 0
  {
  }

  /** One round of the hash for the word of one path byte. */
  function Mix(hash: bv32, w: bv32): bv32
  {
    var h1 := hash + w;
    var h2 := h1 + (h1 << 10);
    h2 ^ (h2 >> 6)
  }

  /** The hash after absorbing the bytes of `s` in order. */
  function Absorb(hash: bv32, s: seq<Byte>, charIsSigned: bool): bv32
  {
    if s == [] then hash else Mix(Absorb(hash, s[..|s| - 1], charIsSigned), Widen(s[|s| - 1], charIsSigned))
  }

  /** The final avalanche after the last byte. */
  function Finish(hash: bv32): bv32
  {
    var h1 := hash + (hash << 3);
    var h2 := h1 ^ (h1 >> 11);
    h2 + (h2 << 15)
  }

  /** The checksum of the zero-terminated path a buffer holds. */
  function PathChecksum(path: seq<Byte>, charIsSigned: bool): bv32
  {
    Finish(Absorb(ChecksumSeed, CString(path), charIsSigned))
  }

  /** The hash can be computed piece by piece: absorbing `s + t` is absorbing `s`, then `t`. */
  lemma {:induction false} AbsorbAppend(hash: bv32, s: seq<Byte>, t: seq<Byte>, charIsSigned: bool)
    ensures Absorb(hash, s + t, charIsSigned) == Absorb(Absorb(hash, s, charIsSigned), t, charIsSigned)
    decreases |t|
  {
    if t == [] {
      assert s + t == s;
    } else {
      var t' := t[..|t| - 1];
      assert (s + t)[..|s + t| - 1] == s + t';
      AbsorbAppend(hash, s, t', charIsSigned);
    }
  }

  /** For a path of 7-bit bytes the checksum does not depend on whether `char` is signed. */
  lemma {:induction false} AsciiChecksumPortable(hash: bv32, s: seq<Byte>)
    requires forall i :: 0 <= i < |s| ==> s[i] < 0x80
    ensures Absorb(hash, s, true) == Absorb(hash, s, false)
    decreases |s|
  {
    if s != [] {
      var c := s[|s| - 1];
      AsciiChecksumPortable(hash, s[..|s| - 1]);
      assert Widen(c, true) == Widen(c, false);
    }
  }

  /** A byte with the top bit set is one where the two kinds of `char` give different words. */
  lemma SignedCharDiffers(c: Byte)
    requires c >= 0x80
    ensures Widen(c, true) != Widen(c, false)
  {
  }

  /** Only the path up to its terminator is hashed. */
  lemma ChecksumStopsAtTerminator(path: seq<Byte>, rest: seq<Byte>, charIsSigned: bool)
    requires 0 !in path
    ensures PathChecksum(path + [0] + rest, charIsSigned) == PathChecksum(path, charIsSigned)
  {
    var t := path + [0] + rest;
    CStringAt(t, |path|);
    assert t[..|path|] == path;
    CStringAt(path, |path|);
    assert path[..|path|] == path;
  }

  /** `GetPathChecksum` (FileScanner.cpp:490-503). */
  method GetPathChecksum(path: seq<Byte>, charIsSigned: bool) returns (hash: bv32)
    ensures hash == PathChecksum(path, charIsSigned)
  {
    ghost var cs := CString(path);
    hash := ChecksumSeed;
    var ch := 0;
    assert cs[..0] == [];
    while At(path, ch) != 0
      invariant 0 <= ch <= |cs|
      invariant hash == Absorb(ChecksumSeed, cs[..ch], charIsSigned)
      decreases |cs| - ch
    {
      CStringByte(path, ch);
      assert cs[..ch + 1][..ch] == cs[..ch];
      hash := Mix(hash, Widen(path[ch], charIsSigned));
      ch := ch + 1;
    }
    CStringByte(path, ch);
    assert cs[..ch] == cs;
    hash := Finish(hash);
  }

  // ---------------------------------------------------------------------------
  // Path::QueryDirectory (FileScanner.cpp:452-469)
  // ---------------------------------------------------------------------------

  /** The four fields of `QueryDirectoryResult`. */
  datatype Totals = Totals(totalFiles: nat, totalFileSize: nat, fileDateModifiedChecksum: bv32, pathChecksum: bv32)

  /** `ror32(x, 5)`. */
  function RotateRight5(x: bv32): bv32
  {
    (x >> 5) | (x << 27)
  }

  /** The upper and lower 32 bits of a 64-bit timestamp. */
  function High(x: bv64): bv32
  {
    (x >> 32) as bv32
  }

  function Low(x: bv64): bv32
  {
    (x & 0xFFFF_FFFF) as bv32
  }

  /** The date checksum after one file: its two 32-bit halves XORed in, then a rotation right by 5. */
  function DateMix(checksum: bv32, lastModified: bv64): bv32
  {
    RotateRight5(checksum ^ High(lastModified) ^ Low(lastModified))
  }

  /** `PathChecksum += hash` on a 32-bit unsigned field. */
  function AddChecksum(sum: bv32, hash: bv32): bv32
  {
    sum + hash
  }

  /** The totals after one more file. */
  function AddFile(t: Totals, f: Found, charIsSigned: bool): Totals
  {
    Totals(
      (t.totalFiles + 1) % 0x1_0000_0000,
      (t.totalFileSize + f.info.size) % 0x1_0000_0000_0000_0000,
      DateMix(t.fileDateModifiedChecksum, f.info.lastModified),
      AddChecksum(t.pathChecksum, PathChecksum(f.path, charIsSigned)))
  }

  /** The totals after the files of `files`, in order. */
  function Accumulate(t: Totals, files: seq<Found>, charIsSigned: bool): Totals
  {
    if files == [] then t
    else AddFile(Accumulate(t, files[..|files| - 1], charIsSigned), files[|files| - 1], charIsSigned)
  }

  lemma AccumulateSnoc(t: Totals, files: seq<Found>, f: Found, charIsSigned: bool)
    ensures Accumulate(t, files + [f], charIsSigned) == AddFile(Accumulate(t, files, charIsSigned), f, charIsSigned)
  {
    assert (files + [f])[..|files|] == files;
  }

  function SizeSum(files: seq<Found>): nat
  {
    if files == [] then 0 else SizeSum(files[..|files| - 1]) + files[|files| - 1].info.size
  }

  /** Folding over a concatenation is folding over each part in turn. */
  lemma {:induction false} AccumulateAppend(t: Totals, a: seq<Found>, b: seq<Found>, charIsSigned: bool)
    ensures Accumulate(t, a + b, charIsSigned) == Accumulate(Accumulate(t, a, charIsSigned), b, charIsSigned)
    decreases |b|
  {
    if b == [] {
      assert a + b == a;
    } else {
      var b' := b[..|b| - 1];
      assert (a + b)[..|a + b| - 1] == a + b';
      AccumulateAppend(t, a, b', charIsSigned);
    }
  }

  lemma ModAdd32(x: nat, y: nat)
    ensures (x % 0x1_0000_0000 + y) % 0x1_0000_0000 == (x + y) % 0x1_0000_0000
  {
  }

  lemma ModAdd64(x: nat, y: nat)
    ensures (x % 0x1_0000_0000_0000_0000 + y) % 0x1_0000_0000_0000_0000 == (x + y) % 0x1_0000_0000_0000_0000
  {
  }

  /** The count and the size fit their fields: a 32-bit and a 64-bit unsigned integer. */
  predicate InRange(t: Totals)
  {
    t.totalFiles < 0x1_0000_0000 && t.totalFileSize < 0x1_0000_0000_0000_0000
  }

  /** The file count grows by one per file, wrapping at 2^32. */
  lemma {:induction false} AccumulateFileCount(t: Totals, files: seq<Found>, charIsSigned: bool)
    requires InRange(t)
    ensures Accumulate(t, files, charIsSigned).totalFiles == (t.totalFiles + |files|) % 0x1_0000_0000
    decreases |files|
  {
    if files != [] {
      var init := files[..|files| - 1];
      AccumulateFileCount(t, init, charIsSigned);
      ModAdd32(t.totalFiles + |init|, 1);
    }
  }

  /** The size grows by each file's size, wrapping at 2^64. */
  lemma {:induction false} AccumulateFileSize(t: Totals, files: seq<Found>, charIsSigned: bool)
    requires InRange(t)
    ensures Accumulate(t, files, charIsSigned).totalFileSize == (t.totalFileSize + SizeSum(files)) % 0x1_0000_0000_0000_0000
    decreases |files|
  {
    if files != [] {
      var init := files[..|files| - 1];
      AccumulateFileSize(t, init, charIsSigned);
      ModAdd64(t.totalFileSize + SizeSum(init), files[|files| - 1].info.size);
    }
  }

  /** Rotating left by 5 undoes `ror32(x, 5)`. */
  function RotateLeft5(x: bv32): bv32
  {
    (x << 5) | (x >> 27)
  }

  /** No step of the date checksum loses information: the previous value is recoverable from the next. */
  lemma DateMixInvertible(checksum: bv32, lastModified: bv64)
    ensures RotateLeft5(DateMix(checksum, lastModified)) ^ High(lastModified) ^ Low(lastModified) == checksum
  {
    var x := checksum ^ High(lastModified) ^ Low(lastModified);
    assert RotateLeft5(RotateRight5(x)) == x;
  }

  /** `QueryDirectoryResult`, which `QueryDirectory` updates in place. */
  class QueryDirectoryResult {
    var totalFiles: nat
    var totalFileSize: nat
    var fileDateModifiedChecksum: bv32
    var pathChecksum: bv32

    function Current(): Totals
      reads this
    {
      Totals(totalFiles, totalFileSize, fileDateModifiedChecksum, pathChecksum)
    }

    constructor ()
      ensures Current() == Totals(0, 0, 0, 0)
    {
      totalFiles := 0;
      totalFileSize := 0;
      fileDateModifiedChecksum := 0;
      pathChecksum := 0;
    }
  }

  /** The loop body of `Path::QueryDirectory` on the four totals: count one more file. */
  method CountFile(t: Totals, path: seq<Byte>, info: FileInfo, charIsSigned: bool) returns (next: Totals)
    ensures next == AddFile(t, Found(path, info), charIsSigned)
  {
    var hash := GetPathChecksum(path, charIsSigned);
    next := Totals(
      (t.totalFiles + 1) % 0x1_0000_0000,
      (t.totalFileSize + info.size) % 0x1_0000_0000_0000_0000,
      DateMix(t.fileDateModifiedChecksum, info.lastModified),
      AddChecksum(t.pathChecksum, hash));
  }

  /** Splitting off the head of what is left keeps the whole unchanged. */
  lemma TakeHead(files: seq<Found>, rest: seq<Found>)
    requires rest != []
    ensures files + [rest[0]] + rest[1..] == files + rest
  {
    assert [rest[0]] + rest[1..] == rest;
  }

  /** The scan of `Path::QueryDirectory`: every file a recursive scanner for `pattern` yields, in order. */
  method ScanFiles(pattern: seq<Byte>, root: seq<Child>) returns (files: seq<Found>)
    ensures files == FilesIn(root, DirectoryOf(pattern), Patterns(FileNameOf(pattern)), true)
  {
    var scanner := new FileScannerBase(pattern, true, root);
    ghost var all := scanner.Remaining();
    files := [];
    while true
      invariant fresh(scanner) && scanner.Valid()
      invariant files + scanner.Remaining() == all
      decreases |scanner.Remaining()|
    {
      ghost var rest := scanner.Remaining();
      var more := scanner.Next();
      if !more {
        break;
      }
      TakeHead(files, rest);
      files := files + [Found(scanner.currentPath, scanner.currentInfo)];
    }
  }

  /** The fold of `Path::QueryDirectory`: the totals after counting `files` in order. */
  method SumFiles(totals: Totals, files: seq<Found>, charIsSigned: bool) returns (sum: Totals)
    ensures sum == Accumulate(totals, files, charIsSigned)
  {
    sum := totals;
    var i := 0;
    while i < |files|
      invariant i <= |files|
      invariant sum == Accumulate(totals, files[..i], charIsSigned)
    {
      AccumulateSnoc(totals, files[..i], files[i], charIsSigned);
      assert files[..i + 1] == files[..i] + [files[i]];
      sum := CountFile(sum, files[i].path, files[i].info, charIsSigned);
      i := i + 1;
    }
    assert files[..i] == files;
  }

  /**
   * `Path::QueryDirectory`: scan `pattern` recursively over the tree `root`
   * below its directory and fold every yielded file into `result`.
   */
  method QueryDirectory(result: QueryDirectoryResult, pattern: seq<Byte>, root: seq<Child>, charIsSigned: bool)
    modifies result
    ensures result.Current() == Accumulate(old(result.Current()),
      FilesIn(root, DirectoryOf(pattern), Patterns(FileNameOf(pattern)), true), charIsSigned)
  {
    var files := ScanFiles(pattern, root);
    var totals := SumFiles(result.Current(), files, charIsSigned);
    result.totalFiles, result.totalFileSize := totals.totalFiles, totals.totalFileSize;
    result.fileDateModifiedChecksum, result.pathChecksum := totals.fileDateModifiedChecksum, totals.pathChecksum;
  }
}
