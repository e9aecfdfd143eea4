/**
  `shorten_path` of src/openrct2/drawing/String.cpp: a path too wide for the space it is shown
  in is abbreviated to `...` followed by the part of the path from one of its separators on,
  trying the separators from the left until the abbreviation fits.
*/
module TextPath {
  import opened Common
  import opened FormatCodes
  import opened TextState
  import opened TextInterp
  import opened TextDrawing

  const Slash: Byte := 0x2F
  const Dots: seq<Byte> := [Dot, Dot, Dot]

  // ---------------------------------------------------------------------------------------------
  // safe_strcpy

  /** How many bytes of `src` a copy into `size` bytes keeps: all of its string if there is room for the terminator. */
  function CopyLength(src: seq<Byte>, size: nat): (n: nat)
    requires size > 0
    ensures n <= |CString(src)| && n < size
    ensures n == |CString(src)| || n == size - 1
  {
    if |CString(src)| < size then |CString(src)| else size - 1
  }

  /**
    The buffer `dst` after `safe_strcpy(dst + off, src, size)`: as much of the string in `src`
    as fits in `size` bytes with its terminator; nothing is written when `size` is zero.
  */
  function Copied(dst: seq<Byte>, off: nat, src: seq<Byte>, size: nat): (r: seq<Byte>)
    requires off + size <= |dst|
    ensures |r| == |dst|
    ensures forall i :: 0 <= i < |dst| && !(off <= i < off + size) ==> r[i] == dst[i]
    ensures size > 0 ==> CString(r[off..]) == CString(src)[..CopyLength(src, size)]
    ensures size == 0 ==> r == dst
  {
    if size == 0 then dst
    else
      var n := CopyLength(src, size);
      var r := dst[..off] + CString(src)[..n] + [0] + dst[off + n + 1..];
      assert r[off..][..n] == CString(src)[..n];
      CStringAt(r[off..], n);
      r
  }

  /** `safe_strcpy`, which is not part of this model's source, as the copy `Copied` describes. */
  method SafeStrcpy(dst: array<Byte>, off: nat, src: seq<Byte>, size: nat)
    requires off + size <= dst.Length
    modifies dst
    ensures dst[..] == Copied(old(dst[..]), off, src, size)
  {
    if size == 0 {
      return;
    }
    var s := CString(src);
    var n := CopyLength(src, size);
    forall j | off <= j < off + n {
      dst[j] := s[j - off];
    }
    dst[off + n] := 0;
  }

  // ---------------------------------------------------------------------------------------------
  // Path separators

  /** The platform's PATH_SEPARATOR and '/' both separate path components. */
  predicate IsSeparator(c: Byte, pathSeparator: Byte) {
    c == pathSeparator || c == Slash
  }

  /** The positions of the separators in `s` from `i` on. */
  function SeparatorsFrom(s: seq<Byte>, pathSeparator: Byte, i: nat): (r: seq<nat>)
    ensures |r| <= |s| - i || r == []
    decreases |s| - i
  {
    if i >= |s| then []
    else if IsSeparator(s[i], pathSeparator) then [i] + SeparatorsFrom(s, pathSeparator, i + 1)
    else SeparatorsFrom(s, pathSeparator, i + 1)
  }

  /** Every position listed holds a separator at or after `i`. */
  lemma {:induction false} SeparatorsSound(s: seq<Byte>, pathSeparator: Byte, i: nat)
    ensures forall k :: 0 <= k < |SeparatorsFrom(s, pathSeparator, i)| ==>
      i <= SeparatorsFrom(s, pathSeparator, i)[k] < |s| && IsSeparator(s[SeparatorsFrom(s, pathSeparator, i)[k]], pathSeparator)
    decreases |s| - i
  {
    if i < |s| {
      SeparatorsSound(s, pathSeparator, i + 1);
      SeparatorsUnfold(s, pathSeparator, i);
    }
  }

  /** Every separator at or after `i` is listed. */
  lemma {:induction false} SeparatorsComplete(s: seq<Byte>, pathSeparator: Byte, i: nat)
    ensures forall j :: i <= j < |s| && IsSeparator(s[j], pathSeparator) ==> j in SeparatorsFrom(s, pathSeparator, i)
    decreases |s| - i
  {
    if i < |s| {
      SeparatorsComplete(s, pathSeparator, i + 1);
      SeparatorsUnfold(s, pathSeparator, i);
    }
  }

  /** The positions are listed in increasing order. */
  lemma {:induction false} SeparatorsIncreasing(s: seq<Byte>, pathSeparator: Byte, i: nat)
    ensures var r := SeparatorsFrom(s, pathSeparator, i);
      forall a, b :: 0 <= a < b < |r| ==> r[a] < r[b]
    decreases |s| - i
  {
    if i < |s| {
      SeparatorsIncreasing(s, pathSeparator, i + 1);
      SeparatorsSound(s, pathSeparator, i + 1);
      SeparatorsUnfold(s, pathSeparator, i);
    }
  }

  /** One step of the separator scan at position `i`. */
  lemma SeparatorsUnfold(s: seq<Byte>, pathSeparator: Byte, i: nat)
    requires i < |s|
    ensures IsSeparator(s[i], pathSeparator) ==> SeparatorsFrom(s, pathSeparator, i) == [i] + SeparatorsFrom(s, pathSeparator, i + 1)
    ensures !IsSeparator(s[i], pathSeparator) ==> SeparatorsFrom(s, pathSeparator, i) == SeparatorsFrom(s, pathSeparator, i + 1)
  {
  }

  /** The separators of the string a path buffer holds, left to right. */
  function Separators(path: seq<Byte>, pathSeparator: Byte): (r: seq<nat>)
    ensures forall k :: 0 <= k < |r| ==> r[k] < |CString(path)|
  {
    SeparatorsSound(CString(path), pathSeparator, 0);
    SeparatorsFrom(CString(path), pathSeparator, 0)
  }

  /** The counting loop of `shorten_path`: one for each separator among the first `length` bytes. */
  method CountSeparators(path: seq<Byte>, length: nat, pathSeparator: Byte) returns (count: nat)
    requires length == |CString(path)|
    ensures count == |Separators(path, pathSeparator)|
  {
    ghost var s := CString(path);
    assert forall i :: 0 <= i < length ==> path[i] == s[i];
    count := 0;
    for x := 0 to length
      invariant count + |SeparatorsFrom(s, pathSeparator, x)| == |Separators(path, pathSeparator)|
    {
      SeparatorsUnfold(s, pathSeparator, x);
      if path[x] == pathSeparator || path[x] == Slash {
        count := count + 1;
      }
    }
  }

  /**
    The `do … while` of `shorten_path`: from one past `begin`, the next separator, which is the
    first of those listed after `begin`.
  */
  method NextSeparator(path: seq<Byte>, pathSeparator: Byte, begin: int, ghost rest: seq<nat>) returns (next: nat)
    requires -1 <= begin && rest == SeparatorsFrom(CString(path), pathSeparator, begin + 1) && rest != []
    ensures next == rest[0] < |CString(path)| && SeparatorsFrom(CString(path), pathSeparator, next + 1) == rest[1..]
  {
    ghost var s := CString(path);
    SeparatorsSound(s, pathSeparator, begin + 1);
    next := begin + 1;
    while !(path[next] == pathSeparator || path[next] == Slash)
      invariant next <= rest[0] < |s| && SeparatorsFrom(s, pathSeparator, next) == rest
      decreases rest[0] - next
    {
      assert path[next] == s[next];
      SeparatorsUnfold(s, pathSeparator, next);
      next := next + 1;
    }
    assert path[next] == s[next];
    SeparatorsUnfold(s, pathSeparator, next);
  }

  // ---------------------------------------------------------------------------------------------
  // shorten_path

  /**
    The abbreviation loop from separator number `x` on: each copies the path from that separator
    after the `...` already in the buffer and stops once the buffer fits; when none does, the
    whole path is copied.
  */
  function AbbreviateFrom(res: Resources, g: TextGlobals, buf: seq<Byte>, size: nat, path: seq<Byte>, seps: seq<nat>, x: nat, availableWidth: int): (r: seq<Byte>)
    requires 3 <= size <= |buf| && x <= |seps|
    requires forall k :: 0 <= k < |seps| ==> seps[k] <= |path|
    ensures |r| == |buf|
    decreases |seps| - x
  {
    if x == |seps| then Copied(buf, 0, path, size)
    else
      var probe := Copied(buf, 3, path[seps[x]..], size - 3);
      if StringWidth(res, g, probe) <= availableWidth then probe
      else AbbreviateFrom(res, g, probe, size, path, seps, x + 1, availableWidth)
  }

  /** One turn of the abbreviation loop. */
  lemma AbbreviateUnfold(res: Resources, g: TextGlobals, buf: seq<Byte>, size: nat, path: seq<Byte>, seps: seq<nat>, x: nat, availableWidth: int)
    requires 3 <= size <= |buf| && x < |seps|
    requires forall k :: 0 <= k < |seps| ==> seps[k] <= |path|
    ensures var probe := Copied(buf, 3, path[seps[x]..], size - 3);
      AbbreviateFrom(res, g, buf, size, path, seps, x, availableWidth)
      == if StringWidth(res, g, probe) <= availableWidth then probe else AbbreviateFrom(res, g, probe, size, path, seps, x + 1, availableWidth)
  {
  }

  /** The buffer `shorten_path` leaves. */
  function ShortenedPath(res: Resources, g: TextGlobals, buf: seq<Byte>, size: nat, path: seq<Byte>, pathSeparator: Byte, availableWidth: int): (r: seq<Byte>)
    requires 3 <= size <= |buf|
    ensures |r| == |buf|
  {
    if StringWidth(res, g, path) <= availableWidth then Copied(buf, 0, path, size)
    else AbbreviateFrom(res, g, Copied(buf, 0, Dots, size), size, path, Separators(path, pathSeparator), 0, availableWidth)
  }

  /** One turn of the loop of `shorten_path`: the path from a separator is written after `...` and measured. */
  method TryFrom(res: Resources, g: TextGlobals, buffer: array<Byte>, bufferSize: nat, rest: seq<Byte>, availableWidth: int)
    returns (fits: bool)
    requires 3 <= bufferSize <= buffer.Length
    modifies buffer
    ensures buffer[..] == Copied(old(buffer[..]), 3, rest, bufferSize - 3)
    ensures fits == (StringWidth(res, g, buffer[..]) <= availableWidth)
  {
    SafeStrcpy(buffer, 3, rest, bufferSize - 3);
    var width := GetStringWidth(res, g, buffer[..]);
    fits := width <= availableWidth;
  }

  /**
    `shorten_path`: writes into the first `bufferSize` bytes of `buffer` the path, or, when it is
    wider than `availableWidth`, the first abbreviation that fits, or the whole path again.
  */
  method ShortenPath(res: Resources, g: TextGlobals, buffer: array<Byte>, bufferSize: nat, path: seq<Byte>, pathSeparator: Byte, availableWidth: int)
    requires 3 <= bufferSize <= buffer.Length
    modifies buffer
    ensures buffer[..] == ShortenedPath(res, g, old(buffer[..]), bufferSize, path, pathSeparator, availableWidth)
  {
    var length := |CString(path)|;
    var pathWidth := GetStringWidth(res, g, path);
    if pathWidth <= availableWidth {
      SafeStrcpy(buffer, 0, path, bufferSize);
      return;
    }
    ghost var s := CString(path);
    ghost var seps := Separators(path, pathSeparator);

    var pathSeparators := CountSeparators(path, length, pathSeparator);
    SafeStrcpy(buffer, 0, Dots, bufferSize);

    var begin: int := -1;
    for x := 0 to pathSeparators
      invariant -1 <= begin && SeparatorsFrom(s, pathSeparator, begin + 1) == seps[x..]
      invariant AbbreviateFrom(res, g, buffer[..], bufferSize, path, seps, x, availableWidth)
        == ShortenedPath(res, g, old(buffer[..]), bufferSize, path, pathSeparator, availableWidth)
    {
      begin := NextSeparator(path, pathSeparator, begin, seps[x..]);
      assert seps[x..][1..] == seps[x + 1..];
      AbbreviateUnfold(res, g, buffer[..], bufferSize, path, seps, x, availableWidth);
      var fits := TryFrom(res, g, buffer, bufferSize, path[begin..], availableWidth);
      if fits {
        return;
      }
    }

    SafeStrcpy(buffer, 0, path, bufferSize);
  }

  // ---------------------------------------------------------------------------------------------
  // What the shortened path is

  /** The abbreviation from the separator at `k`: `...` and the rest of the path. */
  function Abbreviation(path: seq<Byte>, k: nat): (r: seq<Byte>)
    requires k <= |CString(path)|
    ensures |r| == 3 + |CString(path)| - k && r[..3] == Dots
  {
    Dots + CString(path)[k..]
  }

  /** The abbreviation from separator number `x` fits. */
  ghost predicate Fits(res: Resources, g: TextGlobals, path: seq<Byte>, pathSeparator: Byte, availableWidth: int, x: nat)
    requires x < |Separators(path, pathSeparator)|
  {
    StringWidth(res, g, Abbreviation(path, Separators(path, pathSeparator)[x])) <= availableWidth
  }

  /** No abbreviation before the one from separator number `x` fits. */
  ghost predicate NoneFitsBefore(res: Resources, g: TextGlobals, path: seq<Byte>, pathSeparator: Byte, availableWidth: int, x: nat)
    requires x <= |Separators(path, pathSeparator)|
  {
    forall y: nat :: y < x ==> !Fits(res, g, path, pathSeparator, availableWidth, y)
  }

  /**
    `out` is what the abbreviation loop shows when it starts at separator number `x`: the
    abbreviation from the first separator from there on whose abbreviation fits, if one does,
    and otherwise the whole path.
  */
  ghost predicate AbbreviatedTo(res: Resources, g: TextGlobals, path: seq<Byte>, pathSeparator: Byte, availableWidth: int, x: nat, out: seq<Byte>) {
    var seps := Separators(path, pathSeparator);
    (exists y: nat :: x <= y < |seps| && Fits(res, g, path, pathSeparator, availableWidth, y)
      && NoneFitsBefore(res, g, path, pathSeparator, availableWidth, y) && out == Abbreviation(path, seps[y]))
    || (x <= |seps| && NoneFitsBefore(res, g, path, pathSeparator, availableWidth, |seps|) && out == CString(path))
  }

  /** `out` is the string `shorten_path` shows: the path when it fits, and what the abbreviation loop shows otherwise. */
  ghost predicate ShortenedTo(res: Resources, g: TextGlobals, path: seq<Byte>, pathSeparator: Byte, availableWidth: int, out: seq<Byte>) {
    if StringWidth(res, g, path) <= availableWidth then out == CString(path)
    else AbbreviatedTo(res, g, path, pathSeparator, availableWidth, 0, out)
  }

  /** A path without control codes: its bytes are all text. */
  predicate PlainPath(path: seq<Byte>) {
    forall c :: c in CString(path) ==> !IsFormatCode(c)
  }

  /** The string a copy leaves when the buffer has room for all of it. */
  lemma CopiedWhole(dst: seq<Byte>, off: nat, src: seq<Byte>, size: nat)
    requires off + size <= |dst| && |CString(src)| < size
    ensures CString(Copied(dst, off, src, size)[off..]) == CString(src)
  {
    assert CString(src)[..CopyLength(src, size)] == CString(src);
  }

  /** The string in a suffix of a buffer is the suffix of its string. */
  lemma {:induction false} CStringSuffix(t: seq<Byte>, k: nat)
    requires k <= |CString(t)|
    ensures CString(t[k..]) == CString(t)[k..]
  {
    var n := |CString(t)|;
    forall j | 0 <= j < n - k
      ensures t[k..][j] != 0
    {
      assert t[k..][j] == CString(t)[k + j];
    }
    CStringAt(t[k..], n - k);
    assert t[k..][..n - k] == CString(t)[k..];
  }

  /** A buffer holding three dots and then the string `rest` holds `... + rest`. */
  lemma DotsThen(t: seq<Byte>, rest: seq<Byte>)
    requires 3 <= |t| && t[..3] == Dots && CString(t[3..]) == rest
    ensures CString(t) == Dots + rest
  {
    var n := 3 + |rest|;
    forall j | 0 <= j < n
      ensures t[j] != 0
    {
      if j >= 3 {
        assert t[j] == t[3..][j - 3] == rest[j - 3];
      } else {
        assert t[j] == Dots[j];
      }
    }
    CStringAt(t, n);
    assert t[..n] == t[..3] + t[3..][..|rest|];
  }

  /** Scanning text that holds no control code stops at its terminator. */
  lemma {:induction false} ScanEndPlain(s: seq<Byte>, p: nat, n: nat)
    requires p <= n && At(s, n) == 0
    requires forall i :: p <= i < n ==> !IsFormatCode(At(s, i))
    ensures ScanEnd(s, p) == n
    decreases n - p
  {
    if p < n {
      ScanEndPlain(s, p + 1, n);
    }
  }

  /** A probe of the abbreviation from `k` measures as the abbreviation alone does. */
  lemma ProbeWidth(res: Resources, g: TextGlobals, path: seq<Byte>, k: nat, probe: seq<Byte>)
    requires PlainPath(path) && k <= |CString(path)|
    requires CString(probe) == Abbreviation(path, k)
    ensures StringWidth(res, g, probe) == StringWidth(res, g, Abbreviation(path, k))
  {
    var a := Abbreviation(path, k);
    forall i | 0 <= i < |a|
      ensures !IsFormatCode(At(a, i))
    {
      if i >= 3 {
        assert a[i] == CString(path)[k + i - 3];
      }
    }
    ScanEndPlain(a, 0, |a|);
    forall i | 0 <= i <= ScanEnd(a, 0)
      ensures At(a, i) == At(probe, i)
    {
      if i < |a| {
        assert probe[i] == CString(probe)[i];
      }
    }
    StringWidthFrame(res, g, a, probe);
  }

  /** The probe at separator number `x` holds its abbreviation and keeps the three dots. */
  lemma ProbeHolds(buf: seq<Byte>, size: nat, path: seq<Byte>, pathSeparator: Byte, x: nat)
    requires |CString(path)| + 4 <= size <= |buf| && buf[..3] == Dots
    requires x < |Separators(path, pathSeparator)|
    ensures var k := Separators(path, pathSeparator)[x];
      var probe := Copied(buf, 3, path[k..], size - 3);
      probe[..3] == Dots && CString(probe) == Abbreviation(path, k)
  {
    var k := Separators(path, pathSeparator)[x];
    var probe := Copied(buf, 3, path[k..], size - 3);
    assert probe[..3] == buf[..3] by {
      assert forall i :: 0 <= i < 3 ==> probe[i] == buf[i];
    }
    CStringSuffix(path, k);
    assert CString(path[k..]) == CString(path)[k..];
    CopiedWhole(buf, 3, path[k..], size - 3);
    DotsThen(probe, CString(path)[k..]);
  }

  /** What the abbreviation loop shows, by induction on the separators left. */
  lemma {:induction false} AbbreviateEffect(res: Resources, g: TextGlobals, buf: seq<Byte>, size: nat, path: seq<Byte>, pathSeparator: Byte, availableWidth: int, x: nat)
    requires PlainPath(path) && |CString(path)| + 4 <= size <= |buf| && buf[..3] == Dots
    requires x <= |Separators(path, pathSeparator)| && NoneFitsBefore(res, g, path, pathSeparator, availableWidth, x)
    ensures AbbreviatedTo(res, g, path, pathSeparator, availableWidth, x,
      CString(AbbreviateFrom(res, g, buf, size, path, Separators(path, pathSeparator), x, availableWidth)))
    decreases |Separators(path, pathSeparator)| - x
  {
    var seps := Separators(path, pathSeparator);
    if x == |seps| {
      CopiedWhole(buf, 0, path, size);
    } else {
      var k := seps[x];
      var probe := Copied(buf, 3, path[k..], size - 3);
      ProbeHolds(buf, size, path, pathSeparator, x);
      ProbeWidth(res, g, path, k, probe);
      if StringWidth(res, g, probe) > availableWidth {
        assert !Fits(res, g, path, pathSeparator, availableWidth, x);
        AbbreviateEffect(res, g, probe, size, path, pathSeparator, availableWidth, x + 1);
      } else {
        assert Fits(res, g, path, pathSeparator, availableWidth, x);
      }
    }
  }

  /**
    With room in the buffer for the path and the dots, `shorten_path` shows the path when it fits;
    otherwise `...` and the rest of the path from the leftmost separator for which that fits;
    and the whole path when no abbreviation fits.
  */
  lemma ShortenPathEffect(res: Resources, g: TextGlobals, buf: seq<Byte>, size: nat, path: seq<Byte>, pathSeparator: Byte, availableWidth: int)
    requires PlainPath(path) && |CString(path)| + 4 <= size <= |buf|
    ensures ShortenedTo(res, g, path, pathSeparator, availableWidth, CString(ShortenedPath(res, g, buf, size, path, pathSeparator, availableWidth)))
  {
    if StringWidth(res, g, path) <= availableWidth {
      CopiedWhole(buf, 0, path, size);
    } else {
      DotsEffect(res, g, buf, size, path, pathSeparator, availableWidth);
    }
  }

  /** A path too wide to fit is abbreviated from the buffer that holds `...`. */
  lemma DotsEffect(res: Resources, g: TextGlobals, buf: seq<Byte>, size: nat, path: seq<Byte>, pathSeparator: Byte, availableWidth: int)
    requires PlainPath(path) && |CString(path)| + 4 <= size <= |buf|
    ensures var seps := Separators(path, pathSeparator);
      AbbreviatedTo(res, g, path, pathSeparator, availableWidth, 0,
        CString(AbbreviateFrom(res, g, Copied(buf, 0, Dots, size), size, path, seps, 0, availableWidth)))
  {
    var dots := Copied(buf, 0, Dots, size);
    CopiedWhole(buf, 0, Dots, size);
    assert dots[..3] == Dots;
    AbbreviateEffect(res, g, dots, size, path, pathSeparator, availableWidth, 0);
  }
}
