/**
  The buffer utilities of src/openrct2/drawing/String.cpp that are built on the width measure:
  the widest line of a multi-line string, clipping with an ellipsis, and shortening a path. Each
  works on the caller's buffer in place, as the source does, and is proved to leave the buffer and
  return the value that a function on the original bytes describes.
*/
module TextLayout {
  import opened Common
  import opened FormatCodes
  import opened TextState
  import opened TextInterp
  import opened TextDrawing

  /** The buffer with a terminator written at `k`; a position past the end leaves it as it is. */
  function Terminated(t: seq<Byte>, k: nat): (r: seq<Byte>)
    ensures |r| == |t| && At(r, k) == 0
    ensures forall i :: 0 <= i < |t| && i != k ==> r[i] == t[i]
  {
    if k < |t| then t[k := 0] else t
  }

  /** Writing a byte and then putting the old one back leaves the buffer as it was. */
  lemma RestoreByte(t: seq<Byte>, k: nat)
    requires k < |t|
    ensures Terminated(t, k)[k := t[k]] == t
  {
    assert forall i :: 0 <= i < |t| ==> Terminated(t, k)[k := t[k]][i] == t[i];
  }

  /**
    The measuring idiom of the buffer utilities: the byte at `k` is saved, a terminator written
    there, the string from `f` measured, and the byte put back.
  */
  method MeasureLine(res: Resources, g: TextGlobals, text: array<Byte>, f: nat, k: nat) returns (w: int)
    requires f <= k < text.Length
    modifies text
    ensures text[..] == old(text[..])
    ensures w == StringWidth(res, g, Terminated(old(text[..]), k)[f..])
  {
    ghost var t := text[..];
    var saveCh := text[k];
    text[k] := 0;
    assert text[f..] == Terminated(t, k)[f..];
    w := GetStringWidth(res, g, text[f..]);
    text[k] := saveCh;
    RestoreByte(t, k);
  }

  // ---------------------------------------------------------------------------------------------
  // gfx_get_string_width_new_lined

  predicate IsNewlineCode(c: Byte) {
    c == Newline || c == NewlineSmaller
  }

  /** The first position from `p`, byte by byte, that holds the terminator or a newline code. */
  function LineBreak(t: seq<Byte>, p: nat): (k: nat)
    ensures p <= k && (At(t, k) == 0 || IsNewlineCode(At(t, k)))
    ensures forall i :: p <= i < k ==> At(t, i) != 0 && !IsNewlineCode(At(t, i))
    decreases |t| - p
  {
    if At(t, p) == 0 || IsNewlineCode(At(t, p)) then p else LineBreak(t, p + 1)
  }

  /**
    The width of the line that starts at `f`: measured up to the terminator, or with a
    terminator written just after the newline code that ends it.
  */
  function LineWidth(res: Resources, g: TextGlobals, t: seq<Byte>, f: nat): (w: int)
    requires f <= |t|
    ensures w >= 0
  {
    var k := LineBreak(t, f);
    if At(t, k) == 0 then StringWidth(res, g, t[f..]) else StringWidth(res, g, Terminated(t, k + 1)[f..])
  }

  /** `l` is the start of one of the lines from `f` on. */
  predicate IsLineStart(t: seq<Byte>, f: nat, l: nat)
    decreases |t| - f
  {
    f == l || (At(t, LineBreak(t, f)) != 0 && IsLineStart(t, LineBreak(t, f) + 1, l))
  }

  /** The greatest width of the lines from `f` on. */
  function LinesWidth(res: Resources, g: TextGlobals, t: seq<Byte>, f: nat): (w: int)
    requires f <= |t|
    ensures w >= 0
    decreases |t| - f
  {
    var k := LineBreak(t, f);
    if At(t, k) == 0 then LineWidth(res, g, t, f) else Max(LineWidth(res, g, t, f), LinesWidth(res, g, t, k + 1))
  }

  /** No line is wider than `LinesWidth`. */
  lemma {:induction false} LinesWidthBounds(res: Resources, g: TextGlobals, t: seq<Byte>, f: nat, l: nat)
    requires f <= |t| && IsLineStart(t, f, l)
    ensures l <= |t| && LineWidth(res, g, t, l) <= LinesWidth(res, g, t, f)
    decreases |t| - f
  {
    if l != f {
      LinesWidthBounds(res, g, t, LineBreak(t, f) + 1, l);
    }
  }

  /** Some line is exactly as wide as `LinesWidth`. */
  lemma {:induction false} LinesWidthAttained(res: Resources, g: TextGlobals, t: seq<Byte>, f: nat) returns (l: nat)
    requires f <= |t|
    ensures IsLineStart(t, f, l) && l <= |t| && LineWidth(res, g, t, l) == LinesWidth(res, g, t, f)
    decreases |t| - f
  {
    var k := LineBreak(t, f);
    l := f;
    if At(t, k) != 0 {
      var later := LinesWidthAttained(res, g, t, k + 1);
      if LineWidth(res, g, t, f) < LinesWidth(res, g, t, k + 1) {
        l := later;
      }
    }
  }

  /** The line at `f` ends with the newline code at `k`; the lines after it start at `k + 1`. */
  lemma LinesWidthUnfold(res: Resources, g: TextGlobals, t: seq<Byte>, f: nat, k: nat)
    requires f <= k < |t| && LineBreak(t, f) == k && IsNewlineCode(t[k])
    ensures LinesWidth(res, g, t, f) == Max(StringWidth(res, g, Terminated(t, k + 1)[f..]), LinesWidth(res, g, t, k + 1))
  {
    LinesWidthNext(res, g, t, f, k);
    LineWidthAtNewline(res, g, t, f, k);
  }

  lemma LinesWidthNext(res: Resources, g: TextGlobals, t: seq<Byte>, f: nat, k: nat)
    requires f <= k < |t| && LineBreak(t, f) == k && t[k] != 0
    ensures LinesWidth(res, g, t, f) == Max(LineWidth(res, g, t, f), LinesWidth(res, g, t, k + 1))
  {
    assert At(t, k) == t[k] && t[k] != 0;
  }

  lemma LineWidthAtNewline(res: Resources, g: TextGlobals, t: seq<Byte>, f: nat, k: nat)
    requires f <= k < |t| && LineBreak(t, f) == k && t[k] != 0
    ensures LineWidth(res, g, t, f) == StringWidth(res, g, Terminated(t, k + 1)[f..])
  {
    assert At(t, k) == t[k];
  }

  /**
    `gfx_get_string_width_new_lined`: the widest of the lines that FORMAT_NEWLINE and
    FORMAT_NEWLINE_SMALLER separate. Each line is measured with a terminator written after its
    newline code, and the byte that was there is put back, so the buffer ends as it began.
  */
  method GetStringWidthNewLined(res: Resources, g: TextGlobals, text: array<Byte>) returns (maxWidth: int)
    requires |CString(text[..])| < text.Length
    modifies text
    ensures text[..] == old(text[..])
    ensures maxWidth == LinesWidth(res, g, text[..], 0)
  {
    ghost var t := text[..];
    ghost var n := |CString(t)|;
    assert t[..n] == CString(t) && t[n] == 0;
    var ch := 0;
    var firstCh := 0;
    maxWidth := 0;
    while text[ch] != 0
      invariant text[..] == t
      invariant firstCh <= ch <= n
      invariant LineBreak(t, firstCh) == LineBreak(t, ch)
      invariant maxWidth >= 0 && Max(maxWidth, LinesWidth(res, g, t, firstCh)) == LinesWidth(res, g, t, 0)
      decreases n - ch
    {
      assert ch < n;
      var codepoint := text[ch];
      var nextCh := ch + 1;
      if codepoint == Newline || codepoint == NewlineSmaller {
        LinesWidthUnfold(res, g, t, firstCh, ch);
        var width := MeasureLine(res, g, text, firstCh, nextCh);
        maxWidth := Max(maxWidth, width);
        firstCh := nextCh;
      } else {
        assert LineBreak(t, ch) == LineBreak(t, nextCh);
      }
      ch := nextCh;
    }
    assert At(t, LineBreak(t, firstCh)) == 0;
    var width := GetStringWidth(res, g, text[firstCh..]);
    maxWidth := Max(maxWidth, width);
  }

  // ---------------------------------------------------------------------------------------------
  // gfx_clip_string

  /** The buffer with `...` and a terminator written at `k`. */
  function Ellipsis(s: seq<Byte>, k: nat): (r: seq<Byte>)
    requires k + 4 <= |s|
    ensures |r| == |s| && r[..k] == s[..k] && r[k..k + 4] == [Dot, Dot, Dot, 0] && r[k + 4..] == s[k + 4..]
  {
    s[..k] + [Dot, Dot, Dot, 0] + s[k + 4..]
  }

  /** The buffer `gfx_clip_string` leaves and the width it returns. */
  datatype Clipped = Clipped(buffer: seq<Byte>, width: int)

  /**
    The probing loop of `gfx_clip_string` from the codepoint at `p`: after each non-format
    codepoint the buffer is probed with `...` there; a probe narrower than `width` becomes the
    clip point, the first probe that is not writes `...` at the last clip point and stops.
  */
  function ClipFrom(res: Resources, g: TextGlobals, t: seq<Byte>, width: int, p: nat, clip: nat, clipped: int): (r: Clipped)
    requires ScanEnd(t, p) + 4 <= |t| && clip <= p
    decreases |t| - p
  {
    var c := At(t, p);
    if c == 0 then Clipped(t, StringWidth(res, g, t))
    else if IsFormatCode(c) then ClipFrom(res, g, t, width, p + Advance(c), clip, clipped)
    else
      var probe := Ellipsis(t, p + 1);
      var queryWidth := StringWidth(res, g, probe);
      if queryWidth < width then ClipFrom(res, g, t, width, p + 1, p + 1, queryWidth)
      else Clipped(Ellipsis(probe, clip), clipped)
  }

  /** `gfx_clip_string` on the buffer `t` (what it does is stated by `ClipEffect`). */
  function Clip(res: Resources, g: TextGlobals, t: seq<Byte>, width: int): (r: Clipped)
    requires ScanEnd(t, 0) + 4 <= |t|
  {
    if width < 6 then Clipped(t[0 := 0], 0)
    else
      var w := StringWidth(res, g, t);
      if w <= width then Clipped(t, w) else ClipFrom(res, g, t, width, 0, 0, w)
  }

  /**
    `r` ends its string with `...` at `c`, after the untouched bytes of `t` before `c`: either
    `c` is 0 and the width is the full width of `t`, or `c` follows a non-format codepoint of
    `t` and the width is the measured width of `r`'s own buffer, narrower than `width`.
  */
  ghost predicate ClippedAt(res: Resources, g: TextGlobals, t: seq<Byte>, width: int, c: nat, r: Clipped) {
    && c + 4 <= |r.buffer| == |t|
    && r.buffer[..c] == t[..c] && r.buffer[c..c + 4] == [Dot, Dot, Dot, 0]
    && (c == 0 ==> r.width == StringWidth(res, g, t))
    && (c > 0 ==> OnPath(t, 0, c - 1) && At(t, c - 1) != 0 && !IsFormatCode(At(t, c - 1))
                  && r.width == StringWidth(res, g, r.buffer) && r.width < width)
  }

  /** After `...` written just past a codepoint on the scan path, the scan stops at that terminator. */
  lemma EllipsisScanEnd(t: seq<Byte>, c: nat)
    requires c > 0 && c + 4 <= |t| && OnPath(t, 0, c - 1) && At(t, c - 1) != 0 && !IsFormatCode(At(t, c - 1))
    ensures ScanEnd(Ellipsis(t, c), 0) == c + 3
  {
    var s := Ellipsis(t, c);
    OnPathStep(t, 0, c - 1);
    forall i | 0 <= i < c ensures At(t, i) == At(s, i) {
      assert s[..c][i] == s[i];
    }
    OnPathFrame(t, s, 0, c);
    OnPathScanEnd(s, 0, c);
    assert s[c] == Dot && s[c + 1] == Dot && s[c + 2] == Dot && s[c + 3] == 0 by {
      assert s[c..c + 4] == [Dot, Dot, Dot, 0];
    }
    assert ScanEnd(s, c) == ScanEnd(s, c + 1) == ScanEnd(s, c + 2) == ScanEnd(s, c + 3) == c + 3 by {
      assert At(s, c) == Dot && At(s, c + 1) == Dot && At(s, c + 2) == Dot && At(s, c + 3) == 0;
    }
  }

  /** The clip point found by a successful probe stays valid for the rest of the loop. */
  lemma ProbeClippedAt(res: Resources, g: TextGlobals, t: seq<Byte>, width: int, c: nat, k: nat)
    requires c > 0 && c <= k && k + 4 <= |t| && OnPath(t, 0, c - 1) && At(t, c - 1) != 0 && !IsFormatCode(At(t, c - 1))
    requires StringWidth(res, g, Ellipsis(t, c)) < width
    ensures ClippedAt(res, g, t, width, c, Clipped(Ellipsis(Ellipsis(t, k), c), StringWidth(res, g, Ellipsis(t, c))))
  {
    var s := Ellipsis(t, c);
    var b := Ellipsis(Ellipsis(t, k), c);
    EllipsisScanEnd(t, c);
    assert b[..c] == t[..c] by {
      assert Ellipsis(t, k)[..k][..c] == t[..k][..c];
    }
    forall i | 0 <= i <= ScanEnd(s, 0) ensures At(s, i) == At(b, i) {
      if i < c {
        assert s[..c][i] == s[i] && b[..c][i] == b[i];
      } else {
        assert s[c..c + 4][i - c] == s[i] && b[c..c + 4][i - c] == b[i];
      }
    }
    StringWidthFrame(res, g, s, b);
  }

  /** What the probing loop keeps about its clip point and the width that goes with it. */
  ghost predicate ClipPoint(res: Resources, g: TextGlobals, t: seq<Byte>, width: int, clip: nat, clipped: int) {
    && (clip == 0 ==> clipped == StringWidth(res, g, t))
    && (clip > 0 ==> clip + 4 <= |t| && OnPath(t, 0, clip - 1) && At(t, clip - 1) != 0 && !IsFormatCode(At(t, clip - 1))
                     && clipped == StringWidth(res, g, Ellipsis(t, clip)) && clipped < width)
  }

  /**
    The first position, from `p` on, where the scan meets the terminator or a codepoint that is
    not a format code: the codepoint after which the next probe is made.
  */
  function NextProbe(t: seq<Byte>, p: nat): (q: nat)
    ensures p <= q && OnPath(t, p, q) && (At(t, q) == 0 || !IsFormatCode(At(t, q)))
    decreases |t| - p
  {
    var c := At(t, p);
    if c != 0 && IsFormatCode(c) then NextProbe(t, p + Advance(c)) else p
  }

  /** The scan from `p` meets no probe position before a position `k` that is one. */
  lemma {:induction false} NextProbeFirst(t: seq<Byte>, p: nat, k: nat)
    requires OnPath(t, p, k) && (At(t, k) == 0 || !IsFormatCode(At(t, k)))
    ensures NextProbe(t, p) <= k
    decreases k - p
  {
    var c := At(t, p);
    if c != 0 && IsFormatCode(c) {
      NextProbeFirst(t, p + Advance(c), k);
    }
  }

  /** Every probe made after a codepoint of the scan from 0 that lies before `c` is narrower than `width`. */
  ghost predicate ProbesFit(res: Resources, g: TextGlobals, t: seq<Byte>, width: int, c: nat) {
    && c + 4 <= |t|
    && forall k :: 0 <= k < c && OnPath(t, 0, k) && At(t, k) != 0 && !IsFormatCode(At(t, k)) ==>
         StringWidth(res, g, Ellipsis(t, k + 1)) < width
  }

  /** The probe after the codepoint at `q` is made and is not narrower than `width`. */
  ghost predicate ProbeFails(res: Resources, g: TextGlobals, t: seq<Byte>, width: int, q: nat) {
    At(t, q) != 0 && q + 5 <= |t| && StringWidth(res, g, Ellipsis(t, q + 1)) >= width
  }

  /**
    `r` is `t` cut with `...` at `c` because of a probe that failed: every probe before `c`
    fitted, and the next probe from `c` on failed.
  */
  ghost predicate CutBy(res: Resources, g: TextGlobals, t: seq<Byte>, width: int, c: nat, r: Clipped) {
    ClippedAt(res, g, t, width, c, r) && ProbesFit(res, g, t, width, c) && ProbeFails(res, g, t, width, NextProbe(t, c))
  }

  /** Where the probing loop can end: past the terminator with every probe fitted, or cut at `c`. */
  ghost predicate ClipResult(res: Resources, g: TextGlobals, t: seq<Byte>, width: int, c: nat, r: Clipped) {
    || (ProbesFit(res, g, t, width, ScanEnd(t, 0)) && r == Clipped(t, StringWidth(res, g, t)))
    || CutBy(res, g, t, width, c, r)
  }

  /** Stepping over a format code adds no probe position. */
  lemma ProbesFitFormat(res: Resources, g: TextGlobals, t: seq<Byte>, width: int, p: nat)
    requires OnPath(t, 0, p) && At(t, p) != 0 && IsFormatCode(At(t, p)) && p + Advance(At(t, p)) + 4 <= |t|
    requires ProbesFit(res, g, t, width, p)
    ensures ProbesFit(res, g, t, width, p + Advance(At(t, p)))
  {
    forall k | p < k < p + Advance(At(t, p)) && OnPath(t, 0, k) ensures false {
      OnPathOrder(t, 0, p, k);
    }
  }

  /** An accepted probe after the codepoint at `p` extends the probes that fitted to `p + 1`. */
  lemma ProbesFitAccept(res: Resources, g: TextGlobals, t: seq<Byte>, width: int, p: nat)
    requires p + 5 <= |t| && ProbesFit(res, g, t, width, p) && StringWidth(res, g, Ellipsis(t, p + 1)) < width
    ensures ProbesFit(res, g, t, width, p + 1)
  {
  }

  /** A probe that does not fit ends the loop with `...` at the clip point. */
  lemma ClipStop(res: Resources, g: TextGlobals, t: seq<Byte>, width: int, k: nat, clip: nat, clipped: int)
    requires clip <= k && k + 4 <= |t| && ClipPoint(res, g, t, width, clip, clipped)
    ensures ClippedAt(res, g, t, width, clip, Clipped(Ellipsis(Ellipsis(t, k), clip), clipped))
  {
    if clip > 0 {
      ProbeClippedAt(res, g, t, width, clip, k);
    }
  }

  /** Every way the probing loop can end, with the position of the `...` it writes when it cuts. */
  lemma {:induction false} ClipFromEffect(res: Resources, g: TextGlobals, t: seq<Byte>, width: int, p: nat, clip: nat, clipped: int)
    returns (cut: nat)
    requires ScanEnd(t, 0) + 4 <= |t| && OnPath(t, 0, p) && ScanEnd(t, p) == ScanEnd(t, 0) && clip <= p
    requires ClipPoint(res, g, t, width, clip, clipped)
    requires ProbesFit(res, g, t, width, p) && NextProbe(t, clip) == NextProbe(t, p)
    ensures ClipResult(res, g, t, width, cut, ClipFrom(res, g, t, width, p, clip, clipped))
    decreases |t| - p, 2
  {
    var c := At(t, p);
    cut := 0;
    if c == 0 {
      assert p == ScanEnd(t, 0);
      assert ClipFrom(res, g, t, width, p, clip, clipped) == Clipped(t, StringWidth(res, g, t));
    } else if IsFormatCode(c) {
      cut := ClipFormatEffect(res, g, t, width, p, clip, clipped);
    } else {
      cut := ClipProbeEffect(res, g, t, width, p, clip, clipped);
    }
  }

  /** The probing loop steps over a format code and its arguments, with no probe. */
  lemma {:induction false} ClipFormatEffect(res: Resources, g: TextGlobals, t: seq<Byte>, width: int, p: nat, clip: nat, clipped: int)
    returns (cut: nat)
    requires ScanEnd(t, 0) + 4 <= |t| && OnPath(t, 0, p) && ScanEnd(t, p) == ScanEnd(t, 0) && clip <= p
    requires At(t, p) != 0 && IsFormatCode(At(t, p))
    requires ClipPoint(res, g, t, width, clip, clipped)
    requires ProbesFit(res, g, t, width, p) && NextProbe(t, clip) == NextProbe(t, p)
    ensures ClipResult(res, g, t, width, cut, ClipFrom(res, g, t, width, p, clip, clipped))
    decreases |t| - p, 1
  {
    var n := p + Advance(At(t, p));
    ScanStep(t, 0, p);
    ClipFromFormatCode(res, g, t, width, p, clip, clipped);
    ProbesFitFormat(res, g, t, width, p);
    assert NextProbe(t, p) == NextProbe(t, n);
    cut := ClipFromEffect(res, g, t, width, n, clip, clipped);
  }

  /** The probing loop at a codepoint that is not a format code. */
  lemma {:induction false} ClipProbeEffect(res: Resources, g: TextGlobals, t: seq<Byte>, width: int, p: nat, clip: nat, clipped: int)
    returns (cut: nat)
    requires ScanEnd(t, 0) + 4 <= |t| && OnPath(t, 0, p) && ScanEnd(t, p) == ScanEnd(t, 0) && clip <= p
    requires At(t, p) != 0 && !IsFormatCode(At(t, p))
    requires ClipPoint(res, g, t, width, clip, clipped)
    requires ProbesFit(res, g, t, width, p) && NextProbe(t, clip) == NextProbe(t, p)
    ensures ClipResult(res, g, t, width, cut, ClipFrom(res, g, t, width, p, clip, clipped))
    decreases |t| - p, 1
  {
    ScanStep(t, 0, p);
    ClipFromTurn(res, g, t, width, p, clip, clipped);
    var queryWidth := StringWidth(res, g, Ellipsis(t, p + 1));
    if queryWidth < width {
      ProbesFitAccept(res, g, t, width, p);
      cut := ClipAcceptEffect(res, g, t, width, p, clip, clipped);
    } else {
      ClipStop(res, g, t, width, p + 1, clip, clipped);
      assert ProbeFails(res, g, t, width, NextProbe(t, clip));
      cut := clip;
    }
  }

  /** A probe that fits moves the clip point on to the codepoint just probed. */
  lemma {:induction false} ClipAcceptEffect(res: Resources, g: TextGlobals, t: seq<Byte>, width: int, p: nat, clip: nat, clipped: int)
    returns (cut: nat)
    requires ScanEnd(t, 0) + 4 <= |t| && OnPath(t, 0, p) && ScanEnd(t, p) == ScanEnd(t, 0) && clip <= p
    requires At(t, p) != 0 && !IsFormatCode(At(t, p))
    requires StringWidth(res, g, Ellipsis(t, p + 1)) < width && ProbesFit(res, g, t, width, p + 1)
    ensures ClipResult(res, g, t, width, cut, ClipFrom(res, g, t, width, p + 1, p + 1, StringWidth(res, g, Ellipsis(t, p + 1))))
    decreases |t| - p, 0
  {
    ScanStep(t, 0, p);
    var queryWidth := StringWidth(res, g, Ellipsis(t, p + 1));
    assert ClipPoint(res, g, t, width, p + 1, queryWidth);
    cut := ClipFromEffect(res, g, t, width, p + 1, p + 1, queryWidth);
  }

  /** A probe that fails on the scan from 0 is one that not every probe fitted. */
  lemma FailedProbeNotAllFit(res: Resources, g: TextGlobals, t: seq<Byte>, width: int, c: nat)
    requires ScanEnd(t, 0) + 4 <= |t| && OnPath(t, 0, c) && ProbeFails(res, g, t, width, NextProbe(t, c))
    ensures !ProbesFit(res, g, t, width, ScanEnd(t, 0))
  {
    var q := NextProbe(t, c);
    OnPathTrans(t, 0, c, q);
    OnPathScanEnd(t, 0, q);
    assert q < ScanEnd(t, 0) && OnPath(t, 0, q) && !IsFormatCode(At(t, q));
  }

  /** Once a probe has fitted, the first probe of the scan was one that fitted. */
  lemma FirstProbeFits(res: Resources, g: TextGlobals, t: seq<Byte>, width: int, c: nat)
    requires c > 0 && OnPath(t, 0, c - 1) && At(t, c - 1) != 0 && !IsFormatCode(At(t, c - 1))
    requires ProbesFit(res, g, t, width, c)
    ensures !ProbeFails(res, g, t, width, NextProbe(t, 0))
  {
    var f := NextProbe(t, 0);
    NextProbeFirst(t, 0, c - 1);
    if f < c - 1 {
      OnPathOrder(t, 0, f, c - 1);
    }
    assert OnPath(t, 0, f) && At(t, f) != 0 && !IsFormatCode(At(t, f)) && f < c;
  }

  /** A cut follows a failed probe, so not every probe fitted; and the cut is at 0 exactly when the first probe failed. */
  lemma CutByFailedProbe(res: Resources, g: TextGlobals, t: seq<Byte>, width: int, c: nat, r: Clipped)
    requires ScanEnd(t, 0) + 4 <= |t| && CutBy(res, g, t, width, c, r)
    ensures !ProbesFit(res, g, t, width, ScanEnd(t, 0))
    ensures c == 0 <==> ProbeFails(res, g, t, width, NextProbe(t, 0))
  {
    assert c == 0 || (OnPath(t, 0, c - 1) && At(t, c - 1) != 0 && !IsFormatCode(At(t, c - 1)));
    assert ProbesFit(res, g, t, width, c) && ProbeFails(res, g, t, width, NextProbe(t, c));
    CutStartOnPath(t, c);
    FailedProbeNotAllFit(res, g, t, width, c);
    CutAtStartIff(res, g, t, width, c);
  }

  /** A cut point is on the scan from 0: it is 0 or just past a codepoint on it. */
  lemma CutStartOnPath(t: seq<Byte>, c: nat)
    requires c == 0 || (OnPath(t, 0, c - 1) && At(t, c - 1) != 0 && !IsFormatCode(At(t, c - 1)))
    ensures OnPath(t, 0, c)
  {
    if c > 0 {
      OnPathStep(t, 0, c - 1);
    }
  }

  /** A cut after the probes up to `c` fitted is at 0 exactly when the first probe failed. */
  lemma CutAtStartIff(res: Resources, g: TextGlobals, t: seq<Byte>, width: int, c: nat)
    requires c == 0 || (OnPath(t, 0, c - 1) && At(t, c - 1) != 0 && !IsFormatCode(At(t, c - 1)))
    requires ProbesFit(res, g, t, width, c) && ProbeFails(res, g, t, width, NextProbe(t, c))
    ensures c == 0 <==> ProbeFails(res, g, t, width, NextProbe(t, 0))
  {
    if c > 0 {
      FirstProbeFits(res, g, t, width, c);
    }
  }

  lemma ClipEffect(res: Resources, g: TextGlobals, t: seq<Byte>, width: int)
    requires ScanEnd(t, 0) + 4 <= |t|
    ensures var r := Clip(res, g, t, width);
      && (width < 6 ==> r.width == 0 && |r.buffer| == |t| && r.buffer[0] == 0 && r.buffer[1..] == t[1..])
      && (width >= 6 && StringWidth(res, g, t) <= width ==> r == Clipped(t, StringWidth(res, g, t)))
      && (width >= 6 && StringWidth(res, g, t) > width && ProbesFit(res, g, t, width, ScanEnd(t, 0)) ==>
            r == Clipped(t, StringWidth(res, g, t)))
      && (width >= 6 && StringWidth(res, g, t) > width && !ProbesFit(res, g, t, width, ScanEnd(t, 0)) ==>
            exists c: nat :: CutBy(res, g, t, width, c, r) && (c == 0 <==> ProbeFails(res, g, t, width, NextProbe(t, 0))))
  {
    if width >= 6 && StringWidth(res, g, t) > width {
      var r := Clip(res, g, t, width);
      var cut := ClipFromEffect(res, g, t, width, 0, 0, StringWidth(res, g, t));
      if CutBy(res, g, t, width, cut, r) {
        CutByFailedProbe(res, g, t, width, cut, r);
      }
    }
  }

  /** Writing `...` and a terminator byte by byte gives `Ellipsis`; writing the four saved bytes back undoes it. */
  lemma EllipsisWrites(t: seq<Byte>, k: nat)
    requires k + 4 <= |t|
    ensures t[k := Dot][k + 1 := Dot][k + 2 := Dot][k + 3 := 0] == Ellipsis(t, k)
    ensures Ellipsis(t, k)[k := t[k]][k + 1 := t[k + 1]][k + 2 := t[k + 2]][k + 3 := t[k + 3]] == t
  {
    var e := Ellipsis(t, k);
    assert forall i :: 0 <= i < |t| ==> t[k := Dot][k + 1 := Dot][k + 2 := Dot][k + 3 := 0][i] == e[i] by {
      forall i | 0 <= i < |t| ensures t[k := Dot][k + 1 := Dot][k + 2 := Dot][k + 3 := 0][i] == e[i] {
        if i < k {
          assert e[..k][i] == e[i];
        } else if i >= k + 4 {
          assert e[k + 4..][i - k - 4] == e[i];
        } else {
          assert e[k..k + 4][i - k] == e[i];
        }
      }
    }
    assert forall i :: 0 <= i < |t| ==> e[k := t[k]][k + 1 := t[k + 1]][k + 2 := t[k + 2]][k + 3 := t[k + 3]][i] == t[i] by {
      forall i | 0 <= i < |t| ensures e[k := t[k]][k + 1 := t[k + 1]][k + 2 := t[k + 2]][k + 3 := t[k + 3]][i] == t[i] {
        if i < k {
          assert e[..k][i] == e[i];
        } else if i >= k + 4 {
          assert e[k + 4..][i - k - 4] == e[i];
        }
      }
    }
  }

  /** The probing loop steps over a format code and its arguments. */
  lemma ClipFromFormatCode(res: Resources, g: TextGlobals, t: seq<Byte>, width: int, p: nat, clip: nat, clipped: int)
    requires ScanEnd(t, p) + 4 <= |t| && clip <= p && At(t, p) != 0 && IsFormatCode(At(t, p))
    ensures ClipFrom(res, g, t, width, p, clip, clipped) == ClipFrom(res, g, t, width, p + Advance(At(t, p)), clip, clipped)
  {
  }

  /** One turn of the probing loop, as `ClipFrom` takes it. */
  lemma ClipFromTurn(res: Resources, g: TextGlobals, t: seq<Byte>, width: int, p: nat, clip: nat, clipped: int)
    requires ScanEnd(t, p) + 4 <= |t| && clip <= p && At(t, p) != 0
    ensures var c := At(t, p);
      && (IsFormatCode(c) ==> ClipFrom(res, g, t, width, p, clip, clipped) == ClipFrom(res, g, t, width, p + Advance(c), clip, clipped))
      && (!IsFormatCode(c) ==>
            var queryWidth := StringWidth(res, g, Ellipsis(t, p + 1));
            && (queryWidth < width ==> ClipFrom(res, g, t, width, p, clip, clipped) == ClipFrom(res, g, t, width, p + 1, p + 1, queryWidth))
            && (queryWidth >= width ==> ClipFrom(res, g, t, width, p, clip, clipped) == Clipped(Ellipsis(Ellipsis(t, p + 1), clip), clipped)))
  {
  }

  /**
    The probe `gfx_clip_string` makes after a non-format codepoint: `...` and a terminator are
    written at `nextCh` (the four bytes there saved) and the buffer measured. A probe narrower
    than `width` becomes the clip point and the saved bytes are put back; otherwise `...` is
    written at the last clip point as well, and the caller stops.
  */
  method Probe(res: Resources, g: TextGlobals, text: array<Byte>, width: int, nextCh: nat, clipCh: nat, clippedWidth: int)
    returns (stop: bool, newClipCh: nat, newClippedWidth: int)
    requires clipCh <= nextCh && nextCh + 4 <= text.Length
    modifies text
    ensures var queryWidth := StringWidth(res, g, Ellipsis(old(text[..]), nextCh));
      && stop == (queryWidth >= width)
      && (!stop ==> text[..] == old(text[..]) && newClipCh == nextCh && newClippedWidth == queryWidth)
      && (stop ==> text[..] == Ellipsis(Ellipsis(old(text[..]), nextCh), clipCh) && newClipCh == clipCh && newClippedWidth == clippedWidth)
  {
    ghost var t := text[..];
    EllipsisWrites(t, nextCh);
    var backup0, backup1, backup2, backup3 := text[nextCh], text[nextCh + 1], text[nextCh + 2], text[nextCh + 3];
    text[nextCh] := Dot;
    text[nextCh + 1] := Dot;
    text[nextCh + 2] := Dot;
    text[nextCh + 3] := 0;
    var queryWidth := GetStringWidth(res, g, text[..]);
    if queryWidth < width {
      stop, newClipCh, newClippedWidth := false, nextCh, queryWidth;
    } else {
      EllipsisWrites(text[..], clipCh);
      text[clipCh] := Dot;
      text[clipCh + 1] := Dot;
      text[clipCh + 2] := Dot;
      text[clipCh + 3] := 0;
      return true, clipCh, clippedWidth;
    }
    text[nextCh] := backup0;
    text[nextCh + 1] := backup1;
    text[nextCh + 2] := backup2;
    text[nextCh + 3] := backup3;
  }

  /**
    `gfx_clip_string`: clips the string in `text` to `width`, appending `...`, and returns the
    width of what is left. Every probe writes four bytes after a codepoint of the string, so the
    buffer must have four bytes to spare after the terminator.
  */
  method ClipString(res: Resources, g: TextGlobals, text: array<Byte>, width: int) returns (clippedWidth: int)
    requires ScanEnd(text[..], 0) + 4 <= text.Length
    modifies text
    ensures Clipped(text[..], clippedWidth) == Clip(res, g, old(text[..]), width)
  {
    if width < 6 {
      text[0] := 0;
      return 0;
    }
    clippedWidth := GetStringWidth(res, g, text[..]);
    if clippedWidth <= width {
      return;
    }
    ghost var t := text[..];
    var ch: nat := 0;
    var clipCh: nat := 0;
    while text[ch] != 0
      invariant text[..] == t && OnPath(t, 0, ch) && clipCh <= ch <= ScanEnd(t, 0) && ScanEnd(t, ch) == ScanEnd(t, 0)
      invariant ClipFrom(res, g, t, width, ch, clipCh, clippedWidth) == Clip(res, g, t, width)
      decreases text.Length - ch
    {
      var stop;
      stop, ch, clipCh, clippedWidth := ClipTurn(res, g, text, width, t, ch, clipCh, clippedWidth);
      if stop {
        return;
      }
    }
    clippedWidth := GetStringWidth(res, g, text[..]);
  }

  /**
    One turn of the probing loop of `gfx_clip_string` at the codepoint at `ch`: a format code
    is stepped over with its arguments; any other codepoint is probed, and the loop stops when
    the probe does not fit.
  */
  method ClipTurn(res: Resources, g: TextGlobals, text: array<Byte>, width: int, ghost t: seq<Byte>,
                  ch: nat, clipCh: nat, clippedWidth: int)
    returns (stop: bool, ch': nat, clipCh': nat, clippedWidth': int)
    requires text[..] == t && ScanEnd(t, 0) + 4 <= text.Length
    requires OnPath(t, 0, ch) && clipCh <= ch && ScanEnd(t, ch) == ScanEnd(t, 0) && At(t, ch) != 0
    modifies text
    ensures stop ==> Clipped(text[..], clippedWidth') == ClipFrom(res, g, t, width, ch, clipCh, clippedWidth)
    ensures !stop ==> && text[..] == t && OnPath(t, 0, ch') && clipCh' <= ch' <= ScanEnd(t, 0) && ScanEnd(t, ch') == ScanEnd(t, 0)
                      && ch' > ch && ClipFrom(res, g, t, width, ch', clipCh', clippedWidth') == ClipFrom(res, g, t, width, ch, clipCh, clippedWidth)
  {
    var codepoint := text[ch];
    var nextCh := ch + 1;
    ScanStep(t, 0, ch);
    ClipFromTurn(res, g, t, width, ch, clipCh, clippedWidth);
    if IsFormatCode(codepoint) {
      return false, nextCh + ArgLength(codepoint), clipCh, clippedWidth;
    }
    stop, clipCh', clippedWidth' := Probe(res, g, text, width, nextCh, clipCh, clippedWidth);
    ch' := nextCh;
  }
}
