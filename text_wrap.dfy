/**
  `gfx_wrap_string` of src/openrct2/drawing/String.cpp: breaks the string in a buffer into lines
  no wider than a given width by writing terminators into it. A FORMAT_NEWLINE becomes a
  terminator; a line that grows too wide is broken at its last space, which becomes a
  terminator, or, when it has no space, by inserting a terminator before the codepoint that did
  not fit. The function returns the widest width it recorded and counts the lines it ended.
*/
module TextWrap {
  import opened Common
  import opened FormatCodes
  import opened TextState
  import opened TextInterp
  import opened TextDrawing
  import opened TextLayout

  /**
    A line end the wrap made, with `width` the width of the line it ends as the wrap measured it
    through its last codepoint: a FORMAT_NEWLINE at `pos` replaced by a terminator; the line's last
    space at `pos` replaced by one because the line through the codepoint at `overflow` measured
    `measure`, too wide; or a terminator inserted at `pos`, before the codepoint whose line
    measured `measure`, moving the string up to its end `end` and losing the byte after it.
  */
  datatype Break =
    | AtNewline(pos: nat, width: int)
    | AtSpace(pos: nat, overflow: nat, measure: int, width: int)
    | Inserted(pos: nat, end: nat, lost: Byte, measure: int, width: int)

  /**
    The width `maxWidth` takes at a break: the line's width, except at an inserted break, where
    the source takes the measure through the codepoint that moves to the next line.
  */
  function Taken(b: Break): int
  {
    if b.Inserted? then b.measure else b.width
  }

  /**
    `utf8_insert_codepoint(p, 0)`, which is not part of this model's source: the bytes from `p`
    through the terminator at `e` move one place on, over the byte after `e`, and a terminator
    takes position `p`.
  */
  function InsertTerminator(buf: seq<Byte>, p: nat, e: nat): (r: seq<Byte>)
    requires p <= e && e + 1 < |buf|
    ensures |r| == |buf| && r[p] == 0
  {
    buf[..p] + [0] + buf[p..e + 1] + buf[e + 2..]
  }

  /** The bytes before `p` stay, those from `p` through `e` move one place on, those after `e + 1` stay. */
  lemma InsertTerminatorMoves(buf: seq<Byte>, p: nat, e: nat)
    requires p <= e && e + 1 < |buf|
    ensures var r := InsertTerminator(buf, p, e);
      && (forall i :: 0 <= i < p ==> r[i] == buf[i])
      && (forall i :: p <= i <= e ==> r[i + 1] == buf[i])
      && (forall i :: e + 2 <= i < |buf| ==> r[i] == buf[i])
  {
  }

  /** After the insertion the scan from the next position ends one place further on. */
  lemma ScanEndInsert(buf: seq<Byte>, p: nat)
    requires ScanEnd(buf, p) + 1 < |buf|
    ensures ScanEnd(InsertTerminator(buf, p, ScanEnd(buf, p)), p + 1) == ScanEnd(buf, p) + 1
  {
    var e := ScanEnd(buf, p);
    var r := InsertTerminator(buf, p, e);
    InsertTerminatorMoves(buf, p, e);
    forall i | p <= i <= e
      ensures At(r, i + 1) == At(buf, i)
    {
    }
    ScanEndShift(buf, r, p, 1);
  }

  /** The number of terminators that were inserted rather than written over a byte. */
  function Inserts(breaks: seq<Break>): (n: nat)
    ensures n <= |breaks|
  {
    if breaks == [] then 0 else Inserts(breaks[..|breaks| - 1]) + if breaks[|breaks| - 1].Inserted? then 1 else 0
  }

  /**
    The locals of the wrapping loop: the buffer, the scan position `ch`, the start of the current
    line `firstCh`, the last space on it `currentWord` with the line's width before it, the
    width of the line so far, the widest line ended, the lines ended, the codepoints on the
    line, and (as bookkeeping for the proofs) the breaks made so far.
  */
  datatype WrapState = WrapState(
    buf: seq<Byte>, ch: nat, firstCh: nat, currentWord: Option<nat>, currentWidth: int,
    lineWidth: int, maxWidth: int, numLines: nat, numChars: nat, breaks: seq<Break>)

  function InitialWrapState(t: seq<Byte>): (s: WrapState)
    ensures s.buf == t && s.ch == s.firstCh == s.numLines == s.numChars == 0 && s.breaks == []
  {
    WrapState(t, 0, 0, None, 0, 0, 0, 0, 0, [])
  }

  /** The last space recorded on the line, if any, is on the scan path up to `ch`. */
  ghost predicate WordOnLine(s: WrapState) {
    s.currentWord.Some? ==>
      var w := s.currentWord.value;
      s.firstCh <= w <= s.ch && w < |s.buf| && s.buf[w] == Space && OnPath(s.buf, w, s.ch)
  }

  /**
    What keeps the loop within the buffer: the scan's end has moved one place per inserted
    terminator, the buffer has room for as many more as there are codepoints left, and a line
    with codepoints on it does not start at `ch`.
  */
  ghost predicate WrapInv(s: WrapState) {
    && s.firstCh <= s.ch <= ScanEnd(s.buf, s.ch)
    && 2 * ScanEnd(s.buf, s.ch) < |s.buf| + 2 * Inserts(s.breaks)
    && 2 * Inserts(s.breaks) <= s.firstCh
    && (s.numChars == 0 || s.firstCh < s.ch)
    && WordOnLine(s)
  }

  /** The state after a line ends with break `b`: scanning and the new line resume at `resume`. */
  function EndLine(s: WrapState, buf: seq<Byte>, resume: nat, b: Break): (r: WrapState)
    ensures r.buf == buf && r.ch == r.firstCh == resume && r.currentWord.None? && r.numChars == 0 && r.lineWidth == 0
    ensures r.numLines == s.numLines + 1 && r.breaks == s.breaks + [b] && r.maxWidth == Max(s.maxWidth, Taken(b))
  {
    s.(buf := buf, ch := resume, firstCh := resume, currentWord := None, lineWidth := 0,
      maxWidth := Max(s.maxWidth, Taken(b)), numLines := s.numLines + 1, numChars := 0, breaks := s.breaks + [b])
  }

  /** The state just before the line is measured at `ch`, a codepoint that is text. */
  ghost predicate BeforeMeasure(s: WrapState) {
    && s.firstCh <= s.ch < ScanEnd(s.buf, s.ch)
    && !IsFormatCode(s.buf[s.ch])
    && 2 * ScanEnd(s.buf, s.ch) < |s.buf| + 2 * Inserts(s.breaks)
    && 2 * Inserts(s.breaks) <= s.firstCh
    && (s.currentWord.None? ==> s.numChars == 0 || s.firstCh < s.ch)
    && WordOnLine(s)
  }

  /** The width of the line in `buf` from `a` through the codepoint at `k`, measured with a terminator after it. */
  function MeasureThrough(res: Resources, g: TextGlobals, buf: seq<Byte>, a: nat, k: nat): (w: int)
    requires a <= |buf|
  {
    StringWidth(res, g, Terminated(buf, k + 1)[a..])
  }

  /** The width of the line from `firstCh` through the codepoint at `ch`. */
  function ProbeLineWidth(res: Resources, g: TextGlobals, s: WrapState): (w: int)
    requires s.firstCh <= |s.buf|
  {
    MeasureThrough(res, g, s.buf, s.firstCh, s.ch)
  }

  /** The codepoint at `ch` stays on the line, which now measures `m`. */
  function Accepted(s: WrapState, m: int): (r: WrapState)
  {
    s.(ch := s.ch + 1, numChars := s.numChars + 1, lineWidth := m)
  }

  /**
    A line with no space ends before the codepoint at `ch`, through which it measured `m`, with a
    terminator inserted there.
  */
  function ForcedBreak(s: WrapState, m: int): (r: WrapState)
    requires BeforeMeasure(s) && s.currentWord.None? && s.numChars != 0
  {
    var e := ScanEnd(s.buf, s.ch);
    EndLine(s, InsertTerminator(s.buf, s.ch, e), s.ch + 1, Inserted(s.ch, e, s.buf[e + 1], m, s.lineWidth))
  }

  /**
    The line, which measured `m` through the codepoint at `ch`, ends at its last space, which
    becomes a terminator; scanning resumes after it.
  */
  function WordBreak(s: WrapState, m: int): (r: WrapState)
    requires BeforeMeasure(s) && s.currentWord.Some?
  {
    var w := s.currentWord.value;
    EndLine(s, s.buf[w := 0], w + 1, AtSpace(w, s.ch, m, s.currentWidth))
  }

  /**
    The decision after the line measured `m` through `ch`: the codepoint stays on the line when
    the line fits or is the line's first; otherwise the line ends at its last space, or, without
    one, before the codepoint.
  */
  function Measured(s: WrapState, width: int, m: int): (r: WrapState)
    requires BeforeMeasure(s)
  {
    if m <= width || s.numChars == 0 then Accepted(s, m)
    else if s.currentWord.None? then ForcedBreak(s, m)
    else WordBreak(s, m)
  }

  /** A space is recorded as the line's last space, with the line's width before it. */
  function SpaceNoted(s: WrapState): (r: WrapState)
    ensures r.buf == s.buf && r.ch == s.ch && r.firstCh == s.firstCh && r.breaks == s.breaks
    ensures r.currentWord == Some(s.ch) && r.numChars == s.numChars + 1
  {
    s.(currentWord := Some(s.ch), currentWidth := s.lineWidth, numChars := s.numChars + 1)
  }

  /** A space: recorded as the line's last space, with the width before it, and then measured as text. */
  function SpaceStep(res: Resources, g: TextGlobals, width: int, s: WrapState): (r: WrapState)
    requires BeforeMeasure(SpaceNoted(s))
  {
    var s1 := SpaceNoted(s);
    Measured(s1, width, ProbeLineWidth(res, g, s1))
  }

  /** FORMAT_NEWLINE: the line ends there, with a terminator in its place. */
  function NewlineStep(s: WrapState): (r: WrapState)
    requires s.ch < |s.buf|
  {
    EndLine(s, s.buf[s.ch := 0], s.ch + 1, AtNewline(s.ch, s.lineWidth))
  }

  /** Any other format code is stepped over with its arguments. */
  function FormatStep(s: WrapState): (r: WrapState)
    requires s.ch < |s.buf|
  {
    s.(ch := s.ch + Advance(s.buf[s.ch]))
  }

  /** A text codepoint: the line through it is measured. */
  function TextStep(res: Resources, g: TextGlobals, width: int, s: WrapState): (r: WrapState)
    requires BeforeMeasure(s)
  {
    Measured(s, width, ProbeLineWidth(res, g, s))
  }

  /** One turn of the wrapping loop at a codepoint that is not the terminator. */
  function WrapStep(res: Resources, g: TextGlobals, width: int, s: WrapState): (r: WrapState)
    requires WrapInv(s) && At(s.buf, s.ch) != 0
  {
    var c := s.buf[s.ch];
    if c == Space then SpaceStep(res, g, width, s)
    else if c == Newline then NewlineStep(s)
    else if IsFormatCode(c) then FormatStep(s)
    else TextStep(res, g, width, s)
  }

  /** The loop moves on: a line break starts a later line, any other turn advances the scan. */
  predicate Progress(s: WrapState, r: WrapState) {
    r.firstCh > s.firstCh || (r.firstCh == s.firstCh && r.ch > s.ch)
  }

  lemma InsertsAppend(breaks: seq<Break>, b: Break)
    ensures Inserts(breaks + [b]) == Inserts(breaks) + if b.Inserted? then 1 else 0
  {
    assert (breaks + [b])[..|breaks|] == breaks;
  }

  lemma AcceptedInv(s: WrapState, m: int)
    requires BeforeMeasure(s)
    ensures var r := Accepted(s, m);
      WrapInv(r) && |r.buf| == |s.buf| && Progress(s, r)
  {
    assert ScanEnd(s.buf, s.ch + 1) == ScanEnd(s.buf, s.ch);
    if s.currentWord.Some? {
      OnPathStep(s.buf, s.currentWord.value, s.ch);
    }
  }

  lemma ForcedBreakInv(s: WrapState, m: int)
    requires BeforeMeasure(s) && s.currentWord.None? && s.numChars != 0
    ensures var r := ForcedBreak(s, m);
      WrapInv(r) && |r.buf| == |s.buf| && Progress(s, r)
  {
    var b := ForcedBreakShape(s, m);
    InsertedInv(s, ForcedBreak(s, m), b);
  }

  /** A line ended by a terminator inserted at `ch` leaves the loop within the buffer. */
  lemma InsertedInv(s: WrapState, r: WrapState, b: Break)
    requires BeforeMeasure(s) && s.currentWord.None? && s.numChars != 0
    requires b.Inserted? && b.pos == s.ch && b.end == ScanEnd(s.buf, s.ch)
    requires r.breaks == s.breaks + [b] && |r.buf| == |s.buf|
    requires r.firstCh == r.ch == b.pos + 1 && r.currentWord.None? && r.numChars == 0
    requires ScanEnd(r.buf, r.ch) == b.end + 1
    ensures WrapInv(r) && |r.buf| == |s.buf| && Progress(s, r)
  {
    InsertsAppend(s.breaks, b);
    NewLineInv(r, b.end + 1, Inserts(s.breaks) + 1);
  }

  /** A line that starts where the scan resumes, empty, is within the buffer when the counts allow it. */
  lemma NewLineInv(r: WrapState, end: nat, inserts: nat)
    requires r.firstCh == r.ch && r.currentWord.None? && r.numChars == 0
    requires end == ScanEnd(r.buf, r.ch) && inserts == Inserts(r.breaks)
    requires r.ch <= end && 2 * end < |r.buf| + 2 * inserts && 2 * inserts <= r.firstCh
    ensures WrapInv(r)
  {
  }

  lemma WordBreakInv(s: WrapState, m: int)
    requires BeforeMeasure(s) && s.currentWord.Some?
    ensures var r := WordBreak(s, m);
      WrapInv(r) && |r.buf| == |s.buf| && Progress(s, r)
  {
    var w := s.currentWord.value;
    var buf := s.buf[w := 0];
    var b := AtSpace(w, s.ch, m, s.currentWidth);
    ScanEndFrame(s.buf, buf, w + 1);
    OnPathScanEnd(s.buf, w, s.ch);
    assert ScanEnd(s.buf, w + 1) == ScanEnd(s.buf, w);
    InsertsAppend(s.breaks, b);
    var r := EndLine(s, buf, w + 1, b);
    assert WordBreak(s, m) == r;
    NewLineInv(r, ScanEnd(s.buf, w), Inserts(s.breaks));
  }

  /** The decision after measuring keeps the loop within the buffer and moves it on. */
  lemma MeasuredInv(s: WrapState, width: int, m: int)
    requires BeforeMeasure(s)
    ensures var r := Measured(s, width, m);
      WrapInv(r) && |r.buf| == |s.buf| && Progress(s, r)
  {
    if m <= width || s.numChars == 0 {
      AcceptedInv(s, m);
    } else if s.currentWord.None? {
      ForcedBreakInv(s, m);
    } else {
      WordBreakInv(s, m);
    }
  }

  /** At a newline code the line ends there, with a terminator in its place. */
  lemma NewlineInv(s: WrapState)
    requires WrapInv(s) && At(s.buf, s.ch) == Newline
    ensures var r := NewlineStep(s);
      WrapInv(r) && |r.buf| == |s.buf| && Progress(s, r)
  {
    var buf := s.buf[s.ch := 0];
    assert ScanEnd(s.buf, s.ch + 1) == ScanEnd(s.buf, s.ch);
    ScanEndFrame(s.buf, buf, s.ch + 1);
    InsertsAppend(s.breaks, AtNewline(s.ch, s.lineWidth));
  }

  /** A format code other than a newline is stepped over with its arguments. */
  lemma FormatCodeInv(s: WrapState)
    requires WrapInv(s) && At(s.buf, s.ch) != 0
    ensures var r := FormatStep(s);
      WrapInv(r) && |r.buf| == |s.buf| && Progress(s, r)
  {
    assert ScanEnd(s.buf, s.ch + Advance(s.buf[s.ch])) == ScanEnd(s.buf, s.ch);
    if s.currentWord.Some? {
      OnPathStep(s.buf, s.currentWord.value, s.ch);
    }
  }

  /** Which step a turn takes, by the class of the current character. */
  lemma StepAtSpace(res: Resources, g: TextGlobals, width: int, s: WrapState)
    requires WrapInv(s) && At(s.buf, s.ch) == Space
    ensures var s1 := SpaceNoted(s);
      BeforeMeasure(s1) && WrapStep(res, g, width, s) == Measured(s1, width, ProbeLineWidth(res, g, s1))
  {
    SpaceBeforeMeasure(s);
  }

  lemma SpaceBeforeMeasure(s: WrapState)
    requires WrapInv(s) && At(s.buf, s.ch) == Space
    ensures BeforeMeasure(SpaceNoted(s))
  {
    assert ScanEnd(s.buf, s.ch + 1) == ScanEnd(s.buf, s.ch);
    assert OnPath(s.buf, s.ch, s.ch);
  }

  lemma StepAtNewline(res: Resources, g: TextGlobals, width: int, s: WrapState)
    requires WrapInv(s) && At(s.buf, s.ch) == Newline
    ensures WrapStep(res, g, width, s) == NewlineStep(s)
  {
  }

  lemma StepAtFormatCode(res: Resources, g: TextGlobals, width: int, s: WrapState)
    requires WrapInv(s) && At(s.buf, s.ch) != 0 && At(s.buf, s.ch) != Space && At(s.buf, s.ch) != Newline
    requires IsFormatCode(At(s.buf, s.ch))
    ensures WrapStep(res, g, width, s) == FormatStep(s)
  {
  }

  lemma StepAtText(res: Resources, g: TextGlobals, width: int, s: WrapState)
    requires WrapInv(s) && At(s.buf, s.ch) != 0 && At(s.buf, s.ch) != Space && !IsFormatCode(At(s.buf, s.ch))
    ensures BeforeMeasure(s) && WrapStep(res, g, width, s) == Measured(s, width, ProbeLineWidth(res, g, s))
  {
    assert ScanEnd(s.buf, s.ch + 1) == ScanEnd(s.buf, s.ch);
  }

  /** One turn of the loop keeps it within the buffer and moves it on. */
  lemma WrapStepInv(res: Resources, g: TextGlobals, width: int, s: WrapState)
    requires WrapInv(s) && At(s.buf, s.ch) != 0
    ensures var r := WrapStep(res, g, width, s);
      WrapInv(r) && |r.buf| == |s.buf| && Progress(s, r) && s.ch < |s.buf|
  {
    var c := s.buf[s.ch];
    if c == Space {
      StepAtSpace(res, g, width, s);
      var s1 := SpaceNoted(s);
      MeasuredInv(s1, width, ProbeLineWidth(res, g, s1));
    } else if c == Newline {
      NewlineInv(s);
    } else if IsFormatCode(c) {
      FormatCodeInv(s);
    } else {
      StepAtText(res, g, width, s);
      MeasuredInv(s, width, ProbeLineWidth(res, g, s));
    }
  }

  /** The wrapping loop from state `s` to the terminator. */
  function WrapFrom(res: Resources, g: TextGlobals, width: int, s: WrapState): (r: WrapState)
    requires WrapInv(s)
    ensures WrapInv(r) && At(r.buf, r.ch) == 0 && |r.buf| == |s.buf|
    decreases |s.buf| - s.firstCh, |s.buf| - s.ch
  {
    if At(s.buf, s.ch) == 0 then s
    else
      WrapStepInv(res, g, width, s);
      WrapFrom(res, g, width, WrapStep(res, g, width, s))
  }

  /**
    The state `gfx_wrap_string` ends in for the buffer `t`. The buffer must have room for one
    inserted terminator per codepoint: twice the string's scanned length, as the source grows
    the buffer without a bound check.
  */
  function Wrap(res: Resources, g: TextGlobals, t: seq<Byte>, width: int): (r: WrapState)
    requires 2 * ScanEnd(t, 0) < |t|
  {
    WrapFrom(res, g, width, InitialWrapState(t))
  }

  /**
    The width `gfx_wrap_string` returns: the widest width `maxWidth` recorded, counting the last
    line's. After an inserted break that is not always a line's width (see `Taken`).
  */
  function WrapWidth(r: WrapState): (w: int)
  {
    var maxWidth := Max(r.maxWidth, r.lineWidth);
    if maxWidth == 0 then r.lineWidth else maxWidth
  }

  /** Unfolds one turn of the wrapping loop. */
  lemma WrapFromUnfold(res: Resources, g: TextGlobals, width: int, s: WrapState)
    requires WrapInv(s) && At(s.buf, s.ch) != 0
    ensures WrapInv(WrapStep(res, g, width, s))
    ensures WrapFrom(res, g, width, s) == WrapFrom(res, g, width, WrapStep(res, g, width, s))
  {
    WrapStepInv(res, g, width, s);
  }

  /**
    `utf8_insert_codepoint(text + p, 0)`, which is not part of this model's source: the string
    from `p` is found by `get_string_end`, moved one place on, and a terminator written at `p`;
    the length of the inserted codepoint is returned.
  */
  method InsertTerminatorAt(text: array<Byte>, p: nat) returns (shift: nat)
    requires p <= ScanEnd(text[..], p) && ScanEnd(text[..], p) + 1 < text.Length
    modifies text
    ensures shift == 1 && text[..] == InsertTerminator(old(text[..]), p, ScanEnd(old(text[..]), p))
  {
    var e := ScanEnd(text[..], p);
    forall j | p < j <= e + 1 {
      text[j] := text[j - 1];
    }
    text[p] := 0;
    shift := 1;
  }

  /** The state the loop's locals and the bookkeeping of breaks describe. */
  function Locals(buf: seq<Byte>, ch: nat, firstCh: nat, currentWord: Option<nat>, currentWidth: int, lineWidth: int,
                  maxWidth: int, numLines: nat, numChars: nat, breaks: seq<Break>): (s: WrapState)
    ensures s.buf == buf && s.ch == ch && s.firstCh == firstCh && s.breaks == breaks
  {
    WrapState(buf, ch, firstCh, currentWord, currentWidth, lineWidth, maxWidth, numLines, numChars, breaks)
  }

  /**
    `gfx_wrap_string`: wraps the string in `text` to `width` in place and returns the widest line,
    the number of lines ended, and the font base for the line height.
  */
  method WrapString(res: Resources, g: TextGlobals, text: array<Byte>, width: int)
    returns (maxLineWidth: int, outNumLines: nat, outFontHeight: FontBase)
    requires 2 * ScanEnd(text[..], 0) < text.Length
    modifies text
    ensures var r := Wrap(res, g, old(text[..]), width);
      text[..] == r.buf && outNumLines == r.numLines && maxLineWidth == WrapWidth(r)
    ensures outFontHeight == g.fontSpriteBase
  {
    ghost var t := text[..];
    var lineWidth := 0;
    var maxWidth := 0;
    outNumLines := 0;
    var currentWord: Option<nat> := None;
    var currentWidth := 0;
    var ch: nat := 0;
    var firstCh: nat := 0;
    var numCharactersOnLine: nat := 0;
    ghost var breaks: seq<Break> := [];
    while text[ch] != 0
      invariant WrapInv(Locals(text[..], ch, firstCh, currentWord, currentWidth, lineWidth, maxWidth, outNumLines, numCharactersOnLine, breaks))
      invariant WrapFrom(res, g, width, Locals(text[..], ch, firstCh, currentWord, currentWidth, lineWidth, maxWidth, outNumLines, numCharactersOnLine, breaks))
        == Wrap(res, g, t, width)
      decreases text.Length - firstCh, text.Length - ch
    {
      ghost var s := Locals(text[..], ch, firstCh, currentWord, currentWidth, lineWidth, maxWidth, outNumLines, numCharactersOnLine, breaks);
      WrapFromUnfold(res, g, width, s);
      WrapStepInv(res, g, width, s);
      ch, firstCh, currentWord, currentWidth, lineWidth, maxWidth, outNumLines, numCharactersOnLine, breaks :=
        WrapTurn(res, g, text, width, s, ch, firstCh, currentWord, currentWidth, lineWidth, maxWidth, outNumLines, numCharactersOnLine, breaks);
    }
    maxWidth := Max(maxWidth, lineWidth);
    outFontHeight := g.fontSpriteBase;
    maxLineWidth := if maxWidth == 0 then lineWidth else maxWidth;
  }

  /** One turn of the loop of `gfx_wrap_string`, at a character that is not the terminator. */
  method WrapTurn(res: Resources, g: TextGlobals, text: array<Byte>, width: int, ghost s: WrapState,
                  ch: nat, firstCh: nat, currentWord: Option<nat>, currentWidth: int, lineWidth: int, maxWidth: int,
                  numLines: nat, numChars: nat, ghost breaks: seq<Break>)
    returns (ch': nat, firstCh': nat, currentWord': Option<nat>, currentWidth': int, lineWidth': int, maxWidth': int,
             numLines': nat, numChars': nat, ghost breaks': seq<Break>)
    requires WrapInv(s) && At(s.buf, s.ch) != 0
    requires s == Locals(text[..], ch, firstCh, currentWord, currentWidth, lineWidth, maxWidth, numLines, numChars, breaks)
    modifies text
    ensures Locals(text[..], ch', firstCh', currentWord', currentWidth', lineWidth', maxWidth', numLines', numChars', breaks')
      == WrapStep(res, g, width, s)
  {
    var codepoint := text[ch];
    if codepoint == Space {
      ch', firstCh', currentWord', currentWidth', lineWidth', maxWidth', numLines', numChars', breaks' :=
        SpaceTurn(res, g, text, width, s, ch, firstCh, currentWord, currentWidth, lineWidth, maxWidth, numLines, numChars, breaks);
      StepAtSpace(res, g, width, s);
    } else if codepoint == Newline {
      ch', firstCh', currentWord', currentWidth', lineWidth', maxWidth', numLines', numChars', breaks' :=
        NewlineTurn(text, s, ch, firstCh, currentWord, currentWidth, lineWidth, maxWidth, numLines, numChars, breaks);
      StepAtNewline(res, g, width, s);
    } else if IsFormatCode(codepoint) {
      ch', firstCh', currentWord', currentWidth', lineWidth', maxWidth', numLines', numChars', breaks' :=
        ch + 1 + ArgLength(codepoint), firstCh, currentWord, currentWidth, lineWidth, maxWidth, numLines, numChars, breaks;
      assert Locals(text[..], ch', firstCh', currentWord', currentWidth', lineWidth', maxWidth', numLines', numChars', breaks')
        == FormatStep(s);
      StepAtFormatCode(res, g, width, s);
    } else {
      StepAtText(res, g, width, s);
      currentWidth' := currentWidth;
      ch', firstCh', currentWord', lineWidth', maxWidth', numLines', numChars', breaks' :=
        MeasureAndBreak(res, g, text, width, s, ch, firstCh, currentWord, currentWidth, maxWidth, numLines, numChars, breaks);
      assert Locals(text[..], ch', firstCh', currentWord', currentWidth', lineWidth', maxWidth', numLines', numChars', breaks')
        == Measured(s, width, ProbeLineWidth(res, g, s));
    }
  }

  /** A space: it is recorded as the line's last space, and the line is measured through it. */
  method SpaceTurn(res: Resources, g: TextGlobals, text: array<Byte>, width: int, ghost s: WrapState,
                  ch: nat, firstCh: nat, currentWord: Option<nat>, currentWidth: int, lineWidth: int, maxWidth: int,
                  numLines: nat, numChars: nat, ghost breaks: seq<Break>)
    returns (ch': nat, firstCh': nat, currentWord': Option<nat>, currentWidth': int, lineWidth': int, maxWidth': int,
             numLines': nat, numChars': nat, ghost breaks': seq<Break>)
    requires WrapInv(s) && At(s.buf, s.ch) == Space
    requires s == Locals(text[..], ch, firstCh, currentWord, currentWidth, lineWidth, maxWidth, numLines, numChars, breaks)
    modifies text
    ensures var s1 := SpaceNoted(s);
      Locals(text[..], ch', firstCh', currentWord', currentWidth', lineWidth', maxWidth', numLines', numChars', breaks') == Measured(s1, width, ProbeLineWidth(res, g, s1))
  {
    SpaceBeforeMeasure(s);
    currentWord' := Some(ch);
    currentWidth' := lineWidth;
    ghost var s1 := SpaceNoted(s);
    assert s1 == Locals(text[..], ch, firstCh, currentWord', currentWidth', lineWidth, maxWidth, numLines, numChars + 1, breaks);
    ch', firstCh', currentWord', lineWidth', maxWidth', numLines', numChars', breaks' :=
      MeasureAndBreak(res, g, text, width, s1, ch, firstCh, currentWord', currentWidth', maxWidth, numLines, numChars + 1, breaks);
  }

  /** A newline code: a terminator takes its place and the next line starts after it. */
  method NewlineTurn(text: array<Byte>, ghost s: WrapState,
                  ch: nat, firstCh: nat, currentWord: Option<nat>, currentWidth: int, lineWidth: int, maxWidth: int,
                  numLines: nat, numChars: nat, ghost breaks: seq<Break>)
    returns (ch': nat, firstCh': nat, currentWord': Option<nat>, currentWidth': int, lineWidth': int, maxWidth': int,
             numLines': nat, numChars': nat, ghost breaks': seq<Break>)
    requires WrapInv(s) && At(s.buf, s.ch) == Newline
    requires s == Locals(text[..], ch, firstCh, currentWord, currentWidth, lineWidth, maxWidth, numLines, numChars, breaks)
    modifies text
    ensures Locals(text[..], ch', firstCh', currentWord', currentWidth', lineWidth', maxWidth', numLines', numChars', breaks') == NewlineStep(s)
  {
    text[ch] := 0;
    ch' := ch + 1;
    maxWidth' := Max(maxWidth, lineWidth);
    numLines' := numLines + 1;
    lineWidth' := 0;
    currentWord' := None;
    currentWidth' := currentWidth;
    firstCh' := ch';
    numChars' := 0;
    breaks' := breaks + [AtNewline(ch, lineWidth)];
  }

  /**
    The end of one turn of `gfx_wrap_string` at a space or a text character: the line up to and
    including it is measured, and the character is kept on the line, or the line ends at it, or
    at the last space.
  */
  method MeasureAndBreak(res: Resources, g: TextGlobals, text: array<Byte>, width: int, ghost s: WrapState,
                    ch: nat, firstCh: nat, currentWord: Option<nat>, currentWidth: int, maxWidth: int,
                    numLines: nat, numChars: nat, ghost breaks: seq<Break>)
    returns (ch': nat, firstCh': nat, currentWord': Option<nat>, lineWidth': int, maxWidth': int,
             numLines': nat, numChars': nat, ghost breaks': seq<Break>)
    requires BeforeMeasure(s)
    requires s == Locals(text[..], ch, firstCh, currentWord, currentWidth, s.lineWidth, maxWidth, numLines, numChars, breaks)
    modifies text
    ensures Locals(text[..], ch', firstCh', currentWord', currentWidth, lineWidth', maxWidth', numLines', numChars', breaks')
      == Measured(s, width, ProbeLineWidth(res, g, s))
  {
    var lineWidth := MeasureLine(res, g, text, firstCh, ch + 1);
    ch', firstCh', currentWord', lineWidth', maxWidth', numLines', numChars', breaks' :=
      FitOrBreak(text, width, s, lineWidth, ch, firstCh, currentWord, currentWidth, maxWidth, numLines, numChars, breaks);
  }

  /**
    Whether the character measured is kept on the line, or the line ends at it, or at the last
    space.
  */
  method FitOrBreak(text: array<Byte>, width: int, ghost s: WrapState, lineWidth: int,
                    ch: nat, firstCh: nat, currentWord: Option<nat>, currentWidth: int, maxWidth: int,
                    numLines: nat, numChars: nat, ghost breaks: seq<Break>)
    returns (ch': nat, firstCh': nat, currentWord': Option<nat>, lineWidth': int, maxWidth': int,
             numLines': nat, numChars': nat, ghost breaks': seq<Break>)
    requires BeforeMeasure(s)
    requires s == Locals(text[..], ch, firstCh, currentWord, currentWidth, s.lineWidth, maxWidth, numLines, numChars, breaks)
    modifies text
    ensures Locals(text[..], ch', firstCh', currentWord', currentWidth, lineWidth', maxWidth', numLines', numChars', breaks')
      == Measured(s, width, lineWidth)
  {
    if lineWidth <= width || numChars == 0 {
      ch', firstCh', currentWord', lineWidth', maxWidth', numLines', numChars', breaks' :=
        ch + 1, firstCh, currentWord, lineWidth, maxWidth, numLines, numChars + 1, breaks;
      assert Locals(text[..], ch', firstCh', currentWord', currentWidth, lineWidth', maxWidth', numLines', numChars', breaks')
        == Accepted(s, lineWidth);
    } else if currentWord.None? {
      ch', firstCh', currentWord', lineWidth', maxWidth', numLines', numChars', breaks' :=
        BreakBefore(text, s, lineWidth, ch, currentWidth, maxWidth, numLines, breaks);
    } else {
      var w := currentWord.value;
      text[w] := 0;
      ch' := w + 1;
      maxWidth' := Max(maxWidth, currentWidth);
      numLines' := numLines + 1;
      lineWidth' := 0;
      currentWord' := None;
      firstCh' := ch';
      numChars' := 0;
      breaks' := breaks + [AtSpace(w, ch, lineWidth, currentWidth)];
      assert Locals(text[..], ch', firstCh', currentWord', currentWidth, lineWidth', maxWidth', numLines', numChars', breaks')
        == WordBreak(s, lineWidth);
    }
  }

  /**
    A line with no space that grew too wide, measuring `lineWidth` through its last codepoint,
    ends by inserting a terminator before that codepoint.
  */
  method BreakBefore(text: array<Byte>, ghost s: WrapState, lineWidth: int, ch: nat, currentWidth: int,
                     maxWidth: int, numLines: nat, ghost breaks: seq<Break>)
    returns (ch': nat, firstCh': nat, currentWord': Option<nat>, lineWidth': int, maxWidth': int,
             numLines': nat, numChars': nat, ghost breaks': seq<Break>)
    requires BeforeMeasure(s) && s.currentWord.None? && s.numChars != 0
    requires s == Locals(text[..], ch, s.firstCh, None, currentWidth, s.lineWidth, maxWidth, numLines, s.numChars, breaks)
    modifies text
    ensures Locals(text[..], ch', firstCh', currentWord', currentWidth, lineWidth', maxWidth', numLines', numChars', breaks')
      == ForcedBreak(s, lineWidth)
  {
    ghost var e := ScanEnd(text[..], ch);
    ghost var lost := text[e + 1];
    var shift := InsertTerminatorAt(text, ch);
    ch' := ch + shift;
    maxWidth' := Max(maxWidth, lineWidth);
    numLines' := numLines + 1;
    lineWidth' := 0;
    currentWord' := None;
    firstCh' := ch';
    numChars' := 0;
    breaks' := breaks + [Inserted(ch, e, lost, lineWidth, s.lineWidth)];
  }

  // ---------------------------------------------------------------------------------------------
  // What the wrap did to the text: the breaks it records, and nothing else
  // ---------------------------------------------------------------------------------------------

  /** Takes back an inserted terminator at `p`: the bytes after it return, and so does the lost byte. */
  function RemoveTerminator(buf: seq<Byte>, p: nat, e: nat, lost: Byte): (r: seq<Byte>)
    requires p <= e && e + 1 < |buf|
    ensures |r| == |buf|
  {
    buf[..p] + buf[p + 1..e + 2] + [lost] + buf[e + 2..]
  }

  lemma RemoveInsert(buf: seq<Byte>, p: nat, e: nat)
    requires p <= e && e + 1 < |buf|
    ensures RemoveTerminator(InsertTerminator(buf, p, e), p, e, buf[e + 1]) == buf
  {
    var r := RemoveTerminator(InsertTerminator(buf, p, e), p, e, buf[e + 1]);
    InsertTerminatorMoves(buf, p, e);
    forall i | 0 <= i < |buf|
      ensures r[i] == buf[i]
    {
      if i < p {
      } else if i <= e {
        assert r[i] == InsertTerminator(buf, p, e)[i + 1];
      } else if i == e + 1 {
      } else {
      }
    }
  }

  /** The text before the breaks, undone last to first. */
  function Undo(buf: seq<Byte>, breaks: seq<Break>): (r: seq<Byte>)
    ensures |r| == |buf|
    decreases |breaks|
  {
    if breaks == [] then buf
    else
      var prev := breaks[..|breaks| - 1];
      match breaks[|breaks| - 1]
      case AtNewline(p, _) => if p < |buf| then Undo(buf[p := Newline], prev) else Undo(buf, prev)
      case AtSpace(p, _, _, _) => if p < |buf| then Undo(buf[p := Space], prev) else Undo(buf, prev)
      case Inserted(p, e, lost, _, _) =>
        if p <= e && e + 1 < |buf| then Undo(RemoveTerminator(buf, p, e, lost), prev) else Undo(buf, prev)
  }

  /** Undoing the last break of a line ended over a newline code or a space writes that byte back. */
  lemma UndoReplaced(buf: seq<Byte>, b: Break)
    requires (b.AtNewline? || b.AtSpace?) && b.pos < |buf| && buf[b.pos] == (if b.AtNewline? then Newline else Space)
    ensures Undo(buf[b.pos := 0], [b]) == buf
  {
    assert [b][..0] == [];
    assert buf[b.pos := 0][b.pos := buf[b.pos]] == buf;
  }

  /** Undoing an inserted terminator gives back the buffer before the insertion. */
  lemma UndoInserted(buf: seq<Byte>, p: nat, e: nat, m: int, w: int)
    requires p <= e && e + 1 < |buf|
    ensures Undo(InsertTerminator(buf, p, e), [Inserted(p, e, buf[e + 1], m, w)]) == buf
  {
    assert [Inserted(p, e, buf[e + 1], m, w)][..0] == [];
    RemoveInsert(buf, p, e);
  }

  /** Undoing breaks `q` and then break `b` is undoing `b` first and then `q`. */
  lemma UndoLast(buf: seq<Byte>, q: seq<Break>, b: Break)
    ensures Undo(buf, q + [b]) == Undo(Undo(buf, [b]), q)
  {
    assert (q + [b])[..|q|] == q;
    assert [b][..0] == [];
  }

  /**
    The bookkeeping of a wrap of text `t`: undoing the breaks gives `t` back, there is one per
    line ended, each is a terminator before the current line, and they come in the order of the
    text.
  */
  ghost predicate Recorded(t: seq<Byte>, s: WrapState) {
    && Undo(s.buf, s.breaks) == t
    && s.numLines == |s.breaks|
    && (forall i :: 0 <= i < |s.breaks| ==> s.breaks[i].pos < s.firstCh <= |s.buf| && s.buf[s.breaks[i].pos] == 0)
    && (forall i, j :: 0 <= i < j < |s.breaks| ==> s.breaks[i].pos < s.breaks[j].pos)
  }

  /** A line ended by writing a terminator over the newline code or the space at `b.pos`. */
  lemma ReplacedRecorded(t: seq<Byte>, s: WrapState, r: WrapState, b: Break)
    requires Recorded(t, s) && (b.AtNewline? || b.AtSpace?) && s.firstCh <= b.pos < |s.buf|
    requires s.buf[b.pos] == (if b.AtNewline? then Newline else Space)
    requires r.buf == s.buf[b.pos := 0] && r.breaks == s.breaks + [b]
    requires r.numLines == s.numLines + 1 && r.firstCh == b.pos + 1
    ensures Recorded(t, r)
  {
    UndoReplaced(s.buf, b);
    UndoLast(r.buf, s.breaks, b);
  }

  /** A line ended by inserting a terminator at `p`, before the scan's end `e`. */
  lemma InsertedRecorded(t: seq<Byte>, s: WrapState, r: WrapState, p: nat, e: nat, m: int, w: int)
    requires Recorded(t, s) && s.firstCh <= p <= e && e + 1 < |s.buf|
    requires r.buf == InsertTerminator(s.buf, p, e) && r.breaks == s.breaks + [Inserted(p, e, s.buf[e + 1], m, w)]
    requires r.numLines == s.numLines + 1 && r.firstCh == p + 1
    ensures Recorded(t, r)
  {
    UndoInserted(s.buf, p, e, m, w);
    UndoLast(r.buf, s.breaks, Inserted(p, e, s.buf[e + 1], m, w));
  }

  lemma MeasuredRecorded(t: seq<Byte>, s: WrapState, width: int, m: int)
    requires BeforeMeasure(s) && Recorded(t, s)
    ensures Recorded(t, Measured(s, width, m))
  {
    if m <= width || s.numChars == 0 {
    } else if s.currentWord.None? {
      ForcedBreakRecorded(t, s, m);
    } else {
      WordBreakRecorded(t, s, m);
    }
  }

  lemma ForcedBreakRecorded(t: seq<Byte>, s: WrapState, m: int)
    requires BeforeMeasure(s) && s.currentWord.None? && s.numChars != 0 && Recorded(t, s)
    ensures Recorded(t, ForcedBreak(s, m))
  {
    var e := ScanEnd(s.buf, s.ch);
    var r := ForcedBreak(s, m);
    assert r == EndLine(s, InsertTerminator(s.buf, s.ch, e), s.ch + 1, Inserted(s.ch, e, s.buf[e + 1], m, s.lineWidth));
    InsertedRecorded(t, s, r, s.ch, e, m, s.lineWidth);
  }

  lemma WordBreakRecorded(t: seq<Byte>, s: WrapState, m: int)
    requires BeforeMeasure(s) && s.currentWord.Some? && Recorded(t, s)
    ensures Recorded(t, WordBreak(s, m))
  {
    ReplacedRecorded(t, s, WordBreak(s, m), AtSpace(s.currentWord.value, s.ch, m, s.currentWidth));
  }

  lemma StepRecorded(res: Resources, g: TextGlobals, width: int, t: seq<Byte>, s: WrapState)
    requires WrapInv(s) && At(s.buf, s.ch) != 0 && Recorded(t, s)
    ensures Recorded(t, WrapStep(res, g, width, s))
  {
    var c := s.buf[s.ch];
    if c == Space {
      SpaceRecorded(res, g, width, t, s);
    } else if c == Newline {
      StepAtNewline(res, g, width, s);
      ReplacedRecorded(t, s, NewlineStep(s), AtNewline(s.ch, s.lineWidth));
    } else if IsFormatCode(c) {
      StepAtFormatCode(res, g, width, s);
    } else {
      StepAtText(res, g, width, s);
      MeasuredRecorded(t, s, width, ProbeLineWidth(res, g, s));
    }
  }

  lemma SpaceRecorded(res: Resources, g: TextGlobals, width: int, t: seq<Byte>, s: WrapState)
    requires WrapInv(s) && At(s.buf, s.ch) == Space && Recorded(t, s)
    ensures Recorded(t, WrapStep(res, g, width, s))
  {
    StepAtSpace(res, g, width, s);
    var s1 := SpaceNoted(s);
    assert Recorded(t, s1);
    MeasuredRecorded(t, s1, width, ProbeLineWidth(res, g, s1));
  }

  lemma {:induction false} WrapFromRecorded(res: Resources, g: TextGlobals, width: int, t: seq<Byte>, s: WrapState)
    requires WrapInv(s) && Recorded(t, s)
    ensures Recorded(t, WrapFrom(res, g, width, s))
    decreases |s.buf| - s.firstCh, |s.buf| - s.ch
  {
    if At(s.buf, s.ch) != 0 {
      WrapStepInv(res, g, width, s);
      StepRecorded(res, g, width, t, s);
      WrapFromRecorded(res, g, width, t, WrapStep(res, g, width, s));
    }
  }

  // ---------------------------------------------------------------------------------------------
  // What each line's scan met: newline codes only at its end, and no space after a word break's
  // ---------------------------------------------------------------------------------------------

  /** Where line `i` starts: at the start of the text, or just after the terminator of the break before it. */
  function LineStart(breaks: seq<Break>, i: nat): (a: nat)
    requires i <= |breaks|
    ensures i > 0 ==> a == breaks[i - 1].pos + 1
  {
    if i == 0 then 0 else breaks[i - 1].pos + 1
  }

  /** The scan from `a` meets no byte `x` at the positions from `lo` up to, not including, `e`. */
  ghost predicate Free(buf: seq<Byte>, a: nat, lo: nat, e: nat, x: Byte) {
    forall k :: lo <= k < e && OnPath(buf, a, k) ==> At(buf, k) != x
  }

  /**
    What the scan of the line from `a` that break `b` ended met, in the buffer `P` just before
    the break was made. A newline break is the first FORMAT_NEWLINE of its line. A word break is
    at a space of the line, and the scan went on from it to the codepoint that overflowed, through
    no other space and no FORMAT_NEWLINE. An inserted break is before a codepoint that is text, on
    a line that holds no space and no FORMAT_NEWLINE.
  */
  ghost predicate LineScanned(P: seq<Byte>, a: nat, b: Break) {
    match b
    case AtNewline(p, _) => OnPath(P, a, p) && At(P, p) == Newline && Free(P, a, a, p, Newline)
    case AtSpace(p, n, _, _) =>
      && OnPath(P, a, p) && At(P, p) == Space && p <= n && OnPath(P, p, n)
      && Free(P, p, p + 1, n + 1, Space) && Free(P, a, a, n, Newline)
    case Inserted(p, _, _, _, _) =>
      OnPath(P, a, p) && !IsFormatCode(At(P, p)) && Free(P, a, a, p + 1, Space) && Free(P, a, a, p, Newline)
  }

  /** Every ended line was scanned as `LineScanned` says, in the buffer as it was when the line ended. */
  ghost predicate LinesScanned(s: WrapState) {
    forall i :: 0 <= i < |s.breaks| ==> LineScanned(Undo(s.buf, s.breaks[i..]), LineStart(s.breaks, i), s.breaks[i])
  }

  /**
    The current line is scanned from its start up to `ch` (the codepoint at `ch` included when
    `through` is 1): no FORMAT_NEWLINE, and no space after the recorded one, or none at all
    when none is recorded.
  */
  ghost predicate LineSoFar(s: WrapState, through: nat) {
    && s.firstCh == LineStart(s.breaks, |s.breaks|)
    && OnPath(s.buf, s.firstCh, s.ch) && Free(s.buf, s.firstCh, s.firstCh, s.ch + through, Newline)
    && (s.currentWord.Some? ==>
          OnPath(s.buf, s.firstCh, s.currentWord.value) && Free(s.buf, s.currentWord.value, s.currentWord.value + 1, s.ch + through, Space))
    && (s.currentWord.None? ==> Free(s.buf, s.firstCh, s.firstCh, s.ch + through, Space))
  }

  /** Stepping the scan over a codepoint that is not `x` keeps the part scanned free of `x`. */
  lemma FreeStep(buf: seq<Byte>, a: nat, lo: nat, k: nat, x: Byte)
    requires OnPath(buf, a, k) && At(buf, k) != 0 && At(buf, k) != x && Free(buf, a, lo, k, x)
    ensures Free(buf, a, lo, k + Advance(At(buf, k)), x)
  {
    forall j | lo <= j < k + Advance(At(buf, k)) && OnPath(buf, a, j) ensures At(buf, j) != x {
      if k < j {
        OnPathOrder(buf, a, k, j);
      }
    }
  }

  /** Adding break `b` leaves the buffers before the earlier breaks, and where their lines start, as they were. */
  lemma BeforeBreakFrame(s: WrapState, r: WrapState, b: Break, i: nat)
    requires r.breaks == s.breaks + [b] && Undo(r.buf, [b]) == s.buf && i < |s.breaks|
    ensures Undo(r.buf, r.breaks[i..]) == Undo(s.buf, s.breaks[i..])
    ensures r.breaks[i] == s.breaks[i] && LineStart(r.breaks, i) == LineStart(s.breaks, i)
  {
    assert r.breaks[i..] == s.breaks[i..] + [b];
    UndoLast(r.buf, s.breaks[i..], b);
  }

  /** Ending a line keeps what was scanned of the lines before it, and the buffer before the new break is the old one. */
  lemma EndLineScanned(s: WrapState, r: WrapState, b: Break)
    requires LinesScanned(s) && r.breaks == s.breaks + [b] && Undo(r.buf, [b]) == s.buf
    requires LineScanned(s.buf, LineStart(s.breaks, |s.breaks|), b)
    requires r.firstCh == r.ch == b.pos + 1 && r.currentWord.None?
    ensures LinesScanned(r) && LineSoFar(r, 0)
  {
    forall i | 0 <= i < |r.breaks|
      ensures LineScanned(Undo(r.buf, r.breaks[i..]), LineStart(r.breaks, i), r.breaks[i])
    {
      if i < |s.breaks| {
        BeforeBreakFrame(s, r, b, i);
        assert LineScanned(Undo(s.buf, s.breaks[i..]), LineStart(s.breaks, i), s.breaks[i]);
      } else {
        assert r.breaks[i..] == [b] && r.breaks[i] == b;
        assert LineStart(r.breaks, i) == LineStart(s.breaks, |s.breaks|);
      }
    }
  }

  lemma ForcedBreakScanned(s: WrapState, m: int)
    requires BeforeMeasure(s) && s.currentWord.None? && s.numChars != 0 && LinesScanned(s) && LineSoFar(s, 1)
    ensures LinesScanned(ForcedBreak(s, m)) && LineSoFar(ForcedBreak(s, m), 0)
  {
    var b := ForcedBreakShape(s, m);
    InsertedScanned(s, b);
    EndLineScanned(s, ForcedBreak(s, m), b);
  }

  /** The break `ForcedBreak` records, and the state it leaves: the break undone gives the buffer back. */
  lemma ForcedBreakShape(s: WrapState, m: int) returns (b: Break)
    requires BeforeMeasure(s) && s.currentWord.None? && s.numChars != 0
    ensures b.Inserted? && b.pos == s.ch && b.end == ScanEnd(s.buf, s.ch)
    ensures ForcedBreak(s, m).breaks == s.breaks + [b] && Undo(ForcedBreak(s, m).buf, [b]) == s.buf
    ensures ForcedBreak(s, m).firstCh == ForcedBreak(s, m).ch == b.pos + 1 && ForcedBreak(s, m).currentWord.None?
    ensures ForcedBreak(s, m).buf == InsertTerminator(s.buf, s.ch, b.end) && ForcedBreak(s, m).numChars == 0
    ensures ScanEnd(ForcedBreak(s, m).buf, ForcedBreak(s, m).ch) == b.end + 1
  {
    var e := ScanEnd(s.buf, s.ch);
    b := Inserted(s.ch, e, s.buf[e + 1], m, s.lineWidth);
    UndoInserted(s.buf, s.ch, e, m, s.lineWidth);
    ScanEndInsert(s.buf, s.ch);
  }

  /** A break inserted at `ch` on a line scanned through `ch` with no space is scanned. */
  lemma InsertedScanned(s: WrapState, b: Break)
    requires BeforeMeasure(s) && s.currentWord.None? && s.numChars != 0 && LineSoFar(s, 1)
    requires b.Inserted? && b.pos == s.ch
    ensures LineScanned(s.buf, LineStart(s.breaks, |s.breaks|), b)
  {
  }

  lemma WordBreakScanned(s: WrapState, m: int)
    requires BeforeMeasure(s) && s.currentWord.Some? && LinesScanned(s) && LineSoFar(s, 1)
    ensures LinesScanned(WordBreak(s, m)) && LineSoFar(WordBreak(s, m), 0)
  {
    var b := AtSpace(s.currentWord.value, s.ch, m, s.currentWidth);
    UndoReplaced(s.buf, b);
    assert LineScanned(s.buf, s.firstCh, b);
    EndLineScanned(s, WordBreak(s, m), b);
  }

  /** A codepoint that stays on the line moves the scanned part on past it. */
  lemma AcceptedScanned(s: WrapState, m: int)
    requires BeforeMeasure(s) && LineSoFar(s, 1)
    ensures LineSoFar(Accepted(s, m), 0)
  {
    OnPathStep(s.buf, s.firstCh, s.ch);
  }

  lemma MeasuredScanned(s: WrapState, width: int, m: int)
    requires BeforeMeasure(s) && LinesScanned(s) && LineSoFar(s, 1)
    ensures LinesScanned(Measured(s, width, m)) && LineSoFar(Measured(s, width, m), 0)
  {
    if m <= width || s.numChars == 0 {
      AcceptedScanned(s, m);
    } else if s.currentWord.None? {
      ForcedBreakScanned(s, m);
    } else {
      WordBreakScanned(s, m);
    }
  }

  /** A space becomes the recorded one, and the line is scanned through it. */
  lemma SpaceScanned(s: WrapState)
    requires WrapInv(s) && At(s.buf, s.ch) == Space && LineSoFar(s, 0)
    ensures LineSoFar(SpaceNoted(s), 1)
  {
    FreeStep(s.buf, s.firstCh, s.firstCh, s.ch, Newline);
  }

  /** A codepoint that is neither a space nor a newline code is scanned without meeting either. */
  lemma OtherScanned(s: WrapState)
    requires WrapInv(s) && At(s.buf, s.ch) != 0 && At(s.buf, s.ch) != Space && At(s.buf, s.ch) != Newline && LineSoFar(s, 0)
    ensures var n := Advance(At(s.buf, s.ch));
      && Free(s.buf, s.firstCh, s.firstCh, s.ch + n, Newline)
      && (s.currentWord.Some? ==> Free(s.buf, s.currentWord.value, s.currentWord.value + 1, s.ch + n, Space))
      && (s.currentWord.None? ==> Free(s.buf, s.firstCh, s.firstCh, s.ch + n, Space))
  {
    FreeStep(s.buf, s.firstCh, s.firstCh, s.ch, Newline);
    if s.currentWord.Some? {
      FreeStep(s.buf, s.currentWord.value, s.currentWord.value + 1, s.ch, Space);
    } else {
      FreeStep(s.buf, s.firstCh, s.firstCh, s.ch, Space);
    }
  }

  /** A format code other than a newline is stepped over, its arguments unscanned. */
  lemma FormatScanned(s: WrapState)
    requires WrapInv(s) && At(s.buf, s.ch) != 0 && At(s.buf, s.ch) != Space && At(s.buf, s.ch) != Newline && LineSoFar(s, 0)
    ensures LineSoFar(FormatStep(s), 0)
  {
    OtherScanned(s);
    OnPathStep(s.buf, s.firstCh, s.ch);
  }

  /** A newline code ends the line as its first FORMAT_NEWLINE. */
  lemma NewlineScanned(s: WrapState)
    requires WrapInv(s) && At(s.buf, s.ch) == Newline && LinesScanned(s) && LineSoFar(s, 0)
    ensures LinesScanned(NewlineStep(s)) && LineSoFar(NewlineStep(s), 0)
  {
    var b := AtNewline(s.ch, s.lineWidth);
    UndoReplaced(s.buf, b);
    assert LineScanned(s.buf, s.firstCh, b);
    EndLineScanned(s, NewlineStep(s), b);
  }

  lemma StepScanned(res: Resources, g: TextGlobals, width: int, s: WrapState)
    requires WrapInv(s) && At(s.buf, s.ch) != 0 && LinesScanned(s) && LineSoFar(s, 0)
    ensures LinesScanned(WrapStep(res, g, width, s)) && LineSoFar(WrapStep(res, g, width, s), 0)
  {
    var c := s.buf[s.ch];
    if c == Space {
      StepAtSpace(res, g, width, s);
      SpaceScanned(s);
      var s1 := SpaceNoted(s);
      MeasuredScanned(s1, width, ProbeLineWidth(res, g, s1));
    } else if c == Newline {
      StepAtNewline(res, g, width, s);
      NewlineScanned(s);
    } else if IsFormatCode(c) {
      StepAtFormatCode(res, g, width, s);
      FormatScanned(s);
    } else {
      StepAtText(res, g, width, s);
      OtherScanned(s);
      MeasuredScanned(s, width, ProbeLineWidth(res, g, s));
    }
  }

  lemma {:induction false} WrapFromScanned(res: Resources, g: TextGlobals, width: int, s: WrapState)
    requires WrapInv(s) && LinesScanned(s) && LineSoFar(s, 0)
    ensures LinesScanned(WrapFrom(res, g, width, s)) && LineSoFar(WrapFrom(res, g, width, s), 0)
    decreases |s.buf| - s.firstCh, |s.buf| - s.ch
  {
    if At(s.buf, s.ch) != 0 {
      WrapStepInv(res, g, width, s);
      StepScanned(res, g, width, s);
      WrapFromScanned(res, g, width, WrapStep(res, g, width, s));
    }
  }

  // ---------------------------------------------------------------------------------------------
  // What each line measured: no wider than the width, except a first codepoint too wide alone,
  // and a line broken only when the codepoint after it overflowed
  // ---------------------------------------------------------------------------------------------

  /**
    The width of the line from `a` as the wrap last measured it, scanning from `k` up to `p`:
    `acc`, or the measure through the last codepoint that is not a format code.
  */
  function LastMeasureFrom(res: Resources, g: TextGlobals, buf: seq<Byte>, a: nat, k: nat, p: nat, acc: int): (w: int)
    requires a <= |buf|
    ensures acc >= 0 ==> w >= 0
    decreases p - k
  {
    if p <= k || At(buf, k) == 0 then acc
    else
      var c := At(buf, k);
      LastMeasureFrom(res, g, buf, a, k + Advance(c), p, if IsFormatCode(c) then acc else MeasureThrough(res, g, buf, a, k))
  }

  /**
    The width of the line from `a` up to `p`: its measure through the last codepoint before `p`
    that is not a format code, or 0 when there is none.
  */
  function LineWidthTo(res: Resources, g: TextGlobals, buf: seq<Byte>, a: nat, p: nat): (w: int)
    requires a <= |buf|
    ensures w >= 0
  {
    LastMeasureFrom(res, g, buf, a, a, p, 0)
  }

  /** Scanning one codepoint further takes its measure, unless it is a format code. */
  lemma {:induction false} LastMeasureStep(res: Resources, g: TextGlobals, buf: seq<Byte>, a: nat, j: nat, k: nat, acc: int)
    requires a <= |buf| && OnPath(buf, j, k) && At(buf, k) != 0
    ensures LastMeasureFrom(res, g, buf, a, j, k + Advance(At(buf, k)), acc)
         == if IsFormatCode(At(buf, k)) then LastMeasureFrom(res, g, buf, a, j, k, acc) else MeasureThrough(res, g, buf, a, k)
    decreases k - j
  {
    if j < k {
      var c := At(buf, j);
      LastMeasureStep(res, g, buf, a, j + Advance(c), k, if IsFormatCode(c) then acc else MeasureThrough(res, g, buf, a, j));
    }
  }

  /** The line's width through a codepoint on its scan: its measure, or the width before a format code. */
  lemma LineWidthStep(res: Resources, g: TextGlobals, buf: seq<Byte>, a: nat, k: nat)
    requires a <= |buf| && OnPath(buf, a, k) && At(buf, k) != 0
    ensures LineWidthTo(res, g, buf, a, k + Advance(At(buf, k)))
         == if IsFormatCode(At(buf, k)) then LineWidthTo(res, g, buf, a, k) else MeasureThrough(res, g, buf, a, k)
  {
    LastMeasureStep(res, g, buf, a, a, k, 0);
  }

  /** The measure of the line from `a` through its first codepoint that is not a format code. */
  function FirstMeasure(res: Resources, g: TextGlobals, buf: seq<Byte>, a: nat): (w: int)
    requires a <= |buf|
  {
    MeasureThrough(res, g, buf, a, NextProbe(buf, a))
  }

  /**
    Every codepoint on the scan of the line from `a`, from `k` up to `p`, that is not a format
    code stayed on the line by the greedy rule: the line through it measured no more than
    `width`, or it was the line's first.
  */
  ghost predicate KeptFrom(res: Resources, g: TextGlobals, width: int, buf: seq<Byte>, a: nat, k: nat, p: nat)
    requires a <= |buf|
    decreases p - k
  {
    if p <= k || At(buf, k) == 0 then true
    else
      var c := At(buf, k);
      && (IsFormatCode(c) || MeasureThrough(res, g, buf, a, k) <= width || k == NextProbe(buf, a))
      && KeptFrom(res, g, width, buf, a, k + Advance(c), p)
  }

  /** Every codepoint of the line from `a` before `p` stayed on it. */
  ghost predicate KeptTo(res: Resources, g: TextGlobals, width: int, buf: seq<Byte>, a: nat, p: nat)
    requires a <= |buf|
  {
    KeptFrom(res, g, width, buf, a, a, p)
  }

  /** Scanning one codepoint further adds the greedy rule's verdict on it. */
  lemma {:induction false} KeptFromStep(res: Resources, g: TextGlobals, width: int, buf: seq<Byte>, a: nat, j: nat, k: nat)
    requires a <= |buf| && OnPath(buf, j, k) && At(buf, k) != 0
    ensures KeptFrom(res, g, width, buf, a, j, k + Advance(At(buf, k)))
         == (KeptFrom(res, g, width, buf, a, j, k)
             && (IsFormatCode(At(buf, k)) || MeasureThrough(res, g, buf, a, k) <= width || k == NextProbe(buf, a)))
    decreases k - j
  {
    if j < k {
      KeptFromStep(res, g, width, buf, a, j + Advance(At(buf, j)), k);
    }
  }

  /**
    A width the greedy rule leaves on a line from `a`: no wider than `width`, empty, or the
    measure through the line's first codepoint, which stays on the line however wide it is.
  */
  ghost predicate Fits(res: Resources, g: TextGlobals, width: int, buf: seq<Byte>, a: nat, w: int)
    requires a <= |buf|
  {
    w <= width || w == 0 || w == FirstMeasure(res, g, buf, a)
  }

  /**
    What the line from `a` that break `b` ended measured, in the buffer `P` just before the break.
    Its width is the measure through its last codepoint, and it fits. A word break or an inserted
    break was made because the line through the codepoint at `overflow`, or at `pos`, measured
    `measure`, wider than `width`, and every codepoint before it on the line had stayed on it
    (`KeptTo`), so that codepoint was the first to overflow. A newline break ends a line all of
    whose codepoints stayed on it.
  */
  ghost predicate LineFitted(res: Resources, g: TextGlobals, width: int, P: seq<Byte>, a: nat, b: Break) {
    && a <= |P|
    && b.width == LineWidthTo(res, g, P, a, b.pos) && Fits(res, g, width, P, a, b.width)
    && match b
       case AtNewline(p, _) => KeptTo(res, g, width, P, a, p)
       case AtSpace(_, n, m, _) => KeptTo(res, g, width, P, a, n) && m == MeasureThrough(res, g, P, a, n) && m > width
       case Inserted(p, _, _, m, _) => KeptTo(res, g, width, P, a, p) && m == MeasureThrough(res, g, P, a, p) && m > width
  }

  /** Every ended line measured as `LineFitted` says, in the buffer as it was when the line ended. */
  ghost predicate LinesFitted(res: Resources, g: TextGlobals, width: int, s: WrapState) {
    forall i :: 0 <= i < |s.breaks| ==> LineFitted(res, g, width, Undo(s.buf, s.breaks[i..]), LineStart(s.breaks, i), s.breaks[i])
  }

  /**
    The current line so far: `lineWidth` is its width up to `ch` and fits, so does the width
    before the recorded space, while no codepoint is on it the scan from its start meets
    none before `ch`, and every codepoint before `ch` stayed on it.
  */
  ghost predicate FittedSoFar(res: Resources, g: TextGlobals, width: int, s: WrapState) {
    && s.firstCh <= |s.buf| && s.firstCh == LineStart(s.breaks, |s.breaks|) && OnPath(s.buf, s.firstCh, s.ch)
    && s.lineWidth == LineWidthTo(res, g, s.buf, s.firstCh, s.ch) && Fits(res, g, width, s.buf, s.firstCh, s.lineWidth)
    && (s.currentWord.Some? ==>
          s.currentWidth == LineWidthTo(res, g, s.buf, s.firstCh, s.currentWord.value)
          && Fits(res, g, width, s.buf, s.firstCh, s.currentWidth))
    && (s.numChars == 0 ==> NextProbe(s.buf, s.firstCh) == NextProbe(s.buf, s.ch))
    && KeptTo(res, g, width, s.buf, s.firstCh, s.ch)
  }

  /** Ending a line keeps what the lines before it measured, and the new line starts empty. */
  lemma EndLineFitted(res: Resources, g: TextGlobals, width: int, s: WrapState, r: WrapState, b: Break)
    requires LinesFitted(res, g, width, s) && r.breaks == s.breaks + [b] && Undo(r.buf, [b]) == s.buf
    requires LineFitted(res, g, width, s.buf, LineStart(s.breaks, |s.breaks|), b)
    requires r.firstCh == r.ch == b.pos + 1 <= |r.buf| && r.currentWord.None? && r.lineWidth == 0 && r.numChars == 0
    ensures LinesFitted(res, g, width, r) && FittedSoFar(res, g, width, r)
  {
    forall i | 0 <= i < |r.breaks|
      ensures LineFitted(res, g, width, Undo(r.buf, r.breaks[i..]), LineStart(r.breaks, i), r.breaks[i])
    {
      if i < |s.breaks| {
        BeforeBreakFrame(s, r, b, i);
        assert LineFitted(res, g, width, Undo(s.buf, s.breaks[i..]), LineStart(s.breaks, i), s.breaks[i]);
      } else {
        assert r.breaks[i..] == [b] && r.breaks[i] == b;
        assert LineStart(r.breaks, i) == LineStart(s.breaks, |s.breaks|);
      }
    }
    assert LineWidthTo(res, g, r.buf, r.firstCh, r.ch) == 0;
  }

  /** A codepoint that stays on the line either fits or is the line's first. */
  lemma AcceptedFitted(res: Resources, g: TextGlobals, width: int, s: WrapState, m: int)
    requires BeforeMeasure(s) && FittedSoFar(res, g, width, s) && m == ProbeLineWidth(res, g, s)
    requires m <= width || s.numChars == 0
    ensures FittedSoFar(res, g, width, Accepted(s, m))
  {
    if s.numChars == 0 {
      assert NextProbe(s.buf, s.ch) == s.ch;
    }
    AcceptedLine(res, g, width, s.buf, s.firstCh, s.ch, m);
  }

  /**
    A codepoint that fits, or is the line's first, stays on it: the line's width becomes the
    measure through it, which fits.
  */
  lemma AcceptedLine(res: Resources, g: TextGlobals, width: int, buf: seq<Byte>, a: nat, k: nat, m: int)
    requires a <= |buf| && OnPath(buf, a, k) && At(buf, k) != 0 && !IsFormatCode(At(buf, k))
    requires m == MeasureThrough(res, g, buf, a, k) && KeptTo(res, g, width, buf, a, k)
    requires m <= width || k == NextProbe(buf, a)
    ensures OnPath(buf, a, k + 1) && LineWidthTo(res, g, buf, a, k + 1) == m
    ensures Fits(res, g, width, buf, a, m) && KeptTo(res, g, width, buf, a, k + 1)
  {
    OnPathStep(buf, a, k);
    LineWidthStep(res, g, buf, a, k);
    KeptFromStep(res, g, width, buf, a, a, k);
  }

  lemma ForcedBreakFitted(res: Resources, g: TextGlobals, width: int, s: WrapState, m: int)
    requires BeforeMeasure(s) && s.currentWord.None? && s.numChars != 0
    requires LinesFitted(res, g, width, s) && FittedSoFar(res, g, width, s) && m == ProbeLineWidth(res, g, s) && m > width
    ensures LinesFitted(res, g, width, ForcedBreak(s, m)) && FittedSoFar(res, g, width, ForcedBreak(s, m))
  {
    var e := ScanEnd(s.buf, s.ch);
    var b := Inserted(s.ch, e, s.buf[e + 1], m, s.lineWidth);
    UndoInserted(s.buf, s.ch, e, m, s.lineWidth);
    assert LineFitted(res, g, width, s.buf, s.firstCh, b);
    EndLineFitted(res, g, width, s, ForcedBreak(s, m), b);
  }

  lemma WordBreakFitted(res: Resources, g: TextGlobals, width: int, s: WrapState, m: int)
    requires BeforeMeasure(s) && s.currentWord.Some?
    requires LinesFitted(res, g, width, s) && FittedSoFar(res, g, width, s) && m == ProbeLineWidth(res, g, s) && m > width
    ensures LinesFitted(res, g, width, WordBreak(s, m)) && FittedSoFar(res, g, width, WordBreak(s, m))
  {
    var b := AtSpace(s.currentWord.value, s.ch, m, s.currentWidth);
    UndoReplaced(s.buf, b);
    assert LineFitted(res, g, width, s.buf, s.firstCh, b);
    EndLineFitted(res, g, width, s, WordBreak(s, m), b);
  }

  lemma MeasuredFitted(res: Resources, g: TextGlobals, width: int, s: WrapState, m: int)
    requires BeforeMeasure(s) && LinesFitted(res, g, width, s) && FittedSoFar(res, g, width, s) && m == ProbeLineWidth(res, g, s)
    ensures LinesFitted(res, g, width, Measured(s, width, m)) && FittedSoFar(res, g, width, Measured(s, width, m))
  {
    if m <= width || s.numChars == 0 {
      AcceptedFitted(res, g, width, s, m);
    } else if s.currentWord.None? {
      ForcedBreakFitted(res, g, width, s, m);
    } else {
      WordBreakFitted(res, g, width, s, m);
    }
  }

  /** A format code other than a newline leaves the line's width as it was. */
  lemma FormatFitted(res: Resources, g: TextGlobals, width: int, s: WrapState)
    requires WrapInv(s) && At(s.buf, s.ch) != 0 && IsFormatCode(At(s.buf, s.ch)) && FittedSoFar(res, g, width, s)
    ensures FittedSoFar(res, g, width, FormatStep(s))
  {
    OnPathStep(s.buf, s.firstCh, s.ch);
    LineWidthStep(res, g, s.buf, s.firstCh, s.ch);
    KeptFromStep(res, g, width, s.buf, s.firstCh, s.firstCh, s.ch);
    assert NextProbe(s.buf, s.ch) == NextProbe(s.buf, s.ch + Advance(s.buf[s.ch]));
  }

  /** A newline code ends the line with the width it had. */
  lemma NewlineFitted(res: Resources, g: TextGlobals, width: int, s: WrapState)
    requires WrapInv(s) && At(s.buf, s.ch) == Newline && LinesFitted(res, g, width, s) && FittedSoFar(res, g, width, s)
    ensures LinesFitted(res, g, width, NewlineStep(s)) && FittedSoFar(res, g, width, NewlineStep(s))
  {
    var b := AtNewline(s.ch, s.lineWidth);
    UndoReplaced(s.buf, b);
    assert LineFitted(res, g, width, s.buf, s.firstCh, b);
    EndLineFitted(res, g, width, s, NewlineStep(s), b);
  }

  lemma StepFitted(res: Resources, g: TextGlobals, width: int, s: WrapState)
    requires WrapInv(s) && At(s.buf, s.ch) != 0 && LinesFitted(res, g, width, s) && FittedSoFar(res, g, width, s)
    ensures var r := WrapStep(res, g, width, s);
      LinesFitted(res, g, width, r) && FittedSoFar(res, g, width, r)
  {
    var c := s.buf[s.ch];
    if c == Space {
      StepAtSpace(res, g, width, s);
      var s1 := SpaceNoted(s);
      MeasuredFitted(res, g, width, s1, ProbeLineWidth(res, g, s1));
    } else if c == Newline {
      StepAtNewline(res, g, width, s);
      NewlineFitted(res, g, width, s);
    } else if IsFormatCode(c) {
      StepAtFormatCode(res, g, width, s);
      FormatFitted(res, g, width, s);
    } else {
      StepAtText(res, g, width, s);
      MeasuredFitted(res, g, width, s, ProbeLineWidth(res, g, s));
    }
  }

  lemma {:induction false} WrapFromFitted(res: Resources, g: TextGlobals, width: int, s: WrapState)
    requires WrapInv(s) && LinesFitted(res, g, width, s) && FittedSoFar(res, g, width, s)
    ensures var r := WrapFrom(res, g, width, s);
      LinesFitted(res, g, width, r) && FittedSoFar(res, g, width, r)
    decreases |s.buf| - s.firstCh, |s.buf| - s.ch
  {
    if At(s.buf, s.ch) != 0 {
      WrapStepInv(res, g, width, s);
      StepFitted(res, g, width, s);
      WrapFromFitted(res, g, width, WrapStep(res, g, width, s));
    }
  }

  // ---------------------------------------------------------------------------------------------
  // The widest width recorded
  // ---------------------------------------------------------------------------------------------

  /**
    `maxWidth` is the widest of the widths taken at the breaks, or 0 before any is wider; widths
    are never negative.
  */
  ghost predicate WidestRecorded(s: WrapState) {
    && s.lineWidth >= 0 && s.currentWidth >= 0 && s.maxWidth >= 0
    && (forall i :: 0 <= i < |s.breaks| ==> Taken(s.breaks[i]) <= s.maxWidth)
    && (s.maxWidth == 0 || exists i :: 0 <= i < |s.breaks| && Taken(s.breaks[i]) == s.maxWidth)
  }

  /** Ending a line with a width taken that is not negative keeps `maxWidth` the widest. */
  lemma EndLineWidest(s: WrapState, r: WrapState, b: Break)
    requires WidestRecorded(s) && Taken(b) >= 0 && r.breaks == s.breaks + [b] && r.maxWidth == Max(s.maxWidth, Taken(b))
    requires r.lineWidth == 0 && r.currentWidth == s.currentWidth
    ensures WidestRecorded(r)
  {
    assert forall i :: 0 <= i < |s.breaks| ==> r.breaks[i] == s.breaks[i];
    if r.maxWidth != 0 && r.maxWidth != Taken(b) {
      var i :| 0 <= i < |s.breaks| && Taken(s.breaks[i]) == s.maxWidth;
      assert Taken(r.breaks[i]) == r.maxWidth;
    }
    assert r.breaks[|s.breaks|] == b;
  }

  lemma MeasuredWidest(s: WrapState, width: int, m: int)
    requires BeforeMeasure(s) && WidestRecorded(s) && m >= 0
    ensures WidestRecorded(Measured(s, width, m))
  {
    if m <= width || s.numChars == 0 {
    } else if s.currentWord.None? {
      var e := ScanEnd(s.buf, s.ch);
      EndLineWidest(s, ForcedBreak(s, m), Inserted(s.ch, e, s.buf[e + 1], m, s.lineWidth));
    } else {
      EndLineWidest(s, WordBreak(s, m), AtSpace(s.currentWord.value, s.ch, m, s.currentWidth));
    }
  }

  lemma StepWidest(res: Resources, g: TextGlobals, width: int, s: WrapState)
    requires WrapInv(s) && At(s.buf, s.ch) != 0 && WidestRecorded(s)
    ensures WidestRecorded(WrapStep(res, g, width, s))
  {
    var c := s.buf[s.ch];
    if c == Space {
      StepAtSpace(res, g, width, s);
      var s1 := SpaceNoted(s);
      MeasuredWidest(s1, width, ProbeLineWidth(res, g, s1));
    } else if c == Newline {
      StepAtNewline(res, g, width, s);
      EndLineWidest(s, NewlineStep(s), AtNewline(s.ch, s.lineWidth));
    } else if IsFormatCode(c) {
      StepAtFormatCode(res, g, width, s);
    } else {
      StepAtText(res, g, width, s);
      MeasuredWidest(s, width, ProbeLineWidth(res, g, s));
    }
  }

  lemma {:induction false} WrapFromWidest(res: Resources, g: TextGlobals, width: int, s: WrapState)
    requires WrapInv(s) && WidestRecorded(s)
    ensures WidestRecorded(WrapFrom(res, g, width, s))
    decreases |s.buf| - s.firstCh, |s.buf| - s.ch
  {
    if At(s.buf, s.ch) != 0 {
      WrapStepInv(res, g, width, s);
      StepWidest(res, g, width, s);
      WrapFromWidest(res, g, width, WrapStep(res, g, width, s));
    }
  }

  /**
    The width `gfx_wrap_string` returns is the widest width it recorded: no width taken at a
    break, nor the last line's, is wider, and it is one of them.
  */
  lemma WrapWidthIsMaxRecorded(res: Resources, g: TextGlobals, t: seq<Byte>, width: int)
    requires 2 * ScanEnd(t, 0) < |t|
    ensures var r := Wrap(res, g, t, width);
      && (forall i :: 0 <= i < |r.breaks| ==> Taken(r.breaks[i]) <= WrapWidth(r))
      && r.lineWidth <= WrapWidth(r)
      && (WrapWidth(r) == r.lineWidth || exists i :: 0 <= i < |r.breaks| && Taken(r.breaks[i]) == WrapWidth(r))
  {
    WrapFromWidest(res, g, width, InitialWrapState(t));
  }

  /**
    The wrapped text is the original with a terminator at each break and nothing else changed:
    undoing the breaks restores it, there is one break per line counted, and each break is a
    terminator, in text order. Each line's scan, in the buffer as it was when the line ended,
    reached the break from the line's start: a FORMAT_NEWLINE the scan met ended its line as a
    newline break, a word break is at the line's last space before the codepoint that overflowed,
    and an inserted break ends a line without a space. The last line's scan reaches the
    terminator with no FORMAT_NEWLINE on the way.
  */
  lemma WrapOnlyBreaks(res: Resources, g: TextGlobals, t: seq<Byte>, width: int)
    requires 2 * ScanEnd(t, 0) < |t|
    ensures var r := Wrap(res, g, t, width);
      && Undo(r.buf, r.breaks) == t && r.numLines == |r.breaks|
      && (forall i :: 0 <= i < |r.breaks| ==> r.breaks[i].pos < |r.buf| && r.buf[r.breaks[i].pos] == 0)
      && (forall i, j :: 0 <= i < j < |r.breaks| ==> r.breaks[i].pos < r.breaks[j].pos)
      && (forall i :: 0 <= i < |r.breaks| ==> LineScanned(Undo(r.buf, r.breaks[i..]), LineStart(r.breaks, i), r.breaks[i]))
      && var a := LineStart(r.breaks, |r.breaks|);
         OnPath(r.buf, a, r.ch) && At(r.buf, r.ch) == 0 && Free(r.buf, a, a, r.ch, Newline)
  {
    WrapFromRecorded(res, g, width, t, InitialWrapState(t));
    WrapFromScanned(res, g, width, InitialWrapState(t));
  }

  /**
    Every line the wrap ends keeps to the greedy rule, in the buffer as it was when the line
    ended. Its recorded width is the measure through its last codepoint. That width is within
    `width`, or the line is empty, or it is the measure through the line's first codepoint, which
    no width can move off its line. A word break or an inserted break is made only when the line
    through the codepoint that overflowed measured more than `width`, and every codepoint before
    it on the line had stayed on it, so it was the first to overflow. The last line keeps to the
    same rule.
  */
  lemma WrapWithinWidth(res: Resources, g: TextGlobals, t: seq<Byte>, width: int)
    requires 2 * ScanEnd(t, 0) < |t|
    ensures var r := Wrap(res, g, t, width);
      && (forall i :: 0 <= i < |r.breaks| ==> LineFitted(res, g, width, Undo(r.buf, r.breaks[i..]), LineStart(r.breaks, i), r.breaks[i]))
      && var a := LineStart(r.breaks, |r.breaks|);
         a <= |r.buf| && r.lineWidth == LineWidthTo(res, g, r.buf, a, r.ch) && Fits(res, g, width, r.buf, a, r.lineWidth)
         && KeptTo(res, g, width, r.buf, a, r.ch)
  {
    var s := InitialWrapState(t);
    assert LineWidthTo(res, g, t, 0, 0) == 0;
    WrapFromFitted(res, g, width, s);
  }

  // ---------------------------------------------------------------------------------------------
  // The width of the widest line
  // ---------------------------------------------------------------------------------------------

  /** The widest of the lines the breaks ended, or 0 when there is none or none is wider. */
  function WidestLine(breaks: seq<Break>): (w: int)
    ensures w >= 0
  {
    if breaks == [] then 0 else Max(WidestLine(breaks[..|breaks| - 1]), breaks[|breaks| - 1].width)
  }

  /** No line is wider than `WidestLine`; it is 0 or the width of one of them. */
  lemma {:induction false} WidestLineBounds(breaks: seq<Break>)
    ensures forall i :: 0 <= i < |breaks| ==> breaks[i].width <= WidestLine(breaks)
    ensures WidestLine(breaks) == 0 || exists i :: 0 <= i < |breaks| && breaks[i].width == WidestLine(breaks)
    decreases |breaks|
  {
    if breaks != [] {
      var prev := breaks[..|breaks| - 1];
      WidestLineBounds(prev);
      assert forall i :: 0 <= i < |prev| ==> breaks[i] == prev[i];
      if WidestLine(breaks) != 0 && WidestLine(breaks) != breaks[|breaks| - 1].width {
        var i :| 0 <= i < |prev| && prev[i].width == WidestLine(prev);
        assert breaks[i].width == WidestLine(breaks);
      }
    }
  }

  /**
    The width `gfx_wrap_string` evidently means to return, "the width of the longest line": the
    widest line's width, with an inserted break taking the line's width before the codepoint
    that moved, as the other breaks do.
  */
  function IntendedWrapWidth(r: WrapState): (w: int)
  {
    var maxWidth := Max(WidestLine(r.breaks), r.lineWidth);
    if maxWidth == 0 then r.lineWidth else maxWidth
  }

  /**
    The intended width is the width of the widest line: every line, the last one included, has
    the width of its measure through its last codepoint, none is wider than the intended width,
    and it is the width of one of them.
  */
  lemma IntendedWidthIsWidest(res: Resources, g: TextGlobals, t: seq<Byte>, width: int)
    requires 2 * ScanEnd(t, 0) < |t|
    ensures var r := Wrap(res, g, t, width);
      && (forall i :: 0 <= i < |r.breaks| ==>
            var P := Undo(r.buf, r.breaks[i..]);
            var a := LineStart(r.breaks, i);
            a <= |P| && r.breaks[i].width == LineWidthTo(res, g, P, a, r.breaks[i].pos) && r.breaks[i].width <= IntendedWrapWidth(r))
      && (var a := LineStart(r.breaks, |r.breaks|);
          a <= |r.buf| && r.lineWidth == LineWidthTo(res, g, r.buf, a, r.ch) && r.lineWidth <= IntendedWrapWidth(r))
      && (IntendedWrapWidth(r) == r.lineWidth || exists i :: 0 <= i < |r.breaks| && r.breaks[i].width == IntendedWrapWidth(r))
  {
    WrapWithinWidth(res, g, t, width);
    var r := Wrap(res, g, t, width);
    WidestLineBounds(r.breaks);
  }

  /** The first "a" of "aa" measures 6 and stays on the line. */
  lemma OverstatesFirst(res: Resources, g: TextGlobals, t: seq<Byte>)
    requires t == [0x61, 0x61, 0, 0, 0] && StringWidth(res, g, [0x61]) == 6
    ensures WrapInv(InitialWrapState(t))
    ensures WrapStep(res, g, 10, InitialWrapState(t)) == WrapState(t, 1, 0, None, 0, 6, 0, 0, 1, [])
  {
    var s0 := InitialWrapState(t);
    assert ScanEnd(t, 0) == 2 by {
      assert ScanEnd(t, 2) == 2;
    }
    StepAtText(res, g, 10, s0);
    StringWidthFrame(res, g, [0x61], Terminated(t, 1)[0..]);
  }

  /** The second "a" makes the line measure 12: a terminator is inserted before it. */
  lemma OverstatesSecond(res: Resources, g: TextGlobals, t: seq<Byte>, s1: WrapState)
    requires t == [0x61, 0x61, 0, 0, 0] && StringWidth(res, g, [0x61, 0x61]) == 12
    requires s1 == WrapState(t, 1, 0, None, 0, 6, 0, 0, 1, []) && WrapInv(s1)
    ensures WrapStep(res, g, 10, s1) == WrapState([0x61, 0, 0x61, 0, 0], 2, 2, None, 0, 0, 12, 1, 0, [Inserted(1, 2, 0, 12, 6)])
  {
    assert ScanEnd(t, 1) == 2 by {
      assert ScanEnd(t, 2) == 2;
    }
    StepAtText(res, g, 10, s1);
    StringWidthFrame(res, g, [0x61, 0x61], Terminated(t, 2)[0..]);
    assert InsertTerminator(t, 1, 2) == [0x61, 0, 0x61, 0, 0];
  }

  /** The moved "a" starts the next line and measures 6 there. */
  lemma OverstatesThird(res: Resources, g: TextGlobals, s2: WrapState)
    requires StringWidth(res, g, [0x61]) == 6
    requires s2 == WrapState([0x61, 0, 0x61, 0, 0], 2, 2, None, 0, 0, 12, 1, 0, [Inserted(1, 2, 0, 12, 6)]) && WrapInv(s2)
    ensures WrapStep(res, g, 10, s2) == s2.(ch := 3, lineWidth := 6, numChars := 1)
  {
    StepAtText(res, g, 10, s2);
    assert Terminated(s2.buf, 3)[2..] == [0x61, 0, 0];
    StringWidthFrame(res, g, [0x61], Terminated(s2.buf, 3)[2..]);
  }

  /**
    An inserted break makes `gfx_wrap_string` return more than any line's width. In a font where
    "a" measures 6 and "aa" 12, wrapping "aa" to 10 ends the line "a" with an inserted terminator
    and leaves "a" as the last line, both 6 wide, yet the width returned is 12: the measure
    through the "a" that moved.
  */
  lemma InsertedBreakOverstates(res: Resources, g: TextGlobals)
    requires StringWidth(res, g, [0x61]) == 6 && StringWidth(res, g, [0x61, 0x61]) == 12
    ensures var r := Wrap(res, g, [0x61, 0x61, 0, 0, 0], 10);
      && r.buf == [0x61, 0, 0x61, 0, 0] && r.numLines == 1 && r.breaks == [Inserted(1, 2, 0, 12, 6)]
      && r.lineWidth == 6 && WrapWidth(r) == 12 && IntendedWrapWidth(r) == 6
  {
    var t: seq<Byte> := [0x61, 0x61, 0, 0, 0];
    var s0 := InitialWrapState(t);
    OverstatesFirst(res, g, t);
    WrapFromUnfold(res, g, 10, s0);
    var s1 := WrapStep(res, g, 10, s0);
    OverstatesSecond(res, g, t, s1);
    WrapFromUnfold(res, g, 10, s1);
    var s2 := WrapStep(res, g, 10, s1);
    OverstatesThird(res, g, s2);
    WrapFromUnfold(res, g, 10, s2);
    var s3 := WrapStep(res, g, 10, s2);
    assert WrapFrom(res, g, 10, s3) == s3;
    assert WidestLine(s3.breaks) == 6 by {
      assert s3.breaks[..0] == [];
    }
  }
}
