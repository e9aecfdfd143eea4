/**
  The text interpreter of src/openrct2/drawing/String.cpp as functions on `DrawState`: one
  function per routine (`ttf_process_format_code`, `ttf_process_glyph_run`,
  `ttf_draw_character_sprite`, `ttf_draw_string_raw`, `ttf_process_string`), in measure-only mode,
  where drawing has no effect on the state and only the cursor, extents, flags, palette and font
  base evolve. The imperative `TextDrawing.TextDrawInfo` is proved against these.
*/
module TextInterp {
  import opened Common
  import opened FormatCodes
  import opened TextState

  /** The font base each font code selects. */
  function FontFor(c: Byte): FontBase
    requires IsFontCode(c)
  {
    if c == TinyFont then FontBaseTiny
    else if c == SmallFont then FontBaseSmall
    else if c == MediumFont then FontBaseMedium
    else FontBaseBig
  }

  /** The G1 index of an INLINE_SPRITE argument: the little-endian 32-bit image id, masked with 0x7FFFF. */
  function InlineSpriteIndex(s: seq<Byte>, pos: nat): (i: nat)
    ensures i < 0x8_0000
  {
    Word32(At(s, pos + 1), At(s, pos + 2), At(s, pos + 3), At(s, pos + 4)) % 0x8_0000
  }

  /** The palette after ADJUST_PALETTE copies the selected element's bytes 249, 247, 248, 250 and 251. */
  function AdjustedPalette(p: seq<Byte>, g: PaletteSprite, flags: Flags): (r: seq<Byte>)
    requires |p| == 8
    ensures |r| == 8 && r[0] == p[0] && r[7] == p[7]
    ensures r[1] == g.b249 && r[2] == (if flags.outline then 1 else 0)
    ensures r[3] == g.b247 && r[4] == g.b248 && r[5] == g.b250 && r[6] == g.b251
  {
    [p[0], g.b249, if flags.outline then 1 else 0, g.b247, g.b248, g.b250, g.b251, p[7]]
  }

  /** The window colour a WINDOW_COLOUR_n code selects. */
  function WindowColour(res: Resources, c: Byte): Byte
    requires WindowColour1 <= c <= WindowColour3
  {
    if c == WindowColour1 then res.windowColours.0
    else if c == WindowColour2 then res.windowColours.1
    else res.windowColours.2
  }

  /** The position after a format code and its argument bytes, as `ttf_process_format_code` leaves `nextCh`. */
  function FormatCodeNext(c: Byte, pos: nat): (next: nat)
    ensures next > pos
    ensures IsFormatCode(c) && c != Terminator ==> next == pos + Advance(c)
  {
    if c == MoveX || c == AdjustPalette || c == Format3 || c == Format4 then pos + 2
    else if c == InlineSprite then pos + 5
    else if (Newline <= c <= Format16) || IsColourCode(c) then pos + 1
    else if c <= 0x16 then pos + 3
    else pos + 5
  }

  /**
    The state `ttf_process_format_code` leaves (`FormatCodeNext` gives the position it returns). No code moves the line anchor or the extents, or
    changes a flag other than OUTLINE, or writes palette[0] or palette[7].
  */
  function FormatCodeState(res: Resources, st: DrawState, s: seq<Byte>, pos: nat): (r: DrawState)
    requires ValidState(st)
    ensures ValidState(r)
    ensures r.startX == st.startX && r.startY == st.startY && r.maxX == st.maxX && r.maxY == st.maxY
    ensures r.palette[0] == st.palette[0] && r.palette[7] == st.palette[7]
    ensures r.flags.(outline := false) == st.flags.(outline := false)
    ensures (r.flags.noDraw <==> st.flags.noDraw) && (r.flags.ttf <==> st.flags.ttf)
  {
    var c := At(s, pos);
    if c == MoveX then st.(x := st.startX + At(s, pos + 1) as int)
    else if c == AdjustPalette then
      match res.paletteSprite(At(s, pos + 1))
      case None => st
      case Some(g) => st.(palette := AdjustedPalette(st.palette, g, st.flags))
    else if c == Newline then st.(x := st.startX, y := st.y + res.lineHeight(st.fontSpriteBase))
    else if c == NewlineSmaller then st.(x := st.startX, y := st.y + res.lineHeightSmall(st.fontSpriteBase))
    else if IsFontCode(c) then st.(fontSpriteBase := FontFor(c))
    else if c == FormatOutline then st.(flags := st.flags.(outline := true))
    else if c == FormatOutlineOff then st.(flags := st.flags.(outline := false))
    else if WindowColour1 <= c <= WindowColour3 then
      st.(palette := SetColourBytes(st.palette, ColourCharWindowBytes(res, WindowColour(res, c), st.flags)))
    else if c == InlineSprite then
      match res.spriteWidth(InlineSpriteIndex(s, pos))
      case None => st
      case Some(w) => st.(x := st.x + w)
    else if IsColourCode(c) then
      st.(palette := SetColourBytes(st.palette, ColourCharBytes(res, c - ColourCodeStart, st.flags)))
    else st
  }

  /** What each code does: the cursor codes, the font codes, the outline codes, the sprite and the colour codes. */
  lemma FormatCodeEffects(res: Resources, st: DrawState, s: seq<Byte>, pos: nat)
    requires ValidState(st)
    ensures var r := FormatCodeState(res, st, s, pos);
      && (At(s, pos) == MoveX ==> r == st.(x := st.startX + At(s, pos + 1) as int))
      && (At(s, pos) == Newline ==> r == st.(x := st.startX, y := st.y + res.lineHeight(st.fontSpriteBase)))
      && (At(s, pos) == NewlineSmaller ==> r == st.(x := st.startX, y := st.y + res.lineHeightSmall(st.fontSpriteBase)))
      && (IsFontCode(At(s, pos)) ==> r == st.(fontSpriteBase := FontFor(At(s, pos))))
      && (At(s, pos) == FormatOutline ==> r == st.(flags := st.flags.(outline := true)))
      && (At(s, pos) == FormatOutlineOff ==> r == st.(flags := st.flags.(outline := false)))
      && (At(s, pos) == InlineSprite && res.spriteWidth(InlineSpriteIndex(s, pos)).None? ==> r == st)
      && (At(s, pos) == InlineSprite && res.spriteWidth(InlineSpriteIndex(s, pos)).Some? ==>
            r == st.(x := st.x + res.spriteWidth(InlineSpriteIndex(s, pos)).value))
      && (At(s, pos) == AdjustPalette && res.paletteSprite(At(s, pos + 1)).None? ==> r == st)
      && (At(s, pos) == AdjustPalette && res.paletteSprite(At(s, pos + 1)).Some? ==>
            r == st.(palette := AdjustedPalette(st.palette, res.paletteSprite(At(s, pos + 1)).value, st.flags)))
      && (WindowColour1 <= At(s, pos) <= WindowColour3 ==>
            r == st.(palette := SetColourBytes(st.palette, ColourCharWindowBytes(res, WindowColour(res, At(s, pos)), st.flags))))
      && (IsColourCode(At(s, pos)) ==>
            r == st.(palette := SetColourBytes(st.palette, ColourCharBytes(res, At(s, pos) - ColourCodeStart, st.flags))))
      && ((|| At(s, pos) in {Format3, Format4, Format16}
           || NewlineXY <= At(s, pos) < InlineSprite
           || InlineSprite < At(s, pos) < 0x20
           || ArgumentCodeStart <= At(s, pos) < ColourCodeStart) ==> r == st)
  {
  }

  /**
    Where `ttf_process_glyph_run` stops: at the first format code, or, with TrueType on, at the
    first codepoint that must be drawn from the sprite font.
  */
  function RunEnd(res: Resources, s: seq<Byte>, p: nat, isTtf: bool): (e: nat)
    ensures p <= e && (p <= |s| ==> e <= |s|)
    ensures forall i :: p <= i < e ==> !IsFormatCode(At(s, i)) && !(isTtf && res.useSpriteFor(At(s, i)))
    ensures IsFormatCode(At(s, e)) || (isTtf && res.useSpriteFor(At(s, e)))
    decreases |s| - p
  {
    var c := At(s, p);
    if IsFormatCode(c) || (isTtf && res.useSpriteFor(c)) then p else RunEnd(res, s, p + 1, isTtf)
  }

  /** The advance `ttf_draw_string_raw_sprite` makes over `t` from index `i`: glyph widths up to the first format code. */
  function SpriteAdvance(res: Resources, base: FontBase, t: seq<Byte>, i: nat): (w: nat)
    decreases |t| - i
  {
    var c := At(t, i);
    if IsFormatCode(c) then 0 else res.glyphWidth(base, c) + SpriteAdvance(res, base, t, i + 1)
  }

  /**
    The advance of `ttf_draw_string_raw` over a run in measure-only mode: the sprite font without
    TrueType; with TrueType nothing when the backend cannot start, the sprite font when the base has
    no face, and the cached TrueType width otherwise.
  */
  function RawAdvance(res: Resources, st: DrawState, run: seq<Byte>): int
  {
    if !st.flags.ttf then SpriteAdvance(res, st.fontSpriteBase, run, 0)
    else if !res.ttfReady then 0
    else if !res.ttfHasFont(st.fontSpriteBase) then SpriteAdvance(res, st.fontSpriteBase, run, 0)
    else res.ttfRunWidth(st.fontSpriteBase, CString(run))
  }

  /** The sprite advance over a buffer reads only its zero-terminated string. */
  lemma {:induction false} SpriteAdvanceCString(res: Resources, base: FontBase, t: seq<Byte>, i: nat)
    requires i <= |CString(t)|
    ensures SpriteAdvance(res, base, t, i) == SpriteAdvance(res, base, CString(t), i)
    decreases |CString(t)| - i
  {
    var n := |CString(t)|;
    assert At(t, i) == At(CString(t), i);
    if i < n && !IsFormatCode(At(t, i)) {
      SpriteAdvanceCString(res, base, t, i + 1);
    }
  }

  /** A raw draw reads only the zero-terminated string in its buffer. */
  lemma RawAdvanceCString(res: Resources, st: DrawState, t: seq<Byte>)
    ensures RawAdvance(res, st, t) == RawAdvance(res, st, CString(t))
  {
    var c := CString(t);
    SpriteAdvanceCString(res, st.fontSpriteBase, t, 0);
    assert forall j :: 0 <= j < |c| ==> c[j] != 0 by {
      forall j | 0 <= j < |c| ensures c[j] != 0 {
        assert c[j] in c;
      }
    }
    CStringAt(c, |c|);
    assert c[..|c|] == c;
  }

  /**
    The run `ttf_process_glyph_run` measures, whether passed in place (its end is the terminator)
    or copied into a terminated scratch buffer, draws as `s[pos..e]`.
  */
  lemma RunBuffers(res: Resources, st: DrawState, s: seq<Byte>, pos: nat)
    requires pos <= |s|
    ensures var e := RunEnd(res, s, pos, st.flags.ttf);
      && (At(s, e) == 0 ==> RawAdvance(res, st, s[pos..]) == RawAdvance(res, st, s[pos..e]))
      && RawAdvance(res, st, s[pos..e] + [0]) == RawAdvance(res, st, s[pos..e])
  {
    var e := RunEnd(res, s, pos, st.flags.ttf);
    var run := s[pos..e];
    assert forall j :: 0 <= j < |run| ==> run[j] != 0 by {
      forall j | 0 <= j < |run| ensures run[j] != 0 {
        assert run[j] == At(s, pos + j);
      }
    }
    CStringAt(run, |run|);
    assert run[..|run|] == run;
    RawAdvanceCString(res, st, run);
    if At(s, e) == 0 {
      var text := s[pos..];
      assert text[..|run|] == run;
      CStringAt(text, |run|);
      RawAdvanceCString(res, st, text);
    }
    var buffer := run + [0];
    assert buffer[..|run|] == run;
    CStringAt(buffer, |run|);
    RawAdvanceCString(res, st, buffer);
  }

  /** `ttf_draw_character_sprite` in measure-only mode: the cursor moves by the glyph's width. */
  function CharacterSprite(res: Resources, st: DrawState, c: Byte): (r: DrawState)
    ensures r.x == st.x + res.glyphWidth(st.fontSpriteBase, c) && r.x >= st.x
    ensures r == st.(x := r.x)
  {
    st.(x := st.x + res.glyphWidth(st.fontSpriteBase, c))
  }

  /** `ttf_process_glyph_run`: the run of plain codepoints at `pos` is measured as one piece. */
  function GlyphRun(res: Resources, st: DrawState, s: seq<Byte>, pos: nat): (r: (DrawState, nat))
    requires pos <= |s|
    ensures r.1 == RunEnd(res, s, pos, st.flags.ttf) && r.1 <= |s|
    ensures r.0 == st.(x := r.0.x)
    ensures !IsFormatCode(At(s, pos)) && !(st.flags.ttf && res.useSpriteFor(At(s, pos))) ==> r.1 > pos
  {
    var e := RunEnd(res, s, pos, st.flags.ttf);
    (st.(x := st.x + RawAdvance(res, st, s[pos..e])), e)
  }

  /** One iteration of the `ttf_process_string` loop, before the extents are updated. */
  function Step(res: Resources, st: DrawState, s: seq<Byte>, pos: nat): (r: (DrawState, nat))
    requires ValidState(st) && At(s, pos) != 0
    ensures ValidState(r.0) && r.1 > pos
    ensures r.0.startX == st.startX && r.0.startY == st.startY && r.0.maxX == st.maxX && r.0.maxY == st.maxY
    ensures r.0.flags.(outline := false) == st.flags.(outline := false)
    ensures (r.0.flags.noDraw <==> st.flags.noDraw) && (r.0.flags.ttf <==> st.flags.ttf)
  {
    var c := At(s, pos);
    if IsFormatCode(c) then (FormatCodeState(res, st, s, pos), FormatCodeNext(c, pos))
    else if st.flags.ttf && res.useSpriteFor(c) then (CharacterSprite(res, st, c), pos + 1)
    else GlyphRun(res, st, s, pos)
  }

  /** The extents after a step: `maxX` and `maxY` catch up with the cursor. */
  function Extend(st: DrawState): (r: DrawState)
    ensures r.maxX >= st.maxX && r.maxX >= r.x && r.maxY >= st.maxY && r.maxY >= r.y
    ensures r.maxX == st.maxX || r.maxX == st.x
    ensures r == st.(maxX := r.maxX, maxY := r.maxY)
  {
    st.(maxX := Max(st.maxX, st.x), maxY := Max(st.maxY, st.y))
  }

  /**
    `ttf_process_string` from `pos`: steps until the terminator. The extents never shrink and,
    once a step has run, bound the cursor; the line anchor and every flag other than OUTLINE are
    kept.
  */
  function Process(res: Resources, st: DrawState, s: seq<Byte>, pos: nat): (r: DrawState)
    requires ValidState(st)
    ensures ValidState(r)
    ensures r.startX == st.startX && r.startY == st.startY
    ensures r.flags.(outline := false) == st.flags.(outline := false)
    ensures (r.flags.noDraw <==> st.flags.noDraw) && (r.flags.ttf <==> st.flags.ttf)
    ensures r.maxX >= st.maxX && r.maxY >= st.maxY
    ensures At(s, pos) == 0 ==> r == st
    ensures At(s, pos) != 0 ==> r.maxX >= r.x && r.maxY >= r.y
    decreases |s| - pos
  {
    if At(s, pos) == 0 then st
    else
      var (st', next) := Step(res, st, s, pos);
      Process(res, Extend(st'), s, next)
  }

  /** One turn of the loop: measuring from `pos` is measuring after one step and the extent update. */
  lemma ProcessUnfold(res: Resources, st: DrawState, s: seq<Byte>, pos: nat)
    requires ValidState(st) && At(s, pos) != 0
    ensures Process(res, st, s, pos) == Process(res, Extend(Step(res, st, s, pos).0), s, Step(res, st, s, pos).1)
  {
  }

  /** The global text settings the measuring routines read (gCurrentFontSpriteBase, gCurrentFontFlags, gUseTrueTypeFont). */
  datatype TextGlobals = TextGlobals(fontSpriteBase: FontBase, fontFlags: Flags, useTrueTypeFont: bool)

  /**
    The record `ttf_get_string_width` starts from: everything at zero, the global font base and
    flags with NO_DRAW added, and TTF when TrueType is in use. Its palette is left uninitialised
    by the source; `MeasureIgnoresPalette` shows that its contents cannot matter.
  */
  function MeasureState(g: TextGlobals): (st: DrawState)
    ensures ValidState(st) && st.flags.noDraw
    ensures st.x == st.y == st.maxX == st.maxY == st.startX == st.startY == 0
    ensures st.flags.ttf <==> (g.useTrueTypeFont || g.fontFlags.ttf)
    ensures st.flags.(noDraw := g.fontFlags.noDraw, ttf := g.fontFlags.ttf) == g.fontFlags
  {
    DrawState(0, 0, 0, 0, 0, 0,
              g.fontFlags.(noDraw := true, ttf := g.fontFlags.ttf || g.useTrueTypeFont),
              [0, 0, 0, 0, 0, 0, 0, 0], g.fontSpriteBase)
  }

  /** `ttf_get_string_width`: the right extent reached while measuring; never negative. */
  function StringWidth(res: Resources, g: TextGlobals, s: seq<Byte>): (w: int)
    ensures w >= 0
  {
    Process(res, MeasureState(g), s, 0).maxX
  }

  // ---------------------------------------------------------------------------------------------
  // Measuring depends only on the string up to its terminator, and never on the palette.

  /** A glyph run ends on the codepoint scan that starts where it starts. */
  lemma {:induction false} RunEndOnPath(res: Resources, s: seq<Byte>, p: nat, isTtf: bool)
    ensures OnPath(s, p, RunEnd(res, s, p, isTtf))
    decreases |s| - p
  {
    var c := At(s, p);
    if !(IsFormatCode(c) || (isTtf && res.useSpriteFor(c))) {
      RunEndOnPath(res, s, p + 1, isTtf);
    }
  }

  /** A glyph run reads only the bytes up to its end. */
  lemma {:induction false} RunEndFrame(res: Resources, s: seq<Byte>, t: seq<Byte>, p: nat, isTtf: bool)
    requires forall i :: p <= i <= RunEnd(res, s, p, isTtf) ==> At(s, i) == At(t, i)
    ensures RunEnd(res, t, p, isTtf) == RunEnd(res, s, p, isTtf)
    decreases |s| - p
  {
    var c := At(s, p);
    if !(IsFormatCode(c) || (isTtf && res.useSpriteFor(c))) {
      RunEndFrame(res, s, t, p + 1, isTtf);
    }
  }

  /** A format code reads only itself and its argument bytes. */
  lemma FormatCodeFrame(res: Resources, st: DrawState, s: seq<Byte>, t: seq<Byte>, pos: nat)
    requires ValidState(st) && IsFormatCode(At(s, pos)) && At(s, pos) != 0
    requires forall i :: pos <= i < pos + Advance(At(s, pos)) ==> At(s, i) == At(t, i)
    ensures FormatCodeState(res, st, t, pos) == FormatCodeState(res, st, s, pos)
  {
    var c := At(s, pos);
    assert At(t, pos) == c;
    if c == MoveX || c == AdjustPalette {
      assert At(t, pos + 1) == At(s, pos + 1);
    } else if c == InlineSprite {
      assert At(t, pos + 1) == At(s, pos + 1) && At(t, pos + 2) == At(s, pos + 2);
      assert At(t, pos + 3) == At(s, pos + 3) && At(t, pos + 4) == At(s, pos + 4);
    }
  }

  /** A glyph run ends on the codepoint scan, and a string agreeing up to the terminator has the same run there. */
  lemma RunAgrees(res: Resources, s: seq<Byte>, t: seq<Byte>, pos: nat, isTtf: bool)
    requires At(s, pos) != 0
    requires forall i :: pos <= i <= ScanEnd(s, pos) ==> At(s, i) == At(t, i)
    ensures pos < |t| && var e := RunEnd(res, s, pos, isTtf);
      && OnPath(s, pos, e) && RunEnd(res, t, pos, isTtf) == e && e <= |t| && t[pos..e] == s[pos..e]
  {
    var e := RunEnd(res, s, pos, isTtf);
    assert At(t, pos) == At(s, pos);
    RunEndOnPath(res, s, pos, isTtf);
    OnPathScanEnd(s, pos, e);
    assert forall i :: pos <= i <= e ==> At(s, i) == At(t, i) by {
      forall i | pos <= i <= e ensures At(s, i) == At(t, i) {
        assert i <= ScanEnd(s, pos);
      }
    }
    RunEndFrame(res, s, t, pos, isTtf);
    assert t[pos..e] == s[pos..e] by {
      forall i | pos <= i < e ensures t[i] == s[i] {
        assert At(t, i) == At(s, i);
      }
    }
  }

  /** Two strings with the same run at `pos` give the same glyph-run step. */
  lemma GlyphRunFrame(res: Resources, st: DrawState, s: seq<Byte>, t: seq<Byte>, pos: nat)
    requires pos <= |s| && pos <= |t|
    requires var e := RunEnd(res, s, pos, st.flags.ttf);
      RunEnd(res, t, pos, st.flags.ttf) == e && e <= |t| && t[pos..e] == s[pos..e]
    ensures GlyphRun(res, st, t, pos) == GlyphRun(res, st, s, pos)
  {
    var e := RunEnd(res, s, pos, st.flags.ttf);
    var r := (st.(x := st.x + RawAdvance(res, st, s[pos..e])), e);
    assert GlyphRun(res, st, s, pos) == r;
    assert GlyphRun(res, st, t, pos) == r;
  }

  /** One step reads only bytes before its terminator, and lands on the codepoint scan. */
  lemma StepFrame(res: Resources, st: DrawState, s: seq<Byte>, t: seq<Byte>, pos: nat)
    requires ValidState(st) && At(s, pos) != 0
    requires forall i :: pos <= i <= ScanEnd(s, pos) ==> At(s, i) == At(t, i)
    ensures At(t, pos) != 0
    ensures Step(res, st, t, pos) == Step(res, st, s, pos)
    ensures OnPath(s, pos, Step(res, st, s, pos).1)
  {
    var c := At(s, pos);
    assert At(t, pos) == c;
    if IsFormatCode(c) {
      var next := FormatCodeNext(c, pos);
      assert OnPath(s, next, next);
      FormatCodeFrame(res, st, s, t, pos);
    } else if st.flags.ttf && res.useSpriteFor(c) {
      assert OnPath(s, pos + 1, pos + 1);
    } else {
      RunAgrees(res, s, t, pos, st.flags.ttf);
      GlyphRunFrame(res, st, s, t, pos);
    }
  }

  /** Measuring from `pos` reads only the bytes up to the terminator the scan stops at. */
  lemma {:induction false} ProcessFrame(res: Resources, st: DrawState, s: seq<Byte>, t: seq<Byte>, pos: nat)
    requires ValidState(st)
    requires forall i :: pos <= i <= ScanEnd(s, pos) ==> At(s, i) == At(t, i)
    ensures Process(res, st, t, pos) == Process(res, st, s, pos)
    decreases |s| - pos
  {
    if At(s, pos) != 0 {
      StepFrame(res, st, s, t, pos);
      var (st', next) := Step(res, st, s, pos);
      OnPathScanEnd(s, pos, next);
      ProcessFrame(res, Extend(st'), s, t, next);
    }
  }

  /** Two strings that agree up to the first one's terminator have the same width. */
  lemma StringWidthFrame(res: Resources, g: TextGlobals, s: seq<Byte>, t: seq<Byte>)
    requires forall i :: 0 <= i <= ScanEnd(s, 0) ==> At(s, i) == At(t, i)
    ensures StringWidth(res, g, t) == StringWidth(res, g, s)
  {
    ProcessFrame(res, MeasureState(g), s, t, 0);
  }

  /** Two states that differ at most in their palettes. */
  predicate SameButPalette(a: DrawState, b: DrawState) {
    a.(palette := b.palette) == b
  }

  lemma StepIgnoresPalette(res: Resources, a: DrawState, b: DrawState, s: seq<Byte>, pos: nat)
    requires ValidState(a) && ValidState(b) && SameButPalette(a, b) && At(s, pos) != 0
    ensures Step(res, a, s, pos).1 == Step(res, b, s, pos).1
    ensures SameButPalette(Step(res, a, s, pos).0, Step(res, b, s, pos).0)
  {
    if IsFormatCode(At(s, pos)) {
      FormatCodeEffects(res, a, s, pos);
      FormatCodeEffects(res, b, s, pos);
    }
  }

  /** Measuring gives the same cursor, extents, flags and font base whatever the palette holds. */
  lemma {:induction false} ProcessIgnoresPalette(res: Resources, a: DrawState, b: DrawState, s: seq<Byte>, pos: nat)
    requires ValidState(a) && ValidState(b) && SameButPalette(a, b)
    ensures SameButPalette(Process(res, a, s, pos), Process(res, b, s, pos))
    decreases |s| - pos
  {
    if At(s, pos) != 0 {
      StepIgnoresPalette(res, a, b, s, pos);
      var (a', next) := Step(res, a, s, pos);
      var (b', _) := Step(res, b, s, pos);
      ProcessIgnoresPalette(res, Extend(a'), Extend(b'), s, next);
    }
  }

  /** The width `ttf_get_string_width` returns does not depend on its uninitialised palette. */
  lemma MeasureIgnoresPalette(res: Resources, g: TextGlobals, s: seq<Byte>, palette: seq<Byte>)
    requires |palette| == 8
    ensures Process(res, MeasureState(g).(palette := palette), s, 0).maxX == StringWidth(res, g, s)
  {
    ProcessIgnoresPalette(res, MeasureState(g).(palette := palette), MeasureState(g), s, 0);
  }
}
