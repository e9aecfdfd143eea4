/**
  The imperative interpreter: the `text_draw_info` record of src/openrct2/drawing/String.cpp as a
  class whose methods update its fields and its 8-byte palette in place, each proved to leave the
  state that the corresponding function of `TextInterp` or `TextState` computes.
*/
module TextDrawing {
  import opened Common
  import opened FormatCodes
  import opened TextState
  import opened TextInterp

  /** The four byte stores of a colour word into palette[1..4], low byte first. */
  method StoreColourWord(palette: array<Byte>, v: bv32)
    requires palette.Length == 8
    modifies palette
    ensures palette[..] == SetColourBytes(old(palette[..]), StoredBytes(v))
  {
    palette[1] := (v & 0xFF) as Byte;
    palette[2] := ((v >> 8) & 0xFF) as Byte;
    palette[3] := ((v >> 16) & 0xFF) as Byte;
    palette[4] := ((v >> 24) & 0xFF) as Byte;
  }

  /** `colour_char`: stores the byte-swapped text-palette word for `colour` into palette[1..4]. */
  method ColourChar(res: Resources, colour: Byte, flags: Flags, palette: array<Byte>)
    requires palette.Length == 8
    modifies palette
    ensures palette[..] == SetColourBytes(old(palette[..]), ColourCharBytes(res, colour, flags))
  {
    var colour32 := ColourCharWord(res, colour, flags);
    StoreColourWord(palette, colour32);
    ColourCharStoresWord(res, colour, flags);
  }

  /** `colour_char_window`: stores the window colour's shade, outlined or not, into palette[1..4]. */
  method ColourCharWindow(res: Resources, colour: Byte, flags: Flags, palette: array<Byte>)
    requires palette.Length == 8
    modifies palette
    ensures palette[..] == SetColourBytes(old(palette[..]), ColourCharWindowBytes(res, colour, flags))
  {
    var eax := ColourCharWindowWord(res, colour, flags);
    StoreColourWord(palette, eax);
    ColourCharWindowStoresWord(res, colour, flags);
  }

  /**
    The two low bytes of the 32-bit word ADJUST_PALETTE stores at palette[1]: byte 249 of the
    element plus 256, cut to its low byte unless outlining.
  */
  function PaletteLowBytes(b249: Byte, outline: bool): (r: (Byte, Byte))
    ensures r == (b249, if outline then 1 else 0)
  {
    var ebx: bv32 := b249 as bv32 + 256;
    var stored := if outline then ebx else ebx & 0xFF;
    ((stored & 0xFF) as Byte, ((stored >> 8) & 0xFF) as Byte)
  }

  class TextDrawInfo {
    var startX: int
    var startY: int
    var x: int
    var y: int
    var maxX: int
    var maxY: int
    var flags: Flags
    const palette: array<Byte>
    var fontSpriteBase: FontBase

    ghost predicate Valid()
      reads this
    {
      palette.Length == 8
    }

    /** The record as a value. */
    function State(): (st: DrawState)
      reads this, palette
      ensures Valid() ==> ValidState(st)
    {
      DrawState(startX, startY, x, y, maxX, maxY, flags, palette[..], fontSpriteBase)
    }

    /** A record with every number at zero and a zero palette. */
    constructor ()
      ensures Valid() && fresh(palette)
      ensures State() == DrawState(0, 0, 0, 0, 0, 0, NoFlags, [0, 0, 0, 0, 0, 0, 0, 0], FontBaseSmall)
    {
      startX, startY, x, y, maxX, maxY := 0, 0, 0, 0, 0, 0;
      flags := NoFlags;
      fontSpriteBase := FontBaseSmall;
      palette := new Byte[8](_ => 0);
    }

    /** `ttf_draw_character_sprite`: advance by the glyph's width (the glyph itself is not drawn here). */
    method DrawCharacterSprite(res: Resources, c: Byte)
      requires Valid()
      modifies this
      ensures Valid() && State() == CharacterSprite(res, old(State()), c)
    {
      var characterWidth := res.glyphWidth(fontSpriteBase, c);
      x := x + characterWidth;
    }

    /** `ttf_draw_string_raw_sprite`: a glyph per codepoint up to the first format code. */
    method DrawStringRawSprite(res: Resources, text: seq<Byte>)
      requires Valid()
      modifies this
      ensures Valid() && State() == old(State()).(x := old(x) + SpriteAdvance(res, old(fontSpriteBase), text, 0))
    {
      var ch := 0;
      while !IsFormatCode(At(text, ch))
        invariant Valid() && ch <= |text|
        invariant State() == old(State()).(x := x)
        invariant x + SpriteAdvance(res, fontSpriteBase, text, ch) == old(x) + SpriteAdvance(res, fontSpriteBase, text, 0)
        decreases |text| - ch
      {
        DrawCharacterSprite(res, At(text, ch));
        ch := ch + 1;
      }
    }

    /** `ttf_draw_string_raw_ttf` in measure-only mode. */
    method DrawStringRawTtf(res: Resources, text: seq<Byte>)
      requires Valid() && flags.noDraw
      modifies this
      ensures Valid()
      ensures State() == old(State()).(x := old(x) + (
        if !res.ttfReady then 0
        else if !res.ttfHasFont(old(fontSpriteBase)) then SpriteAdvance(res, old(fontSpriteBase), text, 0)
        else res.ttfRunWidth(old(fontSpriteBase), CString(text))))
    {
      if !res.ttfReady {
        return;
      }
      if !res.ttfHasFont(fontSpriteBase) {
        DrawStringRawSprite(res, text);
        return;
      }
      x := x + res.ttfRunWidth(fontSpriteBase, CString(text));
    }

    /** `ttf_draw_string_raw`: TrueType when the TTF flag is set, the sprite font otherwise. */
    method DrawStringRaw(res: Resources, text: seq<Byte>)
      requires Valid() && flags.noDraw
      modifies this
      ensures Valid() && State() == old(State()).(x := old(x) + RawAdvance(res, old(State()), text))
    {
      if flags.ttf {
        DrawStringRawTtf(res, text);
      } else {
        DrawStringRawSprite(res, text);
      }
    }
  
    /** The ADJUST_PALETTE case of `ttf_process_format_code`: copies bytes of the selected G1 element into the palette. */
    method AdjustTextPalette(res: Resources, index: Byte)
      requires Valid()
      modifies palette
      ensures Valid()
      ensures State() == match res.paletteSprite(index)
        case None => old(State())
        case Some(g) => old(State()).(palette := AdjustedPalette(old(palette[..]), g, flags))
    {
      var g := res.paletteSprite(index);
      if g.Some? {
        ghost var before := palette[..];
        var (low, high) := PaletteLowBytes(g.value.b249, flags.outline);
        palette[1], palette[2] := low, high;
        palette[3], palette[4] := g.value.b247, g.value.b248;
        palette[5], palette[6] := g.value.b250, g.value.b251;
        assert palette[..] == AdjustedPalette(before, g.value, flags);
      }
    }

    /** `ttf_process_format_code`: interprets the code at `pos` and returns the position after its arguments. */
    method ProcessFormatCode(res: Resources, s: seq<Byte>, pos: nat) returns (next: nat)
      requires Valid()
      modifies this, palette
      ensures Valid() && State() == FormatCodeState(res, old(State()), s, pos)
      ensures next == FormatCodeNext(At(s, pos), pos)
    {
      var c := At(s, pos);
      next := pos + 1;
      if c == MoveX {
        x := startX + At(s, next) as int;
        next := next + 1;
      } else if c == AdjustPalette {
        AdjustTextPalette(res, At(s, next));
        next := next + 1;
      } else if c == Format3 || c == Format4 {
        next := next + 1;
      } else if c == Newline {
        x := startX;
        y := y + res.lineHeight(fontSpriteBase);
      } else if c == NewlineSmaller {
        x := startX;
        y := y + res.lineHeightSmall(fontSpriteBase);
      } else if c == TinyFont {
        fontSpriteBase := FontBaseTiny;
      } else if c == SmallFont {
        fontSpriteBase := FontBaseSmall;
      } else if c == MediumFont {
        fontSpriteBase := FontBaseMedium;
      } else if c == BigFont {
        fontSpriteBase := FontBaseBig;
      } else if c == FormatOutline {
        flags := flags.(outline := true);
      } else if c == FormatOutlineOff {
        flags := flags.(outline := false);
      } else if c == WindowColour1 {
        ColourCharWindow(res, res.windowColours.0, flags, palette);
      } else if c == WindowColour2 {
        ColourCharWindow(res, res.windowColours.1, flags, palette);
      } else if c == WindowColour3 {
        ColourCharWindow(res, res.windowColours.2, flags, palette);
      } else if c == Format16 {
      } else if c == InlineSprite {
        var imageId := Word32(At(s, next), At(s, next + 1), At(s, next + 2), At(s, next + 3));
        var g := res.spriteWidth(imageId % 0x8_0000);
        if g.Some? {
          x := x + g.value;
        }
        next := next + 4;
      } else if IsColourCode(c) {
        ColourChar(res, c - ColourCodeStart, flags, palette);
      } else if c <= 0x16 {
        next := next + 2;
      } else {
        next := next + 4;
      }
    }

    /** `ttf_process_glyph_run`: finds the end of the run at `pos` and measures the run as one string. */
    method ProcessGlyphRun(res: Resources, s: seq<Byte>, pos: nat) returns (next: nat)
      requires Valid() && flags.noDraw && pos <= |s|
      modifies this
      ensures Valid() && (State(), next) == GlyphRun(res, old(State()), s, pos)
    {
      var isTtf := flags.ttf;
      var ch := pos;
      while !IsFormatCode(At(s, ch)) && !(isTtf && res.useSpriteFor(At(s, ch)))
        invariant pos <= ch <= |s| && RunEnd(res, s, ch, isTtf) == RunEnd(res, s, pos, isTtf)
        decreases |s| - ch
      {
        ch := ch + 1;
      }
      MeasureRun(res, s, pos, ch);
      next := ch;
    }

    /** The measuring half of `ttf_process_glyph_run`, for the run `s[pos..e]` that ends at a format code or sprite codepoint. */
    method MeasureRun(res: Resources, s: seq<Byte>, pos: nat, e: nat)
      requires Valid() && flags.noDraw && pos <= e <= |s| && e == RunEnd(res, s, pos, flags.ttf)
      modifies this
      ensures Valid() && State() == old(State()).(x := old(x) + RawAdvance(res, old(State()), s[pos..e]))
    {
      RunBuffers(res, State(), s, pos);
      if At(s, e) == 0 {
        DrawStringRaw(res, s[pos..]);
      } else {
        // The run is copied into a scratch buffer and terminated there.
        var buffer := s[pos..e] + [0];
        DrawStringRaw(res, buffer);
      }
    }

    /** `ttf_process_string`: the interpreter loop, updating the extents after every step. */
    method ProcessString(res: Resources, s: seq<Byte>)
      requires Valid() && flags.noDraw
      modifies this, palette
      ensures Valid() && State() == Process(res, old(State()), s, 0)
    {
      var isTtf := flags.ttf;
      var ch: nat := 0;
      while At(s, ch) != 0
        invariant Valid() && flags.noDraw && (flags.ttf <==> isTtf)
        invariant Process(res, State(), s, ch) == Process(res, old(State()), s, 0)
        decreases |s| - ch
      {
        ch := ProcessStep(res, s, ch, isTtf);
        UpdateExtents();
      }
    }

    /** The extents catch up with the cursor. */
    method UpdateExtents()
      requires Valid()
      modifies this
      ensures Valid() && State() == Extend(old(State()))
    {
      maxX := Max(maxX, x);
      maxY := Max(maxY, y);
    }

    /** The body of the `ttf_process_string` loop before the extents are updated. */
    method ProcessStep(res: Resources, s: seq<Byte>, ch: nat, isTtf: bool) returns (next: nat)
      requires Valid() && flags.noDraw && (flags.ttf <==> isTtf) && At(s, ch) != 0
      modifies this, palette
      ensures Valid() && (State(), next) == Step(res, old(State()), s, ch)
    {
      var c := At(s, ch);
      if IsFormatCode(c) {
        next := ProcessFormatCode(res, s, ch);
      } else if isTtf && res.useSpriteFor(c) {
        DrawCharacterSprite(res, c);
        next := ch + 1;
      } else {
        next := ProcessGlyphRun(res, s, ch);
      }
    }

    /** The first stage of `ttf_process_initial_colour`: shading flags and font base. */
    method SeedShading(colour: bv32)
      requires Valid()
      modifies this
      ensures Valid() && State() == SeededState(colour, old(State()))
    {
      flags := ClearShading(flags);
      if AsSigned16(fontSpriteBase) < 0 {
        flags := flags.(dark := true);
        if AsSigned16(fontSpriteBase) == -2 * FontSpriteGlyphCount {
          flags := flags.(extraDark := true);
        }
        fontSpriteBase := FontBaseMedium;
      }
      if colour & ColourFlagOutline != 0 {
        flags := flags.(outline := true);
      }
    }

    /** Packs the shade pair chosen by DARK and EXTRA_DARK into palette[1..4]. */
    method SetInsetColour(shades: ColourShades)
      requires Valid()
      modifies palette
      ensures Valid() && palette[..] == SetColourBytes(old(palette[..]), InsetBytes(shades, flags))
    {
      var (low, high) := InsetShades(shades, flags);
      StoreColourWord(palette, InsetWord(low, high));
      InsetStoresWord(shades, flags);
    }

    /** The opaque stage of `ttf_process_initial_colour`. */
    method InitialWindowColour(res: Resources, plain: bv32)
      requires Valid()
      modifies palette
      ensures Valid() && State() == WindowColourState(res, plain, old(State()))
    {
      if !flags.inset {
        ColourCharWindow(res, (plain & 0xFF) as Byte, flags, palette);
      }
    }

    /** The inset stage of `ttf_process_initial_colour`. */
    method InitialInsetColour(res: Resources, plain: bv32)
      requires Valid()
      modifies this, palette
      ensures Valid() && State() == InsetColourState(res, plain, old(State()))
    {
      flags := flags.(inset := true);
      SetInsetColour(res.colourMap(plain & !ColourFlagInset));
    }

    /** `ttf_process_initial_colour`: seeds the flags, font base and palette from a colour argument. */
    method ProcessInitialColour(res: Resources, colour: bv32)
      requires Valid()
      modifies this, palette
      ensures Valid() && State() == InitialColour(res, colour, old(State()))
    {
      if colour != TextColour254 && colour != TextColour255 {
        SeedShading(colour);
        var plain := colour & !ColourFlagOutline;
        if plain & ColourFlagInset == 0 {
          InitialWindowColour(res, plain);
        } else {
          InitialInsetColour(res, plain);
        }
      }
    }
  }

  /** `gfx_get_string_width` (through `ttf_get_string_width`): measures a string with nothing drawn. */
  method GetStringWidth(res: Resources, g: TextGlobals, s: seq<Byte>) returns (w: int)
    ensures w == StringWidth(res, g, s)
  {
    var info := new TextDrawInfo();
    info.fontSpriteBase := g.fontSpriteBase;
    info.flags := g.fontFlags;
    info.startX, info.startY, info.x, info.y, info.maxX, info.maxY := 0, 0, 0, 0, 0, 0;
    info.flags := info.flags.(noDraw := true);
    if g.useTrueTypeFont {
      info.flags := info.flags.(ttf := true);
    }
    assert info.State() == MeasureState(g);
    info.ProcessString(res, s);
    w := info.maxX;
  }
}
