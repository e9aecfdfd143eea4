/**
  The state threaded through one pass of the text interpreter (the `text_draw_info` record of
  src/openrct2/drawing/String.cpp), the tables it consults, and the colour set-up it performs.
  The tables (glyph widths, line heights, G1 sprites, ColourMapA, the text palette sprite, the
  TrueType backend) are not part of this model: they are fields of `Resources`, any total function.
*/
module TextState {
  import opened Common

  /** The TEXT_DRAW_FLAG_* bits the interpreter reads or writes, one field per bit. */
  datatype Flags = Flags(
    inset: bool, outline: bool, dark: bool, extraDark: bool, yOffsetEffect: bool, ttf: bool, noDraw: bool)

  const NoFlags: Flags := Flags(false, false, false, false, false, false, false)

  /** The flags with INSET, OUTLINE, DARK and EXTRA_DARK all off. */
  function ClearShading(f: Flags): Flags
  {
    f.(inset := false, outline := false, dark := false, extraDark := false)
  }

  // Bits carried by a colour argument (COLOUR_FLAG_*, TEXT_COLOUR_*).
  const ColourFlagOutline: bv32 := 0x20
  const ColourFlagInset: bv32 := 0x40
  const ColourFlagTranslucent: Byte := 0x80
  const TextColour254: bv32 := 254
  const TextColour255: bv32 := 255

  /** A font sprite base, stored as an unsigned 16-bit value; the dark bases are negative when read as signed. */
  type FontBase = x: int | 0 <= x < 0x1_0000

  /** FONT_SPRITE_GLYPH_COUNT: every font has this many glyph sprites, and the bases are multiples of it. */
  const FontSpriteGlyphCount := 224

  const FontBaseSmall: FontBase := 0 * FontSpriteGlyphCount
  const FontBaseMedium: FontBase := 1 * FontSpriteGlyphCount
  const FontBaseTiny: FontBase := 2 * FontSpriteGlyphCount
  const FontBaseBig: FontBase := 3 * FontSpriteGlyphCount
  const FontBaseMediumDark: FontBase := 0x1_0000 - FontSpriteGlyphCount
  const FontBaseMediumExtraDark: FontBase := 0x1_0000 - 2 * FontSpriteGlyphCount

  /** The `(sint16)` reading of a font base. */
  function AsSigned16(b: FontBase): (r: int)
    ensures -0x8000 <= r < 0x8000
    ensures r < 0 <==> b >= 0x8000
    ensures r == -2 * FontSpriteGlyphCount <==> b == FontBaseMediumExtraDark
    ensures r == -FontSpriteGlyphCount <==> b == FontBaseMediumDark
    ensures r % 0x1_0000 == b
  {
    if b >= 0x8000 then b - 0x1_0000 else b
  }

  /** The shades of one entry of ColourMapA that the colour set-up reads. */
  datatype ColourShades = ColourShades(dark: Byte, midDark: Byte, midLight: Byte, light: Byte, lighter: Byte, colour11: Byte)

  /** One 32-bit word of the SPR_TEXT_PALETTE element, as its four bytes in memory order. */
  datatype PaletteWord = PaletteWord(w0: Byte, w1: Byte, w2: Byte, w3: Byte)

  /** Bytes 247 to 251 of the G1 element that ADJUST_PALETTE selects. */
  datatype PaletteSprite = PaletteSprite(b247: Byte, b248: Byte, b249: Byte, b250: Byte, b251: Byte)

  datatype Resources = Resources(
    glyphWidth: (FontBase, Byte) -> nat,            // font_sprite_get_codepoint_width
    lineHeight: FontBase -> int,                    // font_get_line_height
    lineHeightSmall: FontBase -> int,               // font_get_line_height_small
    spriteWidth: nat -> Option<int>,                // width of gfx_get_g1_element(id); None for a missing element
    textPalette: Option<Byte -> PaletteWord>,       // the words of the SPR_TEXT_PALETTE element, if it exists
    paletteSprite: Byte -> Option<PaletteSprite>,   // gfx_get_g1_element(palette_to_g1_offset[i])
    colourMap: bv32 -> ColourShades,                // ColourMapA
    windowColours: (Byte, Byte, Byte),              // gCurrentWindowColours
    ttfReady: bool,                                 // ttf_initialise()
    ttfHasFont: FontBase -> bool,                   // a loaded TrueType face for that font
    ttfRunWidth: (FontBase, seq<Byte>) -> nat,      // ttf_getwidth_cache_get_or_add
    useSpriteFor: Byte -> bool                      // utf8_should_use_sprite_for_codepoint
  )

  /** The `text_draw_info` record as a value (the per-glyph y-offset cursor is not modelled). */
  datatype DrawState = DrawState(
    startX: int, startY: int, x: int, y: int, maxX: int, maxY: int,
    flags: Flags, palette: seq<Byte>, fontSpriteBase: FontBase)

  predicate ValidState(st: DrawState) {
    |st.palette| == 8
  }

  /** The palette with entries 1 to 4 replaced, as the 32-bit stores of the colour routines leave it. */
  function SetColourBytes(p: seq<Byte>, c: seq<Byte>): (r: seq<Byte>)
    requires |p| == 8 && |c| == 4
    ensures |r| == 8 && r[0] == p[0] && r[1..5] == c && r[5..] == p[5..]
  {
    p[..1] + c + p[5..]
  }

  /** Four bytes in memory order read back as one little-endian 32-bit word. */
  function Bits32(b0: Byte, b1: Byte, b2: Byte, b3: Byte): bv32
  {
    b0 as bv32 | (b1 as bv32 << 8) | (b2 as bv32 << 16) | (b3 as bv32 << 24)
  }

  /**
    The four bytes the stores `p[0] = v & 0xFF`, `p[1] = (v >> 8) & 0xFF`, `p[2] = (v >> 16) & 0xFF`,
    `p[3] = (v >> 24) & 0xFF` leave: reading them back gives `v`.
  */
  function StoredBytes(v: bv32): (c: seq<Byte>)
    ensures |c| == 4 && Bits32(c[0], c[1], c[2], c[3]) == v
  {
    [(v & 0xFF) as Byte, ((v >> 8) & 0xFF) as Byte, ((v >> 16) & 0xFF) as Byte, ((v >> 24) & 0xFF) as Byte]
  }

  /** Storing a word read from four bytes writes those bytes back. */
  lemma StoredBits(b0: Byte, b1: Byte, b2: Byte, b3: Byte)
    ensures StoredBytes(Bits32(b0, b1, b2, b3)) == [b0, b1, b2, b3]
  {
  }

  /** `bswap`: the word with its four bytes in reverse order. */
  function Bswap32(v: bv32): bv32
  {
    (v << 24) | ((v << 8) & 0xFF_0000) | ((v >> 8) & 0xFF00) | (v >> 24)
  }

  /** A byte swap reverses the bytes of a word, and swapping twice gives the word back. */
  lemma BswapReverses(b0: Byte, b1: Byte, b2: Byte, b3: Byte)
    ensures Bswap32(Bits32(b0, b1, b2, b3)) == Bits32(b3, b2, b1, b0)
    ensures Bswap32(Bswap32(Bits32(b0, b1, b2, b3))) == Bits32(b0, b1, b2, b3)
  {
  }

  /** The mask `0xFF0000FF` keeps the outer two bytes of a word and clears the middle two. */
  lemma MaskOuterBytes(b0: Byte, b1: Byte, b2: Byte, b3: Byte)
    ensures Bits32(b0, b1, b2, b3) & 0xFF0000FF == Bits32(b0, 0, 0, b3)
  {
  }

  /** A text-palette word as the `uint32` read from memory. */
  function PaletteValue(w: PaletteWord): bv32
  {
    Bits32(w.w0, w.w1, w.w2, w.w3)
  }

  /**
    The value `colour_char` computes: the byte-swapped text-palette word (0 without the palette
    sprite), masked with `0x0FF0000FF` unless outlining.
  */
  function ColourCharWord(res: Resources, colour: Byte, flags: Flags): bv32
  {
    var colour32: bv32 := if res.textPalette.Some? then Bswap32(PaletteValue(res.textPalette.value(colour))) else 0;
    if flags.outline then colour32 else colour32 & 0x0FF0000FF
  }

  /** Byte-swapping a text-palette word reverses its bytes. */
  lemma SwappedBits(w: PaletteWord)
    ensures Bswap32(PaletteValue(w)) == Bits32(w.w3, w.w2, w.w1, w.w0)
  {
    BswapReverses(w.w0, w.w1, w.w2, w.w3);
  }

  /** The swapped word masked with `0x0FF0000FF` keeps the word's last and first bytes only. */
  lemma MaskedSwappedBits(w: PaletteWord)
    ensures Bswap32(PaletteValue(w)) & 0x0FF0000FF == Bits32(w.w3, 0, 0, w.w0)
  {
    SwappedBits(w);
    MaskOuterBytes(w.w3, w.w2, w.w1, w.w0);
  }

  /**
    The bytes `colour_char` stores in palette[1..4], in memory order: the text-palette word's bytes
    in reverse order (all zero without the palette sprite), of which only the outer two survive
    unless outlining.
  */
  function ColourCharBytes(res: Resources, colour: Byte, flags: Flags): (c: seq<Byte>)
    ensures |c| == 4
    ensures res.textPalette.None? ==> c == [0, 0, 0, 0]
    ensures res.textPalette.Some? ==>
      var w := res.textPalette.value(colour);
      c[0] == w.w3 && c[3] == w.w0 &&
      (flags.outline ==> c[1] == w.w2 && c[2] == w.w1)
    ensures !flags.outline ==> c[1] == 0 && c[2] == 0
  {
    var swapped :=
      if res.textPalette.Some? then
        var w := res.textPalette.value(colour);
        [w.w3, w.w2, w.w1, w.w0]
      else [0, 0, 0, 0];
    if flags.outline then swapped else [swapped[0], 0, 0, swapped[3]]
  }

  /**
    The bytes are what the four stores of the value `colour_char` computes leave, so read back as a
    word they are that value.
  */
  lemma ColourCharStoresWord(res: Resources, colour: Byte, flags: Flags)
    ensures ColourCharBytes(res, colour, flags) == StoredBytes(ColourCharWord(res, colour, flags))
    ensures var c := ColourCharBytes(res, colour, flags);
      Bits32(c[0], c[1], c[2], c[3]) == ColourCharWord(res, colour, flags)
  {
    if res.textPalette.Some? {
      var w := res.textPalette.value(colour);
      if flags.outline {
        SwappedBits(w);
        StoredBits(w.w3, w.w2, w.w1, w.w0);
      } else {
        MaskedSwappedBits(w);
        StoredBits(w.w3, 0, 0, w.w0);
      }
    } else {
      StoredBits(0, 0, 0, 0);
    }
  }

  /**
    The value `colour_char_window` computes: the `colour_11` shade of the opaque colour, with
    `0x0A0A00` or-ed in when outlining.
  */
  function ColourCharWindowWord(res: Resources, colour: Byte, flags: Flags): (v: bv32)
    ensures v == res.colourMap((colour & 0x7F) as bv32).colour11 as bv32 + (if flags.outline then 0x0A0A00 else 0)
  {
    var eax: bv32 := res.colourMap((colour & !ColourFlagTranslucent) as bv32).colour11 as bv32;
    if flags.outline then eax | 0x0A0A00 else eax
  }

  /** The shade with `0x0A0A00` or-ed in when outlining is the shade, 0x0A twice or 0 twice, and 0. */
  lemma WindowBits(shade: Byte, outline: bool)
    ensures outline ==> shade as bv32 | 0x0A0A00 == Bits32(shade, 0x0A, 0x0A, 0)
    ensures !outline ==> shade as bv32 == Bits32(shade, 0, 0, 0)
  {
  }

  /**
    The bytes `colour_char_window` stores in palette[1..4], in memory order: the opaque window
    colour's `colour_11` shade, followed by 0x0A twice when outlining, and a zero top byte.
  */
  function ColourCharWindowBytes(res: Resources, colour: Byte, flags: Flags): (c: seq<Byte>)
    ensures |c| == 4
    ensures c[0] == res.colourMap((colour & 0x7F) as bv32).colour11
    ensures c[1] == c[2] == (if flags.outline then 0x0A else 0)
    ensures c[3] == 0
  {
    var shade := res.colourMap((colour & !ColourFlagTranslucent) as bv32).colour11;
    var middle: Byte := if flags.outline then 0x0A else 0;
    [shade, middle, middle, 0]
  }

  /**
    The bytes are what the four stores of the value `colour_char_window` computes leave, so read
    back as a word they are that value.
  */
  lemma ColourCharWindowStoresWord(res: Resources, colour: Byte, flags: Flags)
    ensures ColourCharWindowBytes(res, colour, flags) == StoredBytes(ColourCharWindowWord(res, colour, flags))
    ensures var c := ColourCharWindowBytes(res, colour, flags);
      Bits32(c[0], c[1], c[2], c[3]) == ColourCharWindowWord(res, colour, flags)
  {
    var shade := res.colourMap((colour & !ColourFlagTranslucent) as bv32).colour11;
    WindowBits(shade, flags.outline);
    if flags.outline {
      StoredBits(shade, 0x0A, 0x0A, 0);
    } else {
      StoredBits(shade, 0, 0, 0);
    }
  }

  /** The `(low, high)` shade pair of an inset colour, by darkness. */
  function InsetShades(shades: ColourShades, flags: Flags): (pair: (Byte, Byte))
    ensures !flags.dark ==> pair == (shades.midLight, shades.lighter)
    ensures flags.dark && !flags.extraDark ==> pair == (shades.midDark, shades.light)
    ensures flags.dark && flags.extraDark ==> pair == (shades.dark, shades.midLight)
  {
    if flags.dark then
      if flags.extraDark then (shades.dark, shades.midLight) else (shades.midDark, shades.light)
    else (shades.midLight, shades.lighter)
  }

  /** The word `high << 16 | low` that `ttf_process_initial_colour` packs for an inset colour. */
  function InsetWord(low: Byte, high: Byte): (v: bv32)
    ensures v == low as bv32 + 0x1_0000 * high as bv32
  {
    (high as bv32 << 16) | low as bv32
  }

  /** The bytes stored in palette[1..4] for an inset colour, in memory order: the low shade, 0, the high shade, 0. */
  function InsetBytes(shades: ColourShades, flags: Flags): (c: seq<Byte>)
    ensures |c| == 4 && c[1] == 0 && c[3] == 0
    ensures !flags.dark ==> c[0] == shades.midLight && c[2] == shades.lighter
    ensures flags.dark && !flags.extraDark ==> c[0] == shades.midDark && c[2] == shades.light
    ensures flags.dark && flags.extraDark ==> c[0] == shades.dark && c[2] == shades.midLight
  {
    var (low, high) := InsetShades(shades, flags);
    [low, 0, high, 0]
  }

  /** The bytes are what the four stores of `high << 16 | low` leave, so read back as a word they are that value. */
  lemma InsetStoresWord(shades: ColourShades, flags: Flags)
    ensures var (low, high) := InsetShades(shades, flags);
      && InsetBytes(shades, flags) == StoredBytes(InsetWord(low, high))
      && Bits32(low, 0, high, 0) == InsetWord(low, high)
  {
    var (low, high) := InsetShades(shades, flags);
    assert InsetWord(low, high) == Bits32(low, 0, high, 0);
    StoredBits(low, 0, high, 0);
  }

  /**
    The flags `ttf_process_initial_colour` leaves: the shading flags are cleared, DARK (and
    EXTRA_DARK for the extra-dark base) seeded from a negative font base, OUTLINE and INSET from
    the colour's own bits; every other flag is kept.
  */
  function InitialFlags(colour: bv32, flags: Flags, base: FontBase): (f: Flags)
    ensures f.outline <==> colour & ColourFlagOutline != 0
    ensures f.inset <==> colour & ColourFlagInset != 0
    ensures f.dark <==> AsSigned16(base) < 0
    ensures f.extraDark <==> base == FontBaseMediumExtraDark
    ensures ClearShading(f) == ClearShading(flags)
  {
    var dark := AsSigned16(base) < 0;
    var darkened := ClearShading(flags).(dark := dark, extraDark := dark && AsSigned16(base) == -2 * FontSpriteGlyphCount);
    darkened.(outline := colour & ColourFlagOutline != 0, inset := colour & ColourFlagInset != 0)
  }

  /** The font base `ttf_process_initial_colour` leaves: a dark base becomes MEDIUM. */
  function InitialFontBase(base: FontBase): (b: FontBase)
    ensures AsSigned16(b) >= 0
    ensures AsSigned16(base) < 0 ==> b == FontBaseMedium
    ensures AsSigned16(base) >= 0 ==> b == base
  {
    if AsSigned16(base) < 0 then FontBaseMedium else base
  }

  /** The ColourMapA index of a colour argument: the colour without its OUTLINE and INSET bits. */
  function ColourIndex(colour: bv32): bv32
  {
    colour & !(ColourFlagOutline | ColourFlagInset)
  }

  lemma ColourBits(colour: bv32)
    ensures (colour & !ColourFlagInset) & ColourFlagOutline == colour & ColourFlagOutline
    ensures (colour & !ColourFlagInset) & ColourFlagInset == 0
    ensures (colour & !ColourFlagOutline) & ColourFlagInset == colour & ColourFlagInset
    ensures (colour & !ColourFlagOutline) & !ColourFlagInset == ColourIndex(colour)
  {
  }

  /**
    The first stage of `ttf_process_initial_colour`: the shading flags are cleared, a dark font
    base becomes MEDIUM with DARK (and EXTRA_DARK for the extra-dark base) set, and OUTLINE is
    taken from the colour.
  */
  function SeededState(colour: bv32, st: DrawState): (r: DrawState)
  {
    var dark := AsSigned16(st.fontSpriteBase) < 0;
    var flags := ClearShading(st.flags).(dark := dark, extraDark := dark && AsSigned16(st.fontSpriteBase) == -2 * FontSpriteGlyphCount);
    st.(flags := flags.(outline := colour & ColourFlagOutline != 0), fontSpriteBase := InitialFontBase(st.fontSpriteBase))
  }

  /** The opaque stage: unless INSET is set, the colour is stored as a window colour. */
  function WindowColourState(res: Resources, plain: bv32, st: DrawState): (r: DrawState)
    requires ValidState(st)
    ensures ValidState(r)
  {
    if !st.flags.inset then st.(palette := SetColourBytes(st.palette, ColourCharWindowBytes(res, (plain & 0xFF) as Byte, st.flags)))
    else st
  }

  /** The inset stage: INSET is set and the shade pair of the colour stored. */
  function InsetColourState(res: Resources, plain: bv32, st: DrawState): (r: DrawState)
    requires ValidState(st)
    ensures ValidState(r)
  {
    var flags := st.flags.(inset := true);
    st.(flags := flags, palette := SetColourBytes(st.palette, InsetBytes(res.colourMap(plain & !ColourFlagInset), flags)))
  }

  /** `ttf_process_initial_colour` (what it does is stated by `InitialColourEffect`). */
  function InitialColour(res: Resources, colour: bv32, st: DrawState): (r: DrawState)
    requires ValidState(st)
    ensures ValidState(r)
  {
    if colour == TextColour254 || colour == TextColour255 then st
    else
      var seeded := SeededState(colour, st);
      var plain := colour & !ColourFlagOutline;
      if plain & ColourFlagInset == 0 then WindowColourState(res, plain, seeded)
      else InsetColourState(res, plain, seeded)
  }

  /**
    TEXT_COLOUR_254 and TEXT_COLOUR_255 leave the state alone; any other colour sets the flags and
    font base as `InitialFlags` and `InitialFontBase` say and rewrites palette[1..4] only: with the
    window colour, or for an inset colour with the shade pair chosen by DARK and EXTRA_DARK.
  */
  lemma InitialColourEffect(res: Resources, colour: bv32, st: DrawState)
    requires ValidState(st)
    ensures var r := InitialColour(res, colour, st);
      && (colour == TextColour254 || colour == TextColour255 ==> r == st)
      && (colour != TextColour254 && colour != TextColour255 ==>
            && r.flags == InitialFlags(colour, st.flags, st.fontSpriteBase)
            && r.fontSpriteBase == InitialFontBase(st.fontSpriteBase)
            && r.palette[0] == st.palette[0] && r.palette[5..] == st.palette[5..]
            && r.palette[1..5] ==
                 (if colour & ColourFlagInset == 0
                  then ColourCharWindowBytes(res, ((colour & !ColourFlagOutline) & 0xFF) as bv8, r.flags)
                  else InsetBytes(res.colourMap(ColourIndex(colour)), r.flags))
            && r.(flags := st.flags, palette := st.palette, fontSpriteBase := st.fontSpriteBase) == st)
  {
    if colour != TextColour254 && colour != TextColour255 {
      ColourBits(colour);
    }
  }
}
