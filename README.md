# OpenRCT2 text layout and file scanner, modelled in Dafny

This project models two sequential cores of OpenRCT2 and proves what they compute.

**Text layout** (`src/openrct2/drawing/String.cpp`). Strings are zero-terminated byte buffers. They mix
characters with format codes, and a code may be followed by raw argument bytes. The model covers:

- the interpreter that walks such a string and updates a `text_draw_info` record (cursor, line anchor,
  extents, flags, an 8-byte palette and the font sprite base), in measure-only mode;
- the colour set-up it performs (`colour_char`, `colour_char_window`, `ttf_process_initial_colour`);
- the width measure built on it (`ttf_get_string_width`);
- the buffer utilities that scan a caller's buffer in place: `gfx_get_string_width_new_lined`,
  `gfx_clip_string`, `gfx_wrap_string`, `string_get_height_raw` and `shorten_path`.

`text_draw_info` is a class, `TextDrawing.TextDrawInfo`, with an `array` palette. Its methods update the
fields in place. Each method is proved to leave `State()` equal to a function of the old state,
defined in `TextInterp` and `TextState`. The buffer utilities are methods over `array<Byte>`. Each is
proved equal to a function on `seq<Byte>`, and the lemmas beside that function state what the source
promises.

**File scanner** (`src/openrct2/core/FileScanner.cpp`). The model covers:

- `FileScannerBase`, a depth-first walk over a stack of `(path, listing, index)` levels. It is a class
  whose `Next` yields exactly the matching files of an abstract directory tree, in listing order;
- `GetPatterns`, which splits a `;`-delimited pattern list;
- the wildcard matcher `MatchWildcard`, as written and repaired;
- `GetPathChecksum`, the one-at-a-time hash with seed `0xD8430DED` on 32-bit words;
- the totals of `Path::QueryDirectory`;
- the filter of `Path::GetDirectories`.

The tables the source consults are fields of `TextState.Resources`, any total functions. They are
glyph widths, line heights, G1 sprite widths and bytes, `ColourMapA`, the text-palette sprite and the
TrueType backend. The global font settings are passed explicitly as `TextInterp.TextGlobals`. A
codepoint is one byte. Reading past the end of a sequence yields the terminator (`Common.At`).

## Model

| member | source | states |
|---|---|---|
| TextDrawing.ColourChar | src/openrct2/drawing/String.cpp:229-247 | the palette becomes `SetColourBytes(old palette, ColourCharBytes(..))`: only entries 1 to 4 change |
| TextState.ColourCharBytes | src/openrct2/drawing/String.cpp:231-246 | the four stored bytes are the text-palette word's bytes in reverse order, or zero without the palette sprite; unless OUTLINE is set, the two middle bytes are cleared (mask `0x0FF0000FF`) |
| TextState.StoredBytes | src/openrct2/drawing/String.cpp:243-246 | the four stores of `v & 0xFF`, `(v >> 8) & 0xFF`, `(v >> 16) & 0xFF` and `(v >> 24) & 0xFF`, read back as a little-endian word, give `v` |
| TextState.BswapReverses | src/openrct2/drawing/String.cpp:235 | `bswap` reverses the four bytes of a word, and swapping twice gives the word back |
| TextState.ColourCharStoresWord | src/openrct2/drawing/String.cpp:231-246 | the palette bytes are exactly what the stores of the 32-bit value `colour_char` computes leave (the byte-swapped palette word, or 0, masked with `0x0FF0000FF` unless outlining), and read back they are that value |
| TextDrawing.StoreColourWord | src/openrct2/drawing/String.cpp:243-246 | the palette becomes `SetColourBytes(old palette, StoredBytes(v))`: entries 1 to 4 receive the word's bytes from the low one up |
| TextDrawing.ColourCharWindow | src/openrct2/drawing/String.cpp:253-267 | the palette becomes `SetColourBytes(old palette, ColourCharWindowBytes(..))`: only entries 1 to 4 change |
| TextState.ColourCharWindowBytes | src/openrct2/drawing/String.cpp:255-266 | the first byte is the `colour_11` shade of the colour without its translucent bit; the second and third are 0x0A when outlining and 0 otherwise; the fourth is 0 |
| TextState.ColourCharWindowWord | src/openrct2/drawing/String.cpp:257-261 | the value is the `colour_11` shade of the colour without its translucent bit (`& 0x7F`), plus `0x0A0A00` when outlining |
| TextState.ColourCharWindowStoresWord | src/openrct2/drawing/String.cpp:257-266 | the palette bytes are exactly what the stores of that value leave, and read back they are that value |
| TextState.SetColourBytes | src/openrct2/drawing/String.cpp:243-246 | palette entries 1 to 4 are the four bytes; entries 0 and 5 to 7 are untouched |
| TextDrawing.TextDrawInfo.DrawCharacterSprite | src/openrct2/drawing/String.cpp:437-453 | the record becomes `CharacterSprite`: only `x` changes, by the glyph's width |
| TextInterp.CharacterSprite | src/openrct2/drawing/String.cpp:439-452 | the cursor moves right by exactly the glyph's width for the current font base, and nothing but `x` changes |
| TextDrawing.TextDrawInfo.DrawStringRawSprite | src/openrct2/drawing/String.cpp:455-463 | only `x` changes, by the glyph widths of the codepoints before the first format code |
| TextDrawing.TextDrawInfo.DrawStringRawTtf | src/openrct2/drawing/String.cpp:467-480 | in measure-only mode: nothing changes when TrueType cannot start; without a font for the base it falls back to the sprite advance; otherwise `x` grows by the measured width of the string |
| TextDrawing.TextDrawInfo.DrawStringRaw | src/openrct2/drawing/String.cpp:583-594 | only `x` changes, by `RawAdvance`: the TrueType path when the TTF flag is set, the sprite path otherwise |
| TextInterp.RawAdvanceCString | src/openrct2/drawing/String.cpp:583-594 | a raw draw reads only the zero-terminated string in its buffer |
| TextDrawing.TextDrawInfo.AdjustTextPalette | src/openrct2/drawing/String.cpp:606-624 | the state is unchanged when the G1 element is missing; otherwise only the palette changes, to `AdjustedPalette` |
| TextInterp.AdjustedPalette | src/openrct2/drawing/String.cpp:612-621 | entry 1 is byte 249 and entry 2 is the OUTLINE bit; entries 3 to 6 are bytes 247, 248, 250 and 251; entries 0 and 7 keep their values |
| TextDrawing.PaletteLowBytes | src/openrct2/drawing/String.cpp:612-617 | `ebx = byte249 + 256`, masked unless outlining, stores byte 249 and then 1 or 0 |
| FormatCodes.ArgLength | src/openrct2/drawing/String.cpp:603-697 | one argument byte for MOVE_X, ADJUST_PALETTE, FORMAT_3 and FORMAT_4; four for INLINE_SPRITE; none for the terminator, text or colour codes; never more than four |
| TextInterp.FormatCodeNext | src/openrct2/drawing/String.cpp:596-701 | the position after a code is past it and, for every code but the terminator, exactly its argument bytes further on |
| TextDrawing.TextDrawInfo.ProcessFormatCode | src/openrct2/drawing/String.cpp:596-701 | the record becomes `FormatCodeState` and the returned position is `FormatCodeNext` |
| TextInterp.FormatCodeState | src/openrct2/drawing/String.cpp:596-701 | no code moves the line anchor or the extents; none writes palette entries 0 or 7; none changes a flag other than OUTLINE |
| TextInterp.FormatCodeEffects | src/openrct2/drawing/String.cpp:603-688 | MOVE_X sets `x = startX + unsigned arg`; NEWLINE and NEWLINE_SMALLER set `x = startX` and add the full or small line height to `y`; font codes set only the font base; OUTLINE and OUTLINE_OFF set or clear only that bit; INLINE_SPRITE adds the sprite width only when the sprite exists; ADJUST_PALETTE changes only the palette, and only when its element exists |
| TextInterp.RunEnd | src/openrct2/drawing/String.cpp:715-720 | a glyph run stops at the first format code, or with TrueType at the first sprite-only codepoint; every byte before it is plain |
| TextDrawing.TextDrawInfo.ProcessGlyphRun | src/openrct2/drawing/String.cpp:703-731 | the record and the returned position are `GlyphRun` |
| TextInterp.GlyphRun | src/openrct2/drawing/String.cpp:703-731 | it returns the run's end; only `x` changes; a run that starts at a plain codepoint is not empty |
| TextInterp.RunBuffers | src/openrct2/drawing/String.cpp:721-729 | measuring the run in place, up to the string's terminator, and measuring its terminated copy give the same advance |
| TextInterp.Step | src/openrct2/drawing/String.cpp:745-753 | one turn moves past the current position; it keeps the anchor, the extents, the NO_DRAW and TTF flags and every other flag but OUTLINE |
| TextInterp.Extend | src/openrct2/drawing/String.cpp:754-755 | `maxX` and `maxY` never decrease and catch up with the cursor; nothing else changes |
| TextDrawing.TextDrawInfo.UpdateExtents | src/openrct2/drawing/String.cpp:754-755 | the record becomes `Extend(old record)` |
| TextDrawing.TextDrawInfo.ProcessStep | src/openrct2/drawing/String.cpp:746-753 | the record and position become `Step(..)` |
| TextDrawing.TextDrawInfo.ProcessString | src/openrct2/drawing/String.cpp:733-757 | the record becomes `Process(old record, s, 0)` |
| TextInterp.Process | src/openrct2/drawing/String.cpp:745-756 | the extents never shrink and, after a non-empty string, bound the final cursor; the anchor and every flag but OUTLINE are kept; an empty string changes nothing |
| TextInterp.ProcessUnfold | src/openrct2/drawing/String.cpp:745-756 | measuring from a position is one step, then the extent update, then the rest |
| TextInterp.MeasureState | src/openrct2/drawing/String.cpp:840-853 | measuring starts with `x = y = maxX = maxY = startX = startY = 0`, with NO_DRAW set and TTF added when TrueType is in use; the other global flags are kept |
| TextInterp.StringWidth | src/openrct2/drawing/String.cpp:838-857 | the width is never negative |
| TextDrawing.GetStringWidth | src/openrct2/drawing/String.cpp:838-857 | the method returns `StringWidth` |
| TextInterp.MeasureIgnoresPalette | src/openrct2/drawing/String.cpp:838-857 | the width does not depend on the palette, which `ttf_get_string_width` leaves uninitialised |
| TextInterp.StringWidthFrame | src/openrct2/drawing/String.cpp:745-756 | two buffers that agree up to the first one's terminator have the same width |
| TextState.InitialFlags | src/openrct2/drawing/String.cpp:762-781 | OUTLINE is set exactly when the colour's outline bit is; INSET exactly when its inset bit is; DARK exactly when the base is negative as `sint16`; EXTRA_DARK exactly for the extra-dark base; the other flags are unchanged |
| TextState.InitialFontBase | src/openrct2/drawing/String.cpp:763-769 | the base left is never negative as `sint16`: a base that is negative as `sint16` becomes MEDIUM, and any other base is kept |
| TextState.AsSigned16 | src/openrct2/drawing/String.cpp:763-765 | the `(sint16)` reading is negative exactly for bases from 0x8000; it is -448 (twice FONT_SPRITE_GLYPH_COUNT, negated) exactly for the extra-dark base and -224 exactly for the dark base; it agrees with the base modulo 2^16 |
| TextState.InsetShades | src/openrct2/drawing/String.cpp:784-798 | the (low, high) shade pair is (`mid_light`, `lighter`) when not dark, (`mid_dark`, `light`) when dark only, and (`dark`, `mid_light`) when extra dark |
| TextState.InsetWord | src/openrct2/drawing/String.cpp:788-798 | the word `high << 16 \| low` has the value `low + 0x10000 * high` |
| TextState.InsetBytes | src/openrct2/drawing/String.cpp:784-804 | the four bytes stored are the low shade, 0, the high shade, 0, with the shades chosen by darkness as in `InsetShades` |
| TextState.InsetStoresWord | src/openrct2/drawing/String.cpp:784-804 | those bytes are exactly what the stores of `high << 16 \| low` leave, and read back they are that word |
| TextDrawing.TextDrawInfo.SetInsetColour | src/openrct2/drawing/String.cpp:784-804 | the palette becomes `SetColourBytes(old palette, InsetBytes(..))`, stored from the packed word |
| TextState.InitialColourEffect | src/openrct2/drawing/String.cpp:759-808 | TEXT_COLOUR_254 and 255 change nothing; any other colour sets the flags to `InitialFlags` and the base to `InitialFontBase`, and rewrites only palette entries 1 to 4, with the window colour or with the inset shade pair |
| TextDrawing.TextDrawInfo.ProcessInitialColour | src/openrct2/drawing/String.cpp:759-808 | the record becomes `InitialColour(colour, old record)` |
| TextLayout.MeasureLine | src/openrct2/drawing/String.cpp:53-56 | the saved byte is put back, so the buffer is unchanged; the width is that of the line with a terminator written at `k` |
| TextLayout.LineBreak | src/openrct2/drawing/String.cpp:51-52 | the end of a line is the first terminator or newline code, and no byte before it is one |
| TextLayout.GetStringWidthNewLined | src/openrct2/drawing/String.cpp:42-64 | the buffer is left as it was and the result is `LinesWidth` |
| TextLayout.LinesWidthBounds | src/openrct2/drawing/String.cpp:42-64 | no line is wider than the result |
| TextLayout.LinesWidthAttained | src/openrct2/drawing/String.cpp:42-64 | some line is exactly as wide as the result |
| TextLayout.LinesWidthUnfold | src/openrct2/drawing/String.cpp:52-57 | a line ending in a newline code counts as the string up to and including that code; the lines after it start right after it |
| TextLayout.EllipsisWrites | src/openrct2/drawing/String.cpp:110-124 | writing `...` and a terminator byte by byte gives `Ellipsis`, and writing the four saved bytes back restores the buffer |
| TextLayout.Probe | src/openrct2/drawing/String.cpp:110-124 | a probe measures the buffer with `...` after the codepoint; a fitting probe moves the clip point; the buffer is restored unless the probe ends the loop |
| TextLayout.ClipString | src/openrct2/drawing/String.cpp:84-128 | the buffer and width left are `Clip(old buffer, width)` |
| TextLayout.NextProbe | src/openrct2/drawing/String.cpp:103-107 | the first position at or after `p` on the scan that is the terminator or a codepoint that is no format code: the next place a probe is made |
| TextLayout.ClipTurn | src/openrct2/drawing/String.cpp:103-126 | one turn of the probing loop: it steps over a format code, or probes the next codepoint, and its results are those of `ClipFrom` |
| TextLayout.ClipEffect | src/openrct2/drawing/String.cpp:88-127 | `width < 6` writes a terminator at the start and returns 0; a string that fits is unchanged and its width returned; for a string that does not fit: when every probe fits, the string is unchanged and its full width returned; otherwise it is cut with `...` at a point `c` such that every probe before `c` fitted (measured narrower than `width`) and the next probe from `c` did not; `c` follows a non-format codepoint and the width returned is that of the cut string, or `c` is 0 exactly when the very first probe failed and the full width is returned |
| TextLayout.CutByFailedProbe | src/openrct2/drawing/String.cpp:103-127 | a cut string had a probe that failed, so not every probe fitted, and it is cut at the start exactly when the first probe failed |
| TextWrap.InsertTerminator | src/openrct2/drawing/String.cpp:189-190 | the buffer keeps its length and holds a terminator at `p` |
| TextWrap.InsertTerminatorMoves | src/openrct2/drawing/String.cpp:189-190 | the bytes before `p` stay, those from `p` through the string's terminator move up by one, and those after it stay |
| TextWrap.InsertTerminatorAt | src/openrct2/drawing/String.cpp:190 | the buffer becomes `InsertTerminator` and the cursor moves one byte |
| TextWrap.WrapStepInv | src/openrct2/drawing/String.cpp:160-208 | every turn stays within the buffer and starts a later line or moves the scan on, so wrapping ends |
| TextWrap.MeasuredInv | src/openrct2/drawing/String.cpp:185-207 | measuring a codepoint, whether it is accepted, forces a break or breaks at the last space, keeps the wrap invariant within the same buffer and moves the line or the scan on |
| TextWrap.WrapString | src/openrct2/drawing/String.cpp:143-212 | the buffer, the line count and the returned width are those of `Wrap`, so `WrapOnlyBreaks`, `WrapWithinWidth` and `WrapWidthIsMaxRecorded` hold of them; the font height out is the current font base |
| TextWrap.WrapOnlyBreaks | src/openrct2/drawing/String.cpp:143-212 | undoing the breaks restores the original buffer; there is one break per line counted; each break is a terminator, in text order; each line's scan, in the buffer as it was then, reached its break from the line's start: a newline break is the line's first FORMAT_NEWLINE, a word break is at a space after which the scan met no other space and no FORMAT_NEWLINE up to the codepoint that overflowed, and an inserted break is before a text codepoint on a line with no space and no FORMAT_NEWLINE; the last line's scan reaches the terminator without meeting a FORMAT_NEWLINE |
| TextWrap.WrapWidthIsMaxRecorded | src/openrct2/drawing/String.cpp:165-211 | the width returned is at least the width `maxWidth` took at every break and the last line's width, and equals one of them; at an inserted break that width is the measure through the codepoint that moved, at the other breaks the line's width |
| TextWrap.WrapWithinWidth | src/openrct2/drawing/String.cpp:160-207 | for every line ended, in the buffer as it was then: its recorded width is its measure through its last codepoint, and it is at most `width`, or 0, or the measure through the line's first codepoint, the one codepoint kept however wide it is; a word break or an inserted break was made because the line through the codepoint that overflowed measured more than `width`, and that measure is recorded; every codepoint on the line's scan before the overflow, or before a newline code, stayed on the line because it fitted or was the line's first, so the overflow was the first; the last line obeys the same rules |
| TextWrap.LineWidthStep | src/openrct2/drawing/String.cpp:174-186 | a line's width through one more codepoint on its scan is the measure through it, or the width before it when it is a format code, which is not measured |
| TextWrap.KeptFromStep | src/openrct2/drawing/String.cpp:174-186 | scanning one codepoint further adds the greedy rule's verdict on it: a format code is not measured, and any other codepoint stays on the line only when the line through it measured no more than `width` or it is the line's first |
| TextWrap.IntendedWidthIsWidest | src/openrct2/drawing/String.cpp:186-211 | with every break taking the line's width, the width returned is the widest line's: each line's width is its measure through its last codepoint, none is wider, and it is one of them |
| TextWrap.WidestLineBounds | src/openrct2/drawing/String.cpp:190-209 | the widest of the lines is at least each line's width and is 0 or one of them |
| TextWrap.InsertedBreakOverstates | src/openrct2/drawing/String.cpp:186-191 | in a font where "a" measures 6 and "aa" 12, wrapping "aa" to 10 gives the lines "a" and "a", each 6 wide, with one inserted break, yet the width returned is 12; the intended width is 6 |
| TextWrap.UndoReplaced | src/openrct2/drawing/String.cpp:164-200 | a terminator written over a FORMAT_NEWLINE or a space is undone by writing that byte back, giving the buffer before the break |
| TextWrap.UndoInserted | src/openrct2/drawing/String.cpp:190 | an inserted terminator is undone by moving the bytes back and restoring the byte the insertion overwrote |
| TextHeight.NewlineHeight | src/openrct2/drawing/String.cpp:315-334 | NEWLINE adds 10, 6 or 18 and NEWLINE_SMALLER adds 5, 3 or 9, for SMALL or MEDIUM, for TINY and for any other base |
| TextHeight.FontCodeBase | src/openrct2/drawing/String.cpp:335-346 | each font code selects its base |
| TextHeight.CharValue | src/openrct2/drawing/String.cpp:313 | the `char` reading of a byte: itself, or negative from 0x80 up where `char` is signed |
| TextHeight.HeightSkip | src/openrct2/drawing/String.cpp:347-357 | a byte from 0x20 to 0x7F skips nothing, and so does every byte from 0x80 up when `char` is unsigned; each control code below 0x20 skips exactly its argument bytes (`ArgLength`); a byte from 0x80 up, read as a signed `char`, skips 1. The argument codes 123 to 141 therefore skip 0 (or 1 from 0x80 with a signed `char`), where the interpreter skips their four argument bytes |
| TextHeight.HeightSwitch | src/openrct2/drawing/String.cpp:314-358 | the switch at one byte gives `BaseAfter`, `ByteHeight` and `HeightSkip` |
| TextHeight.StringHeightRaw | src/openrct2/drawing/String.cpp:301-362 | the loop's result is `StringHeight` of the buffer: 10 for a starting base up to MEDIUM, 6 for TINY and 0 otherwise, plus what the newline codes add |
| TextHeight.StringHeightCountsNewlines | src/openrct2/drawing/String.cpp:301-362 | for a string of text and newline codes only, the height is the initial height plus one line height per NEWLINE and one small line height per NEWLINE_SMALLER |
| TextHeight.SignedCharDropsNewline | src/openrct2/drawing/String.cpp:349-352 | with a signed `char`, a euro sign followed by a newline measures 10 high instead of 20 |
| TextPath.CopyLength | src/openrct2/drawing/String.cpp:899 | a copy keeps the whole source string when the buffer has room for its terminator, and otherwise `size - 1` bytes |
| TextPath.SafeStrcpy | src/openrct2/drawing/String.cpp:899 | the buffer becomes `Copied`: bytes outside the window are kept, and the window holds the truncated, terminated source string |
| TextPath.CountSeparators | src/openrct2/drawing/String.cpp:903-909 | the count is the number of `PATH_SEPARATOR` and `/` bytes in the path's string |
| TextPath.SeparatorsSound | src/openrct2/drawing/String.cpp:904-909 | every listed position holds a separator |
| TextPath.SeparatorsComplete | src/openrct2/drawing/String.cpp:904-909 | every separator is listed |
| TextPath.SeparatorsIncreasing | src/openrct2/drawing/String.cpp:904-909 | the positions are listed left to right |
| TextPath.NextSeparator | src/openrct2/drawing/String.cpp:917-919 | the `do … while` loop stops at the next separator |
| TextPath.TryFrom | src/openrct2/drawing/String.cpp:921-924 | the suffix is copied after the three dots, and the result says whether that buffer fits |
| TextPath.ShortenPath | src/openrct2/drawing/String.cpp:893-928 | the buffer becomes `ShortenedPath` |
| TextPath.ShortenPathEffect | src/openrct2/drawing/String.cpp:893-928 | for a path without format codes that fits in the buffer: a path that fits the width is shown whole; otherwise the first abbreviation (`...` and the path from a separator, left to right) that fits is shown; if none fits, the whole path is shown |
| FileScanner.GetPatterns | src/openrct2/core/FileScanner.cpp:201-227 | the result is `Patterns`: the `;`-separated pieces of the string, in order, with empty pieces dropped |
| FileScanner.JoinSplit | src/openrct2/core/FileScanner.cpp:205-223 | joining the pieces with `;` gives the string back, and no piece holds a `;`, so the pieces are maximal |
| FileScanner.NonEmptyPieces | src/openrct2/core/FileScanner.cpp:211-219 | every piece kept is non-empty and one of the pieces, and every non-empty piece is kept |
| FileScanner.PatternsWellFormed | src/openrct2/core/FileScanner.cpp:201-227 | no pattern is empty or holds `;` or the terminator, and each is a piece of the list |
| FileScanner.SplitPath | src/openrct2/core/FileScanner.cpp:93-95 | the directory and file-name parts split the pattern at its last separator |
| FileScanner.FileScannerBase.constructor | src/openrct2/core/FileScanner.cpp:91-101 | the root is the pattern's directory and the patterns those of its file name; the scanner is not started and will yield `FilesIn(root, ..)` |
| FileScanner.FileScannerBase.GetPathRelative | src/openrct2/core/FileScanner.cpp:119-123 | the current path without the root and one separator; when the path begins with them, the path is root, separator, result |
| FileScanner.FileScannerBase.Reset | src/openrct2/core/FileScanner.cpp:125-130 | the scanner is not started, its stack is empty and its current path is empty, so it will yield every file of the root again |
| FileScanner.FileScannerBase.PushState | src/openrct2/core/FileScanner.cpp:180-187 | pushes a level at index -1 and changes nothing else |
| FileScanner.FileScannerBase.PatternMatch | src/openrct2/core/FileScanner.cpp:189-199 | true exactly when some pattern matches the name |
| FileScanner.FileScannerBase.Next | src/openrct2/core/FileScanner.cpp:132-175 | with files remaining it yields the first of them as current path and info, and drops it from `Remaining()`; with none it returns false and leaves nothing remaining, so later calls fail too |
| FileScanner.FileScannerBase.Step | src/openrct2/core/FileScanner.cpp:140-173 | one turn of the loop drops an exhausted level, descends, skips or yields; the remaining files are unchanged or lose their first, and the stack's weight falls |
| FileScanner.FileScannerBase.Advance | src/openrct2/core/FileScanner.cpp:143-150 | the top level moves to its next entry, which is returned with the level's path; the files still to come are that entry's files and then the rest of the stack's, and the stack weight falls by the entry's weight |
| FileScanner.FileScannerBase.VisitDirectory | src/openrct2/core/FileScanner.cpp:151-160 | a directory's files come next, and only when recursing |
| FileScanner.FileScannerBase.VisitFile | src/openrct2/core/FileScanner.cpp:162-171 | a matching file is yielded with its path `directory/name` and its name, size and time; a file that does not match yields nothing |
| FileScanner.FilesInShape | src/openrct2/core/FileScanner.cpp:132-175 | every yielded file matches a pattern, lies below the directory walked and ends in its own name |
| FileScanner.MatchingFileFound | src/openrct2/core/FileScanner.cpp:162-171 | every matching file of a listing is yielded |
| FileScanner.SubdirectoryFilesFound | src/openrct2/core/FileScanner.cpp:151-160 | when recursing, every file a subdirectory yields is yielded by its parent |
| FileScanner.FlatWalk | src/openrct2/core/FileScanner.cpp:151-153 | without recursion only the listing's own files are yielded, each directly below the directory |
| FileScanner.GetDirectories | src/openrct2/core/FileScanner.cpp:471-488 | the result is `DirectoryNames` of the listing |
| FileScanner.DirectoryNamesExact | src/openrct2/core/FileScanner.cpp:479-486 | a name is listed exactly when a directory entry has it; files are never listed |
| Wildcard.Upper | src/openrct2/core/FileScanner.cpp:540 | `toupper`: only ASCII lower-case letters change |
| Wildcard.SkipStarsShape | src/openrct2/core/FileScanner.cpp:522-526 | what is skipped is a run of `*`, and what is left is the rest of the pattern, not starting with `*` |
| Wildcard.NoStarsExact | src/openrct2/core/FileScanner.cpp:512-548 | without `*`, the matcher as written accepts exactly the names of the pattern's length whose bytes match one by one: `?` matches any byte but `.`, and other bytes compare through `toupper`; a name that outlasts the pattern fails |
| Wildcard.EmptyNameAsWritten | src/openrct2/core/FileScanner.cpp:549-553 | with the name used up, the matcher as written spins on a `*` and otherwise accepts only the end of the pattern |
| Wildcard.TrailingStarsReject | src/openrct2/core/FileScanner.cpp:521-530 | a run of `*` that ends the pattern rejects any name with bytes left |
| Wildcard.SearchAsWrittenFirst | src/openrct2/core/FileScanner.cpp:531-538 | after a `*`, the search accepts exactly when some non-empty suffix, tried longest first, is the first attempt that does not fail and is accepted |
| Wildcard.SearchAsWrittenAll | src/openrct2/core/FileScanner.cpp:531-538 | the search fails exactly when the rest of the pattern fails on every non-empty suffix |
| Wildcard.AsWrittenIgnoresCase | src/openrct2/core/FileScanner.cpp:539-544 | names and patterns that differ only in letter case match alike |
| Wildcard.AsWrittenAcceptsLess | src/openrct2/core/FileScanner.cpp:510-554 | whatever the matcher as written accepts, the repaired one accepts |
| Wildcard.AsWrittenAgrees | src/openrct2/core/FileScanner.cpp:510-554 | on a whole pattern that does not end in `*`, wherever the matcher as written returns, its verdict is the repaired matcher's, so the two differ only where the routine never returns or the pattern ends in `*` |
| Wildcard.SearchAgrees | src/openrct2/core/FileScanner.cpp:531-538 | on such a pattern rest, wherever the `*` search as written returns, its verdict is the repaired search's |
| Wildcard.LeadingStarReturns | src/openrct2/core/FileScanner.cpp:521-538 | a pattern made of one `*` and then bytes with no `*`, such as `*.sv6`, always returns on a non-empty name |
| Wildcard.GlobStars | src/openrct2/core/FileScanner.cpp:521-538 | a leading run of `*` stands for any prefix of the name |
| Wildcard.MatchWildcardIsGlob | src/openrct2/core/FileScanner.cpp:510-554 | on whole C strings the repaired matcher decides exactly `Glob`: `*` stands for any run of bytes, `?` for one byte other than `.`, and other bytes for themselves up to case |
| Wildcard.TrailingStarHangs | src/openrct2/core/FileScanner.cpp:549-552 | `"a"` against `"a*"` never returns as written, and matches after the repair |
| Wildcard.FinalStarRejects | src/openrct2/core/FileScanner.cpp:527-530 | `"abc"` against `"*"` and `"a.b"` against `"*.*"` are rejected as written and accepted after the repair |
| DirectoryQuery.GetPathChecksum | src/openrct2/core/FileScanner.cpp:490-503 | the loop computes `PathChecksum`: the seed, one round per byte of the path's string, the final avalanche, all on 32-bit words |
| DirectoryQuery.AbsorbAppend | src/openrct2/core/FileScanner.cpp:493-498 | the hash runs byte by byte: hashing `s + t` is hashing `s`, then `t` |
| DirectoryQuery.ChecksumStopsAtTerminator | src/openrct2/core/FileScanner.cpp:493 | only the path up to its terminator is hashed |
| DirectoryQuery.WidenIsSignExtension | src/openrct2/core/FileScanner.cpp:495 | the word added for a byte has that byte as its low 8 bits, and its upper 24 bits copy the sign bit only where `char` is signed |
| DirectoryQuery.SignedCharDiffers | src/openrct2/core/FileScanner.cpp:495 | a byte from 0x80 up adds a different word under the two kinds of `char` |
| DirectoryQuery.AsciiChecksumPortable | src/openrct2/core/FileScanner.cpp:493-498 | for 7-bit paths the hash does not depend on whether `char` is signed |
| DirectoryQuery.CountFile | src/openrct2/core/FileScanner.cpp:458-466 | one file adds 1 to the count and its size to the total size, XORs both halves of its time into the date checksum and rotates it right by 5, and adds its path checksum |
| DirectoryQuery.ScanFiles | src/openrct2/core/FileScanner.cpp:454-457 | the loop over `Next` collects exactly `FilesIn(root, ..)` of a recursive scanner, in order |
| DirectoryQuery.SumFiles | src/openrct2/core/FileScanner.cpp:455-467 | the totals after the files, in order, are `Accumulate` |
| DirectoryQuery.QueryDirectory | src/openrct2/core/FileScanner.cpp:452-469 | the result becomes the old totals folded over every file a recursive scan of the pattern yields |
| DirectoryQuery.AccumulateAppend | src/openrct2/core/FileScanner.cpp:455-467 | folding over two lists of files in turn is folding over their concatenation |
| DirectoryQuery.AccumulateFileCount | src/openrct2/core/FileScanner.cpp:460 | the count grows by the number of files, modulo 2^32 |
| DirectoryQuery.AccumulateFileSize | src/openrct2/core/FileScanner.cpp:461 | the total size grows by the sum of the sizes, modulo 2^64 |
| DirectoryQuery.DateMixInvertible | src/openrct2/core/FileScanner.cpp:462-465 | rotating left by 5 and XORing the halves back recovers the previous date checksum, so no step loses information |

## Left out

- Drawing is not modelled. That covers glyph and sprite blits, the y-offset effect and the TrueType
  pixel compositing (`String.cpp:481-578`). It also covers `ttf_draw_string`,
  `gfx_draw_string_with_y_offsets`, `gfx_draw_string_left_centred`, `draw_string_centred_raw` and
  `gfx_draw_string_centred_wrapped_partial`. All of these write pixels through foreign surfaces. The
  methods that could draw require NO_DRAW.
- TextState.AsSigned16: `Font.h` is not part of this model, so the FONT_SPRITE_* values are taken as
  OpenRCT2 defines them there. FONT_SPRITE_GLYPH_COUNT is 224. The bases are SMALL 0, MEDIUM 224,
  TINY 448, BIG 672, MEDIUM_DARK -224 and MEDIUM_EXTRA_DARK -448. The extra-dark test, the font-size
  mapping and the height thresholds depend on these values.
- The glyph, line-height, sprite, colour-map, text-palette and TrueType tables are abstract. So are
  `utf8_should_use_sprite_for_codepoint` and the width cache: all are fields of `Resources`.
- `utf8_get_next`, `utf8_is_format_code`, `utf8_get_format_code_arg_length` and `utf8_insert_codepoint`
  are not part of this model:
  - a codepoint is one byte;
  - a format code is a byte below 32 or in 123..155;
  - argument lengths follow the interpreter's own ranges (`String.cpp:603-697`).
- `safe_strcpy` is not part of this model. `TextPath.SafeStrcpy` gives it the copy that `Copied`
  describes.
- `Path::GetDirectory`, `Path::GetFileName` and `Path::Append` are not part of this model. They are
  modelled as splitting and joining at `/` only:
  - Windows builds also split at `\`, which the model does not;
  - `FileScanner.Append` always puts exactly one `/` between directory and name. What
    `Path::Append` does with a directory that already ends in a separator, and its truncation at the
    buffer size, are not modelled.
- Buffer capacity is stated as preconditions rather than modelled:
  - clip needs four bytes from the terminator on (the terminator and the three after it), where the
    last `...` and its terminator are written;
  - wrap needs twice the string's scanned length;
  - `MAX_PATH` truncation of scanner paths is not modelled.
- TextHeight.StringHeightRaw requires the scan, whose skips can jump over a terminator, to reach one
  inside the buffer. The source would read past the buffer instead.
- TextLayout.ClipEffect states the clip fallthrough as written (`String.cpp:127`). If every probe fits but
  the whole string does not, the string is left whole and its full width is returned.
- TextInterp.GlyphRun: the 512-byte scratch buffer of `ttf_process_glyph_run` has no bound check in the
  source. The model copies a run of any length.
- TextInterp.MeasureState: the source leaves the palette uninitialised. The model starts from zeros, and
  `MeasureIgnoresPalette` shows that the contents cannot matter.
- The signedness of `char` is a parameter (`charIsSigned`) of the height scan and the path checksum.
- The OS directory listing (`FileScannerWindows`, `FileScannerUnix`, `FileScannerPSP2`) is not modelled.
  `GetDirectoryChildren` is replaced by an abstract finite tree, `seq<Child>`. `PushState` takes the
  listing it would read.
- FileScanner.FileScannerBase.Next: the `sint32` index of a level is unbounded, so an index overflow past
  2^31 entries is not modelled.
- FileScanner.FileScannerBase.PatternMatch uses the repaired `Wildcard.MatchWildcard`. The routine as
  written is `Wildcard.MatchAsWritten`. It accepts no more (`AsWrittenAcceptsLess`), and on a pattern
  that does not end in `*` it decides alike wherever it returns (`AsWrittenAgrees`). So the two differ
  only where the routine as written never returns or the pattern ends in `*`. Star-free patterns
  (`NoStarsExact`) and patterns such as `*.sv6` on non-empty names (`LeadingStarReturns`) always return.
- DirectoryQuery.QueryDirectory collects the yielded files first, then folds the totals over them, and
  stores `result` once at the end. The source updates `result` once per file. Nothing reads `result`
  during the scan, so the final totals are the same.
- `QueryDirectoryResult` and `FileInfo` are declared in `FileScanner.h`, which is not part of this
  model. Their fields are taken as `uint32` for the count and the checksums and `uint64` for the size
  and the time.
- `src/openrct2/platform/Linux.cpp`, `src/openrct2-ui/Ui.cpp` and `src/openrct2-ui/UiContext.WiiU.cpp` are
  platform code and process entry points, so they are not modelled.

## Findings

| source | as written | input that shows it | evidently intended | confidence | as-written member | corrected member |
|---|---|---|---|---|---|---|
| src/openrct2/drawing/String.cpp:313 | `char c = *ch++` reads bytes from 0x80 up as negative where `char` is signed, so they fall under `c <= 4` and skip the next byte | the euro sign `E2 82 AC` followed by FORMAT_NEWLINE, from the MEDIUM base: 10 high instead of 20 | read the byte unsigned, so UTF-8 text adds no height and skips nothing | medium, not executed | TextHeight.SignedCharDropsNewline | TextHeight.StringHeightCountsNewlines |
| src/openrct2/core/FileScanner.cpp:549-552 | after the name runs out, the loop over trailing `*` advances `fileName` instead of `pattern` | `"a"` against `"a*"` never returns | `++pattern`, so trailing `*` match the empty rest | high, not executed | Wildcard.TrailingStarHangs | Wildcard.MatchWildcardIsGlob |
| src/openrct2/core/FileScanner.cpp:527-530 | a `*` that ends the pattern returns false | `"abc"` against `"*"` and `"a.b"` against `"*.*"` are rejected | return true, as the cited wildcard algorithm does, since the `*` matches the rest of the name | medium, not executed | Wildcard.FinalStarRejects | Wildcard.MatchWildcardIsGlob |
| src/openrct2/drawing/String.cpp:186-191 | when a line with no space is broken by an inserted terminator, `maxWidth` takes `lineWidth`, which is already the measure through the codepoint that moves to the next line | `"aa"` wrapped to 10 in a font where `"a"` is 6 wide and `"aa"` 12: the two lines are 6 wide, yet 12 is returned | take the line's width before that codepoint, so the result is the width of the longest line, as the comment at String.cpp:131 says | medium, not executed | TextWrap.InsertedBreakOverstates | TextWrap.IntendedWidthIsWidest |

`TextWrap.WrapString` and `TextWrap.Wrap` return the width as written (`WrapWidth`). The corrected
width is `TextWrap.IntendedWrapWidth`, computed from the same breaks, because `maxWidth` does not feed
back into the wrap's decisions.
