/**
  `string_get_height_raw` of src/openrct2/drawing/String.cpp: the height of a formatted string,
  found by a byte scan that adds a line height for every newline code and follows the font
  codes. Unlike the width measure it reads the buffer as plain `char`s, so whether `char` is
  signed decides how bytes from 0x80 up are skipped.
*/
module TextHeight {
  import opened Common
  import opened FormatCodes
  import opened TextState

  /** The height before any newline: ten for the bases up to MEDIUM, six for TINY, nothing otherwise. */
  function InitialHeight(base: FontBase): (h: int)
  {
    if base <= FontBaseMedium then 10 else if base == FontBaseTiny then 6 else 0
  }

  /** The height FORMAT_NEWLINE adds, and half of it for FORMAT_NEWLINE_SMALLER. */
  function NewlineHeight(base: FontBase, smaller: bool): (h: int)
    ensures base == FontBaseSmall || base == FontBaseMedium ==> h == (if smaller then 5 else 10)
    ensures base == FontBaseTiny ==> h == (if smaller then 3 else 6)
    ensures base != FontBaseSmall && base != FontBaseMedium && base != FontBaseTiny ==> h == (if smaller then 9 else 18)
  {
    var full := if base == FontBaseSmall || base == FontBaseMedium then 10 else if base == FontBaseTiny then 6 else 18;
    if smaller then full / 2 else full
  }

  /** The base a font code selects. */
  function FontCodeBase(c: Byte): (b: FontBase)
    requires IsFontCode(c)
    ensures c == TinyFont ==> b == FontBaseTiny
    ensures c == BigFont ==> b == FontBaseBig
    ensures c == MediumFont ==> b == FontBaseMedium
    ensures c == SmallFont ==> b == FontBaseSmall
  {
    if c == TinyFont then FontBaseTiny else if c == BigFont then FontBaseBig
    else if c == MediumFont then FontBaseMedium else FontBaseSmall
  }

  /** The value of a byte read as `char`: bytes from 0x80 up are negative where `char` is signed. */
  function CharValue(c: Byte, charIsSigned: bool): (v: int)
    ensures c < 0x80 || !charIsSigned ==> v == c as int
    ensures c >= 0x80 && charIsSigned ==> v == c as int - 0x100 && v < 0
  {
    if charIsSigned && c >= 0x80 then c as int - 0x100 else c as int
  }

  /**
    The bytes the scan skips after `c`: none for text (a value of 32 or more), one up to 4 (every
    negative value included), none up to 16, two up to 22 and four above.
  */
  function HeightSkip(c: Byte, charIsSigned: bool): (n: nat)
    ensures n <= 4
    ensures c >= 0x20 && (c < 0x80 || !charIsSigned) ==> n == 0
    ensures c >= 0x80 && charIsSigned ==> n == 1
    ensures c != 0 && c < 0x20 ==> n == ArgLength(c)
  {
    var v := CharValue(c, charIsSigned);
    if v >= 0x20 then 0 else if v <= 4 then 1 else if v <= 16 then 0 else if v <= 22 then 2 else 4
  }

  /** Where the height scan starting at `p` meets a terminator. */
  function HeightEnd(s: seq<Byte>, p: nat, charIsSigned: bool): (e: nat)
    ensures p <= e && At(s, e) == 0
    decreases |s| - p
  {
    if At(s, p) == 0 then p else HeightEnd(s, p + 1 + HeightSkip(At(s, p), charIsSigned), charIsSigned)
  }

  /** The height the newline codes from `p` on add, with `base` the font base in force at `p`. */
  function HeightFrom(base: FontBase, s: seq<Byte>, p: nat, charIsSigned: bool): (h: int)
    ensures h >= 0
    decreases |s| - p
  {
    var c := At(s, p);
    if c == 0 then 0
    else
      var next := p + 1 + HeightSkip(c, charIsSigned);
      if c == Newline || c == NewlineSmaller then NewlineHeight(base, c == NewlineSmaller) + HeightFrom(base, s, next, charIsSigned)
      else if IsFontCode(c) then HeightFrom(FontCodeBase(c), s, next, charIsSigned)
      else HeightFrom(base, s, next, charIsSigned)
  }

  /** The height of the string in `s` drawn from font base `base`. */
  function StringHeight(base: FontBase, s: seq<Byte>, charIsSigned: bool): (h: int)
    ensures h >= InitialHeight(base)
  {
    InitialHeight(base) + HeightFrom(base, s, 0, charIsSigned)
  }

  /** The height a byte adds, and the font base after it. */
  function ByteHeight(base: FontBase, c: Byte): (h: int)
    ensures c != Newline && c != NewlineSmaller ==> h == 0
  {
    if c == Newline || c == NewlineSmaller then NewlineHeight(base, c == NewlineSmaller) else 0
  }

  function BaseAfter(base: FontBase, c: Byte): (b: FontBase)
    ensures !IsFontCode(c) ==> b == base
  {
    if IsFontCode(c) then FontCodeBase(c) else base
  }

  /** One turn of the height scan at a byte that is not the terminator. */
  lemma HeightUnfold(base: FontBase, s: seq<Byte>, p: nat, charIsSigned: bool)
    requires At(s, p) != 0
    ensures var next := p + 1 + HeightSkip(At(s, p), charIsSigned);
      && HeightFrom(base, s, p, charIsSigned) == ByteHeight(base, At(s, p)) + HeightFrom(BaseAfter(base, At(s, p)), s, next, charIsSigned)
      && HeightEnd(s, p, charIsSigned) == HeightEnd(s, next, charIsSigned)
  {
  }

  /** The switch of `string_get_height_raw` at one byte: the new font base, the height added and the argument bytes skipped. */
  method HeightSwitch(fontBase: FontBase, c: Byte, charIsSigned: bool) returns (nextBase: FontBase, added: int, skip: nat)
    ensures nextBase == BaseAfter(fontBase, c) && added == ByteHeight(fontBase, c) && skip == HeightSkip(c, charIsSigned)
  {
    nextBase, added, skip := fontBase, 0, 0;
    if c == Newline {
      if fontBase == FontBaseSmall || fontBase == FontBaseMedium {
        added := 10;
      } else if fontBase == FontBaseTiny {
        added := 6;
      } else {
        added := 18;
      }
    } else if c == NewlineSmaller {
      if fontBase == FontBaseSmall || fontBase == FontBaseMedium {
        added := 5;
      } else if fontBase == FontBaseTiny {
        added := 3;
      } else {
        added := 9;
      }
    } else if c == TinyFont {
      nextBase := FontBaseTiny;
    } else if c == BigFont {
      nextBase := FontBaseBig;
    } else if c == MediumFont {
      nextBase := FontBaseMedium;
    } else if c == SmallFont {
      nextBase := FontBaseSmall;
    } else {
      var v := CharValue(c, charIsSigned);
      if v >= 32 {
      } else if v <= 4 {
        skip := 1;
      } else if v <= 16 {
      } else if v <= 22 {
        skip := 2;
      } else {
        skip := 4;
      }
    }
  }

  /**
    `string_get_height_raw`, from the current font base. The scan jumps over argument bytes
    without looking at them, so the caller's buffer must hold the terminator the scan stops at.
  */
  method StringHeightRaw(fontSpriteBase: FontBase, buffer: array<Byte>, charIsSigned: bool) returns (height: int)
    requires HeightEnd(buffer[..], 0, charIsSigned) < buffer.Length
    ensures height == StringHeight(fontSpriteBase, buffer[..], charIsSigned)
  {
    ghost var s := buffer[..];
    var fontBase: FontBase := fontSpriteBase;
    height := 0;
    if fontBase <= FontBaseMedium {
      height := height + 10;
    } else if fontBase == FontBaseTiny {
      height := height + 6;
    }
    assert height == InitialHeight(fontSpriteBase);
    var ch: nat := 0;
    while buffer[ch] != 0
      invariant HeightEnd(s, ch, charIsSigned) == HeightEnd(s, 0, charIsSigned)
      invariant height + HeightFrom(fontBase, s, ch, charIsSigned) == StringHeight(fontSpriteBase, s, charIsSigned)
      decreases buffer.Length - ch
    {
      var c := buffer[ch];
      assert c == At(s, ch);
      HeightUnfold(fontBase, s, ch, charIsSigned);
      var added, skip;
      fontBase, added, skip := HeightSwitch(fontBase, c, charIsSigned);
      height := height + added;
      ch := ch + 1 + skip;
    }
  }

  /**
    Bytes the scan passes over as text: a `char` value of 32 or more. Where `char` is unsigned
    that is every byte from 0x20 up, the bytes of multi-byte UTF-8 characters among them.
  */
  predicate IsText(c: Byte, charIsSigned: bool) {
    CharValue(c, charIsSigned) >= 0x20
  }

  predicate TextOrNewline(c: Byte, charIsSigned: bool) {
    IsText(c, charIsSigned) || c == Newline || c == NewlineSmaller
  }

  /** One byte of text or one newline code, and the height after it. */
  lemma HeightStep(base: FontBase, s: seq<Byte>, p: nat, charIsSigned: bool)
    requires p < |s| && TextOrNewline(s[p], charIsSigned)
    ensures HeightFrom(base, s, p, charIsSigned) == HeightFrom(base, s, p + 1, charIsSigned)
      + (if s[p] == Newline then NewlineHeight(base, false) else if s[p] == NewlineSmaller then NewlineHeight(base, true) else 0)
  {
    assert HeightSkip(s[p], charIsSigned) == 0;
  }

  lemma CountStep(s: seq<Byte>, p: nat, n: nat, x: Byte)
    requires p < n <= |s|
    ensures Count(s[p..n], x) == Count(s[p + 1..n], x) + (if s[p] == x then 1 else 0)
  {
    assert s[p..n][1..] == s[p + 1..n];
  }

  /** The arithmetic of adding the height of one more byte to a sum of line heights. */
  lemma AddOneLine(a: int, b: int, m: nat, k: nat, c: Byte)
    ensures a * m + b * k + (if c == Newline then a else if c == NewlineSmaller then b else 0)
      == a * (m + if c == Newline then 1 else 0) + b * (k + if c == NewlineSmaller then 1 else 0)
  {
    if c == Newline {
      assert a * (m + 1) == a * m + a;
    } else if c == NewlineSmaller {
      assert b * (k + 1) == b * k + b;
    }
  }

  /**
    From `p` to the terminator at `n`, text and newline codes alone add one line height per
    FORMAT_NEWLINE and half of one per FORMAT_NEWLINE_SMALLER.
  */
  lemma {:induction false} HeightCountsNewlines(base: FontBase, s: seq<Byte>, p: nat, n: nat, charIsSigned: bool)
    requires p <= n <= |s| && At(s, n) == 0
    requires forall i :: p <= i < n ==> TextOrNewline(s[i], charIsSigned)
    ensures HeightFrom(base, s, p, charIsSigned)
      == NewlineHeight(base, false) * Count(s[p..n], Newline) + NewlineHeight(base, true) * Count(s[p..n], NewlineSmaller)
    decreases n - p
  {
    if p < n {
      HeightCountsNewlines(base, s, p + 1, n, charIsSigned);
      HeightStep(base, s, p, charIsSigned);
      CountStep(s, p, n, Newline);
      CountStep(s, p, n, NewlineSmaller);
      AddOneLine(NewlineHeight(base, false), NewlineHeight(base, true), Count(s[p + 1..n], Newline), Count(s[p + 1..n], NewlineSmaller), s[p]);
    } else {
      assert s[p..n] == [];
    }
  }

  /**
    A string of text and newline codes is as high as its first line plus its newlines. With an
    unsigned `char` this holds for any UTF-8 text; with a signed one only for ASCII.
  */
  lemma StringHeightCountsNewlines(base: FontBase, s: seq<Byte>, charIsSigned: bool)
    requires forall c :: c in CString(s) ==> TextOrNewline(c, charIsSigned)
    ensures StringHeight(base, s, charIsSigned)
      == InitialHeight(base) + NewlineHeight(base, false) * Count(CString(s), Newline)
         + NewlineHeight(base, true) * Count(CString(s), NewlineSmaller)
  {
    var n := |CString(s)|;
    assert CString(s) == s[0..n];
    forall i | 0 <= i < n
      ensures TextOrNewline(s[i], charIsSigned)
    {
      assert s[i] == CString(s)[i];
    }
    HeightCountsNewlines(base, s, 0, n, charIsSigned);
  }

  /**
    Where `char` is signed, the last byte of the three-byte UTF-8 encoding of U+20AC (E2 82 AC)
    reads as a negative value and swallows the newline code after it: the euro sign and a
    newline measure one line high.
  */
  lemma SignedCharDropsNewline() returns (s: seq<Byte>)
    ensures s == [0xE2, 0x82, 0xAC, Newline, 0]
    ensures StringHeight(FontBaseMedium, s, true) == 10
    ensures StringHeight(FontBaseMedium, s, false) == 20
  {
    s := [0xE2, 0x82, 0xAC, Newline, 0];
    assert HeightFrom(FontBaseMedium, s, 4, true) == 0;
    assert HeightFrom(FontBaseMedium, s, 2, true) == 0;
    assert HeightFrom(FontBaseMedium, s, 4, false) == 0;
    assert HeightFrom(FontBaseMedium, s, 3, false) == 10;
    assert HeightFrom(FontBaseMedium, s, 2, false) == 10;
    assert HeightFrom(FontBaseMedium, s, 1, false) == 10;
  }
}
