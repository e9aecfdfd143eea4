/**
  The control codes embedded in OpenRCT2 strings, and the codepoint-by-codepoint scan that every
  consumer of a formatted buffer performs: a control code is one reserved byte followed by raw
  argument bytes that are never decoded as text.
*/
module FormatCodes {
  import opened Common

  const Terminator: Byte := 0
  const MoveX: Byte := 1
  const AdjustPalette: Byte := 2
  const Format3: Byte := 3
  const Format4: Byte := 4
  const Newline: Byte := 5
  const NewlineSmaller: Byte := 6
  const TinyFont: Byte := 7
  const BigFont: Byte := 8
  const MediumFont: Byte := 9
  const SmallFont: Byte := 10
  const FormatOutline: Byte := 11
  const FormatOutlineOff: Byte := 12
  const WindowColour1: Byte := 13
  const WindowColour2: Byte := 14
  const WindowColour3: Byte := 15
  const Format16: Byte := 16
  const NewlineXY: Byte := 17
  const InlineSprite: Byte := 23
  const ArgumentCodeStart: Byte := 123
  const ColourCodeStart: Byte := 142
  const ColourCodeEnd: Byte := 155

  const Space: Byte := 0x20
  const Dot: Byte := 0x2E

  /** Control codes: every byte below 32 (the terminator included) and the argument and colour ranges. */
  predicate IsFormatCode(c: Byte) {
    c < 0x20 || (ArgumentCodeStart <= c && c <= ColourCodeEnd)
  }

  predicate IsColourCode(c: Byte) {
    ColourCodeStart <= c && c <= ColourCodeEnd
  }

  predicate IsFontCode(c: Byte) {
    c == TinyFont || c == SmallFont || c == MediumFont || c == BigFont
  }

  /**
    Number of raw argument bytes that follow a control code: one for the codes up to 4, none for
    the named codes 5 to 16, two up to 22 (NEWLINE_X_Y among them), four for INLINE_SPRITE and the
    remaining codes, none for the colour codes.
  */
  function ArgLength(c: Byte): (n: nat)
    ensures n <= 4
    ensures !IsFormatCode(c) || c == Terminator || IsColourCode(c) ==> n == 0
    ensures c == MoveX || c == AdjustPalette || c == Format3 || c == Format4 ==> n == 1
    ensures c == InlineSprite ==> n == 4
  {
    if c == Terminator then 0
    else if c <= 4 then 1
    else if c <= 16 then 0
    else if c <= 0x16 then 2
    else if c < 0x20 then 4
    else if IsColourCode(c) then 0
    else if IsFormatCode(c) then 4
    else 0
  }

  /** Distance from one codepoint to the next in a scan: the code itself plus its arguments. */
  function Advance(c: Byte): (n: nat)
    ensures 1 <= n <= 5
    ensures !IsFormatCode(c) ==> n == 1
  {
    1 + ArgLength(c)
  }

  /** The position of the terminator that a codepoint scan starting at `p` stops at. */
  function ScanEnd(s: seq<Byte>, p: nat): (e: nat)
    ensures p <= e && At(s, e) == 0
    ensures e <= p || e < |s| + 5
    decreases |s| - p
  {
    if At(s, p) == 0 then p else ScanEnd(s, p + Advance(At(s, p)))
  }

  /** `k` is reached by the codepoint scan that starts at `p`. */
  predicate OnPath(s: seq<Byte>, p: nat, k: nat)
    decreases k - p
  {
    p == k || (p < k && At(s, p) != 0 && OnPath(s, p + Advance(At(s, p)), k))
  }

  /** Scanning ends at the same terminator from every position on the path. */
  lemma {:induction false} OnPathScanEnd(s: seq<Byte>, p: nat, k: nat)
    requires OnPath(s, p, k)
    ensures k <= ScanEnd(s, p) && ScanEnd(s, k) == ScanEnd(s, p)
    decreases k - p
  {
    if p != k {
      OnPathScanEnd(s, p + Advance(At(s, p)), k);
    }
  }

  /** The path position after `k` is on the path too. */
  lemma {:induction false} OnPathStep(s: seq<Byte>, p: nat, k: nat)
    requires OnPath(s, p, k) && At(s, k) != 0
    ensures OnPath(s, p, k + Advance(At(s, k)))
    decreases k - p
  {
    if p != k {
      OnPathStep(s, p + Advance(At(s, p)), k);
    }
  }
  /** A scan that reaches `k` and then `m` from `k` reaches `m`. */
  lemma {:induction false} OnPathTrans(s: seq<Byte>, p: nat, k: nat, m: nat)
    requires OnPath(s, p, k) && OnPath(s, k, m)
    ensures OnPath(s, p, m)
    decreases k - p
  {
    if p != k {
      OnPathTrans(s, p + Advance(At(s, p)), k, m);
    }
  }

  /** Of two positions on one scan, the later is reached from the earlier, so nothing lies between a codepoint and the next. */
  lemma {:induction false} OnPathOrder(s: seq<Byte>, p: nat, k: nat, m: nat)
    requires OnPath(s, p, k) && OnPath(s, p, m) && k < m
    ensures OnPath(s, k, m) && k + Advance(At(s, k)) <= m
    decreases k - p
  {
    if p != k {
      OnPathOrder(s, p + Advance(At(s, p)), k, m);
    }
  }

  /** One step of a scan that started at `p`: the next position is on the path, before its end. */
  lemma ScanStep(s: seq<Byte>, p: nat, k: nat)
    requires OnPath(s, p, k) && At(s, k) != 0
    ensures var n := k + Advance(At(s, k));
      OnPath(s, p, n) && n <= ScanEnd(s, p) && ScanEnd(s, n) == ScanEnd(s, p)
  {
    OnPathStep(s, p, k);
    OnPathScanEnd(s, p, k + Advance(At(s, k)));
  }


  /** The scan only looks at the bytes up to its terminator. */
  lemma {:induction false} ScanEndFrame(s: seq<Byte>, t: seq<Byte>, p: nat)
    requires forall i :: p <= i <= ScanEnd(s, p) ==> At(s, i) == At(t, i)
    ensures ScanEnd(t, p) == ScanEnd(s, p)
    decreases |s| - p
  {
    if At(s, p) != 0 {
      ScanEndFrame(s, t, p + Advance(At(s, p)));
    }
  }

  /** Whether `k` is on the path depends only on the bytes before `k`. */
  lemma {:induction false} OnPathFrame(s: seq<Byte>, t: seq<Byte>, p: nat, k: nat)
    requires OnPath(s, p, k)
    requires forall i :: p <= i < k ==> At(s, i) == At(t, i)
    ensures OnPath(t, p, k)
    decreases k - p
  {
    if p != k {
      OnPathFrame(s, t, p + Advance(At(s, p)), k);
    }
  }

  /** A buffer that holds the bytes of another `d` positions further on is scanned the same way, `d` positions further on. */
  lemma {:induction false} ScanEndShift(s: seq<Byte>, t: seq<Byte>, p: nat, d: nat)
    requires forall i :: p <= i <= ScanEnd(s, p) ==> At(t, i + d) == At(s, i)
    ensures ScanEnd(t, p + d) == ScanEnd(s, p) + d
    decreases |s| - p
  {
    if At(s, p) != 0 {
      ScanEndShift(s, t, p + Advance(At(s, p)), d);
    }
  }
}
