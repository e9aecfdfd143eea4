/** Byte-level building blocks shared by the text-layout and file-scanner models. */
module Common {

  /** One byte of a UTF-8 buffer. The model restricts text to single-byte codepoints, so a byte is a codepoint. */
  type Byte = bv8

  /** The values of a 64-bit unsigned integer. */
  type UInt64 = x: int | 0 <= x < 0x1_0000_0000_0000_0000

  datatype Option<T> = None | Some(value: T)

  /** The byte at index `i` of a zero-terminated buffer; reading past the end yields the terminator. */
  function At(s: seq<Byte>, i: int): (b: Byte)
    ensures i < 0 || i >= |s| ==> b == 0
    ensures 0 <= i < |s| ==> b == s[i]
  {
    if 0 <= i < |s| then s[i] else 0
  }

  /** The zero-terminated string a buffer holds: its bytes before the first terminator. */
  function CString(t: seq<Byte>): (r: seq<Byte>)
    ensures |r| <= |t| && r == t[..|r|]
    ensures 0 !in r && At(t, |r|) == 0
  {
    if |t| == 0 || t[0] == 0 then [] else [t[0]] + CString(t[1..])
  }

  /** A buffer whose first terminator is at `n` holds the string `t[..n]`. */
  lemma {:induction false} CStringAt(t: seq<Byte>, n: nat)
    requires n <= |t| && At(t, n) == 0
    requires forall j :: 0 <= j < n ==> t[j] != 0
    ensures CString(t) == t[..n]
  {
    if n > 0 {
      CStringAt(t[1..], n - 1);
      assert t[1..][..n - 1] == t[1..n];
      assert t[..n] == [t[0]] + t[1..n];
    }
  }

  /** The unsigned value of four bytes read as a little-endian 32-bit word. */
  function Word32(b0: Byte, b1: Byte, b2: Byte, b3: Byte): (v: nat)
    ensures v < 0x1_0000_0000
  {
    b0 as nat + 0x100 * b1 as nat + 0x1_0000 * b2 as nat + 0x100_0000 * b3 as nat
  }

  /** How many times `x` occurs in `s`. */
  function Count(s: seq<Byte>, x: Byte): (n: nat)
    ensures n <= |s|
    ensures x !in s ==> n == 0
  {
    if s == [] then 0 else (if s[0] == x then 1 else 0) + Count(s[1..], x)
  }

  function Max(a: int, b: int): (m: int)
    ensures m >= a && m >= b && (m == a || m == b)
  {
    if a >= b then a else b
  }
}
