/**
 * The file scanner's wildcard matcher (`MatchWildcard` in FileScanner.cpp).
 *
 * Names and patterns are zero-terminated byte strings: reading past the end
 * of a sequence yields the terminator (`Common.At`), so a sequence with no
 * zero byte is a whole C string. `*` matches a run of bytes, `?` any single
 * byte except `.`, and every other byte itself, compared through `toupper`.
 *
 * `MatchAsWritten` is the routine as the source has it, including two places
 * where it departs from the wildcard algorithm it cites: it can fail to
 * terminate, which the `Outcome` result records, and a trailing `*` rejects
 * every non-empty rest of the name. `MatchWildcard` is the routine with both
 * places repaired; it agrees with the declarative `Glob` on every input.
 */
module Wildcard {
  import opened Common

  const Star: Byte := 0x2A
  const Question: Byte := 0x3F
  const Dot: Byte := 0x2E

  /** `toupper` in the C locale: only the ASCII lower-case letters change. */
  function Upper(c: Byte): (u: Byte)
    ensures (c == 0) == (u == 0)
    ensures u == Star <==> c == Star
    ensures u == Question <==> c == Question
    ensures u == Dot <==> c == Dot
    ensures 0x61 <= c <= 0x7A ==> u == c - 0x20
  {
    if 0x61 <= c <= 0x7A then c - 0x20 else c
  }

  /** The pattern after its leading run of `*` (the source's `do pattern++ while (*pattern == '*')`). */
  function SkipStars(p: seq<Byte>): (q: seq<Byte>)
    ensures |q| <= |p|
  {
    if At(p, 0) == Star then SkipStars(p[1..]) else p
  }

  /** What `SkipStars` removes is a run of `*`, and what it leaves is the rest of the pattern, not starting with `*`. */
  lemma {:induction false} SkipStarsShape(p: seq<Byte>)
    ensures var q := SkipStars(p);
      q == p[|p| - |q|..] && At(q, 0) != Star
      && forall i :: 0 <= i < |p| - |q| ==> p[i] == Star
  {
    if At(p, 0) == Star {
      SkipStarsShape(p[1..]);
      var q := SkipStars(p);
      assert p[1..][|p| - 1 - |q|..] == p[|p| - |q|..];
      forall i | 0 < i < |p| - |q|
        ensures p[i] == Star
      {
        assert p[i] == p[1..][i - 1];
      }
    }
  }

  /** What a call of the matcher as written does: return a verdict, or loop forever. */
  datatype Outcome = Returns(matched: bool) | Hangs

  /**
   * The matcher as written (FileScanner.cpp:510-554). The main loop walks
   * name and pattern together while the name lasts. When the name runs out
   * the final loop spins on a `*` without ever moving the pattern, so a
   * pattern that still has a `*` there never returns.
   */
  function MatchAsWritten(f: seq<Byte>, p: seq<Byte>): Outcome
    decreases |f|, |p|, 0
  {
    if At(f, 0) == 0 then
      if At(p, 0) == Star then Hangs else Returns(At(p, 0) == 0)
    else if At(p, 0) == Question then
      if f[0] == Dot then Returns(false) else MatchAsWritten(f[1..], p[1..])
    else if At(p, 0) == Star then
      var q := SkipStars(p[1..]);
      if At(q, 0) == 0 then Returns(false) else SearchAsWritten(f, q)
    else if Upper(f[0]) != Upper(At(p, 0)) then
      Returns(false)
    else
      MatchAsWritten(f[1..], p[1..])
  }

  /** The `while (*fileName != '\0') if (MatchWildcard(fileName++, pattern)) return true;` search of the `*` case. */
  function SearchAsWritten(f: seq<Byte>, q: seq<Byte>): Outcome
    decreases |f|, |q|, 1
  {
    if At(f, 0) == 0 then Returns(false)
    else match MatchAsWritten(f, q)
      case Returns(true) => Returns(true)
      case Returns(false) => SearchAsWritten(f[1..], q)
      case Hangs => Hangs
  }

  /**
   * The matcher with the two repairs: the final loop skips the pattern's
   * trailing `*` run (`++pattern`), and a `*` that ends the pattern accepts
   * the rest of the name. This is the matcher the scanner model uses.
   */
  function MatchWildcard(f: seq<Byte>, p: seq<Byte>): bool
    decreases |f|, |p|, 0
  {
    if At(f, 0) == 0 then
      At(SkipStars(p), 0) == 0
    else if At(p, 0) == Question then
      f[0] != Dot && MatchWildcard(f[1..], p[1..])
    else if At(p, 0) == Star then
      var q := SkipStars(p[1..]);
      At(q, 0) == 0 || Search(f, q)
    else
      Upper(f[0]) == Upper(At(p, 0)) && MatchWildcard(f[1..], p[1..])
  }

  /** Whether `q` matches some non-empty suffix of `f`, trying the longest suffix first. */
  function Search(f: seq<Byte>, q: seq<Byte>): bool
    decreases |f|, |q|, 1
  {
    At(f, 0) != 0 && (MatchWildcard(f, q) || Search(f[1..], q))
  }

  // ---------------------------------------------------------------------------
  // The declarative reference.
  // ---------------------------------------------------------------------------

  /** A string with no terminator inside it, i.e. a whole C string. */
  predicate NoNul(s: seq<Byte>)
  {
    forall i :: 0 <= i < |s| ==> s[i] != 0
  }

  /** How one name byte is compared with one pattern byte other than `*`. */
  predicate ByteMatches(c: Byte, pc: Byte)
  {
    if pc == Question then c != Dot else Upper(c) == Upper(pc)
  }

  /** Wildcard matching as a definition: `*` stands for any run of bytes, every other pattern byte for exactly one. */
  ghost predicate Glob(f: seq<Byte>, p: seq<Byte>)
    decreases |p|
  {
    if p == [] then f == []
    else if p[0] == Star then exists k :: 0 <= k <= |f| && Glob(f[k..], p[1..])
    else |f| > 0 && ByteMatches(f[0], p[0]) && Glob(f[1..], p[1..])
  }

  predicate AllStars(p: seq<Byte>)
  {
    forall i :: 0 <= i < |p| ==> p[i] == Star
  }

  lemma {:induction false} GlobEmptyName(p: seq<Byte>)
    ensures Glob([], p) <==> AllStars(p)
    decreases |p|
  {
    var e: seq<Byte> := [];
    if p != [] && p[0] == Star {
      GlobEmptyName(p[1..]);
      assert e[0..] == e;
    }
  }

  /** A leading run of `*` in front of `q` stands for any prefix of the name. */
  lemma {:induction false} GlobStars(f: seq<Byte>, p: seq<Byte>)
    requires p != [] && p[0] == Star
    ensures Glob(f, p) <==> exists k :: 0 <= k <= |f| && Glob(f[k..], SkipStars(p))
    decreases |p|
  {
    var q := SkipStars(p);
    var r := p[1..];
    assert q == SkipStars(r);
    if At(r, 0) == Star {
      if Glob(f, p) {
        var k :| 0 <= k <= |f| && Glob(f[k..], r);
        GlobStars(f[k..], r);
        var j :| 0 <= j <= |f[k..]| && Glob(f[k..][j..], q);
        assert f[k..][j..] == f[k + j..];
        assert Glob(f[k + j..], q);
      }
      if exists m :: 0 <= m <= |f| && Glob(f[m..], q) {
        var m :| 0 <= m <= |f| && Glob(f[m..], q);
        GlobStars(f[m..], r);
        assert f[m..][0..] == f[m..];
        assert Glob(f[m..], r);
      }
    } else {
      assert q == r;
    }
  }

  /** With no `*` left after it, a leading `*` run cannot be matched by the empty rest of a name. */
  lemma GlobEmptyRest(q: seq<Byte>)
    requires q != [] && q[0] != Star
    ensures !Glob([], q)
  {
  }

  lemma {:induction false} SearchFinds(f: seq<Byte>, q: seq<Byte>)
    requires NoNul(f) && NoNul(q) && q != [] && q[0] != Star
    requires forall k :: 0 <= k < |f| ==> (MatchWildcard(f[k..], q) <==> Glob(f[k..], q))
    ensures Search(f, q) <==> exists k :: 0 <= k <= |f| && Glob(f[k..], q)
    decreases |f|
  {
    if f == [] {
      GlobEmptyRest(q);
      assert forall k :: 0 <= k <= |f| ==> f[k..] == [];
    } else {
      assert f[0..] == f;
      forall k | 0 <= k < |f[1..]|
        ensures MatchWildcard(f[1..][k..], q) <==> Glob(f[1..][k..], q)
      {
        assert f[1..][k..] == f[k + 1..];
      }
      SearchFinds(f[1..], q);
      if exists k :: 0 <= k <= |f| && Glob(f[k..], q) {
        var k :| 0 <= k <= |f| && Glob(f[k..], q);
        if k > 0 {
          assert f[1..][k - 1..] == f[k..];
        }
      }
      if exists k :: 0 <= k <= |f[1..]| && Glob(f[1..][k..], q) {
        var k :| 0 <= k <= |f[1..]| && Glob(f[1..][k..], q);
        assert f[1..][k..] == f[k + 1..];
      }
    }
  }

  /** On whole C strings the repaired matcher decides exactly `Glob`. */
  lemma {:induction false} MatchWildcardIsGlob(f: seq<Byte>, p: seq<Byte>)
    requires NoNul(f) && NoNul(p)
    ensures MatchWildcard(f, p) <==> Glob(f, p)
    decreases |f|, |p|
  {
    if f == [] {
      GlobEmptyName(p);
      SkipStarsShape(p);
      var q := SkipStars(p);
      assert q != [] ==> q[0] == p[|p| - |q|];
    } else if p == [] {
    } else if p[0] == Question {
      MatchWildcardIsGlob(f[1..], p[1..]);
    } else if p[0] == Star {
      var q := SkipStars(p[1..]);
      SkipStarsShape(p[1..]);
      assert q == SkipStars(p);
      assert q != [] ==> q[0] == p[|p| - |q|];
      assert forall i :: 0 <= i < |q| ==> q[i] == p[|p| - |q| + i];
      GlobStars(f, p);
      if q == [] {
        assert f[|f|..] == [];
      } else {
        forall k | 0 <= k < |f|
          ensures MatchWildcard(f[k..], q) <==> Glob(f[k..], q)
        {
          MatchWildcardIsGlob(f[k..], q);
        }
        SearchFinds(f, q);
      }
    } else {
      MatchWildcardIsGlob(f[1..], p[1..]);
    }
  }

  // ---------------------------------------------------------------------------
  // Properties of the matcher as written.
  // ---------------------------------------------------------------------------

  predicate NoStars(p: seq<Byte>)
  {
    forall i :: 0 <= i < |p| ==> p[i] != Star
  }

  /**
   * Without `*`, the matcher as written always returns, and it accepts
   * exactly the names of the pattern's length whose bytes match one by one:
   * a name that outlasts the pattern meets the pattern's terminator and fails.
   */
  lemma {:induction false} NoStarsExact(f: seq<Byte>, p: seq<Byte>)
    requires NoNul(f) && NoNul(p) && NoStars(p)
    ensures MatchAsWritten(f, p)
      == Returns(|f| == |p| && forall i :: 0 <= i < |f| ==> ByteMatches(f[i], p[i]))
    decreases |f|
  {
    if f != [] && p != [] {
      NoStarsExact(f[1..], p[1..]);
      if |f| == |p| && ByteMatches(f[0], p[0]) && MatchAsWritten(f[1..], p[1..]).matched {
        forall i | 0 <= i < |f|
          ensures ByteMatches(f[i], p[i])
        {
          if i > 0 {
            assert f[i] == f[1..][i - 1] && p[i] == p[1..][i - 1];
          }
        }
      }
    }
  }

  /** With the name used up, the matcher as written accepts only the empty pattern rest, and spins on a `*`. */
  lemma EmptyNameAsWritten(p: seq<Byte>)
    ensures At(p, 0) == Star ==> MatchAsWritten([], p) == Hangs
    ensures At(p, 0) != Star ==> MatchAsWritten([], p) == Returns(p == [] || p[0] == 0)
  {
  }

  /** A `*` run that ends the pattern rejects every name that still has bytes left. */
  lemma TrailingStarsReject(f: seq<Byte>, p: seq<Byte>)
    requires At(f, 0) != 0 && p != [] && AllStars(p)
    ensures MatchAsWritten(f, p) == Returns(false)
  {
    SkipStarsShape(p[1..]);
  }

  /** Suffix `f[k..]` is accepted and every longer one was rejected. */
  predicate FirstAccepted(f: seq<Byte>, q: seq<Byte>, k: int)
  {
    0 <= k < |f| && MatchAsWritten(f[k..], q) == Returns(true)
    && forall j :: 0 <= j < k ==> MatchAsWritten(f[j..], q) == Returns(false)
  }

  /**
   * Otherwise a `*` tries the rest of the pattern against the name's
   * suffixes, longest first, never the empty one: the first suffix whose
   * attempt does not fail decides, and the search fails when all fail.
   */
  lemma {:induction false} SearchAsWrittenFirst(f: seq<Byte>, q: seq<Byte>)
    requires NoNul(f)
    ensures SearchAsWritten(f, q) == Returns(true) <==> exists k :: FirstAccepted(f, q, k)
    decreases |f|
  {
    if f != [] {
      var g := f[1..];
      assert f[0..] == f;
      assert NoNul(g);
      SearchAsWrittenFirst(g, q);
      if MatchAsWritten(f, q) == Returns(false) {
        assert SearchAsWritten(f, q) == SearchAsWritten(g, q);
        if SearchAsWritten(g, q) == Returns(true) {
          var k :| FirstAccepted(g, q, k);
          FirstAcceptedShift(f, q, k + 1);
        }
        if exists k :: FirstAccepted(f, q, k) {
          var k :| FirstAccepted(f, q, k);
          assert k != 0;
          FirstAcceptedShift(f, q, k);
        }
      } else {
        assert FirstAccepted(f, q, 0) <==> MatchAsWritten(f, q) == Returns(true);
        assert forall k :: FirstAccepted(f, q, k) ==> k == 0;
      }
    }
  }

  /** Dropping the name's first byte shifts the first accepted suffix by one. */
  lemma FirstAcceptedShift(f: seq<Byte>, q: seq<Byte>, k: int)
    requires 0 < k <= |f| && MatchAsWritten(f, q) == Returns(false)
    ensures FirstAccepted(f, q, k) <==> FirstAccepted(f[1..], q, k - 1)
  {
    var g := f[1..];
    assert f[0..] == f;
    assert forall j :: 0 <= j < |g| ==> g[j..] == f[j + 1..];
    if k < |f| {
      assert g[k - 1..] == f[k..];
      if forall j :: 0 <= j < k - 1 ==> MatchAsWritten(g[j..], q) == Returns(false) {
        forall j | 0 <= j < k
          ensures MatchAsWritten(f[j..], q) == Returns(false)
        {
          if j > 0 {
            assert g[j - 1..] == f[j..];
          }
        }
      }
    }
  }

  lemma {:induction false} SearchAsWrittenAll(f: seq<Byte>, q: seq<Byte>)
    requires NoNul(f)
    ensures SearchAsWritten(f, q) == Returns(false) <==>
      forall k :: 0 <= k < |f| ==> MatchAsWritten(f[k..], q) == Returns(false)
    decreases |f|
  {
    if f != [] {
      var g := f[1..];
      assert f[0..] == f;
      assert NoNul(g);
      SearchAsWrittenAll(g, q);
      if MatchAsWritten(f, q) == Returns(false) {
        assert SearchAsWritten(f, q) == SearchAsWritten(g, q);
        forall k | 0 <= k < |g|
          ensures MatchAsWritten(g[k..], q) == MatchAsWritten(f[k + 1..], q)
        {
          assert g[k..] == f[k + 1..];
        }
        if forall k :: 0 <= k < |g| ==> MatchAsWritten(g[k..], q) == Returns(false) {
          forall k | 0 <= k < |f|
            ensures MatchAsWritten(f[k..], q) == Returns(false)
          {
            if k > 0 {
              assert MatchAsWritten(g[k - 1..], q) == Returns(false);
            }
          }
        }
      }
    }
  }

  /** Pattern bytes and name bytes that agree up to `toupper`. */
  predicate SameUpToCase(a: seq<Byte>, b: seq<Byte>)
  {
    |a| == |b| && forall i :: 0 <= i < |a| ==> Upper(a[i]) == Upper(b[i])
  }

  lemma {:induction false} SkipStarsUpToCase(p: seq<Byte>, p': seq<Byte>)
    requires SameUpToCase(p, p')
    ensures SameUpToCase(SkipStars(p), SkipStars(p'))
    decreases |p|
  {
    if At(p, 0) == Star {
      assert Upper(p'[0]) == Upper(p[0]);
      assert SameUpToCase(p[1..], p'[1..]) by {
        forall i | 0 <= i < |p| - 1
          ensures Upper(p[1..][i]) == Upper(p'[1..][i])
        {
          assert p[1..][i] == p[i + 1] && p'[1..][i] == p'[i + 1];
        }
      }
      SkipStarsUpToCase(p[1..], p'[1..]);
    } else if p != [] {
      assert Upper(p'[0]) == Upper(p[0]);
    }
  }

  lemma TailUpToCase(a: seq<Byte>, b: seq<Byte>)
    requires SameUpToCase(a, b) && a != []
    ensures SameUpToCase(a[1..], b[1..])
  {
    forall i | 0 <= i < |a| - 1
      ensures Upper(a[1..][i]) == Upper(b[1..][i])
    {
      assert a[1..][i] == a[i + 1] && b[1..][i] == b[i + 1];
    }
  }

  /** The matcher as written cannot tell names, or patterns, apart that differ only in letter case. */
  lemma {:induction false} AsWrittenIgnoresCase(f: seq<Byte>, f': seq<Byte>, p: seq<Byte>, p': seq<Byte>)
    requires SameUpToCase(f, f') && SameUpToCase(p, p')
    ensures MatchAsWritten(f, p) == MatchAsWritten(f', p')
    decreases |f|, |p|, 0
  {
    if f != [] {
      assert Upper(f[0]) == Upper(f'[0]);
      TailUpToCase(f, f');
    }
    if p != [] {
      assert Upper(p[0]) == Upper(p'[0]);
      TailUpToCase(p, p');
    }
    if At(f, 0) != 0 && At(p, 0) != 0 {
      if At(p, 0) == Star {
        SkipStarsUpToCase(p[1..], p'[1..]);
        var q, q' := SkipStars(p[1..]), SkipStars(p'[1..]);
        if q != [] {
          assert Upper(q[0]) == Upper(q'[0]);
          SearchIgnoresCase(f, f', q, q');
        }
      } else if At(p, 0) == Question || Upper(f[0]) == Upper(At(p, 0)) {
        AsWrittenIgnoresCase(f[1..], f'[1..], p[1..], p'[1..]);
      }
    }
  }

  lemma {:induction false} SearchIgnoresCase(f: seq<Byte>, f': seq<Byte>, q: seq<Byte>, q': seq<Byte>)
    requires SameUpToCase(f, f') && SameUpToCase(q, q')
    ensures SearchAsWritten(f, q) == SearchAsWritten(f', q')
    decreases |f|, |q|, 1
  {
    if f != [] {
      assert Upper(f[0]) == Upper(f'[0]);
      if f[0] != 0 {
        AsWrittenIgnoresCase(f, f', q, q');
        TailUpToCase(f, f');
        SearchIgnoresCase(f[1..], f'[1..], q, q');
      }
    }
  }

  /** Whatever the matcher as written accepts, the repaired one accepts too. */
  lemma {:induction false} AsWrittenAcceptsLess(f: seq<Byte>, p: seq<Byte>)
    requires MatchAsWritten(f, p) == Returns(true)
    ensures MatchWildcard(f, p)
    decreases |f|, |p|, 0
  {
    if At(f, 0) != 0 {
      if At(p, 0) == Star {
        SearchAcceptsLess(f, SkipStars(p[1..]));
      } else {
        AsWrittenAcceptsLess(f[1..], p[1..]);
      }
    }
  }

  lemma {:induction false} SearchAcceptsLess(f: seq<Byte>, q: seq<Byte>)
    requires SearchAsWritten(f, q) == Returns(true)
    ensures Search(f, q)
    decreases |f|, |q|, 1
  {
    if MatchAsWritten(f, q) == Returns(true) {
      AsWrittenAcceptsLess(f, q);
    } else {
      SearchAcceptsLess(f[1..], q);
    }
  }

  /**
   * Where the matcher as written returns and the pattern does not end in
   * `*`, it decides as the repaired one does: the two repairs touch only a
   * pattern that ends in `*` and a call that never returns.
   */
  lemma {:induction false} AsWrittenAgrees(f: seq<Byte>, p: seq<Byte>)
    requires NoNul(p) && (p == [] || p[|p| - 1] != Star)
    requires MatchAsWritten(f, p).Returns?
    ensures MatchAsWritten(f, p).matched == MatchWildcard(f, p)
    decreases |f|, |p|, 0
  {
    if At(f, 0) != 0 {
      if At(p, 0) == Question {
        if f[0] != Dot {
          AsWrittenAgrees(f[1..], p[1..]);
        }
      } else if At(p, 0) == Star {
        var q := SkipStars(p[1..]);
        SkipStarsShape(p[1..]);
        assert q == p[|p| - |q|..];
        assert q != [];
        assert q[0] == p[|p| - |q|];
        assert NoNul(q) && q[|q| - 1] == p[|p| - 1];
        SearchAgrees(f, q);
      } else if Upper(f[0]) == Upper(At(p, 0)) {
        AsWrittenAgrees(f[1..], p[1..]);
      }
    }
  }

  lemma {:induction false} SearchAgrees(f: seq<Byte>, q: seq<Byte>)
    requires NoNul(q) && (q == [] || q[|q| - 1] != Star)
    requires SearchAsWritten(f, q).Returns?
    ensures SearchAsWritten(f, q).matched == Search(f, q)
    decreases |f|, |q|, 1
  {
    if At(f, 0) != 0 {
      AsWrittenAgrees(f, q);
      if MatchAsWritten(f, q) == Returns(false) {
        SearchAgrees(f[1..], q);
      }
    }
  }

  /**
   * A pattern of one `*` and then no other `*`, such as `*.sv6`, always
   * returns on a non-empty name, so on such patterns the matcher as written
   * and the repaired one agree outright (`AsWrittenAgrees`).
   */
  lemma LeadingStarReturns(f: seq<Byte>, q: seq<Byte>)
    requires NoNul(f) && f != [] && NoNul(q) && NoStars(q)
    ensures MatchAsWritten(f, [Star] + q).Returns?
  {
    var p := [Star] + q;
    assert p[1..] == q;
    assert SkipStars(q) == q;
    if q != [] {
      SearchReturns(f, q);
    }
  }

  lemma {:induction false} SearchReturns(f: seq<Byte>, q: seq<Byte>)
    requires NoNul(f) && NoNul(q) && NoStars(q)
    ensures SearchAsWritten(f, q).Returns?
    decreases |f|
  {
    if f != [] {
      NoStarsExact(f, q);
      assert NoNul(f[1..]);
      SearchReturns(f[1..], q);
    }
  }

  // ---------------------------------------------------------------------------
  // The two departures, on concrete inputs.
  // ---------------------------------------------------------------------------

  /** "a" against "a*": the final loop meets the `*` and advances the name instead of the pattern. */
  lemma TrailingStarHangs()
    ensures MatchAsWritten([0x61], [0x61, Star]) == Hangs
    ensures MatchWildcard([0x61], [0x61, Star])
  {
    var e: seq<Byte> := [];
    assert [0x61][1..] == e;
    assert [0x61, Star][1..] == [Star];
    assert MatchAsWritten([], [Star]) == Hangs;
    assert SkipStars([Star]) == [];
  }

  /** "a.b" against "*.*", and "abc" against "*": a `*` that ends the pattern rejects what it should accept. */
  lemma FinalStarRejects()
    ensures MatchAsWritten([0x61, 0x62, 0x63], [Star]) == Returns(false)
    ensures MatchWildcard([0x61, 0x62, 0x63], [Star])
    ensures MatchAsWritten([0x61, Dot, 0x62], [Star, Dot, Star]) == Returns(false)
    ensures MatchWildcard([0x61, Dot, 0x62], [Star, Dot, Star])
  {
    var tail := [Dot, Star];
    assert [Star][1..] == [];
    assert [Star, Dot, Star][1..] == tail;
    assert SkipStars(tail) == tail;
    var b := [0x62];
    var db := [Dot, 0x62];
    assert [0x61, Dot, 0x62][1..] == db;
    assert db[1..] == b && b[1..] == [];
    assert tail[1..] == [Star];
    assert MatchAsWritten(b, [Star]) == Returns(false);
    assert MatchWildcard(b, [Star]);
    assert MatchAsWritten(db, tail) == Returns(false);
    assert MatchWildcard(db, tail);
    assert MatchAsWritten(b, tail) == Returns(false);
    assert SearchAsWritten(b, tail) == Returns(false);
    assert SearchAsWritten(db, tail) == Returns(false);
    assert MatchAsWritten([0x61, Dot, 0x62], tail) == Returns(false);
  }
}
