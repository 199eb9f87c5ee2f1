/**
 * Whitespace trimming as JavaScript's `String.prototype.trim` performs it:
 * leading and trailing whitespace and line terminators are removed, the
 * interior of the string is kept as it is.
 */
module Strings {

  /**
   * The code points ECMAScript counts as WhiteSpace or LineTerminator:
   * TAB, VT, FF, SP, NBSP, ZWNBSP, the other Unicode space separators (Zs),
   * LF, CR, LINE SEPARATOR and PARAGRAPH SEPARATOR.
   */
  predicate IsWhitespace(c: char) {
    || c == '\t' || c == '\U{000B}' || c == '\U{000C}' || c == ' '
    || c == '\U{00A0}' || c == '\U{FEFF}' || c == '\U{1680}'
    || ('\U{2000}' <= c <= '\U{200A}')
    || c == '\U{202F}' || c == '\U{205F}' || c == '\U{3000}'
    || c == '\n' || c == '\r' || c == '\U{2028}' || c == '\U{2029}'
  }

  predicate AllWhitespace(s: string) {
    forall i :: 0 <= i < |s| ==> IsWhitespace(s[i])
  }

  /** `s` with its leading whitespace removed: the longest whitespace prefix goes. */
  function TrimStart(s: string): (r: string)
    ensures |r| <= |s| && r == s[|s| - |r|..]
    ensures AllWhitespace(s[..|s| - |r|])
    ensures r == [] || !IsWhitespace(r[0])
    decreases |s|
  {
    if |s| > 0 && IsWhitespace(s[0]) then
      var r := TrimStart(s[1..]);
      assert s[1..][..|s| - 1 - |r|] == s[1..|s| - |r|];
      assert s[..|s| - |r|] == [s[0]] + s[1..|s| - |r|];
      r
    else
      s
  }

  /** `s` with its trailing whitespace removed: the longest whitespace suffix goes. */
  function TrimEnd(s: string): (r: string)
    ensures |r| <= |s| && r == s[..|r|]
    ensures AllWhitespace(s[|r|..])
    ensures r == [] || !IsWhitespace(r[|r| - 1])
    decreases |s|
  {
    if |s| > 0 && IsWhitespace(s[|s| - 1]) then
      var r := TrimEnd(s[..|s| - 1]);
      assert s[|r|..] == s[..|s| - 1][|r|..] + [s[|s| - 1]];
      r
    else
      s
  }

  /**
   * `r` is what trimming `s` leaves when the kept part starts at index `i`:
   * `r` is the slice of `s` at `i`, everything before and after it is
   * whitespace, and `r` neither starts nor ends with whitespace.
   */
  predicate TrimmedAt(r: string, s: string, i: nat)
    requires i + |r| <= |s|
  {
    && s[i..i + |r|] == r
    && AllWhitespace(s[..i])
    && AllWhitespace(s[i + |r|..])
    && (r == [] || (!IsWhitespace(r[0]) && !IsWhitespace(r[|r| - 1])))
  }

  /** The reference definition of trimming, independent of how it is computed. */
  ghost predicate IsTrimOf(r: string, s: string) {
    exists i: nat :: i + |r| <= |s| && TrimmedAt(r, s, i)
  }

  /** JavaScript's `s.trim()`. */
  function Trim(s: string): (r: string)
    ensures IsTrimOf(r, s)
    ensures r == [] <==> AllWhitespace(s)
  {
    var a := TrimStart(s);
    var r := TrimEnd(a);
    var i := |s| - |a|;
    assert s[i..i + |r|] == r;
    assert s[i + |r|..] == a[|r|..];
    assert TrimmedAt(r, s, i);
    assert AllWhitespace(s) ==> r == [] by {
      if AllWhitespace(s) && r != [] {
        assert false;
      }
    }
    assert r == [] ==> AllWhitespace(s) by {
      if r == [] {
        forall k | 0 <= k < |s| ensures IsWhitespace(s[k]) {
          if k < i {
            assert s[k] == s[..i][k];
          }
        }
      }
    }
    r
  }

  /**
   * A string is blank when it holds nothing but whitespace; by
   * `BlankIffTrimEmpty` this is exactly when `!s.trim()` holds.
   */
  predicate IsBlank(s: string) {
    AllWhitespace(s)
  }

  /** Blankness is the emptiness test on the trimmed string. */
  lemma BlankIffTrimEmpty(s: string)
    ensures IsBlank(s) <==> Trim(s) == ""
  {
  }

  /** The reference definition picks exactly one string: trimming is well defined. */
  lemma TrimOfUnique(r1: string, r2: string, s: string)
    requires IsTrimOf(r1, s) && IsTrimOf(r2, s)
    ensures r1 == r2
  {
    var i1: nat :| i1 + |r1| <= |s| && TrimmedAt(r1, s, i1);
    var i2: nat :| i2 + |r2| <= |s| && TrimmedAt(r2, s, i2);
    if r1 == [] || r2 == [] {
      if r1 != [] {
        BlankSliceIsAllWhitespace(s, i2);
        assert false;
      } else if r2 != [] {
        BlankSliceIsAllWhitespace(s, i1);
        assert false;
      }
    } else {
      FirstNonWhitespace(r1, s, i1, i2, r2);
      FirstNonWhitespace(r2, s, i2, i1, r1);
      assert i1 == i2;
      LastNonWhitespace(r1, s, i1, r2);
      LastNonWhitespace(r2, s, i1, r1);
    }
  }

  /** When the kept part is empty, the whole string is whitespace. */
  lemma BlankSliceIsAllWhitespace(s: string, i: nat)
    requires i <= |s|
    requires AllWhitespace(s[..i]) && AllWhitespace(s[i..])
    ensures AllWhitespace(s)
  {
    forall k | 0 <= k < |s| ensures IsWhitespace(s[k]) {
      if k < i {
        assert s[k] == s[..i][k];
      } else {
        assert s[k] == s[i..][k - i];
      }
    }
  }

  /** A non-empty trim result starts at the first non-whitespace character. */
  lemma FirstNonWhitespace(r1: string, s: string, i1: nat, i2: nat, r2: string)
    requires r1 != [] && r2 != []
    requires i1 + |r1| <= |s| && TrimmedAt(r1, s, i1)
    requires i2 + |r2| <= |s| && TrimmedAt(r2, s, i2)
    ensures i1 <= i2
  {
  }

  /** Two non-empty trim results starting at the same index end at the same index. */
  lemma LastNonWhitespace(r1: string, s: string, i: nat, r2: string)
    requires r1 != [] && r2 != []
    requires i + |r1| <= |s| && TrimmedAt(r1, s, i)
    requires i + |r2| <= |s| && TrimmedAt(r2, s, i)
    ensures |r1| <= |r2|
    ensures |r1| == |r2| ==> r1 == r2
  {
  }

  /** `Trim` computes the reference definition. */
  lemma TrimMeetsReference(s: string, r: string)
    requires IsTrimOf(r, s)
    ensures Trim(s) == r
  {
    TrimOfUnique(Trim(s), r, s);
  }
}
