/**
 * The string operations both halves of the system lean on: `Trim`,
 * `IsNullOrWhiteSpace`, `ToLowerInvariant`/`toLowerCase`, case-insensitive
 * `Contains`/`Equals`, and the ordering used to sort titles.
 *
 * Only ASCII case folding and the ASCII/Latin-1 white-space characters are
 * modelled; the culture tables of .NET and of the browser are not.
 */
module Text {

  /** Characters both `String.Trim` (.NET) and `String.prototype.trim` (JS) strip. */
  predicate IsWhiteSpace(c: char) {
    (9 <= c as int <= 13) || c == ' ' || c as int == 0xA0
  }

  /** `string.IsNullOrWhiteSpace` on a non-null string; also `s.trim().length === 0`. */
  predicate IsBlank(s: string) {
    forall i :: 0 <= i < |s| ==> IsWhiteSpace(s[i])
  }

  /** Removes leading and trailing white space. */
  function Trim(s: string): (r: string)
    ensures |r| <= |s|
    ensures r == [] <==> IsBlank(s)
    decreases |s|
  {
    if s != [] && IsWhiteSpace(s[0]) then
      assert IsBlank(s) <==> IsBlank(s[1..]) by {
        assert forall i :: 0 <= i < |s[1..]| ==> s[1..][i] == s[i + 1];
      }
      Trim(s[1..])
    else if s != [] && IsWhiteSpace(s[|s| - 1]) then
      assert IsBlank(s) <==> IsBlank(s[..|s| - 1]) by {
        assert forall i :: 0 <= i < |s| - 1 ==> s[..|s| - 1][i] == s[i];
      }
      Trim(s[..|s| - 1])
    else s
  }

  /** `r` is `s[i..j]`, and everything `s` has before `i` and from `j` on is white space. */
  predicate StripsBlankBorders(s: string, r: string, i: int, j: int) {
    0 <= i <= j <= |s| && r == s[i..j] && IsBlank(s[..i]) && IsBlank(s[j..])
  }

  /** A white-space character in front of a blank string leaves it blank. */
  lemma BlankCons(c: char, t: string)
    requires IsWhiteSpace(c) && IsBlank(t)
    ensures IsBlank([c] + t)
  {
    assert forall k :: 1 <= k < |[c] + t| ==> ([c] + t)[k] == t[k - 1];
  }

  /** A white-space character after a blank string leaves it blank. */
  lemma BlankSnoc(t: string, c: char)
    requires IsBlank(t) && IsWhiteSpace(c)
    ensures IsBlank(t + [c])
  {
    assert forall k :: 0 <= k < |t| ==> (t + [c])[k] == t[k];
  }

  /**
   * Trimming removes a blank prefix and a blank suffix and nothing else; the
   * result is `s[i..j]`.
   */
  lemma {:induction false} TrimBorders(s: string) returns (i: int, j: int)
    ensures StripsBlankBorders(s, Trim(s), i, j)
    decreases |s|
  {
    if s != [] && IsWhiteSpace(s[0]) {
      var t := s[1..];
      var i', j' := TrimBorders(t);
      BlankCons(s[0], t[..i']);
      assert s[..i' + 1] == [s[0]] + t[..i'];
      assert s[i' + 1..j' + 1] == t[i'..j'];
      assert s[j' + 1..] == t[j'..];
      i, j := i' + 1, j' + 1;
    } else if s != [] && IsWhiteSpace(s[|s| - 1]) {
      var t := s[..|s| - 1];
      i, j := TrimBorders(t);
      BlankSnoc(t[j..], s[|s| - 1]);
      assert s[j..] == t[j..] + [s[|s| - 1]];
      assert s[i..j] == t[i..j] && s[..i] == t[..i];
    } else {
      assert s[..0] == [] && s[|s|..] == [] && s[0..|s|] == s;
      i, j := 0, |s|;
    }
  }

  /**
   * The trimmed string is the input with a blank prefix and a blank suffix
   * removed, and starts and ends with a non-white-space character.
   */
  lemma {:induction false} TrimEnds(s: string)
    ensures Trim(s) == [] || (!IsWhiteSpace(Trim(s)[0]) && !IsWhiteSpace(Trim(s)[|Trim(s)| - 1]))
    ensures exists i, j :: StripsBlankBorders(s, Trim(s), i, j)
    ensures IsInfix(Trim(s), s)
    decreases |s|
  {
    var i, j := TrimBorders(s);
    if s != [] && IsWhiteSpace(s[0]) {
      TrimEnds(s[1..]);
    } else if s != [] && IsWhiteSpace(s[|s| - 1]) {
      TrimEnds(s[..|s| - 1]);
      InfixOfPrefix(Trim(s), s[..|s| - 1], s);
    } else {
      assert Trim(s) <= s;
    }
  }

  /** An infix of a prefix is an infix. */
  lemma {:induction false} InfixOfPrefix(needle: string, p: string, hay: string)
    requires IsInfix(needle, p) && p <= hay
    ensures IsInfix(needle, hay)
    decreases |p|
  {
    if needle <= p {
      assert needle <= hay;
    } else {
      InfixOfPrefix(needle, p[1..], hay[1..]);
    }
  }

  lemma TrimIdempotent(s: string)
    ensures Trim(Trim(s)) == Trim(s)
  {
    TrimEnds(s);
  }

  function LowerChar(c: char): char {
    if 'A' <= c <= 'Z' then (c as int + 32) as char else c
  }

  /** `ToLowerInvariant` / `toLowerCase`, on ASCII letters. */
  function Lower(s: string): (r: string)
    ensures |r| == |s|
    ensures forall i :: 0 <= i < |s| ==> r[i] == LowerChar(s[i])
  {
    seq(|s|, i requires 0 <= i < |s| => LowerChar(s[i]))
  }

  /**
   * Lower-casing leaves no upper-case ASCII letter, is idempotent, and a
   * case-insensitive comparison cannot tell a string from its lower-cased form.
   */
  lemma LowerCaseBlind(s: string, other: string)
    ensures forall i :: 0 <= i < |Lower(s)| ==> !('A' <= Lower(s)[i] <= 'Z')
    ensures Lower(Lower(s)) == Lower(s)
    ensures EqualsIgnoreCase(Lower(s), s)
    ensures ContainsIgnoreCase(Lower(s), other) == ContainsIgnoreCase(s, other)
  {
    assert Lower(Lower(s)) == Lower(s);
  }

  /** The client's normal form of an address: `s.trim().toLowerCase()`. */
  function Normalize(s: string): string {
    Lower(Trim(s))
  }

  /** `string.Equals(a, b, StringComparison.OrdinalIgnoreCase)`. */
  predicate EqualsIgnoreCase(a: string, b: string) {
    Lower(a) == Lower(b)
  }

  /** `needle` occurs as a contiguous block of `hay`. */
  predicate IsInfix(needle: string, hay: string)
    decreases |hay|
  {
    needle <= hay || (hay != [] && IsInfix(needle, hay[1..]))
  }

  /** `needle` occurs in `hay` starting at index `i`. */
  predicate OccursAt(needle: string, hay: string, i: int) {
    0 <= i <= |hay| - |needle| && hay[i..i + |needle|] == needle
  }

  lemma {:induction false} IsInfixAt(needle: string, hay: string)
    ensures IsInfix(needle, hay) <==> exists i :: OccursAt(needle, hay, i)
    decreases |hay|
  {
    if needle <= hay {
      assert OccursAt(needle, hay, 0);
    } else if hay != [] {
      IsInfixAt(needle, hay[1..]);
      if exists i :: OccursAt(needle, hay, i) {
        var i :| OccursAt(needle, hay, i);
        assert i != 0;
        assert OccursAt(needle, hay[1..], i - 1);
      }
      if IsInfix(needle, hay[1..]) {
        var j :| OccursAt(needle, hay[1..], j);
        assert OccursAt(needle, hay, j + 1);
      }
    } else {
      assert forall i :: !OccursAt(needle, hay, i);
    }
  }

  /** `hay.Contains(needle, StringComparison.OrdinalIgnoreCase)`. */
  predicate ContainsIgnoreCase(hay: string, needle: string) {
    IsInfix(Lower(needle), Lower(hay))
  }

  /** Ordinal lexicographic order on strings (the order of sorted titles). */
  predicate LexLe(a: string, b: string)
    decreases |a|
  {
    a == [] || (b != [] && (a[0] < b[0] || (a[0] == b[0] && LexLe(a[1..], b[1..]))))
  }

  lemma {:induction false} LexTotal(a: string, b: string)
    ensures LexLe(a, b) || LexLe(b, a)
    decreases |a|
  {
    if a != [] && b != [] && a[0] == b[0] {
      LexTotal(a[1..], b[1..]);
    }
  }

  lemma {:induction false} LexTransitive(a: string, b: string, c: string)
    requires LexLe(a, b) && LexLe(b, c)
    ensures LexLe(a, c)
    decreases |a|
  {
    if a != [] && a[0] == b[0] && b[0] == c[0] {
      LexTransitive(a[1..], b[1..], c[1..]);
    }
  }

  lemma {:induction false} LexAntisymmetric(a: string, b: string)
    requires LexLe(a, b) && LexLe(b, a)
    ensures a == b
    decreases |a|
  {
    if a != [] {
      LexAntisymmetric(a[1..], b[1..]);
      assert a == [a[0]] + a[1..] && b == [b[0]] + b[1..];
    }
  }
}
