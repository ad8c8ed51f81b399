/**
 * Go's `strings.TrimSpace` on text given as a sequence of Unicode code points.
 * Whitespace is `unicode.IsSpace`: the Latin-1 spaces and the Unicode
 * White_Space property.
 */
module GoStrings {

  /**
   * `unicode.IsSpace`. On ASCII it is the six characters of `asciiSpace`,
   * the table TrimSpace's fast path uses; no character of a signed decimal
   * number is a space.
   */
  predicate IsSpace(c: char)
    ensures c <= '\U{007F}' ==> (IsSpace(c) <==> c in "\t\n\U{000B}\U{000C}\r ")
    ensures IsSpace(c) ==> !('0' <= c <= '9') && c != '+' && c != '-'
  {
    || c == '\t' || c == '\n' || c == '\U{000B}' || c == '\U{000C}' || c == '\r' || c == ' '
    || c == '\U{0085}' || c == '\U{00A0}' || c == '\U{1680}'
    || ('\U{2000}' <= c <= '\U{200A}')
    || c == '\U{2028}' || c == '\U{2029}' || c == '\U{202F}' || c == '\U{205F}' || c == '\U{3000}'
  }

  predicate AllSpace(s: string)
  {
    forall i | 0 <= i < |s| :: IsSpace(s[i])
  }

  /** The length of the longest all-space prefix of `s`. */
  function LeadingSpaces(s: string): (n: nat)
    ensures n <= |s| && forall i | 0 <= i < n :: IsSpace(s[i])
    ensures n == |s| || !IsSpace(s[n])
  {
    if s != [] && IsSpace(s[0]) then 1 + LeadingSpaces(s[1..]) else 0
  }

  /** The length of the longest all-space suffix of `s`. */
  function TrailingSpaces(s: string): (n: nat)
    ensures n <= |s| && forall i | |s| - n <= i < |s| :: IsSpace(s[i])
    ensures n == |s| || !IsSpace(s[|s| - n - 1])
  {
    if s != [] && IsSpace(s[|s| - 1]) then 1 + TrailingSpaces(s[..|s| - 1]) else 0
  }

  /**
   * `strings.TrimSpace`: the result is the slice of `s` that follows its
   * leading spaces; it neither starts nor ends with a space, and everything
   * cut off after it is space.
   */
  function TrimSpace(s: string): (r: string)
    ensures r == [] || (!IsSpace(r[0]) && !IsSpace(r[|r| - 1]))
    ensures LeadingSpaces(s) + |r| <= |s|
    ensures r == s[LeadingSpaces(s)..LeadingSpaces(s) + |r|]
    ensures forall i | LeadingSpaces(s) + |r| <= i < |s| :: IsSpace(s[i])
  {
    var rest := s[LeadingSpaces(s)..];
    rest[..|rest| - TrailingSpaces(rest)]
  }

  lemma {:induction false} LeadingSpacesOfPadded(p: string, t: string)
    requires AllSpace(p)
    requires t == [] || !IsSpace(t[0])
    ensures LeadingSpaces(p + t) == |p|
  {
    if p == [] {
      assert p + t == t;
    } else {
      assert (p + t)[1..] == p[1..] + t;
      LeadingSpacesOfPadded(p[1..], t);
    }
  }

  lemma {:induction false} TrailingSpacesOfPadded(t: string, q: string)
    requires AllSpace(q)
    requires t == [] || !IsSpace(t[|t| - 1])
    ensures TrailingSpaces(t + q) == |q|
  {
    if q == [] {
      assert t + q == t;
    } else {
      assert (t + q)[..|t + q| - 1] == t + q[..|q| - 1];
      TrailingSpacesOfPadded(t, q[..|q| - 1]);
    }
  }

  /**
   * The characterisation in TrimSpace's contract determines the result:
   * a string split into spaces, an unpadded core and spaces trims to that core.
   */
  lemma TrimSpaceUnique(p: string, r: string, q: string)
    requires AllSpace(p) && AllSpace(q)
    requires r == [] || (!IsSpace(r[0]) && !IsSpace(r[|r| - 1]))
    ensures TrimSpace(p + r + q) == r
  {
    if r == [] {
      assert p + r + q == (p + q) + [];
      LeadingSpacesOfPadded(p + q, []);
    } else {
      assert p + r + q == p + (r + q);
      LeadingSpacesOfPadded(p, r + q);
      assert (p + r + q)[|p|..] == r + q;
      TrailingSpacesOfPadded(r, q);
      assert (r + q)[..|r|] == r;
    }
  }

  /** Text that already has no surrounding space is left as it is. */
  lemma TrimSpaceUnpadded(s: string)
    requires s == [] || (!IsSpace(s[0]) && !IsSpace(s[|s| - 1]))
    ensures TrimSpace(s) == s
  {
    assert [] + s + [] == s;
    TrimSpaceUnique([], s, []);
  }

  lemma TrimSpaceIdempotent(s: string)
    ensures TrimSpace(TrimSpace(s)) == TrimSpace(s)
  {
    TrimSpaceUnpadded(TrimSpace(s));
  }

  /** Extra surrounding space (a trailing newline, say) does not change the trimmed text. */
  lemma TrimSpacePadded(p: string, s: string, q: string)
    requires AllSpace(p) && AllSpace(q)
    ensures TrimSpace(p + s + q) == TrimSpace(s)
  {
    var r := TrimSpace(s);
    var i := LeadingSpaces(s);
    var pre, post := s[..i], s[i + |r|..];
    assert s == pre + r + post by {
      assert s == s[..i] + s[i..i + |r|] + s[i + |r|..];
    }
    AllSpaceConcat(p, pre);
    AllSpaceConcat(post, q);
    calc {
      p + s + q;
      p + (pre + r + post) + q;
      { ConcatAssoc(p, pre, r, post, q); }
      (p + pre) + r + (post + q);
    }
    TrimSpaceUnique(p + pre, r, post + q);
  }

  /** Regrouping a five-part concatenation, kept apart so that it is proved without the trimming facts in scope. */
  lemma ConcatAssoc(a: string, b: string, c: string, d: string, e: string)
    ensures a + (b + c + d) + e == (a + b) + c + (d + e)
  {
  }

  lemma AllSpaceConcat(a: string, b: string)
    requires AllSpace(a) && AllSpace(b)
    ensures AllSpace(a + b)
  {
    forall i | 0 <= i < |a + b| ensures IsSpace((a + b)[i]) {
      if i >= |a| {
        assert (a + b)[i] == b[i - |a|];
      }
    }
  }

  /** Every character of the trimmed text occurs in the original text. */
  lemma TrimSpaceChars(s: string, j: int)
    requires 0 <= j < |TrimSpace(s)|
    ensures TrimSpace(s)[j] in s
  {
    assert TrimSpace(s)[j] == s[LeadingSpaces(s) + j];
  }
}
