/** The string operations the service applies to MIME types and titles:
    substring tests, `str.strip` / `str.rstrip`, and the subsequence
    relation used to state what filtering keeps. */
module Strings {

  /** Python `s.startswith(t)`. */
  predicate StartsWith(s: string, t: string) {
    |t| <= |s| && s[..|t|] == t
  }

  /** Python `t in s` for strings. */
  predicate Contains(s: string, t: string)
    decreases |s|
  {
    StartsWith(s, t) || (|s| > 0 && Contains(s[1..], t))
  }

  /** Python `s.endswith(t)`. */
  predicate EndsWith(s: string, t: string) {
    |t| <= |s| && s[|s| - |t|..] == t
  }

  /** `t` occurring at position `i` of `s` makes `t in s` true. */
  lemma {:induction false} ContainsAt(s: string, t: string, i: nat)
    requires i + |t| <= |s| && s[i..i + |t|] == t
    ensures Contains(s, t)
    decreases i
  {
    if i > 0 {
      assert s[1..][i - 1..i - 1 + |t|] == t;
      ContainsAt(s[1..], t, i - 1);
    }
  }

  /** A character of `t` missing from `s` makes `t in s` false. */
  lemma {:induction false} MissingCharNotContained(s: string, t: string, k: nat)
    requires k < |t| && t[k] !in s
    ensures !Contains(s, t)
    decreases |s|
  {
    if |t| <= |s| {
      assert s[k] in s;
    }
    if |s| > 0 {
      MissingCharNotContained(s[1..], t, k);
    }
  }

  /** Python `str.isspace` for one character: the ASCII controls 9-13 and
      28-31, the space, and the Unicode space separators. */
  predicate IsWhitespace(c: char) {
    var n := c as int;
    || 9 <= n <= 13 || 28 <= n <= 32 || n == 0x85 || n == 0xA0 || n == 0x1680
    || 0x2000 <= n <= 0x200A || n == 0x2028 || n == 0x2029 || n == 0x202F
    || n == 0x205F || n == 0x3000
  }

  /** The character sets the service strips: Python's whitespace (`strip()`
      without arguments) and the set " ." (`rstrip(' .')`). */
  datatype StripSet = Whitespace | SpaceOrDot

  predicate Drops(drop: StripSet, c: char) {
    match drop
    case Whitespace => IsWhitespace(c)
    case SpaceOrDot => c == ' ' || c == '.'
  }

  /** How many characters at the front of `s` are in `drop`. */
  function LeadingCount(s: string, drop: StripSet): (n: nat)
    ensures n <= |s|
    ensures forall i :: 0 <= i < n ==> Drops(drop, s[i])
    ensures n < |s| ==> !Drops(drop, s[n])
    decreases |s|
  {
    if |s| > 0 && Drops(drop, s[0]) then 1 + LeadingCount(s[1..], drop) else 0
  }

  /** How many characters at the back of `s` are in `drop`. */
  function TrailingCount(s: string, drop: StripSet): (n: nat)
    ensures n <= |s|
    ensures forall i :: |s| - n <= i < |s| ==> Drops(drop, s[i])
    ensures n < |s| ==> !Drops(drop, s[|s| - n - 1])
    decreases |s|
  {
    if |s| > 0 && Drops(drop, s[|s| - 1]) then 1 + TrailingCount(s[..|s| - 1], drop) else 0
  }

  /** Python `rstrip`: removes the trailing characters in `drop`. */
  function RStrip(s: string, drop: StripSet): (r: string)
    ensures |r| <= |s| && r == s[..|r|]
    ensures forall i :: |r| <= i < |s| ==> Drops(drop, s[i])
    ensures |r| > 0 ==> !Drops(drop, r[|r| - 1])
  {
    s[..|s| - TrailingCount(s, drop)]
  }

  /** Python `strip`: `rstrip` applied after removing the leading
      characters in `drop`. What is left is the piece of `s` between the
      dropped characters at either end. */
  function Strip(s: string, drop: StripSet): (r: string)
    ensures var lo := LeadingCount(s, drop);
      lo + |r| <= |s| && r == s[lo..lo + |r|]
    ensures forall i :: LeadingCount(s, drop) + |r| <= i < |s| ==> Drops(drop, s[i])
    ensures |r| > 0 ==> !Drops(drop, r[0]) && !Drops(drop, r[|r| - 1])
  {
    var lo := LeadingCount(s, drop);
    var hi := |s| - TrailingCount(s[lo..], drop);
    StripEnds(s, drop, lo, hi);
    s[lo..hi]
  }

  lemma StripEnds(s: string, drop: StripSet, lo: nat, hi: int)
    requires lo == LeadingCount(s, drop)
    requires hi == |s| - TrailingCount(s[lo..], drop)
    ensures lo <= hi <= |s|
    ensures forall i :: hi <= i < |s| ==> Drops(drop, s[i])
    ensures lo < hi ==> !Drops(drop, s[lo]) && !Drops(drop, s[hi - 1])
  {
    var rest := s[lo..];
    var t := TrailingCount(rest, drop);
    forall i | hi <= i < |s|
      ensures Drops(drop, s[i])
    {
      assert s[i] == rest[i - lo];
    }
    if lo < hi {
      assert t < |rest|;
      assert s[hi - 1] == rest[|rest| - t - 1];
    }
  }

  /** With nothing to remove at the front, `strip` is `rstrip`. */
  lemma StripWithoutLeading(s: string, drop: StripSet)
    requires LeadingCount(s, drop) == 0
    ensures Strip(s, drop) == RStrip(s, drop)
  {
    assert s[0..] == s;
  }

  /** Nothing to strip at the front. */
  lemma NoLeadingToStrip(s: string, drop: StripSet)
    requires |s| > 0 ==> !Drops(drop, s[0])
    ensures LeadingCount(s, drop) == 0
  {
  }

  /** Nothing to strip at the back. */
  lemma NoTrailingToStrip(s: string, drop: StripSet)
    requires |s| > 0 ==> !Drops(drop, s[|s| - 1])
    ensures RStrip(s, drop) == s
  {
  }

  /** Python `s[:n]`. */
  function Take(s: string, n: nat): (r: string)
    ensures |r| == if |s| <= n then |s| else n
    ensures r == s[..|r|]
  {
    if |s| <= n then s else s[..n]
  }

  /** `a` can be obtained from `b` by deleting characters (decided by
      matching each character of `a` to its earliest occurrence in `b`). */
  predicate IsSubsequence(a: string, b: string)
    decreases |b|
  {
    || |a| == 0
    || (|b| > 0 && if a[0] == b[0] then IsSubsequence(a[1..], b[1..]) else IsSubsequence(a, b[1..]))
  }

  /** A subsequence of the tail of `b` is a subsequence of `b`. */
  lemma {:induction false} SubsequenceExtend(a: string, b: string)
    requires |b| > 0 && IsSubsequence(a, b[1..])
    ensures IsSubsequence(a, b)
    decreases |b|, 0
  {
    if |a| > 0 && a[0] == b[0] {
      SubsequenceDropFirst(a, b[1..]);
    }
  }

  lemma {:induction false} SubsequenceDropFirst(a: string, b: string)
    requires |a| > 0 && IsSubsequence(a, b)
    ensures IsSubsequence(a[1..], b)
    decreases |b|, 1
  {
    if a[0] == b[0] {
      SubsequenceExtend(a[1..], b);
    } else {
      SubsequenceDropFirst(a, b[1..]);
      SubsequenceExtend(a[1..], b);
    }
  }

  lemma {:induction false} SubsequenceDropLast(a: string, b: string)
    requires |a| > 0 && IsSubsequence(a, b)
    ensures IsSubsequence(a[..|a| - 1], b)
    decreases |b|
  {
    var a' := a[..|a| - 1];
    if |a| > 1 {
      if a[0] == b[0] {
        SubsequenceDropLast(a[1..], b[1..]);
        assert a'[1..] == a[1..][..|a| - 2];
      } else {
        SubsequenceDropLast(a, b[1..]);
      }
    }
  }

  /** Every contiguous piece of a subsequence of `b` is a subsequence of `b`. */
  lemma {:induction false} SubsequenceSlice(a: string, b: string, lo: nat, hi: nat)
    requires lo <= hi <= |a| && IsSubsequence(a, b)
    ensures IsSubsequence(a[lo..hi], b)
    decreases |a|
  {
    if hi < |a| {
      SubsequenceDropLast(a, b);
      SubsequenceSlice(a[..|a| - 1], b, lo, hi);
      assert a[..|a| - 1][lo..hi] == a[lo..hi];
    } else if lo > 0 {
      SubsequenceDropFirst(a, b);
      SubsequenceSlice(a[1..], b, lo - 1, hi - 1);
      assert a[1..][lo - 1..hi - 1] == a[lo..hi];
    } else {
      assert a[lo..hi] == a;
    }
  }
}
