/** String primitives shared by the URL recogniser, the filename builder and
    the playback filter. Strings are plain sequences of characters: no Unicode
    normalisation or case folding takes place anywhere in the model. */
module Text {

  /** `s.startswith(p)` */
  predicate HasPrefix(s: string, p: string)
  {
    |p| <= |s| && s[..|p|] == p
  }

  /** `s.endswith(p)` */
  predicate HasSuffix(s: string, p: string)
  {
    |p| <= |s| && s[|s| - |p|..] == p
  }

  /** Cutting a concatenation after its first part gives the parts back. */
  lemma SplitAfterPrefix(p: string, rest: string)
    ensures HasPrefix(p + rest, p)
    ensures (p + rest)[|p|..] == rest
  {
    assert (p + rest)[..|p|] == p;
  }

  /** A prefix that disagrees with `s` at some position is not a prefix. */
  lemma NotPrefixAt(s: string, p: string, k: nat)
    requires k < |p| && k < |s| && s[k] != p[k]
    ensures !HasPrefix(s, p)
  {
    if |p| <= |s| {
      assert s[..|p|][k] == s[k];
    }
  }

  lemma SuffixOfConcat(a: string, b: string, x: string)
    requires HasSuffix(b, x)
    ensures HasSuffix(a + b, x)
  {
    assert (a + b)[|a + b| - |x|..] == b[|b| - |x|..];
  }

  lemma SuffixExtend(b: string, x: string, y: string)
    requires HasSuffix(b, x)
    ensures HasSuffix(b + y, x + y)
  {
    assert (b + y)[|b + y| - |x + y|..] == b[|b| - |x|..] + y;
  }

  /** Characters Python's `str.isspace` reports as whitespace, restricted to
      the ASCII range (tab, line feed, vertical tab, form feed, carriage
      return, the four information separators and the space). */
  predicate IsSpace(c: char)
  {
    c == ' ' || '\t' <= c <= '\r' || '\U{1C}' <= c <= '\U{1F}'
  }

  predicate AllSpace(s: string)
  {
    forall k :: 0 <= k < |s| ==> IsSpace(s[k])
  }

  /** Number of whitespace characters at the front of `t`. */
  function LeadingSpaces(t: string): (n: nat)
    ensures n <= |t|
    ensures AllSpace(t[..n])
    ensures n < |t| ==> !IsSpace(t[n])
  {
    if |t| == 0 || !IsSpace(t[0]) then 0 else 1 + LeadingSpaces(t[1..])
  }

  /** Number of whitespace characters at the back of `t`. */
  function TrailingSpaces(t: string): (n: nat)
    ensures n <= |t|
    ensures AllSpace(t[|t| - n..])
    ensures n < |t| ==> !IsSpace(t[|t| - n - 1])
  {
    if |t| == 0 || !IsSpace(t[|t| - 1]) then 0 else 1 + TrailingSpaces(t[..|t| - 1])
  }

  /** `t.strip()`: `t` with its leading and trailing whitespace removed. The
      result is the slice `t[lo..lo + |r|]`, everything cut off on either side
      is whitespace, and the result neither starts nor ends with whitespace. */
  function Strip(t: string): (r: string)
    ensures LeadingSpaces(t) + |r| <= |t|
    ensures r == t[LeadingSpaces(t)..LeadingSpaces(t) + |r|]
    ensures AllSpace(t[..LeadingSpaces(t)]) && AllSpace(t[LeadingSpaces(t) + |r|..])
    ensures |r| > 0 ==> !IsSpace(r[0]) && !IsSpace(r[|r| - 1])
  {
    var lo := LeadingSpaces(t);
    var a := t[lo..];
    var n := TrailingSpaces(a);
    assert a[|a| - n..] == t[lo + |a| - n..];
    a[..|a| - n]
  }

  /** `t.replace(' ', '_')` */
  function ReplaceSpaces(t: string): (r: string)
    ensures |r| == |t|
    ensures forall k :: 0 <= k < |t| ==> r[k] == if t[k] == ' ' then '_' else t[k]
  {
    if |t| == 0 then [] else [if t[0] == ' ' then '_' else t[0]] + ReplaceSpaces(t[1..])
  }

  /** `t[:n]`: the first `n` characters, or all of `t` when it is shorter. */
  function Take(t: string, n: nat): (r: string)
    ensures |r| == if |t| <= n then |t| else n
    ensures r == t[..|r|]
    ensures |t| <= n ==> r == t
  {
    if |t| <= n then t else t[..n]
  }

  /** A string that neither starts nor ends with whitespace is its own
      `strip()`. */
  lemma StripUnchanged(t: string)
    requires |t| > 0 ==> !IsSpace(t[0]) && !IsSpace(t[|t| - 1])
    ensures Strip(t) == t
  {
  }

  lemma ReplaceSpacesUnchanged(t: string)
    requires ' ' !in t
    ensures ReplaceSpaces(t) == t
  {
  }
}
