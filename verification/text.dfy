/**
  The string primitives `_strip_code_fences` is built from, with Python's meaning:
  `str.strip`, `str.lstrip` and `str.rstrip` without arguments, `startswith`,
  `endswith`, and `lower()` as far as it matters for comparing with an ASCII tag.
  Strings are sequences of Unicode scalar values.
*/
module Text {

  /** Python's `str.isspace` for one character: exactly the characters that
      `strip()` without arguments removes, written as the ranges they form. */
  predicate IsWhitespace(c: char)
    ensures IsWhitespace(c) <==> c in WhitespaceTable
  {
    || c == ' '
    || ('\t' <= c <= '\r')               // tab, line feed, vertical tab, form feed, carriage return
    || ('\U{1C}' <= c <= '\U{1F}')       // file, group, record and unit separators
    || c == '\U{85}'                     // next line
    || c == '\U{A0}'                     // no-break space
    || c == '\U{1680}'
    || ('\U{2000}' <= c <= '\U{200A}')
    || c == '\U{2028}' || c == '\U{2029}'
    || c == '\U{202F}' || c == '\U{205F}' || c == '\U{3000}'
  }

  /** The 29 characters for which Python's `str.isspace` holds, one by one. */
  const WhitespaceTable: set<char> := {
    '\U{9}', '\U{A}', '\U{B}', '\U{C}', '\U{D}', '\U{1C}', '\U{1D}', '\U{1E}', '\U{1F}', '\U{20}',
    '\U{85}', '\U{A0}', '\U{1680}',
    '\U{2000}', '\U{2001}', '\U{2002}', '\U{2003}', '\U{2004}', '\U{2005}', '\U{2006}',
    '\U{2007}', '\U{2008}', '\U{2009}', '\U{200A}',
    '\U{2028}', '\U{2029}', '\U{202F}', '\U{205F}', '\U{3000}'
  }

  ghost predicate AllWhitespace(s: string) {
    forall i :: 0 <= i < |s| ==> IsWhitespace(s[i])
  }

  /** Neither end is whitespace: what `strip()` returns. */
  ghost predicate IsTrimmed(s: string) {
    s == [] || (!IsWhitespace(s[0]) && !IsWhitespace(s[|s| - 1]))
  }

  /** `s.startswith(prefix)`. */
  predicate StartsWith(s: string, prefix: string) {
    |prefix| <= |s| && s[..|prefix|] == prefix
  }

  /** `s.endswith(suffix)`. */
  predicate EndsWith(s: string, suffix: string) {
    |suffix| <= |s| && s[|s| - |suffix|..] == suffix
  }

  /** `s` starts with `prefix` exactly when it is `prefix` followed by something. */
  lemma StartsWithMeansPrefix(s: string, prefix: string)
    ensures StartsWith(s, prefix) <==> exists rest :: s == prefix + rest
  {
    if StartsWith(s, prefix) {
      assert s == prefix + s[|prefix|..];
    }
    if exists rest :: s == prefix + rest {
      var rest :| s == prefix + rest;
      assert s[..|prefix|] == prefix;
    }
  }

  /** `s` ends with `suffix` exactly when it is something followed by `suffix`. */
  lemma EndsWithMeansSuffix(s: string, suffix: string)
    ensures EndsWith(s, suffix) <==> exists front :: s == front + suffix
  {
    if EndsWith(s, suffix) {
      assert s == s[..|s| - |suffix|] + suffix;
    }
    if exists front :: s == front + suffix {
      var front :| s == front + suffix;
      assert s[|s| - |suffix|..] == suffix;
    }
  }

  /** Lower-casing of the ASCII capitals; every other character is its own image. */
  function AsciiLower(c: char): char {
    if 'A' <= c <= 'Z' then (c as int + 32) as char else c
  }

  function AsciiUpper(c: char): char {
    if 'a' <= c <= 'z' then (c as int - 32) as char else c
  }

  predicate IsLowerAscii(tag: string) {
    forall i :: 0 <= i < |tag| ==> 'a' <= tag[i] <= 'z'
  }

  /** Case-insensitive prefix test by ASCII folding: each of the first `|tag|`
      characters of `s` folds to that letter of `tag`. For a lower-case ASCII
      tag without `i` or `k`, such as `json`, this is `s.lower().startswith(tag)`;
      with `i` or `k` Python also accepts U+0130 and U+212A, which this does not. */
  predicate StartsWithIgnoringCase(s: string, tag: string)
    ensures IsLowerAscii(tag) ==>
              (StartsWithIgnoringCase(s, tag) <==>
                 |tag| <= |s| && forall i :: 0 <= i < |tag| ==> s[i] == tag[i] || s[i] == AsciiUpper(tag[i]))
  {
    |tag| <= |s| && forall i :: 0 <= i < |tag| ==> AsciiLower(s[i]) == tag[i]
  }

  /** `s.lstrip()`: the suffix of `s` left after dropping its leading whitespace. */
  function LStrip(s: string): (r: string)
    ensures |r| <= |s| && r == s[|s| - |r|..]
    ensures r == [] || !IsWhitespace(r[0])
  {
    if |s| > 0 && IsWhitespace(s[0]) then LStrip(s[1..]) else s
  }

  /** Everything `lstrip` drops is whitespace. */
  lemma {:induction false} LStripDropsBlanks(s: string)
    ensures AllWhitespace(s[..|s| - |LStrip(s)|])
  {
    if |s| > 0 && IsWhitespace(s[0]) {
      LStripDropsBlanks(s[1..]);
      var d := |s| - |LStrip(s)|;
      assert s[..d] == [s[0]] + s[1..][..d - 1];
    }
  }

  /** `s.rstrip()`: the prefix of `s` left after dropping its trailing whitespace. */
  function RStrip(s: string): (r: string)
    ensures |r| <= |s| && r == s[..|r|]
    ensures r == [] || !IsWhitespace(r[|r| - 1])
  {
    if |s| > 0 && IsWhitespace(s[|s| - 1]) then RStrip(s[..|s| - 1]) else s
  }

  /** Everything `rstrip` drops is whitespace. */
  lemma {:induction false} RStripDropsBlanks(s: string)
    ensures AllWhitespace(s[|RStrip(s)|..])
  {
    if |s| > 0 && IsWhitespace(s[|s| - 1]) {
      RStripDropsBlanks(s[..|s| - 1]);
      var n := |RStrip(s)|;
      assert s[n..] == s[..|s| - 1][n..] + [s[|s| - 1]];
    }
  }

  /** `s.strip()`: `s` without its leading and trailing whitespace. */
  function Strip(s: string): (r: string)
    ensures |r| <= |s|
    ensures IsTrimmed(r)
  {
    RStrip(LStrip(s))
  }

  /** A non-empty tail of a string ends where the string ends. */
  lemma SuffixKeepsLast(s: string, r: string)
    requires |r| <= |s| && r == s[|s| - |r|..]
    ensures r == [] || r[|r| - 1] == s[|s| - 1]
  {
  }

  /** A non-empty head of a string starts where the string starts. */
  lemma PrefixKeepsFirst(s: string, r: string)
    requires |r| <= |s| && r == s[..|r|]
    ensures r == [] || r[0] == s[0]
  {
  }

  /** The slice `LStrip` returns is the only one it could return. */
  lemma {:induction false} LStripIsUnique(s: string, k: nat)
    requires k <= |s| && AllWhitespace(s[..k])
    requires k == |s| || !IsWhitespace(s[k])
    ensures LStrip(s) == s[k..]
  {
    if k > 0 {
      assert IsWhitespace(s[..k][0]);
      assert s[1..][..k - 1] == s[..k][1..];
      LStripIsUnique(s[1..], k - 1);
      assert s[1..][k - 1..] == s[k..];
    }
  }

  /** The slice `RStrip` returns is the only one it could return. */
  lemma {:induction false} RStripIsUnique(s: string, n: nat)
    requires n <= |s| && AllWhitespace(s[n..])
    requires n == 0 || !IsWhitespace(s[n - 1])
    ensures RStrip(s) == s[..n]
    decreases |s|
  {
    if n < |s| {
      var t := s[..|s| - 1];
      assert IsWhitespace(s[n..][|s| - 1 - n]);
      assert t[n..] == s[n..][..|s| - 1 - n];
      RStripIsUnique(t, n);
      assert t[..n] == s[..n];
    }
  }

  lemma LStripPadded(pre: string, m: string)
    requires AllWhitespace(pre)
    requires m == [] || !IsWhitespace(m[0])
    ensures LStrip(pre + m) == m
  {
    var s := pre + m;
    assert s[..|pre|] == pre;
    assert s[|pre|..] == m;
    LStripIsUnique(s, |pre|);
  }

  lemma RStripPadded(m: string, post: string)
    requires AllWhitespace(post)
    requires m == [] || !IsWhitespace(m[|m| - 1])
    ensures RStrip(m + post) == m
  {
    var s := m + post;
    assert s[..|m|] == m;
    assert s[|m|..] == post;
    RStripIsUnique(s, |m|);
  }

  /** Blanks, a trimmed middle, blanks: `strip` returns the middle. */
  lemma StripPadded(pre: string, m: string, post: string)
    requires AllWhitespace(pre) && AllWhitespace(post)
    requires IsTrimmed(m)
    ensures Strip(pre + m + post) == m
  {
    if m == [] {
      BlanksJoin(pre, post);
      assert pre + m + post == (pre + post) + [];
      LStripPadded(pre + post, []);
    } else {
      assert pre + m + post == pre + (m + post);
      assert (m + post)[0] == m[0];
      LStripPadded(pre, m + post);
      RStripPadded(m, post);
    }
  }

  lemma BlanksJoin(a: string, b: string)
    requires AllWhitespace(a) && AllWhitespace(b)
    ensures AllWhitespace(a + b)
  {
    forall i | 0 <= i < |a + b| ensures IsWhitespace((a + b)[i]) {
      if i < |a| { assert (a + b)[i] == a[i]; } else { assert (a + b)[i] == b[i - |a|]; }
    }
  }

  /** `strip` is characterised by its result being trimmed with only whitespace
      around it: any such split of `s` names the slice `strip` returns. */
  lemma StripIsUnique(s: string, k: nat, n: nat)
    requires k + n <= |s|
    requires AllWhitespace(s[..k]) && AllWhitespace(s[k + n..])
    requires IsTrimmed(s[k..k + n])
    ensures Strip(s) == s[k..k + n]
  {
    assert s == s[..k] + s[k..k + n] + s[k + n..];
    StripPadded(s[..k], s[k..k + n], s[k + n..]);
  }

  /** A trimmed text is its own `strip`. */
  lemma StripOfTrimmed(s: string)
    requires IsTrimmed(s)
    ensures Strip(s) == s
  {
    assert LStrip(s) == s;
    assert RStrip(s) == s;
  }

  /** The characters of `s` that are not whitespace, in order. */
  function NonWhitespace(s: string): (r: string)
    ensures |r| <= |s|
  {
    if s == [] then []
    else if IsWhitespace(s[0]) then NonWhitespace(s[1..])
    else [s[0]] + NonWhitespace(s[1..])
  }

  lemma {:induction false} NonWhitespaceAppend(a: string, b: string)
    ensures NonWhitespace(a + b) == NonWhitespace(a) + NonWhitespace(b)
  {
    if a != [] {
      assert (a + b)[0] == a[0];
      assert (a + b)[1..] == a[1..] + b;
      NonWhitespaceAppend(a[1..], b);
    } else {
      assert a + b == b;
    }
  }

  lemma {:induction false} NonWhitespaceOfBlank(s: string)
    requires AllWhitespace(s)
    ensures NonWhitespace(s) == []
  {
    if s != [] {
      NonWhitespaceOfBlank(s[1..]);
    }
  }

  lemma {:induction false} NonWhitespaceOfSolid(s: string)
    requires forall i :: 0 <= i < |s| ==> !IsWhitespace(s[i])
    ensures NonWhitespace(s) == s
  {
    if s != [] {
      NonWhitespaceOfSolid(s[1..]);
      assert s == [s[0]] + s[1..];
    }
  }

  /** `LStrip` splits a string into leading blanks and the rest. */
  lemma LStripSplit(s: string) returns (blank: string)
    ensures s == blank + LStrip(s) && AllWhitespace(blank)
  {
    var r := LStrip(s);
    LStripDropsBlanks(s);
    blank := s[..|s| - |r|];
  }

  /** `RStrip` splits a string into the rest and trailing blanks. */
  lemma RStripSplit(s: string) returns (blank: string)
    ensures s == RStrip(s) + blank && AllWhitespace(blank)
  {
    var r := RStrip(s);
    RStripDropsBlanks(s);
    blank := s[|r|..];
  }

  /** `Strip` splits a string into blanks, the rest, and blanks. */
  lemma StripSplit(s: string) returns (lead: string, trail: string)
    ensures s == lead + Strip(s) + trail && AllWhitespace(lead) && AllWhitespace(trail)
  {
    lead := LStripSplit(s);
    trail := RStripSplit(LStrip(s));
  }
}
