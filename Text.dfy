/** Character classes and small string helpers shared by the scanners.

    Python's `re` and `str` methods work on Unicode code points; the classes below are the
    ones the fixed patterns of the pipeline depend on. */
module Text {

  /** Python `str.isspace()`, which is also what `\s` matches in a `str` pattern and what
      `str.strip()` removes. */
  predicate IsSpace(c: char) {
    c == ' ' || c == '\t' || c == '\n' || c == '\r' || c == '\U{B}' || c == '\U{C}'
    || ('\U{1C}' <= c <= '\U{1F}') || c == '\U{85}' || c == '\U{A0}' || c == '\U{1680}'
    || ('\U{2000}' <= c <= '\U{200A}') || c == '\U{2028}' || c == '\U{2029}'
    || c == '\U{202F}' || c == '\U{205F}' || c == '\U{3000}'
  }

  /** The characters at which Python's `str.splitlines()` ends a line. */
  predicate IsLineBreak(c: char) {
    c == '\n' || c == '\r' || c == '\U{B}' || c == '\U{C}' || c == '\U{1C}' || c == '\U{1D}'
    || c == '\U{1E}' || c == '\U{85}' || c == '\U{2028}' || c == '\U{2029}'
  }

  lemma LineBreakIsSpace(c: char)
    requires IsLineBreak(c)
    ensures IsSpace(c)
  {
  }

  predicate IsAsciiLetter(c: char) {
    ('A' <= c <= 'Z') || ('a' <= c <= 'z')
  }

  predicate IsDigit(c: char) {
    '0' <= c <= '9'
  }

  /** `\w`, and `[A-Z0-9_]` under IGNORECASE (ASCII part). */
  predicate IsWordChar(c: char) {
    IsAsciiLetter(c) || IsDigit(c) || c == '_'
  }

  /** A dataset-name character: `[A-Z0-9_.]` under IGNORECASE. */
  predicate IsNameChar(c: char) {
    IsWordChar(c) || c == '.'
  }

  function Upper(c: char): char {
    if 'a' <= c <= 'z' then (c as int - 32) as char else c
  }

  function UpperAll(s: string): (r: string)
    ensures |r| == |s|
  {
    seq(|s|, k requires 0 <= k < |s| => Upper(s[k]))
  }

  /** A dataset-name token: one or more name characters. */
  predicate IsToken(s: string) {
    |s| > 0 && forall c | c in s :: IsNameChar(c)
  }

  /** `x` occurs in `s` as a contiguous piece. */
  ghost predicate IsSubstring(x: string, s: string) {
    exists a, b :: 0 <= a <= b <= |s| && s[a..b] == x
  }

  lemma SubstringOfSlice(x: string, s: string, lo: nat, hi: nat)
    requires lo <= hi <= |s|
    requires IsSubstring(x, s[lo..hi])
    ensures IsSubstring(x, s)
  {
    var a, b :| 0 <= a <= b <= hi - lo && s[lo..hi][a..b] == x;
    var t := s[lo..hi];
    forall k | 0 <= k < b - a ensures s[lo + a..lo + b][k] == x[k] {
      assert x[k] == t[a + k] == s[lo + a + k];
    }
    assert s[lo + a..lo + b] == x;
  }

  /** `pat` occurs in `s` starting at position `i`. */
  predicate OccursAt(s: string, i: nat, pat: string) {
    i + |pat| <= |s| && s[i..i + |pat|] == pat
  }

  predicate Contains(s: string, pat: string) {
    exists i: nat | i <= |s| :: OccursAt(s, i, pat)
  }

  /** Case-insensitive (ASCII) occurrence of an upper-case keyword at `i`. */
  predicate KeywordAt(s: string, i: nat, kw: string) {
    i + |kw| <= |s| && UpperAll(s[i..i + |kw|]) == kw
  }

  // A keyword match starts with the keyword's first letter, in either case.
  lemma KeywordFirstChar(s: string, i: nat, kw: string)
    requires |kw| > 0 && KeywordAt(s, i, kw)
    ensures Upper(s[i]) == kw[0]
  {
    assert UpperAll(s[i..i + |kw|])[0] == Upper(s[i]);
  }

  /** `\b` at position `i`: exactly one of the characters around `i` is a word character. */
  predicate AtBoundary(s: string, i: nat) {
    (0 < i <= |s| && IsWordChar(s[i - 1])) != (i < |s| && IsWordChar(s[i]))
  }

  /** The end of the maximal run of whitespace starting at `j`. */
  function SpaceEnd(s: string, j: nat): (k: nat)
    requires j <= |s|
    ensures j <= k <= |s|
    ensures forall m | j <= m < k :: IsSpace(s[m])
    ensures k == |s| || !IsSpace(s[k])
    decreases |s| - j
  {
    if j < |s| && IsSpace(s[j]) then SpaceEnd(s, j + 1) else j
  }

  /** The end of the maximal run of name characters starting at `j`. */
  function NameEnd(s: string, j: nat): (k: nat)
    requires j <= |s|
    ensures j <= k <= |s|
    ensures forall m | j <= m < k :: IsNameChar(s[m])
    ensures k == |s| || !IsNameChar(s[k])
    decreases |s| - j
  {
    if j < |s| && IsNameChar(s[j]) then NameEnd(s, j + 1) else j
  }

  /** The end of the maximal run of word characters starting at `j`. */
  function WordEnd(s: string, j: nat): (k: nat)
    requires j <= |s|
    ensures j <= k <= |s|
    ensures forall m | j <= m < k :: IsWordChar(s[m])
    ensures k == |s| || !IsWordChar(s[k])
    decreases |s| - j
  {
    if j < |s| && IsWordChar(s[j]) then WordEnd(s, j + 1) else j
  }

  // Each run-end function gives the only position with its two ensures: a run of the class up
  // to it, and no character of the class at it.
  lemma SpaceEndIs(s: string, j: nat, k: nat)
    requires j <= k <= |s|
    requires forall m | j <= m < k :: IsSpace(s[m])
    requires k == |s| || !IsSpace(s[k])
    ensures SpaceEnd(s, j) == k
  {
  }

  lemma NameEndIs(s: string, j: nat, k: nat)
    requires j <= k <= |s|
    requires forall m | j <= m < k :: IsNameChar(s[m])
    requires k == |s| || !IsNameChar(s[k])
    ensures NameEnd(s, j) == k
  {
  }

  lemma WordEndIs(s: string, j: nat, k: nat)
    requires j <= k <= |s|
    requires forall m | j <= m < k :: IsWordChar(s[m])
    requires k == |s| || !IsWordChar(s[k])
    ensures WordEnd(s, j) == k
  {
  }

  lemma NameSliceIsToken(s: string, j: nat, k: nat)
    requires j < k <= |s|
    requires forall m | j <= m < k :: IsNameChar(s[m])
    ensures IsToken(s[j..k]) && IsSubstring(s[j..k], s)
  {
    forall c | c in s[j..k] ensures IsNameChar(c) {
      var m :| 0 <= m < k - j && s[j..k][m] == c;
      assert s[j + m] == c;
    }
  }

  /** Python `str.strip()`: remove leading and trailing whitespace. */
  function Strip(s: string): (r: string)
    ensures |r| <= |s|
    ensures r == [] || (!IsSpace(r[0]) && !IsSpace(r[|r| - 1]))
    ensures IsSubstring(r, s)
    ensures forall c | c in r :: c in s
    ensures forall c | c in s && !IsSpace(c) :: c in r
  {
    var lo := StripStart(s, 0);
    var hi := StripEnd(s, lo, |s|);
    StripSlice(s, lo, hi);
    s[lo..hi]
  }

  // The piece left between leading and trailing whitespace keeps every other character.
  lemma StripSlice(s: string, lo: nat, hi: nat)
    requires lo <= hi <= |s|
    requires forall m | 0 <= m < lo :: IsSpace(s[m])
    requires forall m | hi <= m < |s| :: IsSpace(s[m])
    requires lo == |s| || !IsSpace(s[lo])
    requires hi == lo || !IsSpace(s[hi - 1])
    ensures var r := s[lo..hi]; r == [] || (!IsSpace(r[0]) && !IsSpace(r[|r| - 1]))
    ensures IsSubstring(s[lo..hi], s)
    ensures forall c | c in s[lo..hi] :: c in s
    ensures forall c | c in s && !IsSpace(c) :: c in s[lo..hi]
  {
    assert s[lo..hi] == s[lo..hi];
    if lo < hi {
      assert s[lo..hi][0] == s[lo] && s[lo..hi][hi - lo - 1] == s[hi - 1];
    }
    forall c | c in s && !IsSpace(c) ensures c in s[lo..hi] {
      var m :| 0 <= m < |s| && s[m] == c;
      assert s[lo..hi][m - lo] == c;
    }
  }

  function StripStart(s: string, j: nat): (k: nat)
    requires j <= |s|
    ensures j <= k <= |s|
    ensures forall m | j <= m < k :: IsSpace(s[m])
    ensures k == |s| || !IsSpace(s[k])
    decreases |s| - j
  {
    if j < |s| && IsSpace(s[j]) then StripStart(s, j + 1) else j
  }

  function StripEnd(s: string, lo: nat, hi: nat): (k: nat)
    requires lo <= hi <= |s|
    requires lo == |s| || !IsSpace(s[lo])
    ensures lo <= k <= hi
    ensures forall m | k <= m < hi :: IsSpace(s[m])
    ensures k == lo || !IsSpace(s[k - 1])
    decreases hi - lo
  {
    if lo < hi && IsSpace(s[hi - 1]) then StripEnd(s, lo, hi - 1) else hi
  }

  /** The set of elements of a sequence. */
  function ToSet<T>(s: seq<T>): set<T> {
    set x | x in s
  }

  predicate NoDups<T(==)>(s: seq<T>) {
    forall i, j | 0 <= i < j < |s| :: s[i] != s[j]
  }

  /** The elements in order of first occurrence, as `list(dict.fromkeys(xs))`. */
  function Dedup<T(==)>(xs: seq<T>): (r: seq<T>)
    ensures NoDups(r) && ToSet(r) == ToSet(xs) && |r| <= |xs|
  {
    if |xs| == 0 then []
    else
      var init, last := xs[..|xs| - 1], xs[|xs| - 1];
      var d := Dedup(init);
      assert xs == init + [last];
      assert ToSet(xs) == ToSet(init) + {last};
      if last in d then d
      else
        assert ToSet(d + [last]) == ToSet(d) + {last};
        assert forall i | 0 <= i < |d| :: (d + [last])[i] == d[i];
        d + [last]
  }

  /** Python `list(a_set)`: the elements in an order the model leaves open. */
  method SetToList<T(==)>(s: set<T>) returns (xs: seq<T>)
    ensures ToSet(xs) == s && NoDups(xs) && |xs| == |s|
  {
    xs := [];
    var rest := s;
    while rest != {}
      invariant rest + ToSet(xs) == s && rest !! ToSet(xs) && NoDups(xs)
      invariant |xs| + |rest| == |s|
      decreases rest
    {
      var x :| x in rest;
      xs := xs + [x];
      rest := rest - {x};
    }
  }

  /** Python `sep.join(parts)`. */
  function Join(sep: string, parts: seq<string>): (r: string)
    ensures forall c | c in r :: c in sep || exists k :: 0 <= k < |parts| && c in parts[k]
  {
    if |parts| == 0 then []
    else if |parts| == 1 then parts[0]
    else parts[0] + sep + Join(sep, parts[1..])
  }

  /** Python `s.replace(pat, rep)`: every non-overlapping occurrence, left to right. */
  function ReplaceAll(s: string, pat: string, rep: string): (r: string)
    requires |pat| > 0
    ensures forall c | c in r :: c in s || c in rep
    ensures |pat| == 1 ==> forall c | c in r && c == pat[0] :: c in rep
    decreases |s|
  {
    if |s| < |pat| then s
    else if s[..|pat|] == pat then rep + ReplaceAll(s[|pat|..], pat, rep)
    else [s[0]] + ReplaceAll(s[1..], pat, rep)
  }

  /** Decimal digits of a natural number, as Python's `str(n)`. */
  function NatToString(n: nat): (r: string)
    ensures |r| > 0 && forall c | c in r :: IsDigit(c)
    ensures |r| == 1 <==> n < 10
  {
    if n < 10 then [Digit(n)] else NatToString(n / 10) + [Digit(n % 10)]
  }

  function Digit(d: nat): (c: char)
    requires d < 10
    ensures IsDigit(c) && c as int - '0' as int == d
  {
    ('0' as int + d) as char
  }

  lemma {:induction false} NatToStringInjective(n: nat, m: nat)
    requires NatToString(n) == NatToString(m)
    ensures n == m
  {
    if n >= 10 && m >= 10 {
      var a, b := NatToString(n), NatToString(m);
      assert a[|a| - 1] == Digit(n % 10) && b[|b| - 1] == Digit(m % 10);
      assert a[..|a| - 1] == NatToString(n / 10);
      assert b[..|b| - 1] == NatToString(m / 10);
      NatToStringInjective(n / 10, m / 10);
    }
  }

  /** Python's `<` on `str`: lexicographic on code points, a proper prefix first. */
  predicate StrLess(a: string, b: string) {
    if |a| == 0 then |b| > 0
    else if |b| == 0 then false
    else if a[0] != b[0] then a[0] < b[0]
    else StrLess(a[1..], b[1..])
  }

  lemma {:induction false} StrLessIrreflexive(a: string)
    ensures !StrLess(a, a)
  {
    if |a| > 0 { StrLessIrreflexive(a[1..]); }
  }

  lemma {:induction false} StrLessTransitive(a: string, b: string, c: string)
    requires StrLess(a, b) && StrLess(b, c)
    ensures StrLess(a, c)
  {
    if |a| > 0 && |b| > 0 && |c| > 0 && a[0] == b[0] && b[0] == c[0] {
      StrLessTransitive(a[1..], b[1..], c[1..]);
    }
  }

  lemma {:induction false} StrLessTotal(a: string, b: string)
    requires a != b
    ensures StrLess(a, b) || StrLess(b, a)
  {
    if |a| > 0 && |b| > 0 && a[0] == b[0] {
      assert a == [a[0]] + a[1..] && b == [b[0]] + b[1..];
      StrLessTotal(a[1..], b[1..]);
    }
  }
}
