/**
 * The handful of Python `str` operations the orchestration code relies on:
 * `strip()`, `upper()`, the `in` substring test, `endswith`, `replace`,
 * `split` on a one-character separator and `str` of a non-negative `int`.
 */
module PyStrings {

  /** Python's `str.isspace()` for one character. */
  predicate IsSpace(c: char) {
    || ('\t' <= c <= '\r')
    || ('\U{1C}' <= c <= '\U{1F}')
    || c == ' '
    || c == '\U{85}'
    || c == '\U{A0}'
    || c == '\U{1680}'
    || ('\U{2000}' <= c <= '\U{200A}')
    || c == '\U{2028}'
    || c == '\U{2029}'
    || c == '\U{202F}'
    || c == '\U{205F}'
    || c == '\U{3000}'
  }

  /**
   * `str.upper()` for one character, as far as it can produce an ASCII
   * letter: `a`..`z`, the dotless `ı` (which Python upper-cases to `I`) and
   * the long `ſ` (to `S`). Every other character is left as it is.
   */
  function UpperChar(c: char): (u: char)
    ensures IsSpace(c) ==> u == c
  {
    if 'a' <= c <= 'z' then (c as int - 32) as char
    else if c == '\U{131}' then 'I'
    else if c == '\U{17F}' then 'S'
    else c
  }

  /** `str.upper()`, character by character. */
  function Upper(s: string): (u: string)
    ensures |u| == |s|
    ensures forall i :: 0 <= i < |s| ==> u[i] == UpperChar(s[i])
  {
    seq(|s|, i requires 0 <= i < |s| => UpperChar(s[i]))
  }

  /** `pat` occurs in `s` starting at index `k`. */
  predicate OccursAt(s: string, pat: string, k: nat) {
    k + |pat| <= |s| && s[k..k + |pat|] == pat
  }

  /** Python's `pat in s`. */
  predicate Contains(s: string, pat: string) {
    exists k: nat :: k + |pat| <= |s| && OccursAt(s, pat, k)
  }

  /** Python's `s.endswith(suffix)`. */
  predicate EndsWith(s: string, suffix: string) {
    |suffix| <= |s| && s[|s| - |suffix|..] == suffix
  }

  lemma EndsWithConcat(s: string, suffix: string)
    ensures EndsWith(s + suffix, suffix)
  {
    assert (s + suffix)[|s|..] == suffix;
  }

  /** Python's `s.startswith(prefix)`. */
  predicate StartsWith(s: string, prefix: string) {
    |prefix| <= |s| && s[..|prefix|] == prefix
  }

  lemma StartsWithConcat(prefix: string, s: string)
    ensures StartsWith(prefix + s, prefix)
  {
    assert (prefix + s)[..|prefix|] == prefix;
  }

  /** Three pieces joined start with the first, contain the second and end with the last. */
  lemma ConcatEnds(a: string, b: string, c: string)
    ensures StartsWith(a + b + c, a) && Contains(a + b + c, b) && EndsWith(a + b + c, c)
  {
    assert (a + b + c)[..|a|] == a;
    assert (a + b + c)[|a|..|a| + |b|] == b;
    assert OccursAt(a + b + c, b, |a|);
    assert (a + b + c)[|a + b|..] == c;
  }

  // ---------------------------------------------------------------------
  // strip()

  /** The first index at or after `i` that does not hold white space. */
  function SkipSpaceForward(s: string, i: nat): (a: nat)
    requires i <= |s|
    ensures i <= a <= |s|
    ensures forall k :: i <= k < a ==> IsSpace(s[k])
    ensures a < |s| ==> !IsSpace(s[a])
    decreases |s| - i
  {
    if i == |s| || !IsSpace(s[i]) then i else SkipSpaceForward(s, i + 1)
  }

  /** The smallest `b` with `lo <= b <= j` such that `s[b..j]` is all white space. */
  function SkipSpaceBackward(s: string, lo: nat, j: nat): (b: nat)
    requires lo <= j <= |s|
    ensures lo <= b <= j
    ensures forall k :: b <= k < j ==> IsSpace(s[k])
    ensures b > lo ==> !IsSpace(s[b - 1])
    decreases j
  {
    if j == lo || !IsSpace(s[j - 1]) then j else SkipSpaceBackward(s, lo, j - 1)
  }

  function StripStart(s: string): (a: nat)
    ensures a <= |s|
  {
    SkipSpaceForward(s, 0)
  }

  function StripEnd(s: string): (b: nat)
    ensures StripStart(s) <= b <= |s|
  {
    SkipSpaceBackward(s, StripStart(s), |s|)
  }

  /**
   * Python's `s.strip()`: the slice of `s` left after removing the white
   * space at both ends. Only white space is removed, and what is left
   * neither starts nor ends with white space.
   */
  function Strip(s: string): (t: string)
    ensures t == s[StripStart(s)..StripEnd(s)]
    ensures forall k :: 0 <= k < StripStart(s) ==> IsSpace(s[k])
    ensures forall k :: StripEnd(s) <= k < |s| ==> IsSpace(s[k])
    ensures |t| > 0 ==> !IsSpace(t[0]) && !IsSpace(t[|t| - 1])
  {
    s[StripStart(s)..StripEnd(s)]
  }

  lemma SliceOfSlice(s: string, a: nat, b: nat, k: nat, l: nat)
    requires a <= b <= |s| && k <= l <= b - a
    ensures s[a..b][k..l] == s[a + k..a + l]
  {
    assert forall i :: 0 <= i < l - k ==> s[a..b][k..l][i] == s[a + k..a + l][i];
  }

  /** Whatever occurs in a slice of `s` occurs in `s`. */
  lemma ContainsInSlice(s: string, a: nat, b: nat, pat: string)
    requires a <= b <= |s|
    requires Contains(s[a..b], pat)
    ensures Contains(s, pat)
  {
    var k: nat :| k + |pat| <= b - a && OccursAt(s[a..b], pat, k);
    forall i | 0 <= i < |pat| ensures s[a + k + i] == pat[i] {
      assert s[a..b][k..k + |pat|][i] == pat[i];
    }
    assert s[a + k..a + k + |pat|] == pat;
    assert OccursAt(s, pat, a + k);
  }

  /** An occurrence of `inner` inside an occurrence of `outer` is an occurrence in `s`. */
  lemma ContainsTransitive(s: string, outer: string, inner: string)
    requires Contains(s, outer) && Contains(outer, inner)
    ensures Contains(s, inner)
  {
    var k: nat :| k + |outer| <= |s| && OccursAt(s, outer, k);
    assert s[k..k + |outer|] == outer;
    ContainsInSlice(s, k, k + |outer|, inner);
  }

  /**
   * An occurrence, in the upper-cased text, of a pattern that starts and
   * ends with a non-blank character lies inside the stripped part.
   */
  lemma OccurrenceWithinStrip(s: string, pat: string, k: nat)
    requires |pat| > 0 && !IsSpace(pat[0]) && !IsSpace(pat[|pat| - 1])
    requires OccursAt(Upper(s), pat, k)
    ensures StripStart(s) <= k && k + |pat| <= StripEnd(s)
  {
    var u := Upper(s);
    assert u[k..k + |pat|][0] == u[k];
    assert u[k..k + |pat|][|pat| - 1] == u[k + |pat| - 1];
    assert !IsSpace(s[k]) && !IsSpace(s[k + |pat| - 1]);
  }

  /** Upper-casing commutes with slicing. */
  lemma UpperOfSlice(s: string, a: nat, b: nat)
    requires a <= b <= |s|
    ensures Upper(s[a..b]) == Upper(s)[a..b]
  {
  }

  lemma StripContainsShrinks(s: string, pat: string)
    requires Contains(Upper(Strip(s)), pat)
    ensures Contains(Upper(s), pat)
  {
    UpperOfSlice(s, StripStart(s), StripEnd(s));
    ContainsInSlice(Upper(s), StripStart(s), StripEnd(s), pat);
  }

  lemma StripContainsGrows(s: string, pat: string, k: nat)
    requires |pat| > 0 && !IsSpace(pat[0]) && !IsSpace(pat[|pat| - 1])
    requires OccursAt(Upper(s), pat, k)
    ensures Contains(Upper(Strip(s)), pat)
  {
    var a, b := StripStart(s), StripEnd(s);
    var u := Upper(s);
    OccurrenceWithinStrip(s, pat, k);
    UpperOfSlice(s, a, b);
    SliceOfSlice(u, a, b, k - a, k - a + |pat|);
    assert OccursAt(Upper(Strip(s)), pat, k - a);
  }

  /**
   * Stripping before upper-casing never changes whether a pattern that
   * starts and ends with a non-blank character occurs.
   */
  lemma StripKeepsPattern(s: string, pat: string)
    requires |pat| > 0 && !IsSpace(pat[0]) && !IsSpace(pat[|pat| - 1])
    ensures Contains(Upper(Strip(s)), pat) <==> Contains(Upper(s), pat)
  {
    if Contains(Upper(Strip(s)), pat) {
      StripContainsShrinks(s, pat);
    }
    if Contains(Upper(s), pat) {
      var k: nat :| k + |pat| <= |s| && OccursAt(Upper(s), pat, k);
      StripContainsGrows(s, pat, k);
    }
  }

  // ---------------------------------------------------------------------
  // replace() and split()

  /** Python's `s.replace(pat, rep)`: every non-overlapping occurrence, left to right. */
  function ReplaceAll(s: string, pat: string, rep: string): string
    requires |pat| > 0
    decreases |s|
  {
    if |s| < |pat| then s
    else if s[..|pat|] == pat then rep + ReplaceAll(s[|pat|..], pat, rep)
    else [s[0]] + ReplaceAll(s[1..], pat, rep)
  }

  /** Replacing a pattern that does not occur leaves the text unchanged. */
  lemma {:induction false} ReplaceAbsent(s: string, pat: string, rep: string)
    requires |pat| > 0 && !Contains(s, pat)
    ensures ReplaceAll(s, pat, rep) == s
    decreases |s|
  {
    if |s| >= |pat| {
      assert !OccursAt(s, pat, 0);
      if !Contains(s[1..], pat) {
        ReplaceAbsent(s[1..], pat, rep);
      } else {
        assert s[1..|s|] == s[1..];
        ContainsInSlice(s, 1, |s|, pat);
        assert false;
      }
    }
  }

  /** Python's `s.split(sep)` for a one-character separator. */
  function Split(s: string, sep: char): (parts: seq<string>)
    ensures |parts| >= 1
    ensures forall i, k :: 0 <= i < |parts| && 0 <= k < |parts[i]| ==> parts[i][k] != sep
    decreases |s|
  {
    if |s| == 0 then [""]
    else
      var rest := Split(s[1..], sep);
      if s[0] == sep then [""] + rest
      else [[s[0]] + rest[0]] + rest[1..]
  }

  /** Joins pieces with a one-character separator, as `sep.join(parts)`. */
  function Join(parts: seq<string>, sep: char): string
    requires |parts| >= 1
    decreases |parts|
  {
    if |parts| == 1 then parts[0] else parts[0] + [sep] + Join(parts[1..], sep)
  }

  /** Splitting loses nothing: joining the pieces gives back the text. */
  lemma {:induction false} JoinSplit(s: string, sep: char)
    ensures Join(Split(s, sep), sep) == s
    decreases |s|
  {
    if |s| > 0 {
      JoinSplit(s[1..], sep);
      var rest := Split(s[1..], sep);
      if s[0] != sep {
        if |rest| == 1 {
          assert Join(rest, sep) == rest[0];
        } else {
          assert Join(rest, sep) == rest[0] + [sep] + Join(rest[1..], sep);
          assert Join([[s[0]] + rest[0]] + rest[1..], sep)
              == [s[0]] + rest[0] + [sep] + Join(rest[1..], sep);
        }
      } else {
        assert ([""] + rest)[1..] == rest;
      }
    }
  }

  predicate NoChar(s: string, c: char) {
    forall k :: 0 <= k < |s| ==> s[k] != c
  }

  lemma {:induction false} SplitWithoutSeparator(s: string, sep: char)
    requires NoChar(s, sep)
    ensures Split(s, sep) == [s]
    decreases |s|
  {
    if |s| > 0 {
      SplitWithoutSeparator(s[1..], sep);
      assert [s[0]] + s[1..] == s;
    }
  }

  lemma {:induction false} SplitAtFirstSeparator(a: string, b: string, sep: char)
    requires NoChar(a, sep)
    ensures Split(a + [sep] + b, sep) == [a] + Split(b, sep)
    decreases |a|
  {
    if |a| == 0 {
      assert a + [sep] + b == [sep] + b;
      assert ([sep] + b)[1..] == b;
    } else {
      SplitAtFirstSeparator(a[1..], b, sep);
      assert (a + [sep] + b)[1..] == a[1..] + [sep] + b;
      assert [a[0]] + a[1..] == a;
    }
  }

  // ---------------------------------------------------------------------
  // str(n) for n >= 0

  function DigitChar(d: nat): (c: char)
    requires d < 10
    ensures '0' <= c <= '9'
  {
    ('0' as int + d) as char
  }

  /** Python's `str(n)` for a non-negative integer, in decimal without leading zeros. */
  function Decimal(n: nat): (s: string)
    ensures |s| > 0
    ensures forall i :: 0 <= i < |s| ==> '0' <= s[i] <= '9'
    decreases n
  {
    if n < 10 then [DigitChar(n)] else Decimal(n / 10) + [DigitChar(n % 10)]
  }

  /** The number a string of decimal digits denotes. */
  function DecimalValue(s: string): nat
    requires forall i :: 0 <= i < |s| ==> '0' <= s[i] <= '9'
    decreases |s|
  {
    if |s| == 0 then 0
    else 10 * DecimalValue(s[..|s| - 1]) + (s[|s| - 1] as int - '0' as int)
  }

  /** `int(str(n)) == n`. */
  lemma {:induction false} DecimalRoundTrip(n: nat)
    ensures DecimalValue(Decimal(n)) == n
    decreases n
  {
    if n >= 10 {
      DecimalRoundTrip(n / 10);
      var s := Decimal(n);
      assert s[..|s| - 1] == Decimal(n / 10);
    }
  }
}
