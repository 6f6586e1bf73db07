/**
 * Python's `str.strip()` called without arguments, as CPython defines it:
 * it removes, from both ends, every character for which `str.isspace()`
 * holds, and nothing else. Like CPython, the model finds the first index
 * past the leading whitespace, then the end of the text before the
 * trailing whitespace, and returns the slice between them.
 */
module PyStr {

  /** The 29 code points for which CPython's `str.isspace()` is true. */
  predicate IsSpace(c: char) {
    || '\t' <= c <= '\r'             // U+0009 .. U+000D
    || '\U{1C}' <= c <= '\U{1F}'     // the four information separators
    || c == ' '
    || c == '\U{85}' || c == '\U{A0}' || c == '\U{1680}'
    || '\U{2000}' <= c <= '\U{200A}'
    || c == '\U{2028}' || c == '\U{2029}' || c == '\U{202F}' || c == '\U{205F}' || c == '\U{3000}'
  }

  /** Every character of `s` is whitespace (true of the empty string). */
  predicate AllSpace(s: string) {
    forall k :: 0 <= k < |s| ==> IsSpace(s[k])
  }

  /** Neither end of `s` is whitespace: `s` is what `strip()` can return. */
  predicate Trimmed(s: string) {
    s == [] || (!IsSpace(s[0]) && !IsSpace(s[|s| - 1]))
  }

  /** From index `i`, the first index that is not whitespace, or `|s|`. */
  function SkipSpace(s: string, i: nat): (n: nat)
    requires i <= |s|
    ensures i <= n <= |s|
    ensures forall k :: i <= k < n ==> IsSpace(s[k])
    ensures n == |s| || !IsSpace(s[n])
    decreases |s| - i
  {
    if i < |s| && IsSpace(s[i]) then SkipSpace(s, i + 1) else i
  }

  /** Going back from `j`, no further than `lo`, the end of the text before a whitespace run. */
  function SkipSpaceBack(s: string, lo: nat, j: nat): (m: nat)
    requires lo <= j <= |s|
    ensures lo <= m <= j
    ensures forall k :: m <= k < j ==> IsSpace(s[k])
    ensures m == lo || !IsSpace(s[m - 1])
  {
    if lo < j && IsSpace(s[j - 1]) then SkipSpaceBack(s, lo, j - 1) else j
  }

  /** `str.strip()`. */
  function Strip(s: string): (r: string)
    ensures Trimmed(r)
    ensures |r| <= |s|
  {
    var i := SkipSpace(s, 0);
    s[i..SkipSpaceBack(s, i, |s|)]
  }

  /** `SkipSpace` stops at the one place a whitespace run from `i` can end. */
  lemma SkipSpaceStopsAt(s: string, i: nat, n: nat)
    requires i <= n <= |s|
    requires forall k :: i <= k < n ==> IsSpace(s[k])
    requires n == |s| || !IsSpace(s[n])
    ensures SkipSpace(s, i) == n
  {
  }

  /** `SkipSpaceBack` stops at the one place a whitespace run back from `j` can begin. */
  lemma SkipSpaceBackStopsAt(s: string, lo: nat, j: nat, m: nat)
    requires lo <= m <= j <= |s|
    requires forall k :: m <= k < j ==> IsSpace(s[k])
    requires m == lo || !IsSpace(s[m - 1])
    ensures SkipSpaceBack(s, lo, j) == m
  {
  }

  /**
   * `strip()` is the one trimmed core of its input: whenever `s` is a
   * whitespace run, a trimmed string and a whitespace run, in that order,
   * `strip()` returns the middle part.
   */
  lemma StripUnique(s: string, a: string, m: string, b: string)
    requires s == a + m + b
    requires AllSpace(a) && AllSpace(b) && Trimmed(m)
    ensures Strip(s) == m
  {
    var lead := if m == [] then |s| else |a|;
    var stop := |a| + |m|;
    forall k | 0 <= k < lead ensures IsSpace(s[k]) {
      if k < |a| { assert s[k] == a[k]; } else { assert s[k] == b[k - |a|]; }
    }
    SkipSpaceStopsAt(s, 0, lead);
    if m == [] {
      SkipSpaceBackStopsAt(s, lead, |s|, |s|);
    } else {
      assert s[|a|] == m[0];
      forall k | stop <= k < |s| ensures IsSpace(s[k]) {
        assert s[k] == b[k - stop];
      }
      assert s[stop - 1] == m[|m| - 1];
      SkipSpaceBackStopsAt(s, lead, |s|, stop);
      assert s[lead..stop] == m;
    }
  }

  /** The other half of the characterisation: `s` splits around `strip(s)` into two whitespace runs. */
  lemma StripDecomposes(s: string) returns (a: string, b: string)
    ensures s == a + Strip(s) + b
    ensures AllSpace(a) && AllSpace(b)
  {
    var i := SkipSpace(s, 0);
    var j := SkipSpaceBack(s, i, |s|);
    a, b := s[..i], s[j..];
    assert s == a + s[i..j] + b;
  }

  /** A string of whitespace strips to the empty string. */
  lemma AllSpaceStripsToEmpty(s: string)
    requires AllSpace(s)
    ensures Strip(s) == []
  {
    SkipSpaceStopsAt(s, 0, |s|);
  }

  /** `strip()` returns the empty string exactly when its input is all whitespace. */
  lemma StripEmptyIffAllSpace(s: string)
    ensures Strip(s) == [] <==> AllSpace(s)
  {
    if AllSpace(s) {
      AllSpaceStripsToEmpty(s);
    } else {
      var a, b := StripDecomposes(s);
    }
  }

  /** A trimmed string is left as it is. */
  lemma StripOfTrimmed(s: string)
    requires Trimmed(s)
    ensures Strip(s) == s
  {
    StripUnique(s, [], s, []);
  }

  /** `strip()` is idempotent. */
  lemma StripIdempotent(s: string)
    ensures Strip(Strip(s)) == Strip(s)
  {
    StripOfTrimmed(Strip(s));
  }
}
