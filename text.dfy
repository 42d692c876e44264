/** The string primitives the harvester relies on: Go's `strings.TrimSpace`,
    `strings.HasSuffix`, and the byte-wise ordering of strings. */
module Text {

  /** White space as `strings.TrimSpace` sees it in single-byte text:
      tab, line feed, vertical tab, form feed, carriage return and space. */
  predicate IsSpace(c: char) {
    c == ' ' || c == '\t' || c == '\n' || c == '\r' || c as int == 11 || c as int == 12
  }

  predicate AllSpace(s: string) {
    forall i :: 0 <= i < |s| ==> IsSpace(s[i])
  }

  predicate HasSuffix(s: string, suffix: string) {
    |suffix| <= |s| && s[|s| - |suffix|..] == suffix
  }

  /** Index of the first non-white-space character of `s` at or after `from`
      (`|s|` when there is none). */
  function SkipSpace(s: string, from: nat): (n: nat)
    requires from <= |s|
    ensures from <= n <= |s|
    ensures forall k :: from <= k < n ==> IsSpace(s[k])
    ensures n < |s| ==> !IsSpace(s[n])
    decreases |s| - from
  {
    if from == |s| || !IsSpace(s[from]) then from else SkipSpace(s, from + 1)
  }

  /** Index just past the last non-white-space character of `s` in
      `s[lo..hi]` (`lo` when there is none). */
  function SkipSpaceBack(s: string, lo: nat, hi: nat): (n: nat)
    requires lo <= hi <= |s|
    ensures lo <= n <= hi
    ensures forall k :: n <= k < hi ==> IsSpace(s[k])
    ensures lo < n ==> !IsSpace(s[n - 1])
    decreases hi - lo
  {
    if hi == lo || !IsSpace(s[hi - 1]) then hi else SkipSpaceBack(s, lo, hi - 1)
  }

  /** `strings.TrimSpace`: cuts the white space off both ends of `s`; the
      result is empty exactly when `s` is all white space. */
  function TrimSpace(s: string): (r: string)
    ensures |r| <= |s|
    ensures r == [] <==> AllSpace(s)
  {
    var i := SkipSpace(s, 0);
    var j := SkipSpaceBack(s, i, |s|);
    assert AllSpace(s) ==> i == |s|;
    s[i..j]
  }

  /** `TrimSpace(s)` is the infix of `s` that neither starts nor ends with
      white space, everything cut off on either side being white space. */
  lemma TrimSpaceCuts(s: string)
    ensures var r := TrimSpace(s);
            && (r == [] || (!IsSpace(r[0]) && !IsSpace(r[|r| - 1])))
            && exists i :: 0 <= i && i + |r| <= |s| && r == s[i..i + |r|]
                           && AllSpace(s[..i]) && AllSpace(s[i + |r|..])
  {
    var i := SkipSpace(s, 0);
    var j := SkipSpaceBack(s, i, |s|);
    var r := s[i..j];
    assert TrimSpace(s) == r;
    assert AllSpace(s[..i]);
    assert AllSpace(s[j..]) by {
      forall k | 0 <= k < |s[j..]| ensures IsSpace(s[j..][k]) {
        assert s[j..][k] == s[j + k];
      }
    }
    assert j == i + |r|;
  }

  /** Byte-wise lexicographic order of strings, as Go's `<` on strings and
      `sort.Strings` use it. */
  predicate LexLess(a: string, b: string)
    decreases |a|
  {
    if a == [] then b != []
    else if b == [] then false
    else a[0] < b[0] || (a[0] == b[0] && LexLess(a[1..], b[1..]))
  }

  lemma {:induction false} LexLessIrreflexive(a: string)
    ensures !LexLess(a, a)
    decreases |a|
  {
    if a != [] {
      LexLessIrreflexive(a[1..]);
    }
  }

  /** Comparing two strings that start with pieces of equal length compares
      those pieces first, and the rests only when the pieces are equal. */
  lemma {:induction false} LexLessConcat(x: string, y: string, s: string, t: string)
    requires |x| == |y|
    ensures LexLess(x + s, y + t) == (LexLess(x, y) || (x == y && LexLess(s, t)))
    decreases |x|
  {
    if x == [] {
      assert x + s == s && y + t == t;
    } else {
      assert (x + s)[1..] == x[1..] + s;
      assert (y + t)[1..] == y[1..] + t;
      LexLessConcat(x[1..], y[1..], s, t);
      if x[0] == y[0] && x[1..] == y[1..] {
        assert x == y;
      }
    }
  }
}
