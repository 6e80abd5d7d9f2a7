/**
 * The JavaScript string operations the pipeline uses: `trim`, `indexOf` and
 * `lastIndexOf`, with -1 for "not found" as in JavaScript.
 */
module JsStrings {

  /** ECMAScript WhiteSpace and LineTerminator characters: what `String.prototype.trim`
      strips and what the regular-expression class `\s` matches. */
  predicate IsJsWhitespace(c: char)
  {
    || c == '\t' || c == '\n' || c == '\U{000B}' || c == '\U{000C}' || c == '\r' || c == ' '
    || c == '\U{00A0}' || c == '\U{1680}' || ('\U{2000}' <= c <= '\U{200A}')
    || c == '\U{2028}' || c == '\U{2029}' || c == '\U{202F}' || c == '\U{205F}'
    || c == '\U{3000}' || c == '\U{FEFF}'
  }

  /** Every character of `s` from position `a` up to (not including) `b` is whitespace. */
  predicate WhitespaceBetween(s: string, a: int, b: int)
    requires 0 <= a <= b <= |s|
  {
    forall i :: a <= i < b ==> IsJsWhitespace(s[i])
  }

  /** The first position at or after `i` that does not hold whitespace (`|s|` if there is none). */
  function SkipWhitespace(s: string, i: nat): (j: nat)
    requires i <= |s|
    ensures i <= j <= |s|
    ensures WhitespaceBetween(s, i, j)
    ensures j < |s| ==> !IsJsWhitespace(s[j])
    decreases |s| - i
  {
    if i < |s| && IsJsWhitespace(s[i]) then SkipWhitespace(s, i + 1) else i
  }

  /** The smallest `e`, down to `lo`, such that everything from `e` up to `j` is whitespace. */
  function SkipWhitespaceBack(s: string, lo: nat, j: nat): (e: nat)
    requires lo <= j <= |s|
    ensures lo <= e <= j
    ensures WhitespaceBetween(s, e, j)
    ensures e > lo ==> !IsJsWhitespace(s[e - 1])
    decreases j
  {
    if j > lo && IsJsWhitespace(s[j - 1]) then SkipWhitespaceBack(s, lo, j - 1) else j
  }

  /** `r` is what is left of `s` once `k` leading and all trailing whitespace characters are removed. */
  predicate TrimmedAt(s: string, r: string, k: int)
  {
    0 <= k && k + |r| <= |s| && r == s[k..k + |r|]
    && WhitespaceBetween(s, 0, k) && WhitespaceBetween(s, k + |r|, |s|)
  }

  /** `s.trim()`: the part of `s` between its leading and its trailing whitespace. */
  function Trim(s: string): (r: string)
    ensures r == [] <==> WhitespaceBetween(s, 0, |s|)
    ensures r != [] ==> !IsJsWhitespace(r[0]) && !IsJsWhitespace(r[|r| - 1])
    ensures exists k :: TrimmedAt(s, r, k)
  {
    var a := SkipWhitespace(s, 0);
    var b := SkipWhitespaceBack(s, a, |s|);
    assert TrimmedAt(s, s[a..b], a);
    s[a..b]
  }

  /** `s.indexOf(c)`: the first position of `c` in `s`, or -1. */
  function IndexOf(s: string, c: char): (r: int)
    ensures -1 <= r < |s|
    ensures r == -1 <==> c !in s
    ensures 0 <= r ==> s[r] == c && c !in s[..r]
  {
    if s == [] then -1
    else if s[0] == c then 0
    else
      var k := IndexOf(s[1..], c);
      assert s[1..] == s[..|s|][1..];
      if k == -1 then -1
      else
        assert s[..k + 1] == [s[0]] + s[1..][..k];
        k + 1
  }

  /** `s.lastIndexOf(c)`: the last position of `c` in `s`, or -1. */
  function LastIndexOf(s: string, c: char): (r: int)
    ensures -1 <= r < |s|
    ensures r == -1 <==> c !in s
    ensures 0 <= r ==> s[r] == c && c !in s[r + 1..]
  {
    if s == [] then -1
    else if s[|s| - 1] == c then |s| - 1
    else
      var k := LastIndexOf(s[..|s| - 1], c);
      assert s == s[..|s| - 1] + [s[|s| - 1]];
      assert k >= 0 ==> s[k + 1..] == s[..|s| - 1][k + 1..] + [s[|s| - 1]];
      k
  }

  /** Trimming twice is trimming once. */
  lemma TrimIdempotent(s: string)
    ensures Trim(Trim(s)) == Trim(s)
  {
    var r := Trim(s);
    if r != [] {
      assert SkipWhitespace(r, 0) == 0;
      assert SkipWhitespaceBack(r, 0, |r|) == |r|;
    }
  }

  /** Trimming strips exactly the whitespace padding around a text whose ends are not whitespace. */
  lemma TrimPadded(a: string, m: string, b: string)
    requires WhitespaceBetween(a, 0, |a|) && WhitespaceBetween(b, 0, |b|)
    requires m != [] && !IsJsWhitespace(m[0]) && !IsJsWhitespace(m[|m| - 1])
    ensures Trim(a + m + b) == m
  {
    var t := a + m + b;
    assert t[|a|] == m[0] && t[|a| + |m| - 1] == m[|m| - 1];
    assert WhitespaceBetween(t, 0, |a|) by {
      forall i | 0 <= i < |a| ensures IsJsWhitespace(t[i]) {
        assert t[i] == a[i];
      }
    }
    assert WhitespaceBetween(t, |a| + |m|, |t|) by {
      forall i | |a| + |m| <= i < |t| ensures IsJsWhitespace(t[i]) {
        assert t[i] == b[i - |a| - |m|];
      }
    }
    var x := SkipWhitespace(t, 0);
    assert x == |a|;
    var y := SkipWhitespaceBack(t, x, |t|);
    assert y == |a| + |m|;
    assert t[x..y] == m;
  }

  /** No occurrence of `c` comes before `IndexOf(s, c)`. */
  lemma IndexOfIsFirst(s: string, c: char, k: nat)
    requires k < |s| && s[k] == c
    ensures 0 <= IndexOf(s, c) <= k
  {
    var r := IndexOf(s, c);
    assert s[k] in s;
    forall j | 0 <= j < r ensures s[j] != c {
      assert s[..r][j] == s[j];
    }
  }

  /** No occurrence of `c` comes after `LastIndexOf(s, c)`. */
  lemma LastIndexOfIsLast(s: string, c: char, k: nat)
    requires k < |s| && s[k] == c
    ensures k <= LastIndexOf(s, c)
  {
    var r := LastIndexOf(s, c);
    assert s[k] in s;
    forall j | r < j < |s| ensures s[j] != c {
      assert s[r + 1..][j - r - 1] == s[j];
    }
  }
}
