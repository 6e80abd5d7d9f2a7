/**
 * The string-aware brace matcher of the automated parsing path: from the first
 * `{` it walks forward, tracking brace depth, whether it is inside a string
 * literal and whether the previous character was a backslash inside one, and
 * stops at the `}` that brings the depth back to zero.
 *
 * `Step` is one iteration of the scanning loop, `Run` folds it over a text,
 * `MatchEnd` is the specification ("the first position after which the depth is
 * zero again"), and `FindMatchingBrace` is the loop, proved against it.
 */
module BraceScanner {
  import opened JsStrings

  /** The loop's variables: `braceCount`, `inString` and `escapeNext`. */
  datatype ScanState = ScanState(depth: int, inString: bool, escapeNext: bool)

  const Initial: ScanState := ScanState(0, false, false)

  /** One iteration of the loop on character `c`. */
  function Step(st: ScanState, c: char): ScanState
  {
    if st.escapeNext then st.(escapeNext := false)
    else if c == '\\' && st.inString then st.(escapeNext := true)
    else if c == '"' && !st.escapeNext then st.(inString := !st.inString)
    else if !st.inString && c == '{' then st.(depth := st.depth + 1)
    else if !st.inString && c == '}' then st.(depth := st.depth - 1)
    else st
  }

  /** The state after the loop has consumed all of `s`, starting from `st`. */
  function Run(st: ScanState, s: string): ScanState
    decreases |s|
  {
    if s == [] then st else Step(Run(st, s[..|s| - 1]), s[|s| - 1])
  }

  /** The brace depth once the characters of `t` from `start` up to (not including) `k` are consumed. */
  function DepthAfter(t: string, start: nat, k: nat): int
    requires start <= k <= |t|
  {
    Run(Initial, t[start..k]).depth
  }

  /** The last index `k - 1` of the first prefix `t[start..k]`, with `k` at least `from`,
      after which the depth is zero; -1 if there is none. */
  function FirstReturnToZero(t: string, start: nat, from: nat): (r: int)
    requires start < from <= |t| + 1
    ensures r == -1 || from - 1 <= r < |t|
    decreases |t| + 1 - from
  {
    if from > |t| then -1
    else if DepthAfter(t, start, from) == 0 then from - 1
    else FirstReturnToZero(t, start, from + 1)
  }

  /** The index of the `}` matching the `{` at `start`, or -1 when the object is never closed. */
  function MatchEnd(t: string, start: nat): (r: int)
    requires start < |t|
    ensures r == -1 || start <= r < |t|
  {
    FirstReturnToZero(t, start, start + 1)
  }

  /** The scanning loop: walk from `start` and stop at the first return to depth zero. */
  method FindMatchingBrace(t: string, start: nat) returns (endIndex: int)
    requires start < |t| && t[start] == '{'
    ensures endIndex == MatchEnd(t, start)
  {
    var braceCount := 0;
    var inString := false;
    var escapeNext := false;
    endIndex := -1;
    for i := start to |t|
      invariant ScanState(braceCount, inString, escapeNext) == Run(Initial, t[start..i])
      invariant MatchEnd(t, start) == FirstReturnToZero(t, start, i + 1)
      invariant endIndex == -1
      invariant i > start ==> braceCount > 0
    {
      DepthAfterStep(t, start, i);
      ghost var next := Step(ScanState(braceCount, inString, escapeNext), t[i]);
      assert next == Run(Initial, t[start..i + 1]);
      var c := t[i];
      if escapeNext {
        escapeNext := false;
      } else if c == '\\' && inString {
        escapeNext := true;
      } else if c == '"' && !escapeNext {
        inString := !inString;
      } else if !inString {
        if c == '{' {
          braceCount := braceCount + 1;
        } else if c == '}' {
          braceCount := braceCount - 1;
          if braceCount == 0 {
            endIndex := i;
            break;
          }
        }
      }
      assert ScanState(braceCount, inString, escapeNext) == next;
    }
  }

  /** Consuming `a` and then `b` is consuming `a + b`. */
  lemma {:induction false} RunAppend(st: ScanState, a: string, b: string)
    ensures Run(st, a + b) == Run(Run(st, a), b)
    decreases |b|
  {
    if b == [] {
      assert a + b == a;
    } else {
      assert (a + b)[..|a + b| - 1] == a + b[..|b| - 1];
      RunAppend(st, a, b[..|b| - 1]);
    }
  }

  /** A step changes the depth by at most one, and lowers it only on a `}`. */
  lemma StepDepth(st: ScanState, c: char)
    ensures st.depth - 1 <= Step(st, c).depth <= st.depth + 1
    ensures Step(st, c).depth < st.depth ==> c == '}'
  {
  }

  lemma DepthAfterStep(t: string, start: nat, k: nat)
    requires start <= k < |t|
    ensures Run(Initial, t[start..k + 1]) == Step(Run(Initial, t[start..k]), t[k])
  {
    assert t[start..k + 1][..k - start] == t[start..k];
  }

  /** While the search has not found a return to zero, the depth stays at one or more. */
  lemma {:induction false} DepthPositiveBefore(t: string, start: nat, from: nat)
    requires start < |t| && t[start] == '{'
    requires start < from <= |t| + 1
    requires FirstReturnToZero(t, start, from) == MatchEnd(t, start)
    requires forall k :: start < k < from ==> DepthAfter(t, start, k) >= 1
    ensures var e := MatchEnd(t, start);
      if e == -1 then forall k :: start < k <= |t| ==> DepthAfter(t, start, k) >= 1
      else e < |t| && DepthAfter(t, start, e + 1) == 0 && t[e] == '}'
           && forall k :: start < k <= e ==> DepthAfter(t, start, k) >= 1
    decreases |t| + 1 - from
  {
    if from <= |t| {
      DepthStep(t, start, from);
      if DepthAfter(t, start, from) != 0 {
        DepthPositiveBefore(t, start, from + 1);
      } else {
        var e := from - 1;
        assert e + 1 == from;
        assert DepthAfter(t, start, e + 1) == 0;
      }
    }
  }

  /** One more character keeps the depth at one or more, or brings it to zero on a `}`. */
  lemma DepthStep(t: string, start: nat, from: nat)
    requires start < |t| && t[start] == '{'
    requires start < from <= |t|
    requires forall k :: start < k < from ==> DepthAfter(t, start, k) >= 1
    ensures DepthAfter(t, start, from) >= 0
    ensures DepthAfter(t, start, from) == 0 ==> t[from - 1] == '}'
  {
    var d := DepthAfter(t, start, from);
    var prev := DepthAfter(t, start, from - 1);
    DepthAfterStep(t, start, from - 1);
    StepDepth(Run(Initial, t[start..from - 1]), t[from - 1]);
    if from == start + 1 {
      assert t[start..from] == [t[start]];
      assert t[start..from][..0] == [];
      assert d == 1;
    } else {
      assert prev >= 1;
    }
  }

  /** What a successful match guarantees, and what a failed one means. */
  lemma MatchEndProperties(t: string, start: nat)
    requires start < |t| && t[start] == '{'
    ensures var e := MatchEnd(t, start);
      if e == -1 then forall k :: start < k <= |t| ==> DepthAfter(t, start, k) >= 1
      else start < e < |t| && t[e] == '}' && DepthAfter(t, start, e + 1) == 0
           && forall k :: start < k <= e ==> DepthAfter(t, start, k) >= 1
  {
    DepthPositiveBefore(t, start, start + 1);
    DepthAfterStep(t, start, start);
    assert t[start..start] == [];
    assert DepthAfter(t, start, start + 1) == 1;
  }

  /** The search result depends only on the text up to where it stops. */
  lemma {:induction false} FirstReturnToZeroExtend(t: string, junk: string, start: nat, from: nat)
    requires start < from <= |t| + 1
    requires FirstReturnToZero(t, start, from) != -1
    ensures FirstReturnToZero(t + junk, start, from) == FirstReturnToZero(t, start, from)
    decreases |t| + 1 - from
  {
    assert (t + junk)[start..from] == t[start..from];
    if DepthAfter(t, start, from) != 0 {
      FirstReturnToZeroExtend(t, junk, start, from + 1);
    }
  }

  /** Trailing prose, braces and all, cannot change a match that was found:
      the matching `}` is the same with or without what follows it. */
  lemma MatchEndIgnoresTrailingText(t: string, junk: string, start: nat)
    requires start < |t|
    requires MatchEnd(t, start) != -1
    ensures MatchEnd(t + junk, start) == MatchEnd(t, start)
  {
    FirstReturnToZeroExtend(t, junk, start, start + 1);
  }

  /** The body of a JSON string literal: characters other than `"` and `\`,
      and backslash escapes, each of which hides the character after it. */
  predicate StringBody(c: string)
    decreases |c|
  {
    if c == [] then true
    else if c[0] == '\\' then |c| >= 2 && StringBody(c[2..])
    else c[0] != '"' && StringBody(c[1..])
  }

  /** Inside a string, a string body changes nothing: its braces are not counted
      and its escaped quotes do not end the string. */
  lemma {:induction false} StringBodyIsInert(st: ScanState, c: string)
    requires st.inString && !st.escapeNext
    requires StringBody(c)
    ensures Run(st, c) == st
    decreases |c|
  {
    if c != [] {
      if c[0] == '\\' {
        assert c == [c[0], c[1]] + c[2..];
        RunAppend(st, [c[0], c[1]], c[2..]);
        assert [c[0], c[1]][..1] == [c[0]];
        assert [c[0]][..0] == [];
        assert Run(st, [c[0]]) == st.(escapeNext := true);
        assert Run(st, [c[0], c[1]]) == st;
        StringBodyIsInert(st, c[2..]);
      } else {
        assert c == [c[0]] + c[1..];
        RunAppend(st, [c[0]], c[1..]);
        assert [c[0]][..0] == [];
        StringBodyIsInert(st, c[1..]);
      }
    }
  }

  /** Every state met while consuming a string body keeps the depth and stays inside the string. */
  lemma {:induction false} StringBodyStates(st: ScanState, c: string, k: nat)
    requires st.inString && !st.escapeNext
    requires StringBody(c) && k <= |c|
    ensures Run(st, c[..k]).depth == st.depth && Run(st, c[..k]).inString
    decreases |c|
  {
    if k > 0 {
      assert [c[0]][..0] == [];
      if c[0] == '\\' {
        if k == 1 {
          assert c[..1] == [c[0]];
        } else {
          assert |c| >= 2 && c[2..][..k - 2] == c[2..k];
          assert c[..2] == [c[0], c[1]];
          assert c[..k] == c[..2] + c[2..k];
          RunAppend(st, [c[0], c[1]], c[2..][..k - 2]);
          assert [c[0], c[1]][..1] == [c[0]];
          assert Run(st, [c[0]]) == st.(escapeNext := true);
          assert Run(st, [c[0], c[1]]) == st;
          StringBodyStates(st, c[2..], k - 2);
        }
      } else {
        assert c[..k] == [c[0]] + c[1..][..k - 1];
        RunAppend(st, [c[0]], c[1..][..k - 1]);
        StringBodyStates(st, c[1..], k - 1);
      }
    }
  }

  /** The depth stays above zero after every non-empty prefix of `c`. */
  ghost predicate PositiveThrough(st: ScanState, c: string)
  {
    forall k :: 0 < k <= |c| ==> Run(st, c[..k]).depth > 0
  }

  /** Positivity of the depth composes over consecutive pieces of text. */
  lemma PositiveThroughAppend(st: ScanState, a: string, b: string)
    requires PositiveThrough(st, a) && PositiveThrough(Run(st, a), b)
    ensures PositiveThrough(st, a + b)
  {
    forall k | 0 < k <= |a + b| ensures Run(st, (a + b)[..k]).depth > 0 {
      if k <= |a| {
        assert (a + b)[..k] == a[..k];
      } else {
        assert (a + b)[..k] == a + b[..k - |a|];
        RunAppend(st, a, b[..k - |a|]);
      }
    }
  }

  /** A string literal met outside a string, at positive depth, keeps the depth positive
      throughout and leaves the state as it found it. */
  lemma StringLiteralPositive(st: ScanState, c: string)
    requires !st.inString && !st.escapeNext && st.depth > 0
    requires StringBody(c)
    ensures PositiveThrough(st, ['"'] + c + ['"'])
    ensures Run(st, ['"'] + c + ['"']) == st
  {
    var inside := st.(inString := true);
    assert ['"'][..0] == [];
    assert ['"'][..1] == ['"'];
    assert Run(st, ['"']) == inside;
    assert PositiveThrough(st, ['"']);
    forall k | 0 < k <= |c| ensures Run(inside, c[..k]).depth > 0 {
      StringBodyStates(inside, c, k);
    }
    assert c[..|c|] == c;
    StringBodyIsInert(inside, c);
    assert Run(inside, ['"']) == st;
    assert PositiveThrough(inside, ['"']);
    PositiveThroughAppend(st, ['"'], c);
    RunAppend(st, ['"'], c);
    PositiveThroughAppend(st, ['"'] + c, ['"']);
    RunAppend(st, ['"'] + c, ['"']);
  }

  /** Text without braces, quotes or backslashes, met outside a string, changes nothing. */
  lemma {:induction false} PlainTextInert(st: ScanState, c: string, k: nat)
    requires !st.inString && !st.escapeNext
    requires forall i :: 0 <= i < |c| ==> c[i] !in "{}\"\\"
    requires k <= |c|
    ensures Run(st, c[..k]) == st
  {
    if k > 0 {
      assert c[..k][..k - 1] == c[..k - 1];
      PlainTextInert(st, c, k - 1);
    }
  }

  /** The search finds `e` when the depth is non-zero after every prefix from `from` to `e` and zero after `e`. */
  lemma {:induction false} FirstReturnToZeroAt(t: string, start: nat, from: nat, e: nat)
    requires start < from <= e + 1 <= |t|
    requires forall k :: from <= k <= e ==> DepthAfter(t, start, k) != 0
    requires DepthAfter(t, start, e + 1) == 0
    ensures FirstReturnToZero(t, start, from) == e
    decreases e + 1 - from
  {
    if from <= e {
      FirstReturnToZeroAt(t, start, from + 1, e);
    }
  }

  /** An object text the scanner reads as closing exactly at its last character. */
  ghost predicate BalancedObject(obj: string)
  {
    |obj| >= 2 && obj[0] == '{' && PositiveThrough(Initial, obj[..|obj| - 1]) && Run(Initial, obj).depth == 0
  }

  /** When the text from `start` is a span `obj` whose depth stays positive until its
      last character brings it to zero, the match ends at the last character of `obj`. */
  lemma MatchEndOfSpan(t: string, start: nat, obj: string)
    requires |obj| >= 1 && start + |obj| <= |t| && t[start..start + |obj|] == obj
    requires PositiveThrough(Initial, obj[..|obj| - 1])
    requires Run(Initial, obj).depth == 0
    ensures MatchEnd(t, start) == start + |obj| - 1
  {
    var e := start + |obj| - 1;
    SpanPositive(t, start, obj, e);
    SpanClosed(t, start, obj, e);
    FirstReturnToZeroAt(t, start, start + 1, e);
  }

  lemma SpanPositive(t: string, start: nat, obj: string, e: nat)
    requires |obj| >= 1 && e == start + |obj| - 1 && e < |t| && t[start..e + 1] == obj
    requires PositiveThrough(Initial, obj[..|obj| - 1])
    ensures forall k :: start + 1 <= k <= e ==> DepthAfter(t, start, k) != 0
  {
    forall k | start + 1 <= k <= e ensures DepthAfter(t, start, k) != 0 {
      SpanPrefixDepth(t, start, obj, k);
    }
  }

  lemma SpanClosed(t: string, start: nat, obj: string, e: nat)
    requires e + 1 == start + |obj| <= |t| && t[start..e + 1] == obj
    requires Run(Initial, obj).depth == 0
    ensures DepthAfter(t, start, e + 1) == 0
  {
  }

  lemma SpanPrefixDepth(t: string, start: nat, obj: string, k: nat)
    requires |obj| >= 1 && start + |obj| <= |t| && t[start..start + |obj|] == obj
    requires PositiveThrough(Initial, obj[..|obj| - 1])
    requires start < k < start + |obj|
    ensures DepthAfter(t, start, k) > 0
  {
    var body := obj[..|obj| - 1];
    forall i | 0 <= i < k - start ensures t[start..k][i] == body[..k - start][i] {
      assert t[start..start + |obj|][i] == obj[i];
    }
    assert t[start..k] == body[..k - start];
    assert 0 < k - start <= |body|;
  }

  /** The text of the object `{"key": "value"}`. */
  function OneMemberObject(key: string, value: string): string
  {
    "{" + (['"'] + key + ['"']) + ": " + (['"'] + value + ['"']) + "}"
  }

  /** Scanning `{"key": "value"}` keeps the depth positive until its last brace closes it. */
  lemma OneMemberObjectSpan(key: string, value: string)
    requires StringBody(key) && StringBody(value)
    ensures var obj := OneMemberObject(key, value);
      PositiveThrough(Initial, obj[..|obj| - 1]) && Run(Initial, obj).depth == 0
  {
    var one := ScanState(1, false, false);
    var open := "{";
    var k := ['"'] + key + ['"'];
    var sep := ": ";
    var v := ['"'] + value + ['"'];
    var obj := OneMemberObject(key, value);
    assert open[..0] == [];
    assert Run(Initial, open) == one;
    assert PositiveThrough(Initial, open) by { assert open[..1] == open; }
    StringLiteralPositive(one, key);
    forall j | 0 <= j <= |sep| ensures Run(one, sep[..j]) == one {
      PlainTextInert(one, sep, j);
    }
    assert sep[..|sep|] == sep;
    assert PositiveThrough(one, sep);
    StringLiteralPositive(one, value);
    PositiveThroughAppend(Initial, open, k);
    RunAppend(Initial, open, k);
    PositiveThroughAppend(Initial, open + k, sep);
    RunAppend(Initial, open + k, sep);
    PositiveThroughAppend(Initial, open + k + sep, v);
    RunAppend(Initial, open + k + sep, v);
    assert obj == open + k + sep + v + "}";
    assert obj[..|obj| - 1] == open + k + sep + v;
    assert Run(Initial, obj) == Step(Run(Initial, open + k + sep + v), '}');
  }

  /** The object `{"key": "value"}`, whatever braces its two string bodies hold, is
      matched up to its own closing brace, whatever text surrounds it: a naive
      first-`{`-to-last-`}` cut would instead run on into a `}` in the trailing text. */
  lemma OneMemberObjectMatched(pre: string, key: string, value: string, post: string)
    requires '{' !in pre
    requires StringBody(key) && StringBody(value)
    ensures var obj := OneMemberObject(key, value);
      var t := pre + obj + post;
      IndexOf(t, '{') == |pre| && MatchEnd(t, |pre|) == |pre| + |obj| - 1
      && t[|pre|..MatchEnd(t, |pre|) + 1] == obj
  {
    var obj := OneMemberObject(key, value);
    var t := pre + obj + post;
    assert t[|pre|] == '{';
    assert t[..|pre|] == pre;
    assert t[|pre|..|pre| + |obj|] == obj;
    OneMemberObjectSpan(key, value);
    MatchEndOfSpan(t, |pre|, obj);
  }

  /** Text with no quote and no backslash is a string body. */
  lemma {:induction false} PlainStringBody(c: string)
    requires forall i :: 0 <= i < |c| ==> c[i] != '"' && c[i] != '\\'
    ensures StringBody(c)
    decreases |c|
  {
    if c != [] {
      PlainStringBody(c[1..]);
    }
  }

  /** The regression case: in `x {"a": "contains } brace"} y` the brace inside the
      string value does not end the object; the whole object is extracted. */
  lemma BraceInsideStringRegression(t: string)
    requires t == "x {\"a\": \"contains } brace\"} y"
    ensures IndexOf(t, '{') == 2 && MatchEnd(t, 2) == 26
    ensures t[2..27] == "{\"a\": \"contains } brace\"}"
  {
    RegressionTextShape(t);
    RegressionMatched(t);
  }

  lemma RegressionTextShape(t: string)
    requires t == "x {\"a\": \"contains } brace\"} y"
    ensures t == "x " + OneMemberObject("a", "contains } brace") + " y"
  {
    RegressionKey();
    RegressionValue();
    RegressionObject();
    RegressionPadding();
  }

  lemma RegressionKey()
    ensures ['"'] + "a" + ['"'] == "\"a\""
  {
  }

  lemma RegressionValue()
    ensures ['"'] + "contains } brace" + ['"'] == "\"contains } brace\""
  {
  }

  lemma RegressionObject()
    ensures "{" + "\"a\"" + ": " + "\"contains } brace\"" + "}" == "{\"a\": \"contains } brace\"}"
  {
  }

  lemma RegressionPadding()
    ensures "x " + "{\"a\": \"contains } brace\"}" + " y" == "x {\"a\": \"contains } brace\"} y"
  {
  }

  lemma RegressionMatched(t: string)
    requires t == "x " + OneMemberObject("a", "contains } brace") + " y"
    ensures IndexOf(t, '{') == 2 && MatchEnd(t, 2) == 26
  {
    var value := "contains } brace";
    assert forall i :: 0 <= i < |value| ==> value[i] != '"' && value[i] != '\\';
    PlainStringBody(value);
    PlainStringBody("a");
    OneMemberObjectMatched("x ", "a", value, " y");
  }
}
