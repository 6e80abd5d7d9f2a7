/**
 * Markdown fence extraction of the manual-paste path: the first match of the
 * regular expression /```(?:json)?\s*([\s\S]*?)```/ and its capture group.
 */
module Fence {
  import opened Wrappers
  import opened JsStrings

  /** Three backticks begin at `p`. */
  predicate MarkAt(t: string, p: int)
  {
    0 <= p && p + 3 <= |t| && t[p] == '`' && t[p + 1] == '`' && t[p + 2] == '`'
  }

  /** The optional tag `json` begins at `p`. */
  predicate TagAt(t: string, p: int)
  {
    0 <= p && p + 4 <= |t| && t[p] == 'j' && t[p + 1] == 's' && t[p + 2] == 'o' && t[p + 3] == 'n'
  }

  /** The first position at or after `from` where three backticks begin, or -1. */
  function NextMark(t: string, from: nat): (r: int)
    requires from <= |t|
    ensures r == -1 || (from <= r && MarkAt(t, r))
    decreases |t| - from
  {
    if from + 3 > |t| then -1
    else if MarkAt(t, from) then from
    else NextMark(t, from + 1)
  }

  /** No mark begins between `from` and the one found, nor anywhere after `from` when none is found. */
  lemma {:induction false} NextMarkFirst(t: string, from: nat)
    requires from <= |t|
    ensures var r := NextMark(t, from);
      (r == -1 ==> forall i :: from <= i ==> !MarkAt(t, i))
      && (r != -1 ==> forall i :: from <= i < r ==> !MarkAt(t, i))
    decreases |t| - from
  {
    if from + 3 <= |t| && !MarkAt(t, from) {
      NextMarkFirst(t, from + 1);
    }
  }

  /** The match attempted at an opening fence at `p`. The optional tag and the
      whitespace run are greedy and the body is lazy, so the capture starts after
      the longest tag-and-whitespace prefix and ends at the first closing fence.
      Giving back the tag or some whitespace cannot help a failed attempt: a
      closing fence cannot begin inside `json` or inside whitespace. */
  function FenceAt(t: string, p: nat): Option<string>
    requires MarkAt(t, p)
  {
    var afterTag := if TagAt(t, p + 3) then p + 7 else p + 3;
    var q := SkipWhitespace(t, afterTag);
    var e := NextMark(t, q);
    if e == -1 then None else Some(t[q..e])
  }

  /** The leftmost match starting at or after `from`: the engine tries each start in turn. */
  function FenceFrom(t: string, from: nat): Option<string>
    requires from <= |t|
    decreases |t| - from
  {
    var p := NextMark(t, from);
    if p == -1 then None
    else
      match FenceAt(t, p)
      case Some(body) => Some(body)
      case None => FenceFrom(t, p + 1)
  }

  /** `codeBlockMatch[1]`, when `trimmed.match(...)` finds a block. */
  function FenceInterior(t: string): Option<string>
  {
    FenceFrom(t, 0)
  }

  /** The working string: the trimmed interior of the first fenced block, or the trimmed input. */
  function WorkingText(trimmed: string): string
  {
    match FenceInterior(trimmed)
    case Some(body) => Trim(body)
    case None => trimmed
  }

  /** Two triple backticks occur, the second beginning after the first ends. */
  predicate HasFencePair(t: string)
  {
    exists p, e :: 0 <= p && p + 3 <= e <= |t| && MarkAt(t, p) && MarkAt(t, e)
  }

  /** An attempt at an opening fence succeeds whenever a closing fence follows it. */
  lemma FenceAtSucceeds(t: string, p: nat, e: nat)
    requires MarkAt(t, p) && p + 3 <= e && MarkAt(t, e)
    ensures FenceAt(t, p).Some?
  {
    var afterTag := if TagAt(t, p + 3) then p + 7 else p + 3;
    assert afterTag <= e;
    var q := SkipWhitespace(t, afterTag);
    assert !IsJsWhitespace(t[e]);
    NextMarkFirst(t, q);
    assert q <= e;
  }

  /** The search from `from` settles on the attempt at the first opening fence, or moves past it. */
  lemma FenceFromStep(t: string, from: nat)
    requires from <= |t| && NextMark(t, from) != -1
    ensures var first := NextMark(t, from);
      first < |t| && MarkAt(t, first)
      && FenceFrom(t, from) == if FenceAt(t, first).Some? then FenceAt(t, first) else FenceFrom(t, first + 1)
  {
  }

  /** The first opening fence has a closing fence after it, so the search succeeds there. */
  lemma FindsAtFirst(t: string, from: nat, p: nat, e: nat)
    requires from <= |t| && NextMark(t, from) == p && p + 3 <= e && MarkAt(t, e)
    ensures FenceFrom(t, from).Some?
  {
    FenceFromStep(t, from);
    FenceAtSucceeds(t, p, e);
  }

  /** A search that succeeds past the first opening fence succeeds from before it. */
  lemma FindsLater(t: string, from: nat, first: nat)
    requires from <= |t| && NextMark(t, from) == first && FenceFrom(t, first + 1).Some?
    ensures FenceFrom(t, from).Some?
  {
    FenceFromStep(t, from);
  }

  /** The search for a mark stops no later than a mark known to be there. */
  lemma MarkNoLaterThan(t: string, from: nat, p: nat)
    requires from <= p && MarkAt(t, p)
    ensures 0 <= NextMark(t, from) <= p
  {
    NextMarkFirst(t, from);
  }

  lemma {:induction false} FenceFromFinds(t: string, from: nat, p: nat, e: nat)
    requires from <= p && MarkAt(t, p) && p + 3 <= e && MarkAt(t, e)
    ensures FenceFrom(t, from).Some?
    decreases |t| - from
  {
    var first := NextMark(t, from);
    MarkNoLaterThan(t, from, p);
    if first == p {
      FindsAtFirst(t, from, p, e);
    } else {
      FenceFromFinds(t, first + 1, p, e);
      FindsLater(t, from, first);
    }
  }

  lemma {:induction false} FenceFromFound(t: string, from: nat)
    requires from <= |t|
    requires FenceFrom(t, from).Some?
    ensures HasFencePair(t)
    decreases |t| - from
  {
    var p := NextMark(t, from);
    SucceededSomewhere(t, from);
    if FenceAt(t, p).Some? {
      FenceAtFound(t, p);
    } else {
      FenceFromFound(t, p + 1);
    }
  }

  /** A successful search succeeded at its first opening fence or later. */
  lemma SucceededSomewhere(t: string, from: nat)
    requires from <= |t| && FenceFrom(t, from).Some?
    ensures var p := NextMark(t, from);
      p != -1 && MarkAt(t, p) && (FenceAt(t, p).None? ==> FenceFrom(t, p + 1).Some?)
  {
  }

  /** A successful attempt has found a closing fence after the opening one. */
  lemma FenceAtFound(t: string, p: nat)
    requires MarkAt(t, p) && FenceAt(t, p).Some?
    ensures HasFencePair(t)
  {
    var afterTag := if TagAt(t, p + 3) then p + 7 else p + 3;
    var e := NextMark(t, SkipWhitespace(t, afterTag));
    assert MarkAt(t, p) && p + 3 <= e && MarkAt(t, e);
  }

  /** A fenced block is found exactly when the text holds two non-overlapping triple backticks. */
  lemma FenceFoundIff(t: string)
    ensures FenceInterior(t).Some? <==> HasFencePair(t)
  {
    if HasFencePair(t) {
      var p, e :| 0 <= p && p + 3 <= e <= |t| && MarkAt(t, p) && MarkAt(t, e);
      FenceFromFinds(t, 0, p, e);
    }
    if FenceInterior(t).Some? {
      FenceFromFound(t, 0);
    }
  }

  predicate NoBacktick(s: string)
  {
    forall i :: 0 <= i < |s| ==> s[i] != '`'
  }

  /** The first triple backtick at or after `from` is at `p` when no backtick comes between. */
  lemma NextMarkIs(t: string, from: nat, p: nat)
    requires from <= p && MarkAt(t, p)
    requires forall i :: from <= i < p ==> t[i] != '`'
    ensures NextMark(t, from) == p
  {
    NextMarkFirst(t, from);
  }

  /** A block tagged `json`, located by position: no backtick before the opening
      fence at `p`, whitespace from `p + 7` to `q`, the body from `q` to the
      closing fence at `e` free of backticks and not starting with whitespace. */
  predicate TaggedBlockAt(t: string, p: nat, q: nat, e: nat)
  {
    p + 7 <= q <= e && MarkAt(t, p) && TagAt(t, p + 3) && MarkAt(t, e)
    && (forall i :: 0 <= i < p ==> t[i] != '`')
    && WhitespaceBetween(t, p + 7, q)
    && (forall i :: q <= i < e ==> t[i] != '`')
    && (q < e ==> !IsJsWhitespace(t[q]))
  }

  /** The capture of a tagged block is exactly the text between its whitespace and its closing fence. */
  lemma TaggedBlockInterior(t: string, p: nat, q: nat, e: nat)
    requires TaggedBlockAt(t, p, q, e)
    ensures FenceInterior(t) == Some(t[q..e])
  {
    NextMarkIs(t, 0, p);
    assert SkipWhitespace(t, p + 7) == q;
    NextMarkIs(t, q, e);
  }

  /** A block tagged `json` is stripped to exactly its body: the tag, the whitespace
      after it and the fences are removed, and what follows the closing fence is ignored. */
  lemma FenceStripping(pre: string, ws: string, body: string, post: string)
    requires NoBacktick(pre) && NoBacktick(body)
    requires WhitespaceBetween(ws, 0, |ws|)
    requires body == [] || !IsJsWhitespace(body[0])
    ensures FenceInterior(pre + "```json" + ws + body + "```" + post) == Some(body)
  {
    var t := pre + "```json" + ws + body + "```" + post;
    StrippingLayout(pre, ws, body, post, t);
    TaggedBlockInterior(t, |pre|, |pre| + 7 + |ws|, |pre| + 7 + |ws| + |body|);
  }

  /** Where the pieces of `pre```json ws body``` post` lie. */
  lemma StrippingLayout(pre: string, ws: string, body: string, post: string, t: string)
    requires NoBacktick(pre) && NoBacktick(body)
    requires WhitespaceBetween(ws, 0, |ws|)
    requires body == [] || !IsJsWhitespace(body[0])
    requires t == pre + "```json" + ws + body + "```" + post
    ensures var p := |pre|; var q := p + 7 + |ws|; var e := q + |body|;
      TaggedBlockAt(t, p, q, e) && t[q..e] == body
  {
    LayoutHead(pre, ws, body, post, t);
    LayoutMiddle(pre, ws, body, post, t);
    LayoutClose(pre, ws, body, post, t);
    PiecesFormBlock(t, pre, ws, body);
  }

  /** The position facts of the layout make a tagged block whose capture is `body`. */
  lemma PiecesFormBlock(t: string, pre: string, ws: string, body: string)
    requires NoBacktick(pre) && NoBacktick(body)
    requires WhitespaceBetween(ws, 0, |ws|)
    requires body == [] || !IsJsWhitespace(body[0])
    requires |pre| + 7 + |ws| + |body| + 3 <= |t|
    requires forall i :: 0 <= i < |pre| ==> t[i] == pre[i]
    requires MarkAt(t, |pre|) && TagAt(t, |pre| + 3)
    requires forall i :: 0 <= i < |ws| ==> t[|pre| + 7 + i] == ws[i]
    requires forall i :: 0 <= i < |body| ==> t[|pre| + 7 + |ws| + i] == body[i]
    requires MarkAt(t, |pre| + 7 + |ws| + |body|)
    ensures var p := |pre|; var q := p + 7 + |ws|; var e := q + |body|;
      TaggedBlockAt(t, p, q, e) && t[q..e] == body
  {
    var p := |pre|;
    var q := p + 7 + |ws|;
    var e := q + |body|;
    forall i | p + 7 <= i < q ensures IsJsWhitespace(t[i]) {
      assert t[i] == ws[i - p - 7];
    }
    forall i | q <= i < e ensures t[i] != '`' {
      assert t[i] == body[i - q];
    }
    assert t[q..e] == body;
  }

  lemma LayoutHead(pre: string, ws: string, body: string, post: string, t: string)
    requires t == pre + "```json" + ws + body + "```" + post
    ensures |t| == |pre| + 7 + |ws| + |body| + 3 + |post|
    ensures forall i :: 0 <= i < |pre| ==> t[i] == pre[i]
    ensures MarkAt(t, |pre|) && TagAt(t, |pre| + 3)
  {
    var a := pre + "```json";
    var d := a + ws + body + "```";
    assert t == d + post;
    assert forall i :: 0 <= i < |a| ==> t[i] == a[i];
  }

  lemma LayoutMiddle(pre: string, ws: string, body: string, post: string, t: string)
    requires t == pre + "```json" + ws + body + "```" + post
    ensures forall i :: 0 <= i < |ws| ==> t[|pre| + 7 + i] == ws[i]
    ensures forall i :: 0 <= i < |body| ==> t[|pre| + 7 + |ws| + i] == body[i]
  {
    var b := pre + "```json" + ws;
    var c := b + body;
    assert t == c + "```" + post;
    assert forall i :: 0 <= i < |c| ==> t[i] == c[i];
    assert forall i :: 0 <= i < |b| ==> c[i] == b[i];
  }

  lemma LayoutClose(pre: string, ws: string, body: string, post: string, t: string)
    requires t == pre + "```json" + ws + body + "```" + post
    ensures MarkAt(t, |pre| + 7 + |ws| + |body|)
  {
    var c := pre + "```json" + ws + body;
    assert t == c + "```" + post;
  }
}
