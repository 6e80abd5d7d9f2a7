/**
 * The manual-paste path of the App component: the text in the input box is
 * trimmed, unwrapped from a fenced block, sanitized, cut from the first `{`
 * to the last `}`, parsed and loosely classified; the outcome sets exactly one
 * of the result, rejection and error states. The file poll classifies the
 * data it reads on its own.
 */
module Paste {
  import opened Wrappers
  import opened Json
  import opened JsStrings
  import opened Types
  import opened Sanitization
  import opened Fence
  import Api
  import BraceScanner

  const EmptyInputMessage := "Paste the JSON from Claude Code."
  const NoValidObjectMessage := "No valid JSON object found."
  const MissingFieldsMessage := "JSON is missing required fields."
  /** The message of the TypeError that reading `parsed.rejection` raises when the
      parse yields `null` (V8's wording). */
  const NullRejectionMessage := "Cannot read properties of null (reading 'rejection')"

  /** `jsonString.substring(indexOf('{'), lastIndexOf('}') + 1)`, or the error when
      there is no `{` before a `}`. The cut is not string-aware. */
  function CutFirstToLast(s: string): (r: Result<string, string>)
    ensures r.Ok? <==> exists i, j :: 0 <= i < j < |s| && s[i] == '{' && s[j] == '}'
    ensures r.Err? ==> r.error == NoValidObjectMessage
    ensures r.Ok? ==> exists k :: 0 <= k && k + |r.value| <= |s| && r.value == s[k..k + |r.value|]
                                  && '{' !in s[..k] && '}' !in s[k + |r.value|..]
    ensures r.Ok? ==> |r.value| >= 2 && r.value[0] == '{' && r.value[|r.value| - 1] == '}'
  {
    var startIndex := IndexOf(s, '{');
    var endIndex := LastIndexOf(s, '}');
    CutBounds(s);
    if startIndex == -1 || endIndex == -1 || endIndex <= startIndex then
      Err(NoValidObjectMessage)
    else
      var extracted := s[startIndex..endIndex + 1];
      assert |extracted| == endIndex + 1 - startIndex;
      assert extracted[0] == s[startIndex] && extracted[|extracted| - 1] == s[endIndex];
      assert extracted == s[startIndex..startIndex + |extracted|];
      Ok(extracted)
  }

  /** Every `{` lies at or after the first one found, every `}` at or before the last one. */
  lemma CutBounds(s: string)
    ensures forall i :: 0 <= i < |s| && s[i] == '{' ==> 0 <= IndexOf(s, '{') <= i
    ensures forall j :: 0 <= j < |s| && s[j] == '}' ==> j <= LastIndexOf(s, '}')
  {
    forall i | 0 <= i < |s| && s[i] == '{' ensures 0 <= IndexOf(s, '{') <= i {
      IndexOfIsFirst(s, '{', i);
    }
    forall j | 0 <= j < |s| && s[j] == '}' ensures j <= LastIndexOf(s, '}') {
      LastIndexOfIsLast(s, '}', j);
    }
  }

  /** What the App shows after a manual parse. */
  datatype PasteOutcome = ShowResult(result: JsonValue) | ShowRejection(rejection: JsonValue) | ShowError(message: string)

  /** The checks on the parsed value: a truthy `rejection` wins; otherwise only
      `step2_object`, `step3_mechanic` and `step4_best` must be truthy. */
  function Classify(parsed: JsonValue): (r: PasteOutcome)
    ensures r.ShowRejection? <==> TruthyMember(parsed, "rejection")
    ensures r.ShowRejection? ==> r.rejection == parsed.members["rejection"]
    ensures r.ShowResult? <==>
      !TruthyMember(parsed, "rejection") && TruthyMember(parsed, "step2_object")
      && TruthyMember(parsed, "step3_mechanic") && TruthyMember(parsed, "step4_best")
    ensures r.ShowResult? ==> r.result == parsed && parsed.JObject?
    ensures r.ShowError? ==> (r.message == "Parse error: " + NullRejectionMessage <==> parsed.JNull?)
    ensures r.ShowError? && !parsed.JNull? ==> r.message == MissingFieldsMessage
  {
    if parsed.JNull? then ShowError("Parse error: " + NullRejectionMessage)
    else if TruthyMember(parsed, "rejection") then ShowRejection(parsed.members["rejection"])
    else if !TruthyMember(parsed, "step2_object") || !TruthyMember(parsed, "step3_mechanic")
            || !TruthyMember(parsed, "step4_best") then ShowError(MissingFieldsMessage)
    else ShowResult(parsed)
  }

  /** The text handed to `JSON.parse`, or the message shown when none is found. */
  function Candidate(input: string): Result<string, string>
  {
    var trimmed := Trim(input);
    if trimmed == [] then Err(EmptyInputMessage)
    else CutFirstToLast(Sanitize(WorkingText(trimmed)))
  }

  /** The outcome of `handleParseJSON` on the current input. */
  function ManualParse(parse: Parser, input: string): PasteOutcome
  {
    match Candidate(input)
    case Err(message) => ShowError(message)
    case Ok(extracted) =>
      match parse(extracted)
      case SyntaxError(message) => ShowError("Parse error: " + message)
      case Parsed(parsed) => Classify(parsed)
  }

  /** What one poll of the metaphor file does; `None` is a failed fetch, a non-OK
      status or an unparsable body, all of which change nothing. */
  datatype PollAction = PollResult(data: JsonValue) | PollRejection(rejection: JsonValue) | PollNothing

  function Poll(data: Option<JsonValue>): (r: PollAction)
    ensures r.PollResult? <==> data.Some? && TruthyMember(data.value, "step2_object")
    ensures r.PollRejection? <==>
      data.Some? && !TruthyMember(data.value, "step2_object") && TruthyMember(data.value, "rejection")
    ensures r.PollResult? ==> r.data == data.value
    ensures r.PollRejection? ==> r.rejection == data.value.members["rejection"]
  {
    match data
    case None => PollNothing
    case Some(d) =>
      if Truthy(d) && TruthyMember(d, "step2_object") then PollResult(d)
      else if Truthy(d) && TruthyMember(d, "rejection") then PollRejection(d.members["rejection"])
      else PollNothing
  }

  /** The state of the App component that the parse, clear and poll handlers update. */
  class AppState {
    var jsonInput: string
    var resultJSON: Option<JsonValue>
    var rejection: Option<JsonValue>
    var parseError: Option<string>

    /** Exactly one of the three outcome fields is set, and it shows `o`. */
    predicate Shows(o: PasteOutcome)
      reads this
    {
      match o
      case ShowResult(v) => resultJSON == Some(v) && rejection == None && parseError == None
      case ShowRejection(v) => resultJSON == None && rejection == Some(v) && parseError == None
      case ShowError(m) => resultJSON == None && rejection == None && parseError == Some(m)
    }

    predicate Cleared()
      reads this
    {
      resultJSON == None && rejection == None && parseError == None
    }

    constructor ()
      ensures jsonInput == "" && Cleared()
    {
      jsonInput := "";
      resultJSON := None;
      rejection := None;
      parseError := None;
    }

    /** The input box's change handler. */
    method SetJsonInput(value: string)
      modifies this
      ensures jsonInput == value
      ensures resultJSON == old(resultJSON) && rejection == old(rejection) && parseError == old(parseError)
    {
      jsonInput := value;
    }

    /** `handleParseJSON`: clear the three outcome fields, then set exactly the one
        the outcome of the input calls for. */
    method HandleParseJson(parse: Parser)
      modifies this
      ensures jsonInput == old(jsonInput)
      ensures Shows(ManualParse(parse, jsonInput))
    {
      var input := jsonInput;
      parseError := None;
      rejection := None;
      resultJSON := None;

      var trimmed := Trim(input);
      if trimmed == [] {
        assert ManualParse(parse, input) == ShowError(EmptyInputMessage);
        parseError := Some(EmptyInputMessage);
        return;
      }
      var jsonString := trimmed;
      var codeBlockMatch := FenceInterior(trimmed);
      if codeBlockMatch.Some? {
        jsonString := Trim(codeBlockMatch.value);
      }
      assert jsonString == WorkingText(trimmed);
      jsonString := Sanitize(jsonString);

      var cut := CutFirstToLast(jsonString);
      if cut.Err? {
        parseError := Some(cut.error);
        return;
      }
      var extracted := cut.value;

      match parse(extracted) {
        case SyntaxError(message) =>
          parseError := Some("Parse error: " + message);
        case Parsed(parsed) =>
          ShowParsed(parsed);
      }
    }

    /** The checks of `handleParseJSON` on a value that parsed, from cleared state. */
    method ShowParsed(parsed: JsonValue)
      requires Cleared()
      modifies this
      ensures jsonInput == old(jsonInput)
      ensures Shows(Classify(parsed))
    {
      if parsed.JNull? {
        parseError := Some("Parse error: " + NullRejectionMessage);
        return;
      }
      if TruthyMember(parsed, "rejection") {
        rejection := Some(parsed.members["rejection"]);
        return;
      }
      if !TruthyMember(parsed, "step2_object") || !TruthyMember(parsed, "step3_mechanic")
         || !TruthyMember(parsed, "step4_best") {
        parseError := Some(MissingFieldsMessage);
        return;
      }
      resultJSON := Some(parsed);
    }

    /** `handleClear`. */
    method HandleClear()
      modifies this
      ensures jsonInput == "" && Cleared()
    {
      jsonInput := "";
      resultJSON := None;
      rejection := None;
      parseError := None;
    }

    /** One poll: a result replaces everything; a rejection replaces the result but
        leaves any parse error in place. */
    method CheckForUpdate(data: Option<JsonValue>)
      modifies this
      ensures jsonInput == old(jsonInput)
      ensures match Poll(data)
        case PollResult(v) => resultJSON == Some(v) && rejection == None && parseError == None
        case PollRejection(v) =>
          resultJSON == None && rejection == Some(v) && parseError == old(parseError)
        case PollNothing =>
          resultJSON == old(resultJSON) && rejection == old(rejection) && parseError == old(parseError)
    {
      if data.Some? && Truthy(data.value) && TruthyMember(data.value, "step2_object") {
        resultJSON := data;
        rejection := None;
        parseError := None;
      } else if data.Some? && Truthy(data.value) && TruthyMember(data.value, "rejection") {
        rejection := Some(data.value.members["rejection"]);
        resultJSON := None;
      }
    }
  }

  /** Input that trims to nothing shows only the empty-input message. */
  lemma EmptyInputShowsPrompt(parse: Parser, input: string)
    requires WhitespaceBetween(input, 0, |input|)
    ensures ManualParse(parse, input) == ShowError(EmptyInputMessage)
  {
  }

  /** A non-empty input is cut from its sanitized working string. */
  lemma CandidateIsCut(input: string, w: string)
    requires Trim(input) != [] && w == Sanitize(WorkingText(Trim(input)))
    ensures Candidate(input) == CutFirstToLast(w)
  {
  }

  /** The text handed to the parser is printable ASCII, starts with `{` and ends with `}`. */
  lemma CandidateShape(input: string)
    requires Candidate(input).Ok?
    ensures var c := Candidate(input).value;
      AllPrintable(c) && |c| >= 2 && c[0] == '{' && c[|c| - 1] == '}'
  {
    var x := WorkingText(Trim(input));
    CandidateIsCut(input, Sanitize(x));
    SanitizedIsPrintable(x);
    SameCut(Candidate(input), Sanitize(x));
  }

  /** Any outcome equal to a successful cut of printable text has the cut's shape. */
  lemma SameCut(r: Result<string, string>, w: string)
    requires AllPrintable(w) && r == CutFirstToLast(w) && r.Ok?
    ensures AllPrintable(r.value) && |r.value| >= 2 && r.value[0] == '{' && r.value[|r.value| - 1] == '}'
  {
    CutOfPrintable(w);
  }

  lemma CutOfPrintable(w: string)
    requires AllPrintable(w) && CutFirstToLast(w).Ok?
    ensures var c := CutFirstToLast(w).value;
      AllPrintable(c) && |c| >= 2 && c[0] == '{' && c[|c| - 1] == '}'
  {
    var c := CutFirstToLast(w).value;
    var a := IndexOf(w, '{');
    assert c == w[a..LastIndexOf(w, '}') + 1];
    forall i | 0 <= i < |c| ensures IsPrintableAscii(c[i]) {
      assert c[i] == w[a + i];
    }
  }

  /** Text without backticks holds no fenced block, so it is its own working string. */
  lemma NoFenceWithoutBackticks(t: string)
    requires NoBacktick(t)
    ensures WorkingText(t) == t
  {
    FenceFoundIff(t);
  }

  /** A text that starts with `{` and ends with `}` is cut whole. */
  lemma CutWholeObject(obj: string)
    requires |obj| >= 2 && obj[0] == '{' && obj[|obj| - 1] == '}'
    ensures CutFirstToLast(obj) == Ok(obj)
  {
    IndexOfIsFirst(obj, '{', 0);
    LastIndexOfIsLast(obj, '}', |obj| - 1);
    assert obj[0..|obj|] == obj;
  }

  /** A printable object text without backticks is handed to the parser as it is. */
  lemma PlainObjectIsCandidate(obj: string)
    requires AllPrintable(obj) && NoBacktick(obj)
    requires |obj| >= 2 && obj[0] == '{' && obj[|obj| - 1] == '}'
    ensures Candidate(obj) == Ok(obj)
  {
    TrimPadded([], obj, []);
    assert [] + obj + [] == obj;
    NoFenceWithoutBackticks(obj);
    SanitizeFixesPrintable(obj);
    CutWholeObject(obj);
    CandidateIsCut(obj, obj);
  }

  /** The working string of a `json`-fenced object is the object. */
  lemma FencedWorkingText(obj: string, t: string)
    requires NoBacktick(obj) && |obj| >= 2 && obj[0] == '{' && obj[|obj| - 1] == '}'
    requires t == "```json\n" + obj + "\n```"
    ensures Trim(t) == t && WorkingText(t) == obj
  {
    FencedIsTrimmed(obj, t);
    FencedInterior(obj, t);
  }

  lemma FencedIsTrimmed(obj: string, t: string)
    requires t == "```json\n" + obj + "\n```"
    ensures Trim(t) == t
  {
    FencedBlockEnds(obj, t);
    TrimPadded([], t, []);
  }

  lemma FencedInterior(obj: string, t: string)
    requires NoBacktick(obj) && |obj| >= 2 && obj[0] == '{' && obj[|obj| - 1] == '}'
    requires t == "```json\n" + obj + "\n```"
    ensures WorkingText(t) == obj
  {
    FencedBlockLayout(obj, t);
    BlockWorkingText(t, obj, |obj| + 9);
  }

  /** The working string of a tagged block whose body is an object and a line break. */
  lemma BlockWorkingText(t: string, obj: string, e: nat)
    requires |obj| >= 2 && obj[0] == '{' && obj[|obj| - 1] == '}'
    requires TaggedBlockAt(t, 0, 8, e) && t[8..e] == [] + obj + "\n"
    ensures WorkingText(t) == obj
  {
    TaggedBlockInterior(t, 0, 8, e);
    TrimPadded([], obj, "\n");
  }

  /** The fenced text starts and ends with a backtick. */
  lemma FencedBlockEnds(obj: string, t: string)
    requires t == "```json\n" + obj + "\n```"
    ensures t == [] + t + [] && t != [] && !IsJsWhitespace(t[0]) && !IsJsWhitespace(t[|t| - 1])
  {
  }

  /** Where the pieces of the fenced text lie. */
  lemma FencedBlockLayout(obj: string, t: string)
    requires NoBacktick(obj) && |obj| >= 2 && obj[0] == '{'
    requires t == "```json\n" + obj + "\n```"
    ensures TaggedBlockAt(t, 0, 8, |obj| + 9) && t[8..|obj| + 9] == [] + obj + "\n"
  {
    FencedBlockOpening(obj, t);
    FencedBlockBody(obj, t);
    var e := |obj| + 9;
    forall i | 8 <= i < e ensures t[i] != '`' {
      if i < e - 1 { assert t[i] == obj[i - 8]; }
    }
    assert t[8..e] == [] + obj + "\n";
  }

  lemma FencedBlockOpening(obj: string, t: string)
    requires t == "```json\n" + obj + "\n```"
    ensures MarkAt(t, 0) && TagAt(t, 3) && IsJsWhitespace(t[7])
  {
    var m := "```json\n" + obj;
    assert t == m + "\n```";
    assert forall i :: 0 <= i < 8 ==> t[i] == m[i];
  }

  lemma FencedBlockBody(obj: string, t: string)
    requires t == "```json\n" + obj + "\n```"
    ensures |t| == |obj| + 12
    ensures forall i :: 0 <= i < |obj| ==> t[8 + i] == obj[i]
    ensures t[|obj| + 8] == '\n' && MarkAt(t, |obj| + 9)
  {
    var m := "```json\n" + obj;
    assert t == m + "\n```";
    assert forall i :: 0 <= i < |obj| ==> m[8 + i] == obj[i];
  }

  /** Wrapping an object in a block fenced with three backticks and tagged `json`
      changes nothing: the parser sees the same text. */
  lemma FencedObjectIsCandidate(obj: string)
    requires AllPrintable(obj) && NoBacktick(obj)
    requires |obj| >= 2 && obj[0] == '{' && obj[|obj| - 1] == '}'
    ensures Candidate("```json\n" + obj + "\n```") == Ok(obj)
  {
    var t := "```json\n" + obj + "\n```";
    FencedWorkingText(obj, t);
    SanitizeFixesPrintable(obj);
    CutWholeObject(obj);
    CandidateIsCut(t, obj);
  }

  /** A bare object reaches the cut as it is sanitized. */
  lemma BareCandidate(obj: string)
    requires NoBacktick(obj)
    requires |obj| >= 2 && obj[0] == '{' && obj[|obj| - 1] == '}'
    ensures Candidate(obj) == CutFirstToLast(Sanitize(obj))
  {
    TrimPadded([], obj, []);
    assert [] + obj + [] == obj;
    NoFenceWithoutBackticks(obj);
    CandidateIsCut(obj, Sanitize(obj));
  }

  /** A fenced object reaches the cut as the bare one does. */
  lemma FencedCandidate(obj: string)
    requires NoBacktick(obj)
    requires |obj| >= 2 && obj[0] == '{' && obj[|obj| - 1] == '}'
    ensures Candidate("```json\n" + obj + "\n```") == CutFirstToLast(Sanitize(obj))
  {
    var t := "```json\n" + obj + "\n```";
    FencedWorkingText(obj, t);
    CandidateIsCut(t, Sanitize(obj));
  }

  /** Fence stripping: the fenced and the bare object have the same outcome,
      whatever characters the object holds. */
  lemma FencedParsesLikeBare(parse: Parser, obj: string)
    requires NoBacktick(obj)
    requires |obj| >= 2 && obj[0] == '{' && obj[|obj| - 1] == '}'
    ensures ManualParse(parse, "```json\n" + obj + "\n```") == ManualParse(parse, obj)
  {
    BareCandidate(obj);
    FencedCandidate(obj);
  }

  /** On an object with all seven fields truthy and no `rejection`, both paths accept it as a result. */
  lemma PathsAgreeOnCompleteResults(v: JsonValue)
    requires v.JObject? && "rejection" !in v.members && Api.HasRequiredFields(v)
    ensures Api.ValidateMetaphorResponse(v) == Ok(v.members)
    ensures Classify(v) == ShowResult(v)
  {
  }

  /** On a non-empty string rejection, both paths report the rejection. */
  lemma PathsAgreeOnRejections(o: JsObject, reason: string)
    requires "rejection" in o && o["rejection"] == JString(reason) && reason != ""
    ensures Api.ValidateMetaphorResponse(JObject(o)) == Ok(map["rejection" := JString(reason)])
    ensures Classify(JObject(o)) == ShowRejection(JString(reason))
  {
  }

  /** An empty rejection reason is a rejection to the automated path and a missing-fields
      error to the paste path, which tests truthiness. */
  lemma EmptyRejectionDiffers(v: JsonValue)
    requires v == JObject(map["rejection" := JString("")])
    ensures Api.ValidateMetaphorResponse(v) == Ok(map["rejection" := JString("")])
    ensures Classify(v) == ShowError(MissingFieldsMessage)
  {
    assert !TruthyMember(v, "step2_object");
  }

  /** The paste path accepts an object the automated path rejects as incomplete:
      only three of the seven fields are checked. */
  lemma ThreeFieldsSufficeForPaste(o: JsObject)
    requires "rejection" !in o && "step1" !in o
    requires TruthyMember(JObject(o), "step2_object") && TruthyMember(JObject(o), "step3_mechanic")
    requires TruthyMember(JObject(o), "step4_best")
    ensures Classify(JObject(o)) == ShowResult(JObject(o))
    ensures Api.ValidateMetaphorResponse(JObject(o)) == Err(ParseError(Api.IncompleteMessage, None))
  {
    assert !TruthyMember(JObject(o), "step1");
  }

  /** A truthy rejection that is not a string is shown by the paste path, while the
      automated path ignores it and checks the seven fields. */
  lemma NonStringRejectionDiffers(o: JsObject)
    requires o == map["rejection" := JBool(true)]
    ensures Classify(JObject(o)) == ShowRejection(JBool(true))
    ensures Api.ValidateMetaphorResponse(JObject(o)) == Err(ParseError(Api.IncompleteMessage, None))
  {
    assert !TruthyMember(JObject(o), "step1");
  }

  /** On well-typed responses the paste path shows a rejection exactly when its reason
      is non-empty and a result exactly when its object name is non-empty. */
  lemma ClassifyTypedResponse(response: MetaphorResponse)
    ensures var outcome := Classify(JObject(ResponseObject(response)));
      match response
      case Rejection(MetaphorRejection(reason)) =>
        (outcome.ShowRejection? <==> reason != "") && (outcome.ShowError? <==> reason == "")
      case Result(r) =>
        (outcome.ShowResult? <==> r.step2Object != "") && !outcome.ShowRejection?
  {
    if response.Result? {
      ResultObjectMembers(response.result);
    }
  }

  /** The outcome once the candidate text is known. */
  lemma ManualParseOfCandidate(parse: Parser, input: string, c: string)
    requires Candidate(input) == Ok(c)
    ensures ManualParse(parse, input) == match parse(c)
      case SyntaxError(message) => ShowError("Parse error: " + message)
      case Parsed(parsed) => Classify(parsed)
  {
  }

  /** A typed result with a non-empty object name is shown as a result. */
  lemma ClassifyResultObject(r: MetaphorResult)
    requires r.step2Object != ""
    ensures Classify(JObject(ResultObject(r))) == ShowResult(JObject(ResultObject(r)))
  {
    ResultObjectMembers(r);
  }

  /** The fenced result of the paste path comes back as that result, object name intact. */
  lemma FencedResultScenario(parse: Parser, obj: string, input: string, r: MetaphorResult)
    requires AllPrintable(obj) && NoBacktick(obj)
    requires |obj| >= 2 && obj[0] == '{' && obj[|obj| - 1] == '}'
    requires input == "```json\n" + obj + "\n```"
    requires parse(obj) == Parsed(JObject(ResultObject(r)))
    requires r.step2Object == "Candle"
    ensures ManualParse(parse, input) == ShowResult(JObject(ResultObject(r)))
    ensures Member(ManualParse(parse, input).result, "step2_object") == Some(JString("Candle"))
  {
    FencedObjectIsCandidate(obj);
    ManualParseOfCandidate(parse, input, obj);
    ClassifyResultObject(r);
    ResultObjectMembers(r);
  }

  /** The first-to-last cut is not string-aware: prose ending in `}` after an object
      stays in the cut, where the scanner of the automated path stops at the object's end. */
  lemma NaiveCutOvershoots(obj: string, tail: string)
    requires BraceScanner.BalancedObject(obj)
    requires |tail| >= 1 && tail[|tail| - 1] == '}'
    ensures CutFirstToLast(obj + tail) == Ok(obj + tail)
    ensures BraceScanner.MatchEnd(obj + tail, 0) == |obj| - 1
  {
    var t := obj + tail;
    assert t[0] == obj[0] && t[|t| - 1] == tail[|tail| - 1];
    CutWholeObject(t);
    assert t[0..|obj|] == obj;
    BraceScanner.MatchEndOfSpan(t, 0, obj);
  }

  /** The poll looks only at `step2_object` and `rejection`, and a truthy `step2_object`
      wins over any rejection. */
  lemma PollPrecedence(d: JsObject, reason: JsonValue)
    requires TruthyMember(JObject(d), "step2_object")
    ensures Poll(Some(JObject(d["rejection" := reason]))) == PollResult(JObject(d["rejection" := reason]))
    ensures Poll(None) == PollNothing
  {
    assert Member(JObject(d["rejection" := reason]), "step2_object") == Member(JObject(d), "step2_object");
  }

  /** Printable text without a `{` (and with nothing to trim or unfence) is refused
      before parsing, with the no-object message. */
  lemma NoObjectWithoutBrace(parse: Parser, input: string)
    requires AllPrintable(input) && NoBacktick(input) && '{' !in input
    requires input != [] && !IsJsWhitespace(input[0]) && !IsJsWhitespace(input[|input| - 1])
    ensures ManualParse(parse, input) == ShowError(NoValidObjectMessage)
  {
    BracelessCandidate(input);
  }

  lemma BracelessCandidate(input: string)
    requires AllPrintable(input) && NoBacktick(input) && '{' !in input
    requires input != [] && !IsJsWhitespace(input[0]) && !IsJsWhitespace(input[|input| - 1])
    ensures Candidate(input) == Err(NoValidObjectMessage)
  {
    UntouchedText(input);
    CandidateIsCut(input, input);
    assert CutFirstToLast(input).Err?;
  }

  /** Text with nothing to trim, unfence or sanitize reaches the cut as it is. */
  lemma UntouchedText(input: string)
    requires AllPrintable(input) && NoBacktick(input)
    requires input != [] && !IsJsWhitespace(input[0]) && !IsJsWhitespace(input[|input| - 1])
    ensures Trim(input) == input && Sanitize(WorkingText(Trim(input))) == input
  {
    TrimPadded([], input, []);
    assert [] + input + [] == input;
    NoFenceWithoutBackticks(input);
    SanitizeFixesPrintable(input);
  }

  /** After parsing such text, only the no-object error is set. */
  lemma ShowsNoObject(app: AppState, parse: Parser, input: string)
    requires AllPrintable(input) && NoBacktick(input) && '{' !in input
    requires input != [] && !IsJsWhitespace(input[0]) && !IsJsWhitespace(input[|input| - 1])
    requires app.Shows(ManualParse(parse, input))
    ensures app.resultJSON == None && app.rejection == None && app.parseError == Some(NoValidObjectMessage)
  {
    NoObjectWithoutBrace(parse, input);
  }

  /** A parse error followed by a polled rejection leaves both set: the poll does not
      clear the error (the view hides it while a rejection is shown). */
  method PollKeepsStaleParseError(parse: Parser, input: string) returns (app: AppState)
    requires AllPrintable(input) && NoBacktick(input) && '{' !in input
    requires input != [] && !IsJsWhitespace(input[0]) && !IsJsWhitespace(input[|input| - 1])
    ensures app.rejection == Some(JString("unsafe")) && app.parseError == Some(NoValidObjectMessage)
    ensures app.resultJSON == None
  {
    app := new AppState();
    app.SetJsonInput(input);
    app.HandleParseJson(parse);
    ShowsNoObject(app, parse, input);
    app.CheckForUpdate(Some(JObject(map["rejection" := JString("unsafe")])));
  }
}
