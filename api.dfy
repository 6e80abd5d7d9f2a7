/**
 * The automated parsing path: turning the text of a model completion into a
 * metaphor result or a rejection, or failing with a ParseError; and the
 * request-id counter that guards against stale responses.
 */
module Api {
  import opened Wrappers
  import opened Json
  import opened JsStrings
  import opened Types
  import opened BraceScanner

  /** The module-level request-id counter. */
  class RequestIdCounter {
    var requestIdCounter: int

    constructor ()
      ensures requestIdCounter == 0
    {
      requestIdCounter := 0;
    }

    /** `getNextRequestId`: pre-increment the counter and return its new value. */
    method GetNextRequestId() returns (id: int)
      modifies this
      ensures requestIdCounter == old(requestIdCounter) + 1
      ensures id == requestIdCounter
    {
      requestIdCounter := requestIdCounter + 1;
      id := requestIdCounter;
    }
  }

  const ExpectedObjectMessage := "Model returned invalid JSON. Expected object."
  const IncompleteMessage := "Model returned incomplete JSON. Missing required fields."
  const NoJsonObjectMessage := "Model returned invalid JSON. No JSON object found."
  const UnclosedObjectMessage := "Model returned invalid JSON. Unclosed JSON object."
  const ParseFailedMessage := "Model returned invalid JSON. Parse failed."

  /** Exactly `{rejection: <string>}`: what the rejection branch builds. */
  predicate IsRejectionObject(o: JsObject)
  {
    o.Keys == {"rejection"} && o["rejection"].JString?
  }

  /** All seven result keys are present with truthy values. */
  predicate HasRequiredFields(v: JsonValue)
  {
    && TruthyMember(v, "step1") && TruthyMember(v, "step2_object") && TruthyMember(v, "step3_mechanic")
    && TruthyMember(v, "step4_quotes") && TruthyMember(v, "step4_best")
    && TruthyMember(v, "step5_visual") && TruthyMember(v, "step5_dalle_prompt")
  }

  /** The `rejection` member is present and is a string. */
  predicate HasStringRejection(v: JsonValue)
  {
    v.JObject? && "rejection" in v.members && v.members["rejection"].JString?
  }

  /** `validateMetaphorResponse`. `typeof [] === 'object'`, so an array passes the
      object test and then fails as incomplete. */
  function ValidateMetaphorResponse(v: JsonValue): (r: Result<JsObject, ParseError>)
    ensures r.Ok? <==> (v.JObject? && (HasStringRejection(v) || HasRequiredFields(v)))
  {
    if !(v.JObject? || v.JArray?) then Err(ParseError(ExpectedObjectMessage, None))
    else if HasStringRejection(v) then Ok(map["rejection" := v.members["rejection"]])
    else if !HasRequiredFields(v) then Err(ParseError(IncompleteMessage, None))
    else Ok(v.members)
  }

  /** What `validateMetaphorResponse` hands back: a success is `{rejection}` alone or the
      unchanged complete object, and a failure names which test failed and carries no text. */
  lemma ValidateOutcome(v: JsonValue)
    ensures var r := ValidateMetaphorResponse(v);
      && (r.Ok? ==> IsRejectionObject(r.value) || (v == JObject(r.value) && HasRequiredFields(v)))
      && (r.Ok? && HasStringRejection(v) ==> r.value == map["rejection" := v.members["rejection"]])
      && (r.Ok? && !HasStringRejection(v) ==> r.value == v.members)
      && (r.Err? ==> r.error.rawResponse == None)
      && (r.Err? ==> (r.error.message == ExpectedObjectMessage <==> !(v.JObject? || v.JArray?)))
      && (r.Err? ==> r.error.message in {ExpectedObjectMessage, IncompleteMessage})
  {
  }

  /** One `JSON.parse` followed by validation, with every exception caught. */
  function Attempt(parse: Parser, s: string): Option<JsObject>
  {
    match parse(s)
    case SyntaxError(_) => None
    case Parsed(v) =>
      match ValidateMetaphorResponse(v)
      case Ok(o) => Some(o)
      case Err(_) => None
  }

  /** What `parseModelResponse` returns or throws: the direct parse of the trimmed
      text first, then the brace-matching fallback. */
  function ModelResponse(parse: Parser, text: string): Result<JsObject, ParseError>
  {
    var trimmed := Trim(text);
    match Attempt(parse, trimmed)
    case Some(o) => Ok(o)
    case None => Extracted(parse, text, trimmed)
  }

  /** The fallback: cut from the first `{` to its string-aware match and re-parse. */
  function Extracted(parse: Parser, text: string, trimmed: string): Result<JsObject, ParseError>
  {
    var startIndex := IndexOf(trimmed, '{');
    if startIndex == -1 then Err(ParseError(NoJsonObjectMessage, Some(text)))
    else
      var endIndex := MatchEnd(trimmed, startIndex);
      if endIndex == -1 then Err(ParseError(UnclosedObjectMessage, Some(text)))
      else Reparse(parse, text, trimmed[startIndex..endIndex + 1])
  }

  /** The second attempt, on the extracted object; any failure becomes "Parse failed.". */
  function Reparse(parse: Parser, text: string, jsonString: string): Result<JsObject, ParseError>
  {
    match Attempt(parse, jsonString)
    case Some(o) => Ok(o)
    case None => Err(ParseError(ParseFailedMessage, Some(text)))
  }

  /** `parseModelResponse`: the direct attempt, then the scanning fallback. */
  method ParseModelResponse(parse: Parser, text: string) returns (r: Result<JsObject, ParseError>)
    ensures r == ModelResponse(parse, text)
  {
    var trimmed := Trim(text);
    var direct := Attempt(parse, trimmed);
    if direct.Some? {
      return Ok(direct.value);
    }
    r := ExtractObject(parse, text, trimmed);
  }

  /** The fallback of `parseModelResponse`, with its scanning loop. */
  method ExtractObject(parse: Parser, text: string, trimmed: string) returns (r: Result<JsObject, ParseError>)
    ensures r == Extracted(parse, text, trimmed)
  {
    var startIndex := IndexOf(trimmed, '{');
    if startIndex == -1 {
      return Err(ParseError(NoJsonObjectMessage, Some(text)));
    }
    var endIndex := FindMatchingBrace(trimmed, startIndex);
    if endIndex == -1 {
      return Err(ParseError(UnclosedObjectMessage, Some(text)));
    }
    var jsonString := trimmed[startIndex..endIndex + 1];
    r := Reparse(parse, text, jsonString);
  }

  /** Every failure carries the original, untrimmed text and is one of the three
      extraction errors: validation failures are never reported as such. */
  lemma ModelResponseErrors(parse: Parser, text: string)
    ensures var r := ModelResponse(parse, text);
      r.Err? ==> r.error.rawResponse == Some(text)
                 && r.error.message in {NoJsonObjectMessage, UnclosedObjectMessage, ParseFailedMessage}
  {
  }

  /** Every success is a rejection object or an object with all seven fields truthy. */
  lemma ModelResponseShape(parse: Parser, text: string)
    ensures var r := ModelResponse(parse, text);
      r.Ok? ==> IsRejectionObject(r.value) || HasRequiredFields(JObject(r.value))
  {
    var trimmed := Trim(text);
    if Attempt(parse, trimmed).None? {
      var s := IndexOf(trimmed, '{');
      if s != -1 && MatchEnd(trimmed, s) != -1 {
        var sub := trimmed[s..MatchEnd(trimmed, s) + 1];
        if parse(sub).Parsed? {
          var v := ValidateMetaphorResponse(parse(sub).value);
        }
      }
    } else if parse(trimmed).Parsed? {
      var v := ValidateMetaphorResponse(parse(trimmed).value);
    }
  }

  /** A direct parse that validates wins: nothing else is tried. */
  lemma DirectParseFirst(parse: Parser, text: string, v: JsonValue)
    requires parse(Trim(text)) == Parsed(v)
    requires ValidateMetaphorResponse(v).Ok?
    ensures ModelResponse(parse, text) == Ok(ValidateMetaphorResponse(v).value)
  {
  }

  /** With no `{` in the trimmed text and no valid direct parse, the result is the
      "No JSON object found." error carrying the original text. */
  lemma NoBraceMeansNoJsonObject(parse: Parser, text: string)
    requires '{' !in Trim(text)
    requires Attempt(parse, Trim(text)).None?
    ensures ModelResponse(parse, text) == Err(ParseError(NoJsonObjectMessage, Some(text)))
  {
  }

  /** When the depth never returns to zero, the result is the "Unclosed JSON object." error. */
  lemma NeverClosedMeansUnclosed(parse: Parser, text: string)
    requires Attempt(parse, Trim(text)).None?
    requires '{' in Trim(text)
    requires forall k :: IndexOf(Trim(text), '{') < k <= |Trim(text)| ==> DepthAfter(Trim(text), IndexOf(Trim(text), '{'), k) != 0
    ensures ModelResponse(parse, text) == Err(ParseError(UnclosedObjectMessage, Some(text)))
  {
    var t := Trim(text);
    var s := IndexOf(t, '{');
    MatchEndProperties(t, s);
  }

  /** The substring that is re-parsed starts at the first `{`, ends at its matching
      `}`, and stays at depth one or more strictly between them. */
  lemma ReparsedSubstring(text: string)
    requires '{' in Trim(text)
    ensures var t := Trim(text);
      var s := IndexOf(t, '{');
      var e := MatchEnd(t, s);
      e != -1 ==> s < e < |t| && t[s] == '{' && t[e] == '}' && '{' !in t[..s]
                  && DepthAfter(t, s, e + 1) == 0
                  && forall k :: s < k <= e ==> DepthAfter(t, s, k) >= 1
  {
    var t := Trim(text);
    var s := IndexOf(t, '{');
    assert 0 <= s < |t| && t[s] == '{' && '{' !in t[..s];
    MatchEndProperties(t, s);
  }

  /** An incomplete object surfaces as "Parse failed.", never as the "incomplete" error:
      the direct attempt swallows the validation error, and when the scan finds the same
      object again the re-parse fails validation the same way. */
  lemma IncompleteObjectReportedAsParseFailed(parse: Parser, text: string, o: JsObject)
    requires parse(Trim(text)) == Parsed(JObject(o))
    requires !HasStringRejection(JObject(o)) && !HasRequiredFields(JObject(o))
    requires Trim(text) != [] && Trim(text)[0] == '{'
    requires MatchEnd(Trim(text), 0) == |Trim(text)| - 1
    ensures ModelResponse(parse, text) == Err(ParseError(ParseFailedMessage, Some(text)))
  {
    var t := Trim(text);
    assert t[0..|t|] == t;
  }

  /** An object with a string `rejection` is a rejection whatever else it holds or lacks. */
  lemma RejectionShortCircuit(o: JsObject, reason: string)
    ensures var r := ValidateMetaphorResponse(JObject(o["rejection" := JString(reason)]));
      r == Ok(map["rejection" := JString(reason)]) && IsRejection(r.value)
  {
  }

  /** Removing any one of the seven keys from an object without a string rejection
      gives the "incomplete" error, which differs from the extraction errors. */
  lemma MissingFieldDetected(o: JsObject, key: string)
    requires key in ResultKeys
    requires !HasStringRejection(JObject(o))
    ensures ValidateMetaphorResponse(JObject(o - {key})) == Err(ParseError(IncompleteMessage, None))
    ensures IncompleteMessage !in {NoJsonObjectMessage, UnclosedObjectMessage, ParseFailedMessage}
  {
    assert !HasStringRejection(JObject(o - {key}));
    assert !TruthyMember(JObject(o - {key}), key);
  }

  /** A well-typed result passes validation unchanged exactly when its three top-level
      strings are non-empty (the objects and the quote array are always truthy);
      a well-typed rejection always passes. */
  lemma ValidateAcceptsEncodedResponse(response: MetaphorResponse)
    ensures var o := ResponseObject(response);
      response.Rejection? ==> ValidateMetaphorResponse(JObject(o)) == Ok(o)
    ensures var o := ResponseObject(response);
      response.Result? ==>
        (ValidateMetaphorResponse(JObject(o)) == Ok(o) <==>
          response.result.step2Object != "" && response.result.step5Visual != ""
          && response.result.step5DallePrompt != "")
  {
    if response.Result? {
      ResultObjectMembers(response.result);
    }
  }

  /** Validation checks presence, not types: an object whose quote list holds one
      number instead of three strings is accepted, though it is no well-typed result. */
  lemma ValidationIsShallow(o: JsObject)
    requires o == map["step1" := JObject(map[]), "step2_object" := JString("Candle"),
                      "step3_mechanic" := JBool(true), "step4_quotes" := JArray([JNumber(1.0)]),
                      "step4_best" := JObject(map[]), "step5_visual" := JString("v"),
                      "step5_dalle_prompt" := JString("p")]
    ensures ValidateMetaphorResponse(JObject(o)) == Ok(o)
    ensures DecodeResponse(o) == None
  {
    assert "rejection" !in o;
    assert Member(JObject(o), "step4_quotes") == Some(JArray([JNumber(1.0)]));
  }

  /** The object handed back as a result can still carry a non-string `rejection`,
      which `isRejection` then reports as a rejection. */
  lemma ValidatedResultCanSatisfyIsRejection(r: MetaphorResult)
    requires r.step2Object != "" && r.step5Visual != "" && r.step5DallePrompt != ""
    ensures var o := ResultObject(r)["rejection" := JNull];
      ValidateMetaphorResponse(JObject(o)) == Ok(o) && IsRejection(o)
  {
    ResultObjectMembers(r);
  }

  /** End to end, a bare rejection object comes back as that rejection. */
  lemma RejectionEndToEnd(parse: Parser, text: string, reason: string)
    requires parse(Trim(text)) == Parsed(JObject(map["rejection" := JString(reason)]))
    ensures ModelResponse(parse, text) == Ok(map["rejection" := JString(reason)])
    ensures IsRejection(ModelResponse(parse, text).value)
  {
  }

  /** Two consecutive ids from one counter differ by exactly one. */
  method ConsecutiveIds(counter: RequestIdCounter) returns (first: int, second: int)
    modifies counter
    ensures second == first + 1
  {
    first := counter.GetNextRequestId();
    second := counter.GetNextRequestId();
  }

  /** After a failed direct parse, a balanced object preceded by text without `{` is
      exactly what is re-parsed, whatever follows it. */
  lemma ExtractsBalancedObject(parse: Parser, text: string, pre: string, obj: string, post: string)
    requires Trim(text) == pre + obj + post
    requires '{' !in pre && BalancedObject(obj)
    requires Attempt(parse, Trim(text)).None?
    ensures ModelResponse(parse, text) ==
      match Attempt(parse, obj)
      case Some(o) => Ok(o)
      case None => Err(ParseError(ParseFailedMessage, Some(text)))
  {
    var t := Trim(text);
    var s := |pre|;
    assert t[s..s + |obj|] == obj;
    assert t[s] == obj[0];
    assert t[..s] == pre;
    IndexOfIsFirst(t, '{', s);
    assert IndexOf(t, '{') == s;
    MatchEndOfSpan(t, s, obj);
  }

  /** The fenced model output of a complete result is parsed into that result. */
  lemma FencedResultEndToEnd(parse: Parser, text: string, obj: string, r: MetaphorResult)
    requires Trim(text) == "```json\n" + obj + "\n```"
    requires BalancedObject(obj)
    requires parse(Trim(text)).SyntaxError?
    requires parse(obj) == Parsed(JObject(ResultObject(r)))
    requires r.step2Object == "Candle" && r.step5Visual != "" && r.step5DallePrompt != ""
    ensures ModelResponse(parse, text) == Ok(ResultObject(r))
    ensures DecodeResponse(ModelResponse(parse, text).value) == Some(Result(r))
    ensures ModelResponse(parse, text).value["step2_object"] == JString("Candle")
  {
    assert Trim(text) == "```json\n" + obj + "\n```" + [];
    ExtractsBalancedObject(parse, text, "```json\n", obj, "\n```");
    ValidateAcceptsEncodedResponse(Result(r));
    DecodeResponseObject(Result(r));
    ResultObjectMembers(r);
  }

  /** A `}` inside a string value does not end the object: the whole object is re-parsed. */
  lemma BraceInStringEndToEnd(parse: Parser, text: string, t: string)
    requires t == "x {\"a\": \"contains } brace\"} y"
    requires Trim(text) == t
    requires Attempt(parse, t).None?
    ensures ModelResponse(parse, text) ==
      match Attempt(parse, "{\"a\": \"contains } brace\"}")
      case Some(o) => Ok(o)
      case None => Err(ParseError(ParseFailedMessage, Some(text)))
  {
    BraceInsideStringRegression(t);
  }
}
