/**
 * The domain types of the metaphor generator: the structured metaphor, the
 * rejection, the tagged union of the two, and the two error payloads.
 *
 * TypeScript types are erased at run time: what the parser hands back is a
 * plain object. `ResponseObject` gives the object a well-typed response is,
 * `DecodeResponse` reads the declared shapes back strictly, and `IsRejection`
 * is the run-time test the source exports.
 */
module Types {
  import opened Wrappers
  import opened Json

  /** step1: the situation analysed into five short descriptive strings. */
  datatype MetaphorStep1 = MetaphorStep1(subject: string, pressure: string, conflict: string, cost: string, emotion: string)

  /** step3_mechanic: a causal rule and the two situational mappings. */
  datatype MetaphorStep3 = MetaphorStep3(rule: string, xMapsTo: string, yMapsTo: string)

  /** step4_best: the chosen quote; `line2` is a string that may be empty (a one-line quote). */
  datatype MetaphorStep4Best = MetaphorStep4Best(line1: string, line2: string)

  /** The full structured metaphor. `step4Quotes` is exactly three strings, in order. */
  datatype MetaphorResult = MetaphorResult(
    step1: MetaphorStep1,
    step2Object: string,
    step3Mechanic: MetaphorStep3,
    step4Quotes: (string, string, string),
    step4Best: MetaphorStep4Best,
    step5Visual: string,
    step5DallePrompt: string)

  /** The model declined to produce a metaphor, with its reason. */
  datatype MetaphorRejection = MetaphorRejection(rejection: string)

  /** A response is exactly one of a result and a rejection. */
  datatype MetaphorResponse = Result(result: MetaphorResult) | Rejection(reason: MetaphorRejection)

  /** Raised when model output is not a usable JSON object; may carry the raw model text. */
  datatype ParseError = ParseError(message: string, rawResponse: Option<string>)
  {
    const name: string := "ParseError"
  }

  /** Raised on a failed provider call; may carry the HTTP status and the response body. */
  datatype APIError = APIError(message: string, statusCode: Option<int>, details: Option<string>)
  {
    const name: string := "APIError"
  }

  /** A parse error keeps the message and the optional raw text it was built with, and
      its name tells it apart from a provider error. */
  lemma ParseErrorPayload(message: string, rawResponse: Option<string>)
    ensures var e := ParseError(message, rawResponse);
      e.message == message && e.rawResponse == rawResponse
      && e.name == "ParseError" && e.name != APIError(message, None, None).name
  {
  }

  /** A provider error keeps its message, optional status code and optional details. */
  lemma ApiErrorPayload(message: string, statusCode: Option<int>, details: Option<string>)
    ensures var e := APIError(message, statusCode, details);
      e.message == message && e.statusCode == statusCode && e.details == details
      && e.name == "APIError"
  {
  }

  /** The seven top-level keys of a metaphor result, in declaration order. */
  const ResultKeys: seq<string> :=
    ["step1", "step2_object", "step3_mechanic", "step4_quotes", "step4_best", "step5_visual", "step5_dalle_prompt"]

  /** `isRejection(response)`: the `rejection` key is present, whatever its value and whatever else is there. */
  predicate IsRejection(response: JsObject)
  {
    "rejection" in response
  }

  function Step1Value(s: MetaphorStep1): JsonValue
  {
    JObject(map["subject" := JString(s.subject), "pressure" := JString(s.pressure),
                "conflict" := JString(s.conflict), "cost" := JString(s.cost),
                "emotion" := JString(s.emotion)])
  }

  function Step3Value(m: MetaphorStep3): JsonValue
  {
    JObject(map["rule" := JString(m.rule), "x_maps_to" := JString(m.xMapsTo), "y_maps_to" := JString(m.yMapsTo)])
  }

  function QuotesValue(q: (string, string, string)): JsonValue
  {
    JArray([JString(q.0), JString(q.1), JString(q.2)])
  }

  function BestValue(b: MetaphorStep4Best): JsonValue
  {
    JObject(map["line1" := JString(b.line1), "line2" := JString(b.line2)])
  }

  /** The JavaScript object a metaphor result is at run time. */
  function ResultObject(r: MetaphorResult): JsObject
  {
    map["step1" := Step1Value(r.step1),
        "step2_object" := JString(r.step2Object),
        "step3_mechanic" := Step3Value(r.step3Mechanic),
        "step4_quotes" := QuotesValue(r.step4Quotes),
        "step4_best" := BestValue(r.step4Best),
        "step5_visual" := JString(r.step5Visual),
        "step5_dalle_prompt" := JString(r.step5DallePrompt)]
  }

  /** The JavaScript object a response is at run time. */
  function ResponseObject(response: MetaphorResponse): JsObject
  {
    match response
    case Result(r) => ResultObject(r)
    case Rejection(MetaphorRejection(reason)) => map["rejection" := JString(reason)]
  }

  /** The string held under `key`, if `v` is an object holding a string there. */
  function StringMember(v: JsonValue, key: string): Option<string>
  {
    match Member(v, key)
    case Some(JString(s)) => Some(s)
    case _ => None
  }

  function DecodeStep1(v: JsonValue): Option<MetaphorStep1>
  {
    match (StringMember(v, "subject"), StringMember(v, "pressure"), StringMember(v, "conflict"),
           StringMember(v, "cost"), StringMember(v, "emotion"))
    case (Some(a), Some(b), Some(c), Some(d), Some(e)) => Some(MetaphorStep1(a, b, c, d, e))
    case _ => None
  }

  function DecodeStep3(v: JsonValue): Option<MetaphorStep3>
  {
    match (StringMember(v, "rule"), StringMember(v, "x_maps_to"), StringMember(v, "y_maps_to"))
    case (Some(a), Some(b), Some(c)) => Some(MetaphorStep3(a, b, c))
    case _ => None
  }

  function DecodeQuotes(v: JsonValue): Option<(string, string, string)>
  {
    if v.JArray? && |v.items| == 3 && v.items[0].JString? && v.items[1].JString? && v.items[2].JString?
    then Some((v.items[0].s, v.items[1].s, v.items[2].s))
    else None
  }

  function DecodeBest(v: JsonValue): Option<MetaphorStep4Best>
  {
    match (StringMember(v, "line1"), StringMember(v, "line2"))
    case (Some(a), Some(b)) => Some(MetaphorStep4Best(a, b))
    case _ => None
  }

  /** Reads an object strictly against the declared types. Like `isRejection`, the
      presence of `rejection` decides the variant; extra keys are ignored. */
  function DecodeResponse(o: JsObject): Option<MetaphorResponse>
  {
    if "rejection" in o then
      match o["rejection"]
      case JString(reason) => Some(Rejection(MetaphorRejection(reason)))
      case _ => None
    else
      var v := JObject(o);
      match (Member(v, "step1"), StringMember(v, "step2_object"), Member(v, "step3_mechanic"),
             Member(v, "step4_quotes"), Member(v, "step4_best"), StringMember(v, "step5_visual"),
             StringMember(v, "step5_dalle_prompt"))
      case (Some(s1), Some(s2), Some(s3), Some(s4), Some(b), Some(visual), Some(prompt)) =>
        (match (DecodeStep1(s1), DecodeStep3(s3), DecodeQuotes(s4), DecodeBest(b))
         case (Some(step1), Some(mechanic), Some(quotes), Some(best)) =>
           Some(Result(MetaphorResult(step1, s2, mechanic, quotes, best, visual, prompt)))
         case _ => None)
      case _ => None
  }

  lemma Step1RoundTrip(s: MetaphorStep1)
    ensures DecodeStep1(Step1Value(s)) == Some(s)
  {
    var m := Step1Value(s).members;
    assert m["subject"] == JString(s.subject) && m["pressure"] == JString(s.pressure);
    assert m["conflict"] == JString(s.conflict) && m["cost"] == JString(s.cost);
    assert m["emotion"] == JString(s.emotion);
  }

  lemma Step3RoundTrip(m: MetaphorStep3)
    ensures DecodeStep3(Step3Value(m)) == Some(m)
  {
  }

  lemma BestRoundTrip(b: MetaphorStep4Best)
    ensures DecodeBest(BestValue(b)) == Some(b)
  {
  }

  /** The members of a result object, key by key. */
  lemma ResultObjectMembers(r: MetaphorResult)
    ensures "rejection" !in ResultObject(r)
    ensures ResultObject(r).Keys == {"step1", "step2_object", "step3_mechanic", "step4_quotes",
                                     "step4_best", "step5_visual", "step5_dalle_prompt"}
    ensures ResultObject(r)["step1"] == Step1Value(r.step1)
    ensures ResultObject(r)["step2_object"] == JString(r.step2Object)
    ensures ResultObject(r)["step3_mechanic"] == Step3Value(r.step3Mechanic)
    ensures ResultObject(r)["step4_quotes"] == QuotesValue(r.step4Quotes)
    ensures ResultObject(r)["step4_best"] == BestValue(r.step4Best)
    ensures ResultObject(r)["step5_visual"] == JString(r.step5Visual)
    ensures ResultObject(r)["step5_dalle_prompt"] == JString(r.step5DallePrompt)
  {
  }

  /** Reading back the object a response is gives the response: the encoding
      loses nothing, the three quotes keep their order and an empty `line2` survives. */
  lemma DecodeResponseObject(response: MetaphorResponse)
    ensures DecodeResponse(ResponseObject(response)) == Some(response)
  {
    match response
    case Rejection(_) =>
    case Result(r) =>
      DecodeResultObject(r);
  }

  lemma DecodeResultObject(r: MetaphorResult)
    ensures DecodeResponse(ResultObject(r)) == Some(Result(r))
  {
    var v := JObject(ResultObject(r));
    ResultObjectMembers(r);
    assert Member(v, "step1") == Some(Step1Value(r.step1));
    assert StringMember(v, "step2_object") == Some(r.step2Object);
    assert Member(v, "step3_mechanic") == Some(Step3Value(r.step3Mechanic));
    assert Member(v, "step4_quotes") == Some(QuotesValue(r.step4Quotes));
    assert Member(v, "step4_best") == Some(BestValue(r.step4Best));
    assert StringMember(v, "step5_visual") == Some(r.step5Visual);
    assert StringMember(v, "step5_dalle_prompt") == Some(r.step5DallePrompt);
    Step1RoundTrip(r.step1);
    Step3RoundTrip(r.step3Mechanic);
    BestRoundTrip(r.step4Best);
    assert DecodeQuotes(QuotesValue(r.step4Quotes)) == Some(r.step4Quotes);
  }

  /** On well-typed responses `isRejection` tells the two variants apart. */
  lemma IsRejectionDiscriminates(response: MetaphorResponse)
    ensures IsRejection(ResponseObject(response)) <==> response.Rejection?
  {
    if response.Result? {
      ResultObjectMembers(response.result);
    }
  }

  /** A response object carries the rejection key exactly when it decodes to a rejection. */
  lemma DecodedVariantMatchesIsRejection(o: JsObject)
    requires DecodeResponse(o).Some?
    ensures IsRejection(o) <==> DecodeResponse(o).value.Rejection?
  {
  }
}
