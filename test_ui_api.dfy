/** The request helper and message formatting of the test console (api-test-ui/js/api.js). The
    network, `JSON.parse` and `JSON.stringify` are parameters. */
module TestUiApi {
  import opened Text
  import opened Dynamic
  import opened MeetApi

  /** `JSON.stringify(data)` and `JSON.stringify(data, null, 2)` of a truthy value. */
  type Stringify = Value -> string

  /** `apiRequest`: the HTTP status and body as they came, the body parsed when it is not empty
      (`null` when it does not parse); a rejected `fetch` or `text()` becomes status 0 with
      `data.message` set. */
  function ApiRequest(outcome: Fetch, parse: JsonParser): (r: ApiResponse)
    ensures r.ok <==> IsSuccess(r.status)
    ensures outcome.Thrown? ==>
              r == ApiResponse(false, 0, Obj(map["message" := Or(outcome.message, Str("Network error"))]), "")
    ensures outcome.Replied? ==> r.status == outcome.httpStatus && r.rawText == outcome.text
    ensures outcome.Replied? && (outcome.text == [] || parse(outcome.text).None?) ==> r.data == Null
    ensures outcome.Replied? && outcome.text != [] && parse(outcome.text).Some? ==> r.data == parse(outcome.text).value
  {
    match outcome
    case Thrown(message) =>
      ApiResponse(false, 0, Obj(map["message" := Or(message, Str("Network error"))]), "")
    case Replied(httpStatus, text) =>
      ApiResponse(IsSuccess(httpStatus), httpStatus, TryParseJson(text, parse), text)
  }

  /** Where the reply carries no envelope with its own `statusCode`, the test console and the
      application's client see the same response. */
  lemma AgreesWithClient(outcome: Fetch, parse: JsonParser)
    requires outcome.Replied? && !HasNestedStatus(TryParseJson(outcome.text, parse))
    ensures ApiRequest(outcome, parse) == Request(outcome, parse)
  {
  }

  /** With an envelope, the console keeps the HTTP status where the client takes the nested one. */
  lemma EnvelopeStatusKept(outcome: Fetch, parse: JsonParser)
    requires outcome.Replied? && HasNestedStatus(TryParseJson(outcome.text, parse))
    ensures ApiRequest(outcome, parse).status == outcome.httpStatus
    ensures Request(outcome, parse).status == Get(TryParseJson(outcome.text, parse), "statusCode").n
  {
  }

  /** `extractMessage(data)`: `Unknown error` for no data, a string as it is, then `message`,
      then `error`, then the data as JSON. */
  function ExtractMessage(data: Value, stringify: Stringify): (m: Value)
    ensures !Truthy(data) ==> m == Str("Unknown error")
    ensures Truthy(data) && data.Str? ==> m == data
    ensures Truthy(data) && !data.Str? && Truthy(Get(data, "message")) ==> m == Get(data, "message")
    ensures Truthy(data) && !data.Str? && !Truthy(Get(data, "message")) && Truthy(Get(data, "error"))
            ==> m == Get(data, "error")
    ensures Truthy(data) && !data.Str? && !Truthy(Get(data, "message")) && !Truthy(Get(data, "error"))
            ==> m == Str(stringify(data))
  {
    if !Truthy(data) then Str("Unknown error")
    else if data.Str? then data
    else Or(Get(data, "message"), Or(Get(data, "error"), Str(stringify(data))))
  }

  /** The console reads `message` before `error`, the application's client `error` before
      `message`: a body carrying both is reported differently by the two. */
  lemma PrecedenceReversed(data: Value, status: int, stringify: Stringify)
    requires data.Obj? && Truthy(Get(data, "message")) && Truthy(Get(data, "error"))
    ensures ExtractMessage(data, stringify) == Get(data, "message")
    ensures ExtractErrorMessage(ApiResponse(false, status, data, "")) == Get(data, "error")
  {
  }

  /** `HTTP <code>: <message>`. */
  function HttpLine(code: string, message: string): string {
    "HTTP " + code + ": " + message
  }

  /** `formatHttpError(status, data)`. */
  function FormatHttpError(status: int, data: Value, stringify: Stringify): (text: string)
    ensures status == 200 ==> text == "HTTP 200: Unexpected response"
    ensures status == 0 ==> text == "Network error: " + ToJsString(ExtractMessage(data, stringify))
  {
    var message := ToJsString(ExtractMessage(data, stringify));
    if status == 400 then HttpLine("400", message)
    else if status == 404 then HttpLine("404", message)
    else if status == 200 then "HTTP 200: Unexpected response"
    else if status == 0 then "Network error: " + message
    else HttpLine(IntToString(status), message)
  }

  /** The two special cases for 400 and 404 say what the general rule says: every status other
      than 0 and 200 is reported as `HTTP <status>: <message>`. */
  lemma FormatHttpErrorUniform(status: int, data: Value, stringify: Stringify)
    requires status != 0 && status != 200
    ensures FormatHttpError(status, data, stringify)
            == HttpLine(IntToString(status), ToJsString(ExtractMessage(data, stringify)))
  {
    assert NatToString(4) == "4" && NatToString(40) == "40" && NatToString(400) == "400";
    assert NatToString(404) == "404";
  }

  /** A `fetch` that fails is reported with its error's message, or `Network error` when it has
      none. */
  lemma NetworkErrorText(message: Value, parse: JsonParser, stringify: Stringify)
    ensures var r := ApiRequest(Thrown(message), parse);
            FormatHttpError(r.status, r.data, stringify)
            == "Network error: " + ToJsString(Or(message, Str("Network error")))
  {
    var data := Obj(map["message" := Or(message, Str("Network error"))]);
    assert Get(data, "message") == Or(message, Str("Network error"));
  }

  /** `formatRaw(rawText, data)`: the data as indented JSON, else the raw text, else a notice. */
  function FormatRaw(rawText: string, data: Value, pretty: Stringify): (text: string)
    ensures Truthy(data) ==> text == pretty(data)
    ensures !Truthy(data) && rawText != [] ==> text == rawText
    ensures !Truthy(data) && rawText == [] ==> text == "No response body"
  {
    if Truthy(data) then pretty(data) else if rawText != [] then rawText else "No response body"
  }

  /** A reply whose body does not parse is shown as the text that came, and an empty reply as
      the notice. */
  lemma RawOfUnparsable(httpStatus: int, text: string, parse: JsonParser, pretty: Stringify)
    requires text == [] || parse(text).None?
    ensures var r := ApiRequest(Replied(httpStatus, text), parse);
            FormatRaw(r.rawText, r.data, pretty) == if text == [] then "No response body" else text
  {
  }
}
