/** The HTTP client of the meeting service (src/services/meetApi.js): how a reply is turned into
    `{ok, status, data, rawText}`, the error wrapper, the fallback of `leaveMeeting`, and the
    error text shown to the user. The network and `JSON.parse` are parameters. */
module MeetApi {
  import opened Text
  import opened Dynamic

  /** `JSON.parse`: `None` where it throws. */
  type JsonParser = string -> Option<Value>

  /** The normalised reply every request resolves to. */
  datatype ApiResponse = ApiResponse(ok: bool, status: int, data: Value, rawText: string)

  /** What `fetch` and `response.text()` produce: a rejection with its error's `message`, or
      a reply with its HTTP status and body text. */
  datatype Fetch = Thrown(message: Value) | Replied(httpStatus: int, text: string)

  predicate IsSuccess(status: int) {
    200 <= status < 300
  }

  /** `tryParseJson`: `null` for an empty text and for a text `JSON.parse` rejects. */
  function TryParseJson(rawText: string, parse: JsonParser): (v: Value)
    ensures rawText == [] ==> v == Null
    ensures parse(rawText).None? ==> v == Null
    ensures v != Null ==> parse(rawText) == Some(v)
    ensures rawText != [] && parse(rawText).Some? ==> v == parse(rawText).value
  {
    if rawText == [] then Null
    else match parse(rawText)
      case None => Null
      case Some(parsed) => parsed
  }

  /** `typeof parsed.statusCode === 'number'` on a truthy object (an array has no such field). */
  predicate HasNestedStatus(parsed: Value) {
    Truthy(parsed) && Get(parsed, "statusCode").Num?
  }

  /** The nested body: a string body is parsed, falling back to the string itself when parsing
      gives `null` (`tryParseJson(parsed.body) ?? parsed.body`); any other body is kept. */
  function NestedBody(body: Value, parse: JsonParser): (data: Value)
    ensures body.Str? ==> data != Null && data != Undefined
    ensures body.Str? && parse(body.s).None? ==> data == body
    ensures body.Str? && body.s == [] ==> data == body
    ensures body.Str? && body.s != [] && parse(body.s).Some? ==>
              data == if parse(body.s).value in {Null, Undefined} then body else parse(body.s).value
    ensures !body.Str? ==> data == body
  {
    if body.Str? then
      var p := TryParseJson(body.s, parse);
      if p == Null || p == Undefined then body else p
    else body
  }

  /** `normalizeResponse`: a Lambda proxy envelope with a numeric `statusCode` inside the body
      takes the place of the HTTP reply. */
  function NormalizeResponse(httpStatus: int, parsed: Value, rawText: string, parse: JsonParser): (r: ApiResponse)
    ensures r.ok <==> IsSuccess(r.status)
    ensures HasNestedStatus(parsed) ==> r.status == Get(parsed, "statusCode").n
    ensures HasNestedStatus(parsed) ==> r.data == NestedBody(Get(parsed, "body"), parse)
    ensures HasNestedStatus(parsed) && Get(parsed, "body").Str? ==> r.rawText == Get(parsed, "body").s
    ensures !HasNestedStatus(parsed) ==> r == ApiResponse(IsSuccess(httpStatus), httpStatus, parsed, rawText)
  {
    if HasNestedStatus(parsed) then
      var nestedStatus := Get(parsed, "statusCode").n;
      var body := Get(parsed, "body");
      ApiResponse(IsSuccess(nestedStatus), nestedStatus, NestedBody(body, parse),
                  if body.Str? then body.s else rawText)
    else
      ApiResponse(IsSuccess(httpStatus), httpStatus, parsed, rawText)
  }

  /** `request`: every outcome resolves; a rejection becomes status 0 with `data.error` set. */
  function Request(outcome: Fetch, parse: JsonParser): (r: ApiResponse)
    ensures r.ok <==> IsSuccess(r.status)
    ensures outcome.Thrown? ==> !r.ok && r.status == 0 && r.rawText == []
                                && Truthy(Get(r.data, "error"))
    ensures outcome.Thrown? && !Truthy(outcome.message) ==> Get(r.data, "error") == Str("Network error")
    ensures outcome.Thrown? && Truthy(outcome.message) ==> Get(r.data, "error") == outcome.message
    ensures outcome.Replied? ==>
              r == NormalizeResponse(outcome.httpStatus, TryParseJson(outcome.text, parse), outcome.text, parse)
  {
    match outcome
    case Thrown(message) =>
      ApiResponse(false, 0, Obj(map["error" := Or(message, Str("Network error"))]), [])
    case Replied(httpStatus, text) =>
      NormalizeResponse(httpStatus, TryParseJson(text, parse), text, parse)
  }

  /** The path of the GET fallback of `leaveMeeting`. */
  function LeaveFallbackPath(meetingId: string): (path: string)
    ensures '&' !in path && '#' !in path
  {
    LeavePathHasNo(meetingId, '&');
    LeavePathHasNo(meetingId, '#');
    "/meeting/leave" + "?" + QueryParam("meetingId", meetingId)
  }

  lemma LeavePathHasNo(meetingId: string, c: char)
    requires c == '&' || c == '#'
    ensures c !in "/meeting/leave" + "?" + QueryParam("meetingId", meetingId)
  {
    QueryParamHasNo("meetingId", meetingId, c);
  }

  /** `leaveMeeting`, given the reply to the POST and the GET it may issue (`get(path)`): the
      fallback is used exactly when the POST was refused with status 403. */
  function LeaveMeeting(meetingId: string, primary: ApiResponse, get: string -> ApiResponse): (r: ApiResponse)
    ensures !primary.ok && primary.status == 403 ==> r == get(LeaveFallbackPath(meetingId))
    ensures primary.ok || primary.status != 403 ==> r == primary
  {
    if primary.ok || primary.status != 403 then primary else get(LeaveFallbackPath(meetingId))
  }

  /** The fallback path carries the meeting id as its only query parameter, whatever characters
      the id holds. */
  lemma LeaveFallbackQuery(meetingId: string)
    ensures var path := LeaveFallbackPath(meetingId);
            Split(path, '?') == ["/meeting/leave", QueryParam("meetingId", meetingId)]
  {
    var rest := QueryParam("meetingId", meetingId);
    QueryParamHasNo("meetingId", meetingId, '?');
    SplitAfter("/meeting/leave", '?', rest);
    NoSepSplit(rest, '?');
    assert ["/meeting/leave"] + [rest] == ["/meeting/leave", rest];
  }

  /** `extractErrorMessage`: a missing body, then a string body, then `data.error`, then
      `data.message`, then a text naming the status. */
  function ExtractErrorMessage(response: ApiResponse): (m: Value)
    ensures Truthy(m)
    ensures !Truthy(response.data) ==> m == Str("Unexpected server response")
    ensures Truthy(response.data) && response.data.Str? ==> m == response.data
    ensures (Truthy(response.data) && !response.data.Str? && Truthy(Get(response.data, "error")))
            ==> m == Get(response.data, "error")
    ensures (Truthy(response.data) && !response.data.Str? && !Truthy(Get(response.data, "error"))
             && Truthy(Get(response.data, "message")))
            ==> m == Get(response.data, "message")
    ensures (Truthy(response.data) && !response.data.Str? && !Truthy(Get(response.data, "error"))
             && !Truthy(Get(response.data, "message")))
            ==> m == Str("Request failed with status " + IntToString(response.status))
  {
    var data := response.data;
    if !Truthy(data) then Str("Unexpected server response")
    else if data.Str? then data
    else Or(Get(data, "error"), Or(Get(data, "message"),
           Str("Request failed with status " + IntToString(response.status))))
  }
}
