/** The meeting-status Lambda of the test back end (api-test-ui/meetlite_getMeetingStatus.py):
    the request body parser, the meeting-id lookup over the places API Gateway may put it, the
    active-participant filter, and the status codes of the handler. The database reads,
    `json.loads`, `json.dumps` and `parse_qs` are parameters or left out. */
module StatusLambda {
  import opened Text
  import opened Dynamic

  /** A Python dict as the handler reads it. */
  type Dict = map<string, Value>

  /** `json.loads`: `None` where it raises `JSONDecodeError`. */
  type JsonLoads = string -> Option<Value>

  /** `urllib.parse.parse_qs`: each name with its values in order. */
  type QueryParser = string -> map<string, seq<string>>

  // -----------------------------------------------------------------------------------------
  // `_parse_body`

  /** The dict a parsed body stands for: one nested string `body` is decoded in its place;
      anything that is not a dict, or a nested body that does not decode, gives `{}`. */
  function Unwrap(parsed: Value, loads: JsonLoads): (d: Dict)
    ensures !parsed.Obj? ==> d == map[]
    ensures parsed.Obj? && ("body" !in parsed.fields || !parsed.fields["body"].Str?) ==> d == parsed.fields
    ensures parsed.Obj? && "body" in parsed.fields && parsed.fields["body"].Str? ==>
              d == match loads(parsed.fields["body"].s)
                   case Some(Obj(inner)) => inner
                   case _ => map[]
  {
    var nested :=
      if parsed.Obj? && "body" in parsed.fields && parsed.fields["body"].Str?
      then loads(parsed.fields["body"].s) else Some(parsed);
    match nested
    case None => map[]
    case Some(v) => if v.Obj? then v.fields else map[]
  }

  /** `_parse_body` on the value of `event["body"]`: a string is stripped and decoded, a dict
      is taken as it is, anything else (missing included) gives `{}`. */
  function BodyOf(raw: Value, loads: JsonLoads): (d: Dict)
    ensures !raw.Str? && !raw.Obj? ==> d == map[]
    ensures raw.Str? && Strip(raw.s) == [] ==> d == map[]
    ensures raw.Str? && loads(Strip(raw.s)).None? ==> d == map[]
    ensures raw.Str? && Strip(raw.s) != [] && loads(Strip(raw.s)).Some? ==> d == Unwrap(loads(Strip(raw.s)).value, loads)
    ensures raw.Obj? ==> d == Unwrap(raw, loads)
  {
    if raw.Str? then
      var text := Strip(raw.s);
      if text == [] then map[]
      else match loads(text)
        case None => map[]
        case Some(parsed) => Unwrap(parsed, loads)
    else if raw.Obj? then Unwrap(raw, loads)
    else map[]
  }

  /** `_parse_body(event)`: `(event or {}).get("body")` raises for a truthy event that is not a
      dict (`None`). */
  function ParseBody(event: Value, loads: JsonLoads): (body: Option<Dict>)
    ensures body.None? <==> PyTruthy(event) && !event.Obj?
    ensures !PyTruthy(event) ==> body == Some(map[])
  {
    match PyDictOr(event)
    case None => None
    case Some(e) => Some(BodyOf(PyGet(e, "body"), loads))
  }

  /** The cases that give an empty body: no body, a blank string, a string that does not
      decode, a string that decodes to something other than a dict (`"[1]"`, `"5"`), a value
      that is neither a string nor a dict. */
  lemma ParseBodyEmpty(raw: Value, loads: JsonLoads)
    requires || (!raw.Str? && !raw.Obj?)
             || (raw.Str? && Strip(raw.s) == [])
             || (raw.Str? && loads(Strip(raw.s)).None?)
             || (raw.Str? && Strip(raw.s) != [] && loads(Strip(raw.s)).Some? && !loads(Strip(raw.s)).value.Obj?)
    ensures BodyOf(raw, loads) == map[]
  {
  }

  /** A body whose nested string `body` does not decode, or decodes to something other than a
      dict, gives `{}`, whatever else it holds. */
  lemma ParseBodyBadNested(raw: Value, fields: Dict, inner: string, loads: JsonLoads)
    requires raw == Obj(fields) || (raw.Str? && Strip(raw.s) != [] && loads(Strip(raw.s)) == Some(Obj(fields)))
    requires "body" in fields && fields["body"] == Str(inner) && (loads(inner).None? || !loads(inner).value.Obj?)
    ensures BodyOf(raw, loads) == map[]
  {
  }

  /** Exactly one level is unwrapped: the decoded nested body is the result even when it has a
      string `body` of its own. */
  lemma ParseBodyUnwrapsOnce(raw: Value, fields: Dict, inner: string, decoded: Dict, loads: JsonLoads)
    requires raw == Obj(fields) || (raw.Str? && Strip(raw.s) != [] && loads(Strip(raw.s)) == Some(Obj(fields)))
    requires "body" in fields && fields["body"] == Str(inner) && loads(inner) == Some(Obj(decoded))
    ensures BodyOf(raw, loads) == decoded
  {
  }

  /** A dict without a string `body` is its own body. */
  lemma ParseBodyPlain(raw: Value, fields: Dict, loads: JsonLoads)
    requires raw == Obj(fields) || (raw.Str? && Strip(raw.s) != [] && loads(Strip(raw.s)) == Some(Obj(fields)))
    requires "body" !in fields || !fields["body"].Str?
    ensures BodyOf(raw, loads) == fields
  {
  }

  // -----------------------------------------------------------------------------------------
  // `_extract_meeting_id`

  /** `(d.get("meetingId") or "").strip()`; `None` where `.strip()` raises. */
  function IdIn(d: Dict): Option<string> {
    PyStripOr(PyGet(d, "meetingId"))
  }

  /** The six places, in the order they are tried, each as `(… or {}).get("meetingId")`
      stripped; `None` where a step raises. A source with nothing there gives `""`. */
  function FromBody(event: Dict, loads: JsonLoads): Option<string> {
    IdIn(BodyOf(PyGet(event, "body"), loads))
  }

  function FromQuery(event: Dict): Option<string> {
    match PyDictOr(PyGet(event, "queryStringParameters"))
    case None => None
    case Some(params) => IdIn(params)
  }

  /** Only a non-empty list is looked at, and only its first element. */
  function FromMultiQuery(event: Dict): Option<string> {
    match PyDictOr(PyGet(event, "multiValueQueryStringParameters"))
    case None => None
    case Some(multi) =>
      var values := PyGet(multi, "meetingId");
      if PyTruthy(values) && values.Arr? then PyStripOr(values.items[0]) else Some("")
  }

  /** The raw query string, stripped, is parsed only when it is not blank. */
  function FromRawQuery(event: Dict, parseQs: QueryParser): Option<string> {
    match PyStripOr(PyGet(event, "rawQueryString"))
    case None => None
    case Some(rawQuery) =>
      if rawQuery == [] then Some("")
      else
        var parsed := parseQs(rawQuery);
        var values := if "meetingId" in parsed then parsed["meetingId"] else [];
        if values == [] then Some("") else PyStripOr(Str(values[0]))
  }

  function FromParams(event: Dict): Option<string> {
    match PyDictOr(PyGet(event, "params"))
    case None => None
    case Some(params) =>
      match PyDictOr(PyGet(params, "querystring"))
      case None => None
      case Some(query) => IdIn(query)
  }

  function FromPath(event: Dict): Option<string> {
    match PyDictOr(PyGet(event, "pathParameters"))
    case None => None
    case Some(path) => IdIn(path)
  }

  /** `if meeting_id: return meeting_id`, then the next place. */
  function OrNext(found: Option<string>, next: Option<string>): Option<string> {
    match found
    case None => None
    case Some(id) => if id != [] then found else next
  }

  /** `_extract_meeting_id`: the first place in order that holds a non-blank id. */
  function ExtractMeetingId(event: Value, loads: JsonLoads, parseQs: QueryParser): (id: Option<string>)
    ensures PyTruthy(event) && !event.Obj? ==> id.None?
    ensures !PyTruthy(event) ==> id == Some("")
    ensures event.Obj? && id.Some? ==> id.value == [] || id in Places(event.fields, loads, parseQs)
  {
    match PyDictOr(event)
    case None => None
    case Some(e) =>
      OrNext(FromBody(e, loads),
      OrNext(FromQuery(e),
      OrNext(FromMultiQuery(e),
      OrNext(FromRawQuery(e, parseQs),
      OrNext(FromParams(e), FromPath(e))))))
  }

  /** The places in the order they are tried. */
  function Places(e: Dict, loads: JsonLoads, parseQs: QueryParser): seq<Option<string>> {
    [FromBody(e, loads), FromQuery(e), FromMultiQuery(e), FromRawQuery(e, parseQs), FromParams(e), FromPath(e)]
  }

  /** The reference reading of a lookup in order: the first place that raises or holds a
      non-blank id decides; when all are blank the id is `""`. */
  function FirstNonBlank(places: seq<Option<string>>): Option<string> {
    if places == [] then Some("")
    else if places[0].None? || places[0].value != [] then places[0]
    else FirstNonBlank(places[1..])
  }

  lemma ExtractIsFirstNonBlank(e: Dict, loads: JsonLoads, parseQs: QueryParser)
    ensures ExtractMeetingId(Obj(e), loads, parseQs) == FirstNonBlank(Places(e, loads, parseQs))
  {
    var p := Places(e, loads, parseQs);
    assert FirstNonBlank(p[5..]) == p[5] by {
      assert p[5..][1..] == [];
    }
    assert FirstNonBlank(p[4..]) == OrNext(p[4], p[5]) by { assert p[4..][1..] == p[5..]; }
    assert FirstNonBlank(p[3..]) == OrNext(p[3], FirstNonBlank(p[4..])) by { assert p[3..][1..] == p[4..]; }
    assert FirstNonBlank(p[2..]) == OrNext(p[2], FirstNonBlank(p[3..])) by { assert p[2..][1..] == p[3..]; }
    assert FirstNonBlank(p[1..]) == OrNext(p[1], FirstNonBlank(p[2..])) by { assert p[1..][1..] == p[2..]; }
    assert FirstNonBlank(p) == OrNext(p[0], FirstNonBlank(p[1..]));
  }

  /** Place `j` decides when every place before it is blank. */
  lemma {:induction false} FirstNonBlankPicks(places: seq<Option<string>>, j: nat)
    requires j < |places| && (places[j].None? || places[j].value != [])
    requires forall k | 0 <= k < j :: places[k] == Some("")
    ensures FirstNonBlank(places) == places[j]
  {
    if j > 0 {
      assert forall k | 0 <= k < j - 1 :: places[1..][k] == places[k + 1];
      FirstNonBlankPicks(places[1..], j - 1);
    }
  }

  /** When every place is blank the id is blank. */
  lemma {:induction false} FirstNonBlankAllBlank(places: seq<Option<string>>)
    requires forall k | 0 <= k < |places| :: places[k] == Some("")
    ensures FirstNonBlank(places) == Some("")
  {
    if places != [] {
      assert forall k | 0 <= k < |places| - 1 :: places[1..][k] == places[k + 1];
      FirstNonBlankAllBlank(places[1..]);
    }
  }

  /** The precedence of the lookup: body, query string parameters, the first multi-value
      parameter, the raw query string, `params.querystring`, path parameters. The first place
      holding a non-blank id gives it (when every earlier place is blank), and the id found
      never has white space at either end. */
  lemma MeetingIdPrecedence(e: Dict, loads: JsonLoads, parseQs: QueryParser, j: nat)
    requires j < 6
    requires var p := Places(e, loads, parseQs);
             (p[j].None? || p[j].value != []) && forall k | 0 <= k < j :: p[k] == Some("")
    ensures ExtractMeetingId(Obj(e), loads, parseQs) == Places(e, loads, parseQs)[j]
  {
    ExtractIsFirstNonBlank(e, loads, parseQs);
    FirstNonBlankPicks(Places(e, loads, parseQs), j);
  }

  /** An id found anywhere is stripped. */
  lemma MeetingIdStripped(event: Value, loads: JsonLoads, parseQs: QueryParser)
    requires ExtractMeetingId(event, loads, parseQs).Some?
    ensures TrimmedBy(ExtractMeetingId(event, loads, parseQs).value, IsPySpace)
  {
    var e := PyDictOr(event).value;
    assert ExtractMeetingId(event, loads, parseQs) == ExtractMeetingId(Obj(e), loads, parseQs);
    ExtractIsFirstNonBlank(e, loads, parseQs);
    FirstNonBlankKeeps(Places(e, loads, parseQs));
  }

  /** The ordered lookup returns a place's value, so it is stripped when they all are. */
  lemma {:induction false} FirstNonBlankKeeps(places: seq<Option<string>>)
    requires forall k | 0 <= k < |places| && places[k].Some? :: TrimmedBy(places[k].value, IsPySpace)
    ensures FirstNonBlank(places).Some? ==> TrimmedBy(FirstNonBlank(places).value, IsPySpace)
  {
    if places != [] && places[0].Some? && places[0].value == [] {
      assert forall k | 0 <= k < |places| - 1 :: places[1..][k] == places[k + 1];
      FirstNonBlankKeeps(places[1..]);
    }
  }

  // -----------------------------------------------------------------------------------------
  // `_get_active_participants`

  /** One entry of the reply's `participants`. */
  datatype ActiveParticipant = ActiveParticipant(userEmail: string, joinedAt: Value, role: Value, isHost: bool)

  /** `item.get("participantStatus", "ACTIVE") == "ACTIVE"`: a missing status counts as active. */
  predicate IsActive(item: Dict)
    ensures "participantStatus" !in item ==> IsActive(item)
    ensures "participantStatus" in item ==> (IsActive(item) <==> item["participantStatus"] == Str("ACTIVE"))
  {
    PyGetOr(item, "participantStatus", Str("ACTIVE")) == Str("ACTIVE")
  }

  /** The stripped e-mail of an item (`""` where `.strip()` would raise). */
  function EmailOf(item: Dict): string {
    match PyStripOr(PyGet(item, "userEmail"))
    case None => ""
    case Some(email) => email
  }

  /** An item that makes it into the list, unless an earlier one has the same e-mail. */
  predicate Eligible(item: Dict)
    ensures Eligible(item) ==> IsActive(item) && PyGet(item, "userEmail").Str?
    ensures Eligible(item) ==> EmailOf(item) == Strip(PyGet(item, "userEmail").s) != []
  {
    IsActive(item) && PyStripOr(PyGet(item, "userEmail")).Some? && EmailOf(item) != []
  }

  /** `host_user_id and email.lower() == host_user_id.lower()`. */
  predicate IsHostEmail(email: string, hostUserId: string) {
    hostUserId != [] && Lower(email) == Lower(hostUserId)
  }

  /** The entry an eligible item becomes. */
  function ActiveRecord(item: Dict, email: string, hostUserId: string): (p: ActiveParticipant)
    ensures p.isHost <==> IsHostEmail(email, hostUserId)
    ensures p.isHost ==> p.role == Str("ADMIN")
    ensures !p.isHost ==> p.role == PyGetOr(item, "role", Str("PARTICIPANT"))
    ensures p.userEmail == email && p.joinedAt == PyGet(item, "joinedAt")
  {
    var isHost := IsHostEmail(email, hostUserId);
    ActiveParticipant(email, PyGet(item, "joinedAt"), if isHost then Str("ADMIN") else PyGetOr(item, "role", Str("PARTICIPANT")), isHost)
  }

  /** The lower-cased e-mails already in the list (`seen`). */
  function SeenKeys(ps: seq<ActiveParticipant>): set<string> {
    set p | p in ps :: Lower(p.userEmail)
  }

  /** The loop of `_get_active_participants` over the items in order; `None` where `.strip()`
      raises on an active item's e-mail. */
  function Active(items: seq<Dict>, hostUserId: string): (r: Option<seq<ActiveParticipant>>)
    ensures r.Some? ==> |r.value| <= |items|
    ensures r.Some? ==> forall p | p in r.value :: p.userEmail != [] && TrimmedBy(p.userEmail, IsPySpace)
  {
    if items == [] then Some([])
    else
      match Active(items[..|items| - 1], hostUserId)
      case None => None
      case Some(acc) =>
        var item := items[|items| - 1];
        if !IsActive(item) then Some(acc)
        else
          match PyStripOr(PyGet(item, "userEmail"))
          case None => None
          case Some(email) =>
            if email == [] || Lower(email) in SeenKeys(acc) then Some(acc)
            else Some(acc + [ActiveRecord(item, email, hostUserId)])
  }

  /** The loop itself, with `seen` kept beside the list. */
  method GetActiveParticipants(items: seq<Dict>, hostUserId: string) returns (r: Option<seq<ActiveParticipant>>)
    ensures r == Active(items, hostUserId)
  {
    var active: seq<ActiveParticipant> := [];
    var seen: set<string> := {};
    var i := 0;
    while i < |items|
      invariant 0 <= i <= |items|
      invariant Active(items[..i], hostUserId) == Some(active)
      invariant seen == SeenKeys(active)
    {
      assert items[..i + 1][..i] == items[..i];
      var item := items[i];
      assert items[..i + 1][i] == item;
      if PyGetOr(item, "participantStatus", Str("ACTIVE")) != Str("ACTIVE") {
        assert Active(items[..i + 1], hostUserId) == Some(active);
        i := i + 1;
        continue;
      }
      var stripped := PyStripOr(PyGet(item, "userEmail"));
      if stripped.None? {
        ActiveRaises(items, hostUserId, i + 1);
        return None;
      }
      var email := stripped.value;
      if email == [] {
        assert Active(items[..i + 1], hostUserId) == Some(active);
        i := i + 1;
        continue;
      }
      var key := Lower(email);
      if key in seen {
        assert Active(items[..i + 1], hostUserId) == Some(active);
        i := i + 1;
        continue;
      }
      seen := seen + {key};
      var record := ActiveRecord(item, email, hostUserId);
      assert Active(items[..i + 1], hostUserId) == Some(active + [record]);
      active := active + [record];
      assert SeenKeys(active) == SeenKeys(active[..|active| - 1]) + {key};
      i := i + 1;
    }
    assert items[..i] == items;
    return Some(active);
  }

  /** An item that raises ends the whole loop with the exception. */
  lemma {:induction false} ActiveRaises(items: seq<Dict>, hostUserId: string, n: nat)
    requires n <= |items| && Active(items[..n], hostUserId).None?
    ensures Active(items, hostUserId).None?
  {
    if n < |items| {
      var init := items[..|items| - 1];
      assert init[..n] == items[..n];
      ActiveRaises(init, hostUserId, n);
    } else {
      assert items[..n] == items;
    }
  }

  /** No two entries share a lower-cased e-mail. */
  lemma {:induction false} ActiveDistinct(items: seq<Dict>, hostUserId: string)
    requires Active(items, hostUserId).Some?
    ensures var ps := Active(items, hostUserId).value;
            forall i, j | 0 <= i < j < |ps| :: Lower(ps[i].userEmail) != Lower(ps[j].userEmail)
  {
    if items != [] {
      var init := items[..|items| - 1];
      ActiveDistinct(init, hostUserId);
      var acc := Active(init, hostUserId).value;
      var ps := Active(items, hostUserId).value;
      if |ps| > |acc| {
        forall i | 0 <= i < |acc| ensures Lower(acc[i].userEmail) in SeenKeys(acc) { }
      }
    }
  }

  /** Every eligible item is represented: its lower-cased e-mail is in the list. */
  lemma {:induction false} ActiveComplete(items: seq<Dict>, hostUserId: string, m: nat)
    requires Active(items, hostUserId).Some?
    requires m < |items| && Eligible(items[m])
    ensures Lower(EmailOf(items[m])) in SeenKeys(Active(items, hostUserId).value)
  {
    var init := items[..|items| - 1];
    if m < |items| - 1 {
      assert items[m] == init[m];
      ActiveComplete(init, hostUserId, m);
    }
  }

  /** Where each entry comes from: increasing item indices, each the first eligible item with
      that lower-cased e-mail (first wins), and the entry is the one that item builds — so the
      filter, the host flag and the role of every entry are those of its item. */
  ghost predicate ActiveOrigins(items: seq<Dict>, hostUserId: string, ps: seq<ActiveParticipant>, idx: seq<nat>) {
    |idx| == |ps| && BuiltFrom(items, hostUserId, ps, idx) && FirstOfEmail(items, ps, idx)
    && (forall j1, j2 | 0 <= j1 < j2 < |idx| :: idx[j1] < idx[j2])
  }

  /** Entry `j` is the record item `idx[j]` builds, and that item is eligible. */
  ghost predicate BuiltFrom(items: seq<Dict>, hostUserId: string, ps: seq<ActiveParticipant>, idx: seq<nat>)
    requires |idx| == |ps|
  {
    forall j | 0 <= j < |ps| ::
      idx[j] < |items| && Eligible(items[idx[j]])
      && ps[j] == ActiveRecord(items[idx[j]], EmailOf(items[idx[j]]), hostUserId)
  }

  /** No eligible item before `idx[j]` has entry `j`'s lower-cased e-mail. */
  ghost predicate FirstOfEmail(items: seq<Dict>, ps: seq<ActiveParticipant>, idx: seq<nat>)
    requires |idx| == |ps|
  {
    forall j, m | 0 <= j < |ps| && 0 <= m < idx[j] && m < |items| ::
      !(Eligible(items[m]) && Lower(EmailOf(items[m])) == Lower(ps[j].userEmail))
  }

  lemma {:induction false} ActiveOriginsOf(items: seq<Dict>, hostUserId: string) returns (idx: seq<nat>)
    requires Active(items, hostUserId).Some?
    ensures ActiveOrigins(items, hostUserId, Active(items, hostUserId).value, idx)
  {
    if items == [] {
      idx := [];
    } else {
      var init := items[..|items| - 1];
      var idx0 := ActiveOriginsOf(init, hostUserId);
      var acc := Active(init, hostUserId).value;
      ActiveOriginsExtend(init, items, hostUserId, acc, idx0);
      var item := items[|items| - 1];
      if Eligible(item) && Lower(EmailOf(item)) !in SeenKeys(acc) {
        idx := ActiveOriginsAdd(items, hostUserId, idx0);
      } else {
        idx := idx0;
      }
    }
  }

  lemma ActiveOriginsExtend(init: seq<Dict>, items: seq<Dict>, hostUserId: string,
                            ps: seq<ActiveParticipant>, idx: seq<nat>)
    requires init <= items && ActiveOrigins(init, hostUserId, ps, idx)
    ensures ActiveOrigins(items, hostUserId, ps, idx)
  {
    forall j | 0 <= j < |ps|
      ensures idx[j] < |items| && Eligible(items[idx[j]])
              && ps[j] == ActiveRecord(items[idx[j]], EmailOf(items[idx[j]]), hostUserId)
    {
      assert items[idx[j]] == init[idx[j]];
    }
    forall j, m | 0 <= j < |ps| && 0 <= m < idx[j]
      ensures !(Eligible(items[m]) && Lower(EmailOf(items[m])) == Lower(ps[j].userEmail))
    {
      assert items[m] == init[m];
    }
  }

  lemma ActiveOriginsAdd(items: seq<Dict>, hostUserId: string, idx0: seq<nat>) returns (idx: seq<nat>)
    requires items != []
    requires var init := items[..|items| - 1];
             && Active(init, hostUserId).Some?
             && ActiveOrigins(items, hostUserId, Active(init, hostUserId).value, idx0)
    requires var item := items[|items| - 1];
             Eligible(item) && Lower(EmailOf(item)) !in SeenKeys(Active(items[..|items| - 1], hostUserId).value)
    ensures Active(items, hostUserId).Some?
    ensures ActiveOrigins(items, hostUserId, Active(items, hostUserId).value, idx)
  {
    var init := items[..|items| - 1];
    var n := |items| - 1;
    var acc := Active(init, hostUserId).value;
    var item := items[n];
    var email := EmailOf(item);
    idx := idx0 + [n];
    assert Active(items, hostUserId) == Some(acc + [ActiveRecord(item, email, hostUserId)]);
    forall m | 0 <= m < n
      ensures !(Eligible(items[m]) && Lower(EmailOf(items[m])) == Lower(email))
    {
      assert items[m] == init[m];
      if Eligible(init[m]) {
        ActiveComplete(init, hostUserId, m);
      }
    }
    ActiveOriginsSnoc(items, hostUserId, acc, idx0);
  }

  /** Appending the record of the last item, when no earlier item shares its e-mail. */
  lemma ActiveOriginsSnoc(items: seq<Dict>, hostUserId: string, ps: seq<ActiveParticipant>, idx: seq<nat>)
    requires items != [] && ActiveOrigins(items, hostUserId, ps, idx)
    requires forall j | 0 <= j < |idx| :: idx[j] < |items| - 1
    requires var n := |items| - 1;
             && Eligible(items[n])
             && forall m | 0 <= m < n :: !(Eligible(items[m]) && Lower(EmailOf(items[m])) == Lower(EmailOf(items[n])))
    ensures var n := |items| - 1;
            ActiveOrigins(items, hostUserId, ps + [ActiveRecord(items[n], EmailOf(items[n]), hostUserId)], idx + [n])
  {
    var n := |items| - 1;
    var ps' := ps + [ActiveRecord(items[n], EmailOf(items[n]), hostUserId)];
    var idx' := idx + [n];
    BuiltFromSnoc(items, hostUserId, ps, idx);
    FirstOfEmailSnoc(items, hostUserId, ps, idx);
    assert forall j | 0 <= j < |idx| :: idx'[j] == idx[j];
  }

  lemma BuiltFromSnoc(items: seq<Dict>, hostUserId: string, ps: seq<ActiveParticipant>, idx: seq<nat>)
    requires items != [] && |idx| == |ps| && BuiltFrom(items, hostUserId, ps, idx)
    requires Eligible(items[|items| - 1])
    ensures var n := |items| - 1;
            BuiltFrom(items, hostUserId, ps + [ActiveRecord(items[n], EmailOf(items[n]), hostUserId)], idx + [n])
  {
    var n := |items| - 1;
    var ps' := ps + [ActiveRecord(items[n], EmailOf(items[n]), hostUserId)];
    assert forall j | 0 <= j < |ps| :: ps'[j] == ps[j];
  }

  lemma FirstOfEmailSnoc(items: seq<Dict>, hostUserId: string, ps: seq<ActiveParticipant>, idx: seq<nat>)
    requires items != [] && |idx| == |ps| && FirstOfEmail(items, ps, idx)
    requires var n := |items| - 1;
             forall m | 0 <= m < n :: !(Eligible(items[m]) && Lower(EmailOf(items[m])) == Lower(EmailOf(items[n])))
    ensures var n := |items| - 1;
            FirstOfEmail(items, ps + [ActiveRecord(items[n], EmailOf(items[n]), hostUserId)], idx + [n])
  {
    var n := |items| - 1;
    var ps' := ps + [ActiveRecord(items[n], EmailOf(items[n]), hostUserId)];
    assert forall j | 0 <= j < |ps| :: ps'[j] == ps[j];
    assert ps'[|ps|].userEmail == EmailOf(items[n]);
  }

  /** First wins: every entry is the record of the first eligible item with its e-mail, in
      input order, and its host flag and role follow from that item. */
  lemma ActiveFirstWins(items: seq<Dict>, hostUserId: string) returns (idx: seq<nat>)
    requires Active(items, hostUserId).Some?
    ensures var ps := Active(items, hostUserId).value;
            && |idx| == |ps|
            && (forall j | 0 <= j < |ps| ::
                  idx[j] < |items| && Eligible(items[idx[j]])
                  && ps[j] == ActiveRecord(items[idx[j]], EmailOf(items[idx[j]]), hostUserId))
            && (forall j, m | 0 <= j < |ps| && 0 <= m < idx[j] ::
                  !(Eligible(items[m]) && Lower(EmailOf(items[m])) == Lower(ps[j].userEmail)))
            && (forall j1, j2 | 0 <= j1 < j2 < |ps| :: idx[j1] < idx[j2])
  {
    idx := ActiveOriginsOf(items, hostUserId);
  }

  // -----------------------------------------------------------------------------------------
  // `lambda_handler`

  /** `_json_response`: the status code, the JSON content type, and the payload `json.dumps`
      serialises (the serialisation itself is left out). */
  datatype LambdaReply = LambdaReply(statusCode: int, headers: map<string, string>, payload: Value)

  function JsonResponse(statusCode: int, payload: Value): LambdaReply {
    LambdaReply(statusCode, map["Content-Type" := "application/json"], payload)
  }

  function ParticipantValue(p: ActiveParticipant): Value {
    Obj(map["userEmail" := Str(p.userEmail), "participantStatus" := Str("ACTIVE"),
            "joinedAt" := p.joinedAt, "role" := p.role, "isHost" := Bool(p.isHost)])
  }

  /** The 200 payload: the id, the status (`ACTIVE` when the item has none), the host id, and
      the participants with their count. */
  function StatusPayload(meetingId: string, meeting: Dict, hostUserId: string, ps: seq<ActiveParticipant>): (v: Value)
    ensures v.Obj? && v.fields.Keys == {"meetingId", "status", "hostUserId", "participants", "participantsCount"}
    ensures v.fields["meetingId"] == Str(meetingId) && v.fields["hostUserId"] == Str(hostUserId)
    ensures v.fields["status"] == (if "status" in meeting then meeting["status"] else Str("ACTIVE"))
    ensures v.fields["participants"].Arr? && |v.fields["participants"].items| == |ps|
    ensures v.fields["participantsCount"] == Num(|ps|)
    ensures forall i | 0 <= i < |ps| :: v.fields["participants"].items[i] == ParticipantValue(ps[i])
  {
    Obj(map["meetingId" := Str(meetingId),
            "status" := PyGetOr(meeting, "status", Str("ACTIVE")),
            "hostUserId" := Str(hostUserId),
            "participants" := Arr(seq(|ps|, i requires 0 <= i < |ps| => ParticipantValue(ps[i]))),
            "participantsCount" := Num(|ps|)])
  }

  /** `lambda_handler`, given the meetings table lookup (`get_item(...).get("Item")`) and the
      participants of a meeting with every page of the query concatenated. `None` is a raised
      exception. The status codes: 400 exactly when no id is found, 404 when the id names no
      meeting, and otherwise a 200 whose payload carries the id, the status (`ACTIVE` when the
      item has none), the stripped host id, and the active participants with their count. */
  function Handler(event: Value, loads: JsonLoads, parseQs: QueryParser,
                   meetingItem: string -> Option<Dict>, participantItems: string -> seq<Dict>): (r: Option<LambdaReply>)
    ensures r.Some? ==> r.value.statusCode in {200, 400, 404}
    ensures r.Some? && r.value.statusCode != 200 ==>
              r.value.payload.Obj? && r.value.payload.fields.Keys == {"error"}
    ensures r.Some? ==> ExtractMeetingId(event, loads, parseQs).Some?
    ensures var id := ExtractMeetingId(event, loads, parseQs);
            id == Some("") ==> r == Some(JsonResponse(400, Obj(map["error" := Str("meetingId is required")])))
    ensures var id := ExtractMeetingId(event, loads, parseQs);
            id.Some? && id.value != [] && (meetingItem(id.value).None? || meetingItem(id.value) == Some(map[])) ==>
              r == Some(JsonResponse(404, Obj(map["error" := Str("Meeting not found")])))
    ensures r.Some? && r.value.statusCode == 400 ==> ExtractMeetingId(event, loads, parseQs) == Some("")
    ensures r.Some? && r.value.statusCode == 404 ==>
              var id := ExtractMeetingId(event, loads, parseQs).value;
              id != [] && (meetingItem(id).None? || meetingItem(id) == Some(map[]))
    ensures var id := ExtractMeetingId(event, loads, parseQs);
            id.Some? && id.value != [] && meetingItem(id.value).Some? && meetingItem(id.value).value != map[] ==>
              var meeting := meetingItem(id.value).value;
              var host := PyStripOr(PyGet(meeting, "hostUserId"));
              host.Some? && Active(participantItems(id.value), host.value).Some? ==>
                r == Some(JsonResponse(200, StatusPayload(id.value, meeting, host.value,
                                                          Active(participantItems(id.value), host.value).value)))
    ensures r.None? <==>
              var id := ExtractMeetingId(event, loads, parseQs);
              || id.None?
              || (id.value != [] && meetingItem(id.value).Some? && meetingItem(id.value).value != map[] &&
                  var host := PyStripOr(PyGet(meetingItem(id.value).value, "hostUserId"));
                  host.None? || Active(participantItems(id.value), host.value).None?)
    ensures r.Some? && r.value.statusCode == 200 ==>
              var id := ExtractMeetingId(event, loads, parseQs).value;
              && id != [] && meetingItem(id).Some? && meetingItem(id).value != map[]
              && var meeting := meetingItem(id).value;
              && PyStripOr(PyGet(meeting, "hostUserId")).Some?
              && var host := PyStripOr(PyGet(meeting, "hostUserId")).value;
              && Active(participantItems(id), host).Some?
              && r.value == JsonResponse(200, StatusPayload(id, meeting, host, Active(participantItems(id), host).value))
  {
    match ExtractMeetingId(event, loads, parseQs)
    case None => None
    case Some(meetingId) =>
      if meetingId == [] then Some(JsonResponse(400, Obj(map["error" := Str("meetingId is required")])))
      else
        match meetingItem(meetingId)
        case None => Some(JsonResponse(404, Obj(map["error" := Str("Meeting not found")])))
        case Some(meeting) =>
          if meeting == map[] then Some(JsonResponse(404, Obj(map["error" := Str("Meeting not found")])))
          else
            match PyStripOr(PyGet(meeting, "hostUserId"))
            case None => None
            case Some(hostUserId) =>
              match Active(participantItems(meetingId), hostUserId)
              case None => None
              case Some(ps) => Some(JsonResponse(200, StatusPayload(meetingId, meeting, hostUserId, ps)))
  }
}
