/** The dashboard page (src/pages/Dashboard.jsx): how a recording or note file name yields its
    meeting id and its display name, and the checks the create and join buttons make before
    and after calling the meeting API. */
module Dashboard {
  import opened Text
  import opened Dynamic
  import opened MeetApi
  import MeetingRoom

  // -----------------------------------------------------------------------------------------
  // File names

  /** The text after the last `.` (the whole name when there is none). */
  function LastDotPiece(s: string): (ext: string)
    ensures '.' !in ext && |ext| <= |s| && s[|s| - |ext|..] == ext
    ensures '.' in s ==> |ext| < |s| && s[|s| - |ext| - 1] == '.'
  {
    var parts := Split(s, '.');
    SplitLast(s, '.');
    SplitEndsAtSep(s, '.');
    parts[|parts| - 1]
  }

  /** A suffix the pattern `/\.[^/.]+$/` accepts after its dot. */
  predicate ExtensionLike(e: string) {
    e != [] && '.' !in e && '/' !in e
  }

  /** A suffix the pattern `/\.([a-zA-Z0-9]+)$/` accepts after its dot. */
  predicate AlnumExtension(e: string) {
    e != [] && forall i | 0 <= i < |e| :: IsAsciiAlnum(e[i])
  }

  /** `filename.replace(/\.[^/.]+$/, '')`: a final `.ext` whose characters include no `.` and no
      `/` is removed; any other name is left as it is. */
  function StripExtension(s: string): (r: string)
    ensures r != s ==> |r| < |s| && s == r + ['.'] + s[|r| + 1..] && ExtensionLike(s[|r| + 1..])
  {
    var ext := LastDotPiece(s);
    if '.' in s && ExtensionLike(ext) then
      assert s == s[..|s| - |ext| - 1] + ['.'] + ext;
      s[..|s| - |ext| - 1]
    else s
  }

  /** The converse: whenever the name is `a.e` with such an `e`, exactly `.e` is removed. */
  lemma StripExtensionOf(a: string, e: string)
    requires ExtensionLike(e)
    ensures StripExtension(a + ['.'] + e) == a
  {
    var s := a + ['.'] + e;
    assert LastDotPiece(s) == e by { LastPieceOf(a, '.', e); }
    assert s[..|a|] == a;
  }

  /** An extension the display name keeps: the `[a-zA-Z0-9]+` after the last dot, or `''`. */
  function FileExtension(s: string): (ext: string)
    ensures ext != [] ==> AlnumExtension(ext) && |ext| < |s| && s == s[..|s| - |ext| - 1] + ['.'] + ext
  {
    var last := LastDotPiece(s);
    if '.' in s && AlnumExtension(last) then
      assert s == s[..|s| - |last| - 1] + ['.'] + last;
      last
    else []
  }

  lemma FileExtensionOf(a: string, e: string)
    requires AlnumExtension(e)
    ensures FileExtension(a + ['.'] + e) == e
  {
    LastPieceOf(a, '.', e);
    assert '.' in a + ['.'] + e by { assert (a + ['.'] + e)[|a|] == '.'; }
  }

  /** `extractMeetingIdFromFileName`: the second `_`-separated field of the name without its
      extension, or `''` for an empty name or one with fewer than three fields. */
  function MeetingIdFromFileName(filename: string): (id: string)
    ensures filename == [] ==> id == []
    ensures '_' !in id
    ensures var parts := Split(StripExtension(filename), '_');
            id == (if filename == [] || |parts| < 3 then [] else parts[1])
  {
    if filename == [] then []
    else
      var parts := Split(StripExtension(filename), '_');
      SplitJoin(StripExtension(filename), '_');
      if |parts| < 3 then [] else parts[1]
  }

  /** The naming the back end uses, `<prefix>_<meetingId>_<stamp>.<ext>`, gives the meeting id
      back, and the display name is the id with that extension when it is alphanumeric. */
  lemma RecordingNameRoundTrip(prefix: string, meetingId: string, stamp: string, ext: string)
    requires '_' !in prefix && '_' !in meetingId && meetingId != []
    requires ExtensionLike(ext)
    ensures var filename := prefix + "_" + meetingId + "_" + stamp + "." + ext;
            && MeetingIdFromFileName(filename) == meetingId
            && DisplayFileName(filename) == (if AlnumExtension(ext) then meetingId + "." + ext else meetingId)
  {
    var base := prefix + "_" + meetingId + "_" + stamp;
    var filename := base + "." + ext;
    assert base + "." + ext == base + ['.'] + ext;
    StripExtensionOf(base, ext);
    assert base == prefix + ['_'] + (meetingId + ['_'] + stamp);
    SplitConcat(prefix, '_', meetingId + ['_'] + stamp);
    SplitConcat(meetingId, '_', stamp);
    NoSepSplit(prefix, '_');
    NoSepSplit(meetingId, '_');
    var parts := Split(base, '_');
    assert parts == [prefix] + ([meetingId] + Split(stamp, '_'));
    assert filename != [];
    if AlnumExtension(ext) {
      FileExtensionOf(base, ext);
    } else {
      FileExtensionNone(base, ext);
    }
  }

  /** A name whose final piece after `.` is not alphanumeric keeps no extension. */
  lemma FileExtensionNone(a: string, e: string)
    requires '.' !in e && !AlnumExtension(e)
    ensures FileExtension(a + ['.'] + e) == []
  {
    LastPieceOf(a, '.', e);
  }

  /** `formatDisplayFileName`: `-` for an empty name, the name itself when it yields no meeting
      id, otherwise the id followed by the alphanumeric extension when there is one. */
  function DisplayFileName(filename: string): (shown: string)
    ensures filename == [] ==> shown == "-"
    ensures filename != [] && MeetingIdFromFileName(filename) == [] ==> shown == filename
    ensures filename != [] && MeetingIdFromFileName(filename) != [] ==>
              shown == MeetingIdFromFileName(filename)
                       + (if FileExtension(filename) != [] then "." + FileExtension(filename) else "")
  {
    if filename == [] then "-"
    else
      var ext := FileExtension(filename);
      var meetingId := MeetingIdFromFileName(filename);
      if meetingId == [] then filename
      else if ext != [] then meetingId + "." + ext
      else meetingId
  }

  // -----------------------------------------------------------------------------------------
  // The create and join buttons

  const MissingIdentity := "User identity is missing. Please login again."
  const MissingMeetingId := "Create meeting succeeded but no meetingId was returned."
  const JoinNeedsId := "Meeting ID is required to join."
  const JoinNeedsEmail := "User email is missing from token. Please login again."

  /** `user?.email || ''` and `user?.userId || ''`. */
  function UserEmail(user: Value): Value { Or(Get(user, "email"), Str("")) }
  function UserIdOf(user: Value): Value { Or(Get(user, "userId"), Str("")) }

  /** What `handleCreateMeeting` does: the owner it asks the API to create a meeting for (if it
      gets that far), the error it leaves on the page, and the meeting id it shows in the modal. */
  datatype CreateOutcome = CreateOutcome(request: Option<Value>, apiError: Value, created: Option<Value>)

  /** `handleCreateMeeting`, given the reply `createMeeting(owner)` resolves to. */
  function HandleCreateMeeting(user: Value, create: Value -> ApiResponse): (o: CreateOutcome)
    ensures o.request.None? <==> !Truthy(UserEmail(user)) && !Truthy(UserIdOf(user))
    ensures o.request.None? ==> o.apiError == Str(MissingIdentity) && o.created.None?
    ensures o.request.Some? ==>
              && o.request.value == (if Truthy(UserEmail(user)) then UserEmail(user) else UserIdOf(user))
              && Truthy(o.request.value)
    ensures o.request.Some? && !create(o.request.value).ok ==>
              o.apiError == ExtractErrorMessage(create(o.request.value)) && o.created.None?
    ensures o.created.Some? <==>
              o.request.Some? && create(o.request.value).ok && Truthy(Get(create(o.request.value).data, "meetingId"))
    ensures o.created.Some? ==> o.created.value == Get(create(o.request.value).data, "meetingId")
    ensures o.request.Some? && create(o.request.value).ok && o.created.None? ==> o.apiError == Str(MissingMeetingId)
  {
    var email := UserEmail(user);
    var userId := UserIdOf(user);
    if !Truthy(email) && !Truthy(userId) then CreateOutcome(None, Str(MissingIdentity), None)
    else
      var owner := Or(email, userId);
      var response := create(owner);
      if !response.ok then CreateOutcome(Some(owner), ExtractErrorMessage(response), None)
      else
        var meetingId := Get(response.data, "meetingId");
        if !Truthy(meetingId) then CreateOutcome(Some(owner), Str(MissingMeetingId), None)
        else CreateOutcome(Some(owner), Str(""), Some(meetingId))
  }

  /** The modal opens exactly when the page shows no error. */
  lemma CreateErrorOrModal(user: Value, create: Value -> ApiResponse)
    ensures var o := HandleCreateMeeting(user, create);
            o.created.Some? <==> !Truthy(o.apiError)
  {
    var o := HandleCreateMeeting(user, create);
    if o.request.Some? && !create(o.request.value).ok {
      assert Truthy(ExtractErrorMessage(create(o.request.value)));
    }
  }

  /** What `handleJoinMeeting` does: the id and e-mail it sends to the API, the error it leaves,
      and the route it navigates to. */
  datatype JoinOutcome = JoinOutcome(request: Option<(string, Value)>, apiError: Value, navigate: Option<string>)

  /** `handleJoinMeeting`, given the typed room id and the reply `joinMeeting(id, email)` resolves to. */
  function HandleJoinMeeting(roomId: string, user: Value, join: (string, Value) -> ApiResponse): (o: JoinOutcome)
    ensures Trim(roomId) == [] ==> o == JoinOutcome(None, Str(JoinNeedsId), None)
    ensures Trim(roomId) != [] && !Truthy(UserEmail(user)) ==> o == JoinOutcome(None, Str(JoinNeedsEmail), None)
    ensures o.request.Some? <==> Trim(roomId) != [] && Truthy(UserEmail(user))
    ensures o.request.Some? ==> o.request.value == (Trim(roomId), UserEmail(user))
    ensures o.navigate.Some? <==> o.request.Some? && join(Trim(roomId), UserEmail(user)).ok
    ensures o.navigate.Some? ==> o.navigate.value == "/meeting/" + Trim(roomId)
    ensures o.request.Some? && o.navigate.None? ==> o.apiError == ExtractErrorMessage(join(Trim(roomId), UserEmail(user)))
  {
    var cleanMeetingId := Trim(roomId);
    if cleanMeetingId == [] then JoinOutcome(None, Str(JoinNeedsId), None)
    else
      var email := UserEmail(user);
      if !Truthy(email) then JoinOutcome(None, Str(JoinNeedsEmail), None)
      else
        var response := join(cleanMeetingId, email);
        if !response.ok then JoinOutcome(Some((cleanMeetingId, email)), ExtractErrorMessage(response), None)
        else JoinOutcome(Some((cleanMeetingId, email)), Str(""), Some("/meeting/" + cleanMeetingId))
  }

  /** The page navigates exactly when it shows no error. */
  lemma JoinErrorOrNavigate(roomId: string, user: Value, join: (string, Value) -> ApiResponse)
    ensures var o := HandleJoinMeeting(roomId, user, join);
            o.navigate.Some? <==> !Truthy(o.apiError)
  {
    var o := HandleJoinMeeting(roomId, user, join);
    if o.request.Some? && o.navigate.None? {
      assert Truthy(ExtractErrorMessage(join(Trim(roomId), UserEmail(user))));
    }
  }

  /** The route a successful join navigates to opens the meeting room on the trimmed id, when
      the id holds no `/`. */
  lemma JoinOpensRoom(roomId: string, user: Value, join: (string, Value) -> ApiResponse)
    requires '/' !in Trim(roomId)
    requires HandleJoinMeeting(roomId, user, join).navigate.Some?
    ensures MeetingRoom.RoomName(HandleJoinMeeting(roomId, user, join).navigate.value) == Trim(roomId)
  {
    MeetingRouteName(Trim(roomId));
  }

  /** The meeting room's name for the route `/meeting/<id>` is `id`. */
  lemma MeetingRouteName(id: string)
    requires '/' !in id
    ensures MeetingRoom.RoomName("/meeting/" + id) == id
  {
    var path := "/meeting/" + id;
    assert path == [] + ['/'] + ("meeting" + ['/'] + id);
    SplitConcat([], '/', "meeting" + ['/'] + id);
    SplitConcat("meeting", '/', id);
    NoSepSplit(id, '/');
    NoSepSplit("meeting", '/');
    assert Split([], '/') == [[]];
  }
}
