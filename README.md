# CST Meet: a verified model of the meeting client's core

CST Meet is a browser video-meeting client. A meeting room opens one WebRTC peer session
for each remote participant. The sessions are negotiated over a WebSocket signaling
channel, and the participant list comes from a presence poll of a REST API. This project
models in Dafny the parts of the client that make decisions, and proves what they promise:

- **The meeting-room engine** (`MeetingRoom.Engine`, a class). Its fields are the
  engine's in-place state:
  - the peer-session registry, one session per normalised e-mail key;
  - the per-key buffers of ICE candidates that arrived early;
  - the queue of outbound signals held back while the socket is not open;
  - the reconnect timers, stored as key → delay;
  - the participant list, the local toggles, the socket flags and the status line.

  Each event handler is a method. Its `modifies` clause names the fields it may change,
  and its `ensures` states the new value of each of them. Where a handler dispatches to
  others, the post-state of each is a named predicate over the old values (`OfferHandled`,
  `AnswerHandled`, `IceHandled`, `ShareStarted`, `StatusApplied`), ensured by both. The
  invariant `Valid()` is preserved by every handler. It says that session keys are
  normalised, non-empty and not the local user's; that candidate-buffer keys are non-empty
  (a candidate from any sender is buffered, the local key included, as the source does);
  that every timer belongs to a session; that no signal waits in the queue while the socket
  is open; and that participant keys are non-empty, distinct and not the local user's.
- **Peer identity** (`PeerIdentity`): the key normalisation `safeId`, the offer tie-break
  `shouldInitiateOffer`, and the signaling URL builder `normalizeWsUrl`.
- **Signal routing** (`Signals`): which inbound messages the room accepts, and how the
  envelopes it sends look.
- **The participant list** (`Roster`): add-or-replace, remove, a remote state change, and
  the rebuild from the status API (deduplicate, then merge with streams kept).
- **The API client** (`MeetApi`): response normalisation for Lambda proxy envelopes, the
  error wrapper, the 403 fallback of leave, and error-message extraction.
- **The meeting-status Lambda** (`StatusLambda`): event-body parsing, meeting-id
  precedence, the active-participant filter and its deduplication, and the status codes
  of the handler.
- **The dashboard** (`Dashboard`):
  - the recording/note file name → meeting id parser;
  - the file-name display;
  - the validation branches of creating and joining a meeting.
- **The assistant widget** (`ChatWidget`):
  - the keyword fallback reply;
  - line normalisation;
  - reply sanitising;
  - the classification of reply lines into numbered, bulleted and plain lists.
- **Authentication context** (`MeetAuth`):
  - JWT payload decoding (base64url → base64 and padding, as in section 5 of RFC 4648);
  - the display-name fallback chain;
  - the derivation of the tokens and the user.
- **The API test console** (`TestUiApi`): its request helper and its message formatting.

`Dynamic` models JavaScript and Python values and their truthiness. `Text` models the
platform's string operations (trim, ASCII case mapping, split and join,
`encodeURIComponent`, number formatting).

Platform and I/O results are parameters of the members that need them:

- `JSON.parse`, `json.loads`, `atob`, `JSON.stringify` and `parse_qs` are function
  parameters returning an `Option`;
- the WebRTC results are the parameters `descOk`, `accepts`, `offer` and `answer`;
- fetch outcomes are the `Fetch` datatype, and API replies are `ApiResponse` values;
- the database lookups of the Lambda are function parameters.

## Model

| member | source | states |
|---|---|---|
| PeerIdentity.SafeIdIsLowerTrim | src/pages/MeetingRoom.jsx:18-20 | the key of a value is its trimmed text in lower case |
| PeerIdentity.SafeIdIdempotent | src/pages/MeetingRoom.jsx:18-20 | normalising a key again leaves it unchanged |
| PeerIdentity.SafeIdOfTrim | src/pages/MeetingRoom.jsx:18-20 | surrounding white space never changes a key |
| PeerIdentity.SafeIdEmpty | src/pages/MeetingRoom.jsx:18-20 | a key is empty exactly when the value is blank |
| PeerIdentity.SafeIdShape | src/pages/MeetingRoom.jsx:18-20 | a key is never longer than its value, has no white space at either end and no upper-case letter |
| PeerIdentity.LexLessIrreflexive | src/pages/MeetingRoom.jsx:29-31 | no string is below itself in the code-point order |
| PeerIdentity.LexLessAsymmetric | src/pages/MeetingRoom.jsx:29-31 | two strings are never below each other |
| PeerIdentity.LexLessTransitive | src/pages/MeetingRoom.jsx:29-31 | the string order is transitive |
| PeerIdentity.LexLessTotal | src/pages/MeetingRoom.jsx:29-31 | of two different strings one is below the other |
| PeerIdentity.InitiatorTieBreak | src/pages/MeetingRoom.jsx:29-31 | for two different keys exactly one side initiates, so swapping the arguments swaps the result; for equal keys neither side does |
| PeerIdentity.InitiatorTransitive | src/pages/MeetingRoom.jsx:29-31 | the initiator relation is a strict order, so any group agrees on who calls whom |
| PeerIdentity.ShouldInitiateOffer | src/pages/MeetingRoom.jsx:29-31 | the local side only ever initiates towards a non-empty key different from its own |
| PeerIdentity.NormalizeWsUrl | src/pages/MeetingRoom.jsx:22-27 | an empty base gives no URL; otherwise the URL starts with the trimmed base and adds to it |
| PeerIdentity.WsUrlParameters | src/pages/MeetingRoom.jsx:22-27 | an empty base URL gives no URL; otherwise the trimmed base is followed by `?` or `&` and exactly the two encoded parameters `meetingId` and `email` |
| PeerIdentity.WithQueryShape | src/pages/MeetingRoom.jsx:22-27 | the base is kept as a prefix, `&` continues an existing query, and the added query splits into exactly the two parameters |
| PeerIdentity.WsQuerySplit | src/pages/MeetingRoom.jsx:22-27 | the added query splits on `&` into the meeting-id and e-mail parameters, whatever characters they hold |
| Signals.ParseTypeName | src/pages/MeetingRoom.jsx:419-420 | only the four type names `offer`, `answer`, `ice` and `state` are accepted, each mapped to its own kind |
| Signals.Addressed | src/pages/MeetingRoom.jsx:422-426 | an accepted message carries the sender that was checked |
| Signals.RouteSenderKey | src/pages/MeetingRoom.jsx:419-428 | every accepted message has a non-empty sender key |
| Signals.RouteAcceptsEnvelope | src/pages/MeetingRoom.jsx:419-428 | an envelope the room sends, with a sender and a payload and addressed to nobody or to the receiver, is accepted with its kind, trimmed sender and payload |
| Signals.RouteDropsMisaddressed | src/pages/MeetingRoom.jsx:426 | an envelope addressed to another key is dropped |
| Signals.EnvelopeFields | src/pages/MeetingRoom.jsx:305-314 | an envelope carries its type name (which parses back to its kind), its sender, payload and target, and no `toEmail` |
| Signals.RouteAccepts | src/pages/MeetingRoom.jsx:419-428 | a message with a known type, a sender, and an empty target or one normalising to the local key is accepted |
| Signals.RouteDropsUnknownType | src/pages/MeetingRoom.jsx:419-420 | a message whose lower-cased type is none of the four is dropped |
| Signals.RouteDropsAnonymous | src/pages/MeetingRoom.jsx:422-425 | a message with neither `from` nor `fromEmail` is dropped |
| Signals.Route | src/pages/MeetingRoom.jsx:419-428 | an accepted message has a non-empty sender and carries the payload its kind reads |
| Signals.PayloadOf | src/pages/MeetingRoom.jsx:435-495 | a truthy `payload` wins, then a truthy `data`, then the kind's own field (`offer`, `answer`, `candidate`), and `{}` for a state message |
| Roster.WithoutKey | src/pages/MeetingRoom.jsx:104-109 | removal keeps exactly the records under other keys, and never lengthens the list |
| Roster.WithoutKeyDistinct | src/pages/MeetingRoom.jsx:104-109 | removal keeps the keys distinct |
| Roster.WithoutKeyAbsent | src/pages/MeetingRoom.jsx:104-109 | removing a key that is not present changes nothing |
| Roster.WithoutKeyWellFormed | src/pages/MeetingRoom.jsx:104-109 | removal preserves the list invariant |
| Roster.Upsert | src/pages/MeetingRoom.jsx:94-102 | the new record ends the list, and the other records are the old ones under other keys |
| Roster.UpsertWellFormed | src/pages/MeetingRoom.jsx:94-102 | adding a record under a non-empty foreign key preserves the list invariant, and no other record has that key |
| Roster.ApplyState | src/pages/MeetingRoom.jsx:494-508 | a state change keeps the list's length |
| Roster.ApplyStateEffect | src/pages/MeetingRoom.jsx:494-508 | only the sender's record changes: `isMuted` is `!!mute`, `cameraOn` is `camera !== false`, `isRecording` is `!!record`; key and stream are kept |
| Roster.ApplyStateWellFormed | src/pages/MeetingRoom.jsx:494-508 | a state change preserves the list invariant |
| Roster.ApiEntry | src/pages/MeetingRoom.jsx:646-661 | an API record is keyed by its normalised, non-empty e-mail, carries no stream, and uses the e-mail as its id |
| Roster.KeyOf | src/pages/MeetingRoom.jsx:95 | a record's key is its e-mail, or its id when the e-mail is empty, trimmed and in lower case |
| Roster.Dedupe | src/pages/MeetingRoom.jsx:644-663 | the rebuild never lengthens the list, and no record has the local key or an empty one |
| Roster.BuildDeduped | src/pages/MeetingRoom.jsx:644-663 | the loop computes the deduplicated list |
| Roster.DedupeAbortsFromPrefix | src/pages/MeetingRoom.jsx:646-661 | an element that throws aborts the whole rebuild |
| Roster.DedupeWellFormed | src/pages/MeetingRoom.jsx:645-663 | the deduplicated keys are distinct, non-empty and not the local user's |
| Roster.DedupeFresh | src/pages/MeetingRoom.jsx:653-661 | every deduplicated record has no stream yet and its e-mail as id |
| Roster.OriginsOf | src/pages/MeetingRoom.jsx:645-663 | each deduplicated record is the first API element under its key, in API order |
| Roster.OriginsExtend | src/pages/MeetingRoom.jsx:645-663 | the origin of each record stays valid as later elements are read |
| Roster.OriginsAdd | src/pages/MeetingRoom.jsx:645-663 | a new record takes its origin from the element that introduced its key |
| Roster.DedupeOrigins | src/pages/MeetingRoom.jsx:645-663 | the first occurrence of each key wins, and records keep API order |
| Roster.DedupeComplete | src/pages/MeetingRoom.jsx:645-663 | every API element with a foreign, non-blank key is represented |
| Roster.LastWithKey | src/pages/MeetingRoom.jsx:665 | the lookup of the previous list finds a record with the key exactly when one is present |
| Roster.LastWithKeyUnique | src/pages/MeetingRoom.jsx:665 | with distinct keys the lookup finds that key's record |
| Roster.MergeOne | src/pages/MeetingRoom.jsx:666-674 | a merged record is the incoming one except for its stream; a new key keeps the incoming record; a known key takes the stream of a previous record with that key |
| Roster.Merge | src/pages/MeetingRoom.jsx:664-675 | the merge loop produces one merged record per deduplicated one, in order |
| Roster.MergeEffect | src/pages/MeetingRoom.jsx:664-675 | the merged list has exactly the deduplicated keys in their order; each record is the incoming one with the previous stream of its key kept (none for a new key); the list stays well formed |
| MeetingRoom.AddIceCalls | src/pages/MeetingRoom.jsx:179-193 | the drain applies the candidates that succeed, and only those |
| MeetingRoom.SessionsKeyedUpdate | src/pages/MeetingRoom.jsx:319-409 | updating a session in place keeps the registry's keys and its invariant |
| MeetingRoom.Offered | src/pages/MeetingRoom.jsx:287-302 | an offer leaves the session with a pending local offer and keeps its peer, remote description and connection |
| MeetingRoom.OfferedCalls | src/pages/MeetingRoom.jsx:287-302 | an offer keeps the earlier calls, rolls back exactly when an offer was pending and sets the local offer last |
| MeetingRoom.Answered | src/pages/MeetingRoom.jsx:436-466 | an answer leaves the session stable with a remote description and keeps its peer and connection |
| MeetingRoom.AnsweredCalls | src/pages/MeetingRoom.jsx:436-466 | the calls of an answer, in order: rollback of a pending offer, the remote offer, the buffered candidates, the local answer |
| MeetingRoom.Flip | src/pages/MeetingRoom.jsx:735-741 | a camera, mute or record toggle flips exactly that flag |
| MeetingRoom.FlipInvolution | src/pages/MeetingRoom.jsx:735-741 | every toggle changes the controls, and toggling twice restores them |
| MeetingRoom.RoomNameLastSegment | src/pages/MeetingRoom.jsx:62 | the room name is the path's last segment: it holds no `/` and ends the path; a path without `/` is its own name |
| MeetingRoom.RoomName | src/pages/MeetingRoom.jsx:62 | the room name holds no `/` and is never longer than the path |
| MeetingRoom.StatePayload | src/pages/MeetingRoom.jsx:165-177 | the broadcast holds exactly `mute`, `camera` and `record`, and each reads back as the local flag |
| MeetingRoom.RosterOf | src/pages/MeetingRoom.jsx:637-663 | no roster comes back when the status or the host id is truthy but not a string (its `toUpperCase` or `trim` throws); otherwise the roster is the deduplication of the API list, well formed and no longer than it |
| MeetingRoom.PeerRecord | src/pages/MeetingRoom.jsx:356-363 | a tile built from a signal or track is keyed by the remote e-mail |
| MeetingRoom.OfferTargets | src/pages/MeetingRoom.jsx:677-683 | the offer loop picks at most one target per deduplicated record |
| MeetingRoom.OfferTargetsStep | src/pages/MeetingRoom.jsx:677-683 | a record is a target exactly when it has no session and the local side initiates |
| MeetingRoom.KeysApart | src/pages/MeetingRoom.jsx:677-683 | the keys of different deduplicated records differ, so no offer makes a later record look connected |
| MeetingRoom.OfferTargetsKeys | src/pages/MeetingRoom.jsx:677-683 | a key that had a session, or that no record has, is never offered |
| MeetingRoom.OpenSessionsSnoc | src/pages/MeetingRoom.jsx:278-317 | each offer in turn registers its target's session |
| MeetingRoom.OpenSessionsHas | src/pages/MeetingRoom.jsx:677-683 | after the loop a key has a session exactly when it had one before or was a target |
| MeetingRoom.OpenSessionsEffect | src/pages/MeetingRoom.jsx:677-683 | sessions of non-targets are untouched, and every target's session is keyed by its e-mail |
| MeetingRoom.StatusOf | src/pages/MeetingRoom.jsx:637 | a missing status reads as `UNKNOWN` |
| MeetingRoom.InitiatorNeedsKey | src/pages/MeetingRoom.jsx:29-31 | no offer is made to an empty key or to the local key |
| MeetingRoom.Engine.constructor | src/pages/MeetingRoom.jsx:9-16 | a new room has empty registries, buffers, timers, queue and list, the initial controls and `Checking...` as its status |
| MeetingRoom.Engine.SessionKeyNormal | src/pages/MeetingRoom.jsx:319-325 | every registry key is already normalised |
| MeetingRoom.Engine.ClearReconnectTimer | src/pages/MeetingRoom.jsx:111-120 | the key's timer is cancelled and no other timer changes |
| MeetingRoom.Engine.ClearPeerConnection | src/pages/MeetingRoom.jsx:122-142 | the key loses its session, its buffer and its timer, and nothing else changes |
| MeetingRoom.Engine.RemoveParticipant | src/pages/MeetingRoom.jsx:104-109 | the key loses its tile and its buffer |
| MeetingRoom.Engine.DropPeer | src/pages/MeetingRoom.jsx:371-372 | the key loses its session, buffer, timer and tile, and nothing else changes |
| MeetingRoom.Engine.AddOrUpdateParticipant | src/pages/MeetingRoom.jsx:94-102 | a record under an empty key or the local key is ignored; any other replaces the record under its key |
| MeetingRoom.Engine.FlushPendingSignals | src/pages/MeetingRoom.jsx:144-154 | with the socket open the whole queue is sent in enqueue order and left empty; with it closed nothing changes |
| MeetingRoom.Engine.SendSignal | src/pages/MeetingRoom.jsx:156-163 | an open socket sends the message; otherwise it joins the end of the queue; either way the message order is kept |
| MeetingRoom.Engine.SendParticipantState | src/pages/MeetingRoom.jsx:165-177 | the local mute, camera and record flags are sent as a state signal to everyone |
| MeetingRoom.Engine.FlushPendingIceCandidates | src/pages/MeetingRoom.jsx:179-193 | the key's buffer is applied in arrival order once, a failing candidate is skipped, and the buffer is left empty |
| MeetingRoom.Engine.QueueIceCandidate | src/pages/MeetingRoom.jsx:195-200 | the candidate joins the end of the key's buffer |
| MeetingRoom.Engine.CreatePeerConnection | src/pages/MeetingRoom.jsx:319-325 | it succeeds exactly for a non-empty foreign key; a second call leaves the registry as it is; a new key gets a fresh session |
| MeetingRoom.Engine.ScheduleReconnect | src/pages/MeetingRoom.jsx:366-377 | a key holds one timer, the newest |
| MeetingRoom.Engine.OnConnectionStateChange | src/pages/MeetingRoom.jsx:379-399 | `connected` clears the timer; `disconnected` and `failed` schedule with 3500 and 800 ms; `closed` tears the key down at once; an unknown key changes nothing |
| MeetingRoom.Engine.OnIceConnectionStateChange | src/pages/MeetingRoom.jsx:401-405 | ICE `failed` schedules a reconnect after 600 ms; anything else changes nothing |
| MeetingRoom.Engine.OnLocalIceCandidate | src/pages/MeetingRoom.jsx:336-347 | a local candidate is signalled to the session's remote e-mail; an empty one is not |
| MeetingRoom.Engine.OnTrack | src/pages/MeetingRoom.jsx:349-364 | a remote stream replaces the sender's tile with one showing that stream |
| MeetingRoom.Engine.SendOfferTo | src/pages/MeetingRoom.jsx:278-317 | an offer goes out only when the socket is open and the local side initiates; a pending offer is rolled back first; timers are untouched |
| MeetingRoom.Engine.OnReconnectTimer | src/pages/MeetingRoom.jsx:369-376 | a due timer tears the key down and, when the local side initiates, re-offers on a fresh session |
| MeetingRoom.Engine.HandleSignalMessage | src/pages/MeetingRoom.jsx:411-514 | an unparsable or misrouted message changes nothing; a state message changes only the sender's tile; an offer, answer or ice message leaves exactly the state its handler states (`OfferHandled`, `AnswerHandled`, `IceHandled`), and only an offer sends anything |
| MeetingRoom.Engine.HandleOffer | src/pages/MeetingRoom.jsx:431-468 | `OfferHandled`: an offer from a foreign key is answered: a pending local offer is rolled back, the buffer is drained, the answer is sent on an open socket or queued, and a tile added; a failure sets the negotiation error |
| MeetingRoom.Engine.AcceptOffer | src/pages/MeetingRoom.jsx:436-466 | the answer path on a registered session, with the buffer drained once and the answer sent on an open socket or queued after everything already outbound |
| MeetingRoom.Engine.HandleAnswer | src/pages/MeetingRoom.jsx:470-479 | an answer with no session or no payload is ignored; otherwise the remote description is set and the buffer drained, whatever the session's phase; a description the browser refuses sets the negotiation error |
| MeetingRoom.Engine.HandleIce | src/pages/MeetingRoom.jsx:481-492 | a candidate is buffered while there is no session or no remote description; otherwise it is applied, and a failing one sets the negotiation error |
| MeetingRoom.Engine.OfferSignals | src/pages/MeetingRoom.jsx:305-314 | one offer signal per target, in target order |
| MeetingRoom.Engine.OfferSignalsSnoc | src/pages/MeetingRoom.jsx:677-683 | each further target adds its offer at the end |
| MeetingRoom.Engine.Connect | src/pages/MeetingRoom.jsx:519-528 | without a signaling URL the room reports the error; otherwise a new socket is opened on the normalised URL |
| MeetingRoom.Engine.OnSocketOpen | src/pages/MeetingRoom.jsx:530-535 | opening the live socket clears the error, sends the queue in order and then the local state |
| MeetingRoom.Engine.OnSocketError | src/pages/MeetingRoom.jsx:552-557 | an error on the live socket of a mounted room not leaving reports that it is reconnecting |
| MeetingRoom.Engine.OnSocketClose | src/pages/MeetingRoom.jsx:539-550 | closing the live socket of a mounted room not leaving schedules a reconnect |
| MeetingRoom.Engine.OnSocketReconnectTimer | src/pages/MeetingRoom.jsx:539-550 | a due socket reconnect opens a new socket on the normalised URL and keeps the status line; without a URL it shows the missing-URL error and the socket fields stay as they were |
| MeetingRoom.Engine.OnMediaResult | src/pages/MeetingRoom.jsx:560-583 | without a room or an e-mail nothing happens; refused media blocks the room; granted media readies the camera and connects, keeping the status line, or without a URL shows the missing-URL error and leaves the socket fields as they were |
| MeetingRoom.Engine.ClearAllPeerConnections | src/pages/MeetingRoom.jsx:599-602 | every session and timer is gone, and only the buffers of keys without a session survive |
| MeetingRoom.Engine.TearDown | src/pages/MeetingRoom.jsx:585-620 | cleanup leaves no session, buffer, timer, queued signal, tile, socket or screen share |
| MeetingRoom.Engine.Unmount | src/pages/MeetingRoom.jsx:585-620 | unmounting tears everything down and marks the room unmounted |
| MeetingRoom.Engine.RetryMedia | src/pages/MeetingRoom.jsx:780-783 | enabling media clears the error and restarts from an empty engine |
| MeetingRoom.Engine.OfferMissingPeers | src/pages/MeetingRoom.jsx:677-683 | with the socket open, exactly the records with no session for which the local side initiates are offered, in list order |
| MeetingRoom.Engine.OfferNext | src/pages/MeetingRoom.jsx:677-683 | one step of the offer loop keeps its progress invariant |
| MeetingRoom.Engine.OfferToNewPeer | src/pages/MeetingRoom.jsx:278-317 | an offer to a key without a session registers it and sends the offer when the description is set |
| MeetingRoom.Engine.SyncMeetingStatus | src/pages/MeetingRoom.jsx:626-688 | a failed poll reports its error and changes nothing else; a successful one sets status, host and roster, offers new peers and leaves on `EXPIRED` |
| MeetingRoom.Engine.ApplyStatusData | src/pages/MeetingRoom.jsx:637-687 | the successful poll's data is applied as described |
| MeetingRoom.Engine.ApplyRoster | src/pages/MeetingRoom.jsx:664-687 | the tiles become the merged roster; new peers are offered; an expired meeting schedules the exit |
| MeetingRoom.Engine.StopScreenShare | src/pages/MeetingRoom.jsx:217-243 | sharing stops, and the control is cleared only when sharing was on |
| MeetingRoom.Engine.StartScreenShare | src/pages/MeetingRoom.jsx:245-276 | `ShareStarted`: sharing needs the camera ready; a refused capture reports an error; a capture without a video track changes nothing; a granted one turns sharing on and clears the error |
| MeetingRoom.Engine.OnDisplayEnded | src/pages/MeetingRoom.jsx:256-258 | the end of the captured display stops sharing and clears the control (the intended behaviour; see Findings) |
| MeetingRoom.Engine.OnDisplayEndedAsWritten | src/pages/MeetingRoom.jsx:256-258 | the callback as written stops sharing only when the share's own render saw sharing on, else changes nothing |
| MeetingRoom.Engine.EndedShareStaysOnAsWritten | src/pages/MeetingRoom.jsx:217-276 | as written, a share started from the control and ended by the browser is still shown as on |
| MeetingRoom.Engine.EndedShareStops | src/pages/MeetingRoom.jsx:217-276 | with the callback reading the current state, the same sequence stops sharing and clears the control |
| MeetingRoom.Engine.HandleToggle | src/pages/MeetingRoom.jsx:708-742 | screen share stops sharing (status line kept) or starts it with every outcome of `ShareStarted`; any other key flips its flag; theme sets the page theme; mute, camera and record send or queue the new state |
| MeetingRoom.Engine.BeginLeave | src/pages/MeetingRoom.jsx:744-766 | an unconfirmed leave changes nothing; a confirmed one stops sharing, drops every session and timer and the buffers of those sessions (other buffers keep their contents), releases the camera and closes an open socket |
| MeetingRoom.Engine.FinishLeave | src/pages/MeetingRoom.jsx:768-777 | a refused leave reports its error and stays in the room; an accepted one exits |
| MeetApi.TryParseJson | src/services/meetApi.js:3-10 | empty and unparsable text give `null`; non-empty text the parser accepts gives exactly the parsed value |
| MeetApi.NestedBody | src/services/meetApi.js:15-16 | an empty or unparsable string body is kept as the string; a non-empty one the parser accepts gives the parsed value, unless that is `null` or `undefined`, when the string is kept; a body that is not a string is kept |
| MeetApi.NormalizeResponse | src/services/meetApi.js:12-32 | a numeric nested `statusCode` replaces the HTTP status and its string body becomes the raw text; `ok` holds exactly for 200–299 |
| MeetApi.Request | src/services/meetApi.js:41-52 | a thrown request gives `ok: false`, status 0 and `data.error` equal to the error's message when it is truthy, else `Network error`; a reply is normalised |
| MeetApi.LeaveMeeting | src/services/meetApi.js:76-80 | the GET fallback is used exactly when the POST was refused with status 403 |
| MeetApi.LeaveFallbackQuery | src/services/meetApi.js:79 | the fallback path carries only the meeting id as its query |
| MeetApi.LeaveFallbackPath | src/services/meetApi.js:79 | the fallback path holds no `&` and no `#`, whatever the meeting id |
| MeetApi.ExtractErrorMessage | src/services/meetApi.js:86-91 | the message is never empty: no data, then string data, then `error`, then `message`, then the status text |
| StatusLambda.ParseBody | api-test-ui/meetlite_getMeetingStatus.py:20-44 | `_parse_body` raises exactly on a truthy event that is not a dict; a falsy event, a missing body or a body that is neither a string nor a dict gives `{}` |
| StatusLambda.ParseBodyEmpty | api-test-ui/meetlite_getMeetingStatus.py:20-44 | a missing, blank or unparsable body gives `{}`, and so does a body that decodes to something other than a dict |
| StatusLambda.ParseBodyBadNested | api-test-ui/meetlite_getMeetingStatus.py:36-42 | a nested `body` string that does not decode, or decodes to something other than a dict, gives `{}` |
| StatusLambda.ParseBodyUnwrapsOnce | api-test-ui/meetlite_getMeetingStatus.py:36-42 | one nested string `body` level is unwrapped |
| StatusLambda.ParseBodyPlain | api-test-ui/meetlite_getMeetingStatus.py:20-44 | a dict without a string `body` is returned as it is |
| StatusLambda.BodyOf | api-test-ui/meetlite_getMeetingStatus.py:27-44 | a string body is stripped and decoded, blank or undecodable giving `{}`; a dict is unwrapped; any other body gives `{}` |
| StatusLambda.Unwrap | api-test-ui/meetlite_getMeetingStatus.py:36-44 | a value that is not a dict gives `{}`; a dict without a string `body` is itself; a string `body` is replaced by the dict it decodes to, else `{}` |
| StatusLambda.ExtractMeetingId | api-test-ui/meetlite_getMeetingStatus.py:47-83 | a truthy event that is not a dict raises; a falsy one gives `""`; a found id is empty or one of the six places |
| StatusLambda.ExtractIsFirstNonBlank | api-test-ui/meetlite_getMeetingStatus.py:47-83 | the meeting id is the first non-blank of the six places in their order |
| StatusLambda.FirstNonBlankPicks | api-test-ui/meetlite_getMeetingStatus.py:47-83 | the first place that is non-blank (or raises) decides |
| StatusLambda.FirstNonBlankAllBlank | api-test-ui/meetlite_getMeetingStatus.py:83 | all places blank gives `""` |
| StatusLambda.MeetingIdPrecedence | api-test-ui/meetlite_getMeetingStatus.py:47-83 | body, then query string, then multi-value query, then raw query, then `params.querystring`, then path parameters |
| StatusLambda.MeetingIdStripped | api-test-ui/meetlite_getMeetingStatus.py:47-83 | the extracted id carries no surrounding white space |
| StatusLambda.FirstNonBlankKeeps | api-test-ui/meetlite_getMeetingStatus.py:47-83 | the chosen id is one of the stripped values |
| StatusLambda.ActiveRecord | api-test-ui/meetlite_getMeetingStatus.py:116-124 | a participant is host exactly when its e-mail equals a non-empty host id ignoring case; a host gets role `ADMIN`, any other its own role or `PARTICIPANT`; the entry carries the item's e-mail and `joinedAt` |
| StatusLambda.IsActive | api-test-ui/meetlite_getMeetingStatus.py:103-105 | an item is active when it has no `participantStatus` or it is `ACTIVE` |
| StatusLambda.Eligible | api-test-ui/meetlite_getMeetingStatus.py:103-109 | a listed item is active and its e-mail is a string that strips to a non-empty text |
| StatusLambda.Active | api-test-ui/meetlite_getMeetingStatus.py:99-127 | the list is never longer than the items, and every e-mail in it is stripped and non-empty |
| StatusLambda.GetActiveParticipants | api-test-ui/meetlite_getMeetingStatus.py:99-127 | the loop computes the active list |
| StatusLambda.ActiveRaises | api-test-ui/meetlite_getMeetingStatus.py:99-114 | an item whose e-mail cannot be stripped aborts the whole list |
| StatusLambda.ActiveDistinct | api-test-ui/meetlite_getMeetingStatus.py:99-114 | no two listed participants share their lower-case e-mail |
| StatusLambda.ActiveComplete | api-test-ui/meetlite_getMeetingStatus.py:99-114 | every active item with a non-blank e-mail is represented |
| StatusLambda.ActiveOriginsOf | api-test-ui/meetlite_getMeetingStatus.py:99-127 | each listed participant comes from the first eligible item with its e-mail, in item order |
| StatusLambda.ActiveOriginsExtend | api-test-ui/meetlite_getMeetingStatus.py:99-127 | the origins stay valid as later items are read |
| StatusLambda.ActiveOriginsAdd | api-test-ui/meetlite_getMeetingStatus.py:99-127 | a newly listed participant originates in the item that introduced its e-mail |
| StatusLambda.ActiveOriginsSnoc | api-test-ui/meetlite_getMeetingStatus.py:99-127 | appending the participant of a first-seen item keeps the origins valid |
| StatusLambda.ActiveFirstWins | api-test-ui/meetlite_getMeetingStatus.py:99-127 | non-active and blank items are skipped, the first item per e-mail wins, and input order is kept |
| StatusLambda.StatusPayload | api-test-ui/meetlite_getMeetingStatus.py:144-152 | the 200 body has the five fields, `status` defaulting to `ACTIVE` and `participantsCount` equal to the number of participants |
| StatusLambda.Handler | api-test-ui/meetlite_getMeetingStatus.py:130-152 | a reply is 200, 400 or 404, each with an `error` field only for 400 and 404; 400 exactly when the extracted id is empty; 404 when the id is non-empty and the meeting is missing or empty; a found meeting whose host and participants read without raising gets 200 with the status payload; there is no reply (an exception) exactly when extraction, the host id or the participant list raises |
| Dashboard.LastDotPiece | src/pages/Dashboard.jsx:23 | the text after the last `.` ends the name and holds no `.` |
| Dashboard.StripExtension | src/pages/Dashboard.jsx:23 | only a final `.ext` with no `.` or `/` in it is removed |
| Dashboard.StripExtensionOf | src/pages/Dashboard.jsx:23 | such an extension is removed from any name |
| Dashboard.FileExtension | src/pages/Dashboard.jsx:31 | a shown extension is alphanumeric and follows the last `.` |
| Dashboard.FileExtensionOf | src/pages/Dashboard.jsx:31 | an alphanumeric final extension is found |
| Dashboard.FileExtensionNone | src/pages/Dashboard.jsx:31 | a final extension that is not alphanumeric is not shown |
| Dashboard.MeetingIdFromFileName | src/pages/Dashboard.jsx:21-27 | empty names and names with fewer than three `_` parts give `""`; otherwise the second part of the name without its extension |
| Dashboard.RecordingNameRoundTrip | src/pages/Dashboard.jsx:21-36 | a name built as `prefix_meetingId_stamp.ext` gives back the meeting id, and is shown as `meetingId.ext` or `meetingId` |
| Dashboard.DisplayFileName | src/pages/Dashboard.jsx:29-36 | `-` for an empty name, the name itself when it has no meeting id, else the id with its alphanumeric extension |
| Dashboard.HandleCreateMeeting | src/pages/Dashboard.jsx:161-187 | with neither e-mail nor user id nothing is requested; a refusal shows the API's error; a reply without a meeting id is an error; otherwise the modal shows the new id |
| Dashboard.CreateErrorOrModal | src/pages/Dashboard.jsx:161-187 | creating ends either with a modal or with an error, never both |
| Dashboard.HandleJoinMeeting | src/pages/Dashboard.jsx:189-213 | a blank id or a missing e-mail sets its error and joins nothing; a refusal shows the API's error; success opens the trimmed room |
| Dashboard.JoinErrorOrNavigate | src/pages/Dashboard.jsx:189-213 | joining ends either in the room or with an error, never both |
| Dashboard.JoinOpensRoom | src/pages/Dashboard.jsx:212 | the room a successful join opens is the meeting that was asked for |
| Dashboard.MeetingRouteName | src/pages/Dashboard.jsx:212 | the room name of `/meeting/<id>` is the id |
| ChatWidget.FallbackReply | src/components/ChatWidget.jsx:33-47 | a signed-out user always gets the sign-in reply |
| ChatWidget.FirstTopicStep | src/components/ChatWidget.jsx:37-46 | the keyword table is read one topic at a time, in order |
| ChatWidget.FirstTopicPicks | src/components/ChatWidget.jsx:37-46 | the first topic whose words are mentioned answers |
| ChatWidget.FirstTopicDefault | src/components/ChatWidget.jsx:46 | no topic mentioned gives the default |
| ChatWidget.FallbackIsFirstTopic | src/components/ChatWidget.jsx:33-47 | the reply of a signed-in user is the first matching topic of create, join, waiting/video, mute/camera, note, record, else the default |
| ChatWidget.MentionsOne | src/components/ChatWidget.jsx:37-46 | a one-word topic is mentioned exactly when the text contains the word |
| ChatWidget.MentionsTwo | src/components/ChatWidget.jsx:37-46 | a two-word topic is mentioned exactly when the text contains either word |
| ChatWidget.FallbackPrecedence | src/components/ChatWidget.jsx:33-47 | a topic answers when no earlier topic is mentioned |
| ChatWidget.FallbackDefault | src/components/ChatWidget.jsx:46 | a text mentioning no topic gets the default reply |
| ChatWidget.KeepLowerAlnum | src/components/ChatWidget.jsx:49-53 | the filter keeps only `[a-z0-9]` and never lengthens |
| ChatWidget.NormalizeLine | src/components/ChatWidget.jsx:49-53 | a normalised line holds only `[a-z0-9]` |
| ChatWidget.KeepLowerAlnumOfKept | src/components/ChatWidget.jsx:49-53 | the filter leaves `[a-z0-9]` text as it is |
| ChatWidget.NormalizeIdempotent | src/components/ChatWidget.jsx:49-53 | normalising twice is normalising once |
| ChatWidget.NormalizeIgnoresCase | src/components/ChatWidget.jsx:49-53 | case never changes a normalised line |
| ChatWidget.LeadingRun | src/components/ChatWidget.jsx:90-95 | a leading run is the longest prefix of matching characters |
| ChatWidget.TrimmedLines | src/components/ChatWidget.jsx:74-77 | the kept lines are trimmed and non-empty |
| ChatWidget.Unblocked | src/components/ChatWidget.jsx:59-78 | no kept line normalises to a quick question or to `links too` |
| ChatWidget.SanitizeAiReply | src/components/ChatWidget.jsx:55-81 | a blank reply gives `""` |
| ChatWidget.SanitizeLines | src/components/ChatWidget.jsx:55-81 | every output line is trimmed, non-empty and not a blocked line |
| ChatWidget.CleanSplits | src/components/ChatWidget.jsx:74-80 | the joined reply splits back into the kept lines |
| ChatWidget.JoinTrimmedLines | src/components/ChatWidget.jsx:80 | joining trimmed lines gives trimmed text |
| ChatWidget.MarkerMatches | src/components/ChatWidget.jsx:64-65 | a marker is found where it starts the text |
| ChatWidget.FindSkip | src/components/ChatWidget.jsx:64-65 | text without `<` never holds a marker |
| ChatWidget.FindPrefix | src/components/ChatWidget.jsx:64-65 | a prefix without the marker is passed over |
| ChatWidget.MarkerFacts | src/components/ChatWidget.jsx:64-65 | both markers start with `<` and hold no upper case |
| ChatWidget.SanitizeDropsSources | src/components/ChatWidget.jsx:64 | everything from `<sources>` on is dropped |
| ChatWidget.SanitizeOfCut | src/components/ChatWidget.jsx:59-80 | the reply is cleaned from what is left before the markers |
| ChatWidget.SanitizeDropsSource | src/components/ChatWidget.jsx:65 | everything from `<source>` on is dropped |
| ChatWidget.CutFirst | src/components/ChatWidget.jsx:64-65 | cutting at a first marker leaves the text before it |
| ChatWidget.CutSecond | src/components/ChatWidget.jsx:64-65 | cutting at the second marker also leaves the text before it |
| ChatWidget.CutSecondFirst | src/components/ChatWidget.jsx:64 | the first cut at a later marker keeps the second marker |
| ChatWidget.SourceThenSources | src/components/ChatWidget.jsx:64-65 | `<source>` does not hide a later `<sources>` |
| ChatWidget.NotBlank | src/components/ChatWidget.jsx:59 | text holding a marker is never blank |
| ChatWidget.Find | src/components/ChatWidget.jsx:64-65 | the index found is the first case-insensitive occurrence of the marker, or the length when there is none |
| ChatWidget.CutAt | src/components/ChatWidget.jsx:64-65 | the cut keeps a prefix free of the marker and stops exactly at its first occurrence |
| ChatWidget.RemoveQuestion | src/components/ChatWidget.jsx:66-70 | the result is never longer than the text |
| ChatWidget.RemoveAtFirstBoundary | src/components/ChatWidget.jsx:66-70 | the first occurrence of the question at a word boundary is removed, the text before it is kept as it is, and the scan continues right after it |
| ChatWidget.RemoveWithoutBoundary | src/components/ChatWidget.jsx:66-70 | text with no occurrence of the question at a word boundary is unchanged |
| ChatWidget.RemoveQuestionKeeps | src/components/ChatWidget.jsx:66-70 | what is left is the text with characters dropped in order, and every dropped character lies inside an occurrence of the question |
| ChatWidget.RemoveQuestions | src/components/ChatWidget.jsx:66-70 | the chain of removals never lengthens the text |
| ChatWidget.RemoveQuestionsUnchanged | src/components/ChatWidget.jsx:66-70 | text holding none of the questions comes out of the chain unchanged |
| ChatWidget.SplitNumbering | src/components/ChatWidget.jsx:72 | the numbering split changes only white-space characters, each into a line break or a space, and keeps the length |
| ChatWidget.CleanLines | src/components/ChatWidget.jsx:74-78 | every kept line is trimmed, non-empty and not blocked |
| ChatWidget.Clean | src/components/ChatWidget.jsx:80 | the joined reply is trimmed, and empty when no line is kept |
| ChatWidget.ReplyText | src/components/ChatWidget.jsx:56 | a string reply is itself; a falsy one is `""` |
| ChatWidget.NumberPrefix | src/components/ChatWidget.jsx:90-91 | a numbering prefix is digits, a dot and white space |
| ChatWidget.BulletPrefix | src/components/ChatWidget.jsx:94-95 | a bullet prefix is `-` or `*` and white space |
| ChatWidget.Classify | src/components/ChatWidget.jsx:89-99 | a plain line is kept as it is |
| ChatWidget.ClassifyNumbered | src/components/ChatWidget.jsx:90-93 | `N. text` is an ordered item `text` |
| ChatWidget.ClassifyBullet | src/components/ChatWidget.jsx:94-97 | `- text` and `* text` are bullet items `text` |
| ChatWidget.ClassifyParagraph | src/components/ChatWidget.jsx:98 | any other line is a paragraph |
| ChatWidget.LeadingRunOf | src/components/ChatWidget.jsx:90-95 | the run ends where the characters stop matching |
| ChatWidget.ClassifyNonEmpty | src/components/ChatWidget.jsx:89-99 | the item of a trimmed non-empty line is trimmed and non-empty |
| ChatWidget.NoTrailingSpace | src/components/ChatWidget.jsx:91-95 | removing a prefix from a trimmed line leaves trimmed non-empty text |
| ChatWidget.ReplyLines | src/components/ChatWidget.jsx:84 | the lines read are trimmed and non-empty |
| ChatWidget.ParseAssistantReply | src/components/ChatWidget.jsx:83-102 | the loop fills the three lists as the partition of the reply's lines |
| ChatWidget.PartitionStep | src/components/ChatWidget.jsx:89-99 | each line lands in the list its kind names |
| ChatWidget.PartitionConcat | src/components/ChatWidget.jsx:83-102 | order is kept: earlier lines come first in each list |
| ChatWidget.PlaceCombine | src/components/ChatWidget.jsx:89-99 | placing a line commutes with joining earlier results |
| ChatWidget.PartitionSizes | src/components/ChatWidget.jsx:83-102 | every line lands in exactly one list |
| ChatWidget.PartitionOne | src/components/ChatWidget.jsx:89-99 | a single line lands in its own list |
| ChatWidget.PartitionItemsNonEmpty | src/components/ChatWidget.jsx:83-102 | every item is trimmed and non-empty |
| ChatWidget.Partition | src/components/ChatWidget.jsx:83-102 | every paragraph is one of the lines, and one that classifies as a paragraph |
| MeetAuth.ReplaceChar | src/context/MeetAuthContext.jsx:15-16 | each occurrence of one character is replaced, and nothing else |
| MeetAuth.ToBase64 | src/context/MeetAuthContext.jsx:15-16 | `-` becomes `+` and `_` becomes `/`, and the length is kept |
| MeetAuth.ToBase64Url | src/context/MeetAuthContext.jsx:15-16 | the inverse alphabet change removes `+` and `/` |
| MeetAuth.Base64UrlRoundTrip | src/context/MeetAuthContext.jsx:15-16 | a base64url segment survives the conversion and back |
| MeetAuth.Base64RoundTrip | src/context/MeetAuthContext.jsx:15-16 | base64 text survives the conversion back and forth |
| MeetAuth.PaddedLength | src/context/MeetAuthContext.jsx:17 | the padded length is a multiple of 4 that is less than 4 above the length |
| MeetAuth.PaddedLengthLeast | src/context/MeetAuthContext.jsx:17 | it is the smallest such multiple |
| MeetAuth.PadEnd | src/context/MeetAuthContext.jsx:17 | padding keeps the text as a prefix and fills up to the target |
| MeetAuth.PaddedShape | src/context/MeetAuthContext.jsx:17 | padding adds fewer than four `=` and leaves full groups unchanged |
| MeetAuth.Padded | src/context/MeetAuthContext.jsx:17 | the padded text is a multiple of 4 long, keeps the text as a prefix and adds fewer than four `=` |
| MeetAuth.DecodeSegment | src/context/MeetAuthContext.jsx:15-22 | a decoded payload is the parse of the decoded, padded segment; when the segment decodes and parses, the payload is exactly that parse |
| MeetAuth.DecodeJwtPayload | src/context/MeetAuthContext.jsx:8-23 | a non-string, empty or dotless token gives `null`; otherwise the second segment is decoded |
| MeetAuth.JwtPayloadSegment | src/context/MeetAuthContext.jsx:8-23 | the payload of `header.payload…` is decoded from `payload` |
| MeetAuth.EmailLocalPart | src/context/MeetAuthContext.jsx:34-38 | the local part is the text before the first `@` |
| MeetAuth.EmailLocalPartOf | src/context/MeetAuthContext.jsx:34-38 | the local part of `local@domain` is `local` |
| MeetAuth.DeriveDisplayName | src/context/MeetAuthContext.jsx:25-44 | a display name is never empty |
| MeetAuth.DeriveIsFirstPick | src/context/MeetAuthContext.jsx:25-44 | the name is the first rule that applies, else `User` |
| MeetAuth.FirstPickDecides | src/context/MeetAuthContext.jsx:25-44 | the first rule that does not pass decides |
| MeetAuth.FirstPickDefault | src/context/MeetAuthContext.jsx:43 | when every rule passes the default is used |
| MeetAuth.FirstPick | src/context/MeetAuthContext.jsx:25-44 | no name only when a rule crashes; a name is the default or one a rule takes; all rules skipping gives the default |
| MeetAuth.Rules | src/context/MeetAuthContext.jsx:25-41 | the chain has four rules, the full-name and Cognito rules never crash, and every name a rule takes is truthy |
| MeetAuth.DisplayNamePrecedence | src/context/MeetAuthContext.jsx:25-44 | name or given name, then a non-`google_` preferred username, then the e-mail local part, then the Cognito username |
| MeetAuth.DisplayNameDefault | src/context/MeetAuthContext.jsx:43 | with no usable claim the name is `User` |
| MeetAuth.GoogleUsernameSkipped | src/context/MeetAuthContext.jsx:29-38 | a generated Google username gives way to the e-mail's local part |
| MeetAuth.CurrentTokens | src/context/MeetAuthContext.jsx:78-84 | live tokens first, then cached ones, then empty tokens |
| MeetAuth.LiveTokensDefined | src/context/MeetAuthContext.jsx:78-83 | every live token is set or `''` |
| MeetAuth.LiveTokens | src/context/MeetAuthContext.jsx:78-83 | the live tokens are exactly `idToken`, `accessToken` and `refreshToken`, each truthy or `''`, and a truthy `id_token` is passed through |
| MeetAuth.ContextUser | src/context/MeetAuthContext.jsx:78-96 | a signed-in user has a truthy ID token and a truthy name; any user comes from a truthy decoded payload |
| MeetAuth.UserOf | src/context/MeetAuthContext.jsx:88-96 | no user exactly when decoding failed; otherwise the e-mail and user id default to `''` and the name is the derived one |
| MeetAuth.SignedOutNoUser | src/context/MeetAuthContext.jsx:78-96 | signed out with nothing cached there is no user |
| MeetAuth.LiveTokenDecoded | src/context/MeetAuthContext.jsx:78-86 | a signed-in user's own ID token is decoded, whatever is cached |
| TestUiApi.ApiRequest | api-test-ui/js/api.js:3-31 | `ok` holds exactly for 200–299; an empty or unparsable body gives `null`; a rejection gives status 0 and `data.message` |
| TestUiApi.AgreesWithClient | api-test-ui/js/api.js:3-31 | without a nested status the console and the client see the same response |
| TestUiApi.EnvelopeStatusKept | api-test-ui/js/api.js:3-31 | with a nested status the console keeps the HTTP status where the client takes the nested one |
| TestUiApi.ExtractMessage | api-test-ui/js/api.js:61-65 | `Unknown error` for no data, string data as it is, then `message`, then `error`, then the JSON text |
| TestUiApi.PrecedenceReversed | api-test-ui/js/api.js:61-65 | the console reads `message` first where the client reads `error` first |
| TestUiApi.FormatHttpError | api-test-ui/js/api.js:53-59 | 200 gives the fixed `Unexpected response` text; 0 gives `Network error: …` |
| TestUiApi.FormatHttpErrorUniform | api-test-ui/js/api.js:53-59 | every other status gives `HTTP N: …`, the 400 and 404 cases included |
| TestUiApi.NetworkErrorText | api-test-ui/js/api.js:23-59 | a failed request is reported with its error's message, or `Network error` |
| TestUiApi.FormatRaw | api-test-ui/js/api.js:67-71 | the data as JSON, else the raw text, else `No response body` |
| TestUiApi.RawOfUnparsable | api-test-ui/js/api.js:10-71 | an unparsable reply shows the text that came; an empty one shows the notice |

## Left out

- WebRTC platform objects leave the model. `RTCPeerConnection`, descriptions, `addIceCandidate`, senders and tracks become a recorded list of calls on each session. Their outcomes are the parameters `descOk` and `accepts`. A failing description is modelled at the handler's first description call.
- The time between the `await`s of a handler is not modelled: each handler is one atomic step, and interleavings are concurrency the model does not cover.
- React's stale closures are not modelled: handlers read the current state of the engine. The three places where this changes behaviour are listed below.
- MeetingRoom.Engine.OnDisplayEnded: models the intended behaviour, reading the current sharing flag. The closure as written sees the flag of the render that started sharing, which is always off, so it does nothing (see Findings and MeetingRoom.Engine.OnDisplayEndedAsWritten).
- MeetingRoom.Engine.OnSocketOpen: sends the current controls. The source sends the controls captured when the connecting effect last ran (src/pages/MeetingRoom.jsx:534), which can be out of date.
- MeetingRoom.PeerRecord: sets the host flag from the current host id. The source's offer and track handlers belong to the connecting render, so their host id is the one of that render, `''` until the first poll (src/pages/MeetingRoom.jsx:360-362, 464-466).
- MeetingRoom.Engine.HandleAnswer: an answer that arrives with no local offer pending is passed to the browser like any other. Whether the browser refuses it is part of `descOk`, so the phase rule lives outside the model.
- MeetingRoom.Engine.OfferMissingPeers: uses one `descOk` and one `offer` value for every target of a round, where the browser gives each target its own outcome and offer.
- WebSocket construction is I/O. `wsReadyRef` and the socket's `readyState` are one flag, `wsOpen`. A second flag, `wsLive`, marks a socket that is connecting or open. Messages are sent to a log, `sent`.
- Timers record their delay only; there is no clock. The 1200 ms exit delay and the 30 s presence poll (src/pages/MeetingRoom.jsx:691) are not modelled.
- Media capture (`getUserMedia`, `getDisplayMedia`, stopping tracks, `replaceTrack`) leaves the model. Only its outcome is kept: granted, refused or no video track.
- MeetingRoom.Engine.BeginLeave: like the source, leave does not empty the outbound queue or the ICE buffers of keys without a session. Only cleanup on unmount does.
- MeetingRoom.Engine.FinishLeave: `isLeaving` (the rendered flag) is not modelled, only `isLeavingRef`.
- Rendering has no model: JSX, scroll and theme effects, `ControlBar`, `VideoGrid`, `Header`, `NotesPanel`, `App`, `main.jsx`, and `renderHighlightedText`.
- The network calls themselves are parameters: `fetch` in `rawRequest`, the assistant's `askApi`, and the dashboard preview loaders. So are `apiLambdaPost`, `showSuccess` and `showError` of the test console.
- `JSON.parse`, `json.loads`, `atob`, `JSON.stringify` and `parse_qs` are opaque function parameters. `json.dumps` of the Lambda reply is not modelled; the reply carries the payload value.
- DynamoDB access and `LastEvaluatedKey` pagination (api-test-ui/meetlite_getMeetingStatus.py:87-97) are one function from a meeting id to its items. The other Lambda handlers (create, join, leave) are not part of this model.
- Case mapping is ASCII only. This covers `toLowerCase` and `toUpperCase`, the `/i` regular-expression flag and Python's `.lower()`.
- JavaScript `<` on strings compares UTF-16 code units. The model compares Unicode scalar values, which orders differently only between supplementary-plane characters and U+E000–U+FFFF.
- Numbers are integers. No floating-point value reaches the modelled decisions.
- A file name that is not a string is not modelled; the dashboard's names are strings.
- Dashboard date handling (`formatDateLabel`, `dashboardStats`, `toLocaleString`) is not modelled, because it works on dates and floating-point minutes.
- MeetAuthContext's localStorage effects (src/context/MeetAuthContext.jsx:50-76) are I/O and not modelled. Neither is the pass-through of the OIDC flags `isAuthenticated`, `isLoading` and `error`, or the throw of `useMeetAuth` outside its provider.
- MeetAuth.DeriveDisplayName: a claim whose string method throws (a truthy non-string `preferred_username` or `email`) is modelled as `None`, the rendering failure, not as a JavaScript exception value.
- ChatWidget.RemoveQuestion: reads `\b` as "not preceded by a word character". That is its meaning for a question that starts with a word character, as all five quick questions do; a question starting otherwise is not modelled.
- `src/config/cognito.js` and `src/config/realtime.js` hold constants only and are not part of this model.

## Findings

| source | as written | input that shows it | evidently intended | confidence | as-written member | corrected member |
|---|---|---|---|---|---|---|
| src/pages/MeetingRoom.jsx:256-258 | `displayTrack.onended` calls the `stopScreenShare` of the render that started the share. That render's `isScreenSharing` is `false`, so the call returns at line 218 and changes nothing | start sharing with the screen-share control, then end it with the browser's own "stop sharing" | sharing stops and the control clears, as with the control | not executed | MeetingRoom.Engine.EndedShareStaysOnAsWritten | MeetingRoom.Engine.EndedShareStops |
