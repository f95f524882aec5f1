/** The signaling and peer-registry engine of the meeting room (src/pages/MeetingRoom.jsx).
    Each event handler of the page — a socket event, an inbound signal, a peer-connection event,
    a timer, a poll result, a button — is one method that runs to completion. WebRTC objects are
    replaced by the registry's record of what was asked of them and what they reported; media
    tracks, rendering and the browser clock are left out. */
module MeetingRoom {
  import opened Text
  import opened Dynamic
  import opened PeerIdentity
  import opened Signals
  import opened Roster
  import opened MeetApi

  /** `pc.signalingState`, as far as the engine drives it. */
  datatype Phase = Stable | HaveLocalOffer

  /** `pc.connectionState`. */
  datatype ConnectionState = New | Connecting | Connected | Disconnected | Failed | Closed

  /** A state-changing call on a peer connection that succeeded. */
  datatype PcCall = Rollback | SetRemote(description: Value) | SetLocal(description: Value) | AddIce(candidate: Value)

  /** The registry's record of one peer connection: the e-mail it was created for, its
      signaling phase, whether a remote description is set, the last connection state it
      reported, and the calls made on it in order. */
  datatype Session = Session(
    remoteEmail: string,
    phase: Phase,
    hasRemoteDescription: bool,
    connection: ConnectionState,
    calls: seq<PcCall>)

  /** A new `RTCPeerConnection`. */
  function FreshSession(remoteEmail: string): Session {
    Session(remoteEmail, Stable, false, New, [])
  }

  /** The session a handler works on: the registered one, or the one `createPeerConnection` adds. */
  function SessionFor(sessions: map<Key, Session>, key: Key, remoteEmail: string): Session {
    if key in sessions then sessions[key] else FreshSession(remoteEmail)
  }

  /** The `AddIce` calls that succeed when the buffered candidates are applied in order. */
  function AddIceCalls(candidates: seq<Value>, accepts: Value -> bool): (calls: seq<PcCall>)
    ensures |calls| <= |candidates|
    ensures forall c :: AddIce(c) in calls <==> c in candidates && accepts(c)
  {
    if candidates == [] then []
    else
      var last := candidates[|candidates| - 1];
      AddIceCalls(candidates[..|candidates| - 1], accepts) + (if accepts(last) then [AddIce(last)] else [])
  }

  /** The session after a local offer is set: a pending one is rolled back first. */
  function Offered(s: Session, offer: Value): (t: Session)
    ensures t.phase == HaveLocalOffer
    ensures t.remoteEmail == s.remoteEmail && t.hasRemoteDescription == s.hasRemoteDescription
            && t.connection == s.connection
  {
    s.(phase := HaveLocalOffer,
       calls := s.calls + (if s.phase == HaveLocalOffer then [Rollback] else []) + [SetLocal(offer)])
  }

  /** The session after an offer is answered: a pending local offer is rolled back before the
      remote description is set, then the buffered candidates and the local answer follow. */
  function Answered(s: Session, offer: Value, iceCalls: seq<PcCall>, answer: Value): (t: Session)
    ensures t.phase == Stable && t.hasRemoteDescription
    ensures t.remoteEmail == s.remoteEmail && t.connection == s.connection
  {
    s.(phase := Stable, hasRemoteDescription := true,
       calls := s.calls + (if s.phase == HaveLocalOffer then [Rollback] else []) + [SetRemote(offer)]
                + iceCalls + [SetLocal(answer)])
  }

  /** The calls an offer makes: the earlier calls are kept, a rollback is made exactly when an
      offer of its own was pending, and the local offer is set last. */
  lemma OfferedCalls(s: Session, offer: Value)
    ensures var t := Offered(s, offer);
            && |t.calls| > |s.calls| && t.calls[..|s.calls|] == s.calls
            && t.calls[|t.calls| - 1] == SetLocal(offer)
            && (Rollback in t.calls[|s.calls|..] <==> s.phase == HaveLocalOffer)
  {
    var t := Offered(s, offer);
    if s.phase == HaveLocalOffer {
      assert t.calls[|s.calls|..] == [Rollback, SetLocal(offer)];
    } else {
      assert t.calls[|s.calls|..] == [SetLocal(offer)];
    }
  }

  /** The calls an answer makes, in order: a rollback of a pending offer, the remote offer, the
      buffered candidates, the local answer. */
  lemma AnsweredCalls(s: Session, offer: Value, iceCalls: seq<PcCall>, answer: Value)
    ensures var t := Answered(s, offer, iceCalls, answer);
            var k := |s.calls| + (if s.phase == HaveLocalOffer then 1 else 0);
            && |t.calls| == k + |iceCalls| + 2 && t.calls[..|s.calls|] == s.calls
            && (s.phase == HaveLocalOffer ==> t.calls[|s.calls|] == Rollback)
            && t.calls[k] == SetRemote(offer)
            && t.calls[k + 1..k + 1 + |iceCalls|] == iceCalls
            && t.calls[|t.calls| - 1] == SetLocal(answer)
  {
  }

  /** Every session is registered under the key of its remote e-mail, which is neither empty
      nor the local user's. */
  ghost predicate SessionsKeyed(sessions: map<Key, Session>, selfKey: Key) {
    forall k | k in sessions :: k != [] && k != selfKey && SafeId(sessions[k].remoteEmail) == k
  }

  /** Replacing a session by one for the same e-mail keeps the registry keyed, with the same keys. */
  lemma SessionsKeyedUpdate(sessions: map<Key, Session>, selfKey: Key, key: Key, s: Session)
    requires SessionsKeyed(sessions, selfKey) && key in sessions && s.remoteEmail == sessions[key].remoteEmail
    ensures SessionsKeyed(sessions[key := s], selfKey) && sessions[key := s].Keys == sessions.Keys
  {
  }

  /** No candidate buffer is kept under the empty key. */
  ghost predicate BuffersKeyed(pendingIce: map<Key, seq<Value>>) {
    forall k | k in pendingIce :: k != []
  }

  /** The local toggles (`controls`). */
  datatype Controls = Controls(camera: bool, mute: bool, record: bool, notes: bool, screenshare: bool, theme: bool)

  const InitialControls := Controls(true, false, false, false, false, false)

  /** The keys `handleToggle` is called with. */
  datatype Toggle = CameraKey | MuteKey | RecordKey | NotesKey | ScreenshareKey | ThemeKey

  /** `{ ...prev, [key]: !prev[key] }`. */
  function Flip(c: Controls, key: Toggle): (r: Controls)
    ensures key == CameraKey ==> r == c.(camera := !c.camera)
    ensures key == MuteKey ==> r == c.(mute := !c.mute)
    ensures key == RecordKey ==> r == c.(record := !c.record)
  {
    match key
    case CameraKey => c.(camera := !c.camera)
    case MuteKey => c.(mute := !c.mute)
    case RecordKey => c.(record := !c.record)
    case NotesKey => c.(notes := !c.notes)
    case ScreenshareKey => c.(screenshare := !c.screenshare)
    case ThemeKey => c.(theme := !c.theme)
  }

  /** Toggling the same control twice restores it, and a toggle changes no other control. */
  lemma FlipInvolution(c: Controls, key: Toggle)
    ensures Flip(Flip(c, key), key) == c
    ensures Flip(c, key) != c
  {
  }

  /** What `getDisplayMedia` gives the screen-share button. */
  datatype DisplayMedia = Granted | NoVideoTrack | Refused

  /** `roomPath.split('/').at(-1) || ''`. */
  function RoomName(roomPath: string): (name: string)
    ensures '/' !in name && |name| <= |roomPath|
  {
    var parts := Split(roomPath, '/');
    SplitLast(roomPath, '/');
    parts[|parts| - 1]
  }

  /** The room name is the last segment of the path: it holds no `/`, the path ends with it,
      and a path without `/` is its own name. */
  lemma RoomNameLastSegment(roomPath: string)
    ensures '/' !in RoomName(roomPath)
    ensures |RoomName(roomPath)| <= |roomPath|
    ensures RoomName(roomPath) == roomPath[|roomPath| - |RoomName(roomPath)|..]
    ensures '/' !in roomPath ==> RoomName(roomPath) == roomPath
  {
    SplitLast(roomPath, '/');
    if '/' !in roomPath {
      NoSepSplit(roomPath, '/');
    }
  }

  /** `selfIsHost`: the local user is the host when the host id normalises to their e-mail or
      their user id. */
  predicate SelfIsHost(hostUserId: string, selfEmail: string, selfUserId: string) {
    hostUserId != [] && selfEmail != []
    && (SafeId(hostUserId) == SafeId(selfEmail) || SafeId(hostUserId) == SafeId(selfUserId))
  }

  /** The host flag of a tile built from a signal or a track. */
  predicate IsHostEmail(hostUserId: string, email: string) {
    hostUserId != [] && SafeId(hostUserId) == SafeId(email)
  }

  /** The tile added when an offer is answered (no stream yet) or a remote track arrives. */
  function PeerRecord(email: string, stream: Option<StreamId>, hostUserId: string): (p: Participant)
    ensures KeyOf(p) == SafeId(email)
  {
    Participant(email, email, email, stream, true, Str("PARTICIPANT"), IsHostEmail(hostUserId, email), false, false)
  }

  /** The state broadcast: `{mute, camera, record}` as booleans. */
  function StatePayload(next: Controls): (v: Value)
    ensures v.Obj? && v.fields.Keys == {"mute", "camera", "record"}
    ensures Truthy(Get(v, "mute")) == next.mute && NotFalse(Get(v, "camera")) == next.camera
            && Truthy(Get(v, "record")) == next.record
  {
    Obj(map["mute" := Bool(next.mute), "camera" := Bool(next.camera), "record" := Bool(next.record)])
  }

  /** The members of `deduped` an offer goes to: no session yet, and the local side initiates. */
  function OfferTargets(ps: seq<Participant>, known: set<Key>, selfEmail: string): (targets: seq<string>)
    ensures |targets| <= |ps|
  {
    if ps == [] then []
    else
      var p := ps[|ps| - 1];
      OfferTargets(ps[..|ps| - 1], known, selfEmail)
        + (if SafeId(p.email) !in known && ShouldInitiateOffer(selfEmail, p.email) then [p.email] else [])
  }

  /** One more listed peer adds at most that peer to the targets. */
  lemma OfferTargetsStep(ps: seq<Participant>, i: nat, known: set<Key>, selfEmail: string)
    requires i < |ps|
    ensures OfferTargets(ps[..i + 1], known, selfEmail)
            == OfferTargets(ps[..i], known, selfEmail)
               + (if SafeId(ps[i].email) !in known && ShouldInitiateOffer(selfEmail, ps[i].email) then [ps[i].email] else [])
  {
    assert ps[..i + 1][..i] == ps[..i];
  }

  /** In a well-formed list keyed by e-mail, no other record shares the key of record `i`. */
  lemma KeysApart(ps: seq<Participant>, i: nat, selfKey: Key)
    requires WellFormed(ps, selfKey) && i < |ps|
    requires forall j | 0 <= j < |ps| :: ps[j].id == ps[j].email
    ensures forall j | 0 <= j < i :: SafeId(ps[j].email) != SafeId(ps[i].email)
  {
    forall j | 0 <= j < i
      ensures SafeId(ps[j].email) != SafeId(ps[i].email)
    {
      assert KeyOf(ps[j]) == SafeId(ps[j].email) && KeyOf(ps[i]) == SafeId(ps[i].email);
    }
  }

  /** The keys of a list of e-mails. */
  function TargetKeys(targets: seq<string>): set<Key> {
    set e | e in targets :: SafeId(e)
  }

  /** Every offer target comes from the list and had no session: a key that no listed
      e-mail has, or that already had a session, is not among the targets' keys. */
  lemma {:induction false} OfferTargetsKeys(ps: seq<Participant>, known: set<Key>, selfEmail: string, k: Key)
    requires k in known || forall j | 0 <= j < |ps| :: SafeId(ps[j].email) != k
    ensures k !in TargetKeys(OfferTargets(ps, known, selfEmail))
  {
    if ps != [] {
      var init := ps[..|ps| - 1];
      assert forall j | 0 <= j < |init| :: init[j] == ps[j];
      OfferTargetsKeys(init, known, selfEmail, k);
      var p := ps[|ps| - 1];
      var tail := if SafeId(p.email) !in known && ShouldInitiateOffer(selfEmail, p.email) then [p.email] else [];
      assert OfferTargets(ps, known, selfEmail) == OfferTargets(init, known, selfEmail) + tail;
      assert TargetKeys(OfferTargets(ps, known, selfEmail)) == TargetKeys(OfferTargets(init, known, selfEmail)) + TargetKeys(tail);
    }
  }

  /** The session `sendOfferTo` leaves behind for a peer that had none. */
  function Opened(remoteEmail: string, descOk: bool, offer: Value): Session {
    if descOk then Offered(FreshSession(remoteEmail), offer) else FreshSession(remoteEmail)
  }

  /** The registry after `sendOfferTo` has reached each of `targets` in order. */
  function OpenSessions(sessions: map<Key, Session>, targets: seq<string>, descOk: bool, offer: Value): map<Key, Session> {
    if targets == [] then sessions
    else
      var e := targets[|targets| - 1];
      OpenSessions(sessions, targets[..|targets| - 1], descOk, offer)[SafeId(e) := Opened(e, descOk, offer)]
  }

  /** Reaching one more target registers its session. */
  lemma OpenSessionsSnoc(sessions: map<Key, Session>, targets: seq<string>, e: string, descOk: bool, offer: Value)
    ensures OpenSessions(sessions, targets + [e], descOk, offer)
            == OpenSessions(sessions, targets, descOk, offer)[SafeId(e) := Opened(e, descOk, offer)]
  {
    assert (targets + [e])[..|targets|] == targets;
  }

  /** Which keys the offer round has registered. */
  lemma OpenSessionsHas(sessions: map<Key, Session>, targets: seq<string>, descOk: bool, offer: Value, k: Key)
    ensures k in OpenSessions(sessions, targets, descOk, offer) <==> k in sessions || k in TargetKeys(targets)
  {
    OpenSessionsEffect(sessions, targets, descOk, offer);
  }

  /** The offer round adds exactly the targets' sessions: every target has a fresh session
      for its e-mail, and every other key keeps what it had. */
  lemma {:induction false} OpenSessionsEffect(sessions: map<Key, Session>, targets: seq<string>, descOk: bool, offer: Value)
    ensures var r := OpenSessions(sessions, targets, descOk, offer);
            && r.Keys == sessions.Keys + TargetKeys(targets)
            && (forall k | k in sessions && k !in TargetKeys(targets) :: r[k] == sessions[k])
            && (forall k | k in r && k in TargetKeys(targets) :: SafeId(r[k].remoteEmail) == k)
  {
    if targets != [] {
      var init := targets[..|targets| - 1];
      var e := targets[|targets| - 1];
      assert targets == init + [e];
      OpenSessionsEffect(sessions, init, descOk, offer);
      assert TargetKeys(targets) == TargetKeys(init) + {SafeId(e)};
    }
  }

  /** The toggles whose change is broadcast to the peers. */
  predicate Broadcasts(key: Toggle) {
    key == MuteKey || key == CameraKey || key == RecordKey
  }

  /** `response.data || {}`. */
  function ResponseData(response: ApiResponse): Value {
    Or(response.data, Obj(map[]))
  }

  /** `(data.status || 'UNKNOWN').toUpperCase()`; `None` where it throws. */
  function StatusOf(data: Value): (status: Option<string>)
    ensures !Truthy(Get(data, "status")) ==> status == Some("UNKNOWN")
  {
    match StringOr(Get(data, "status"), "UNKNOWN")
    case None => None
    case Some(s) =>
      assert Upper("UNKNOWN") == "UNKNOWN";
      Some(Upper(s))
  }

  /** `(data.hostUserId || '').trim()`; `None` where it throws. */
  function HostIdOf(data: Value): Option<string> {
    match StringOr(Get(data, "hostUserId"), "")
    case None => None
    case Some(s) => Some(Trim(s))
  }

  /** `Array.isArray(data.participants) ? data.participants : []`. */
  function ApiParticipants(data: Value): seq<Value> {
    if Get(data, "participants").Arr? then Get(data, "participants").items else []
  }

  /** The deduplicated roster the data of a successful status reply yields, when no step throws. */
  function RosterOf(data: Value, selfKey: Key): (r: Option<seq<Participant>>)
    ensures StatusOf(data).None? || HostIdOf(data).None? ==> r.None?
    ensures r.Some? ==> WellFormed(r.value, selfKey) && |r.value| <= |ApiParticipants(data)|
    ensures StatusOf(data).Some? && HostIdOf(data).Some? ==> r == Dedupe(ApiParticipants(data), selfKey, HostIdOf(data).value)
  {
    if StatusOf(data).None? || HostIdOf(data).None? then None
    else
      var r := Dedupe(ApiParticipants(data), selfKey, HostIdOf(data).value);
      if r.Some? then DedupeWellFormed(ApiParticipants(data), selfKey, HostIdOf(data).value); r else r
  }

  const NegotiationFailed := Str("Realtime signaling failed during WebRTC negotiation.")
  const Reconnecting := Str("Realtime disconnected. Reconnecting...")
  const NoSignalingUrl := Str("Signaling WebSocket URL is not configured.")
  const MediaDenied := Str("Camera or microphone permission denied.")
  const CameraNotReady := Str("Camera stream is not ready yet.")
  const ScreenShareBlocked := Str("Screen share was cancelled or blocked.")

  /** Reconnect delays, in milliseconds. */
  const DisconnectedDelay := 3500
  const FailedDelay := 800
  const IceFailedDelay := 600

  class Engine {
    const selfEmail: string
    const selfKey: Key
    const roomName: string

    /** `peerConnectionsRef`: one session per normalised remote e-mail. */
    var sessions: map<Key, Session>
    /** `pendingIceCandidatesRef`: candidates that arrived before a remote description. */
    var pendingIce: map<Key, seq<Value>>
    /** `reconnectTimersRef`: the pending reconnect of a key, by its delay. */
    var timers: map<Key, nat>
    /** `pendingSignalsRef`: signals held back while the socket is not open. */
    var outbound: seq<Signal>
    /** What `socket.send` has been given, in order. */
    var sent: seq<Signal>
    /** The socket is open (`wsReadyRef` and `readyState === OPEN`). */
    var wsOpen: bool
    /** The URL of the current socket; empty before the first connection. */
    var wsUrl: string
    /** The current socket is connecting or open (not closed). */
    var wsLive: bool
    /** `wsReconnectTimerRef` is set. */
    var wsReconnectPending: bool
    var participants: seq<Participant>
    var hostUserId: string
    var meetingStatus: string
    var statusError: Value
    var controls: Controls
    var theme: string
    var isScreenSharing: bool
    /** `cameraStreamRef.current` is set. */
    var cameraReady: bool
    var mediaBlocked: bool
    /** `isLeavingRef`. */
    var leaving: bool
    /** The page is mounted (the effects have not been cleaned up). */
    var mounted: bool
    /** A navigation to the dashboard is scheduled (expired meeting) or done (left). */
    var exitScheduled: bool
    var exited: bool

    /** The invariants of the registries, the queue aside. */
    ghost predicate Registry()
      reads this
    {
      && selfKey == SafeId(selfEmail)
      && SessionsKeyed(sessions, selfKey)
      && BuffersKeyed(pendingIce)
      && timers.Keys <= sessions.Keys
      && WellFormed(participants, selfKey)
    }

    /** The engine invariant: the registries are consistent, and nothing waits in the queue
        while the socket is open. */
    ghost predicate Valid()
      reads this
    {
      Registry() && (wsOpen ==> outbound == [])
    }

    constructor (selfEmail: string, roomPath: string)
      ensures Valid()
      ensures this.selfEmail == selfEmail && roomName == RoomName(roomPath)
      ensures sessions == map[] && pendingIce == map[] && timers == map[]
      ensures outbound == [] && sent == [] && !wsOpen && participants == []
      ensures controls == InitialControls && meetingStatus == "Checking..." && statusError == Str("")
      ensures mounted && !leaving && !exited && !exitScheduled
    {
      this.selfEmail := selfEmail;
      selfKey := SafeId(selfEmail);
      roomName := RoomName(roomPath);
      sessions := map[];
      pendingIce := map[];
      timers := map[];
      outbound := [];
      sent := [];
      wsOpen := false;
      wsUrl := [];
      wsLive := false;
      wsReconnectPending := false;
      participants := [];
      hostUserId := [];
      meetingStatus := "Checking...";
      statusError := Str("");
      controls := InitialControls;
      theme := "light";
      isScreenSharing := false;
      cameraReady := false;
      mediaBlocked := false;
      leaving := false;
      mounted := true;
      exitScheduled := false;
      exited := false;
    }

    // ---------------------------------------------------------------------------------------
    // Registry helpers.

    /** A session key is its own normal form. */
    lemma SessionKeyNormal(k: Key)
      requires Registry() && k in sessions
      ensures SafeId(k) == k
    {
      SafeIdIdempotent(sessions[k].remoteEmail);
    }

    /** `clearReconnectTimer`: the key's timer, if any, is cancelled. */
    method ClearReconnectTimer(participantKey: string)
      requires Valid()
      modifies this`timers
      ensures Valid()
      ensures timers == old(timers) - {SafeId(participantKey)}
    {
      var key := SafeId(participantKey);
      if key == [] {
        return;
      }
      if key in timers {
        timers := timers - {key};
      }
    }

    /** `clearPeerConnection`: the key's session, buffered candidates and timer are gone. */
    method ClearPeerConnection(participantKey: string)
      requires Valid()
      modifies this`sessions, this`pendingIce, this`timers
      ensures Valid()
      ensures sessions == old(sessions) - {SafeId(participantKey)}
      ensures pendingIce == old(pendingIce) - {SafeId(participantKey)}
      ensures timers == old(timers) - {SafeId(participantKey)}
    {
      var key := SafeId(participantKey);
      if key == [] {
        return;
      }
      SafeIdIdempotent(participantKey);
      ClearReconnectTimer(key);
      if key in sessions {
        sessions := sessions - {key};
      }
      pendingIce := pendingIce - {key};
    }

    /** `removeParticipant`: the key's tile and buffered candidates are gone. */
    method RemoveParticipant(participantKey: string)
      requires Valid()
      modifies this`participants, this`pendingIce
      ensures Valid()
      ensures participants == WithoutKey(old(participants), SafeId(participantKey))
      ensures pendingIce == old(pendingIce) - {SafeId(participantKey)}
    {
      var key := SafeId(participantKey);
      if key == [] {
        WithoutKeyAbsent(participants, key);
        return;
      }
      WithoutKeyWellFormed(participants, key, selfKey);
      participants := WithoutKey(participants, key);
      pendingIce := pendingIce - {key};
    }

    /** The disposal of a peer: its connection, timer, buffered candidates and tile go. */
    method DropPeer(remoteEmail: string)
      requires Valid()
      modifies this`sessions, this`pendingIce, this`timers, this`participants
      ensures Valid()
      ensures var key := SafeId(remoteEmail);
              && sessions == old(sessions) - {key} && pendingIce == old(pendingIce) - {key}
              && timers == old(timers) - {key} && participants == WithoutKey(old(participants), key)
    {
      ClearPeerConnection(remoteEmail);
      RemoveParticipant(remoteEmail);
      MapRemoveTwice(old(pendingIce), SafeId(remoteEmail));
    }

    /** `addOrUpdateParticipant`: a record for another participant replaces the one with its key. */
    method AddOrUpdateParticipant(p: Participant)
      requires Valid()
      modifies this`participants
      ensures Valid()
      ensures participants == if KeyOf(p) == [] || KeyOf(p) == selfKey then old(participants)
                              else Upsert(old(participants), p)
    {
      var key := KeyOf(p);
      if key == [] || key == selfKey {
        return;
      }
      UpsertWellFormed(participants, p, selfKey);
      participants := Upsert(participants, p);
    }

    // ---------------------------------------------------------------------------------------
    // The outbound queue.

    /** `flushPendingSignals`: with the socket open, every queued signal is sent in the order
        it was queued and the queue is left empty; otherwise nothing happens. */
    method FlushPendingSignals()
      requires Registry()
      modifies this`outbound, this`sent
      ensures Valid()
      ensures wsOpen ==> sent == old(sent) + old(outbound) && outbound == []
      ensures !wsOpen ==> sent == old(sent) && outbound == old(outbound)
    {
      if !wsOpen {
        return;
      }
      var queued := outbound;
      outbound := [];
      var i := 0;
      while i < |queued|
        invariant 0 <= i <= |queued|
        invariant sent == old(sent) + queued[..i]
        invariant outbound == []
      {
        sent := sent + [queued[i]];
        i := i + 1;
        assert queued[..i] == queued[..i - 1] + [queued[i - 1]];
      }
      assert queued[..i] == queued;
    }

    /** `sendSignal`: sent at once on an open socket, queued at the end otherwise. Either way
        the signal comes after everything sent or queued before it. */
    /** `m` went out on the open socket, or joined the end of the queue while it is not open;
        nothing else was sent or queued. */
    ghost predicate Dispatched(m: Signal, sent0: seq<Signal>, outbound0: seq<Signal>)
      reads this
    {
      if wsOpen then sent == sent0 + [m] && outbound == outbound0 else sent == sent0 && outbound == outbound0 + [m]
    }

    method SendSignal(m: Signal)
      requires Valid()
      modifies this`outbound, this`sent
      ensures Valid()
      ensures wsOpen ==> sent == old(sent) + [m] && outbound == old(outbound)
      ensures !wsOpen ==> outbound == old(outbound) + [m] && sent == old(sent)
      ensures sent + outbound == old(sent) + old(outbound) + [m]
      ensures Dispatched(m, old(sent), old(outbound))
    {
      if !wsOpen {
        outbound := outbound + [m];
        return;
      }
      sent := sent + [m];
    }

    /** `sendParticipantState`: the local mute, camera and record flags, to everybody. */
    method SendParticipantState(next: Controls)
      requires Valid()
      modifies this`outbound, this`sent
      ensures Valid()
      ensures wsOpen ==> sent == old(sent) + [StateSignal(next)] && outbound == old(outbound)
      ensures !wsOpen ==> outbound == old(outbound) + [StateSignal(next)] && sent == old(sent)
      ensures sent + outbound == old(sent) + old(outbound) + [StateSignal(next)]
    {
      SendSignal(StateSignal(next));
    }

    // ---------------------------------------------------------------------------------------
    // The ICE buffer.

    /** `flushPendingIceCandidates`: the key's buffered candidates are handed to
        `addIceCandidate` in arrival order, once; `applied` is the calls that succeed (a
        rejected candidate is skipped). The buffer is left empty, and is not created when there
        was none. */
    method FlushPendingIceCandidates(key: Key, accepts: Value -> bool) returns (applied: seq<PcCall>)
      requires Valid()
      modifies this`pendingIce
      ensures Valid()
      ensures var queued := if key in old(pendingIce) then old(pendingIce)[key] else [];
              && applied == AddIceCalls(queued, accepts)
              && pendingIce == if queued == [] then old(pendingIce) else old(pendingIce)[key := []]
    {
      var queued := if key in pendingIce then pendingIce[key] else [];
      if queued == [] {
        return [];
      }
      pendingIce := pendingIce[key := []];
      applied := [];
      var i := 0;
      while i < |queued|
        invariant 0 <= i <= |queued|
        invariant applied == AddIceCalls(queued[..i], accepts)
      {
        assert queued[..i + 1][..i] == queued[..i];
        if accepts(queued[i]) {
          applied := applied + [AddIce(queued[i])];
        }
        i := i + 1;
      }
      assert queued[..i] == queued;
    }

    /** `queueIceCandidate`: the candidate goes to the end of the key's buffer. */
    method QueueIceCandidate(key: Key, candidate: Value)
      requires Valid() && key != []
      modifies this`pendingIce
      ensures Valid()
      ensures pendingIce == old(pendingIce)[key := (if key in old(pendingIce) then old(pendingIce)[key] else []) + [candidate]]
    {
      var buffer := if key in pendingIce then pendingIce[key] else [];
      pendingIce := pendingIce[key := buffer + [candidate]];
    }

    // ---------------------------------------------------------------------------------------
    // Peer connections.

    /** `createPeerConnection`: `false` (null) for an empty key and for the local user; the
        existing session when there is one; otherwise a new session is registered. */
    method CreatePeerConnection(remoteEmail: string) returns (ok: bool)
      requires Valid()
      modifies this`sessions, this`timers
      ensures Valid()
      ensures ok <==> SafeId(remoteEmail) != [] && SafeId(remoteEmail) != selfKey
      ensures ok ==> SafeId(remoteEmail) in sessions
      ensures !ok || old(SafeId(remoteEmail) in sessions) ==> sessions == old(sessions)
      ensures ok && old(SafeId(remoteEmail) !in sessions) ==>
                sessions == old(sessions)[SafeId(remoteEmail) := FreshSession(remoteEmail)]
      ensures timers == old(timers)
    {
      var key := SafeId(remoteEmail);
      if key == [] || key == selfKey {
        return false;
      }
      if key in sessions {
        return true;
      }
      // `clearReconnectTimer` finds nothing to cancel: a key without a session has no timer.
      sessions := sessions[key := FreshSession(remoteEmail)];
      ok := true;
    }

    /** `schedulePeerReconnect`: any pending reconnect of the key is replaced by one with the
        given delay, so a key never has two. */
    method ScheduleReconnect(key: Key, delay: nat)
      requires Valid() && key in sessions
      modifies this`timers
      ensures Valid()
      ensures timers == old(timers)[key := delay]
    {
      SessionKeyNormal(key);
      ClearReconnectTimer(key);
      timers := timers[key := delay];
    }

    /** `onconnectionstatechange` of the key's connection (a connection that has been torn down
        has no handlers). `connected` cancels the reconnect, `disconnected` and `failed`
        schedule one after 3500 and 800 ms, `closed` tears the peer down at once. */
    method OnConnectionStateChange(key: Key, state: ConnectionState)
      requires Valid()
      modifies this`sessions, this`pendingIce, this`timers, this`participants
      ensures Valid()
      ensures key !in old(sessions) ==>
                sessions == old(sessions) && pendingIce == old(pendingIce)
                && timers == old(timers) && participants == old(participants)
      ensures key in old(sessions) && state != Closed ==>
                sessions == old(sessions)[key := old(sessions)[key].(connection := state)]
                && pendingIce == old(pendingIce) && participants == old(participants)
      ensures key in old(sessions) && state == Connected ==> timers == old(timers) - {key}
      ensures key in old(sessions) && state == Disconnected ==> timers == old(timers)[key := DisconnectedDelay]
      ensures key in old(sessions) && state == Failed ==> timers == old(timers)[key := FailedDelay]
      ensures key in old(sessions) && (state == New || state == Connecting) ==> timers == old(timers)
      ensures key in old(sessions) && state == Closed ==>
                sessions == old(sessions) - {key} && pendingIce == old(pendingIce) - {key}
                && timers == old(timers) - {key} && participants == WithoutKey(old(participants), key)
    {
      if key !in sessions {
        return;
      }
      var remoteEmail := sessions[key].remoteEmail;
      sessions := sessions[key := sessions[key].(connection := state)];
      match state {
        case Connected => ClearReconnectTimer(remoteEmail);
        case Disconnected => ScheduleReconnect(key, DisconnectedDelay);
        case Failed => ScheduleReconnect(key, FailedDelay);
        case Closed =>
          MapUpdateRemove(old(sessions), key, sessions[key]);
          MapRemoveTwice(old(pendingIce), key);
          DropPeer(remoteEmail);
        case New =>
        case Connecting =>
      }
    }

    /** `oniceconnectionstatechange`: ICE `failed` schedules a reconnect after 600 ms. */
    method OnIceConnectionStateChange(key: Key, iceFailed: bool)
      requires Valid()
      modifies this`timers
      ensures Valid()
      ensures key in sessions && iceFailed ==> timers == old(timers)[key := IceFailedDelay]
      ensures key !in sessions || !iceFailed ==> timers == old(timers)
    {
      if key in sessions && iceFailed {
        ScheduleReconnect(key, IceFailedDelay);
      }
    }

    /** `onicecandidate`: a local candidate is signalled to the peer; the end-of-candidates
        event (no candidate) is not. */
    method OnLocalIceCandidate(key: Key, candidate: Value)
      requires Valid()
      modifies this`outbound, this`sent
      ensures Valid()
      ensures key in sessions && Truthy(candidate) ==>
                sent + outbound == old(sent) + old(outbound)
                  + [Signal(Ice, roomName, selfEmail, Some(sessions[key].remoteEmail), candidate)]
      ensures key !in sessions || !Truthy(candidate) ==> sent == old(sent) && outbound == old(outbound)
    {
      if key in sessions && Truthy(candidate) {
        SendSignal(Signal(Ice, roomName, selfEmail, Some(sessions[key].remoteEmail), candidate));
      }
    }

    /** `ontrack`: the peer's tile is added or replaced, now with its stream. */
    method OnTrack(key: Key, stream: Option<StreamId>)
      requires Valid()
      modifies this`participants
      ensures Valid()
      ensures key in sessions && stream.Some? ==>
                participants == Upsert(old(participants), PeerRecord(sessions[key].remoteEmail, stream, hostUserId))
      ensures key !in sessions || stream.None? ==> participants == old(participants)
    {
      if key in sessions && stream.Some? {
        AddOrUpdateParticipant(PeerRecord(sessions[key].remoteEmail, stream, hostUserId));
      }
    }

    /** `sendOfferTo`: only towards another participant whom the local side initiates to, and
        only on an open socket. The session is created if needed; a pending local offer is rolled
        back first; then the offer is set locally and signalled. `descOk` is whether the
        description calls succeed (a failure stops the handler and is only logged). */
    method SendOfferTo(targetEmail: string, descOk: bool, offer: Value)
      requires Valid()
      modifies this`sessions, this`timers, this`outbound, this`sent
      ensures Valid()
      ensures timers == old(timers)
      ensures !(wsOpen && ShouldInitiateOffer(selfEmail, targetEmail)) ==>
                sessions == old(sessions) && sent == old(sent) && outbound == old(outbound)
      ensures wsOpen && ShouldInitiateOffer(selfEmail, targetEmail) ==>
                var key := SafeId(targetEmail);
                var base := SessionFor(old(sessions), key, targetEmail);
                && outbound == old(outbound)
                && (descOk ==>
                      sessions == old(sessions)[key := Offered(base, offer)]
                      && sent == old(sent) + [Signal(Offer, roomName, selfEmail, Some(targetEmail), offer)])
                && (!descOk ==> sessions == old(sessions)[key := base] && sent == old(sent))
    {
      var key := SafeId(targetEmail);
      if key == [] || key == selfKey {
        InitiatorNeedsKey(selfEmail, targetEmail);
        return;
      }
      if !ShouldInitiateOffer(selfEmail, targetEmail) {
        return;
      }
      if !wsOpen {
        return;
      }
      var ok := CreatePeerConnection(targetEmail);
      var s := sessions[key];
      if key in old(sessions) {
        MapUpdateSame(old(sessions), key);
      }
      if !descOk {
        return;
      }
      sessions := sessions[key := Offered(s, offer)];
      MapUpdateTwice(old(sessions), key, s, Offered(s, offer));
      SendSignal(Signal(Offer, roomName, selfEmail, Some(targetEmail), offer));
    }

    /** A reconnect timer fires (a cancelled one never does): the peer is torn down and, on an
        open socket, a fresh offer is attempted. */
    method OnReconnectTimer(key: Key, descOk: bool, offer: Value)
      requires Valid()
      modifies this`sessions, this`pendingIce, this`timers, this`participants, this`outbound, this`sent
      ensures Valid()
      ensures key !in old(timers) ==>
                sessions == old(sessions) && pendingIce == old(pendingIce) && timers == old(timers)
                && participants == old(participants) && sent == old(sent) && outbound == old(outbound)
      ensures key in old(timers) ==>
                var remoteEmail := old(sessions)[key].remoteEmail;
                var offered := wsOpen && ShouldInitiateOffer(selfEmail, remoteEmail);
                && pendingIce == old(pendingIce) - {key}
                && timers == old(timers) - {key}
                && participants == WithoutKey(old(participants), key)
                && outbound == old(outbound)
                && (!offered ==> sessions == old(sessions) - {key} && sent == old(sent))
                && (offered && descOk ==>
                      sessions == (old(sessions) - {key})[key := Offered(FreshSession(remoteEmail), offer)]
                      && sent == old(sent) + [Signal(Offer, roomName, selfEmail, Some(remoteEmail), offer)])
                && (offered && !descOk ==>
                      sessions == (old(sessions) - {key})[key := FreshSession(remoteEmail)] && sent == old(sent))
    {
      if key !in timers {
        return;
      }
      var remoteEmail := sessions[key].remoteEmail;
      assert SafeId(remoteEmail) == key;
      // The fired timer's entry goes with the teardown of the peer.
      DropPeer(remoteEmail);
      if wsOpen {
        assert SessionFor(sessions, key, remoteEmail) == FreshSession(remoteEmail);
        SendOfferTo(remoteEmail, descOk, offer);
      } else {
        assert sent == old(sent) && outbound == old(outbound);
      }
    }

    // ---------------------------------------------------------------------------------------
    // Inbound signals.

    /** `handleSignalMessage`: an unparsable or misrouted message is dropped (nothing changes);
        otherwise the handler for its type runs for the sender. `descOk` is whether the
        description calls succeed, `answer` the description `createAnswer` gives, `accepts`
        whether `addIceCandidate` takes a candidate. */
    method HandleSignalMessage(message: Option<Value>, descOk: bool, answer: Value, accepts: Value -> bool)
      requires Valid()
      modifies this`sessions, this`pendingIce, this`timers, this`participants, this`outbound, this`sent,
               this`statusError
      ensures Valid()
      ensures timers == old(timers)
      ensures message.None? || Route(message.value, selfKey).None? ==>
                sessions == old(sessions) && pendingIce == old(pendingIce)
                && participants == old(participants) && sent == old(sent) && outbound == old(outbound)
                && statusError == old(statusError)
      ensures message.Some? && Route(message.value, selfKey).Some? && Route(message.value, selfKey).value.kind == State ==>
                var inbound := Route(message.value, selfKey).value;
                && participants == ApplyState(old(participants), SafeId(inbound.from), inbound.payload)
                && sessions == old(sessions) && pendingIce == old(pendingIce) && sent == old(sent)
                && outbound == old(outbound) && statusError == old(statusError)
      ensures message.Some? && Route(message.value, selfKey).Some? && Route(message.value, selfKey).value.kind != Offer ==>
                sent == old(sent) && outbound == old(outbound)
      ensures message.Some? && Route(message.value, selfKey).Some? && Route(message.value, selfKey).value.kind == Offer ==>
                var inbound := Route(message.value, selfKey).value;
                OfferHandled(inbound.from, inbound.payload, descOk, answer, accepts, old(sessions), old(pendingIce),
                             old(participants), old(sent), old(outbound), old(statusError))
      ensures message.Some? && Route(message.value, selfKey).Some? && Route(message.value, selfKey).value.kind == Answer ==>
                var inbound := Route(message.value, selfKey).value;
                && AnswerHandled(inbound.from, inbound.payload, descOk, accepts, old(sessions), old(pendingIce), old(statusError))
                && participants == old(participants)
      ensures message.Some? && Route(message.value, selfKey).Some? && Route(message.value, selfKey).value.kind == Ice ==>
                var inbound := Route(message.value, selfKey).value;
                && IceHandled(inbound.from, inbound.payload, accepts, old(sessions), old(pendingIce), old(statusError))
                && participants == old(participants)
      ensures message.Some? && Route(message.value, selfKey).Some? && Route(message.value, selfKey).value.kind == Answer
              && SafeId(Route(message.value, selfKey).value.from) !in old(sessions) ==>
                sessions == old(sessions) && pendingIce == old(pendingIce) && participants == old(participants)
                && statusError == old(statusError)
    {
      if message.None? {
        return;
      }
      var route := Route(message.value, selfKey);
      if route.None? {
        return;
      }
      RouteSenderKey(message.value, selfKey);
      var inbound := route.value;
      match inbound.kind {
        case Offer => HandleOffer(inbound.from, inbound.payload, descOk, answer, accepts);
        case Answer => HandleAnswer(inbound.from, inbound.payload, descOk, accepts);
        case Ice => HandleIce(inbound.from, inbound.payload, accepts);
        case State =>
          ApplyStateWellFormed(participants, SafeId(inbound.from), inbound.payload, selfKey);
          participants := ApplyState(participants, SafeId(inbound.from), inbound.payload);
      }
    }

    /** An offer: the session is created if needed; with a payload and working description
        calls it is answered (`AcceptOffer`); a failing call reports the negotiation error. */
    /** The state after an offer from `from`, given the state before it: an empty or own key
        changes nothing; without a payload or with a failing description call only the session
        is ensured (and a failure is reported); otherwise the session is answered, its buffer
        drained, the answer signalled and the sender's tile added. */
    ghost predicate OfferHandled(from: string, offer: Value, descOk: bool, answer: Value, accepts: Value -> bool,
                                 sessions0: map<Key, Session>, pendingIce0: map<Key, seq<Value>>,
                                 participants0: seq<Participant>, sent0: seq<Signal>, outbound0: seq<Signal>,
                                 error0: Value)
      reads this
    {
      var key := SafeId(from);
      && (key == [] || key == selfKey ==>
            sessions == sessions0 && pendingIce == pendingIce0 && participants == participants0
            && sent == sent0 && outbound == outbound0 && statusError == error0)
      && (key != [] && key != selfKey && !(Truthy(offer) && descOk) ==>
            sessions == sessions0[key := SessionFor(sessions0, key, from)]
            && pendingIce == pendingIce0 && participants == participants0
            && sent == sent0 && outbound == outbound0
            && statusError == if Truthy(offer) then NegotiationFailed else error0)
      && (key != [] && key != selfKey && Truthy(offer) && descOk ==>
            var base := SessionFor(sessions0, key, from);
            var queued := if key in pendingIce0 then pendingIce0[key] else [];
            && sessions == sessions0[key := Answered(base, offer, AddIceCalls(queued, accepts), answer)]
            && pendingIce == (if queued == [] then pendingIce0 else pendingIce0[key := []])
            && Dispatched(Signal(Answer, roomName, selfEmail, Some(from), answer), sent0, outbound0)
            && participants == Upsert(participants0, PeerRecord(from, None, hostUserId))
            && statusError == error0)
    }

    method HandleOffer(from: string, offer: Value, descOk: bool, answer: Value, accepts: Value -> bool)
      requires Valid()
      modifies this`sessions, this`pendingIce, this`timers, this`participants, this`outbound, this`sent,
               this`statusError
      ensures Valid()
      ensures timers == old(timers)
      ensures OfferHandled(from, offer, descOk, answer, accepts, old(sessions), old(pendingIce), old(participants),
                           old(sent), old(outbound), old(statusError))
    {
      var key := SafeId(from);
      var ok := CreatePeerConnection(from);
      if !ok {
        return;
      }
      ghost var base := SessionFor(old(sessions), key, from);
      if key in old(sessions) {
        MapUpdateSame(old(sessions), key);
      }
      if !Truthy(offer) {
        return;
      }
      if !descOk {
        statusError := NegotiationFailed;
        return;
      }
      AcceptOffer(from, offer, answer, accepts);
      MapUpdateTwice(old(sessions), key, base, sessions[key]);
    }

    /** The offer handler once the session exists and the description calls succeed: a pending
        local offer is rolled back BEFORE the remote description is set, the buffered candidates
        are applied, the answer is set locally and signalled to the sender, and the sender's tile
        is added without a stream. */
    method AcceptOffer(from: string, offer: Value, answer: Value, accepts: Value -> bool)
      requires Valid() && SafeId(from) in sessions
      modifies this`sessions, this`pendingIce, this`participants, this`outbound, this`sent
      ensures Valid()
      ensures var key := SafeId(from);
              var queued := if key in old(pendingIce) then old(pendingIce)[key] else [];
              && sessions == old(sessions)[key := Answered(old(sessions)[key], offer, AddIceCalls(queued, accepts), answer)]
              && pendingIce == (if queued == [] then old(pendingIce) else old(pendingIce)[key := []])
              && sent + outbound == old(sent) + old(outbound) + [Signal(Answer, roomName, selfEmail, Some(from), answer)]
              && participants == Upsert(old(participants), PeerRecord(from, None, hostUserId))
      ensures Dispatched(Signal(Answer, roomName, selfEmail, Some(from), answer), old(sent), old(outbound))
    {
      var key := SafeId(from);
      var s := sessions[key];
      var applied := FlushPendingIceCandidates(key, accepts);
      SessionsKeyedUpdate(sessions, selfKey, key, Answered(s, offer, applied, answer));
      sessions := sessions[key := Answered(s, offer, applied, answer)];
      SendSignal(Signal(Answer, roomName, selfEmail, Some(from), answer));
      AddOrUpdateParticipant(PeerRecord(from, None, hostUserId));
    }

    /** An answer: ignored without a session or a payload; it is set as the remote description
        whatever the session's phase, and fails (and is reported) when the browser refuses it
        (`descOk`); otherwise the buffered candidates are applied. */
    /** The state after an answer from `from`, given the state before it. */
    ghost predicate AnswerHandled(from: string, answer: Value, descOk: bool, accepts: Value -> bool,
                                  sessions0: map<Key, Session>, pendingIce0: map<Key, seq<Value>>, error0: Value)
      reads this
    {
      var key := SafeId(from);
      && (key !in sessions0 || !Truthy(answer) ==>
            sessions == sessions0 && pendingIce == pendingIce0 && statusError == error0)
      && (key in sessions0 && Truthy(answer) && !descOk ==>
            sessions == sessions0 && pendingIce == pendingIce0 && statusError == NegotiationFailed)
      && (key in sessions0 && Truthy(answer) && descOk ==>
            var s := sessions0[key];
            var queued := if key in pendingIce0 then pendingIce0[key] else [];
            && sessions == sessions0[key := s.(phase := Stable, hasRemoteDescription := true,
                                               calls := s.calls + [SetRemote(answer)] + AddIceCalls(queued, accepts))]
            && pendingIce == (if queued == [] then pendingIce0 else pendingIce0[key := []])
            && statusError == error0)
    }

    method HandleAnswer(from: string, answer: Value, descOk: bool, accepts: Value -> bool)
      requires Valid()
      modifies this`sessions, this`pendingIce, this`statusError
      ensures Valid()
      ensures AnswerHandled(from, answer, descOk, accepts, old(sessions), old(pendingIce), old(statusError))
    {
      var key := SafeId(from);
      if key !in sessions || !Truthy(answer) {
        return;
      }
      var s := sessions[key];
      if !descOk {
        statusError := NegotiationFailed;
        return;
      }
      var applied := FlushPendingIceCandidates(key, accepts);
      sessions := sessions[key := s.(phase := Stable, hasRemoteDescription := true, calls := s.calls + [SetRemote(answer)] + applied)];
    }

    /** A remote candidate: buffered while there is no session or no remote description yet,
        applied otherwise (a rejected candidate is reported). */
    /** The state after a remote candidate from `from`, given the state before it. */
    ghost predicate IceHandled(from: string, candidate: Value, accepts: Value -> bool,
                               sessions0: map<Key, Session>, pendingIce0: map<Key, seq<Value>>, error0: Value)
      reads this
    {
      var key := SafeId(from);
      && (!Truthy(candidate) ==>
            sessions == sessions0 && pendingIce == pendingIce0 && statusError == error0)
      && (Truthy(candidate) && (key !in sessions0 || !sessions0[key].hasRemoteDescription) ==>
            && pendingIce == pendingIce0[key := (if key in pendingIce0 then pendingIce0[key] else []) + [candidate]]
            && sessions == sessions0 && statusError == error0)
      && (Truthy(candidate) && key in sessions0 && sessions0[key].hasRemoteDescription ==>
            var s := sessions0[key];
            && pendingIce == pendingIce0
            && (accepts(candidate) ==>
                  sessions == sessions0[key := s.(calls := s.calls + [AddIce(candidate)])]
                  && statusError == error0)
            && (!accepts(candidate) ==> sessions == sessions0 && statusError == NegotiationFailed))
    }

    method HandleIce(from: string, candidate: Value, accepts: Value -> bool)
      requires Valid() && SafeId(from) != []
      modifies this`sessions, this`pendingIce, this`statusError
      ensures Valid()
      ensures IceHandled(from, candidate, accepts, old(sessions), old(pendingIce), old(statusError))
    {
      var key := SafeId(from);
      if !Truthy(candidate) {
        return;
      }
      if key !in sessions || !sessions[key].hasRemoteDescription {
        QueueIceCandidate(key, candidate);
        return;
      }
      if accepts(candidate) {
        var s := sessions[key];
        sessions := sessions[key := s.(calls := s.calls + [AddIce(candidate)])];
      } else {
        statusError := NegotiationFailed;
      }
    }

    // ---------------------------------------------------------------------------------------
    // The socket and the local media.

    /** The broadcast of the local flags. */
    function StateSignal(next: Controls): Signal {
      Signal(State, roomName, selfEmail, None, StatePayload(next))
    }

    /** The offers to the given e-mails, in order. */
    function OfferSignals(targets: seq<string>, offer: Value): (signals: seq<Signal>)
      ensures |signals| == |targets|
      ensures forall i | 0 <= i < |targets| :: signals[i] == Signal(Offer, roomName, selfEmail, Some(targets[i]), offer)
    {
      if targets == [] then []
      else OfferSignals(targets[..|targets| - 1], offer)
             + [Signal(Offer, roomName, selfEmail, Some(targets[|targets| - 1]), offer)]
    }

    /** Appending one target appends its offer. */
    lemma OfferSignalsSnoc(targets: seq<string>, email: string, offer: Value)
      ensures OfferSignals(targets + [email], offer)
              == OfferSignals(targets, offer) + [Signal(Offer, roomName, selfEmail, Some(email), offer)]
    {
      assert (targets + [email])[..|targets|] == targets;
    }

    /** `connectWebSocket`: without a configured URL the error is shown and nothing else
        happens; otherwise a new socket for the meeting and the local e-mail replaces the
        current one and is not open yet. */
    method Connect(baseUrl: string)
      requires Valid()
      modifies this`statusError, this`wsUrl, this`wsOpen, this`wsLive
      ensures Valid()
      ensures baseUrl == [] ==>
                statusError == NoSignalingUrl && wsUrl == old(wsUrl) && wsOpen == old(wsOpen) && wsLive == old(wsLive)
      ensures baseUrl != [] ==>
                wsUrl == NormalizeWsUrl(baseUrl, roomName, selfEmail) && !wsOpen && wsLive
                && statusError == old(statusError)
    {
      var url := NormalizeWsUrl(baseUrl, roomName, selfEmail);
      if url == [] {
        statusError := NoSignalingUrl;
        return;
      }
      wsUrl := url;
      wsOpen := false;
      wsLive := true;
    }

    /** `socket.onopen`: the queue is flushed in order, then the local flags are broadcast. */
    method OnSocketOpen()
      requires Valid()
      modifies this`wsOpen, this`statusError, this`outbound, this`sent
      ensures Valid()
      ensures !old(wsLive) || old(wsOpen) ==>
                wsOpen == old(wsOpen) && statusError == old(statusError) && outbound == old(outbound) && sent == old(sent)
      ensures old(wsLive) && !old(wsOpen) ==>
                wsOpen && statusError == Str("") && outbound == []
                && sent == old(sent) + old(outbound) + [StateSignal(controls)]
    {
      if !wsLive || wsOpen {
        return;
      }
      wsOpen := true;
      statusError := Str("");
      FlushPendingSignals();
      SendParticipantState(controls);
    }

    /** `socket.onerror`: the socket is no longer ready; the error is shown unless the page is
        gone or leaving. */
    method OnSocketError()
      requires Valid()
      modifies this`wsOpen, this`statusError
      ensures Valid()
      ensures wsOpen == (old(wsOpen) && !wsLive)
      ensures statusError == if wsLive && mounted && !leaving then Str("WebSocket signaling failed. Reconnecting...")
                             else old(statusError)
    {
      if !wsLive {
        return;
      }
      wsOpen := false;
      if mounted && !leaving {
        statusError := Str("WebSocket signaling failed. Reconnecting...");
      }
    }

    /** `socket.onclose`: unless the page is gone or leaving, the error is shown and one
        reconnect is scheduled (a pending one is not doubled). */
    method OnSocketClose()
      requires Valid()
      modifies this`wsOpen, this`wsLive, this`statusError, this`wsReconnectPending
      ensures Valid()
      ensures !old(wsLive) ==> wsOpen == old(wsOpen) && statusError == old(statusError)
                               && wsReconnectPending == old(wsReconnectPending)
      ensures old(wsLive) ==> !wsOpen && !wsLive
      ensures old(wsLive) && mounted && !leaving ==> statusError == Reconnecting && wsReconnectPending
      ensures old(wsLive) && !(mounted && !leaving) ==>
                statusError == old(statusError) && wsReconnectPending == old(wsReconnectPending)
    {
      if !wsLive {
        return;
      }
      wsOpen := false;
      wsLive := false;
      if mounted && !leaving {
        statusError := Reconnecting;
        wsReconnectPending := true;
      }
    }

    /** The socket reconnect timer (1500 ms) fires: a new socket is opened. */
    method OnSocketReconnectTimer(baseUrl: string)
      requires Valid()
      modifies this`wsReconnectPending, this`statusError, this`wsUrl, this`wsOpen, this`wsLive
      ensures Valid()
      ensures !old(wsReconnectPending) ==>
                statusError == old(statusError) && wsUrl == old(wsUrl) && wsOpen == old(wsOpen) && wsLive == old(wsLive)
      ensures old(wsReconnectPending) && baseUrl != [] ==>
                !wsReconnectPending && wsUrl == NormalizeWsUrl(baseUrl, roomName, selfEmail) && !wsOpen && wsLive
                && statusError == old(statusError)
      ensures old(wsReconnectPending) && baseUrl == [] ==>
                !wsReconnectPending && statusError == NoSignalingUrl
                && wsUrl == old(wsUrl) && wsOpen == old(wsOpen) && wsLive == old(wsLive)
    {
      if !wsReconnectPending {
        return;
      }
      wsReconnectPending := false;
      Connect(baseUrl);
    }

    /** `startMediaAndSignaling`, once `getUserMedia` settles (it is only asked for when the room
        name and the local e-mail are known): granted, the camera is ready and signaling
        connects; refused, the permission error is shown. A result after the page is gone is
        discarded. */
    method OnMediaResult(granted: bool, baseUrl: string)
      requires Valid()
      modifies this`cameraReady, this`mediaBlocked, this`statusError, this`wsUrl, this`wsOpen, this`wsLive
      ensures Valid()
      ensures roomName == [] || selfEmail == [] || !mounted ==>
                cameraReady == old(cameraReady) && mediaBlocked == old(mediaBlocked) && statusError == old(statusError)
                && wsUrl == old(wsUrl) && wsOpen == old(wsOpen) && wsLive == old(wsLive)
      ensures roomName != [] && selfEmail != [] && mounted && !granted ==>
                mediaBlocked && statusError == MediaDenied && cameraReady == old(cameraReady)
                && wsUrl == old(wsUrl) && wsOpen == old(wsOpen) && wsLive == old(wsLive)
      ensures roomName != [] && selfEmail != [] && mounted && granted ==>
                cameraReady && !mediaBlocked
                && (baseUrl == [] ==>
                      statusError == NoSignalingUrl && wsUrl == old(wsUrl) && wsOpen == old(wsOpen) && wsLive == old(wsLive))
                && (baseUrl != [] ==>
                      wsUrl == NormalizeWsUrl(baseUrl, roomName, selfEmail) && !wsOpen && wsLive
                      && statusError == old(statusError))
    {
      if roomName == [] || selfEmail == [] || !mounted {
        return;
      }
      if !granted {
        mediaBlocked := true;
        statusError := MediaDenied;
        return;
      }
      cameraReady := true;
      mediaBlocked := false;
      Connect(baseUrl);
    }

    /** Every peer connection is torn down (`Object.keys(...).forEach(clearPeerConnection)`):
        the registry and the reconnect timers end empty, and so do the candidate buffers of the
        keys that had a session. */
    method ClearAllPeerConnections()
      requires Valid()
      modifies this`sessions, this`pendingIce, this`timers
      ensures Valid()
      ensures sessions == map[] && timers == map[]
      ensures forall k :: k in pendingIce <==> k in old(pendingIce) && k !in old(sessions)
      ensures forall k | k in pendingIce :: pendingIce[k] == old(pendingIce)[k]
    {
      while sessions != map[]
        invariant Valid()
        invariant sessions.Keys <= old(sessions).Keys
        invariant forall k :: k in pendingIce <==> k in old(pendingIce) && (k !in old(sessions) || k in sessions)
        invariant forall k | k in pendingIce :: pendingIce[k] == old(pendingIce)[k]
        decreases |sessions.Keys|
      {
        var k :| k in sessions;
        SessionKeyNormal(k);
        ClearPeerConnection(k);
      }
      assert timers.Keys == {};
    }

    /** The cleanup of the media and signaling effect (on unmount and on a media retry):
        the socket and its reconnect timer are dropped, every peer is torn down, and every
        buffer, queue, timer and tile is emptied. */
    method TearDown()
      requires Valid()
      modifies this`wsReconnectPending, this`wsOpen, this`wsLive, this`sessions, this`pendingIce,
               this`timers, this`outbound, this`participants, this`isScreenSharing, this`cameraReady
      ensures Valid()
      ensures !wsReconnectPending && !wsOpen && !wsLive && !cameraReady && !isScreenSharing
      ensures sessions == map[] && pendingIce == map[] && timers == map[] && outbound == [] && participants == []
    {
      wsReconnectPending := false;
      wsOpen := false;
      wsLive := false;
      ClearAllPeerConnections();
      cameraReady := false;
      pendingIce := map[];
      outbound := [];
      timers := map[];
      participants := [];
      isScreenSharing := false;
    }

    /** The page is unmounted: everything is torn down and later results are discarded. */
    method Unmount()
      requires Valid()
      modifies this`wsReconnectPending, this`wsOpen, this`wsLive, this`sessions, this`pendingIce,
               this`timers, this`outbound, this`participants, this`isScreenSharing, this`cameraReady, this`mounted
      ensures Valid()
      ensures !mounted && !wsReconnectPending && !wsOpen && !wsLive && !cameraReady && !isScreenSharing
      ensures sessions == map[] && pendingIce == map[] && timers == map[] && outbound == [] && participants == []
    {
      TearDown();
      mounted := false;
    }

    /** `handleEnableMedia`: the error is cleared and the media and signaling effect runs again
        (its cleanup first; the new `getUserMedia` result arrives as `OnMediaResult`). */
    method RetryMedia()
      requires Valid()
      modifies this`statusError, this`wsReconnectPending, this`wsOpen, this`wsLive, this`sessions, this`pendingIce,
               this`timers, this`outbound, this`participants, this`isScreenSharing, this`cameraReady
      ensures Valid()
      ensures statusError == Str("") && !wsOpen && !wsLive && !cameraReady && !isScreenSharing
      ensures sessions == map[] && pendingIce == map[] && timers == map[] && outbound == [] && participants == []
    {
      statusError := Str("");
      TearDown();
    }

    // ---------------------------------------------------------------------------------------
    // The status poll.

    /** The offer loop of `syncMeetingStatus`: in API order, every listed peer without a session
        is offered to while the socket is open (`sendOfferTo` itself skips the peers the remote
        side initiates to). The peers that get an offer are `OfferTargets`; existing sessions
        are left alone (`OpenSessionsEffect`). */
    method OfferMissingPeers(roster: seq<Participant>, descOk: bool, offer: Value)
      requires Valid() && WellFormed(roster, selfKey)
      requires forall i | 0 <= i < |roster| :: roster[i].id == roster[i].email
      modifies this`sessions, this`timers, this`outbound, this`sent
      ensures Valid()
      ensures timers == old(timers) && outbound == old(outbound)
      ensures wsOpen && descOk ==>
                sent == old(sent) + OfferSignals(OfferTargets(roster, old(sessions).Keys, selfEmail), offer)
      ensures !(wsOpen && descOk) ==> sent == old(sent)
      ensures wsOpen ==>
                sessions == OpenSessions(old(sessions), OfferTargets(roster, old(sessions).Keys, selfEmail), descOk, offer)
      ensures !wsOpen ==> sessions == old(sessions)
    {
      assert roster[..0] == [];
      assert old(sent) + [] == old(sent);
      var i := 0;
      while i < |roster|
        invariant 0 <= i <= |roster|
        invariant Valid()
        invariant timers == old(timers) && outbound == old(outbound)
        invariant OfferProgress(roster[..i], old(sessions), old(sent), descOk, offer)
      {
        OfferNext(roster, i, old(sessions), old(sent), descOk, offer);
        i := i + 1;
      }
      assert roster[..i] == roster;
    }

    /** Where the offer loop stands after the listed peers `done`, from the registry `base`
        and the log `baseSent` it started with. */
    ghost predicate OfferProgress(done: seq<Participant>, base: map<Key, Session>, baseSent: seq<Signal>,
                                  descOk: bool, offer: Value)
      reads this
    {
      var targets := OfferTargets(done, base.Keys, selfEmail);
      && (wsOpen && descOk ==> sent == baseSent + OfferSignals(targets, offer))
      && (!(wsOpen && descOk) ==> sent == baseSent)
      && (wsOpen ==> sessions == OpenSessions(base, targets, descOk, offer))
      && (!wsOpen ==> sessions == base)
    }

    /** One turn of the offer loop, for the listed peer `roster[i]`. */
    method OfferNext(roster: seq<Participant>, i: nat, ghost base: map<Key, Session>, ghost baseSent: seq<Signal>,
                     descOk: bool, offer: Value)
      requires Valid() && WellFormed(roster, selfKey) && i < |roster|
      requires forall j | 0 <= j < |roster| :: roster[j].id == roster[j].email
      requires OfferProgress(roster[..i], base, baseSent, descOk, offer)
      modifies this`sessions, this`timers, this`outbound, this`sent
      ensures Valid()
      ensures timers == old(timers) && outbound == old(outbound)
      ensures OfferProgress(roster[..i + 1], base, baseSent, descOk, offer)
    {
      ghost var known := base.Keys;
      var p := roster[i];
      var key := SafeId(p.email);
      ghost var targets := OfferTargets(roster[..i], known, selfEmail);
      OfferTargetsStep(roster, i, known, selfEmail);
      if wsOpen {
        KeysApart(roster, i, selfKey);
        OfferTargetsKeys(roster[..i], known, selfEmail, key);
        OpenSessionsHas(base, targets, descOk, offer, key);
      }
      if key !in sessions && wsOpen {
        OfferToNewPeer(p.email, descOk, offer);
        if ShouldInitiateOffer(selfEmail, p.email) {
          assert OfferTargets(roster[..i + 1], known, selfEmail) == targets + [p.email];
          OpenSessionsSnoc(base, targets, p.email, descOk, offer);
          if descOk {
            OfferSignalsSnoc(targets, p.email, offer);
            AppendAssociative(baseSent, OfferSignals(targets, offer), [Signal(Offer, roomName, selfEmail, Some(p.email), offer)]);
          }
        } else {
          assert OfferTargets(roster[..i + 1], known, selfEmail) == targets;
        }
      } else if wsOpen {
        assert OfferTargets(roster[..i + 1], known, selfEmail) == targets;
      }
    }

    /** `sendOfferTo` for a peer without a session, on an open socket. */
    method OfferToNewPeer(targetEmail: string, descOk: bool, offer: Value)
      requires Valid() && wsOpen && SafeId(targetEmail) !in sessions
      modifies this`sessions, this`timers, this`outbound, this`sent
      ensures Valid()
      ensures timers == old(timers) && outbound == old(outbound)
      ensures !ShouldInitiateOffer(selfEmail, targetEmail) ==> sessions == old(sessions) && sent == old(sent)
      ensures ShouldInitiateOffer(selfEmail, targetEmail) ==>
                && sessions == old(sessions)[SafeId(targetEmail) := Opened(targetEmail, descOk, offer)]
                && (descOk ==> sent == old(sent) + [Signal(Offer, roomName, selfEmail, Some(targetEmail), offer)])
                && (!descOk ==> sent == old(sent))
    {
      SendOfferTo(targetEmail, descOk, offer);
    }

    /** One round of `syncMeetingStatus` with the reply of `getMeetingStatus`: a failed reply
        shows its error; otherwise the status and the host id are taken, the tiles are rebuilt
        from the API list (keeping known streams), missing peers are offered to, and an expired
        meeting schedules the return to the dashboard. A step that throws ends the round there.
        Nothing happens without a room name or after the page is gone. */
    method SyncMeetingStatus(response: ApiResponse, descOk: bool, offer: Value)
      requires Valid()
      modifies this`statusError, this`meetingStatus, this`hostUserId, this`participants, this`sessions,
               this`timers, this`outbound, this`sent, this`exitScheduled
      ensures Valid()
      ensures timers == old(timers) && outbound == old(outbound)
      ensures roomName == [] || !mounted || response.ok ==> statusError == old(statusError)
      ensures roomName != [] && mounted && !response.ok ==> statusError == ExtractErrorMessage(response)
      ensures roomName == [] || !mounted || !response.ok ==>
                meetingStatus == old(meetingStatus) && hostUserId == old(hostUserId)
                && participants == old(participants) && sessions == old(sessions) && sent == old(sent)
                && exitScheduled == old(exitScheduled)
      ensures roomName != [] && mounted && response.ok ==>
                StatusApplied(ResponseData(response), old(meetingStatus), old(hostUserId), old(participants),
                              old(sessions), old(sent), old(exitScheduled), descOk, offer)
    {
      if roomName == [] || !mounted {
        return;
      }
      if !response.ok {
        statusError := ExtractErrorMessage(response);
        return;
      }
      ApplyStatusData(ResponseData(response), descOk, offer);
    }

    /** What a round does with the data of a successful reply, from the state it started in:
        an unreadable status changes nothing; otherwise the status is taken; a readable host
        id is taken too, and a roster that parses rebuilds the tiles, sends the offers of
        `OfferMissingPeers` and schedules the exit of an expired meeting. */
    ghost predicate StatusApplied(data: Value, status0: string, host0: string, participants0: seq<Participant>,
                                  sessions0: map<Key, Session>, sent0: seq<Signal>, exit0: bool,
                                  descOk: bool, offer: Value)
      reads this
    {
      && meetingStatus == (if StatusOf(data).Some? then StatusOf(data).value else status0)
      && hostUserId == (if StatusOf(data).Some? && HostIdOf(data).Some? then HostIdOf(data).value else host0)
      && (RosterOf(data, selfKey).None? ==>
            participants == participants0 && sessions == sessions0 && sent == sent0 && exitScheduled == exit0)
      && (RosterOf(data, selfKey).Some? ==>
            var roster := RosterOf(data, selfKey).value;
            var targets := OfferTargets(roster, sessions0.Keys, selfEmail);
            && |participants| == |roster|
            && (forall i | 0 <= i < |roster| :: participants[i] == MergeOne(participants0, roster[i]))
            && (wsOpen && descOk ==> sent == sent0 + OfferSignals(targets, offer))
            && (!(wsOpen && descOk) ==> sent == sent0)
            && (wsOpen ==> sessions == OpenSessions(sessions0, targets, descOk, offer))
            && (!wsOpen ==> sessions == sessions0)
            && exitScheduled == (exit0 || meetingStatus == "EXPIRED"))
    }

    /** The part of a round after the reply's `ok` check. */
    method ApplyStatusData(data: Value, descOk: bool, offer: Value)
      requires Valid()
      modifies this`meetingStatus, this`hostUserId, this`participants, this`sessions,
               this`timers, this`outbound, this`sent, this`exitScheduled
      ensures Valid()
      ensures timers == old(timers) && outbound == old(outbound)
      ensures StatusApplied(data, old(meetingStatus), old(hostUserId), old(participants),
                            old(sessions), old(sent), old(exitScheduled), descOk, offer)
    {
      var status := StatusOf(data);
      if status.None? {
        assert RosterOf(data, selfKey).None?;
        return;
      }
      meetingStatus := status.value;
      var hostId := HostIdOf(data);
      if hostId.None? {
        assert RosterOf(data, selfKey).None?;
        return;
      }
      hostUserId := hostId.value;
      var items := ApiParticipants(data);
      var deduped := BuildDeduped(items, selfKey, hostId.value);
      assert RosterOf(data, selfKey) == deduped;
      if deduped.None? {
        return;
      }
      DedupeWellFormed(items, selfKey, hostId.value);
      DedupeFresh(items, selfKey, hostId.value);
      ApplyRoster(deduped.value, descOk, offer);
    }

    /** The second half of a successful round: the tiles are rebuilt from the deduplicated API
        list, the missing peers are offered to, and an expired meeting schedules the exit. */
    method ApplyRoster(roster: seq<Participant>, descOk: bool, offer: Value)
      requires Valid() && WellFormed(roster, selfKey)
      requires forall i | 0 <= i < |roster| :: roster[i].stream.None? && roster[i].id == roster[i].email
      modifies this`participants, this`sessions, this`timers, this`outbound, this`sent, this`exitScheduled
      ensures Valid()
      ensures timers == old(timers) && outbound == old(outbound)
      ensures |participants| == |roster|
      ensures forall i | 0 <= i < |roster| :: participants[i] == MergeOne(old(participants), roster[i])
      ensures wsOpen && descOk ==>
                sent == old(sent) + OfferSignals(OfferTargets(roster, old(sessions).Keys, selfEmail), offer)
      ensures !(wsOpen && descOk) ==> sent == old(sent)
      ensures wsOpen ==>
                sessions == OpenSessions(old(sessions), OfferTargets(roster, old(sessions).Keys, selfEmail), descOk, offer)
      ensures !wsOpen ==> sessions == old(sessions)
      ensures exitScheduled == (old(exitScheduled) || meetingStatus == "EXPIRED")
    {
      var merged := Merge(participants, roster);
      MergeEffect(participants, roster, merged, selfKey);
      participants := merged;
      OfferMissingPeers(roster, descOk, offer);
      if meetingStatus == "EXPIRED" {
        exitScheduled := true;
      }
    }

    // ---------------------------------------------------------------------------------------
    // The controls.

    /** `stopScreenShare`: only while sharing; the camera track takes its place again. */
    method StopScreenShare()
      requires Valid()
      modifies this`isScreenSharing, this`controls
      ensures Valid()
      ensures !isScreenSharing
      ensures controls == if old(isScreenSharing) then old(controls).(screenshare := false) else old(controls)
    {
      if !isScreenSharing {
        return;
      }
      isScreenSharing := false;
      controls := controls.(screenshare := false);
    }

    /** `startScreenShare` with the outcome of `getDisplayMedia`: it needs the camera stream;
        a refusal (or a failing track replacement) is reported; a capture without a video track
        changes nothing. */
    /** The state after `startScreenShare`, given the state before it: without the camera
        stream, or when the capture is refused, the error is shown and nothing else changes; a
        capture without a video track changes nothing; a granted capture turns sharing on and
        clears the error. */
    ghost predicate ShareStarted(display: DisplayMedia, sharing0: bool, controls0: Controls, error0: Value)
      reads this
    {
      && (!cameraReady ==>
            statusError == CameraNotReady && isScreenSharing == sharing0 && controls == controls0)
      && (cameraReady && display == Refused ==>
            statusError == ScreenShareBlocked && isScreenSharing == sharing0 && controls == controls0)
      && (cameraReady && display == NoVideoTrack ==>
            statusError == error0 && isScreenSharing == sharing0 && controls == controls0)
      && (cameraReady && display == Granted ==>
            isScreenSharing && controls == controls0.(screenshare := true) && statusError == Str(""))
    }

    method StartScreenShare(display: DisplayMedia)
      requires Valid()
      modifies this`isScreenSharing, this`controls, this`statusError
      ensures Valid()
      ensures ShareStarted(display, old(isScreenSharing), old(controls), old(statusError))
    {
      if !cameraReady {
        statusError := CameraNotReady;
        return;
      }
      match display {
        case Refused => statusError := ScreenShareBlocked;
        case NoVideoTrack =>
        case Granted =>
          isScreenSharing := true;
          controls := controls.(screenshare := true);
          statusError := Str("");
      }
    }

    /** The shared screen's track ends (the browser's own "stop sharing"). */
    method OnDisplayEnded()
      requires Valid()
      modifies this`isScreenSharing, this`controls
      ensures Valid()
      ensures !isScreenSharing
      ensures controls == if old(isScreenSharing) then old(controls).(screenshare := false) else old(controls)
    {
      StopScreenShare();
    }

    /** The `onended` callback as the source writes it: a closure over the `stopScreenShare` of
        the render that started the share, which sees that render's `isScreenSharing`
        (`sharingWhenStarted`) and returns at once when it was off. */
    method OnDisplayEndedAsWritten(sharingWhenStarted: bool)
      requires Valid()
      modifies this`isScreenSharing, this`controls
      ensures Valid()
      ensures !sharingWhenStarted ==> isScreenSharing == old(isScreenSharing) && controls == old(controls)
      ensures sharingWhenStarted ==>
                !isScreenSharing
                && controls == if old(isScreenSharing) then old(controls).(screenshare := false) else old(controls)
    {
      if !sharingWhenStarted {
        return;
      }
      StopScreenShare();
    }

    /** As written, a share started from the control and ended by the browser is still shown
        as on: the control only starts a share while none is on, so the callback's closure
        always sees sharing off. */
    method EndedShareStaysOnAsWritten()
      requires Valid() && !isScreenSharing && cameraReady
      modifies this`controls, this`theme, this`isScreenSharing, this`statusError, this`outbound, this`sent
      ensures Valid()
      ensures isScreenSharing && controls.screenshare
    {
      var sharingWhenStarted := isScreenSharing;
      HandleToggle(ScreenshareKey, Granted);
      OnDisplayEndedAsWritten(sharingWhenStarted);
    }

    /** With the callback reading the current state, the same sequence ends the share and
        clears the control. */
    method EndedShareStops()
      requires Valid() && !isScreenSharing && cameraReady
      modifies this`controls, this`theme, this`isScreenSharing, this`statusError, this`outbound, this`sent
      ensures Valid()
      ensures !isScreenSharing && !controls.screenshare
    {
      HandleToggle(ScreenshareKey, Granted);
      OnDisplayEnded();
    }

    /** `handleToggle`: the screen-share key starts or stops sharing; any other key flips its
        control; the theme follows the theme control; a change of mute, camera or record is
        broadcast with the new flags. */
    method HandleToggle(key: Toggle, display: DisplayMedia)
      requires Valid()
      modifies this`controls, this`theme, this`isScreenSharing, this`statusError, this`outbound, this`sent
      ensures Valid()
      ensures key == ScreenshareKey && old(isScreenSharing) ==>
                !isScreenSharing && controls == old(controls).(screenshare := false) && statusError == old(statusError)
      ensures key == ScreenshareKey && !old(isScreenSharing) ==>
                ShareStarted(display, old(isScreenSharing), old(controls), old(statusError))
      ensures key == ScreenshareKey ==> theme == old(theme) && sent == old(sent) && outbound == old(outbound)
      ensures key != ScreenshareKey ==>
                controls == Flip(old(controls), key) && isScreenSharing == old(isScreenSharing)
                && statusError == old(statusError)
      ensures key == ThemeKey ==> theme == if controls.theme then "dark" else "light"
      ensures key != ThemeKey ==> theme == old(theme)
      ensures Broadcasts(key) ==> Dispatched(StateSignal(controls), old(sent), old(outbound))
      ensures !Broadcasts(key) ==> sent == old(sent) && outbound == old(outbound)
    {
      if key == ScreenshareKey {
        if isScreenSharing {
          StopScreenShare();
        } else {
          StartScreenShare(display);
        }
        return;
      }
      var next := Flip(controls, key);
      controls := next;
      if key == ThemeKey {
        theme := if next.theme then "dark" else "light";
      }
      if Broadcasts(key) {
        SendParticipantState(next);
      }
    }

    // ---------------------------------------------------------------------------------------
    // Leaving.

    /** `handleLeaveMeeting` up to the leave request: unless the user cancels, the page is
        marked as leaving, screen sharing stops, every peer is torn down, the camera is released
        and an open socket is closed. The outbound queue and the tiles are kept. */
    method BeginLeave(confirmed: bool)
      requires Valid()
      modifies this`leaving, this`isScreenSharing, this`controls, this`sessions, this`pendingIce, this`timers,
               this`cameraReady, this`wsOpen, this`wsLive
      ensures Valid()
      ensures !confirmed ==>
                leaving == old(leaving) && isScreenSharing == old(isScreenSharing) && controls == old(controls)
                && sessions == old(sessions) && pendingIce == old(pendingIce) && timers == old(timers)
                && cameraReady == old(cameraReady) && wsOpen == old(wsOpen) && wsLive == old(wsLive)
      ensures confirmed ==>
                leaving && !isScreenSharing && !cameraReady && !wsOpen
                && controls == (if old(isScreenSharing) then old(controls).(screenshare := false) else old(controls))
                && sessions == map[] && timers == map[]
                && (forall k :: k in pendingIce <==> k in old(pendingIce) && k !in old(sessions))
                && (forall k | k in pendingIce :: pendingIce[k] == old(pendingIce)[k])
                && wsLive == (old(wsLive) && !old(wsOpen))
    {
      if !confirmed {
        return;
      }
      leaving := true;
      StopScreenShare();
      ClearAllPeerConnections();
      cameraReady := false;
      if wsOpen {
        wsOpen := false;
        wsLive := false;
      }
    }

    /** The reply to `leaveMeeting` arrives: a failure is shown and the page stays (no longer
        leaving); a success navigates to the dashboard. */
    method FinishLeave(response: ApiResponse)
      requires Valid()
      modifies this`leaving, this`statusError, this`exited
      ensures Valid()
      ensures !response.ok ==> !leaving && statusError == ExtractErrorMessage(response) && exited == old(exited)
      ensures response.ok ==> exited && leaving == old(leaving) && statusError == old(statusError)
    {
      if !response.ok {
        leaving := false;
        statusError := ExtractErrorMessage(response);
        return;
      }
      exited := true;
    }
  }

  lemma MapUpdateTwice<K, V>(m: map<K, V>, k: K, a: V, b: V)
    ensures m[k := a][k := b] == m[k := b]
  {
  }

  lemma MapUpdateRemove<K, V>(m: map<K, V>, k: K, v: V)
    ensures m[k := v] - {k} == m - {k}
  {
  }

  lemma MapRemoveTwice<K, V>(m: map<K, V>, k: K)
    ensures m - {k} - {k} == m - {k}
  {
  }

  lemma MapUpdateSame<K, V>(m: map<K, V>, k: K)
    requires k in m
    ensures m[k := m[k]] == m
  {
  }

  /** Nobody initiates to a blank e-mail or to themselves. */
  lemma InitiatorNeedsKey(selfEmail: string, targetEmail: string)
    requires SafeId(targetEmail) == [] || SafeId(targetEmail) == SafeId(selfEmail)
    ensures !ShouldInitiateOffer(selfEmail, targetEmail)
  {
    LexLessIrreflexive(SafeId(selfEmail));
  }
}
