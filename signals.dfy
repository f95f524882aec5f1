/** The signaling envelopes of the meeting room (src/pages/MeetingRoom.jsx): what the engine
    sends, and the routing checks `handleSignalMessage` applies to what it receives. */
module Signals {
  import opened Text
  import opened Dynamic
  import opened PeerIdentity

  datatype SignalType = Offer | Answer | Ice | State

  function TypeName(t: SignalType): string {
    match t
    case Offer => "offer"
    case Answer => "answer"
    case Ice => "ice"
    case State => "state"
  }

  /** The four `type` strings the handler accepts (after lower-casing). */
  function ParseTypeName(name: string): (t: Option<SignalType>)
    ensures t.Some? ==> TypeName(t.value) == name
  {
    if name == "offer" then Some(Offer)
    else if name == "answer" then Some(Answer)
    else if name == "ice" then Some(Ice)
    else if name == "state" then Some(State)
    else None
  }

  /** An outbound envelope `{action: 'signal', type, meetingId, from, to, payload}`; `to` is
      left out of the broadcast state message. */
  datatype Signal = Signal(kind: SignalType, meetingId: string, from: string, to: Option<string>, payload: Value)

  /** The object handed to `JSON.stringify` for an envelope. */
  function Envelope(s: Signal): Value {
    var fields := map["action" := Str("signal"), "type" := Str(TypeName(s.kind)),
                      "meetingId" := Str(s.meetingId), "from" := Str(s.from), "payload" := s.payload];
    Obj(if s.to.Some? then fields["to" := Str(s.to.value)] else fields)
  }

  /** An inbound message that passed routing: its type, the trimmed sender, and its payload. */
  datatype Inbound = Inbound(kind: SignalType, from: string, payload: Value)

  /** `message.payload || message.data || message.offer` (resp. `.answer`, `.candidate`);
      the state handler falls back to `{}`. */
  function PayloadOf(message: Value, kind: SignalType): (p: Value)
    ensures Truthy(Get(message, "payload")) ==> p == Get(message, "payload")
    ensures !Truthy(Get(message, "payload")) && Truthy(Get(message, "data")) ==> p == Get(message, "data")
    ensures !Truthy(Get(message, "payload")) && !Truthy(Get(message, "data")) ==>
              p == match kind
                   case Offer => Get(message, "offer")
                   case Answer => Get(message, "answer")
                   case Ice => Get(message, "candidate")
                   case State => Obj(map[])
  {
    var alternative := match kind
      case Offer => Get(message, "offer")
      case Answer => Get(message, "answer")
      case Ice => Get(message, "candidate")
      case State => Obj(map[]);
    Or(Get(message, "payload"), Or(Get(message, "data"), alternative))
  }

  /** The routing checks of `handleSignalMessage`: the type must be one of the four (any case), the
      sender (`from` or `fromEmail`) must be non-blank, and a non-blank recipient (`to` or `toEmail`)
      must normalise to the local key. A truthy `type`, `from` or `to` that is not a string makes
      the handler throw before it does anything. `None` is a dropped message. */
  function Route(message: Value, selfKey: Key): (r: Option<Inbound>)
    ensures r.Some? ==> r.value.from != [] && r.value.payload == PayloadOf(message, r.value.kind)
  {
    var kind := KindOf(message);
    var from := StringOr(Or(Get(message, "from"), Get(message, "fromEmail")), "");
    var to := StringOr(Or(Get(message, "to"), Get(message, "toEmail")), "");
    if kind.None? || from.None? || to.None? then None
    else Addressed(message, kind.value, Trim(from.value), Trim(to.value), selfKey)
  }

  /** `String(message?.type || '').toLowerCase()` checked against the four type names. */
  function KindOf(message: Value): Option<SignalType>
  {
    match StringOr(Get(message, "type"), "")
    case None => None
    case Some(t) => ParseTypeName(Lower(t))
  }

  /** The sender and recipient checks, on the trimmed `from` and `to`. */
  function Addressed(message: Value, kind: SignalType, from: string, to: string, selfKey: Key): (r: Option<Inbound>)
    ensures r.Some? ==> r.value.from == from
  {
    if from == [] then None
    else if to != [] && SafeId(to) != selfKey then None
    else Some(Inbound(kind, from, PayloadOf(message, kind)))
  }

  /** The sender of an accepted message has a non-empty key. */
  lemma RouteSenderKey(message: Value, selfKey: Key)
    requires Route(message, selfKey).Some?
    ensures SafeId(Route(message, selfKey).value.from) != []
  {
    var from := StringOr(Or(Get(message, "from"), Get(message, "fromEmail")), "").value;
    TrimByIdempotent(from, IsJsSpace);
    SafeIdEmpty(Trim(from));
  }

  /** What one engine sends reaches the addressee intact: an envelope with a non-blank sender and
      a truthy payload, addressed to the receiver (or to nobody), is accepted with its type,
      its trimmed sender and its payload. */
  lemma RouteAcceptsEnvelope(s: Signal, receiverKey: Key)
    requires Trim(s.from) != [] && Truthy(s.payload)
    requires s.to.None? || Trim(s.to.value) == [] || SafeId(s.to.value) == receiverKey
    ensures Route(Envelope(s), receiverKey) == Some(Inbound(s.kind, Trim(s.from), s.payload))
  {
    var m := Envelope(s);
    EnvelopeFields(s);
    var to := if s.to.Some? then s.to.value else "";
    assert StringOr(Or(Get(m, "to"), Get(m, "toEmail")), "") == Some(to);
    SafeIdOfTrim(to);
    RouteAccepts(m, receiverKey, s.kind, s.from, to);
  }

  /** An envelope addressed to someone else is dropped by the receiver. */
  lemma RouteDropsMisaddressed(s: Signal, receiverKey: Key)
    requires s.to.Some? && Trim(s.to.value) != [] && SafeId(s.to.value) != receiverKey
    ensures Route(Envelope(s), receiverKey) == None
  {
    var m := Envelope(s);
    EnvelopeFields(s);
    SafeIdOfTrim(s.to.value);
    assert StringOr(Or(Get(m, "to"), Get(m, "toEmail")), "") == Some(s.to.value);
  }

  /** The fields of an envelope as the receiver reads them. */
  lemma EnvelopeFields(s: Signal)
    ensures var m := Envelope(s);
            && Get(m, "type") == Str(TypeName(s.kind))
            && Lower(TypeName(s.kind)) == TypeName(s.kind)
            && ParseTypeName(TypeName(s.kind)) == Some(s.kind)
            && Get(m, "from") == Str(s.from)
            && Get(m, "payload") == s.payload
            && Get(m, "to") == (if s.to.Some? then Str(s.to.value) else Undefined)
            && Get(m, "toEmail") == Undefined
  {
    match s.kind
    case Offer => assert Lower("offer") == "offer";
    case Answer => assert Lower("answer") == "answer";
    case Ice => assert Lower("ice") == "ice";
    case State => assert Lower("state") == "state";
  }

  /** `Route` accepts a message with a known type, a non-blank string sender and a recipient
      that is blank or the local key. */
  lemma RouteAccepts(m: Value, selfKey: Key, kind: SignalType, from: string, to: string)
    requires Get(m, "type") == Str(TypeName(kind)) && Lower(TypeName(kind)) == TypeName(kind)
    requires ParseTypeName(TypeName(kind)) == Some(kind)
    requires Get(m, "from") == Str(from) && Trim(from) != []
    requires StringOr(Or(Get(m, "to"), Get(m, "toEmail")), "") == Some(to)
    requires Trim(to) == [] || SafeId(Trim(to)) == selfKey
    ensures Route(m, selfKey) == Some(Inbound(kind, Trim(from), PayloadOf(m, kind)))
  {
    assert KindOf(m) == Some(kind) by {
      assert StringOr(Get(m, "type"), "") == Some(TypeName(kind));
    }
    assert from != [];
    assert StringOr(Or(Get(m, "from"), Get(m, "fromEmail")), "") == Some(from);
  }

  /** A message whose type is not offer, answer, ice or state, in any letter case, is dropped. */
  lemma RouteDropsUnknownType(message: Value, selfKey: Key, t: string)
    requires Get(message, "type") == Str(t)
    requires Lower(t) != "offer" && Lower(t) != "answer" && Lower(t) != "ice" && Lower(t) != "state"
    ensures Route(message, selfKey) == None
  {
    assert KindOf(message) == None;
  }

  /** A message without a non-blank sender is dropped. */
  lemma RouteDropsAnonymous(message: Value, selfKey: Key)
    requires !Truthy(Get(message, "from")) && !Truthy(Get(message, "fromEmail"))
    ensures Route(message, selfKey) == None
  {
  }
}
