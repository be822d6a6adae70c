/**
 * The wire vocabulary of the relay: the payloads clients send, the events
 * and payloads the server emits, and where an emission goes.
 *
 * Every payload field the server only copies (ciphertext, wrapped keys,
 * SDP offers, ICE candidates, file chunks, ...) is an `Opaque` value: the
 * server never looks inside it. Numbers are JavaScript numbers that are
 * only copied, modelled as `int`.
 */
module Events {
  import opened UserRegistry

  /** A value the relay forwards without interpreting it. */
  type Opaque = string

  // ---------------------------------------------------------------------
  // Inbound payloads
  // ---------------------------------------------------------------------

  /** `register` */
  datatype RegisterData = RegisterData(userId: string, publicKey: string)

  /** `message:send` (interface EncryptedMessage) */
  datatype EncryptedMessage = EncryptedMessage(
    from: string, to: string, cipher: Opaque, kriKey: Opaque,
    harmony: int, timestamp: int, nonce: Opaque)

  /**
   * `typing:start` / `typing:stop`. Two handlers are registered for each of
   * these events, one reading `recipientId` and one reading `to`; a field
   * the client leaves out is `None`.
   */
  datatype TypingData = TypingData(recipientId: Option<string>, to: Option<string>)

  /**
   * `group:create`: the listed `members` (read only by the compiled build)
   * and the rest of the object (group id, name, description, key, creator,
   * timestamp), which is forwarded as it is.
   */
  datatype GroupInfo = GroupInfo(members: seq<string>, details: Opaque)

  /** `group:add_member` */
  datatype GroupInvite = GroupInvite(groupId: string, userId: string, addedBy: string)

  /** `key:exchange` */
  datatype KeyOffer = KeyOffer(to: string, publicKey: Opaque, qrData: Opaque)

  /** `peer:discover` (interface PeerDiscovery) */
  datatype PeerDiscovery = PeerDiscovery(userId: string, publicKey: string, timestamp: int)

  /** `webrtc:offer`, `webrtc:answer`, `webrtc:ice`, `webrtc:hangup` */
  datatype CallSignal =
    | Offer(to: string, offer: Opaque)
    | Answer(to: string, answer: Opaque)
    | Ice(to: string, candidate: Opaque)
    | Hangup(to: string)

  /**
   * `file:send`, `file:complete`, `voice:send`: the recipient and the rest
   * of the object, which is forwarded as it is.
   */
  datatype Addressed = Addressed(to: string, rest: Opaque)

  /** `message:self_destruct` */
  datatype SelfDestructRequest = SelfDestructRequest(messageId: Opaque, contactId: string, userId: string)

  // ---------------------------------------------------------------------
  // Outbound events
  // ---------------------------------------------------------------------

  datatype EventName =
    | Registered | UserOnline | UserOffline
    | MessageReceive | MessageDelivered | MessageError
    | UserTyping | TypingIndicator
    | GroupCreated | GroupInvitation | GroupMessageReceived | GroupMemberLeft
    | KeyReceived | SyncResponse | PeerFound
    | WebRtcOffer | WebRtcAnswer | WebRtcIce | WebRtcHangup
    | FileReceive | FileTransferComplete | VoiceReceive
    | MessageDelete | MessageDeleted
  {
    /** The event name on the wire. */
    function Wire(): string {
      match this
      case Registered => "registered"
      case UserOnline => "user:online"
      case UserOffline => "user:offline"
      case MessageReceive => "message:receive"
      case MessageDelivered => "message:delivered"
      case MessageError => "message:error"
      case UserTyping => "user:typing"
      case TypingIndicator => "typing:indicator"
      case GroupCreated => "group:created"
      case GroupInvitation => "group:invitation"
      case GroupMessageReceived => "group:message_received"
      case GroupMemberLeft => "group:member_left"
      case KeyReceived => "key:received"
      case SyncResponse => "sync:response"
      case PeerFound => "peer:found"
      case WebRtcOffer => "webrtc:offer"
      case WebRtcAnswer => "webrtc:answer"
      case WebRtcIce => "webrtc:ice"
      case WebRtcHangup => "webrtc:hangup"
      case FileReceive => "file:receive"
      case FileTransferComplete => "file:transfer_complete"
      case VoiceReceive => "voice:receive"
      case MessageDelete => "message:delete"
      case MessageDeleted => "message:deleted"
    }
  }

  /** No two outbound events share a name on the wire. */
  lemma WireInjective(a: EventName, b: EventName)
    requires a.Wire() == b.Wire()
    ensures a == b
  {
  }

  const RecipientNotFound: string := "Recipient not found"
  const SyncCompleted: string := "Sync completed (messages stored locally only)"

  /** The object an emission carries. */
  datatype Payload =
    | RegisteredBody(success: bool, userId: string, timestamp: int)
    | OnlineBody(userId: string, publicKey: string)
    | OfflineBody(userId: string)
    | EnvelopeBody(from: string, cipher: Opaque, kriKey: Opaque, harmony: int, timestamp: int, nonce: Opaque)
    | DeliveredBody(messageId: int, to: string, timestamp: int)
    | ErrorBody(error: string, to: string)
    | TypingBody(typingUser: Option<string>, isTyping: bool)
    | IndicatorBody(socketFrom: string, isTyping: bool)
    | GroupBody(group: GroupInfo)
    | InviteBody(invite: GroupInvite)
    | VerbatimBody(data: Opaque)
    | KeyBody(socketFrom: string, publicKey: Opaque, qrData: Opaque, timestamp: int)
    | SyncBody(timestamp: int, message: string)
    | PeerBody(userId: string, publicKey: string, timestamp: int)
    | OfferBody(sender: Option<string>, offer: Opaque)
    | AnswerBody(sender: Option<string>, answer: Opaque)
    | IceBody(sender: Option<string>, candidate: Opaque)
    | HangupBody(sender: Option<string>)
    | ForwardBody(addressed: Addressed)
    | DeleteBody(destroyedId: Opaque, userFrom: string)
    | DeletedBody(destroyedId: Opaque)

  /**
   * Where an emission goes: the room named after a socket id
   * (`io.to(socketId)`; socket.io puts every connection in the room of its
   * own id), the connection an event arrived on, replying to it
   * (`socket.emit`), every connection (`io.emit`), or every connection but
   * the one an event arrived on (`socket.broadcast.emit`).
   */
  datatype Target = Socket(socketId: string) | Reply(socketId: string) | Everyone | EveryoneBut(socketId: string)

  datatype Emission = Emission(target: Target, event: EventName, payload: Payload)

  /** The number of emissions of `event` in `out`. */
  function Count(out: seq<Emission>, event: EventName): nat {
    if out == [] then 0 else (if out[0].event == event then 1 else 0) + Count(out[1..], event)
  }

  lemma {:induction false} CountAppend(a: seq<Emission>, b: seq<Emission>, event: EventName)
    ensures Count(a + b, event) == Count(a, event) + Count(b, event)
  {
    if a != [] {
      assert (a + b)[1..] == a[1..] + b;
      CountAppend(a[1..], b, event);
    } else {
      assert a + b == b;
    }
  }

  lemma CountSingle(e: Emission, event: EventName)
    ensures Count([e], event) == if e.event == event then 1 else 0
  {
    assert [e][1..] == [];
  }

  lemma CountShort(out: seq<Emission>, event: EventName)
    requires |out| <= 1
    ensures Count(out, event) == if out != [] && out[0].event == event then 1 else 0
  {
    if out != [] { assert out == [out[0]]; CountSingle(out[0], event); }
  }

  lemma CountPair(a: Emission, b: Emission, event: EventName)
    ensures Count([a, b], event) == (if a.event == event then 1 else 0) + (if b.event == event then 1 else 0)
  {
    assert [a, b][1..] == [b];
    CountSingle(b, event);
  }

  /** The number of emissions in `out` addressed to `target`. */
  function CountTo(out: seq<Emission>, target: Target): nat {
    if out == [] then 0 else (if out[0].target == target then 1 else 0) + CountTo(out[1..], target)
  }

  lemma {:induction false} CountToAppend(a: seq<Emission>, b: seq<Emission>, target: Target)
    ensures CountTo(a + b, target) == CountTo(a, target) + CountTo(b, target)
  {
    if a != [] {
      assert (a + b)[1..] == a[1..] + b;
      CountToAppend(a[1..], b, target);
    } else {
      assert a + b == b;
    }
  }

  lemma {:induction false} CountToAbsent(out: seq<Emission>, target: Target)
    requires forall i :: 0 <= i < |out| ==> out[i].target != target
    ensures CountTo(out, target) == 0
  {
    if out != [] {
      assert forall i :: 0 <= i < |out[1..]| ==> out[1..][i] == out[i + 1];
      CountToAbsent(out[1..], target);
    }
  }
}
