/**
 * KRIMassRelayServer: the socket.io connection handlers of the relay, run on
 * the server's one piece of state, the `users` registry, with what they
 * emit collected in an outbox.
 *
 * Two revisions of the server share this state and most handlers: the
 * TypeScript source and the compiled build. They differ in `group:create`
 * (a broadcast to every other connection against a fan-out to the listed
 * members), and only the compiled build handles WebRTC signalling,
 * `group:leave`, file and voice relay and `message:self_destruct`; an event
 * with no handler is dropped by socket.io.
 */
module RelayServer {
  import opened UserRegistry
  import opened Events
  import opened Handlers

  datatype Revision = TypeScriptSource | CompiledBuild

  /** An event received on a connection, with its payload. */
  datatype Event =
    | Register(data: RegisterData)
    | MessageSend(message: EncryptedMessage)
    | TypingStart(typing: TypingData)
    | TypingStop(typing: TypingData)
    | GroupCreate(group: GroupInfo)
    | GroupAddMember(invite: GroupInvite)
    | GroupMessage(body: Opaque)
    | GroupLeave(body: Opaque)
    | KeyExchange(key: KeyOffer)
    | SyncRequest(userId: string, lastSync: int)
    | PeerDiscover(peer: PeerDiscovery)
    | Call(signal: CallSignal)
    | FileSend(file: Addressed)
    | FileComplete(file: Addressed)
    | VoiceSend(voice: Addressed)
    | SelfDestruct(request: SelfDestructRequest)
    | Disconnect
  {
    /** Handled by the compiled build only. */
    predicate BuildOnly() {
      Call? || GroupLeave? || FileSend? || FileComplete? || VoiceSend? || SelfDestruct?
    }

    /** The one user id the handler looks up to address its relay, if any. */
    function Recipient(): Option<string> {
      match this
      case MessageSend(m) => Some(m.to)
      case GroupAddMember(invite) => Some(invite.userId)
      case KeyExchange(key) => Some(key.to)
      case Call(signal) => Some(signal.to)
      case FileSend(file) => Some(file.to)
      case FileComplete(file) => Some(file.to)
      case VoiceSend(voice) => Some(voice.to)
      case SelfDestruct(request) => Some(request.contactId)
      case _ => None
    }
  }

  /**
   * One event on socket `socketId` at time `now`, as `setupWebSocket` of the
   * given revision handles it.
   */
  function Step(rev: Revision, users: Registry, socketId: string, ev: Event, now: int): (r: StepResult)
    requires Valid(users)
    ensures Valid(r.users)
    // only register and disconnect change the registry
    ensures !(ev.Register? || ev.Disconnect?) ==> r.users == users
    // the TypeScript source has no handler for these events
    ensures rev == TypeScriptSource && ev.BuildOnly() ==> r.out == []
  {
    if ev.Register? then OnRegister(users, socketId, ev.data, now)
    else if ev.Disconnect? then OnDisconnect(users, socketId)
    else StepResult(users, Relay(rev, users, socketId, ev, now))
  }

  /** What the handlers that only read the registry emit. */
  function Relay(rev: Revision, users: Registry, socketId: string, ev: Event, now: int): (out: seq<Emission>)
    requires Valid(users)
    requires !(ev.Register? || ev.Disconnect?)
    ensures rev == TypeScriptSource && ev.BuildOnly() ==> out == []
  {
    match ev
    case MessageSend(message) => OnMessageSend(users, socketId, message, now)
    case TypingStart(typing) => OnTyping(users, socketId, typing, true)
    case TypingStop(typing) => OnTyping(users, socketId, typing, false)
    case GroupCreate(group) =>
      if rev == TypeScriptSource then [Emission(EveryoneBut(socketId), GroupCreated, GroupBody(group))]
      else GroupFanOut(users, group.members, group)
    case GroupAddMember(invite) => OnGroupAddMember(users, invite)
    case GroupMessage(body) => [Emission(EveryoneBut(socketId), GroupMessageReceived, VerbatimBody(body))]
    case GroupLeave(body) =>
      if rev == CompiledBuild then [Emission(EveryoneBut(socketId), GroupMemberLeft, VerbatimBody(body))] else []
    case KeyExchange(key) => OnKeyExchange(users, socketId, key, now)
    case SyncRequest(_, _) => [Emission(Reply(socketId), SyncResponse, SyncBody(now, SyncCompleted))]
    case PeerDiscover(peer) => [Emission(EveryoneBut(socketId), PeerFound, PeerBody(peer.userId, peer.publicKey, peer.timestamp))]
    case Call(signal) => if rev == CompiledBuild then OnCallSignal(users, socketId, signal) else []
    case FileSend(file) => if rev == CompiledBuild then OnForward(users, FileReceive, file) else []
    case FileComplete(file) => if rev == CompiledBuild then OnForward(users, FileTransferComplete, file) else []
    case VoiceSend(voice) => if rev == CompiledBuild then OnForward(users, VoiceReceive, voice) else []
    case SelfDestruct(request) => if rev == CompiledBuild then OnSelfDestruct(users, socketId, request) else []
  }

  /** An id is in the registry after a step only if it was before or the step registered it. */
  lemma StepKeys(rev: Revision, users: Registry, socketId: string, ev: Event, now: int, id: string)
    requires Valid(users)
    requires id in Step(rev, users, socketId, ev, now).users.entries
    ensures id in users.entries || (ev.Register? && ev.data.userId == id)
  {
    if ev.Disconnect? {
      DisconnectRemovesAtMostOne(users, socketId);
    }
  }

  /**
   * A "not found" lookup sends nothing to any other connection: when the
   * id an event is addressed to is not registered, every emission is a reply
   * to the calling socket (`message:error`, the self-destruct confirmation)
   * or there is none.
   */
  lemma UnregisteredRecipientReachesOnlyCaller(rev: Revision, users: Registry, socketId: string, ev: Event, now: int)
    requires Valid(users)
    requires ev.Recipient().Some? && ev.Recipient().value !in users.entries
    ensures forall e :: e in Step(rev, users, socketId, ev, now).out ==> e.target == Reply(socketId)
  {
    var out := Step(rev, users, socketId, ev, now).out;
    assert out == Relay(rev, users, socketId, ev, now);
    match ev
    case MessageSend(message) =>
      assert out == [Emission(Reply(socketId), MessageError, ErrorBody(RecipientNotFound, message.to))];
    case GroupAddMember(invite) => assert out == [];
    case KeyExchange(key) => assert out == [];
    case Call(signal) => assert out == [];
    case FileSend(file) => assert out == [];
    case FileComplete(file) => assert out == [];
    case VoiceSend(voice) => assert out == [];
    case SelfDestruct(request) =>
      if rev == CompiledBuild {
        assert out == [Emission(Reply(socketId), MessageDeleted, DeletedBody(request.messageId))];
      }
  }

  /**
   * A relay addressed to a registered id reaches no connection other than
   * that id's current socket and the calling socket's replies.
   */
  lemma RelayReachesOnlyRecipient(rev: Revision, users: Registry, socketId: string, ev: Event, now: int)
    requires Valid(users)
    requires ev.Recipient().Some? && ev.Recipient().value in users.entries
    ensures forall e :: e in Step(rev, users, socketId, ev, now).out ==>
              e.target == Reply(socketId) || e.target == SocketOf(users, ev.Recipient().value)
  {
  }

  /**
   * The broadcasts (`group:message`, `group:leave`, `peer:discover`, the
   * TypeScript `group:create`) and the `sync:request` reply consult no
   * registry: any two registries give the same emissions.
   */
  lemma BroadcastsIgnoreRegistry(rev: Revision, users: Registry, other: Registry, socketId: string, ev: Event, now: int)
    requires Valid(users) && Valid(other)
    requires ev.GroupMessage? || ev.GroupLeave? || ev.PeerDiscover? || ev.SyncRequest? ||
             (ev.GroupCreate? && rev == TypeScriptSource)
    ensures Step(rev, users, socketId, ev, now).out == Step(rev, other, socketId, ev, now).out
    ensures forall e :: e in Step(rev, users, socketId, ev, now).out ==>
              e.target == (if ev.SyncRequest? then Reply(socketId) else EveryoneBut(socketId))
  {
  }

  class KRIMassRelayServer {
    const revision: Revision
    /** The in-memory user registry. */
    var users: Registry
    /** Everything emitted so far, oldest first. */
    var outbox: seq<Emission>

    ghost predicate Valid()
      reads this
    {
      UserRegistry.Valid(users)
    }

    constructor (revision: Revision)
      ensures Valid()
      ensures this.revision == revision && users == Empty && outbox == []
    {
      this.revision := revision;
      users := Empty;
      outbox := [];
    }

    /** One emission through socket.io. */
    method Emit(target: Target, event: EventName, payload: Payload)
      modifies this
      ensures users == old(users)
      ensures outbox == old(outbox) + [Emission(target, event, payload)]
    {
      outbox := outbox + [Emission(target, event, payload)];
    }

    method Register(socketId: string, data: RegisterData, now: int)
      requires Valid()
      modifies this
      ensures Valid()
      ensures users == OnRegister(old(users), socketId, data, now).users
      ensures outbox == old(outbox) + OnRegister(old(users), socketId, data, now).out
    {
      var user := User(data.userId, socketId, data.publicKey, now);
      users := Set(users, data.userId, user);
      Emit(Reply(socketId), Registered, RegisteredBody(true, data.userId, now));
      Emit(Everyone, UserOnline, OnlineBody(data.userId, data.publicKey));
    }

    method MessageSend(socketId: string, message: EncryptedMessage, now: int)
      requires Valid()
      modifies this
      ensures Valid() && users == old(users)
      ensures outbox == old(outbox) + OnMessageSend(users, socketId, message, now)
    {
      if message.to in users.entries {
        var recipient := users.entries[message.to];
        Emit(Socket(recipient.socketId), MessageReceive,
             EnvelopeBody(message.from, message.cipher, message.kriKey, message.harmony, message.timestamp, message.nonce));
        Emit(Reply(socketId), MessageDelivered, DeliveredBody(message.timestamp, message.to, now));
      } else {
        Emit(Reply(socketId), MessageError, ErrorBody(RecipientNotFound, message.to));
      }
    }

    /** Both handlers registered for `typing:start` (or `typing:stop`), in order. */
    method Typing(socketId: string, data: TypingData, isTyping: bool)
      requires Valid()
      modifies this
      ensures Valid() && users == old(users)
      ensures outbox == old(outbox) + OnTyping(users, socketId, data, isTyping)
    {
      if data.recipientId.Some? && data.recipientId.value in users.entries {
        var recipient := users.entries[data.recipientId.value];
        var sender := FindSender(users, socketId);
        Emit(Socket(recipient.socketId), UserTyping,
             TypingBody(if sender.Some? then Some(sender.value.id) else None, isTyping));
      }
      if data.to.Some? && data.to.value in users.entries {
        var recipient := users.entries[data.to.value];
        Emit(Socket(recipient.socketId), TypingIndicator, IndicatorBody(socketId, isTyping));
      }
    }

    method GroupCreate(socketId: string, group: GroupInfo)
      requires Valid()
      modifies this
      ensures Valid() && users == old(users)
      ensures revision == TypeScriptSource ==>
                outbox == old(outbox) + [Emission(EveryoneBut(socketId), GroupCreated, GroupBody(group))]
      ensures revision == CompiledBuild ==> outbox == old(outbox) + GroupFanOut(users, group.members, group)
    {
      if revision == TypeScriptSource {
        Emit(EveryoneBut(socketId), GroupCreated, GroupBody(group));
      } else {
        var i := 0;
        while i < |group.members|
          invariant 0 <= i <= |group.members|
          invariant users == old(users)
          invariant outbox == old(outbox) + GroupFanOut(users, group.members[..i], group)
        {
          var memberId := group.members[i];
          GroupFanOutSnoc(users, group.members[..i + 1], group);
          assert group.members[..i + 1][..i] == group.members[..i];
          if memberId in users.entries {
            var member := users.entries[memberId];
            Emit(Socket(member.socketId), GroupCreated, GroupBody(group));
          }
          i := i + 1;
        }
        assert group.members[..i] == group.members;
      }
    }

    method GroupAddMember(invite: GroupInvite)
      requires Valid()
      modifies this
      ensures Valid() && users == old(users)
      ensures outbox == old(outbox) + OnGroupAddMember(users, invite)
    {
      if invite.userId in users.entries {
        var member := users.entries[invite.userId];
        Emit(Socket(member.socketId), GroupInvitation, InviteBody(invite));
      }
    }

    method GroupMessage(socketId: string, body: Opaque)
      requires Valid()
      modifies this
      ensures Valid() && users == old(users)
      ensures outbox == old(outbox) + [Emission(EveryoneBut(socketId), GroupMessageReceived, VerbatimBody(body))]
    {
      Emit(EveryoneBut(socketId), GroupMessageReceived, VerbatimBody(body));
    }

    method GroupLeave(socketId: string, body: Opaque)
      requires Valid()
      modifies this
      ensures Valid() && users == old(users)
      ensures outbox == old(outbox) +
                (if revision == CompiledBuild then [Emission(EveryoneBut(socketId), GroupMemberLeft, VerbatimBody(body))] else [])
    {
      if revision == CompiledBuild {
        Emit(EveryoneBut(socketId), GroupMemberLeft, VerbatimBody(body));
      }
    }

    method KeyExchange(socketId: string, key: KeyOffer, now: int)
      requires Valid()
      modifies this
      ensures Valid() && users == old(users)
      ensures outbox == old(outbox) + OnKeyExchange(users, socketId, key, now)
    {
      if key.to in users.entries {
        var recipient := users.entries[key.to];
        Emit(Socket(recipient.socketId), KeyReceived, KeyBody(socketId, key.publicKey, key.qrData, now));
      }
    }

    method SyncRequest(socketId: string, now: int)
      requires Valid()
      modifies this
      ensures Valid() && users == old(users)
      ensures outbox == old(outbox) + [Emission(Reply(socketId), SyncResponse, SyncBody(now, SyncCompleted))]
    {
      Emit(Reply(socketId), SyncResponse, SyncBody(now, SyncCompleted));
    }

    method PeerDiscover(socketId: string, peer: PeerDiscovery)
      requires Valid()
      modifies this
      ensures Valid() && users == old(users)
      ensures outbox == old(outbox) + [Emission(EveryoneBut(socketId), PeerFound, PeerBody(peer.userId, peer.publicKey, peer.timestamp))]
    {
      Emit(EveryoneBut(socketId), PeerFound, PeerBody(peer.userId, peer.publicKey, peer.timestamp));
    }

    /** `webrtc:offer`, `webrtc:answer`, `webrtc:ice` and `webrtc:hangup`. */
    method Call(socketId: string, signal: CallSignal)
      requires Valid()
      modifies this
      ensures Valid() && users == old(users)
      ensures outbox == old(outbox) + (if revision == CompiledBuild then OnCallSignal(users, socketId, signal) else [])
    {
      if revision == CompiledBuild && signal.to in users.entries {
        var recipient := users.entries[signal.to];
        var sender := FindSender(users, socketId);
        Emit(Socket(recipient.socketId), CallEvent(signal),
             CallBody(signal, if sender.Some? then Some(sender.value.id) else None));
      }
    }

    /** `file:send`, `file:complete` and `voice:send`, forwarded as `event`. */
    method Forward(event: EventName, data: Addressed)
      requires Valid()
      modifies this
      ensures Valid() && users == old(users)
      ensures outbox == old(outbox) + (if revision == CompiledBuild then OnForward(users, event, data) else [])
    {
      if revision == CompiledBuild && data.to in users.entries {
        var recipient := users.entries[data.to];
        Emit(Socket(recipient.socketId), event, ForwardBody(data));
      }
    }

    method SelfDestruct(socketId: string, request: SelfDestructRequest)
      requires Valid()
      modifies this
      ensures Valid() && users == old(users)
      ensures outbox == old(outbox) + (if revision == CompiledBuild then OnSelfDestruct(users, socketId, request) else [])
    {
      if revision == CompiledBuild {
        if request.contactId in users.entries {
          var contact := users.entries[request.contactId];
          Emit(Socket(contact.socketId), MessageDelete, DeleteBody(request.messageId, request.userId));
        }
        Emit(Reply(socketId), MessageDeleted, DeletedBody(request.messageId));
      }
    }

    method Disconnect(socketId: string)
      requires Valid()
      modifies this
      ensures Valid()
      ensures users == OnDisconnect(old(users), socketId).users
      ensures outbox == old(outbox) + OnDisconnect(old(users), socketId).out
    {
      var user := FindSender(users, socketId);
      if user.Some? {
        users := Delete(users, user.value.id);
        Emit(Everyone, UserOffline, OfflineBody(user.value.id));
      }
    }

    /** socket.io's dispatch of one event on socket `socketId` to its handlers. */
    method Handle(socketId: string, ev: Event, now: int)
      requires Valid()
      modifies this
      ensures Valid()
      ensures users == Step(revision, old(users), socketId, ev, now).users
      ensures outbox == old(outbox) + Step(revision, old(users), socketId, ev, now).out
    {
      if ev.Register? {
        Register(socketId, ev.data, now);
      } else if ev.Disconnect? {
        Disconnect(socketId);
      } else {
        Dispatch(socketId, ev, now);
      }
    }

    /** The handlers that only read the registry. */
    method Dispatch(socketId: string, ev: Event, now: int)
      requires Valid()
      requires !(ev.Register? || ev.Disconnect?)
      modifies this
      ensures Valid() && users == old(users)
      ensures outbox == old(outbox) + Relay(revision, users, socketId, ev, now)
    {
      match ev
      case MessageSend(message) => MessageSend(socketId, message, now);
      case TypingStart(typing) => Typing(socketId, typing, true);
      case TypingStop(typing) => Typing(socketId, typing, false);
      case GroupCreate(group) => GroupCreate(socketId, group);
      case GroupAddMember(invite) => GroupAddMember(invite);
      case GroupMessage(body) => GroupMessage(socketId, body);
      case GroupLeave(body) => GroupLeave(socketId, body);
      case KeyExchange(key) => KeyExchange(socketId, key, now);
      case SyncRequest(_, _) => SyncRequest(socketId, now);
      case PeerDiscover(peer) => PeerDiscover(socketId, peer);
      case Call(signal) => Call(socketId, signal);
      case FileSend(file) => Forward(FileReceive, file);
      case FileComplete(file) => Forward(FileTransferComplete, file);
      case VoiceSend(voice) => Forward(VoiceReceive, voice);
      case SelfDestruct(request) => SelfDestruct(socketId, request);
    }
  }
}
