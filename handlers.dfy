/**
 * The socket event handlers of the relay as steps: each takes the registry,
 * the id of the socket the event arrived on, the payload and the clock
 * reading, and gives what the handler emits (and, for `register` and
 * `disconnect`, the new registry). The class in server.dfy runs these steps
 * on its own fields.
 */
module Handlers {
  import opened UserRegistry
  import opened Events

  datatype StepResult = StepResult(users: Registry, out: seq<Emission>)

  /** `users.get(id)` for a payload field that may be missing. */
  predicate Online(users: Registry, id: Option<string>) {
    id.Some? && id.value in users.entries
  }

  /** The room of the socket currently recorded for `id`. */
  function SocketOf(users: Registry, id: string): Target
    requires id in users.entries
  {
    Socket(users.entries[id].socketId)
  }

  /**
   * `register`: upsert the caller's entry, acknowledge to the caller, and
   * announce the id and key to every connection.
   */
  function OnRegister(users: Registry, socketId: string, data: RegisterData, now: int): (r: StepResult)
    requires Valid(users)
    ensures Valid(r.users)
    ensures r.users.entries == users.entries[data.userId := User(data.userId, socketId, data.publicKey, now)]
    // a new id goes last in iteration order, a known one keeps its place
    ensures data.userId in users.entries ==> r.users.order == users.order
    ensures data.userId !in users.entries ==> r.users.order == users.order + [data.userId]
    ensures |r.out| == 2 && Count(r.out, Registered) == 1 && Count(r.out, UserOnline) == 1
    ensures r.out[0] == Emission(Reply(socketId), Registered, RegisteredBody(true, data.userId, now))
    ensures r.out[1] == Emission(Everyone, UserOnline, OnlineBody(data.userId, data.publicKey))
  {
    var user := User(data.userId, socketId, data.publicKey, now);
    var ack := Emission(Reply(socketId), Registered, RegisteredBody(true, data.userId, now));
    var online := Emission(Everyone, UserOnline, OnlineBody(data.userId, data.publicKey));
    CountPair(ack, online, Registered);
    CountPair(ack, online, UserOnline);
    StepResult(Set(users, data.userId, user), [ack, online])
  }

  /**
   * After `register`, iterating the registry yields exactly one user for the
   * registered id, the one just written, and every other id keeps its entry.
   */
  lemma RegisterUpserts(users: Registry, socketId: string, data: RegisterData, now: int)
    requires Valid(users)
    ensures var after := OnRegister(users, socketId, data, now).users;
            && CountId(Values(after), data.userId) == 1
            && after.entries[data.userId] == User(data.userId, socketId, data.publicKey, now)
            && after.entries.Keys == users.entries.Keys + {data.userId}
            && (forall k :: k in users.entries && k != data.userId ==> after.entries[k] == users.entries[k])
  {
    OneEntryPerId(OnRegister(users, socketId, data, now).users, data.userId);
  }

  /**
   * `message:send`: an envelope to the recipient's socket and a delivery
   * confirmation to the sender when the recipient is registered; otherwise
   * only an error naming the missing recipient, to the sender.
   */
  function OnMessageSend(users: Registry, socketId: string, message: EncryptedMessage, now: int): (out: seq<Emission>)
    ensures message.to !in users.entries ==>
              && Count(out, MessageReceive) == 0
              && Count(out, MessageDelivered) == 0
              && out == [Emission(Reply(socketId), MessageError, ErrorBody(RecipientNotFound, message.to))]
    ensures message.to in users.entries ==>
              && |out| == 2
              && Count(out, MessageReceive) == 1
              && Count(out, MessageDelivered) == 1
              && Count(out, MessageError) == 0
    ensures message.to in users.entries ==>
              out[0] == Emission(SocketOf(users, message.to), MessageReceive,
                                 EnvelopeBody(message.from, message.cipher, message.kriKey,
                                              message.harmony, message.timestamp, message.nonce))
    ensures message.to in users.entries ==>
              out[1] == Emission(Reply(socketId), MessageDelivered, DeliveredBody(message.timestamp, message.to, now))
  {
    if message.to in users.entries then
      var recipient := users.entries[message.to];
      var envelope := Emission(Socket(recipient.socketId), MessageReceive,
                               EnvelopeBody(message.from, message.cipher, message.kriKey,
                                            message.harmony, message.timestamp, message.nonce));
      var delivered := Emission(Reply(socketId), MessageDelivered, DeliveredBody(message.timestamp, message.to, now));
      CountPair(envelope, delivered, MessageReceive);
      CountPair(envelope, delivered, MessageDelivered);
      CountPair(envelope, delivered, MessageError);
      [envelope, delivered]
    else
      var error := Emission(Reply(socketId), MessageError, ErrorBody(RecipientNotFound, message.to));
      CountSingle(error, MessageReceive);
      CountSingle(error, MessageDelivered);
      [error]
  }

  /**
   * `typing:start` (isTyping) and `typing:stop` (!isTyping). socket.io runs
   * both handlers registered for the event, in the order they were
   * registered: the first resolves `recipientId` and reports the sender's
   * user id as `user:typing`, the second resolves `to` and reports the raw
   * socket id as `typing:indicator`. Each fires on its own.
   */
  function OnTyping(users: Registry, socketId: string, data: TypingData, isTyping: bool): (out: seq<Emission>)
    requires Valid(users)
    ensures |out| == (if Online(users, data.recipientId) then 1 else 0) + (if Online(users, data.to) then 1 else 0)
    ensures Count(out, UserTyping) == if Online(users, data.recipientId) then 1 else 0
    ensures Count(out, TypingIndicator) == if Online(users, data.to) then 1 else 0
    ensures Online(users, data.recipientId) ==>
              out[0] == Emission(SocketOf(users, data.recipientId.value), UserTyping,
                                 TypingBody(SenderId(users, socketId), isTyping))
    ensures Online(users, data.to) ==>
              out[|out| - 1] == Emission(SocketOf(users, data.to.value), TypingIndicator,
                                         IndicatorBody(socketId, isTyping))
  {
    var first :=
      if Online(users, data.recipientId) then
        var sender := FindSender(users, socketId);
        [Emission(Socket(users.entries[data.recipientId.value].socketId), UserTyping,
                  TypingBody(if sender.Some? then Some(sender.value.id) else None, isTyping))]
      else [];
    var second :=
      if Online(users, data.to) then
        [Emission(Socket(users.entries[data.to.value].socketId), TypingIndicator, IndicatorBody(socketId, isTyping))]
      else [];
    CountAppend(first, second, UserTyping);
    CountAppend(first, second, TypingIndicator);
    CountShort(first, UserTyping);
    CountShort(first, TypingIndicator);
    CountShort(second, UserTyping);
    CountShort(second, TypingIndicator);
    first + second
  }

  /**
   * `group:create` in the compiled build: `group:created`, carrying the
   * payload as it came, to the socket of each listed member that is
   * registered, in list order; absent members are skipped.
   */
  function GroupFanOut(users: Registry, members: seq<string>, group: GroupInfo): (out: seq<Emission>)
    ensures |out| <= |members|
    ensures (forall m :: m in members ==> m !in users.entries) ==> out == []
  {
    if members == [] then []
    else
      var last := members[|members| - 1];
      var init := members[..|members| - 1];
      assert forall m :: m in init ==> m in members;
      GroupFanOut(users, init, group) + MemberCopy(users, last, group)
  }

  /** The copy of `group:created` one listed member gets: one if registered, none otherwise. */
  function MemberCopy(users: Registry, member: string, group: GroupInfo): (out: seq<Emission>)
    ensures |out| <= 1
    ensures member in users.entries ==> out == [Emission(SocketOf(users, member), GroupCreated, GroupBody(group))]
    ensures member !in users.entries ==> out == []
  {
    if member in users.entries then [Emission(Socket(users.entries[member].socketId), GroupCreated, GroupBody(group))] else []
  }

  lemma MemberCopyCount(users: Registry, member: string, group: GroupInfo, t: Target)
    ensures CountTo(MemberCopy(users, member, group), t) ==
              if member in users.entries && SocketOf(users, member) == t then 1 else 0
  {
    var out := MemberCopy(users, member, group);
    if out != [] { assert out[1..] == []; }
  }

  /** Every copy is `group:created`, carries the payload as it came, and goes to a listed registered member. */
  lemma {:induction false} GroupFanOutOnlyMembers(users: Registry, members: seq<string>, group: GroupInfo)
    ensures forall e :: e in GroupFanOut(users, members, group) ==>
              && e.event == GroupCreated
              && e.payload == GroupBody(group)
              && exists m :: m in members && m in users.entries && e.target == SocketOf(users, m)
  {
    if members != [] {
      var n := |members| - 1;
      GroupFanOutOnlyMembers(users, members[..n], group);
      assert forall m :: m in members[..n] ==> m in members;
      assert members[n] in members;
    }
  }

  /** Every listed registered member's socket receives a copy. */
  lemma {:induction false} GroupFanOutReachesMembers(users: Registry, members: seq<string>, group: GroupInfo)
    ensures forall m :: m in members && m in users.entries ==>
              Emission(SocketOf(users, m), GroupCreated, GroupBody(group)) in GroupFanOut(users, members, group)
  {
    if members != [] {
      var n := |members| - 1;
      GroupFanOutReachesMembers(users, members[..n], group);
      assert forall m :: m in members ==> m in members[..n] || m == members[n];
    }
  }

  /** The number of entries of `members`, repeats included, registered on socket room `t`. */
  function ListedOn(users: Registry, members: seq<string>, t: Target): nat {
    if members == [] then 0
    else
      var last := members[|members| - 1];
      ListedOn(users, members[..|members| - 1], t) + (if last in users.entries && SocketOf(users, last) == t then 1 else 0)
  }

  /**
   * Each socket receives exactly one copy per listed entry registered on it:
   * none when no listed member is on it, several when a member is listed
   * more than once or listed members share it.
   */
  lemma {:induction false} GroupFanOutCount(users: Registry, members: seq<string>, group: GroupInfo, t: Target)
    ensures CountTo(GroupFanOut(users, members, group), t) == ListedOn(users, members, t)
  {
    if members != [] {
      var n := |members| - 1;
      GroupFanOutSnoc(users, members, group);
      CountToAppend(GroupFanOut(users, members[..n], group), MemberCopy(users, members[n], group), t);
      MemberCopyCount(users, members[n], group, t);
      GroupFanOutCount(users, members[..n], group, t);
    }
  }

  /** No two registered entries of `members` (let alone one id listed twice) share a socket. */
  ghost predicate SeparateSockets(users: Registry, members: seq<string>) {
    forall i, j :: 0 <= i < j < |members| && members[i] in users.entries && members[j] in users.entries ==>
      users.entries[members[i]].socketId != users.entries[members[j]].socketId
  }

  /** Built member by member, the fan-out of `members` extends that of all but the last. */
  lemma GroupFanOutSnoc(users: Registry, members: seq<string>, group: GroupInfo)
    requires members != []
    ensures GroupFanOut(users, members, group) ==
              GroupFanOut(users, members[..|members| - 1], group) + MemberCopy(users, members[|members| - 1], group)
  {
  }

  /** A socket that no registered listed member is on receives nothing. */
  lemma GroupFanOutMisses(users: Registry, members: seq<string>, group: GroupInfo, t: Target)
    requires forall x :: x in members && x in users.entries ==> SocketOf(users, x) != t
    ensures CountTo(GroupFanOut(users, members, group), t) == 0
  {
    var out := GroupFanOut(users, members, group);
    GroupFanOutOnlyMembers(users, members, group);
    forall i | 0 <= i < |out| ensures out[i].target != t {
      assert out[i] in out;
    }
    CountToAbsent(out, t);
  }

  /**
   * Each registered listed member receives exactly one copy, provided no two
   * registered listed members share a socket.
   */
  lemma {:induction false} GroupFanOutOncePerMember(users: Registry, members: seq<string>, group: GroupInfo, m: string)
    requires SeparateSockets(users, members)
    requires m in members && m in users.entries
    ensures CountTo(GroupFanOut(users, members, group), SocketOf(users, m)) == 1
  {
    var n := |members| - 1;
    var last := members[n];
    var init := members[..n];
    GroupFanOutSnoc(users, members, group);
    CountToAppend(GroupFanOut(users, init, group), MemberCopy(users, last, group), SocketOf(users, m));
    MemberCopyCount(users, last, group, SocketOf(users, m));
    if m == last {
      forall x | x in init && x in users.entries ensures SocketOf(users, x) != SocketOf(users, m) {
        var j :| 0 <= j < n && init[j] == x;
        assert members[j] == x;
      }
      GroupFanOutMisses(users, init, group, SocketOf(users, m));
    } else {
      var k :| 0 <= k < n && members[k] == m;
      assert init[k] == m;
      assert SeparateSockets(users, init) by {
        forall i, j | 0 <= i < j < |init| ensures init[i] == members[i] && init[j] == members[j] { }
      }
      GroupFanOutOncePerMember(users, init, group, m);
      if last in users.entries {
        assert users.entries[members[k]].socketId != users.entries[members[n]].socketId;
      }
    }
  }

  /** `group:add_member`: `group:invitation` to the member when registered. */
  function OnGroupAddMember(users: Registry, invite: GroupInvite): (out: seq<Emission>)
    ensures invite.userId !in users.entries ==> out == []
    ensures invite.userId in users.entries ==>
              out == [Emission(SocketOf(users, invite.userId), GroupInvitation, InviteBody(invite))]
  {
    match if invite.userId in users.entries then Some(users.entries[invite.userId]) else None
    case None => []
    case Some(member) => [Emission(Socket(member.socketId), GroupInvitation, InviteBody(invite))]
  }

  /**
   * `key:exchange`: `key:received` to the recipient when registered. Its
   * `from` is the caller's socket id, not a user id.
   */
  function OnKeyExchange(users: Registry, socketId: string, key: KeyOffer, now: int): (out: seq<Emission>)
    ensures key.to !in users.entries ==> out == []
    ensures key.to in users.entries ==> |out| == 1 && out[0].target == SocketOf(users, key.to)
    ensures key.to in users.entries ==>
              out[0] == Emission(SocketOf(users, key.to), KeyReceived, KeyBody(socketId, key.publicKey, key.qrData, now))
  {
    if key.to in users.entries then
      [Emission(Socket(users.entries[key.to].socketId), KeyReceived, KeyBody(socketId, key.publicKey, key.qrData, now))]
    else []
  }

  function CallEvent(signal: CallSignal): EventName {
    match signal
    case Offer(_, _) => WebRtcOffer
    case Answer(_, _) => WebRtcAnswer
    case Ice(_, _) => WebRtcIce
    case Hangup(_) => WebRtcHangup
  }

  /** The forwarded signal, its `from` set to the sender's user id (or missing). */
  function CallBody(signal: CallSignal, sender: Option<string>): Payload {
    match signal
    case Offer(_, offer) => OfferBody(sender, offer)
    case Answer(_, answer) => AnswerBody(sender, answer)
    case Ice(_, candidate) => IceBody(sender, candidate)
    case Hangup(_) => HangupBody(sender)
  }

  /**
   * `webrtc:offer`, `webrtc:answer`, `webrtc:ice`, `webrtc:hangup`: the
   * signal under the same event name to the recipient when registered,
   * `from` being the user id found by scanning for the caller's socket.
   */
  function OnCallSignal(users: Registry, socketId: string, signal: CallSignal): (out: seq<Emission>)
    requires Valid(users)
    ensures signal.to !in users.entries ==> out == []
    ensures signal.to in users.entries ==>
              out == [Emission(SocketOf(users, signal.to), CallEvent(signal), CallBody(signal, SenderId(users, socketId)))]
  {
    if signal.to in users.entries then
      var sender := FindSender(users, socketId);
      var from := if sender.Some? then Some(sender.value.id) else None;
      [Emission(Socket(users.entries[signal.to].socketId), CallEvent(signal), CallBody(signal, from))]
    else []
  }

  /**
   * `file:send` (`file:receive`), `file:complete` (`file:transfer_complete`)
   * and `voice:send` (`voice:receive`): the payload as it came, to the
   * recipient's socket when registered; nothing otherwise.
   */
  function OnForward(users: Registry, event: EventName, data: Addressed): (out: seq<Emission>)
    ensures data.to !in users.entries ==> out == []
    ensures data.to in users.entries ==> out == [Emission(SocketOf(users, data.to), event, ForwardBody(data))]
  {
    if data.to in users.entries then [Emission(Socket(users.entries[data.to].socketId), event, ForwardBody(data))] else []
  }

  /**
   * `message:self_destruct`: a delete instruction to the contact when
   * registered, then always a confirmation to the requester.
   */
  function OnSelfDestruct(users: Registry, socketId: string, req: SelfDestructRequest): (out: seq<Emission>)
    ensures Count(out, MessageDeleted) == 1
    ensures out[|out| - 1] == Emission(Reply(socketId), MessageDeleted, DeletedBody(req.messageId))
    ensures Count(out, MessageDelete) == if req.contactId in users.entries then 1 else 0
    ensures req.contactId in users.entries ==>
              out == [ Emission(SocketOf(users, req.contactId), MessageDelete, DeleteBody(req.messageId, req.userId)),
                       Emission(Reply(socketId), MessageDeleted, DeletedBody(req.messageId)) ]
    ensures req.contactId !in users.entries ==> |out| == 1
  {
    var notice :=
      if req.contactId in users.entries then
        [Emission(Socket(users.entries[req.contactId].socketId), MessageDelete, DeleteBody(req.messageId, req.userId))]
      else [];
    var confirm := Emission(Reply(socketId), MessageDeleted, DeletedBody(req.messageId));
    CountAppend(notice, [confirm], MessageDeleted);
    CountAppend(notice, [confirm], MessageDelete);
    CountSingle(confirm, MessageDeleted);
    CountSingle(confirm, MessageDelete);
    CountShort(notice, MessageDeleted);
    CountShort(notice, MessageDelete);
    notice + [confirm]
  }

  /** Only one index of `vs` is the first on `socketId`. */
  lemma FirstOnSocketUnique(vs: seq<User>, socketId: string, i: int, j: int)
    requires FirstOnSocket(vs, socketId, i) && FirstOnSocket(vs, socketId, j)
    ensures i == j
  {
  }

  /** The entry `FindSender` picks is the one at the first index on the socket. */
  lemma OwnerIsFirst(users: Registry, socketId: string, id: string)
    requires Valid(users)
    requires exists j :: FirstOnSocket(Values(users), socketId, j) && users.order[j] == id
    ensures forall i :: FirstOnSocket(Values(users), socketId, i) ==> users.order[i] == id
  {
    var j :| FirstOnSocket(Values(users), socketId, j) && users.order[j] == id;
    forall i | FirstOnSocket(Values(users), socketId, i) ensures users.order[i] == id {
      FirstOnSocketUnique(Values(users), socketId, i, j);
    }
  }

  lemma MapRemoveSize(m: map<string, User>, k: string)
    requires k in m
    ensures |m - {k}| == |m| - 1
  {
    assert (m - {k}).Keys == m.Keys - {k};
  }

  /**
   * `disconnect`: the entry `FindSender` resolves for the closing socket is
   * deleted and announced offline to everyone; when no entry is on that
   * socket, nothing happens.
   */
  function OnDisconnect(users: Registry, socketId: string): (r: StepResult)
    requires Valid(users)
    ensures Valid(r.users)
    ensures FindSender(users, socketId).None? ==> r == StepResult(users, [])
    ensures FindSender(users, socketId).Some? ==>
              var id := FindSender(users, socketId).value.id;
              r == StepResult(Delete(users, id), [Emission(Everyone, UserOffline, OfflineBody(id))])
  {
    var found := FindSender(users, socketId);
    if found.None? then StepResult(users, [])
    else
      var id := found.value.id;
      StepResult(Delete(users, id), [Emission(Everyone, UserOffline, OfflineBody(id))])
  }

  /**
   * `disconnect` deletes exactly the first entry, in insertion order, on the
   * closing socket and announces that id once; every other entry stays, in
   * its old order.
   */
  lemma DisconnectRemovesFirstOwner(users: Registry, socketId: string, i: int)
    requires Valid(users)
    requires FirstOnSocket(Values(users), socketId, i)
    ensures var r := OnDisconnect(users, socketId);
            && r.users.entries == users.entries - {users.order[i]}
            && r.users.order == users.order[..i] + users.order[i + 1..]
            && r.out == [Emission(Everyone, UserOffline, OfflineBody(users.order[i]))]
  {
    DisconnectDeletesFirstOwner(users, socketId, i);
    RemoveAt(users.order, users.order[i], i);
  }

  /** `disconnect` is `Delete` of the first owner of the socket, announced once. */
  lemma DisconnectDeletesFirstOwner(users: Registry, socketId: string, i: int)
    requires Valid(users)
    requires FirstOnSocket(Values(users), socketId, i)
    ensures OnDisconnect(users, socketId) ==
            StepResult(Delete(users, users.order[i]), [Emission(Everyone, UserOffline, OfflineBody(users.order[i]))])
  {
    assert Values(users)[i].socketId == socketId && users.order[i] in users.entries;
    var found := FindSender(users, socketId);
    OwnerIsFirst(users, socketId, found.value.id);
  }

  /**
   * An entry on another socket survives `disconnect` unchanged, and no
   * `user:offline` names it.
   */
  lemma DisconnectKeepsOthers(users: Registry, socketId: string, id: string)
    requires Valid(users)
    requires id in users.entries && users.entries[id].socketId != socketId
    ensures var r := OnDisconnect(users, socketId);
            && id in r.users.entries && r.users.entries[id] == users.entries[id]
            && forall i :: 0 <= i < |r.out| ==> r.out[i].payload != OfflineBody(id)
  {
    var found := FindSender(users, socketId);
    if found.Some? {
      assert found.value.id != id;
    }
  }

  /**
   * Two ids registered from the same socket: closing it deletes only the one
   * registered first, and the later id stays in the registry, recorded with
   * the closed socket.
   */
  lemma SharedSocketKeepsLaterIds(users: Registry, socketId: string, i: int, j: int)
    requires Valid(users)
    requires FirstOnSocket(Values(users), socketId, i)
    requires i < j < |users.order| && Values(users)[j].socketId == socketId
    ensures var r := OnDisconnect(users, socketId);
            && users.order[j] in r.users.entries
            && r.users.entries[users.order[j]].socketId == socketId
  {
    DisconnectRemovesFirstOwner(users, socketId, i);
    assert users.order[i] != users.order[j];
  }

  /** A socket no entry is on closes without any effect. */
  lemma DisconnectUnknownSocket(users: Registry, socketId: string)
    requires Valid(users)
    requires forall k :: k in users.entries ==> users.entries[k].socketId != socketId
    ensures OnDisconnect(users, socketId) == StepResult(users, [])
  {
  }

  /**
   * `disconnect` removes at most one entry, adds none, and emits one
   * `user:offline` per entry removed and nothing else.
   */
  lemma DisconnectRemovesAtMostOne(users: Registry, socketId: string)
    requires Valid(users)
    ensures var r := OnDisconnect(users, socketId);
            && r.users.entries.Keys <= users.entries.Keys
            && |r.out| <= 1 && Count(r.out, UserOffline) == |r.out|
            && |r.users.entries| + |r.out| == |users.entries|
  {
    var r := OnDisconnect(users, socketId);
    var found := FindSender(users, socketId);
    if found.Some? {
      MapRemoveSize(users.entries, found.value.id);
      CountSingle(r.out[0], UserOffline);
    }
  }
}
