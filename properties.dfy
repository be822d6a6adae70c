/**
 * Properties of the relay that span several events: what a sequence of
 * registrations and disconnects leaves in the registry, and the delivery
 * scenarios a client sees end to end.
 */
module Properties {
  import opened UserRegistry
  import opened Events
  import opened Handlers
  import opened RelayServer

  /** One event as it arrives: on which socket, what, and the clock reading. */
  datatype Arrival = Arrival(socketId: string, ev: Event, now: int)

  /** The server handling `trace` in order, starting from `users`. */
  function Run(rev: Revision, users: Registry, trace: seq<Arrival>): (r: StepResult)
    requires Valid(users)
    ensures Valid(r.users)
    decreases |trace|
  {
    if trace == [] then StepResult(users, [])
    else
      var first := Step(rev, users, trace[0].socketId, trace[0].ev, trace[0].now);
      var rest := Run(rev, first.users, trace[1..]);
      StepResult(rest.users, first.out + rest.out)
  }

  /** Some arrival of `trace` registers `id`. */
  ghost predicate Registers(trace: seq<Arrival>, id: string) {
    exists i :: 0 <= i < |trace| && trace[i].ev.Register? && trace[i].ev.data.userId == id
  }

  /**
   * After any sequence of events, iterating the registry yields at most one
   * user per id.
   */
  lemma RunOneEntryPerId(rev: Revision, users: Registry, trace: seq<Arrival>, id: string)
    requires Valid(users)
    ensures CountId(Values(Run(rev, users, trace).users), id) <= 1
  {
    OneEntryPerId(Run(rev, users, trace).users, id);
  }

  /**
   * Ids enter the registry only through `register`: every id present after
   * a sequence of events was present before or was registered by one of them.
   */
  lemma {:induction false} RunKeysRegistered(rev: Revision, users: Registry, trace: seq<Arrival>, id: string)
    requires Valid(users)
    requires id in Run(rev, users, trace).users.entries
    ensures id in users.entries || Registers(trace, id)
    decreases |trace|
  {
    if trace != [] {
      var a := trace[0];
      var first := Step(rev, users, a.socketId, a.ev, a.now);
      RunKeysRegistered(rev, first.users, trace[1..], id);
      if Registers(trace[1..], id) {
        var i :| 0 <= i < |trace[1..]| && trace[1..][i].ev.Register? && trace[1..][i].ev.data.userId == id;
        assert trace[i + 1] == trace[1..][i];
      } else if a.ev.Register? && a.ev.data.userId == id {
        assert trace[0] == a;
      } else {
        StepKeys(rev, users, a.socketId, a.ev, a.now, id);
      }
    }
  }

  /**
   * A sequence of events with no `register` and no `disconnect` leaves the
   * registry exactly as it was.
   */
  lemma {:induction false} RelayOnlyRunKeepsRegistry(rev: Revision, users: Registry, trace: seq<Arrival>)
    requires Valid(users)
    requires forall i :: 0 <= i < |trace| ==> !(trace[i].ev.Register? || trace[i].ev.Disconnect?)
    ensures Run(rev, users, trace).users == users
  {
    if trace != [] {
      assert forall i :: 0 <= i < |trace[1..]| ==> trace[1..][i] == trace[i + 1];
      RelayOnlyRunKeepsRegistry(rev, users, trace[1..]);
    }
  }

  /**
   * Two registrations of the same id: one entry remains, holding the second
   * socket, key and time, in the position the first one took; nothing else
   * changes.
   */
  lemma RegisterLastWriterWins(users: Registry, s1: string, s2: string, d1: RegisterData, d2: RegisterData,
                               t1: int, t2: int)
    requires Valid(users)
    requires d1.userId == d2.userId
    ensures var after := OnRegister(OnRegister(users, s1, d1, t1).users, s2, d2, t2).users;
            && after.entries[d2.userId] == User(d2.userId, s2, d2.publicKey, t2)
            && CountId(Values(after), d2.userId) == 1
            && after.entries.Keys == users.entries.Keys + {d2.userId}
            && after.order == OnRegister(users, s1, d1, t1).users.order
            && (forall k :: k in users.entries && k != d2.userId ==> after.entries[k] == users.entries[k])
  {
    var first := OnRegister(users, s1, d1, t1).users;
    RegisterUpserts(users, s1, d1, t1);
    RegisterUpserts(first, s2, d2, t2);
  }

  /**
   * A user reconnects on a new socket, then the old socket closes. The old
   * socket no longer belongs to that id, so its entry survives and no
   * `user:offline` names it.
   */
  lemma StaleDisconnectKeepsCurrentEntry(users: Registry, oldSocket: string, newSocket: string,
                                         data: RegisterData, now: int)
    requires Valid(users)
    requires oldSocket != newSocket
    ensures var registered := OnRegister(users, newSocket, data, now).users;
            var closed := OnDisconnect(registered, oldSocket);
            && data.userId in closed.users.entries
            && closed.users.entries[data.userId] == User(data.userId, newSocket, data.publicKey, now)
            && Count(closed.out, UserOffline) <= 1
            && (forall i :: 0 <= i < |closed.out| ==> closed.out[i].payload != OfflineBody(data.userId))
  {
    var registered := OnRegister(users, newSocket, data, now).users;
    assert registered.entries[data.userId] == User(data.userId, newSocket, data.publicKey, now);
    DisconnectKeepsOthers(registered, oldSocket, data.userId);
    DisconnectRemovesAtMostOne(registered, oldSocket);
  }

  /**
   * When no other id was on the old socket, its disconnect after the
   * reconnect does nothing at all.
   */
  lemma StaleDisconnectIsSilent(users: Registry, oldSocket: string, newSocket: string, data: RegisterData, now: int)
    requires Valid(users)
    requires oldSocket != newSocket
    requires forall k :: k in users.entries && k != data.userId ==> users.entries[k].socketId != oldSocket
    ensures var registered := OnRegister(users, newSocket, data, now).users;
            OnDisconnect(registered, oldSocket) == StepResult(registered, [])
  {
    var registered := OnRegister(users, newSocket, data, now).users;
    forall k | k in registered.entries ensures registered.entries[k].socketId != oldSocket {
      if k != data.userId {
        assert registered.entries[k] == users.entries[k];
      }
    }
  }

  /**
   * When `id` is the only user on socket `s`, closing `s` takes `id` offline,
   * announcing it once, and a message sent to it afterwards only gets the
   * sender a "Recipient not found" error.
   */
  lemma DisconnectedUserIsUnreachable(users: Registry, s: string, id: string, sender: string, message: EncryptedMessage, now: int)
    requires Valid(users)
    requires id in users.entries && users.entries[id].socketId == s
    requires forall k :: k in users.entries && k != id ==> users.entries[k].socketId != s
    requires message.to == id
    ensures OnDisconnect(users, s).out == [Emission(Everyone, UserOffline, OfflineBody(id))]
    ensures OnMessageSend(OnDisconnect(users, s).users, sender, message, now) ==
            [Emission(Reply(sender), MessageError, ErrorBody(RecipientNotFound, id))]
  {
    var i :| 0 <= i < |users.order| && users.order[i] == id;
    assert FirstOnSocket(Values(users), s, i) by {
      forall j | 0 <= j < i ensures Values(users)[j].socketId != s {
        assert users.order[j] != id;
      }
    }
    DisconnectRemovesFirstOwner(users, s, i);
  }

  /** A registration on a socket no entry uses puts the only entry on it last. */
  lemma RegisteredOnFreshSocket(users: Registry, s: string, data: RegisterData, now: int)
    requires Valid(users)
    requires data.userId !in users.entries
    requires forall k :: k in users.entries ==> users.entries[k].socketId != s
    ensures OnRegister(users, s, data, now).users.order == users.order + [data.userId]
    ensures FirstOnSocket(Values(OnRegister(users, s, data, now).users), s, |users.order|)
  {
    var registered := OnRegister(users, s, data, now).users;
    forall j | 0 <= j < |users.order| ensures Values(registered)[j].socketId != s {
      assert registered.order[j] == users.order[j] && users.order[j] in users.entries;
    }
  }

  /**
   * `register` followed by the same socket's `disconnect`, for an id and a
   * socket the registry did not know, restores the registry exactly,
   * iteration order included, and announces the id online then offline.
   */
  lemma RegisterThenDisconnectRestores(users: Registry, s: string, data: RegisterData, now: int)
    requires Valid(users)
    requires data.userId !in users.entries
    requires forall k :: k in users.entries ==> users.entries[k].socketId != s
    ensures var registered := OnRegister(users, s, data, now);
            var closed := OnDisconnect(registered.users, s);
            && closed.users == users
            && registered.out + closed.out ==
               [Emission(Reply(s), Registered, RegisteredBody(true, data.userId, now)),
                Emission(Everyone, UserOnline, OnlineBody(data.userId, data.publicKey)),
                Emission(Everyone, UserOffline, OfflineBody(data.userId))]
  {
    var registered := OnRegister(users, s, data, now);
    var n := |users.order|;
    RegisteredOnFreshSocket(users, s, data, now);
    var closed := OnDisconnect(registered.users, s);
    DisconnectDeletesFirstOwner(registered.users, s, n);
    assert registered.users == Set(users, data.userId, User(data.userId, s, data.publicKey, now));
    assert closed.users == Delete(registered.users, data.userId);
    DeleteAfterSet(users, data.userId, User(data.userId, s, data.publicKey, now));
    assert closed.out == [Emission(Everyone, UserOffline, OfflineBody(data.userId))];
    assert registered.out == [registered.out[0], registered.out[1]];
  }

  /**
   * A registers, B registers, and A sends B a message: B's current socket
   * gets the envelope with every field copied, and A gets one delivery
   * confirmation carrying the message's timestamp as its id.
   */
  lemma DeliveryScenario(rev: Revision, sa: string, sb: string, a: RegisterData, b: RegisterData,
                         message: EncryptedMessage, t1: int, t2: int, t3: int)
    requires a.userId != b.userId
    requires message.from == a.userId && message.to == b.userId
    ensures var trace := [Arrival(sa, Event.Register(a), t1), Arrival(sb, Event.Register(b), t2),
                         Arrival(sa, Event.MessageSend(message), t3)];
            var out := Run(rev, Empty, trace).out;
            && |out| == 6
            && out[4] == Emission(Socket(sb), MessageReceive,
                                  EnvelopeBody(a.userId, message.cipher, message.kriKey,
                                               message.harmony, message.timestamp, message.nonce))
            && out[5] == Emission(Reply(sa), MessageDelivered, DeliveredBody(message.timestamp, b.userId, t3))
            && Count(out, MessageReceive) == 1 && Count(out, MessageDelivered) == 1
  {
    EmptyValid();
    var send := Arrival(sa, Event.MessageSend(message), t3);
    var second := Arrival(sb, Event.Register(b), t2);
    var later := [second] + [send];
    var first := Arrival(sa, Event.Register(a), t1);
    var trace := [first] + later;
    var r1 := OnRegister(Empty, sa, a, t1);
    var r2 := OnRegister(r1.users, sb, b, t2);
    assert r2.users.entries == r1.users.entries[b.userId := User(b.userId, sb, b.publicKey, t2)];
    assert SocketOf(r2.users, b.userId) == Socket(sb);
    MessageToKnownId(rev, r2.users, sa, message, t3);
    var sent := Step(rev, r2.users, sa, Event.MessageSend(message), t3).out;
    StepRegister(rev, Empty, sa, a, t1);
    StepRegister(rev, r1.users, sb, b, t2);
    RunOne(rev, r2.users, send);
    RunCons(rev, r1.users, second, [send]);
    assert Run(rev, r1.users, later).out == r2.out + sent;
    RunCons(rev, Empty, first, later);
    assert Run(rev, Empty, trace).out == r1.out + (r2.out + sent);
    assert |r1.out| == 2 && |r2.out| == 2 && |sent| == 2;
    RelayedCounts(r1.out, r2.out, sent, MessageReceive);
    RelayedCounts(r1.out, r2.out, sent, MessageDelivered);
  }

  /**
   * The emissions of two registrations followed by a delivered message hold
   * one emission of each of the message's event names.
   */
  lemma RelayedCounts(first: seq<Emission>, second: seq<Emission>, sent: seq<Emission>, event: EventName)
    requires |first| == 2 && |second| == 2 && |sent| == 2
    requires first[0].event == Registered && first[1].event == UserOnline
    requires second[0].event == Registered && second[1].event == UserOnline
    requires sent[0].event == MessageReceive && sent[1].event == MessageDelivered
    requires event == MessageReceive || event == MessageDelivered
    ensures Count(first + (second + sent), event) == 1
  {
    assert first == [first[0], first[1]] && second == [second[0], second[1]] && sent == [sent[0], sent[1]];
    CountPair(first[0], first[1], event);
    CountPair(second[0], second[1], event);
    CountPair(sent[0], sent[1], event);
    CountAppend(second, sent, event);
    CountAppend(first, second + sent, event);
  }

  /** `message:send` to a registered id, as one step: the envelope and the confirmation. */
  lemma MessageToKnownId(rev: Revision, users: Registry, socketId: string, message: EncryptedMessage, now: int)
    requires Valid(users)
    requires message.to in users.entries
    ensures Step(rev, users, socketId, Event.MessageSend(message), now) ==
            StepResult(users, [Emission(SocketOf(users, message.to), MessageReceive,
                                        EnvelopeBody(message.from, message.cipher, message.kriKey,
                                                     message.harmony, message.timestamp, message.nonce)),
                               Emission(Reply(socketId), MessageDelivered, DeliveredBody(message.timestamp, message.to, now))])
  {
    StepRelay(rev, users, socketId, Event.MessageSend(message), now);
    var out := OnMessageSend(users, socketId, message, now);
    assert out == [out[0], out[1]];
  }

  /** `message:send` to an unregistered id, as one step: only the error, back to the caller. */
  lemma MessageToUnknownId(rev: Revision, users: Registry, socketId: string, message: EncryptedMessage, now: int)
    requires Valid(users)
    requires message.to !in users.entries
    ensures Step(rev, users, socketId, Event.MessageSend(message), now) ==
            StepResult(users, [Emission(Reply(socketId), MessageError, ErrorBody(RecipientNotFound, message.to))])
  {
    StepRelay(rev, users, socketId, Event.MessageSend(message), now);
  }

  /** `Run` on a trace that starts with `first`. */
  lemma RunCons(rev: Revision, users: Registry, first: Arrival, rest: seq<Arrival>)
    requires Valid(users)
    ensures var step := Step(rev, users, first.socketId, first.ev, first.now);
            var after := Run(rev, step.users, rest);
            Run(rev, users, [first] + rest) == StepResult(after.users, step.out + after.out)
  {
    assert ([first] + rest)[1..] == rest;
  }

  /** `Run` on a one-event trace is that event's `Step`. */
  lemma RunOne(rev: Revision, users: Registry, only: Arrival)
    requires Valid(users)
    ensures Run(rev, users, [only]) == Step(rev, users, only.socketId, only.ev, only.now)
  {
    var step := Step(rev, users, only.socketId, only.ev, only.now);
    assert [only][1..] == [];
    assert step.out + [] == step.out;
  }

  /** `Step` on a `register` event is `OnRegister`. */
  lemma StepRegister(rev: Revision, users: Registry, socketId: string, data: RegisterData, now: int)
    requires Valid(users)
    ensures Step(rev, users, socketId, Event.Register(data), now) == OnRegister(users, socketId, data, now)
  {
  }

  /** `Step` on an event that is neither `register` nor `disconnect` is `Relay`. */
  lemma StepRelay(rev: Revision, users: Registry, socketId: string, ev: Event, now: int)
    requires Valid(users)
    requires !(ev.Register? || ev.Disconnect?)
    ensures Step(rev, users, socketId, ev, now) == StepResult(users, Relay(rev, users, socketId, ev, now))
  {
  }

  /**
   * A registers and sends to an id nobody registered: A alone gets the
   * "Recipient not found" error naming that id, and the registry still
   * holds only A.
   */
  lemma NotFoundScenario(rev: Revision, sa: string, a: RegisterData, message: EncryptedMessage, t1: int, t2: int)
    requires message.to != a.userId
    ensures OnRegister(Empty, sa, a, t1).users.entries.Keys == {a.userId}
    ensures var registered := OnRegister(Empty, sa, a, t1).users;
            Step(rev, registered, sa, Event.MessageSend(message), t2) ==
            StepResult(registered, [Emission(Reply(sa), MessageError, ErrorBody(RecipientNotFound, message.to))])
  {
    EmptyValid();
    var registered := OnRegister(Empty, sa, a, t1).users;
    assert registered.entries == map[a.userId := User(a.userId, sa, a.publicKey, t1)];
    assert message.to !in registered.entries;
    MessageToUnknownId(rev, registered, sa, message, t2);
  }
}
