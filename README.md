# KRIMassRelayServer: presence registry and event routing

This project models the core of KRIMassRelayServer in Dafny and proves properties of the model. KRIMassRelayServer is the socket.io relay of an end-to-end-encrypted messenger.

The server keeps one piece of state, the in-memory `users` registry. The registry maps each logical user id to the user's current socket id, public key and last registration time. Every socket event is a handler that does one of three things:

- It updates the registry: `register` and `disconnect`.
- It looks up a recipient and emits to that recipient's socket.
- It broadcasts or replies without consulting the registry.

The server never looks inside the encrypted payloads it relays.

Two revisions of the server are modelled as one class with a `revision` constant. They are the TypeScript source (`relay-server.ts`) and the compiled build (`dist/relay-server.js`). The build adds several handlers:

- WebRTC signalling;
- `group:leave`;
- file and voice relay;
- `message:self_destruct`.

It also replaces the `group:create` broadcast with a fan-out to the listed members. In the TypeScript revision an event without a handler has no effect.

Layout:

- `registry.dfy` (module `UserRegistry`) models the JavaScript `Map` as its entries plus the insertion order of its keys. The order matters because the server finds a socket's owner with `Array.from(users.values()).find(...)`, which returns the first match in insertion order. The module proves `set`, `delete` and that linear `find`.
- `events.dfy` (module `Events`) gives the inbound payloads, the outbound event names and payloads, and emission targets. Every target that depends on where an event came from names that socket, so an outbox of many events still shows who got each reply:
  - the room named after a socket id (`io.to(socketId)`);
  - a reply on the socket the event arrived on (`socket.emit`);
  - every connection (`io.emit`);
  - every connection but the one the event arrived on (`socket.broadcast.emit`).
- `handlers.dfy` (module `Handlers`) writes each handler as a pure step. A step maps the registry, the calling socket, the payload and the clock reading to the new registry and the emissions. The module holds the per-handler properties.
- `server.dfy` (module `RelayServer`) holds the dispatcher `Step` over all events of either revision, and the class `KRIMassRelayServer`. The class has the `users` and `outbox` fields and one method per handler. Each method updates the fields in place and is proved to do exactly what its step function says.
- `properties.dfy` (module `Properties`) proves properties of whole event sequences (`Run`) and end-to-end scenarios.

Two behaviours of the code are worth knowing, and the model keeps both:

- Each revision registers two handlers for `typing:start` and for `typing:stop`. One handler reads `recipientId` and emits `user:typing` with the sender's user id. The other reads `to` and emits `typing:indicator` with the raw socket id. Both run, in registration order, and each fires on its own.
- `disconnect` deletes only the first entry, in insertion order, whose socket matches the closing socket. It does not delete every entry on that socket. A later id registered from the same socket stays in the registry (`Handlers.SharedSocketKeepsLaterIds`).

## Model

| member | source | states |
|---|---|---|
| `UserRegistry.Values` | relay-server.ts:338 | the map's values in insertion order: one per key, each stored under its own id |
| `UserRegistry.Set` | relay-server.ts:176 | `users.set`: the invariant is kept, the key is bound to the new user, a known key keeps its position and a new key goes last |
| `UserRegistry.SetValues` | relay-server.ts:176 | what iterating after `set` yields: a known key's value is replaced in place, a new key's value is appended |
| `UserRegistry.Delete` | relay-server.ts:341 | `users.delete`: the invariant is kept, exactly that key is removed from the map and from the order, and an absent key changes nothing |
| `UserRegistry.RemoveAt` | relay-server.ts:341 | taking a key out of the insertion order leaves the keys before it and after it in their old relative order |
| `UserRegistry.RemoveAppended` | relay-server.ts:341 | removing a key that was just appended gives back the earlier order |
| `UserRegistry.DeleteAfterSet` | relay-server.ts:176 | setting a new key and then deleting it restores the map exactly, order included |
| `UserRegistry.FindBySocket` | relay-server.ts:338 | `find` by socket id: none exactly when no value is on that socket, otherwise the first value that is |
| `UserRegistry.FindSender` | dist/relay-server.js:364 | the owner lookup: none exactly when no entry is on the socket, otherwise a stored entry on that socket at the first matching position |
| `UserRegistry.SenderId` | relay-server.ts:230-232 | `sender?.id`: missing exactly when no entry is on the socket, otherwise the registered id on that socket that comes first in insertion order |
| `UserRegistry.OneEntryPerId` | relay-server.ts:74 | iterating the registry yields exactly one user per registered id and none for any other id |
| `Events.WireInjective` | dist/relay-server.js:130-373 | no two outbound events go out under the same name |
| `Handlers.OnRegister` | relay-server.ts:168-191 | `register`: the entry for the id becomes the caller's socket, the new key and the time, in the id's old position or last; exactly one `registered` replied on the calling socket and one `user:online` to everyone, each with its fields |
| `Handlers.RegisterUpserts` | dist/relay-server.js:130-137 | after `register` there is exactly one entry for the id, it holds the new socket and key, the key set grows by at most that id, and every other entry is unchanged |
| `Handlers.OnMessageSend` | relay-server.ts:195-223 | to an unregistered id: only `message:error` naming `to`, replied on the sender's socket, and no envelope or confirmation. To a registered id: exactly one envelope to the recipient's socket with every field copied, and one `message:delivered` replied on the sender's socket with `messageId = timestamp`, and no error |
| `Handlers.OnTyping` | relay-server.ts:227-333 | both typing handlers: `user:typing` with the sender's id exactly when `recipientId` is registered, then `typing:indicator` with the socket id exactly when `to` is registered, each to that user's socket |
| `Handlers.GroupFanOut` | dist/relay-server.js:247-256 | the build's `group:create` emits at most one copy per listed member, and none when no listed member is registered |
| `Handlers.GroupFanOutOnlyMembers` | dist/relay-server.js:250-255 | every copy is `group:created`, carries the payload unchanged, and goes to the socket of a listed registered member |
| `Handlers.GroupFanOutReachesMembers` | dist/relay-server.js:250-255 | every listed registered member's socket gets a copy |
| `Handlers.GroupFanOutCount` | dist/relay-server.js:250-255 | every socket gets exactly as many copies as there are listed entries registered on it, repeats included |
| `Handlers.GroupFanOutOncePerMember` | dist/relay-server.js:247-256 | each listed registered member's socket gets exactly one copy, when no two registered listed members share a socket |
| `Handlers.OnGroupAddMember` | relay-server.ts:262-271 | `group:invitation` with the payload to the member's socket when the member is registered, nothing otherwise |
| `Handlers.OnKeyExchange` | relay-server.ts:281-294 | `key:received` to the recipient's socket only when the recipient is registered, with `from` set to the caller's socket id |
| `Handlers.OnCallSignal` | dist/relay-server.js:203-244 | the WebRTC signal under its own event name to the recipient's socket when registered, with `from` set to the user id the socket scan finds; nothing otherwise |
| `Handlers.OnForward` | dist/relay-server.js:275-297 | file and voice payloads go unchanged to the recipient's socket when the recipient is registered, nothing otherwise |
| `Handlers.OnSelfDestruct` | dist/relay-server.js:300-312 | always exactly one `message:deleted` replied on the requester's socket, and it comes last; `message:delete` to the contact exactly when the contact is registered |
| `Handlers.OnDisconnect` | relay-server.ts:336-350 | no entry on the socket: nothing changes and nothing is emitted. Otherwise the entry the owner lookup finds is deleted and one `user:offline` naming it goes to everyone |
| `Handlers.DisconnectRemovesFirstOwner` | dist/relay-server.js:362-373 | `disconnect` deletes exactly the first entry in insertion order on the socket, every other key keeping its relative order, and emits exactly one `user:offline` for that id |
| `Handlers.DisconnectKeepsOthers` | relay-server.ts:338-346 | an entry on another socket survives `disconnect` unchanged, and no `user:offline` names it |
| `Handlers.SharedSocketKeepsLaterIds` | dist/relay-server.js:364-366 | a later id registered from the same socket stays registered when that socket closes |
| `Handlers.DisconnectUnknownSocket` | relay-server.ts:340 | a socket no entry is on closes with no effect |
| `Handlers.DisconnectRemovesAtMostOne` | dist/relay-server.js:362-373 | `disconnect` removes at most one entry and adds none, and it emits one `user:offline` per removed entry and nothing else |
| `RelayServer.Step` | relay-server.ts:163-351 | one event under either revision: the invariant is kept, only `register` and `disconnect` change the registry, and the TypeScript revision emits nothing for build-only events |
| `RelayServer.Relay` | dist/relay-server.js:152-360 | the handlers that only read the registry; for build-only events the TypeScript revision emits nothing |
| `RelayServer.StepKeys` | relay-server.ts:176 | after one event, an id is registered only if it was before or that event registered it |
| `RelayServer.UnregisteredRecipientReachesOnlyCaller` | dist/relay-server.js:152-325 | when the id an event is addressed to is not registered, every emission is a reply on the calling socket |
| `RelayServer.RelayReachesOnlyRecipient` | dist/relay-server.js:152-325 | a relay addressed to a registered id reaches only that id's current socket and replies on the calling socket |
| `RelayServer.BroadcastsIgnoreRegistry` | relay-server.ts:250-312 | `group:message`, `group:leave`, `peer:discover`, the TypeScript `group:create` and the `sync:request` reply give the same emissions under any registry; each goes to every connection but the calling one, or is a reply on the calling socket for the sync reply |
| `RelayServer.KRIMassRelayServer.constructor` | relay-server.ts:88 | the server starts with an empty registry and an empty outbox |
| `RelayServer.KRIMassRelayServer.Register` | relay-server.ts:168-191 | the registry is updated and the outbox extended exactly as `OnRegister` says |
| `RelayServer.KRIMassRelayServer.MessageSend` | relay-server.ts:195-223 | the registry is unchanged and the outbox gains exactly what `OnMessageSend` says |
| `RelayServer.KRIMassRelayServer.Typing` | relay-server.ts:227-333 | the registry is unchanged and the outbox gains both typing handlers' emissions, as `OnTyping` says |
| `RelayServer.KRIMassRelayServer.GroupCreate` | dist/relay-server.js:247-256 | the registry is unchanged; the outbox gains one `group:created` to every connection but the caller (TypeScript revision) or, through the loop over `members`, exactly the member fan-out `GroupFanOut` (build) |
| `RelayServer.KRIMassRelayServer.GroupAddMember` | relay-server.ts:262-271 | the registry is unchanged and the outbox gains what `OnGroupAddMember` says |
| `RelayServer.KRIMassRelayServer.GroupMessage` | relay-server.ts:273-278 | the registry is unchanged; one `group:message_received` with the payload goes to every other connection |
| `RelayServer.KRIMassRelayServer.GroupLeave` | dist/relay-server.js:269-272 | the registry is unchanged; in the build, one `group:member_left` goes to every other connection, and in the TypeScript revision nothing is emitted |
| `RelayServer.KRIMassRelayServer.KeyExchange` | relay-server.ts:281-294 | the registry is unchanged and the outbox gains what `OnKeyExchange` says |
| `RelayServer.KRIMassRelayServer.SyncRequest` | relay-server.ts:297-302 | the registry is unchanged; one `sync:response` with the clock reading and the fixed message is replied on the calling socket |
| `RelayServer.KRIMassRelayServer.PeerDiscover` | relay-server.ts:305-312 | the registry is unchanged; one `peer:found` with id, key and timestamp goes to every other connection |
| `RelayServer.KRIMassRelayServer.Call` | dist/relay-server.js:203-244 | the registry is unchanged and the outbox gains what `OnCallSignal` says in the build, and nothing in the TypeScript revision |
| `RelayServer.KRIMassRelayServer.Forward` | dist/relay-server.js:275-297 | the registry is unchanged and the outbox gains what `OnForward` says in the build, and nothing in the TypeScript revision |
| `RelayServer.KRIMassRelayServer.SelfDestruct` | dist/relay-server.js:300-312 | the registry is unchanged and the outbox gains what `OnSelfDestruct` says in the build, and nothing in the TypeScript revision |
| `RelayServer.KRIMassRelayServer.Disconnect` | relay-server.ts:336-350 | the registry is updated and the outbox extended exactly as `OnDisconnect` says |
| `RelayServer.KRIMassRelayServer.Handle` | relay-server.ts:163-351 | dispatching one event updates the registry and extends the outbox exactly as `Step` says |
| `RelayServer.KRIMassRelayServer.Dispatch` | dist/relay-server.js:152-360 | the registry is unchanged and the outbox gains what `Relay` says |
| `Properties.Run` | relay-server.ts:163 | a sequence of events, handled in order, keeps the registry invariant |
| `Properties.RunOneEntryPerId` | relay-server.ts:74 | after any sequence of events the registry holds at most one entry per id |
| `Properties.RunKeysRegistered` | relay-server.ts:176 | every id present after a sequence of events was present before or was registered by one of them |
| `Properties.RelayOnlyRunKeepsRegistry` | relay-server.ts:195-333 | a sequence without `register` or `disconnect` leaves the registry exactly as it was |
| `Properties.RegisterLastWriterWins` | relay-server.ts:168-176 | two registrations of one id leave one entry holding the second socket, key and time, in the first one's position, with every other entry unchanged |
| `Properties.StaleDisconnectKeepsCurrentEntry` | dist/relay-server.js:364-366 | after a reconnect on a new socket, the old socket's `disconnect` keeps the current entry and emits no `user:offline` for that id |
| `Properties.StaleDisconnectIsSilent` | dist/relay-server.js:362-373 | when no other entry is on the old socket, that stale `disconnect` changes nothing and emits nothing |
| `Properties.DisconnectedUserIsUnreachable` | relay-server.ts:336-350 | closing a user's only socket announces them offline once, and a message sent to them afterwards only gets a "Recipient not found" error replied on the sender's socket |
| `Properties.RegisteredOnFreshSocket` | relay-server.ts:176 | registering a new id on an unused socket puts the entry last, and it is the first entry on that socket |
| `Properties.RegisterThenDisconnectRestores` | relay-server.ts:168-350 | `register` and then the same fresh socket's `disconnect` restore the registry exactly and emit `registered`, `user:online` and `user:offline` |
| `Properties.DeliveryScenario` | relay-server.ts:195-214 | A registers, B registers and A messages B: among the six emissions there is exactly one envelope, which reaches B's socket with every field copied, and exactly one confirmation, replied on A's socket |
| `Properties.NotFoundScenario` | relay-server.ts:217-222 | A registers and messages an unknown id: only A's socket gets the error naming that id, and the registry still holds only A |

## Left out

- socket.io and express plumbing are not modelled: construction of the HTTP and socket servers, middleware, CORS, `start`/`stop` and `listen`. They are transport and I/O. Emissions are collected in an abstract outbox of target, event and payload.
- The per-connection lifecycle of socket.io (`connection`, handler registration, room membership) is not modelled. Each event is given with the id of the socket it arrived on.
- The HTTP routes `/health`, `/users/online` and `/users/find` (relay-server.ts:113-152) are not modelled. They are read-only views over the registry.
- `ssl-config.ts` is not part of this model. It picks a configuration from environment variables and has no state or invariants.
- `dist/relay-server.d.ts` is not part of this model. It holds only type declarations.
- `console.log` output is not modelled. It is an effect with no bearing on the state.
- `Date.now()` becomes a parameter `now`, one per handler. `register` reads the clock twice (for `lastSeen` and for the reply's `timestamp`); the model uses one value for both.
- JavaScript numbers (`harmony`, `timestamp`, `lastSync`) are modelled as unbounded integers. The server only copies them and never computes with them.
- Payload contents are opaque strings that are only copied: ciphertext, wrapped keys, SDP offers and answers, ICE candidates, file and voice data, group details. Field names inside forwarded objects are not modelled.
- Malformed payloads are not modelled. Examples are a missing `members` array, which makes the build's `group:create` throw, and a missing `userId` in `register`. Every payload is taken as well-formed, except that the two typing fields may each be absent.
- Concurrency is not modelled. Node.js runs handlers one at a time to completion, so the model handles events in sequence.
- socket.io puts every connection in the room named after its own id. The model keeps `io.to(socketId)` and `socket.emit` as different targets and does not identify the two.
