# Video-room signalling: a Dafny model

This project models the bookkeeping core of a small peer-to-peer video-call
application. It has two sides:

- **The signalling server** (`server.js`). It keeps three JavaScript `Map`s:
  - the room each socket was last put in;
  - the owner of each room;
  - each room's occupants with their display names.

  It handles `create-room`, `join-request`, `join-accepted`, `join-rejected`,
  `join-room`, `leave-room` and `disconnect`. It relays `offer`, `answer` and
  `ice-candidate` messages between two sockets.
- **The room page** (`public/js/room.js`). It holds:
  - the owner's queue of join requests, shown one at a time in an admission
    prompt;
  - the peer connections and remote names, keyed by the remote socket id;
  - the video wrappers of the remote participants and the compact-layout
    switch;
  - the handlers that create, replace and tear those down.

Files:

- `protocol.dfy`: socket ids, room ids, names, and the messages each side
  sends. Every emission names its audience: the sender, one socket, or a
  room except the sender.
- `jsmap.dfy`: a JavaScript `Map` as an insertion-ordered sequence of
  entries. It has lookup, `set` and `delete`, and its abstraction to a
  Dafny `map`.
- `server.dfy`: the registry. `Registry` and one step function per handler
  are the value-level reference. The class `SignalingServer` holds the three
  maps as fields; each handler method is proved to perform its step. The
  lemmas cover runs of many events.
- `admission.dfy`: the owner's admission queue as values. It proves that
  requests are decided in first-in, first-out order for every interleaving
  of arrivals and clicks.
- `roompage.dfy`: the class `Page`, which holds the page's mutable state.
  The class `PeerHandle` stands for an `RTCPeerConnection`; the page only
  closes it, sets its descriptions and adds candidates to it.
- `flows.dfy`: flows that cross both sides, such as a decision reaching its
  requester and an answer returning to the peer that sent the offer.

## Model

| member | source | states |
|---|---|---|
| JsMaps.Set | server.js:36 | `Map.set` updates the key's value in place when the key is present. Otherwise it appends a new last entry. The keys stay distinct. |
| JsMaps.Delete | server.js:111 | `Map.delete` removes exactly the key from the abstract map and keeps the keys distinct. The entries left are the other entries in their old order. An absent key leaves the entries unchanged. A present key shortens them by one. |
| Server.CreateRoomStep | server.js:26-37 | `create-room` emits nothing. The sender is recorded in the room and becomes its owner, replacing any earlier owner. The sender is added to the room's occupants under its name, creating the user map if needed. The rooms with a user map are the earlier ones plus this room. Other rooms' occupants are unchanged, and validity is kept. |
| Server.JoinRequestReply | server.js:40-55 | `join-request` emits exactly one message. The reply is `room-not-found`, sent to the sender, exactly when the room has no owner or its owner id is empty. Otherwise the request goes to the owner, carrying the room, the requester's id and the requester's name. |
| Server.Forward | server.js:58-71 | The owner's decision goes to the requester it names. An acceptance becomes `join-accepted` with the room and name. A rejection becomes `join-rejected` with the room only. |
| Server.JoinRoomStep | server.js:74-102 | `join-room` records the sender in the room, whatever the owner decided. The owners are unchanged. The joiner is added to the occupants, or the occupants are created. The rooms with a user map are the earlier ones plus this room. Other rooms' occupants are unchanged. `existing-users` lists exactly the earlier occupants with their names, each once. The room then hears `user-joined`. |
| Server.LeaveRoomStep | server.js:105-121 | `leave-room` forgets the sender's room record and removes the sender from the named room. Ownership is cleared only if the sender owns that room. No room is removed. `user-left` is broadcast. |
| Server.DisconnectStep | server.js:124-143 | `disconnect` does nothing when the socket has no recorded room, or its recorded room id is empty. Otherwise it is exactly `leave-room` for the recorded room. Afterwards the socket is not recorded under a non-empty room id. |
| Server.Relay | server.js:146-168 | Relays go only to the named target. The payload is unchanged and the sender's id is attached. Only an offer also carries the name the sender supplied. |
| Server.AddedUser | server.js:33-36 | Setting the sender in a room's user map, created when missing, adds exactly this room to the rooms with a user map. The room's occupants gain the sender under its name. Other rooms' occupants stay, and distinct keys stay distinct. |
| Server.RemovedUser | server.js:110-112 | Deleting the sender from a room's user map, when the room has one, keeps the set of rooms. The room's occupants lose exactly the sender. Other rooms' occupants stay, and distinct keys stay distinct. |
| Server.Handle | server.js:24-169 | The dispatch keeps the registry valid. Only `create-room`, `join-room`, `leave-room` and `disconnect` change state. An owner appears only through `create-room` by that socket. |
| Server.CreateRoomKeepsConsistent | server.js:26-37 | After `create-room`, the owners are still occupants of their rooms and each recorded socket is an occupant of its recorded room. |
| Server.JoinRoomKeepsConsistent | server.js:74-102 | `join-room` keeps owners and recorded sockets among the occupants of their rooms. |
| Server.LeaveRoomKeepsConsistent | server.js:105-121 | `leave-room` keeps owners and recorded sockets among the occupants of their rooms. |
| Server.HandleKeepsConsistent | server.js:24-169 | Every handler keeps each room's owner among its occupants and each recorded socket among the occupants of its recorded room. |
| Server.MessageKeepsConsistent | server.js:26-168 | Every message handler keeps each room's owner among its occupants and each recorded socket among the occupants of its recorded room. |
| Server.RunKeepsConsistent | server.js:24-169 | Any sequence of events from agreeing maps keeps owners and recorded sockets among the occupants of their rooms. |
| Server.RequestReachesOccupant | server.js:40-55 | After any run from startup, a join request that is forwarded goes to an occupant of the room it asks for. |
| Server.ExistingUsersMatchOccupants | server.js:82-86 | The list built by `forEach` holds a user exactly when that user is an occupant with that name. Its length is the number of occupants. |
| Server.RunKeepsValid | server.js:24-169 | Any sequence of events keeps every room's user map free of duplicate sockets. |
| Server.OwnerWasCreator | server.js:26-37 | After any run, a room's owner is either its owner from before or a socket that sent `create-room` for that room during the run. |
| Server.NeverCreatedRoomNotFound | server.js:40-55 | After any run from the initial registry, a join request for a room nobody created gets `room-not-found`. |
| Server.DisconnectIdempotent | server.js:124-143 | A second `disconnect` of the same socket changes nothing and emits nothing. |
| Server.LeaveRoomTwice | server.js:105-121 | A repeated `leave-room` leaves the same registry, but broadcasts `user-left` again. |
| Server.OwnerDisconnectClosesRoom | server.js:124-143 | When the owner disconnects, the room hears `user-left` and the other occupants stay. Later join requests for the room get `room-not-found`. |
| Server.OccupantOfTwoRooms | server.js:74-143 | A socket that creates room A and then joins room B is an occupant of both. Disconnecting cleans up only B, so the socket remains A's occupant and owner. |
| Server.EmptyRoomIdSurvivesDisconnect | server.js:124-143 | A socket that joined the room with the empty id is never cleaned up on disconnect, and nothing is emitted. |
| Server.AdmitAndJoinScenario | server.js:26-102 | In the admission flow, the request reaches the owner and the acceptance reaches the requester. On joining, the requester is told of exactly the owner, and the room becomes the two of them. |
| Server.CollectUsers | server.js:82-86 | The `forEach` loop copies the room's entries into the `existing-users` list, one user per entry, in insertion order. |
| Server.SignalingServer.constructor | server.js:14-21 | At startup all three maps are empty. |
| Server.SignalingServer.OnCreateRoom | server.js:26-37 | The handler's effect on the three fields is `CreateRoomStep`, and validity is kept. |
| Server.SignalingServer.OnJoinRequest | server.js:40-55 | Reads the owner map and emits `JoinRequestReply`. |
| Server.SignalingServer.OnJoinAccepted | server.js:58-63 | Emits the forwarded acceptance. |
| Server.SignalingServer.OnJoinRejected | server.js:66-71 | Emits the forwarded rejection. |
| Server.SignalingServer.OnJoinRoom | server.js:74-102 | The handler's new state and emissions are `JoinRoomStep`, and validity is kept. |
| Server.SignalingServer.OnLeaveRoom | server.js:105-121 | The handler's new state and emissions are `LeaveRoomStep`, and validity is kept. |
| Server.SignalingServer.OnDisconnect | server.js:124-143 | The handler's new state and emissions are `DisconnectStep`, and validity is kept. |
| Server.SignalingServer.OnOffer | server.js:146-152 | Emits the relayed offer. |
| Server.SignalingServer.OnAnswer | server.js:155-160 | Emits the relayed answer. |
| Server.SignalingServer.OnIceCandidate | server.js:163-168 | Emits the relayed candidate, null included. |
| Admissions.ShowNext | public/js/room.js:125-131 | The prompt opens on the oldest request only when it is hidden and a request waits. Otherwise nothing changes. The queue is never touched. |
| Admissions.Arrive | public/js/room.js:120-123 | A request is queued at the tail. An open prompt keeps showing the request it showed. The prompt invariant is kept. |
| Admissions.Resolve | public/js/room.js:134-160 | A click on an empty queue does nothing. Otherwise it removes exactly the oldest request and answers that request for the page's own room. The prompt stays open exactly when more requests wait, and the invariant is kept. |
| Admissions.Apply | public/js/room.js:120-160 | Every page event keeps the prompt invariant: the prompt is open exactly while requests wait, and it shows the oldest. |
| Admissions.ApplyKeepsOrder | public/js/room.js:120-160 | For one event, the requests decided by that event followed by those still queued equal the queue before the event with any new arrival appended. |
| Admissions.DriveKeepsValid | public/js/room.js:120-160 | The prompt invariant holds after any sequence of arrivals and clicks. |
| Admissions.DriveAnswersForOwnRoom | public/js/room.js:134-160 | Every message the owner's page sends is an acceptance or a rejection for its own room. |
| Admissions.AdmissionIsFifo | public/js/room.js:120-160 | For any interleaving of arrivals and clicks, the requesters decided so far followed by those still queued are exactly the requests in arrival order. |
| Admissions.TwoRequestsInOrder | public/js/room.js:120-160 | Two requests that arrive before any click are shown and decided in arrival order, and the prompt then closes. |
| RoomPage.Page.constructor | public/js/room.js:1-4 | A missing or empty `userName` reads as "Anonymous". Only the text "true" makes the page the owner's. The queue, both maps and the wrappers start empty, and the prompt starts hidden. |
| RoomPage.Page.MediaReady | public/js/room.js:51-68 | When media access is refused, nothing is sent. Otherwise the owner sends `create-room` and anyone else sends `join-room`, each with the page's room and name. |
| RoomPage.Page.UpdateVideoLayout | public/js/room.js:110-117 | The compact layout is on exactly when the container has more than four children. |
| RoomPage.Page.CreateVideoElement | public/js/room.js:74-100 | At most one wrapper exists per id. A known id changes nothing. A new id gets a wrapper appended last, labelled with the name or "Connecting...", and the layout is updated. |
| RoomPage.Page.RemoveVideoElement | public/js/room.js:102-108 | Exactly the id's wrapper is removed. The layout is updated only when a wrapper was removed. |
| RoomPage.Page.ShowNextRequest | public/js/room.js:125-131 | Performs `ShowNext` on the page's queue and prompt. |
| RoomPage.Page.OnJoinRequest | public/js/room.js:120-123 | Performs `Arrive` and keeps the page invariant. |
| RoomPage.Page.OnAccept | public/js/room.js:134-146 | Performs `Resolve` with an acceptance: the state and the emitted message both match. |
| RoomPage.Page.OnReject | public/js/room.js:149-160 | Performs `Resolve` with a rejection: the state and the emitted message both match. |
| RoomPage.Page.CreatePeerConnection | public/js/room.js:211-261 | Any old handle for the id is closed. A fresh open handle, with no descriptions and no candidates, replaces it and the name is recorded. Other ids keep their handles. No two ids share a handle. |
| RoomPage.Page.ClosePeerConnection | public/js/room.js:263-271 | The id's handle is closed, and the handle, the name and the wrapper are forgotten. Nothing else changes. The name and the wrapper are dropped even when no handle is kept. |
| RoomPage.Page.CreateOffer | public/js/room.js:275-291 | The id has a fresh handle whose local description is the offer, with no remote description and no candidates. Its wrapper is kept or added. The offer goes to the id with the page's own name. |
| RoomPage.Page.HandleOffer | public/js/room.js:294-312 | The sender has a fresh handle whose remote description is the offer and whose local description is the answer, with no candidates. Its wrapper is kept or added. The answer goes back to the sender. |
| RoomPage.Page.HandleAnswer | public/js/room.js:315-320 | An answer applies only to a kept connection for the sender, and only its remote description changes. Otherwise it is dropped. |
| RoomPage.Page.HandleIceCandidate | public/js/room.js:323-332 | A candidate is added only for a kept sender and a non-null candidate, and both descriptions stay as they were. Otherwise it is dropped. |
| RoomPage.Page.OfferTo | public/js/room.js:166-168 | One timer: the user's id gets a fresh handle whose local description is the offer, and its name is recorded. The handle it replaces, if any, is closed. No other id's handle changes. The given handles that are not the replaced one keep their local descriptions, and the given closed handles stay closed. A user with a wrapper keeps the wrappers and the layout as they were. A user without one gets a wrapper labelled with its name, and the layout is updated. The offer goes to that user. |
| RoomPage.Page.OnExistingUsers | public/js/room.js:163-170 | There is one offer per listed user, in list order. Every listed user ends up with a fresh connection holding that user's offer as its local description, its name recorded and a wrapper. Every handle a listed user had before is closed. Every unlisted id keeps the very same handle with all its fields unchanged, and no unlisted id gains a connection. Unlisted ids keep their recorded names, and none gains a name. The wrappers are the old ones plus one for each listed user that had none, labelled with its name; the old wrappers keep their labels. The layout is left alone when no wrapper was added and is current otherwise. |
| RoomPage.Page.OfferEach | public/js/room.js:165-169 | The timers one after another: the offers sent, the connection map and the name map are the old ones overwritten in list order. The replaced handles are closed and the only handles touched. The roster is the old one grown by the listed users, and the layout flag changes only when a wrapper was added. |
| RoomPage.Page.OfferNext | public/js/room.js:166-168 | One timer carries that bookkeeping one listed user further: one more offer, one more fresh handle and one more closed replaced handle. |
| RoomPage.ReplacedAt | public/js/room.js:165-169 | Each listed id's old handle is among the handles the timers replace. |
| RoomPage.UnlistedKept | public/js/room.js:165-169 | When no two ids share a handle, an unlisted id's handle is not among the replaced ones. |
| RoomPage.GrowKeeps | public/js/room.js:165-169 | The roster grown by the listed users has the old ids plus the listed ids, and the old wrappers keep their labels. A wrapper is added exactly when some listed id had none. |
| RoomPage.GrowLabels | public/js/room.js:165-169 | With distinct ids, each listed user that had no wrapper gets one labelled with its name. |
| RoomPage.Page.OnUserJoined | public/js/room.js:173-176 | Only a wrapper is added for the newcomer. No connection is made. |
| RoomPage.Page.OnUserLeft | public/js/room.js:194-197 | The leaver's handle is closed, and its handle, name and wrapper are gone. Nothing else changes. |
| RoomPage.Page.OnConnectionStateChange | public/js/room.js:250-254 | Only `disconnected` or `failed` closes the connection. Then the id's handle, name and wrapper are dropped, and the handle it had is closed. The layout is updated when a wrapper was removed and left alone otherwise. Only that handle may change. Every other state changes nothing. |
| RoomPage.Page.CloseEach | public/js/room.js:202-205 | Every kept handle is closed and the wrapper of every connected id is removed. |
| RoomPage.Page.OnDisconnect | public/js/room.js:200-208 | Every kept handle is closed and the connected ids' wrappers are removed. Both maps are emptied. Wrappers of ids that had no connection remain. |
| RoomPage.Page.CloseAll | public/js/room.js:368-373 | The `beforeunload` handler closes every kept handle and changes nothing else on the page. The closed handles stay in the connection map, so the page invariant fails whenever a connection was kept. |
| RoomPage.Page.EndCall | public/js/room.js:335-347 | Every kept handle is closed and the connection map is emptied. The names and wrappers stay. |
| Flows.DecisionReachesRequester | server.js:58-71 | The owner's decision on the oldest request reaches exactly that requester. An acceptance carries the requester's name and the room. |
| Flows.AnswerReturnsToOfferer | server.js:146-160 | An offer from A relayed to B, answered by B to the sender the relayed offer names, returns to A as an answer from B. |

## Behaviour of the code the model follows

- A socket that sends `join-room` for a second room is not removed from the
  first room's user map. So one socket can be an occupant of two rooms
  (`Server.OccupantOfTwoRooms`). A description of one room per participant
  would not hold here, and the model follows the code.
- Every `existing-users` timer is set for the same 500 ms, so the offers are
  not staggered. They fire in list order, which is the order
  `RoomPage.Page.OnExistingUsers` uses. The list is built from a room's
  user map, so no socket id occurs in it twice; the model takes that as
  given.
- `disconnect` tests the recorded room id for truthiness. A socket recorded
  under the empty room id is therefore never cleaned up
  (`Server.EmptyRoomIdSurvivesDisconnect`). `join-request` likewise treats an
  empty owner id as no owner.
- Rooms are never removed: a room's user map stays once created, even when
  it becomes empty.
- A repeated `leave-room` broadcasts `user-left` again
  (`Server.LeaveRoomTwice`).

## Left out

- Transport: socket.io room membership (`socket.join`, `socket.leave`) and
  delivery. A broadcast is kept as the symbolic emission "room except
  sender". No network is modelled.
- Server setup: the Express app, static file serving and `listen` (after
  `server.js:169`). None of them touches the registry.
- Browser media: `getUserMedia` becomes the `granted` flag of `MediaReady`.
  Streams, tracks, `ontrack`, `onicecandidate`, and the mute and camera
  buttons are not modelled, because they are browser engine state.
- The `ontrack` handler in `public/js/room.js:227-236` can create a wrapper.
  It is not modelled, because the engine decides when it fires.
- WebRTC payloads: offers, answers and candidates are opaque strings given
  as parameters. `RTCPeerConnection` is reduced to the `PeerHandle`
  fields the page changes.
- Asynchrony: the `await`s inside `createOffer` and `handleOffer`, and the
  interleaving of the `existing-users` timers with other events, are not
  modelled. Each handler runs to completion in one step.
- DOM text that is not bookkeeping is not modelled. This covers the room id
  and local-name displays, alerts, and the redirect of the end-call button.
- A null `roomId` query parameter is not modelled; the page's room id is a
  string.
- Other files of the repository (the landing page's script, HTML and CSS)
  are not part of this model.
- The `try`/`catch` around `addIceCandidate` in
  `public/js/room.js:326-330` is not modelled. A candidate the engine
  rejects is only logged, so the page's bookkeeping is the same either way.
- RoomPage.Page.EndCall: stopping the local media tracks is not modelled,
  for the same reason as browser media.
- RoomPage.Page.CloseAll: stopping the local media tracks in the
  `beforeunload` handler is not modelled, for the same reason.
