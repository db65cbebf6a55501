/**
 * The signalling server's registry (server.js). Three maps hold all of its
 * state: the room each socket was last put in, the owner of each room, and
 * each room's occupants with their display names (a JavaScript `Map`, so in
 * insertion order). Every handler is one synchronous transition that
 * updates the maps and returns the events it emits.
 *
 * `Registry` and the step functions below are the value-level reference;
 * the class `SignalingServer` keeps the same three maps as fields, and each
 * of its handler methods is proved to perform the matching step.
 */
module Server {
  import opened Protocol
  import opened JsMaps

  datatype Registry = Registry(
    socketRooms: map<SocketId, RoomId>,
    roomOwners: map<RoomId, SocketId>,
    roomUsers: map<RoomId, Entries<SocketId, Name>>)
  {
    /** Each room's user map is a JavaScript `Map`: one entry per socket. */
    predicate Valid() {
      forall r :: r in roomUsers ==> DistinctKeys(roomUsers[r])
    }

    /**
     * The three maps agree: each room's owner is one of its occupants, and
     * each socket is an occupant of the room recorded for it.
     */
    predicate Consistent() {
      && Valid()
      && (forall r :: r in roomOwners ==> roomOwners[r] in Occupants(this, r))
      && (forall x :: x in socketRooms ==> x in Occupants(this, socketRooms[x]))
    }
  }

  /** The registry when the process starts. */
  function Empty(): Registry {
    Registry(map[], map[], map[])
  }

  /** A room's occupants and their names, order aside; none for an unknown room. */
  function Occupants(s: Registry, roomId: RoomId): map<SocketId, Name> {
    if roomId in s.roomUsers then ToMap(s.roomUsers[roomId]) else map[]
  }

  /** The entries of a room's user map, none when the room has no map yet. */
  function UserEntries(s: Registry, roomId: RoomId): Entries<SocketId, Name> {
    if roomId in s.roomUsers then s.roomUsers[roomId] else []
  }

  /** `if (ownerId)`: an owner is recorded and the recorded id is not the empty string. */
  predicate HasOwner(s: Registry, roomId: RoomId) {
    roomId in s.roomOwners && s.roomOwners[roomId] != ""
  }

  /** The `existing-users` list built by `forEach` over a room's user map. */
  function UsersOf(e: Entries<SocketId, Name>): seq<User> {
    seq(|e|, i requires 0 <= i < |e| => User(e[i].key, e[i].value))
  }

  /** Putting the sender in a room's user map, as `create-room` and `join-room` both do. */
  lemma AddedUser(s: Registry, next: Registry, sender: SocketId, roomId: RoomId, userName: Name)
    requires next.roomUsers == s.roomUsers[roomId := Set(UserEntries(s, roomId), sender, userName)]
    ensures next.roomUsers.Keys == s.roomUsers.Keys + {roomId}
    ensures Occupants(next, roomId) == Occupants(s, roomId)[sender := userName]
    ensures forall r :: r != roomId ==> Occupants(next, r) == Occupants(s, r)
    ensures s.Valid() ==> next.Valid()
  {
  }

  /** Taking the sender out of a room's user map, when the room has one, as `leave-room` does. */
  lemma RemovedUser(s: Registry, next: Registry, sender: SocketId, roomId: RoomId)
    requires next.roomUsers ==
      if roomId in s.roomUsers then s.roomUsers[roomId := Delete(s.roomUsers[roomId], sender)] else s.roomUsers
    ensures next.roomUsers.Keys == s.roomUsers.Keys
    ensures s.Valid() ==> Occupants(next, roomId) == Occupants(s, roomId) - {sender}
    ensures forall r :: r != roomId ==> Occupants(next, r) == Occupants(s, r)
    ensures s.Valid() ==> next.Valid()
  {
  }

  /** The registry after a handler, and what the handler emitted, in order. */
  datatype Step = Step(next: Registry, out: seq<Emit>)

  /** `create-room`: the sender becomes the owner (last writer wins) and an occupant. */
  function CreateRoomStep(s: Registry, sender: SocketId, roomId: RoomId, userName: Name): (t: Step)
    ensures t.out == []
    ensures t.next.socketRooms == s.socketRooms[sender := roomId]
    ensures t.next.roomOwners == s.roomOwners[roomId := sender]
    ensures t.next.roomUsers.Keys == s.roomUsers.Keys + {roomId}
    ensures s.Valid() ==> Occupants(t.next, roomId) == Occupants(s, roomId)[sender := userName]
    ensures forall r :: r != roomId ==> Occupants(t.next, r) == Occupants(s, r)
    ensures s.Valid() ==> t.next.Valid()
  {
    var next := Registry(s.socketRooms[sender := roomId],
                         s.roomOwners[roomId := sender],
                         s.roomUsers[roomId := Set(UserEntries(s, roomId), sender, userName)]);
    AddedUser(s, next, sender, roomId, userName);
    Step(next, [])
  }

  /**
   * `join-request`: changes nothing; forwards the request to the room's owner,
   * or tells the sender alone that the room was not found.
   */
  function JoinRequestReply(s: Registry, sender: SocketId, roomId: RoomId, userName: Name): (out: seq<Emit>)
    ensures |out| == 1
    ensures out[0] == ToSelf(RoomNotFound) <==> !HasOwner(s, roomId)
    ensures HasOwner(s, roomId) ==>
      out[0] == ToSocket(s.roomOwners[roomId], ForwardedJoinRequest(JoinRequestData(roomId, sender, userName)))
  {
    if HasOwner(s, roomId) then
      [ToSocket(s.roomOwners[roomId], ForwardedJoinRequest(JoinRequestData(roomId, sender, userName)))]
    else
      [ToSelf(RoomNotFound)]
  }

  /**
   * `join-accepted` and `join-rejected`: the owner's decision goes to the
   * requester it names; acceptance carries the room and name, rejection the room.
   */
  function Forward(msg: ClientMessage): (e: Emit)
    requires msg.JoinAccepted? || msg.JoinRejected?
    ensures e.ToSocket? && e.target == msg.odId
    ensures e.event.Accepted? || e.event.Rejected?
    ensures e.event.Accepted? <==> msg.JoinAccepted?
    ensures e.event.roomId == msg.roomId
    ensures msg.JoinAccepted? ==> e.event.userName == msg.userName
  {
    match msg
    case JoinAccepted(roomId, odId, userName) => ToSocket(odId, Accepted(roomId, userName))
    case JoinRejected(roomId, odId) => ToSocket(odId, Rejected(roomId))
  }

  /**
   * `join-room`: honoured whatever the room's owner decided, or whether the
   * room exists. The joiner gets the occupants as they stood before it was
   * added; everyone else in the room hears that it joined.
   */
  function JoinRoomStep(s: Registry, sender: SocketId, roomId: RoomId, userName: Name): (t: Step)
    ensures t.next.socketRooms == s.socketRooms[sender := roomId]
    ensures t.next.roomOwners == s.roomOwners
    ensures t.next.roomUsers.Keys == s.roomUsers.Keys + {roomId}
    ensures s.Valid() ==> Occupants(t.next, roomId) == Occupants(s, roomId)[sender := userName]
    ensures forall r :: r != roomId ==> Occupants(t.next, r) == Occupants(s, r)
    ensures s.Valid() ==> t.next.Valid()
    ensures |t.out| == 2 && t.out[0].ToSelf? && t.out[0].event.ExistingUsers?
    ensures t.out[1] == ToRoomExcept(roomId, sender, UserJoined(sender, userName))
    ensures s.Valid() ==> forall u :: u in t.out[0].event.users <==>
      u.odId in Occupants(s, roomId) && Occupants(s, roomId)[u.odId] == u.userName
    ensures s.Valid() ==> |t.out[0].event.users| == |Occupants(s, roomId)|
  {
    var before := UserEntries(s, roomId);
    var existing := UsersOf(before);
    ExistingUsersMatchOccupants(before);
    var next := Registry(s.socketRooms[sender := roomId],
                         s.roomOwners,
                         s.roomUsers[roomId := Set(before, sender, userName)]);
    AddedUser(s, next, sender, roomId, userName);
    Step(next, [ToSelf(ExistingUsers(existing)), ToRoomExcept(roomId, sender, UserJoined(sender, userName))])
  }

  /**
   * `leave-room`: the sender's room record goes whatever room it names; it is
   * taken out of the named room's users, and that room's ownership is
   * cleared only if the sender holds it. No room is ever removed.
   */
  function LeaveRoomStep(s: Registry, sender: SocketId, roomId: RoomId): (t: Step)
    ensures t.next.socketRooms == s.socketRooms - {sender}
    ensures t.next.roomUsers.Keys == s.roomUsers.Keys
    ensures s.Valid() ==> Occupants(t.next, roomId) == Occupants(s, roomId) - {sender}
    ensures forall r :: r != roomId ==> Occupants(t.next, r) == Occupants(s, r)
    ensures t.next.roomOwners ==
      if roomId in s.roomOwners && s.roomOwners[roomId] == sender then s.roomOwners - {roomId} else s.roomOwners
    ensures t.out == [ToRoomExcept(roomId, sender, UserLeft(sender))]
    ensures s.Valid() ==> t.next.Valid()
  {
    var users := if roomId in s.roomUsers then s.roomUsers[roomId := Delete(s.roomUsers[roomId], sender)] else s.roomUsers;
    var owners := if roomId in s.roomOwners && s.roomOwners[roomId] == sender then s.roomOwners - {roomId} else s.roomOwners;
    var next := Registry(s.socketRooms - {sender}, owners, users);
    RemovedUser(s, next, sender, roomId);
    Step(next, [ToRoomExcept(roomId, sender, UserLeft(sender))])
  }

  /** `if (roomId)`: disconnect acts only on a recorded, non-empty room id. */
  predicate InSomeRoom(s: Registry, sender: SocketId) {
    sender in s.socketRooms && s.socketRooms[sender] != ""
  }

  /**
   * `disconnect`: for a socket recorded in a room, the same clean-up as
   * leaving that room; otherwise nothing at all.
   */
  function DisconnectStep(s: Registry, sender: SocketId): (t: Step)
    ensures !InSomeRoom(s, sender) ==> t == Step(s, [])
    ensures InSomeRoom(s, sender) ==> t == LeaveRoomStep(s, sender, s.socketRooms[sender])
    ensures sender !in t.next.socketRooms || !InSomeRoom(t.next, sender)
    ensures s.Valid() ==> t.next.Valid()
  {
    if InSomeRoom(s, sender) then
      var roomId := s.socketRooms[sender];
      var users := if roomId in s.roomUsers then s.roomUsers[roomId := Delete(s.roomUsers[roomId], sender)] else s.roomUsers;
      var owners := if roomId in s.roomOwners && s.roomOwners[roomId] == sender then s.roomOwners - {roomId} else s.roomOwners;
      Step(Registry(s.socketRooms - {sender}, owners, users),
           [ToRoomExcept(roomId, sender, UserLeft(sender))])
    else
      Step(s, [])
  }

  /**
   * `offer`, `answer`, `ice-candidate`: one message to the named target, the
   * payload unchanged and the sender's id attached; only an offer also
   * carries the sender's name, as the sender supplied it.
   */
  function Relay(sender: SocketId, msg: ClientMessage): (e: Emit)
    requires msg.Offer? || msg.Answer? || msg.IceCandidate?
    ensures e.ToSocket? && e.target == msg.targetId
    ensures e.event.RelayedOffer? || e.event.RelayedAnswer? || e.event.RelayedCandidate?
    ensures e.event.senderId == sender
    ensures msg.Offer? <==> e.event.RelayedOffer?
    ensures msg.Answer? <==> e.event.RelayedAnswer?
    ensures msg.Offer? ==> e.event.offer == msg.offer && e.event.senderName == msg.senderName
    ensures msg.Answer? ==> e.event.answer == msg.answer
    ensures msg.IceCandidate? ==> e.event.candidate == msg.candidate
  {
    match msg
    case Offer(offer, targetId, senderName) => ToSocket(targetId, RelayedOffer(offer, sender, senderName))
    case Answer(answer, targetId) => ToSocket(targetId, RelayedAnswer(answer, sender))
    case IceCandidate(candidate, targetId) => ToSocket(targetId, RelayedCandidate(candidate, sender))
  }

  /** What reaches the server from one socket: an event, or its disconnection. */
  datatype Incoming = Message(from: SocketId, msg: ClientMessage) | Disconnected(from: SocketId)

  /** The `io.on('connection')` dispatch: the handler registered for the event's name. */
  function Handle(s: Registry, inc: Incoming): (t: Step)
    ensures s.Valid() ==> t.next.Valid()
    ensures t.next != s ==>
      inc.Disconnected? || inc.msg.CreateRoom? || inc.msg.JoinRoom? || inc.msg.LeaveRoom?
    ensures forall r :: r in t.next.roomOwners ==>
      (r in s.roomOwners && t.next.roomOwners[r] == s.roomOwners[r]) ||
      (inc.Message? && inc.msg.CreateRoom? && inc.msg.roomId == r && t.next.roomOwners[r] == inc.from)
  {
    match inc
    case Disconnected(x) => DisconnectStep(s, x)
    case Message(x, m) =>
      match m
      case CreateRoom(r, n) => CreateRoomStep(s, x, r, n)
      case JoinRequest(r, n) => Step(s, JoinRequestReply(s, x, r, n))
      case JoinAccepted(_, _, _) => Step(s, [Forward(m)])
      case JoinRejected(_, _) => Step(s, [Forward(m)])
      case JoinRoom(r, n) => JoinRoomStep(s, x, r, n)
      case LeaveRoom(r) => LeaveRoomStep(s, x, r)
      case Offer(_, _, _) => Step(s, [Relay(x, m)])
      case Answer(_, _) => Step(s, [Relay(x, m)])
      case IceCandidate(_, _) => Step(s, [Relay(x, m)])
  }

  /** A sequence of events handled one at a time, as the single-threaded server does. */
  function Run(s: Registry, incs: seq<Incoming>): Step
    decreases |incs|
  {
    if incs == [] then Step(s, [])
    else
      var first := Handle(s, incs[0]);
      var rest := Run(first.next, incs[1..]);
      Step(rest.next, first.out + rest.out)
  }

  /** `o` sent `create-room` for `roomId` at some point of `incs`. */
  predicate Created(incs: seq<Incoming>, o: SocketId, roomId: RoomId) {
    exists i :: 0 <= i < |incs| && incs[i].Message? && incs[i].from == o &&
      incs[i].msg.CreateRoom? && incs[i].msg.roomId == roomId
  }

  /** The `existing-users` list is exactly the room's occupants with their names, each once. */
  lemma ExistingUsersMatchOccupants(e: Entries<SocketId, Name>)
    ensures DistinctKeys(e) ==> forall u :: u in UsersOf(e) <==> u.odId in ToMap(e) && ToMap(e)[u.odId] == u.userName
    ensures DistinctKeys(e) ==> |UsersOf(e)| == |ToMap(e)|
  {
    if DistinctKeys(e) {
      var us := UsersOf(e);
      forall u | u in us ensures u.odId in ToMap(e) && ToMap(e)[u.odId] == u.userName {
        var j :| 0 <= j < |us| && us[j] == u;
        ToMapFind(e, u.odId);
        assert Find(e, u.odId) == j;
      }
      forall u: User | u.odId in ToMap(e) && ToMap(e)[u.odId] == u.userName ensures u in us {
        ToMapFind(e, u.odId);
        assert us[Find(e, u.odId)] == u;
      }
      DistinctKeysCount(e);
    }
  }

  lemma {:induction false} DistinctKeysCount(e: Entries<SocketId, Name>)
    requires DistinctKeys(e)
    ensures |ToMap(e)| == |e|
  {
    if e != [] {
      assert DistinctKeys(e[1..]);
      DistinctKeysCount(e[1..]);
      ToMapFind(e[1..], e[0].key);
    }
  }

  /** Valid registries stay valid over any sequence of events. */
  lemma {:induction false} RunKeepsValid(s: Registry, incs: seq<Incoming>)
    requires s.Valid()
    ensures Run(s, incs).next.Valid()
    decreases |incs|
  {
    if incs != [] {
      RunKeepsValid(Handle(s, incs[0]).next, incs[1..]);
    }
  }

  /** The creator is recorded in the room and added to its occupants as it becomes the owner. */
  lemma CreateRoomKeepsConsistent(s: Registry, sender: SocketId, roomId: RoomId, userName: Name)
    requires s.Consistent()
    ensures CreateRoomStep(s, sender, roomId, userName).next.Consistent()
  {
  }

  /** The joiner is recorded in the room and added to its occupants; owners stay occupants. */
  lemma JoinRoomKeepsConsistent(s: Registry, sender: SocketId, roomId: RoomId, userName: Name)
    requires s.Consistent()
    ensures JoinRoomStep(s, sender, roomId, userName).next.Consistent()
  {
  }

  /** Leaving forgets the record and clears the leaver's ownership of the room it leaves. */
  lemma LeaveRoomKeepsConsistent(s: Registry, sender: SocketId, roomId: RoomId)
    requires s.Consistent()
    ensures LeaveRoomStep(s, sender, roomId).next.Consistent()
  {
  }

  /** Every handler keeps the maps in agreement. */
  lemma HandleKeepsConsistent(s: Registry, inc: Incoming)
    requires s.Consistent()
    ensures Handle(s, inc).next.Consistent()
  {
    match inc
    case Disconnected(x) =>
      if InSomeRoom(s, x) {
        assert Handle(s, inc) == LeaveRoomStep(s, x, s.socketRooms[x]);
        LeaveRoomKeepsConsistent(s, x, s.socketRooms[x]);
      } else {
        assert Handle(s, inc).next == s;
      }
    case Message(x, m) =>
      MessageKeepsConsistent(s, x, m);
  }

  /** Every message handler keeps the maps in agreement. */
  lemma MessageKeepsConsistent(s: Registry, x: SocketId, m: ClientMessage)
    requires s.Consistent()
    ensures Handle(s, Message(x, m)).next.Consistent()
  {
    var t := Handle(s, Message(x, m));
    match m
    case CreateRoom(r, n) =>
      assert t == CreateRoomStep(s, x, r, n);
      CreateRoomKeepsConsistent(s, x, r, n);
    case JoinRoom(r, n) =>
      assert t == JoinRoomStep(s, x, r, n);
      JoinRoomKeepsConsistent(s, x, r, n);
    case LeaveRoom(r) =>
      assert t == LeaveRoomStep(s, x, r);
      LeaveRoomKeepsConsistent(s, x, r);
    case _ =>
      assert t.next == s;
  }

  /** After any sequence of events from agreeing maps, owners and recorded sockets are occupants of their rooms. */
  lemma {:induction false} RunKeepsConsistent(s: Registry, incs: seq<Incoming>)
    requires s.Consistent()
    ensures Run(s, incs).next.Consistent()
    decreases |incs|
  {
    if incs != [] {
      HandleKeepsConsistent(s, incs[0]);
      RunKeepsConsistent(Handle(s, incs[0]).next, incs[1..]);
    }
  }

  /** After any run from startup, a forwarded join request reaches an occupant of the room it asks for. */
  lemma RequestReachesOccupant(incs: seq<Incoming>, requester: SocketId, roomId: RoomId, userName: Name)
    ensures var s := Run(Empty(), incs).next;
      var out := JoinRequestReply(s, requester, roomId, userName);
      out[0].ToSocket? ==> out[0].target in Occupants(s, roomId)
  {
    RunKeepsConsistent(Empty(), incs);
  }

  /**
   * Only `create-room` grants ownership: whoever owns a room after a run
   * owned it before, or sent `create-room` for it during the run.
   */
  lemma {:induction false} OwnerWasCreator(s: Registry, incs: seq<Incoming>, roomId: RoomId)
    requires roomId in Run(s, incs).next.roomOwners
    ensures var o := Run(s, incs).next.roomOwners[roomId];
      (roomId in s.roomOwners && s.roomOwners[roomId] == o) || Created(incs, o, roomId)
    decreases |incs|
  {
    if incs != [] {
      var first := Handle(s, incs[0]);
      var o := Run(s, incs).next.roomOwners[roomId];
      OwnerWasCreator(first.next, incs[1..], roomId);
      if Created(incs[1..], o, roomId) {
        var i :| 0 <= i < |incs[1..]| && incs[1..][i].Message? && incs[1..][i].from == o &&
          incs[1..][i].msg.CreateRoom? && incs[1..][i].msg.roomId == roomId;
        assert incs[i + 1] == incs[1..][i];
      } else if !(roomId in s.roomOwners && s.roomOwners[roomId] == o) {
        assert incs[0].Message? && incs[0].from == o && incs[0].msg.CreateRoom? && incs[0].msg.roomId == roomId;
      }
    }
  }

  /** A room nobody created is never found, however many events came before. */
  lemma NeverCreatedRoomNotFound(incs: seq<Incoming>, roomId: RoomId, requester: SocketId, userName: Name)
    requires forall o :: !Created(incs, o, roomId)
    ensures JoinRequestReply(Run(Empty(), incs).next, requester, roomId, userName) == [ToSelf(RoomNotFound)]
  {
    if roomId in Run(Empty(), incs).next.roomOwners {
      OwnerWasCreator(Empty(), incs, roomId);
    }
  }

  /** A second `disconnect` of the same socket changes nothing and emits nothing. */
  lemma DisconnectIdempotent(s: Registry, sender: SocketId)
    ensures var t := DisconnectStep(s, sender).next; DisconnectStep(t, sender) == Step(t, [])
  {
  }

  /**
   * Leaving the same room twice leaves the same registry, yet the second
   * `leave-room` broadcasts `user-left` again.
   */
  lemma LeaveRoomTwice(s: Registry, sender: SocketId, roomId: RoomId)
    requires s.Valid()
    ensures var t := LeaveRoomStep(s, sender, roomId);
      var u := LeaveRoomStep(t.next, sender, roomId);
      u.next == t.next && u.out == t.out
  {
    var t := LeaveRoomStep(s, sender, roomId);
    var u := LeaveRoomStep(t.next, sender, roomId);
    if roomId in s.roomUsers {
      var e := t.next.roomUsers[roomId];
      assert e == Delete(s.roomUsers[roomId], sender);
      ToMapFind(e, sender);
      assert !Has(e, sender);
    }
  }

  /**
   * After the owner disconnects, its room takes no more join requests, while
   * the other occupants stay in it and hear that the owner left.
   */
  lemma OwnerDisconnectClosesRoom(s: Registry, owner: SocketId, roomId: RoomId, other: SocketId,
                                  requester: SocketId, userName: Name)
    requires s.Valid()
    requires owner in s.socketRooms && s.socketRooms[owner] == roomId && roomId != ""
    requires roomId in s.roomOwners && s.roomOwners[roomId] == owner
    requires other != owner && other in Occupants(s, roomId)
    ensures var t := DisconnectStep(s, owner);
      && t.out == [ToRoomExcept(roomId, owner, UserLeft(owner))]
      && other in Occupants(t.next, roomId)
      && owner !in Occupants(t.next, roomId)
      && JoinRequestReply(t.next, requester, roomId, userName) == [ToSelf(RoomNotFound)]
  {
  }

  /**
   * A socket that joins a second room without leaving the first is an
   * occupant of both; its disconnection cleans up only the last one, so it
   * stays owner of and occupant in the first.
   */
  lemma OccupantOfTwoRooms(x: SocketId, name: Name, a: RoomId, b: RoomId)
    requires a != b && b != ""
    ensures var s1 := CreateRoomStep(Empty(), x, a, name).next;
      var s2 := JoinRoomStep(s1, x, b, name).next;
      var s3 := DisconnectStep(s2, x).next;
      && x in Occupants(s2, a) && x in Occupants(s2, b)
      && s2.socketRooms[x] == b
      && x in Occupants(s3, a) && x !in Occupants(s3, b)
      && s3.roomOwners[a] == x
  {
    var s1 := CreateRoomStep(Empty(), x, a, name).next;
    assert Empty().Valid();
    assert Occupants(s1, a) == map[x := name];
    var s2 := JoinRoomStep(s1, x, b, name).next;
    assert s2.Valid();
    assert Occupants(s2, a) == Occupants(s1, a);
    assert s2.roomOwners == map[a := x];
    var s3 := DisconnectStep(s2, x).next;
    assert s3 == LeaveRoomStep(s2, x, b).next;
    assert Occupants(s3, a) == Occupants(s2, a);
  }

  /**
   * A socket recorded in the room named by the empty string is never cleaned
   * up on disconnect, because `if (roomId)` treats that id as absent.
   */
  lemma EmptyRoomIdSurvivesDisconnect(x: SocketId, name: Name)
    ensures var s1 := JoinRoomStep(Empty(), x, "", name).next;
      var t := DisconnectStep(s1, x);
      && t.next == s1 && t.out == []
      && x in Occupants(t.next, "")
  {
    assert Empty().Valid();
  }

  /**
   * The admission scenario: the owner creates the room, a second socket asks
   * to join and the request reaches the owner, the owner's acceptance reaches
   * the requester, and on joining the requester is told exactly of the owner
   * while the room hears of the newcomer.
   */
  lemma AdmitAndJoinScenario(owner: SocketId, ownerName: Name, x: SocketId, xName: Name, roomId: RoomId)
    requires owner != x && owner != ""
    ensures var s1 := CreateRoomStep(Empty(), owner, roomId, ownerName).next;
      && JoinRequestReply(s1, x, roomId, xName) ==
           [ToSocket(owner, ForwardedJoinRequest(JoinRequestData(roomId, x, xName)))]
      && Forward(JoinAccepted(roomId, x, xName)) == ToSocket(x, Accepted(roomId, xName))
      && var t := JoinRoomStep(s1, x, roomId, xName);
         && t.out == [ToSelf(ExistingUsers([User(owner, ownerName)])),
                      ToRoomExcept(roomId, x, UserJoined(x, xName))]
         && Occupants(t.next, roomId) == map[owner := ownerName, x := xName]
  {
    var s1 := CreateRoomStep(Empty(), owner, roomId, ownerName).next;
    assert s1.roomUsers[roomId] == [Entry(owner, ownerName)];
    var t := JoinRoomStep(s1, x, roomId, xName);
    assert UsersOf([Entry(owner, ownerName)]) == [User(owner, ownerName)];
  }

  /** The `forEach` loop of `join-room` that copies a room's user map into `existing-users`. */
  method CollectUsers(entries: Entries<SocketId, Name>) returns (users: seq<User>)
    ensures users == UsersOf(entries)
  {
    users := [];
    var i := 0;
    while i < |entries|
      invariant 0 <= i <= |entries|
      invariant |users| == i
      invariant forall j :: 0 <= j < i ==> users[j] == User(entries[j].key, entries[j].value)
    {
      users := users + [User(entries[i].key, entries[i].value)];
      i := i + 1;
    }
  }

  /** The server process: the three module-level maps and one handler per event. */
  class SignalingServer {
    var socketRooms: map<SocketId, RoomId>
    var roomOwners: map<RoomId, SocketId>
    var roomUsers: map<RoomId, Entries<SocketId, Name>>

    function Abs(): Registry
      reads this
    {
      Registry(socketRooms, roomOwners, roomUsers)
    }

    predicate Valid()
      reads this
    {
      Abs().Valid()
    }

    constructor ()
      ensures Valid() && Abs() == Empty()
    {
      socketRooms, roomOwners, roomUsers := map[], map[], map[];
    }

    method OnCreateRoom(sender: SocketId, roomId: RoomId, userName: Name)
      requires Valid()
      modifies this
      ensures Valid()
      ensures Abs() == CreateRoomStep(old(Abs()), sender, roomId, userName).next
    {
      socketRooms := socketRooms[sender := roomId];
      roomOwners := roomOwners[roomId := sender];
      if roomId !in roomUsers {
        roomUsers := roomUsers[roomId := []];
      }
      roomUsers := roomUsers[roomId := Set(roomUsers[roomId], sender, userName)];
    }

    method OnJoinRequest(sender: SocketId, roomId: RoomId, userName: Name) returns (out: seq<Emit>)
      ensures out == JoinRequestReply(Abs(), sender, roomId, userName)
    {
      var ownerId := if roomId in roomOwners then roomOwners[roomId] else "";
      if ownerId != "" {
        out := [ToSocket(ownerId, ForwardedJoinRequest(JoinRequestData(roomId, sender, userName)))];
      } else {
        out := [ToSelf(RoomNotFound)];
      }
    }

    method OnJoinAccepted(roomId: RoomId, odId: SocketId, userName: Name) returns (out: seq<Emit>)
      ensures out == [Forward(JoinAccepted(roomId, odId, userName))]
    {
      out := [ToSocket(odId, Accepted(roomId, userName))];
    }

    method OnJoinRejected(roomId: RoomId, odId: SocketId) returns (out: seq<Emit>)
      ensures out == [Forward(JoinRejected(roomId, odId))]
    {
      out := [ToSocket(odId, Rejected(roomId))];
    }

    method OnJoinRoom(sender: SocketId, roomId: RoomId, userName: Name) returns (out: seq<Emit>)
      requires Valid()
      modifies this
      ensures Valid()
      ensures Step(Abs(), out) == JoinRoomStep(old(Abs()), sender, roomId, userName)
    {
      ghost var s := Abs();
      ghost var t := JoinRoomStep(s, sender, roomId, userName);
      socketRooms := socketRooms[sender := roomId];
      var existingUsers := [];
      if roomId in roomUsers {
        existingUsers := CollectUsers(roomUsers[roomId]);
      } else {
        roomUsers := roomUsers[roomId := []];
      }
      assert roomUsers[roomId] == UserEntries(s, roomId);
      roomUsers := roomUsers[roomId := Set(roomUsers[roomId], sender, userName)];
      out := [ToSelf(ExistingUsers(existingUsers)), ToRoomExcept(roomId, sender, UserJoined(sender, userName))];
      assert Abs() == t.next && out == t.out;
    }

    method OnLeaveRoom(sender: SocketId, roomId: RoomId) returns (out: seq<Emit>)
      requires Valid()
      modifies this
      ensures Valid()
      ensures Step(Abs(), out) == LeaveRoomStep(old(Abs()), sender, roomId)
    {
      socketRooms := socketRooms - {sender};
      if roomId in roomUsers {
        roomUsers := roomUsers[roomId := Delete(roomUsers[roomId], sender)];
      }
      out := [ToRoomExcept(roomId, sender, UserLeft(sender))];
      if roomId in roomOwners && roomOwners[roomId] == sender {
        roomOwners := roomOwners - {roomId};
      }
    }

    method OnDisconnect(sender: SocketId) returns (out: seq<Emit>)
      requires Valid()
      modifies this
      ensures Valid()
      ensures Step(Abs(), out) == DisconnectStep(old(Abs()), sender)
    {
      ghost var s := Abs();
      var roomId := if sender in socketRooms then socketRooms[sender] else "";
      out := [];
      if roomId != "" {
        assert DisconnectStep(s, sender) == LeaveRoomStep(s, sender, roomId);
        out := [ToRoomExcept(roomId, sender, UserLeft(sender))];
        socketRooms := socketRooms - {sender};
        if roomId in roomUsers {
          roomUsers := roomUsers[roomId := Delete(roomUsers[roomId], sender)];
        }
        if roomId in roomOwners && roomOwners[roomId] == sender {
          roomOwners := roomOwners - {roomId};
        }
      }
    }

    method OnOffer(sender: SocketId, offer: Blob, targetId: SocketId, senderName: Name) returns (out: seq<Emit>)
      ensures out == [Relay(sender, Offer(offer, targetId, senderName))]
    {
      out := [ToSocket(targetId, RelayedOffer(offer, sender, senderName))];
    }

    method OnAnswer(sender: SocketId, answer: Blob, targetId: SocketId) returns (out: seq<Emit>)
      ensures out == [Relay(sender, Answer(answer, targetId))]
    {
      out := [ToSocket(targetId, RelayedAnswer(answer, sender))];
    }

    method OnIceCandidate(sender: SocketId, candidate: Option<Blob>, targetId: SocketId) returns (out: seq<Emit>)
      ensures out == [Relay(sender, IceCandidate(candidate, targetId))]
    {
      out := [ToSocket(targetId, RelayedCandidate(candidate, sender))];
    }
  }
}
