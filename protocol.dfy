/**
 * The signalling protocol shared by the server registry and the room page:
 * endpoint identifiers, the messages a client sends, the events the server
 * emits, and where each emitted event is delivered.
 */
module Protocol {

  /** The transport's identifier of one live client connection (`socket.id`). */
  type SocketId = string

  /** A caller-chosen room identifier, never validated by the server. */
  type RoomId = string

  /** A free-text display name. */
  type Name = string

  /** An opaque session description or network candidate, carried unchanged. */
  type Blob = string

  datatype Option<+T> = None | Some(value: T)

  /** One entry of the `existing-users` roster: `{ odId, userName }`. */
  datatype User = User(odId: SocketId, userName: Name)

  /** The payload of a `join-request` forwarded to a room owner. */
  datatype JoinRequestData = JoinRequestData(roomId: RoomId, odId: SocketId, userName: Name)

  /** What a client emits to the server, one constructor per event name. */
  datatype ClientMessage =
    | CreateRoom(roomId: RoomId, userName: Name)
    | JoinRequest(roomId: RoomId, userName: Name)
    | JoinAccepted(roomId: RoomId, odId: SocketId, userName: Name)
    | JoinRejected(roomId: RoomId, odId: SocketId)
    | JoinRoom(roomId: RoomId, userName: Name)
    | LeaveRoom(roomId: RoomId)
    | Offer(offer: Blob, targetId: SocketId, senderName: Name)
    | Answer(answer: Blob, targetId: SocketId)
    | IceCandidate(candidate: Option<Blob>, targetId: SocketId)

  /** What the server emits to clients. */
  datatype ServerEvent =
    | ForwardedJoinRequest(request: JoinRequestData)
    | RoomNotFound
    | Accepted(roomId: RoomId, userName: Name)
    | Rejected(roomId: RoomId)
    | ExistingUsers(users: seq<User>)
    | UserJoined(odId: SocketId, userName: Name)
    | UserLeft(odId: SocketId)
    | RelayedOffer(offer: Blob, senderId: SocketId, senderName: Name)
    | RelayedAnswer(answer: Blob, senderId: SocketId)
    | RelayedCandidate(candidate: Option<Blob>, senderId: SocketId)

  /**
   * The addressing of one emitted event: `socket.emit` (back to the sender),
   * `io.to(id).emit` (one endpoint) or `socket.to(room).emit` (everyone the
   * transport has in that room except the sender).
   */
  datatype Emit =
    | ToSelf(event: ServerEvent)
    | ToSocket(target: SocketId, event: ServerEvent)
    | ToRoomExcept(room: RoomId, except: SocketId, event: ServerEvent)
}
