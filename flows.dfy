/**
 * Message flows across the two sides: what the owner's page sends, or one
 * peer's page sends, passed through the server's relay handlers.
 */
module Flows {
  import opened Protocol
  import opened Server
  import opened Admissions

  /**
   * The owner's decision on the oldest request reaches exactly that
   * requester, as an acceptance carrying the requester's own name or as a
   * rejection, and always for the owner's room.
   */
  lemma DecisionReachesRequester(a: Admission, d: Decision, roomId: RoomId)
    requires a.Valid() && a.pending != []
    ensures var r := Resolve(a, d, roomId);
      && |r.out| == 1
      && var e := Forward(r.out[0]);
      && e.target == a.pending[0].odId
      && (d == Accept ==> e.event == Accepted(roomId, a.pending[0].userName))
      && (d == Reject ==> e.event == Rejected(roomId))
  {
  }

  /**
   * Signalling round trip: an offer from `a` to `b`, answered by `b` to the
   * id the relayed offer names as its sender, comes back to `a` as an
   * answer from `b`.
   */
  lemma AnswerReturnsToOfferer(a: SocketId, b: SocketId, offer: Blob, name: Name, answer: Blob)
    ensures var there := Relay(a, Offer(offer, b, name));
      && there == ToSocket(b, RelayedOffer(offer, a, name))
      && Relay(b, Answer(answer, there.event.senderId)) == ToSocket(a, RelayedAnswer(answer, b))
  {
  }
}
