/**
 * The owner's admission prompt of the room page (public/js/room.js): join
 * requests queue behind a single modal that always shows the oldest one,
 * and each accept or reject answers exactly that one. This module is the
 * value-level reference the page's handlers are proved against; FIFO
 * resolution is proved here.
 */
module Admissions {
  import opened Protocol

  /** The queue of `join-request`s, whether the request modal is hidden, and the name it shows. */
  datatype Admission = Admission(pending: seq<JoinRequestData>, modalHidden: bool, shown: Name)
  {
    /** At most one prompt is up, it is up exactly while requests wait, and it shows the oldest. */
    predicate Valid() {
      && (modalHidden <==> pending == [])
      && (!modalHidden ==> shown == pending[0].userName)
    }
  }

  /** `showNextRequest`: open the prompt on the oldest request, if it is closed and one waits. */
  function ShowNext(a: Admission): (b: Admission)
    ensures b.pending == a.pending
    ensures !b.modalHidden <==> !a.modalHidden || a.pending != []
    ensures a.modalHidden && a.pending != [] ==> b.shown == a.pending[0].userName
    ensures !a.modalHidden || a.pending == [] ==> b == a
  {
    if |a.pending| > 0 && a.modalHidden then Admission(a.pending, false, a.pending[0].userName) else a
  }

  /** An incoming `join-request`: queued at the tail, then `showNextRequest`. */
  function Arrive(a: Admission, req: JoinRequestData): (b: Admission)
    ensures b.pending == a.pending + [req]
    ensures a.Valid() ==> b.Valid()
    ensures a.Valid() && a.pending != [] ==> b.shown == a.shown && !b.modalHidden
  {
    ShowNext(a.(pending := a.pending + [req]))
  }

  datatype Decision = Accept | Reject

  /** The admission state after a click, and what the page emitted. */
  datatype Resolution = Resolution(next: Admission, out: seq<ClientMessage>)

  /** The message the owner's page sends for a decision on `req` in room `roomId`. */
  function DecisionMessage(d: Decision, roomId: RoomId, req: JoinRequestData): ClientMessage {
    match d
    case Accept => JoinAccepted(roomId, req.odId, req.userName)
    case Reject => JoinRejected(roomId, req.odId)
  }

  /**
   * The accept and reject buttons: on a non-empty queue, take off exactly the
   * oldest request, answer it for the page's own room, hide the prompt and
   * show the next one; on an empty queue, nothing.
   */
  function Resolve(a: Admission, d: Decision, roomId: RoomId): (r: Resolution)
    ensures a.pending == [] ==> r == Resolution(a, [])
    ensures a.pending != [] ==> r.next.pending == a.pending[1..]
    ensures a.pending != [] ==> r.out == [DecisionMessage(d, roomId, a.pending[0])]
    ensures a.pending != [] ==> (r.next.modalHidden <==> |a.pending| == 1)
    ensures a.Valid() ==> r.next.Valid()
  {
    if |a.pending| > 0 then
      Resolution(ShowNext(Admission(a.pending[1..], true, a.shown)),
                 [DecisionMessage(d, roomId, a.pending[0])])
    else
      Resolution(a, [])
  }

  /** What happens to the owner's page: a request arrives, or a button is clicked. */
  datatype OwnerEvent = Arrival(request: JoinRequestData) | Click(decision: Decision)

  function Apply(a: Admission, ev: OwnerEvent, roomId: RoomId): (r: Resolution)
    ensures a.Valid() ==> r.next.Valid()
  {
    match ev
    case Arrival(req) => Resolution(Arrive(a, req), [])
    case Click(d) => Resolve(a, d, roomId)
  }

  /** The owner's page handling a sequence of events in order. */
  function Drive(a: Admission, evs: seq<OwnerEvent>, roomId: RoomId): Resolution
    decreases |evs|
  {
    if evs == [] then Resolution(a, [])
    else
      var first := Apply(a, evs[0], roomId);
      var rest := Drive(first.next, evs[1..], roomId);
      Resolution(rest.next, first.out + rest.out)
  }

  /** The requests that arrived, in order. */
  function Arrivals(evs: seq<OwnerEvent>): seq<JoinRequestData> {
    if evs == [] then []
    else (if evs[0].Arrival? then [evs[0].request] else []) + Arrivals(evs[1..])
  }

  /** The requesters that decisions were sent for, in order. */
  function Decided(out: seq<ClientMessage>): seq<SocketId> {
    if out == [] then []
    else (if out[0].JoinAccepted? || out[0].JoinRejected? then [out[0].odId] else []) + Decided(out[1..])
  }

  /** The requesters of a queue of requests, in order. */
  function Requesters(reqs: seq<JoinRequestData>): seq<SocketId> {
    if reqs == [] then [] else [reqs[0].odId] + Requesters(reqs[1..])
  }

  lemma {:induction false} DecidedAppend(x: seq<ClientMessage>, y: seq<ClientMessage>)
    ensures Decided(x + y) == Decided(x) + Decided(y)
  {
    if x == [] {
      assert x + y == y;
    } else {
      assert (x + y)[1..] == x[1..] + y;
      DecidedAppend(x[1..], y);
    }
  }

  lemma {:induction false} RequestersAppend(x: seq<JoinRequestData>, y: seq<JoinRequestData>)
    ensures Requesters(x + y) == Requesters(x) + Requesters(y)
  {
    if x == [] {
      assert x + y == y;
    } else {
      assert (x + y)[1..] == x[1..] + y;
      RequestersAppend(x[1..], y);
    }
  }

  /** One event keeps the FIFO accounting: decided now, then still queued, equals queued before, then arrived. */
  lemma ApplyKeepsOrder(a: Admission, ev: OwnerEvent, roomId: RoomId)
    requires a.Valid()
    ensures var r := Apply(a, ev, roomId);
      Decided(r.out) + Requesters(r.next.pending) == Requesters(a.pending + (if ev.Arrival? then [ev.request] else []))
  {
    var r := Apply(a, ev, roomId);
    if ev.Click? {
      assert a.pending + [] == a.pending;
      if a.pending != [] {
        assert Decided(r.out) == [a.pending[0].odId];
      }
    } else {
      assert Decided(r.out) == [];
    }
  }

  /** The prompt shows the oldest waiting request after any sequence of events. */
  lemma {:induction false} DriveKeepsValid(a: Admission, evs: seq<OwnerEvent>, roomId: RoomId)
    requires a.Valid()
    ensures Drive(a, evs, roomId).next.Valid()
    decreases |evs|
  {
    if evs != [] {
      DriveKeepsValid(Apply(a, evs[0], roomId).next, evs[1..], roomId);
    }
  }

  /** Every message the owner's page sends is a decision for the page's own room. */
  lemma {:induction false} DriveAnswersForOwnRoom(a: Admission, evs: seq<OwnerEvent>, roomId: RoomId)
    ensures forall m :: m in Drive(a, evs, roomId).out ==> (m.JoinAccepted? || m.JoinRejected?) && m.roomId == roomId
    decreases |evs|
  {
    if evs != [] {
      DriveAnswersForOwnRoom(Apply(a, evs[0], roomId).next, evs[1..], roomId);
    }
  }

  /**
   * FIFO admission: whatever the interleaving of arrivals and clicks, the
   * requesters decided so far followed by those still queued are exactly the
   * requests in arrival order.
   */
  lemma {:induction false} AdmissionIsFifo(a: Admission, evs: seq<OwnerEvent>, roomId: RoomId)
    requires a.Valid()
    ensures var r := Drive(a, evs, roomId);
      Decided(r.out) + Requesters(r.next.pending) == Requesters(a.pending + Arrivals(evs))
    decreases |evs|
  {
    if evs == [] {
      assert a.pending + Arrivals(evs) == a.pending;
    } else {
      var first := Apply(a, evs[0], roomId);
      AdmissionIsFifo(first.next, evs[1..], roomId);
      FifoStep(a, evs, roomId);
    }
  }

  /** The inductive step of `AdmissionIsFifo`: the first event's accounting joined to the rest's. */
  lemma FifoStep(a: Admission, evs: seq<OwnerEvent>, roomId: RoomId)
    requires a.Valid() && evs != []
    requires var first := Apply(a, evs[0], roomId);
      var rest := Drive(first.next, evs[1..], roomId);
      Decided(rest.out) + Requesters(rest.next.pending) == Requesters(first.next.pending + Arrivals(evs[1..]))
    ensures var r := Drive(a, evs, roomId);
      Decided(r.out) + Requesters(r.next.pending) == Requesters(a.pending + Arrivals(evs))
  {
    var first := Apply(a, evs[0], roomId);
    var rest := Drive(first.next, evs[1..], roomId);
    var r := Drive(a, evs, roomId);
    assert r.out == first.out + rest.out && r.next == rest.next;
    var now := if evs[0].Arrival? then [evs[0].request] else [];
    var tail := Arrivals(evs[1..]);
    assert Arrivals(evs) == now + tail;
    assert a.pending + Arrivals(evs) == (a.pending + now) + tail;
    ApplyKeepsOrder(a, evs[0], roomId);
    DecidedAppend(first.out, rest.out);
    RequestersAppend(first.next.pending, tail);
    RequestersAppend(a.pending + now, tail);
    Regroup(Decided(first.out), Decided(rest.out), Requesters(first.next.pending),
            Requesters(rest.next.pending), Requesters(tail), Requesters(a.pending + now));
  }

  lemma Regroup<T>(d1: seq<T>, d2: seq<T>, p: seq<T>, q: seq<T>, t: seq<T>, x: seq<T>)
    requires d2 + q == p + t && d1 + p == x
    ensures d1 + d2 + q == x + t
  {
    calc {
      d1 + d2 + q;
      d1 + (d2 + q);
      d1 + (p + t);
      d1 + p + t;
    }
  }

  /** Two requests that arrive before the owner acts are prompted for and decided in arrival order. */
  lemma TwoRequestsInOrder(r1: JoinRequestData, r2: JoinRequestData, d1: Decision, d2: Decision, roomId: RoomId)
    ensures var a0 := Admission([], true, "");
      var a2 := Arrive(Arrive(a0, r1), r2);
      var x := Resolve(a2, d1, roomId);
      var y := Resolve(x.next, d2, roomId);
      && !a2.modalHidden && a2.shown == r1.userName
      && x.out == [DecisionMessage(d1, roomId, r1)]
      && !x.next.modalHidden && x.next.shown == r2.userName
      && y.out == [DecisionMessage(d2, roomId, r2)]
      && y.next == Admission([], true, r2.userName)
  {
  }

}
