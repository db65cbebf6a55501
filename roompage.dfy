/**
 * The bookkeeping of the room page (public/js/room.js): the owner's queue
 * of join requests behind a single admission prompt, the registry of peer
 * connections and remote names keyed by remote socket id, and the video
 * wrappers with their layout switch. The class `Page` holds the page's
 * mutable state; its admission handlers are proved against `Admissions`.
 */
module RoomPage {
  import opened Protocol
  import opened JsMaps
  import opened Admissions

  /** An `RTCPeerConnection`, opaque except for what the page does to it. */
  class PeerHandle {
    var closed: bool
    var localDescription: Option<Blob>
    var remoteDescription: Option<Blob>
    var candidates: seq<Blob>

    constructor ()
      ensures !closed && localDescription == None && remoteDescription == None && candidates == []
    {
      closed, localDescription, remoteDescription, candidates := false, None, None, [];
    }

    method Close()
      modifies this`closed
      ensures closed
    {
      closed := true;
    }

    method SetLocalDescription(d: Blob)
      modifies this`localDescription
      ensures localDescription == Some(d)
    {
      localDescription := Some(d);
    }

    method SetRemoteDescription(d: Blob)
      modifies this`remoteDescription
      ensures remoteDescription == Some(d)
    {
      remoteDescription := Some(d);
    }

    method AddIceCandidate(c: Blob)
      modifies this`candidates
      ensures candidates == old(candidates) + [c]
    {
      candidates := candidates + [c];
    }
  }

  /** The values of `RTCPeerConnection.connectionState`. */
  datatype ConnectionState = New | Connecting | Connected | Disconnected | Failed | Closed

  /** `updateVideoLayout`: the compact layout above four children of the video container. */
  predicate ManyParticipants(count: nat) {
    count > 4
  }

  /** The socket ids of a list of users. */
  function Ids(users: seq<User>): set<SocketId> {
    set u | u in users :: u.odId
  }

  /** No socket id occurs twice in the list, as in a list built from a `Map`. */
  predicate DistinctIds(users: seq<User>) {
    forall i, j :: 0 <= i < j < |users| ==> users[i].odId != users[j].odId
  }

  /** `m` after `m.set(us[k].odId, vs[k])` for each `k` in order. */
  function Overwrite<V>(m: map<SocketId, V>, us: seq<User>, vs: seq<V>): map<SocketId, V>
    requires |vs| == |us|
    decreases |us|
  {
    if us == [] then m
    else Overwrite(m, us[..|us| - 1], vs[..|us| - 1])[us[|us| - 1].odId := vs[|us| - 1]]
  }

  /** An id not in the list keeps its entry, or its absence. */
  lemma {:induction false} OverwriteUntouched<V>(m: map<SocketId, V>, us: seq<User>, vs: seq<V>, k: SocketId)
    requires |vs| == |us|
    requires forall j :: 0 <= j < |us| ==> us[j].odId != k
    ensures k in Overwrite(m, us, vs) <==> k in m
    ensures k in m ==> Overwrite(m, us, vs)[k] == m[k]
    decreases |us|
  {
    if us != [] {
      var n := |us| - 1;
      OverwriteUntouched(m, us[..n], vs[..n], k);
    }
  }

  /** Overwriting one more listed id is a single map update. */
  lemma OverwriteStep<V>(m: map<SocketId, V>, us: seq<User>, vs: seq<V>, v: V, i: nat)
    requires i < |us| && |vs| == i
    ensures Overwrite(m, us[..i + 1], vs + [v]) == Overwrite(m, us[..i], vs)[us[i].odId := v]
  {
    assert us[..i + 1][..i] == us[..i];
    assert (vs + [v])[..i] == vs;
  }

  /** With distinct ids, each listed id ends up with its own value. */
  lemma {:induction false} OverwriteHits<V>(m: map<SocketId, V>, us: seq<User>, vs: seq<V>)
    requires |vs| == |us| && DistinctIds(us)
    ensures forall j :: 0 <= j < |us| ==> us[j].odId in Overwrite(m, us, vs) && Overwrite(m, us, vs)[us[j].odId] == vs[j]
    decreases |us|
  {
    if us != [] {
      var n := |us| - 1;
      assert DistinctIds(us[..n]);
      OverwriteHits(m, us[..n], vs[..n]);
    }
  }

  /** Only listed ids are added. */
  lemma {:induction false} OverwriteKeys<V>(m: map<SocketId, V>, us: seq<User>, vs: seq<V>)
    requires |vs| == |us|
    ensures forall k :: k in Overwrite(m, us, vs) ==> k in m || k in Ids(us)
    decreases |us|
  {
    if us != [] {
      var n := |us| - 1;
      OverwriteKeys(m, us[..n], vs[..n]);
      assert us[n] in us;
      assert Ids(us[..n]) <= Ids(us) by {
        forall k | k in Ids(us[..n]) ensures k in Ids(us) {
          var u :| u in us[..n] && u.odId == k;
          assert u in us;
        }
      }
    }
  }

  /** Before its turn, the next listed id still has its old entry, or its absence. */
  lemma NextUntouched<V>(m: map<SocketId, V>, us: seq<User>, vs: seq<V>, i: nat)
    requires DistinctIds(us) && i < |us| && |vs| == i
    ensures us[i].odId in Overwrite(m, us[..i], vs) <==> us[i].odId in m
    ensures us[i].odId in m ==> Overwrite(m, us[..i], vs)[us[i].odId] == m[us[i].odId]
  {
    OverwriteUntouched(m, us[..i], vs, us[i].odId);
  }

  /** The names of the listed users, in list order. */
  function Names(us: seq<User>): (r: seq<Name>)
    ensures |r| == |us|
    decreases |us|
  {
    if us == [] then [] else Names(us[..|us| - 1]) + [us[|us| - 1].userName]
  }

  /** The i-th name is the i-th listed user's. */
  lemma {:induction false} NamesAt(us: seq<User>)
    ensures forall j :: 0 <= j < |us| ==> Names(us)[j] == us[j].userName
    decreases |us|
  {
    if us != [] {
      NamesAt(us[..|us| - 1]);
    }
  }

  /** Overwriting one more listed name is a single map update. */
  lemma NamesStep(m: map<SocketId, Name>, us: seq<User>, i: nat)
    requires i < |us|
    ensures Overwrite(m, us[..i + 1], Names(us[..i + 1])) == Overwrite(m, us[..i], Names(us[..i]))[us[i].odId := us[i].userName]
  {
    assert us[..i + 1][..i] == us[..i];
    OverwriteStep(m, us, Names(us[..i]), us[i].userName, i);
  }

  /** `out` holds, in list order, the offers to the first `n` listed users. */
  predicate OffersSent(out: seq<ClientMessage>, us: seq<User>, offers: seq<Blob>, from: Name, n: nat) {
    && |out| == n && n <= |us| && n <= |offers|
    && forall j :: 0 <= j < n ==> out[j] == Offer(offers[j], us[j].odId, from)
  }

  /** One more listed user served: its offer sent, its value and its name written. */
  lemma ServedStep<V>(m: map<SocketId, V>, names: map<SocketId, Name>, out: seq<ClientMessage>,
                      us: seq<User>, offers: seq<Blob>, from: Name, vs: seq<V>, v: V, i: nat)
    requires OffersSent(out, us, offers, from, i) && i < |us| && i < |offers| && |vs| == i
    ensures OffersSent(out + [Offer(offers[i], us[i].odId, from)], us, offers, from, i + 1)
    ensures Overwrite(m, us[..i + 1], vs + [v]) == Overwrite(m, us[..i], vs)[us[i].odId := v]
    ensures Overwrite(names, us[..i + 1], Names(us[..i + 1])) == Overwrite(names, us[..i], Names(us[..i]))[us[i].odId := us[i].userName]
  {
    OverwriteStep(m, us, vs, v, i);
    NamesStep(names, us, i);
  }

  /** No two ids share a handle. */
  predicate Injective(m: map<SocketId, PeerHandle>) {
    forall a, b :: a in m && b in m && a != b ==> m[a] != m[b]
  }

  /** The handles that `m.set` replaces when each listed user gets a new one. */
  function Replaced(m: map<SocketId, PeerHandle>, us: seq<User>): set<PeerHandle> {
    set u | u in us && u.odId in m :: m[u.odId]
  }

  /** The handle replaced for the next listed user was not replaced before, and it joins the replaced ones. */
  lemma ReplacedStep(m: map<SocketId, PeerHandle>, us: seq<User>, i: nat)
    requires Injective(m) && DistinctIds(us) && i < |us|
    ensures us[i].odId in m ==> m[us[i].odId] !in Replaced(m, us[..i])
    ensures Replaced(m, us[..i + 1]) == Replaced(m, us[..i]) + (if us[i].odId in m then {m[us[i].odId]} else {})
  {
    var k := us[i].odId;
    assert us[i] in us;
    if k in m {
      forall u | u in us[..i] && u.odId in m ensures m[u.odId] != m[k] {
        var j :| 0 <= j < i && us[..i][j] == u;
        assert us[j] == u;
      }
    }
    assert us[..i + 1] == us[..i] + [us[i]];
  }

  /** Every handle in the set is closed. */
  predicate AllClosed(hs: set<PeerHandle>)
    reads hs`closed
  {
    forall h :: h in hs ==> h.closed
  }

  /** Each listed user's old handle is replaced. */
  lemma ReplacedAt(m: map<SocketId, PeerHandle>, us: seq<User>, j: nat)
    requires j < |us|
    ensures us[j].odId in m ==> m[us[j].odId] in Replaced(m, us)
  {
    assert us[j] in us;
  }

  /** The handle of an unlisted id is not replaced. */
  lemma UnlistedKept(m: map<SocketId, PeerHandle>, us: seq<User>, id: SocketId)
    requires Injective(m) && id in m && id !in Ids(us)
    ensures m[id] !in Replaced(m, us)
  {
    forall u | u in us && u.odId in m ensures m[u.odId] != m[id] {
      assert u.odId in Ids(us);
    }
  }

  /**
   * The roster `r` after `createVideoElement` for each listed user in order:
   * an id without a wrapper gets one labelled with the user's name, and an
   * id that has one keeps it.
   */
  function Grow(r: map<SocketId, string>, us: seq<User>): map<SocketId, string>
    decreases |us|
  {
    if us == [] then r
    else
      var g := Grow(r, us[..|us| - 1]);
      var u := us[|us| - 1];
      if u.odId in g then g else g[u.odId := Label(u.userName)]
  }

  /** Some listed id has no wrapper in `r`. */
  predicate Adds(r: map<SocketId, string>, us: seq<User>)
    decreases |us|
  {
    us != [] && (Adds(r, us[..|us| - 1]) || us[|us| - 1].odId !in r)
  }

  /** An id not in the list keeps its wrapper, or its absence. */
  lemma {:induction false} GrowUntouched(r: map<SocketId, string>, us: seq<User>, k: SocketId)
    requires forall j :: 0 <= j < |us| ==> us[j].odId != k
    ensures k in Grow(r, us) <==> k in r
    ensures k in r ==> Grow(r, us)[k] == r[k]
    decreases |us|
  {
    if us != [] {
      GrowUntouched(r, us[..|us| - 1], k);
    }
  }

  /**
   * One more listed user: its id has a wrapper so far exactly when it had
   * one in `r`, and it gets one if not.
   */
  lemma GrowStep(r: map<SocketId, string>, us: seq<User>, i: nat)
    requires DistinctIds(us) && i < |us|
    ensures us[i].odId in Grow(r, us[..i]) <==> us[i].odId in r
    ensures Grow(r, us[..i + 1]) ==
      if us[i].odId in r then Grow(r, us[..i]) else Grow(r, us[..i])[us[i].odId := Label(us[i].userName)]
    ensures Adds(r, us[..i + 1]) <==> Adds(r, us[..i]) || us[i].odId !in r
  {
    assert us[..i + 1][..i] == us[..i];
    GrowUntouched(r, us[..i], us[i].odId);
  }

  /** The roster after one more timer is the grown roster one user further. */
  lemma GrowNext(r: map<SocketId, string>, us: seq<User>, i: nat, before: map<SocketId, string>, after: map<SocketId, string>)
    requires DistinctIds(us) && i < |us| && before == Grow(r, us[..i])
    requires us[i].odId in before ==> after == before
    requires us[i].odId !in before ==> after == before[us[i].odId := Label(us[i].userName)]
    ensures after == Grow(r, us[..i + 1])
    ensures Adds(r, us[..i + 1]) <==> Adds(r, us[..i]) || us[i].odId !in before
  {
    GrowStep(r, us, i);
  }

  /** Only listed ids gain a wrapper, and no id loses or changes one. */
  lemma {:induction false} GrowKeeps(r: map<SocketId, string>, us: seq<User>)
    ensures Grow(r, us).Keys == r.Keys + Ids(us)
    ensures forall id :: id in r ==> Grow(r, us)[id] == r[id]
    ensures Adds(r, us) <==> !(Ids(us) <= r.Keys)
    decreases |us|
  {
    if us != [] {
      var n := |us| - 1;
      GrowKeeps(r, us[..n]);
      assert us == us[..n] + [us[n]];
      assert Ids(us) == Ids(us[..n]) + {us[n].odId};
      var g := Grow(r, us[..n]);
      assert Grow(r, us) == if us[n].odId in g then g else g[us[n].odId := Label(us[n].userName)];
      assert Adds(r, us) == (Adds(r, us[..n]) || us[n].odId !in r);
    }
  }

  /** With distinct ids, a listed id that had no wrapper is labelled with its user's name. */
  lemma {:induction false} GrowLabels(r: map<SocketId, string>, us: seq<User>)
    requires DistinctIds(us)
    ensures forall j :: 0 <= j < |us| && us[j].odId !in r ==>
      us[j].odId in Grow(r, us) && Grow(r, us)[us[j].odId] == Label(us[j].userName)
    decreases |us|
  {
    if us != [] {
      var n := |us| - 1;
      assert DistinctIds(us[..n]);
      GrowLabels(r, us[..n]);
      GrowStep(r, us, n);
      assert us[..n + 1] == us;
      forall j | 0 <= j < n && us[j].odId !in r
        ensures us[j].odId in Grow(r, us) && Grow(r, us)[us[j].odId] == Label(us[j].userName)
      {
        assert us[..n][j] == us[j];
      }
    }
  }

  /**
   * After the timers of the first `i` listed users: their offers sent in
   * order, the connections `pcs` and names `names` are `pc0` and `names0`
   * overwritten with the fresh handles `made` and the listed names, and
   * `gone` holds the handles replaced.
   */
  predicate Offered(users: seq<User>, offers: seq<Blob>, from: Name, i: nat, out: seq<ClientMessage>,
                    made: seq<PeerHandle>, gone: set<PeerHandle>,
                    pc0: map<SocketId, PeerHandle>, names0: map<SocketId, Name>,
                    pcs: map<SocketId, PeerHandle>, names: map<SocketId, Name>)
  {
    && i <= |users| && |made| == i && OffersSent(out, users, offers, from, i)
    && pcs == Overwrite(pc0, users[..i], made)
    && names == Overwrite(names0, users[..i], Names(users[..i]))
    && gone == Replaced(pc0, users[..i])
  }

  /** Before its timer, the next listed id still has its old handle, which was not replaced before. */
  lemma OfferedNext(users: seq<User>, offers: seq<Blob>, from: Name, i: nat, out: seq<ClientMessage>,
                    made: seq<PeerHandle>, gone: set<PeerHandle>,
                    pc0: map<SocketId, PeerHandle>, names0: map<SocketId, Name>,
                    pcs: map<SocketId, PeerHandle>, names: map<SocketId, Name>)
    requires Offered(users, offers, from, i, out, made, gone, pc0, names0, pcs, names)
    requires i < |users| && DistinctIds(users) && Injective(pc0)
    ensures users[i].odId in pcs <==> users[i].odId in pc0
    ensures users[i].odId in pcs ==> pcs[users[i].odId] == pc0[users[i].odId] && pc0[users[i].odId] !in gone
    ensures users[i].odId in pc0 ==> pc0[users[i].odId] in Replaced(pc0, users)
  {
    NextUntouched(pc0, users, made, i);
    ReplacedStep(pc0, users, i);
    ReplacedAt(pc0, users, i);
  }

  /** Once the next listed id holds the fresh handle `h`, `Offered` reaches one user further. */
  lemma OfferedStep(users: seq<User>, offers: seq<Blob>, from: Name, i: nat, out: seq<ClientMessage>,
                    made: seq<PeerHandle>, gone: set<PeerHandle>,
                    pc0: map<SocketId, PeerHandle>, names0: map<SocketId, Name>,
                    pcs: map<SocketId, PeerHandle>, names: map<SocketId, Name>, h: PeerHandle)
    requires Offered(users, offers, from, i, out, made, gone, pc0, names0, pcs, names)
    requires i < |users| && |offers| == |users| && DistinctIds(users) && Injective(pc0)
    ensures Offered(users, offers, from, i + 1, out + [Offer(offers[i], users[i].odId, from)], made + [h],
                    gone + (if users[i].odId in pc0 then {pc0[users[i].odId]} else {}), pc0, names0,
                    pcs[users[i].odId := h], names[users[i].odId := users[i].userName])
  {
    ReplacedStep(pc0, users, i);
    ServedStep(pc0, names0, out, users, offers, from, made, h, i);
  }

  /**
   * After the timers of the first `i` listed users, the roster is `r0` grown
   * by them; the layout flag `many` is still `many0` if no wrapper was added,
   * and otherwise matches the child count.
   */
  predicate Grown(users: seq<User>, i: nat, r0: map<SocketId, string>, many0: bool,
                  roster: map<SocketId, string>, many: bool, count: nat)
  {
    && i <= |users|
    && roster == Grow(r0, users[..i])
    && (!Adds(r0, users[..i]) ==> many == many0)
    && (Adds(r0, users[..i]) ==> many == ManyParticipants(count))
  }

  /** One more timer keeps the roster grown, one user further. */
  lemma GrownStep(users: seq<User>, i: nat, r0: map<SocketId, string>, many0: bool,
                  roster: map<SocketId, string>, many: bool, count: nat,
                  roster': map<SocketId, string>, many': bool, count': nat)
    requires Grown(users, i, r0, many0, roster, many, count) && DistinctIds(users) && i < |users|
    requires users[i].odId in roster ==> roster' == roster && many' == many && count' == count
    requires users[i].odId !in roster ==> roster' == roster[users[i].odId := Label(users[i].userName)] && many' == ManyParticipants(count')
    ensures Grown(users, i + 1, r0, many0, roster', many', count')
  {
    GrowNext(r0, users, i, roster, roster');
  }

  /** Each of the first `n` handles holds the matching offer as its local description. */
  ghost predicate Described(made: seq<PeerHandle>, offers: seq<Blob>, n: nat)
    reads made
  {
    n <= |made| && n <= |offers| && forall j :: 0 <= j < n ==> made[j].localDescription == Some(offers[j])
  }

  /** A handle holding the next offer extends `Described` by one. */
  lemma DescribedAppend(made: seq<PeerHandle>, offers: seq<Blob>, h: PeerHandle, i: nat)
    requires Described(made, offers, i) && |made| == i && i < |offers|
    requires h.localDescription == Some(offers[i])
    ensures Described(made + [h], offers, i + 1)
  {
  }

  /** Appending a fresh handle to fresh handles leaves them all fresh. */
  twostate lemma FreshAppend(new made: seq<PeerHandle>, new h: PeerHandle)
    requires fresh(made) && fresh(h)
    ensures fresh(made + [h])
  {
  }

  /** The label of a new wrapper: `name || 'Connecting...'`. */
  function Label(name: Name): string {
    if name != "" then name else "Connecting..."
  }

  /** The room page of one participant. */
  class Page {
    const roomId: RoomId
    const userName: Name
    const isOwner: bool
    /** Children of the video container that are not remote wrappers (the local video). */
    const staticChildren: nat

    var pendingRequests: seq<JoinRequestData>
    var modalHidden: bool
    var requesterName: Name

    var peerConnections: map<SocketId, PeerHandle>
    var remoteUserNames: map<SocketId, Name>

    /** The `wrapper-<id>` elements of the video container in document order, with their label text. */
    var wrappers: Entries<SocketId, string>
    /** Whether the container carries the `many-participants` class. */
    var manyParticipants: bool

    function AdmissionView(): Admission
      reads this`pendingRequests, this`modalHidden, this`requesterName
    {
      Admission(pendingRequests, modalHidden, requesterName)
    }

    /** The label text of each remote wrapper, by id. */
    function Roster(): map<SocketId, string>
      reads this`wrappers
    {
      ToMap(wrappers)
    }

    /** At most one live handle per remote id, and a name for every connected id. */
    ghost predicate HandlesValid()
      reads this`peerConnections, this`remoteUserNames, peerConnections.Values`closed
    {
      && (forall id :: id in peerConnections ==> !peerConnections[id].closed)
      && Injective(peerConnections)
      && peerConnections.Keys <= remoteUserNames.Keys
    }

    ghost predicate Valid()
      reads this, peerConnections.Values`closed
    {
      && AdmissionView().Valid()
      && HandlesValid()
      && DistinctKeys(wrappers)
      && peerConnections.Keys <= Roster().Keys
    }

    function ChildCount(): nat
      reads this`wrappers
    {
      staticChildren + |wrappers|
    }

    predicate LayoutCurrent()
      reads this`wrappers, this`manyParticipants
    {
      manyParticipants == ManyParticipants(ChildCount())
    }

    /**
     * The page as loaded from `room.html?roomId=…&userName=…&isOwner=…`;
     * a missing or empty name reads as "Anonymous", and only the text
     * "true" makes the page the owner's.
     */
    constructor (roomIdParam: RoomId, userNameParam: Option<string>, isOwnerParam: Option<string>, staticChildren: nat)
      ensures Valid()
      ensures roomId == roomIdParam && this.staticChildren == staticChildren
      ensures userName == if userNameParam.Some? && userNameParam.value != "" then userNameParam.value else "Anonymous"
      ensures isOwner <==> isOwnerParam == Some("true")
      ensures pendingRequests == [] && modalHidden
      ensures peerConnections == map[] && remoteUserNames == map[] && wrappers == [] && !manyParticipants
    {
      roomId := roomIdParam;
      userName := if userNameParam.Some? && userNameParam.value != "" then userNameParam.value else "Anonymous";
      isOwner := isOwnerParam == Some("true");
      this.staticChildren := staticChildren;
      pendingRequests, modalHidden, requesterName := [], true, "";
      peerConnections, remoteUserNames := map[], map[];
      wrappers, manyParticipants := [], false;
    }

    /**
     * `initializeMedia`: once the camera and microphone are granted, the
     * owner creates the room and anyone else joins it; if they are refused,
     * nothing is sent.
     */
    method MediaReady(granted: bool) returns (out: seq<ClientMessage>)
      ensures !granted ==> out == []
      ensures granted && isOwner ==> out == [CreateRoom(roomId, userName)]
      ensures granted && !isOwner ==> out == [JoinRoom(roomId, userName)]
    {
      if !granted {
        out := [];
      } else if isOwner {
        out := [CreateRoom(roomId, userName)];
      } else {
        out := [JoinRoom(roomId, userName)];
      }
    }

    /** `updateVideoLayout` */
    method UpdateVideoLayout()
      modifies this`manyParticipants
      ensures LayoutCurrent()
    {
      var count := staticChildren + |wrappers|;
      if count > 4 {
        manyParticipants := true;
      } else {
        manyParticipants := false;
      }
    }

    /** `createVideoElement`: one wrapper per id, appended; a second call for the same id changes nothing. */
    method CreateVideoElement(id: SocketId, name: Name)
      requires DistinctKeys(wrappers)
      modifies this`wrappers, this`manyParticipants
      ensures DistinctKeys(wrappers)
      ensures id in old(Roster()) ==> wrappers == old(wrappers) && manyParticipants == old(manyParticipants)
      ensures id !in old(Roster()) ==> wrappers == old(wrappers) + [Entry(id, Label(name))] && LayoutCurrent()
      ensures id !in old(Roster()) ==> Roster() == old(Roster())[id := Label(name)]
    {
      ToMapFind(wrappers, id);
      if Has(wrappers, id) {
        return;
      }
      ToMapAppend(wrappers, Entry(id, Label(name)));
      wrappers := wrappers + [Entry(id, Label(name))];
      UpdateVideoLayout();
    }

    /** `removeVideoElement`: drops the id's wrapper if there is one. */
    method RemoveVideoElement(id: SocketId)
      requires DistinctKeys(wrappers)
      modifies this`wrappers, this`manyParticipants
      ensures DistinctKeys(wrappers)
      ensures Roster() == old(Roster()) - {id}
      ensures id in old(Roster()) ==> |wrappers| == |old(wrappers)| - 1 && LayoutCurrent()
      ensures id !in old(Roster()) ==> wrappers == old(wrappers) && manyParticipants == old(manyParticipants)
    {
      ToMapFind(wrappers, id);
      if Has(wrappers, id) {
        wrappers := Delete(wrappers, id);
        UpdateVideoLayout();
      } else {
        assert Roster() == Roster() - {id};
      }
    }

    /** `showNextRequest` */
    method ShowNextRequest()
      modifies this`modalHidden, this`requesterName
      ensures AdmissionView() == ShowNext(old(AdmissionView()))
    {
      if |pendingRequests| > 0 && modalHidden {
        var request := pendingRequests[0];
        requesterName := request.userName;
        modalHidden := false;
      }
    }

    /** The `join-request` handler. */
    method OnJoinRequest(data: JoinRequestData)
      requires Valid()
      modifies this`pendingRequests, this`modalHidden, this`requesterName
      ensures Valid()
      ensures AdmissionView() == Arrive(old(AdmissionView()), data)
    {
      pendingRequests := pendingRequests + [data];
      ShowNextRequest();
    }

    /** The accept button. */
    method OnAccept() returns (out: seq<ClientMessage>)
      requires Valid()
      modifies this`pendingRequests, this`modalHidden, this`requesterName
      ensures Valid()
      ensures Resolution(AdmissionView(), out) == Resolve(old(AdmissionView()), Accept, roomId)
    {
      out := [];
      if |pendingRequests| > 0 {
        var request := pendingRequests[0];
        pendingRequests := pendingRequests[1..];
        out := [JoinAccepted(roomId, request.odId, request.userName)];
        modalHidden := true;
        ShowNextRequest();
      }
    }

    /** The reject button. */
    method OnReject() returns (out: seq<ClientMessage>)
      requires Valid()
      modifies this`pendingRequests, this`modalHidden, this`requesterName
      ensures Valid()
      ensures Resolution(AdmissionView(), out) == Resolve(old(AdmissionView()), Reject, roomId)
    {
      out := [];
      if |pendingRequests| > 0 {
        var request := pendingRequests[0];
        pendingRequests := pendingRequests[1..];
        out := [JoinRejected(roomId, request.odId)];
        modalHidden := true;
        ShowNextRequest();
      }
    }

    /**
     * `createPeerConnection`: any handle already kept for the id is closed
     * before a fresh one replaces it; other ids keep theirs.
     */
    method CreatePeerConnection(id: SocketId, remoteName: Name) returns (pc: PeerHandle)
      requires HandlesValid()
      modifies this`peerConnections, this`remoteUserNames
      modifies if id in peerConnections then {peerConnections[id]} else {}
      ensures HandlesValid()
      ensures fresh(pc) && !pc.closed && pc.localDescription == None && pc.remoteDescription == None
      ensures pc.candidates == []
      ensures peerConnections == old(peerConnections)[id := pc]
      ensures remoteUserNames == old(remoteUserNames)[id := remoteName]
      ensures id in old(peerConnections) ==> old(peerConnections[id]).closed
    {
      if id in peerConnections {
        peerConnections[id].Close();
      }
      pc := new PeerHandle();
      peerConnections := peerConnections[id := pc];
      remoteUserNames := remoteUserNames[id := remoteName];
    }

    /**
     * `closePeerConnection`: closes and forgets the id's handle, its name and
     * its wrapper, and nothing else; on an id already gone it changes nothing.
     */
    method ClosePeerConnection(id: SocketId)
      requires Valid()
      modifies this`peerConnections, this`remoteUserNames, this`wrappers, this`manyParticipants
      modifies if id in peerConnections then {peerConnections[id]} else {}
      ensures Valid()
      ensures peerConnections == old(peerConnections) - {id}
      ensures remoteUserNames == old(remoteUserNames) - {id}
      ensures Roster() == old(Roster()) - {id}
      ensures id in old(peerConnections) ==> old(peerConnections[id]).closed
      ensures id in old(Roster()) ==> LayoutCurrent()
      ensures id !in old(Roster()) ==> manyParticipants == old(manyParticipants)
    {
      if id in peerConnections {
        var pc := peerConnections[id];
        pc.Close();
        peerConnections := peerConnections - {id};
      }
      remoteUserNames := remoteUserNames - {id};
      RemoveVideoElement(id);
    }

    /** `createOffer`: a fresh connection and a wrapper for the id, then the offer to it. */
    method CreateOffer(id: SocketId, remoteName: Name, offer: Blob) returns (out: ClientMessage)
      requires Valid()
      modifies this`peerConnections, this`remoteUserNames, this`wrappers, this`manyParticipants
      modifies if id in peerConnections then {peerConnections[id]} else {}
      ensures Valid()
      ensures id in peerConnections && fresh(peerConnections[id])
      ensures peerConnections == old(peerConnections)[id := peerConnections[id]]
      ensures peerConnections[id].localDescription == Some(offer)
      ensures peerConnections[id].remoteDescription == None && peerConnections[id].candidates == []
      ensures remoteUserNames == old(remoteUserNames)[id := remoteName]
      ensures id in old(peerConnections) ==> old(peerConnections[id]).closed
      ensures id in old(Roster()) ==> wrappers == old(wrappers) && manyParticipants == old(manyParticipants)
      ensures id !in old(Roster()) ==> Roster() == old(Roster())[id := Label(remoteName)] && LayoutCurrent()
      ensures out == Offer(offer, id, userName)
    {
      var pc := CreatePeerConnection(id, remoteName);
      CreateVideoElement(id, remoteName);
      pc.SetLocalDescription(offer);
      out := Offer(offer, id, userName);
    }

    /** `handleOffer`: a fresh connection for the sender, the offer applied, and the answer sent back. */
    method HandleOffer(senderId: SocketId, offer: Blob, senderName: Name, answer: Blob) returns (out: ClientMessage)
      requires Valid()
      modifies this`peerConnections, this`remoteUserNames, this`wrappers, this`manyParticipants
      modifies if senderId in peerConnections then {peerConnections[senderId]} else {}
      ensures Valid()
      ensures senderId in peerConnections && fresh(peerConnections[senderId])
      ensures peerConnections == old(peerConnections)[senderId := peerConnections[senderId]]
      ensures peerConnections[senderId].remoteDescription == Some(offer)
      ensures peerConnections[senderId].localDescription == Some(answer)
      ensures peerConnections[senderId].candidates == []
      ensures remoteUserNames == old(remoteUserNames)[senderId := senderName]
      ensures senderId in old(peerConnections) ==> old(peerConnections[senderId]).closed
      ensures senderId in old(Roster()) ==> wrappers == old(wrappers) && manyParticipants == old(manyParticipants)
      ensures senderId !in old(Roster()) ==> Roster() == old(Roster())[senderId := Label(senderName)] && LayoutCurrent()
      ensures out == Answer(answer, senderId)
    {
      var pc := CreatePeerConnection(senderId, senderName);
      CreateVideoElement(senderId, senderName);
      assert Valid() && peerConnections[senderId] == pc;
      pc.SetRemoteDescription(offer);
      pc.SetLocalDescription(answer);
      out := Answer(answer, senderId);
    }

    /** `handleAnswer`: applied only when a connection for the sender is kept; otherwise dropped. */
    method HandleAnswer(senderId: SocketId, answer: Blob)
      requires Valid()
      modifies if senderId in peerConnections then {peerConnections[senderId]} else {}
      ensures Valid()
      ensures senderId in peerConnections ==>
        peerConnections[senderId].remoteDescription == Some(answer) &&
        peerConnections[senderId].localDescription == old(peerConnections[senderId].localDescription) &&
        peerConnections[senderId].candidates == old(peerConnections[senderId].candidates)
    {
      if senderId in peerConnections {
        peerConnections[senderId].SetRemoteDescription(answer);
      }
    }

    /** `handleIceCandidate`: applied only for a kept sender and a non-null candidate; otherwise dropped. */
    method HandleIceCandidate(senderId: SocketId, candidate: Option<Blob>)
      requires Valid()
      modifies if senderId in peerConnections && candidate.Some? then {peerConnections[senderId]} else {}
      ensures Valid()
      ensures senderId in peerConnections && candidate.Some? ==>
        peerConnections[senderId].candidates == old(peerConnections[senderId].candidates) + [candidate.value] &&
        peerConnections[senderId].remoteDescription == old(peerConnections[senderId].remoteDescription) &&
        peerConnections[senderId].localDescription == old(peerConnections[senderId].localDescription)
    {
      if senderId in peerConnections && candidate.Some? {
        peerConnections[senderId].AddIceCandidate(candidate.value);
      }
    }

    /**
     * One timer of the `existing-users` handler: `createOffer` for one listed
     * user. The handle it replaces is closed. The ghost `kept` and `shut`
     * add nothing the frame does not already give: the handles in `kept`
     * keep their local descriptions and those in `shut` stay closed, as long
     * as neither holds the replaced one. They are spelled out only so that
     * the loop of `OfferEach` can carry these facts cheaply.
     */
    method OfferTo(u: User, offer: Blob, ghost kept: seq<PeerHandle>, ghost shut: set<PeerHandle>) returns (out: ClientMessage)
      requires Valid()
      requires u.odId in peerConnections ==> peerConnections[u.odId] !in kept && peerConnections[u.odId] !in shut
      requires AllClosed(shut)
      modifies this`peerConnections, this`remoteUserNames, this`wrappers, this`manyParticipants
      modifies if u.odId in peerConnections then {peerConnections[u.odId]} else {}
      ensures Valid()
      ensures out == Offer(offer, u.odId, userName)
      ensures u.odId in peerConnections && peerConnections == old(peerConnections)[u.odId := peerConnections[u.odId]]
      ensures fresh(peerConnections[u.odId]) && peerConnections[u.odId].localDescription == Some(offer)
      ensures remoteUserNames == old(remoteUserNames)[u.odId := u.userName]
      ensures u.odId in old(peerConnections) ==> old(peerConnections[u.odId]).closed
      ensures u.odId in old(Roster()) ==> wrappers == old(wrappers) && manyParticipants == old(manyParticipants)
      ensures u.odId !in old(Roster()) ==> Roster() == old(Roster())[u.odId := Label(u.userName)] && LayoutCurrent()
      ensures forall j :: 0 <= j < |kept| ==> kept[j].localDescription == old(kept[j].localDescription)
      ensures AllClosed(shut)
    {
      out := CreateOffer(u.odId, u.userName, offer);
    }

    /**
     * The `existing-users` handler: `createOffer` for every listed user, in
     * list order, since every timer is set for the same 500 ms. `offers[i]`
     * is the description the browser creates for the i-th user. The list is
     * built from a room's user map, so no id occurs in it twice.
     */
    method OnExistingUsers(users: seq<User>, offers: seq<Blob>) returns (out: seq<ClientMessage>)
      requires Valid() && |offers| == |users| && DistinctIds(users)
      modifies this`peerConnections, this`remoteUserNames, this`wrappers, this`manyParticipants
      modifies Replaced(peerConnections, users)
      ensures Valid()
      ensures |out| == |users|
      ensures forall i :: 0 <= i < |users| ==> out[i] == Offer(offers[i], users[i].odId, userName)
      ensures forall i :: 0 <= i < |users| ==>
        && users[i].odId in peerConnections
        && fresh(peerConnections[users[i].odId])
        && peerConnections[users[i].odId].localDescription == Some(offers[i])
        && users[i].odId in remoteUserNames
        && remoteUserNames[users[i].odId] == users[i].userName
        && users[i].odId in Roster()
      ensures forall i :: 0 <= i < |users| && users[i].odId in old(peerConnections) ==>
        old(peerConnections[users[i].odId]).closed
      ensures forall id :: id in old(peerConnections) && id !in Ids(users) ==>
        id in peerConnections && peerConnections[id] == old(peerConnections)[id] && unchanged(peerConnections[id])
      ensures forall id :: id in peerConnections ==> id in old(peerConnections) || id in Ids(users)
      ensures forall id :: id !in Ids(users) ==>
        (id in remoteUserNames <==> id in old(remoteUserNames)) &&
        (id in old(remoteUserNames) ==> remoteUserNames[id] == old(remoteUserNames)[id])
      ensures Roster().Keys == old(Roster()).Keys + Ids(users)
      ensures forall id :: id in old(Roster()) ==> Roster()[id] == old(Roster())[id]
      ensures forall i :: 0 <= i < |users| && users[i].odId !in old(Roster()) ==>
        Roster()[users[i].odId] == Label(users[i].userName)
      ensures Roster().Keys == old(Roster()).Keys ==> manyParticipants == old(manyParticipants)
      ensures Roster().Keys != old(Roster()).Keys ==> LayoutCurrent()
    {
      ghost var made: seq<PeerHandle>;
      out, made := OfferEach(users, offers, Replaced(peerConnections, users));
      assert users[..|users|] == users;
      OverwriteHits(old(peerConnections), users, made);
      OverwriteHits(old(remoteUserNames), users, Names(users));
      NamesAt(users);
      OverwriteKeys(old(peerConnections), users, made);
      GrowKeeps(old(Roster()), users);
      GrowLabels(old(Roster()), users);
      forall i | 0 <= i < |users| && users[i].odId in old(peerConnections)
        ensures old(peerConnections[users[i].odId]).closed
      {
        ReplacedAt(old(peerConnections), users, i);
      }
      forall id | id in old(peerConnections) && id !in Ids(users)
        ensures id in peerConnections && peerConnections[id] == old(peerConnections)[id] && unchanged(peerConnections[id])
      {
        forall j | 0 <= j < |users| ensures users[j].odId != id {
          assert users[j] in users;
        }
        OverwriteUntouched(old(peerConnections), users, made, id);
        UnlistedKept(old(peerConnections), users, id);
      }
      forall id | id !in Ids(users)
        ensures (id in remoteUserNames <==> id in old(remoteUserNames)) &&
                (id in old(remoteUserNames) ==> remoteUserNames[id] == old(remoteUserNames)[id])
      {
        forall j | 0 <= j < |users| ensures users[j].odId != id {
          assert users[j] in users;
        }
        OverwriteUntouched(old(remoteUserNames), users, Names(users), id);
      }
    }

    /**
     * The timers of the `existing-users` handler, one after another: the
     * connections and names are the old ones overwritten, in list order,
     * with the fresh handles `made` and the listed names; the replaced
     * handles are closed, the unlisted ones untouched, and each listed id
     * without a wrapper gets one.
     */
    method OfferEach(users: seq<User>, offers: seq<Blob>, ghost replaced: set<PeerHandle>) returns (out: seq<ClientMessage>, ghost made: seq<PeerHandle>)
      requires Valid() && |offers| == |users| && DistinctIds(users)
      requires replaced == Replaced(peerConnections, users)
      modifies this`peerConnections, this`remoteUserNames, this`wrappers, this`manyParticipants, replaced
      ensures Valid()
      ensures Offered(users, offers, userName, |users|, out, made, replaced, old(peerConnections), old(remoteUserNames),
                      peerConnections, remoteUserNames)
      ensures fresh(made) && Described(made, offers, |users|)
      ensures AllClosed(replaced)
      ensures Grown(users, |users|, old(Roster()), old(manyParticipants), Roster(), manyParticipants, ChildCount())
    {
      ghost var pc0, names0, r0, many0 := peerConnections, remoteUserNames, Roster(), manyParticipants;
      assert Injective(pc0);
      ghost var gone: set<PeerHandle> := {};
      out, made := [], [];
      for i := 0 to |users|
        invariant Valid()
        invariant Offered(users, offers, userName, i, out, made, gone, pc0, names0, peerConnections, remoteUserNames)
        invariant Grown(users, i, r0, many0, Roster(), manyParticipants, ChildCount())
        invariant AllClosed(gone)
        invariant fresh(made)
        invariant Described(made, offers, i)
      {
        ReplacedAt(pc0, users, i);
        var m;
        ghost var h;
        m, h := OfferNext(users, offers, i, out, made, gone, pc0, names0, r0, many0);
        FreshAppend(made, h);
        DescribedAppend(made, offers, h, i);
        out := out + [m];
        made := made + [h];
        gone := gone + if users[i].odId in pc0 then {pc0[users[i].odId]} else {};
      }
      assert users[..|users|] == users;
    }

    /** One pass of the loop in `OfferEach`: the offer to `users[i]`, with the loop's bookkeeping carried one user further. */
    method OfferNext(users: seq<User>, offers: seq<Blob>, i: nat, ghost out: seq<ClientMessage>,
                     ghost made: seq<PeerHandle>, ghost gone: set<PeerHandle>,
                     ghost pc0: map<SocketId, PeerHandle>, ghost names0: map<SocketId, Name>,
                     ghost r0: map<SocketId, string>, ghost many0: bool)
      returns (m: ClientMessage, ghost h: PeerHandle)
      requires Valid() && i < |users| && |offers| == |users| && DistinctIds(users) && Injective(pc0)
      requires Offered(users, offers, userName, i, out, made, gone, pc0, names0, peerConnections, remoteUserNames)
      requires Grown(users, i, r0, many0, Roster(), manyParticipants, ChildCount())
      requires AllClosed(gone)
      requires Described(made, offers, i)
      requires users[i].odId in pc0 ==> pc0[users[i].odId] !in made
      modifies this`peerConnections, this`remoteUserNames, this`wrappers, this`manyParticipants
      modifies if users[i].odId in pc0 then {pc0[users[i].odId]} else {}
      ensures Valid()
      ensures Offered(users, offers, userName, i + 1, out + [m], made + [h],
                      gone + (if users[i].odId in pc0 then {pc0[users[i].odId]} else {}), pc0, names0,
                      peerConnections, remoteUserNames)
      ensures Grown(users, i + 1, r0, many0, Roster(), manyParticipants, ChildCount())
      ensures AllClosed(gone + (if users[i].odId in pc0 then {pc0[users[i].odId]} else {}))
      ensures fresh(h) && h.localDescription == Some(offers[i])
      ensures Described(made, offers, i)
    {
      ghost var pcs, names, r, many, count := peerConnections, remoteUserNames, Roster(), manyParticipants, ChildCount();
      OfferedNext(users, offers, userName, i, out, made, gone, pc0, names0, pcs, names);
      m := OfferTo(users[i], offers[i], made, gone);
      h := peerConnections[users[i].odId];
      OfferedStep(users, offers, userName, i, out, made, gone, pc0, names0, pcs, names, h);
      GrownStep(users, i, r0, many0, r, many, count, Roster(), manyParticipants, ChildCount());
    }

    /** The `user-joined` handler: a wrapper for the newcomer, who will send the offer. */
    method OnUserJoined(odId: SocketId, name: Name)
      requires Valid()
      modifies this`wrappers, this`manyParticipants
      ensures Valid()
      ensures odId in old(Roster()) ==> Roster() == old(Roster()) && manyParticipants == old(manyParticipants)
      ensures odId !in old(Roster()) ==> Roster() == old(Roster())[odId := Label(name)] && LayoutCurrent()
    {
      CreateVideoElement(odId, name);
    }

    /** The `user-left` handler. */
    method OnUserLeft(odId: SocketId)
      requires Valid()
      modifies this`peerConnections, this`remoteUserNames, this`wrappers, this`manyParticipants
      modifies if odId in peerConnections then {peerConnections[odId]} else {}
      ensures Valid()
      ensures peerConnections == old(peerConnections) - {odId}
      ensures remoteUserNames == old(remoteUserNames) - {odId}
      ensures Roster() == old(Roster()) - {odId}
      ensures odId in old(peerConnections) ==> old(peerConnections[odId]).closed
      ensures odId in old(Roster()) ==> LayoutCurrent()
      ensures odId !in old(Roster()) ==> manyParticipants == old(manyParticipants)
    {
      ClosePeerConnection(odId);
      RemoveVideoElement(odId);
    }

    /** A connection reporting `disconnected` or `failed` is closed; other states change nothing. */
    method OnConnectionStateChange(odId: SocketId, state: ConnectionState)
      requires Valid()
      modifies this`peerConnections, this`remoteUserNames, this`wrappers, this`manyParticipants
      modifies if (state == Disconnected || state == Failed) && odId in peerConnections then {peerConnections[odId]} else {}
      ensures Valid()
      ensures state != Disconnected && state != Failed ==>
        peerConnections == old(peerConnections) && remoteUserNames == old(remoteUserNames) &&
        Roster() == old(Roster()) && manyParticipants == old(manyParticipants)
      ensures state == Disconnected || state == Failed ==>
        peerConnections == old(peerConnections) - {odId} && remoteUserNames == old(remoteUserNames) - {odId} &&
        Roster() == old(Roster()) - {odId}
      ensures (state == Disconnected || state == Failed) && odId in old(peerConnections) ==> old(peerConnections[odId]).closed
      ensures (state == Disconnected || state == Failed) && odId in old(Roster()) ==> LayoutCurrent()
      ensures (state == Disconnected || state == Failed) && odId !in old(Roster()) ==> manyParticipants == old(manyParticipants)
    {
      if state == Disconnected || state == Failed {
        ClosePeerConnection(odId);
      }
    }

    /**
     * The walk of the `disconnect` handler over `peerConnections`: every kept
     * handle is closed and its wrapper removed; both maps stay as they are.
     */
    method CloseEach()
      requires DistinctKeys(wrappers) && peerConnections.Keys <= Roster().Keys
      modifies this`wrappers, this`manyParticipants, peerConnections.Values
      ensures DistinctKeys(wrappers)
      ensures forall id :: id in peerConnections ==> peerConnections[id].closed
      ensures Roster() == old(Roster()) - peerConnections.Keys
      ensures peerConnections != map[] ==> LayoutCurrent()
      ensures peerConnections == map[] ==> manyParticipants == old(manyParticipants)
    {
      var keys := peerConnections.Keys;
      var ids := keys;
      while ids != {}
        invariant ids <= keys && DistinctKeys(wrappers)
        invariant forall x :: x in keys && x !in ids ==> peerConnections[x].closed
        invariant Roster() == old(Roster()) - (keys - ids)
        invariant ids != keys ==> LayoutCurrent()
        invariant ids == keys ==> manyParticipants == old(manyParticipants)
        decreases ids
      {
        var id :| id in ids;
        peerConnections[id].Close();
        RemoveVideoElement(id);
        ids := ids - {id};
      }
    }

    /**
     * The socket's `disconnect` handler: every kept handle is closed and its
     * wrapper removed, then both maps are emptied. Wrappers of ids without a
     * connection stay.
     */
    method OnDisconnect()
      requires Valid()
      modifies this`peerConnections, this`remoteUserNames, this`wrappers, this`manyParticipants
      modifies peerConnections.Values
      ensures Valid()
      ensures forall id :: id in old(peerConnections) ==> old(peerConnections[id]).closed
      ensures peerConnections == map[] && remoteUserNames == map[]
      ensures Roster() == old(Roster()) - old(peerConnections.Keys)
      ensures old(peerConnections) != map[] ==> LayoutCurrent()
      ensures old(peerConnections) == map[] ==> manyParticipants == old(manyParticipants)
    {
      CloseEach();
      peerConnections := map[];
      remoteUserNames := map[];
    }

    /**
     * `peerConnections.forEach((pc) => pc.close())`, which is the whole
     * bookkeeping of the `beforeunload` handler: every kept handle is
     * closed, while the connection map, the names and the wrappers stay.
     * Closed handles are then still kept, so the page invariant no longer
     * holds unless there were none.
     */
    method CloseAll()
      requires Valid()
      modifies peerConnections.Values
      ensures unchanged(this)
      ensures forall id :: id in peerConnections ==> peerConnections[id].closed
      ensures peerConnections != map[] ==> !HandlesValid()
    {
      var ids := peerConnections.Keys;
      while ids != {}
        invariant ids <= peerConnections.Keys
        invariant forall id :: id in peerConnections && id !in ids ==> peerConnections[id].closed
        decreases ids
      {
        var id :| id in ids;
        peerConnections[id].Close();
        ids := ids - {id};
      }
    }

    /**
     * The end-call button (before the page navigates away): every kept
     * handle is closed and `peerConnections` emptied, while `remoteUserNames`
     * and the wrappers stay as they were.
     */
    method EndCall()
      requires Valid()
      modifies this`peerConnections, peerConnections.Values
      ensures Valid()
      ensures forall id :: id in old(peerConnections) ==> old(peerConnections[id]).closed
      ensures peerConnections == map[]
    {
      CloseAll();
      peerConnections := map[];
    }
  }
}
