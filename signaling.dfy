/** The WebSocket signaling client: the peer table, the single pair of
    `makingOffer` / `ignoreOffer` flags shared by every peer, and the perfect
    negotiation rules of `createOffer` and `handleSignal`.

    Each `RTCPeerConnection` is reduced to what this code reads and changes:
    an identity (closures capture the connection object, so a later step can
    tell whether the table still holds the same connection), its signaling
    state, its connection state, whether a remote description is set, and how
    many remote ICE candidates it accepted. The browser rules used are those of
    the WebRTC 1.0 specification: `setLocalDescription({type: 'rollback'})` is
    rejected in `stable`; a local offer is rejected in `have-remote-offer`;
    `addIceCandidate` is rejected while no remote description is set. */
module Signaling {
  import opened Strings

  datatype SignalingState = Stable | HaveLocalOffer | HaveRemoteOffer
  datatype ConnectionState = New | Connecting | Connected | Disconnected | Failed | Closed

  datatype Conn = Conn(id: nat, signaling: SignalingState, connection: ConnectionState,
                       hasRemote: bool, candidates: nat)

  /** The `type` of an incoming `signal.sdp`; `OtherSdp` stands for any type
      other than `offer` and `answer`. */
  datatype SdpType = Offer | Answer | OtherSdp
  datatype Signal = Signal(sdp: Option<SdpType>, candidate: bool)

  function NewConn(id: nat): Conn {
    Conn(id, Stable, New, false, 0)
  }

  // ----- the per-connection rules of handleSignal -----

  /** `addIceCandidate` after the description step, when the signal carries a
      candidate. */
  function AddCandidate(c: Conn, candidate: bool): (r: Conn)
    ensures r.id == c.id && r.signaling == c.signaling && r.hasRemote == c.hasRemote
    ensures r.candidates == if candidate && c.hasRemote then c.candidates + 1 else c.candidates
  {
    if candidate && c.hasRemote then c.(candidates := c.candidates + 1) else c
  }

  /** What `handleSignal` does to one connection: the connection afterwards,
      the new value of the global `ignoreOffer`, and whether an answer was sent
      back to the sender. An exception (the rejected rollback in `stable`) is
      caught and ends the call with the connection as it was. */
  datatype Reception = Reception(conn: Conn, ignoreOffer: bool, answered: bool)

  function ReceiveSignal(polite: bool, makingOffer: bool, ignoreOffer: bool, c: Conn, s: Signal): (r: Reception)
    ensures r.conn.id == c.id
  {
    match s.sdp
    case Some(Offer) =>
      var collision := makingOffer || c.signaling != Stable;
      var ignore := !polite && collision;
      if ignore then Reception(c, true, false)
      else if collision && c.signaling == Stable then Reception(c, false, false)
      else Reception(AddCandidate(c.(signaling := Stable, hasRemote := true), s.candidate), false, true)
    case Some(Answer) =>
      if c.signaling != HaveLocalOffer then Reception(c, ignoreOffer, false)
      else Reception(AddCandidate(c.(signaling := Stable, hasRemote := true), s.candidate), ignoreOffer, false)
    case Some(OtherSdp) => Reception(AddCandidate(c, s.candidate), ignoreOffer, false)
    case None => Reception(AddCandidate(c, s.candidate), ignoreOffer, false)
  }

  /** An impolite peer that meets a colliding offer sets `ignoreOffer` and
      returns: no rollback, no remote description, no answer, and the
      candidate riding on the same signal is dropped too. */
  lemma ImpoliteIgnoresCollision(makingOffer: bool, ignoreOffer: bool, c: Conn, candidate: bool)
    requires makingOffer || c.signaling != Stable
    ensures var r := ReceiveSignal(false, makingOffer, ignoreOffer, c, Signal(Some(Offer), candidate));
      r.conn == c && r.ignoreOffer && !r.answered
  {
  }

  /** A polite peer whose connection holds an offer of its own rolls it back,
      applies the remote offer and answers exactly once; the connection ends
      in `stable` with a remote description, and `ignoreOffer` is cleared. */
  lemma PoliteYieldsOnCollision(makingOffer: bool, ignoreOffer: bool, c: Conn, candidate: bool)
    requires c.signaling != Stable
    ensures var r := ReceiveSignal(true, makingOffer, ignoreOffer, c, Signal(Some(Offer), candidate));
      r.answered && !r.ignoreOffer && r.conn.signaling == Stable && r.conn.hasRemote && r.conn.id == c.id
  {
  }

  /** A polite peer that is creating an offer whose local description is not
      set yet is still in `stable`: the rollback is rejected, the error is
      caught, and the offer is dropped without an answer. */
  lemma PoliteDropsOfferWhileMakingOne(ignoreOffer: bool, c: Conn, candidate: bool)
    requires c.signaling == Stable
    ensures var r := ReceiveSignal(true, true, ignoreOffer, c, Signal(Some(Offer), candidate));
      r.conn == c && !r.answered && !r.ignoreOffer
  {
  }

  /** Without a collision every peer, polite or not, answers the offer. */
  lemma OfferWithoutCollision(polite: bool, ignoreOffer: bool, c: Conn, candidate: bool)
    requires c.signaling == Stable
    ensures var r := ReceiveSignal(polite, false, ignoreOffer, c, Signal(Some(Offer), candidate));
      r.answered && !r.ignoreOffer && r.conn.signaling == Stable && r.conn.hasRemote
  {
  }

  /** An answer is applied only in `have-local-offer` and then leads to
      `stable`; in any other state it is dropped, with its candidate, and
      nothing changes. An answer never changes `ignoreOffer` nor sends anything. */
  lemma AnswerOnlyInHaveLocalOffer(polite: bool, makingOffer: bool, ignoreOffer: bool, c: Conn, candidate: bool)
    ensures var r := ReceiveSignal(polite, makingOffer, ignoreOffer, c, Signal(Some(Answer), candidate));
      !r.answered && r.ignoreOffer == ignoreOffer &&
      (c.signaling == HaveLocalOffer ==> r.conn.signaling == Stable && r.conn.hasRemote) &&
      (c.signaling != HaveLocalOffer ==> r.conn == c)
  {
  }

  /** A signal is only ever answered when it is an offer, and the signaling
      state is `stable` after every signal that is not ignored or dropped. */
  lemma AnswersOnlyOffers(polite: bool, makingOffer: bool, ignoreOffer: bool, c: Conn, s: Signal)
    ensures var r := ReceiveSignal(polite, makingOffer, ignoreOffer, c, s);
      (r.answered ==> s.sdp == Some(Offer) && r.conn.signaling == Stable) &&
      r.conn.id == c.id &&
      (r.conn.signaling != c.signaling ==> r.conn.signaling == Stable)
  {
  }

  /** Glare between the host (impolite) and a participant (polite), each with
      its own offer set locally: the host ignores the participant's offer, the
      participant rolls back and answers, and the answer brings the host's
      connection to `stable` too. Exactly one answer crosses the wire. */
  lemma GlareBetweenHostAndParticipant(host: Conn, guest: Conn, hostMaking: bool, guestMaking: bool,
                                       hostIgnore: bool, guestIgnore: bool)
    requires host.signaling == HaveLocalOffer && guest.signaling == HaveLocalOffer
    ensures var atHost := ReceiveSignal(false, hostMaking, hostIgnore, host, Signal(Some(Offer), false));
      var atGuest := ReceiveSignal(true, guestMaking, guestIgnore, guest, Signal(Some(Offer), false));
      var done := ReceiveSignal(false, hostMaking, atHost.ignoreOffer, atHost.conn, Signal(Some(Answer), false));
      !atHost.answered && atHost.conn == host && atGuest.answered &&
      atGuest.conn.signaling == Stable && done.conn.signaling == Stable
  {
  }

  /** Glare between two participants, both polite: both roll back and both
      answer, and each answer then arrives in `stable` and is dropped. */
  lemma GlareBetweenParticipants(a: Conn, b: Conn, aMaking: bool, bMaking: bool, aIgnore: bool, bIgnore: bool)
    requires a.signaling == HaveLocalOffer && b.signaling == HaveLocalOffer
    ensures var atA := ReceiveSignal(true, aMaking, aIgnore, a, Signal(Some(Offer), false));
      var atB := ReceiveSignal(true, bMaking, bIgnore, b, Signal(Some(Offer), false));
      atA.answered && atB.answered &&
      ReceiveSignal(true, aMaking, atA.ignoreOffer, atA.conn, Signal(Some(Answer), false)).conn == atA.conn &&
      ReceiveSignal(true, bMaking, atB.ignoreOffer, atB.conn, Signal(Some(Answer), false)).conn == atB.conn
  {
  }

  // ----- the peer table -----

  /** `createPeerConnection`: the table and the next connection identity after
      the call. An existing entry is returned untouched. */
  function WithConnection(peers: map<string, Conn>, nextId: nat, name: string): (r: (map<string, Conn>, nat))
    ensures name in r.0
    ensures name in peers ==> r == (peers, nextId)
    ensures name !in peers ==> r.0[name] == NewConn(nextId) && r.1 == nextId + 1
    ensures forall p :: p != name ==> (p in r.0 <==> p in peers) && (p in peers ==> r.0[p] == peers[p])
  {
    if name in peers then (peers, nextId) else (peers[name := NewConn(nextId)], nextId + 1)
  }

  /** Creating a connection twice is creating it once. */
  lemma WithConnectionIdempotent(peers: map<string, Conn>, nextId: nat, name: string)
    ensures var r := WithConnection(peers, nextId, name);
      WithConnection(r.0, r.1, name) == r
  {
  }

  /** `setLocalDescription(offer)` on the connection an offer was created for:
      rejected when the table no longer holds that connection (it was closed)
      or when it is in `have-remote-offer`. */
  function LocalOffer(peers: map<string, Conn>, peer: string, connId: nat): (r: Option<Conn>)
    ensures r.Some? <==> peer in peers && peers[peer].id == connId && peers[peer].signaling != HaveRemoteOffer
    ensures r.Some? ==> r.value.signaling == HaveLocalOffer && r.value.id == connId
  {
    if peer in peers && peers[peer].id == connId && peers[peer].signaling != HaveRemoteOffer
    then Some(peers[peer].(signaling := HaveLocalOffer))
    else None
  }

  // ----- the WebSocket URL -----

  /** The server URL with its first `https://` turned into `wss://`, then the
      first `http://` of the result into `ws://`. */
  function WsUrl(serverUrl: string): (u: string)
    ensures |serverUrl| - 4 <= |u| <= |serverUrl|
  {
    ReplaceFirst(ReplaceFirst(serverUrl, "https://", "wss://"), "http://", "ws://")
  }

  /** A pattern absent from `rest` is absent from `prefix + rest` when it does
      not start at 0 and its first character is not elsewhere in `prefix`. */
  lemma NoOccurrenceAfterPrefix(prefix: string, rest: string, pat: string)
    requires |pat| > 0 && !OccursAt(prefix + rest, pat, 0)
    requires forall j :: 1 <= j < |prefix| ==> prefix[j] != pat[0]
    requires IndexOf(rest, pat).None?
    ensures IndexOf(prefix + rest, pat).None?
  {
    var s := prefix + rest;
    forall j: nat ensures !OccursAt(s, pat, j) {
      if j < |prefix| {
        if 0 < j && j + |pat| <= |s| {
          assert s[j..j + |pat|][0] != pat[0];
        }
      } else {
        NotOccursInSuffix(prefix, rest, pat, j);
      }
    }
  }

  /** An `https://` server is reached over `wss://`, the rest of the URL kept,
      as long as that rest holds no `http://`. */
  lemma WsUrlOfHttps(rest: string)
    requires IndexOf(rest, "http://").None?
    ensures WsUrl("https://" + rest) == "wss://" + rest
  {
    var u := "https://" + rest;
    assert OccursAt(u, "https://", 0);
    assert ReplaceFirst(u, "https://", "wss://") == "wss://" + rest;
    assert ("wss://" + rest)[0] == 'w';
    NoOccurrenceAfterPrefix("wss://", rest, "http://");
  }

  /** An `http://` server is reached over `ws://`, the rest of the URL kept,
      as long as that rest holds no `https://`. */
  lemma WsUrlOfHttp(rest: string)
    requires IndexOf(rest, "https://").None?
    ensures WsUrl("http://" + rest) == "ws://" + rest
  {
    var u := "http://" + rest;
    assert !OccursAt(u, "https://", 0) by {
      assert u[4] == ':';
    }
    NoOccurrenceAfterPrefix("http://", rest, "https://");
    assert ReplaceFirst(u, "https://", "wss://") == u;
    assert OccursAt(u, "http://", 0);
  }

  // ----- the client -----

  /** An offer whose `pc.createOffer()` is awaited, for the connection with
      identity `connId`. */
  datatype PendingOffer = PendingOffer(peer: string, connId: nat)

  /** A `setTimeout` callback not run yet: a delayed `createOffer(peer)`, or
      the check a second after a connection reported `disconnected`. */
  datatype Timer = DelayedOffer(peer: string, delay: nat) | ReconnectCheck(peer: string, connId: nat)

  /** The `signal` messages sent on the socket by the negotiation code. */
  datatype Outgoing = OfferTo(to: string) | AnswerTo(to: string)

  class SignalingClient {
    const isHost: bool
    const isPolite: bool
    var peers: map<string, Conn>
    var nextId: nat
    var makingOffer: bool
    var ignoreOffer: bool
    var hasLocalStream: bool
    var pendingOffers: seq<PendingOffer>
    var timers: seq<Timer>
    var sent: seq<Outgoing>

    /** Every connection in the table has an identity handed out before, so a
        new connection is never mistaken for a closed one. */
    ghost predicate Valid()
      reads this
    {
      forall p :: p in peers ==> peers[p].id < nextId
    }

    /** The host is impolite, every participant polite. */
    constructor (isHost: bool)
      ensures Valid()
      ensures this.isHost == isHost && isPolite == !isHost
      ensures peers == map[] && !makingOffer && !ignoreOffer && !hasLocalStream
      ensures pendingOffers == [] && timers == [] && sent == []
    {
      this.isHost := isHost;
      isPolite := !isHost;
      peers := map[];
      nextId := 0;
      makingOffer := false;
      ignoreOffer := false;
      hasLocalStream := false;
      pendingOffers := [];
      timers := [];
      sent := [];
    }

    /** The local microphone stream became available. */
    method LocalStreamReady()
      modifies this
      ensures hasLocalStream
      ensures peers == old(peers) && nextId == old(nextId) && makingOffer == old(makingOffer)
      ensures ignoreOffer == old(ignoreOffer) && pendingOffers == old(pendingOffers)
      ensures timers == old(timers) && sent == old(sent)
    {
      hasLocalStream := true;
    }

    /** `createPeerConnection`: returns the table's connection for `name`,
        adding a fresh one only when there is none. */
    method CreatePeerConnection(name: string) returns (c: Conn)
      requires Valid()
      modifies this`peers, this`nextId
      ensures Valid()
      ensures (peers, nextId) == WithConnection(old(peers), old(nextId), name)
      ensures c == peers[name]
    {
      if name in peers {
        c := peers[name];
        return;
      }
      c := NewConn(nextId);
      peers := peers[name := c];
      nextId := nextId + 1;
    }

    /** The state `createOffer(name)` leaves, from the given table, counter,
        flag, pending offers and timers: without a local stream only a retry
        200 ms later; otherwise a connection for `name` exists and, from
        `stable`, `makingOffer` is raised and the offer awaited, while from
        any other state a retry 500 ms later is queued and `makingOffer` is
        lowered again. */
    ghost predicate OfferMade(name: string, peers0: map<string, Conn>, nextId0: nat, makingOffer0: bool,
                              pending0: seq<PendingOffer>, timers0: seq<Timer>)
      reads this
    {
      if !hasLocalStream then
        peers == peers0 && nextId == nextId0 && makingOffer == makingOffer0 &&
        pendingOffers == pending0 && timers == timers0 + [DelayedOffer(name, 200)]
      else
        (peers, nextId) == WithConnection(peers0, nextId0, name) &&
        if peers[name].signaling == Stable then
          makingOffer && timers == timers0 && pendingOffers == pending0 + [PendingOffer(name, peers[name].id)]
        else
          !makingOffer && pendingOffers == pending0 && timers == timers0 + [DelayedOffer(name, 500)]
    }

    /** `createOffer` up to the awaited `pc.createOffer()`. Without a local
        stream it only retries 200 ms later, leaving `makingOffer` alone;
        otherwise it raises `makingOffer`, makes sure a connection exists, and
        either waits for the offer (from `stable`) or retries 500 ms later and
        lowers `makingOffer` again. */
    method CreateOffer(name: string)
      requires Valid()
      modifies this
      ensures Valid()
      ensures ignoreOffer == old(ignoreOffer) && hasLocalStream == old(hasLocalStream) && sent == old(sent)
      ensures OfferMade(name, old(peers), old(nextId), old(makingOffer), old(pendingOffers), old(timers))
    {
      if !hasLocalStream {
        timers := timers + [DelayedOffer(name, 200)];
        return;
      }
      makingOffer := true;
      var c := CreatePeerConnection(name);
      if c.signaling != Stable {
        timers := timers + [DelayedOffer(name, 500)];
        makingOffer := false;
        return;
      }
      pendingOffers := pendingOffers + [PendingOffer(name, c.id)];
    }

    /** The rest of `createOffer` once the offer exists: set it locally and
        send it to the peer, or, when that is rejected, send nothing. Either
        way the `finally` block lowers the global `makingOffer`. */
    method CompleteOffer(i: nat)
      requires Valid() && i < |pendingOffers|
      modifies this
      ensures Valid()
      ensures !makingOffer
      ensures pendingOffers == old(pendingOffers[..i] + pendingOffers[i + 1..])
      ensures nextId == old(nextId) && ignoreOffer == old(ignoreOffer) && timers == old(timers)
      ensures hasLocalStream == old(hasLocalStream)
      ensures var po := old(pendingOffers[i]);
        match LocalOffer(old(peers), po.peer, po.connId)
        case Some(c) => peers == old(peers)[po.peer := c] && sent == old(sent) + [OfferTo(po.peer)]
        case None => peers == old(peers) && sent == old(sent)
    {
      var po := pendingOffers[i];
      pendingOffers := pendingOffers[..i] + pendingOffers[i + 1..];
      var offered := LocalOffer(peers, po.peer, po.connId);
      if offered.Some? {
        peers := peers[po.peer := offered.value];
        sent := sent + [OfferTo(po.peer)];
      }
      makingOffer := false;
    }

    /** `handleSignal(from, signal)`: make sure a connection exists, apply the
        perfect negotiation rules to it, and send the answer they call for. */
    method HandleSignal(from: string, s: Signal)
      requires Valid()
      modifies this
      ensures Valid()
      ensures var t := WithConnection(old(peers), old(nextId), from);
        var r := ReceiveSignal(isPolite, old(makingOffer), old(ignoreOffer), t.0[from], s);
        nextId == t.1 && peers == t.0[from := r.conn] && ignoreOffer == r.ignoreOffer &&
        sent == old(sent) + (if r.answered then [AnswerTo(from)] else [])
      ensures makingOffer == old(makingOffer) && hasLocalStream == old(hasLocalStream)
      ensures pendingOffers == old(pendingOffers) && timers == old(timers)
    {
      var c := CreatePeerConnection(from);
      var r := ReceiveSignal(isPolite, makingOffer, ignoreOffer, c, s);
      peers := peers[from := r.conn];
      ignoreOffer := r.ignoreOffer;
      if r.answered {
        sent := sent + [AnswerTo(from)];
      }
    }

    /** `existing-peer`: only a polite client offers, 100 ms later. */
    method OnExistingPeer(name: string)
      modifies this`timers
      ensures timers == old(timers) + (if isPolite then [DelayedOffer(name, 100)] else [])
    {
      if isPolite {
        timers := timers + [DelayedOffer(name, 100)];
      }
    }

    /** `new-peer`: only a polite client offers, at once. */
    method OnNewPeer(name: string)
      requires Valid()
      modifies this
      ensures Valid()
      ensures !isPolite ==>
        peers == old(peers) && nextId == old(nextId) && makingOffer == old(makingOffer) &&
        pendingOffers == old(pendingOffers) && timers == old(timers)
      ensures isPolite ==> OfferMade(name, old(peers), old(nextId), old(makingOffer), old(pendingOffers), old(timers))
      ensures sent == old(sent) && ignoreOffer == old(ignoreOffer) && hasLocalStream == old(hasLocalStream)
    {
      if isPolite {
        CreateOffer(name);
      }
    }

    /** `refresh-peer`: a peer without a connection gets an offer 200 ms
        later; a `failed` or `disconnected` connection is closed, removed and
        re-offered 300 ms later; any other connection is left alone. Unlike
        the two messages above, this one offers whatever the role. */
    method OnRefreshPeer(name: string)
      modifies this`peers, this`timers
      ensures name !in old(peers) ==> peers == old(peers) && timers == old(timers) + [DelayedOffer(name, 200)]
      ensures name in old(peers) && old(peers[name].connection) in {Failed, Disconnected} ==>
        peers == old(peers) - {name} && timers == old(timers) + [DelayedOffer(name, 300)]
      ensures name in old(peers) && old(peers[name].connection) !in {Failed, Disconnected} ==>
        peers == old(peers) && timers == old(timers)
    {
      if name !in peers {
        timers := timers + [DelayedOffer(name, 200)];
      } else if peers[name].connection == Failed || peers[name].connection == Disconnected {
        peers := peers - {name};
        timers := timers + [DelayedOffer(name, 300)];
      }
    }

    /** `peer-left`: that peer's entry is closed and removed; the others stay. */
    method OnPeerLeft(name: string)
      modifies this`peers
      ensures peers == old(peers) - {name}
      ensures name !in peers && forall p :: p != name && p in old(peers) ==> p in peers && peers[p] == old(peers[p])
    {
      if name in peers {
        peers := peers - {name};
      }
    }

    /** `onconnectionstatechange` of the connection `connId`: record the state
        and, when it is `disconnected` and the participant's status element is
        on the page, check again a second later. A closed connection reports
        nothing. */
    method OnConnectionStateChange(name: string, connId: nat, state: ConnectionState, hasStatusElement: bool)
      requires Valid()
      modifies this`peers, this`timers
      ensures Valid()
      ensures name in old(peers) && old(peers[name].id) == connId ==>
        peers == old(peers)[name := old(peers[name]).(connection := state)] &&
        timers == old(timers) + (if state == Disconnected && hasStatusElement then [ReconnectCheck(name, connId)] else [])
      ensures !(name in old(peers) && old(peers[name].id) == connId) ==> peers == old(peers) && timers == old(timers)
    {
      if name in peers && peers[name].id == connId {
        peers := peers[name := peers[name].(connection := state)];
        if state == Disconnected && hasStatusElement {
          timers := timers + [ReconnectCheck(name, connId)];
        }
      }
    }

    /** Runs the `i`-th pending timer: a delayed offer is made; a reconnect
        check offers again only if that same connection is still
        `disconnected`. */
    method FireTimer(i: nat)
      requires Valid() && i < |timers|
      modifies this
      ensures Valid()
      ensures ignoreOffer == old(ignoreOffer) && sent == old(sent) && hasLocalStream == old(hasLocalStream)
      ensures (old(timers[i]).ReconnectCheck? &&
               !(old(timers[i]).peer in old(peers) && old(peers[timers[i].peer]).id == old(timers[i]).connId &&
                 old(peers[timers[i].peer]).connection == Disconnected)) ==>
        peers == old(peers) && nextId == old(nextId) && makingOffer == old(makingOffer) &&
        pendingOffers == old(pendingOffers) && timers == old(timers[..i] + timers[i + 1..])
      ensures old(timers[i]).DelayedOffer? ==>
        OfferMade(old(timers[i]).peer, old(peers), old(nextId), old(makingOffer), old(pendingOffers),
                  old(timers[..i] + timers[i + 1..]))
      ensures (old(timers[i]).ReconnectCheck? &&
               old(timers[i]).peer in old(peers) && old(peers[timers[i].peer]).id == old(timers[i]).connId &&
               old(peers[timers[i].peer]).connection == Disconnected) ==>
        OfferMade(old(timers[i]).peer, old(peers), old(nextId), old(makingOffer), old(pendingOffers),
                  old(timers[..i] + timers[i + 1..]))
    {
      var t := timers[i];
      timers := timers[..i] + timers[i + 1..];
      match t
      case DelayedOffer(peer, _) =>
        CreateOffer(peer);
      case ReconnectCheck(peer, connId) =>
        if peer in peers && peers[peer].id == connId && peers[peer].connection == Disconnected {
          CreateOffer(peer);
        }
    }
  }
}
