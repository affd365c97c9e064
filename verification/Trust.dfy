/** Who is trusted after a poll and after the callbacks, in terms of the keys that are
    known, of the events and of what the callbacks said. */
module Trust {
  import opened Bytes
  import opened Requests
  import opened Registry
  import opened Promotion

  // ----- a handshake that ends -------------------------------------------------------

  /** Polling ends this handshake, with a protocol. */
  ghost predicate Finishes(r: Registry, listener: int, w: World, fd: int) {
    && fd in PollEvents(r, listener, w).handled && fd in r.handshake
    && var act := w.activity(fd);
       act.error.None? && act.connected && (r.handshake[fd].negotiated || act.negotiates)
  }

  lemma NotFresh(r: Registry, listener: int, w: World, fd: int)
    requires Valid(r, listener) && Fresh(r, w) && !PlaceOf(r, fd).Nowhere?
    ensures w.accepted.Success? ==> w.accepted.value.0 != fd
    ensures fd != listener
  {
    assert fd in Fds(r.fds, 1);
    assert forall x :: x in Fds(r.fds, 1) ==> x in Fds(r.fds, 0);
    assert r.fds[0].fd == listener;
  }

  lemma InHandshake(r: Registry, listener: int, fd: int)
    requires Valid(r, listener)
    ensures PlaceOf(r, fd).Handshaking? <==> fd in r.handshake
    ensures fd in r.handshake ==> PlaceOf(r, fd) == Handshaking(r.handshake[fd])
    ensures PlaceOf(r, fd).Awaiting? <==> fd in r.pending
    ensures fd in r.pending ==> PlaceOf(r, fd) == Awaiting(r.pending[fd])
    ensures PlaceOf(r, fd).Connected? <==> fd in r.peers
    ensures fd in r.peers ==> PlaceOf(r, fd) == Connected(r.peers[fd])
  {
  }

  /** A connection in the handshake is among the peers after a poll exactly when its
      handshake ended with a protocol and its uuid is known with its very key; it waits for
      approval exactly when the uuid is not known; and with another key known for it the
      poll ends there, with an exception, and it stays. */
  lemma HandshakeEndsIff(r: Registry, listener: int, w: World, fd: int)
    requires Valid(r, listener) && Fresh(r, w) && !w.interrupted && fd in r.handshake
    ensures var p, c := PollEvents(r, listener, w), r.handshake[fd];
      var ends, stored := Finishes(r, listener, w, fd), if c.uuid in r.known then Some(r.known[c.uuid]) else None;
      && (fd in p.r.peers <==> ends && stored == Some(c.key))
      && (fd in p.r.pending <==> ends && stored.None?)
      && (fd in p.r.peers ==> p.r.peers[fd] == c.(negotiated := true))
      && (fd in p.r.pending ==> p.r.pending[fd] == c.(negotiated := true))
      && (ends && stored.Some? && stored != Some(c.key) ==>
            p.error == Some(DifferentKey) && p.handled != [] && p.handled[|p.handled| - 1] == fd && fd in p.r.handshake)
      && (p.error.Some? && p.handled != [] && p.handled[|p.handled| - 1] == fd && w.activity(fd).error.None? ==>
            ends && stored.Some? && stored != Some(c.key))
  {
    EachHandledOnce(r, listener, w);
    var p := PollEvents(r, listener, w);
    hide PollEvents, Valid, NoRepeat, EventsOf;
    InHandshake(r, listener, fd);
    InHandshake(p.r, listener, fd);
    NotFresh(r, listener, w, fd);
    assert PlaceOf(p.r, fd) == PlaceAfter(r, listener, p, w, fd);
    assert ErrorOf(r, listener, fd, w) == TouchedAt(r, fd, w).error;
    if fd in p.handled {
      var k :| 0 <= k < |p.handled| && p.handled[k] == fd;
      assert ErrorOf(r, listener, p.handled[k], w) == if k == |p.handled| - 1 then p.error else None;
    }
  }

  // ----- the events of a pass ------------------------------------------------------------

  /** A CONNECT event stands for exactly those whose handshake ended in this pass and who
      are not known. */
  lemma ConnectEventIff(r: Registry, listener: int, w: World, fd: int, c: Connection)
    requires Valid(r, listener) && Fresh(r, w) && !w.interrupted && r.events == []
    ensures var p := PollEvents(r, listener, w);
      ConnectEvent(fd, c) in p.r.events
      <==> Finishes(r, listener, w, fd) && c == r.handshake[fd].(negotiated := true) && c.uuid !in r.known
  {
    EachHandledOnce(r, listener, w);
    var p := PollEvents(r, listener, w);
    InHandshake(r, listener, fd);
    hide PollEvents, Valid, NoRepeat, PlaceOf;
    assert [] + EventsOf(p.handled, r, w) == EventsOf(p.handled, r, w);
    EventsOfIff(p.handled, r, w, ConnectEvent(fd, c));
    OneConnectIff(r, fd, w, c);
  }

  lemma OneConnectIff(r: Registry, fd: int, w: World, c: Connection)
    ensures ConnectEvent(fd, c) in TouchedAt(r, fd, w).events <==>
      && PlaceOf(r, fd).Handshaking?
      && w.activity(fd).error.None? && w.activity(fd).connected
      && (PlaceOf(r, fd).c.negotiated || w.activity(fd).negotiates)
      && c == PlaceOf(r, fd).c.(negotiated := true) && c.uuid !in r.known
  {
  }

  lemma TouchedNames(r: Registry, fd: int, w: World)
    ensures forall e :: e in TouchedAt(r, fd, w).events ==> e.fd == fd
  {
  }

  lemma {:induction false} EventsOfIff(handled: seq<int>, r: Registry, w: World, e: Event)
    ensures e in EventsOf(handled, r, w) <==> e.fd in handled && e in TouchedAt(r, e.fd, w).events
  {
    hide Touch, PlaceOf;
    if handled != [] {
      EventsOfIff(handled[1..], r, w, e);
      TouchedNames(r, handled[0], w);
      assert e.fd in handled <==> e.fd == handled[0] || e.fd in handled[1..];
    }
  }

  /** The requests that these events pass on from one connection, in order. */
  function RequestsFrom(es: seq<Event>, fd: int): seq<Request> {
    if es == [] then []
    else (if es[0].RequestEvent? && es[0].fd == fd then [es[0].request] else []) + RequestsFrom(es[1..], fd)
  }

  lemma {:induction false} FromBoth(a: seq<Event>, b: seq<Event>, fd: int)
    ensures RequestsFrom(a + b, fd) == RequestsFrom(a, fd) + RequestsFrom(b, fd)
  {
    if a == [] {
      assert a + b == b;
    } else {
      assert (a + b)[1..] == a[1..] + b;
      FromBoth(a[1..], b, fd);
    }
  }

  lemma {:induction false} FromOthers(es: seq<Event>, fd: int)
    requires forall e :: e in es ==> e.fd != fd
    ensures RequestsFrom(es, fd) == []
  {
    if es != [] {
      assert es[0] in es;
      FromOthers(es[1..], fd);
    }
  }

  lemma {:induction false} FromOne(es: seq<Event>, fd: int, rs: seq<Request>)
    requires |es| == |rs| && forall i :: 0 <= i < |es| ==> es[i] == RequestEvent(fd, rs[i])
    ensures RequestsFrom(es, fd) == rs
  {
    if es != [] { FromOne(es[1..], fd, rs[1..]); }
  }

  lemma TouchedRequests(r: Registry, fd: int, w: World)
    ensures RequestsFrom(TouchedAt(r, fd, w).events, fd) ==
      if PlaceOf(r, fd).Connected? && w.activity(fd).error.None? then w.activity(fd).requests else []
  {
    var act := w.activity(fd);
    if PlaceOf(r, fd).Connected? && act.error.None? {
      FromOne(TouchedAt(r, fd, w).events, fd, act.requests);
    }
  }

  lemma {:induction false} HandledRequests(handled: seq<int>, r: Registry, w: World, fd: int)
    requires NoRepeat(handled)
    ensures RequestsFrom(EventsOf(handled, r, w), fd) ==
      if fd in handled && PlaceOf(r, fd).Connected? && w.activity(fd).error.None? then w.activity(fd).requests else []
  {
    hide Touch, PlaceOf;
    if handled != [] {
      var x, rest := handled[0], handled[1..];
      HandledRequests(rest, r, w, fd);
      FromBoth(TouchedAt(r, x, w).events, EventsOf(rest, r, w), fd);
      TouchedNames(r, x, w);
      if x == fd { TouchedRequests(r, fd, w); } else { FromOthers(TouchedAt(r, x, w).events, fd); }
      assert fd in handled <==> fd == x || fd in rest;
      assert x !in rest;
    }
  }

  /** A pass passes on just the requests that a trusted connection brought, each once and
      in order, and none of anybody else's. */
  lemma RequestsPassedOn(r: Registry, listener: int, w: World, fd: int)
    requires Valid(r, listener) && Fresh(r, w) && !w.interrupted
    ensures var p := PollEvents(r, listener, w);
      && r.events <= p.r.events
      && RequestsFrom(p.r.events[|r.events|..], fd) ==
         if fd in p.handled && fd in r.peers && w.activity(fd).error.None? then w.activity(fd).requests else []
  {
    EachHandledOnce(r, listener, w);
    InHandshake(r, listener, fd);
    hide PollEvents, Valid, PlaceOf;
    var p := PollEvents(r, listener, w);
    assert p.r.events[|r.events|..] == EventsOf(p.handled, r, w);
    HandledRequests(p.handled, r, w, fd);
  }

  // ----- the callbacks ---------------------------------------------------------------

  /** The callback accepts this connection, which a CONNECT event names. */
  ghost predicate Welcome(es: seq<Event>, accepts: Connection -> bool, fd: int, c: Connection) {
    ConnectEvent(fd, c) in es && accepts(c)
  }

  /** No two of the welcome connections claim a uuid with different keys, and none claims a
      known one with a key of its own. */
  ghost predicate NoClash(known: map<bytes, bytes>, es: seq<Event>, accepts: Connection -> bool) {
    && (forall fd, c :: Welcome(es, accepts, fd, c) && c.uuid in known ==> known[c.uuid] == c.key)
    && (forall fd, c, fd', c' :: Welcome(es, accepts, fd, c) && Welcome(es, accepts, fd', c') && c.uuid == c'.uuid
          ==> c.key == c'.key)
  }

  /** Just the welcome ones have moved to the peers. */
  ghost predicate OnlyWelcome(r: Registry, r': Registry, es: seq<Event>, accepts: Connection -> bool) {
    && (forall fd, c :: Welcome(es, accepts, fd, c) ==> PlaceOf(r', fd) == Connected(c))
    && (forall fd :: (forall c :: !Welcome(es, accepts, fd, c)) ==> PlaceOf(r', fd) == PlaceOf(r, fd))
  }

  /** Just their keys have been added to those known. */
  ghost predicate KeysAdded(known: map<bytes, bytes>, known': map<bytes, bytes>, es: seq<Event>,
                            accepts: Connection -> bool) {
    && (forall u :: u in known ==> u in known' && known'[u] == known[u])
    && (forall fd, c :: Welcome(es, accepts, fd, c) ==> c.uuid in known' && known'[c.uuid] == c.key)
    && (forall u :: u in known' && u !in known ==> exists fd, c :: Welcome(es, accepts, fd, c) && c.uuid == u)
  }

  lemma WelcomeFirst(es: seq<Event>, accepts: Connection -> bool)
    requires es != []
    ensures forall fd, c :: Welcome(es, accepts, fd, c) <==>
      (es[0] == ConnectEvent(fd, c) && accepts(c)) || Welcome(es[1..], accepts, fd, c)
  {
    assert es == [es[0]] + es[1..];
  }

  /** One acceptance of a connection that waits. */
  lemma AcceptIs(r: Registry, fd: int, c: Connection)
    requires Apart(r) && fd in r.pending && c.negotiated
    ensures var out := AcceptPeer(r, fd, c, false);
      if c.uuid in r.known && r.known[c.uuid] != c.key then out == Outcome(r, Some(DifferentKey))
      else
        && out.error.None? && Apart(out.r)
        && out.r.pending == r.pending - {fd} && out.r.events == r.events
        && out.r.known == r.known[c.uuid := c.key]
        && forall x :: PlaceOf(out.r, x) == if x == fd then Connected(c) else PlaceOf(r, x)
  {
    if c.uuid in r.known && r.known[c.uuid] == c.key { assert r.known[c.uuid := c.key] == r.known; }
  }

  ghost predicate Negotiated(es: seq<Event>) {
    forall i :: 0 <= i < |es| && es[i].ConnectEvent? ==> es[i].peer.negotiated
  }

  lemma {:induction false} ProcessIs(r: Registry, es: seq<Event>, accepts: Connection -> bool)
    requires Apart(r) && AllPending(r, es) && Negotiated(es)
    ensures var out := Process(r, es, accepts);
      && (out.error.None? <==> NoClash(r.known, es, accepts))
      && (out.error.Some? ==> out.error == Some(DifferentKey))
      && (out.error.None? ==>
            OnlyWelcome(r, out.r, es, accepts) && KeysAdded(r.known, out.r.known, es, accepts)
            && out.r.events == r.events)
    decreases |es|
  {
    hide PlaceOf, Apart, AcceptPeer;
    if es != [] {
      var rest := es[1..];
      WelcomeFirst(es, accepts);
      assert Negotiated(rest);
      if es[0].ConnectEvent? && accepts(es[0].peer) {
        var ConnectEvent(fd, c) := es[0];
        AcceptIs(r, fd, c);
        var out := AcceptPeer(r, fd, c, false);
        assert Welcome(es, accepts, fd, c);
        if out.error.None? {
          StillPending(r, es, out.r);
          ProcessIs(out.r, rest, accepts);
          ClashStep(r.known, es, accepts);
          OtherDescriptor(es, accepts);
          WelcomeStep(r, out.r, Process(out.r, rest, accepts).r, es, accepts);
        }
      } else {
        assert AllPending(r, rest);
        ProcessIs(r, rest, accepts);
        SameWelcome(r, Process(r, rest, accepts).r, es, accepts);
      }
    }
  }

  /** Nothing else among the events names the first one's descriptor. */
  lemma OtherDescriptor(es: seq<Event>, accepts: Connection -> bool)
    requires es != [] && es[0].ConnectEvent? && ConnectsOnce(es)
    ensures forall c :: !Welcome(es[1..], accepts, es[0].fd, c)
  {
    assert forall i :: 0 <= i < |es| - 1 ==> es[1..][i] == es[i + 1];
  }

  lemma ClashStep(known: map<bytes, bytes>, es: seq<Event>, accepts: Connection -> bool)
    requires es != [] && es[0].ConnectEvent? && accepts(es[0].peer)
    requires es[0].peer.uuid in known ==> known[es[0].peer.uuid] == es[0].peer.key
    ensures NoClash(known, es, accepts)
      <==> NoClash(known[es[0].peer.uuid := es[0].peer.key], es[1..], accepts)
  {
    WelcomeFirst(es, accepts);
    hide Welcome;
    var c0 := es[0].peer;
    var known' := known[c0.uuid := c0.key];
    assert Welcome(es, accepts, es[0].fd, c0);
    if NoClash(known', es[1..], accepts) {
      forall fd, c | Welcome(es, accepts, fd, c) ensures c.uuid in known' ==> known'[c.uuid] == c.key {}
    }
  }

  lemma WelcomeStep(r: Registry, mid: Registry, r': Registry, es: seq<Event>, accepts: Connection -> bool)
    requires es != [] && es[0].ConnectEvent? && accepts(es[0].peer)
    requires es[0].peer.uuid in r.known ==> r.known[es[0].peer.uuid] == es[0].peer.key
    requires forall c :: !Welcome(es[1..], accepts, es[0].fd, c)
    requires forall x :: PlaceOf(mid, x) == if x == es[0].fd then Connected(es[0].peer) else PlaceOf(r, x)
    requires mid.known == r.known[es[0].peer.uuid := es[0].peer.key]
    ensures OnlyWelcome(mid, r', es[1..], accepts) ==> OnlyWelcome(r, r', es, accepts)
    ensures KeysAdded(mid.known, r'.known, es[1..], accepts) ==> KeysAdded(r.known, r'.known, es, accepts)
  {
    hide PlaceOf;
    WelcomeFirst(es, accepts);
    hide Welcome;
    assert Welcome(es, accepts, es[0].fd, es[0].peer);
  }

  lemma SameWelcome(r: Registry, r': Registry, es: seq<Event>, accepts: Connection -> bool)
    requires es != [] && !(es[0].ConnectEvent? && accepts(es[0].peer))
    ensures NoClash(r.known, es[1..], accepts) <==> NoClash(r.known, es, accepts)
    ensures OnlyWelcome(r, r', es[1..], accepts) ==> OnlyWelcome(r, r', es, accepts)
    ensures KeysAdded(r.known, r'.known, es[1..], accepts) ==> KeysAdded(r.known, r'.known, es, accepts)
  {
    hide PlaceOf;
    WelcomeFirst(es, accepts);
    hide Welcome;
  }

  /** With no event left over and a poll that does not throw: after `process_events` every
      descriptor is where the poll left it, but for the peers whose CONNECT event the callback
      accepted, which are trusted; just their keys have been added; and the events are gone.
      It throws exactly when two of those claim one uuid with different keys. */
  lemma ProcessEventsIs(r: Registry, listener: int, w: World, accepts: Connection -> bool)
    requires Sound(r, listener) && Fresh(r, w) && !w.interrupted && r.events == []
    requires PollEvents(r, listener, w).error.None?
    ensures var p, out := PollEvents(r, listener, w), ProcessEvents(r, listener, w, accepts);
      && (out.error.None? ==>
            OnlyWelcome(p.r, out.r, p.r.events, accepts) && KeysAdded(r.known, out.r.known, p.r.events, accepts)
            && out.r.events == [])
      && (out.error.Some? <==>
            exists fd, c, fd', c' ::
              && Welcome(p.r.events, accepts, fd, c) && Welcome(p.r.events, accepts, fd', c')
              && c.uuid == c'.uuid && c.key != c'.key)
      && (out.error.Some? ==> out.error == Some(DifferentKey))
  {
    PollKeeps(r, listener, w);
    var p := PollEvents(r, listener, w);
    AskedArePending(r, listener, w);
    assert Valid(r, listener) && Apart(p.r) by { SoundIsValid(r, listener); SoundIsValid(p.r, listener); }
    EachHandledOnce(r, listener, w);
    forall fd, c | ConnectEvent(fd, c) in p.r.events ensures c.uuid !in p.r.known {
      ConnectEventIff(r, listener, w, fd, c);
    }
    hide PollEvents, Sound, Touch, Process, PlaceOf, Valid, Passed, Threw, ErrorOf;
    forall i | 0 <= i < |p.r.events| && p.r.events[i].ConnectEvent? ensures p.r.events[i].peer.negotiated {
      PendingNegotiated(p.r, listener, p.r.events[i].fd);
    }
    ProcessIs(p.r, p.r.events, accepts);
    var mid := Process(p.r, p.r.events, accepts).r;
    AsideKeepsPlaces(mid);
  }

  lemma AsideKeepsPlaces(r: Registry)
    ensures forall x :: PlaceOf(r.(events := []), x) == PlaceOf(r, x)
  {
  }

  /** The CONNECT events of a pass are of different peers, all waiting. */
  lemma AskedArePending(r: Registry, listener: int, w: World)
    requires Sound(r, listener) && Fresh(r, w) && !w.interrupted && r.events == []
    ensures AllPending(PollEvents(r, listener, w).r, PollEvents(r, listener, w).r.events)
    ensures PollEvents(r, listener, w).r.known == r.known
  {
    assert Valid(r, listener) by { SoundIsValid(r, listener); }
    EventsNamePeers(r, listener, w);
    EachHandledOnce(r, listener, w);
    hide PollEvents, Sound, Touch, PlaceOf, Valid;
    var p := PollEvents(r, listener, w);
    ConnectOnce(p.handled, r, w);
    assert p.r.events[|r.events|..] == p.r.events == EventsOf(p.handled, r, w);
    forall i | 0 <= i < |p.r.events| && p.r.events[i].ConnectEvent?
      ensures p.r.events[i].fd in p.r.pending && p.r.pending[p.r.events[i].fd] == p.r.events[i].peer
    {
      assert p.r.events[i] in p.r.events[|r.events|..];
    }
  }

  // ----- what cannot be accepted, handled or polled ---------------------------------------

  /** Accepting anybody at all, in the order of the source: the key first, for good only; then
      it waits no more; then it must have a protocol, and not be among the peers already. */
  lemma AcceptPeerIs(r: Registry, fd: int, c: Connection, temporary: bool)
    ensures var out, clash := AcceptPeer(r, fd, c, temporary), c.uuid in r.known && r.known[c.uuid] != c.key;
      && (!temporary && clash ==> out == Outcome(r, Some(DifferentKey)))
      && (temporary || !clash ==>
            && out.r.known == (if temporary then r.known else r.known[c.uuid := c.key])
            && out.r.pending == r.pending - {fd} && out.r.handshake == r.handshake
            && out.r.fds == r.fds && out.r.events == r.events
            && out.error == (if !c.negotiated then Some(NoProtocol)
                             else if fd in r.peers then Some(AlreadyConnected) else None)
            && out.r.peers == if out.error.Some? then r.peers else r.peers[fd := c])
  {
    if c.uuid in r.known && r.known[c.uuid] == c.key { assert r.known[c.uuid := c.key] == r.known; }
  }

  /** Calling somebody: without a protocol nothing changes; else its descriptor is polled from
      now on, and it is a peer, unless there is one under it already. */
  lemma ConnectIs(r: Registry, fd: int, c: Connection)
    ensures var out := Connect(r, fd, c);
      if !c.negotiated then out == Outcome(r, Some(NoProtocol))
      else
        && out.error == (if fd in r.peers then Some(AlreadyConnected) else None)
        && out.r == r.(fds := r.fds + [PollFd(fd, Quiet)], peers := if fd in r.peers then r.peers else r.peers[fd := c])
  {
  }

  /** A ready descriptor without a connection is dropped from the array, and that is all. */
  lemma StrangerDropped(r: Registry, i: nat, act: Activity)
    requires i < |r.fds| && Distinct(r.fds) && PlaceOf(r, r.fds[i].fd).Nowhere?
    ensures var h := Handle(r, i, act);
      && h.error.None? && h.next == i && h.r == r.(fds := h.r.fds)
      && |h.r.fds| == |r.fds| - 1 && Fds(h.r.fds, 0) == Fds(r.fds, 0) - {r.fds[i].fd}
  {
    DeleteMoveIs(r.fds, i, 0);
    hide DeleteMove;
  }

  /** A poll that fails does nothing. */
  lemma InterruptedPoll(r: Registry, listener: int, w: World)
    requires w.interrupted
    ensures PollEvents(r, listener, w) == Pass(r, [], None)
  {
  }

  // ----- the keys that are known -----------------------------------------------------------

  /** The step accepts, for good, a connection with this uuid and key, which waits. */
  ghost predicate Learns(s: Server, op: Op, uuid: bytes, key: bytes) {
    && op.Accept? && !op.temporary && op.c.uuid == uuid && op.c.key == key
    && op.fd in s.r.pending && s.r.pending[op.fd] == op.c
  }

  lemma KnownStep(s: Server, op: Op, uuid: bytes)
    requires Sound(s.r, s.listener) && Allowed(s, op)
    ensures var known, known' := s.r.known, Next(s, op).r.known;
      && (uuid in known ==> uuid in known' && known'[uuid] == known[uuid])
      && (uuid in known' && uuid !in known ==> Learns(s, op, uuid, known'[uuid]))
      && (op.Accept? && !op.temporary && op.c.uuid !in known ==> op.c.uuid in known' && known'[op.c.uuid] == op.c.key)
  {
    hide PollEvents, Fds, PlaceOf;
    if op.Poll? {
      assert Valid(s.r, s.listener);
      EachHandledOnce(s.r, s.listener, op.w);
    }
  }

  ghost predicate LearnsAt(listener: int, ops: seq<Op>, k: nat, uuid: bytes, key: bytes) {
    k < |ops| && Learns(Run(listener, ops[..k]), ops[k], uuid, key)
  }

  /** On every run each known key was put there when a connection that waited was accepted
      for good, and has never been overwritten since. */
  lemma {:induction false} KnownHistory(listener: int, ops: seq<Op>, uuid: bytes) returns (k: nat)
    requires Legal(listener, ops) && uuid in Run(listener, ops).r.known
    ensures LearnsAt(listener, ops, k, uuid, Run(listener, ops).r.known[uuid])
    ensures uuid !in Run(listener, ops[..k]).r.known
    ensures forall m :: k < m <= |ops| ==>
      uuid in Run(listener, ops[..m]).r.known
      && Run(listener, ops[..m]).r.known[uuid] == Run(listener, ops).r.known[uuid]
  {
    hide Sound, Next, Legal, Allowed, Learns;
    var n := |ops| - 1;
    if ops == [] { assert false by { NothingKnown(listener); } }
    LegalBefore(listener, ops, n);
    AlwaysSound(listener, ops[..n]);
    assert Allowed(Run(listener, ops[..n]), ops[n]) by { AllowedAt(listener, ops, n); }
    KnownStep(Run(listener, ops[..n]), ops[n], uuid);
    assert ops[..|ops|] == ops;
    if uuid in Run(listener, ops[..n]).r.known {
      k := KnownHistory(listener, ops[..n], uuid);
      assert ops[..n][..k] == ops[..k];
      forall m | k < m <= |ops|
        ensures uuid in Run(listener, ops[..m]).r.known
          && Run(listener, ops[..m]).r.known[uuid] == Run(listener, ops).r.known[uuid]
      {
        if m <= n { assert ops[..n][..m] == ops[..m]; } else { assert ops[..m] == ops; }
      }
    } else {
      k := n;
      forall m | k < m <= |ops| ensures ops[..m] == ops {}
    }
  }

  lemma NothingKnown(listener: int)
    ensures Run(listener, []).r.known == map[]
  {
  }

  /** Who is trusted on finding the key known is the very one accepted before, under its key. */
  lemma KnownWasAccepted(listener: int, ops: seq<Op>, fd: int) returns (k: nat, j: nat)
    requires Legal(listener, ops) && fd in Run(listener, ops).r.peers
    ensures k < |ops| && TrustedAt(listener, ops, k, fd) && Since(listener, ops, k, fd)
    ensures ops[k].Poll? ==>
      j < k && LearnsAt(listener, ops, j, Run(listener, ops).r.peers[fd].uuid, Run(listener, ops).r.peers[fd].key)
  {
    hide Run, Legal, Next, Sound, Allowed, Since, PollEvents, Learns;
    k := PromotionHistory(listener, ops, fd);
    j := 0;
    if ops[k].Poll? {
      LegalBefore(listener, ops, k);
      var c := PlaceOf(Next(Run(listener, ops[..k]), ops[k]).r, fd).c;
      OneStep(listener, ops, k);
      assert Run(listener, ops[..k + 1]) == Next(Run(listener, ops[..k]), ops[k]);
      SinceThen(listener, ops, k, fd);
      j := KnownHistory(listener, ops[..k], c.uuid);
      assert ops[..k][..j] == ops[..j];
    }
  }

  lemma OneStep(listener: int, ops: seq<Op>, k: nat)
    requires k < |ops|
    ensures Run(listener, ops[..k + 1]) == Next(Run(listener, ops[..k]), ops[k])
  {
    hide Next;
    assert ops[..k + 1][..k] == ops[..k];
  }

  lemma SinceThen(listener: int, ops: seq<Op>, k: nat, fd: int)
    requires k < |ops| && Since(listener, ops, k, fd)
    ensures PlaceOf(Run(listener, ops[..k + 1]).r, fd) == PlaceOf(Run(listener, ops).r, fd)
  {
    hide Run, PlaceOf;
  }
}
