/** Whole runs of the server: how a connection comes to be trusted. */
module Promotion {
  import opened Bytes
  import opened Requests
  import opened Registry

  // ----- the other operations --------------------------------------------------

  datatype Outcome = Outcome(r: Registry, error: Option<Error>)

  function InsertPeer(r: Registry, fd: int, c: Connection): Outcome {
    if !c.negotiated then Outcome(r, Some(NoProtocol))
    else if fd in r.peers then Outcome(r, Some(AlreadyConnected))
    else Outcome(r.(peers := r.peers[fd := c]), None)
  }

  function AcceptPeer(r: Registry, fd: int, c: Connection, temporary: bool): Outcome {
    if !temporary && Remember(r.known, c).Failure? then Outcome(r, Some(DifferentKey))
    else
      InsertPeer(r.(known := if temporary then r.known else Remember(r.known, c).value,
                    pending := r.pending - {fd}), fd, c)
  }

  /** A connection made from here; `c` is what its handshake led to. */
  function Connect(r: Registry, fd: int, c: Connection): Outcome {
    if !c.negotiated then Outcome(r, Some(NoProtocol))
    else InsertPeer(r.(fds := r.fds + [PollFd(fd, Quiet)]), fd, c)
  }

  /** The callbacks of `process_events`: connections are accepted or left pending. */
  function Process(r: Registry, es: seq<Event>, accepts: Connection -> bool): Outcome
    decreases |es|
  {
    if es == [] then Outcome(r, None)
    else if es[0].ConnectEvent? && accepts(es[0].peer) then
      var out := AcceptPeer(r, es[0].fd, es[0].peer, false);
      if out.error.Some? then out else Process(out.r, es[1..], accepts)
    else Process(r, es[1..], accepts)
  }

  // ----- what they keep --------------------------------------------------------

  /** In step, and nobody waits for approval or is trusted without a protocol. */
  ghost predicate Sound(r: Registry, listener: int) {
    && Valid(r, listener)
    && (forall x :: x in r.pending ==> r.pending[x].negotiated)
    && (forall x :: x in r.peers ==> r.peers[x].negotiated)
  }

  /** Accepting a peer keeps the registry in step exactly when the peer still waits
      for approval: one that has gone would be trusted and never polled. */
  lemma AcceptKeepsIff(r: Registry, listener: int, fd: int, c: Connection, temporary: bool)
    requires Sound(r, listener) && AcceptPeer(r, fd, c, temporary).error.None?
    ensures Sound(AcceptPeer(r, fd, c, temporary).r, listener) <==> fd in r.pending
  {
    hide Distinct, Fds;
    var r' := AcceptPeer(r, fd, c, temporary).r;
    assert PlaceOf(r', fd) == Connected(c);
    assert PlaceOf(r, fd).Nowhere? || fd in r.pending || fd in r.handshake;
  }

  /** An acceptance that throws leaves it in step as well. */
  lemma RefusedAcceptKeeps(r: Registry, listener: int, fd: int, c: Connection, temporary: bool)
    requires Sound(r, listener) && AcceptPeer(r, fd, c, temporary).error.Some?
    requires c.negotiated
    ensures Sound(AcceptPeer(r, fd, c, temporary).r, listener)
    ensures forall x :: PlaceOf(AcceptPeer(r, fd, c, temporary).r, x) == PlaceOf(r, x)
  {
    hide Distinct, Fds;
  }

  lemma AcceptMoves(r: Registry, fd: int, c: Connection, temporary: bool)
    requires Apart(r) && fd in r.pending && c.negotiated && AcceptPeer(r, fd, c, temporary).error.None?
    ensures var r' := AcceptPeer(r, fd, c, temporary).r;
      forall x :: PlaceOf(r', x) == if x == fd then Connected(c) else PlaceOf(r, x)
  {
  }

  lemma ConnectKeeps(r: Registry, listener: int, fd: int, c: Connection)
    requires Sound(r, listener) && fd !in Fds(r.fds, 0)
    ensures var out := Connect(r, fd, c);
      && Sound(out.r, listener)
      && (out.error.None? <==> c.negotiated)
      && forall x :: PlaceOf(out.r, x) == if x == fd && c.negotiated then Connected(c) else PlaceOf(r, x)
  {
    AppendIs(r.fds, 1, fd);
    assert r.fds[0].fd in Fds(r.fds, 0);
    assert forall x :: x in Fds(r.fds, 1) ==> x in Fds(r.fds, 0);
    assert PlaceOf(r, fd).Nowhere?;
    hide Distinct, Fds;
  }

  lemma TouchSound(place: Place, fd: int, act: Activity, known: map<bytes, bytes>)
    requires (place.Awaiting? || place.Connected?) ==> place.c.negotiated
    ensures var t := Touch(place, fd, act, known).place;
      (t.Awaiting? || t.Connected?) ==> t.c.negotiated
  {
  }

  /** A pass keeps the registry sound. */
  lemma PollKeeps(r: Registry, listener: int, w: World)
    requires Sound(r, listener) && Fresh(r, w) && !w.interrupted
    ensures Sound(PollEvents(r, listener, w).r, listener)
  {
    EachHandledOnce(r, listener, w);
    var p := PollEvents(r, listener, w);
    hide Valid, PollEvents, Touch, EventsOf, NoRepeat;
    forall x ensures var t := PlaceOf(p.r, x); (t.Awaiting? || t.Connected?) ==> t.c.negotiated {
      TouchSound(PlaceOf(r, x), x, w.activity(x), r.known);
      assert PlaceOf(p.r, x) == PlaceAfter(r, listener, p, w, x);
    }
    PlacesSound(p.r, listener);
  }

  lemma PlacesSound(r: Registry, listener: int)
    requires Valid(r, listener)
    requires forall x :: var t := PlaceOf(r, x); (t.Awaiting? || t.Connected?) ==> t.c.negotiated
    ensures Sound(r, listener)
  {
    forall x | x in r.pending ensures r.pending[x].negotiated { assert PlaceOf(r, x) == Awaiting(r.pending[x]); }
    forall x | x in r.peers ensures r.peers[x].negotiated { assert PlaceOf(r, x) == Connected(r.peers[x]); }
  }

  // ----- what the events name ----------------------------------------------------

  /** An event of a pass: a request from a peer trusted when the pass began, or a
      peer that the pass leaves waiting for approval. */
  ghost predicate Named(e: Event, handled: seq<int>, r: Registry, w: World) {
    && e.fd in handled
    && match e
       case RequestEvent(fd, request) => PlaceOf(r, fd).Connected? && request in w.activity(fd).requests
       case ConnectEvent(fd, c) => TouchedAt(r, fd, w).place == Awaiting(c)
  }

  lemma TouchNamed(r: Registry, fd: int, w: World, handled: seq<int>)
    requires fd in handled
    ensures forall e :: e in TouchedAt(r, fd, w).events ==> Named(e, handled, r, w) && e.fd == fd
  {
  }

  lemma {:induction false} EventsNamed(handled: seq<int>, r: Registry, w: World)
    ensures forall e :: e in EventsOf(handled, r, w) ==> Named(e, handled, r, w)
  {
    if handled != [] {
      EventsNamed(handled[1..], r, w);
      TouchNamed(r, handled[0], w, handled);
      forall e | e in EventsOf(handled[1..], r, w) ensures Named(e, handled, r, w) {
        assert Named(e, handled[1..], r, w);
      }
    }
  }

  /** REQUEST events name only connections in `m_peers`, CONNECT events only those
      that end up pending, with the peer that waits there. */
  lemma EventsNamePeers(r: Registry, listener: int, w: World)
    requires Valid(r, listener) && Fresh(r, w) && !w.interrupted
    ensures var p := PollEvents(r, listener, w);
      && r.events <= p.r.events
      && forall e :: e in p.r.events[|r.events|..] ==>
           match e
           case RequestEvent(fd, _) => fd in r.peers
           case ConnectEvent(fd, c) => fd in p.r.pending && p.r.pending[fd] == c
  {
    EachHandledOnce(r, listener, w);
    hide PollEvents, Valid, NoRepeat, Touch;
    var p := PollEvents(r, listener, w);
    EventsNamed(p.handled, r, w);
    assert p.r.events[|r.events|..] == EventsOf(p.handled, r, w);
    forall e | e in EventsOf(p.handled, r, w) && e.ConnectEvent? ensures PlaceOf(p.r, e.fd) == Awaiting(e.peer) {
      assert Named(e, p.handled, r, w);
      NotTheClient(r, listener, w, p, e.fd);
    }
    forall e | e in EventsOf(p.handled, r, w) && e.RequestEvent? ensures e.fd in r.peers {
      assert Named(e, p.handled, r, w);
    }
  }

  lemma NotTheClient(r: Registry, listener: int, w: World, p: Pass, fd: int)
    requires Passed(r, listener, w, ReadyNow(r, w), p) && Fresh(r, w) && fd in p.handled
    ensures PlaceOf(p.r, fd) == TouchedAt(r, fd, w).place
  {
    hide Valid, Touch;
    assert fd in ReadyNow(r, w);
  }

  // ----- process_events ----------------------------------------------------------

  /** No two CONNECT events name the same descriptor. */
  ghost predicate ConnectsOnce(es: seq<Event>) {
    forall i, j :: 0 <= i < j < |es| && es[i].ConnectEvent? && es[j].ConnectEvent? ==> es[i].fd != es[j].fd
  }

  /** The CONNECT events among these are of different peers, each still pending. */
  ghost predicate AllPending(r: Registry, es: seq<Event>) {
    && (forall i :: 0 <= i < |es| && es[i].ConnectEvent? ==>
          es[i].fd in r.pending && r.pending[es[i].fd] == es[i].peer)
    && ConnectsOnce(es)
  }

  lemma {:induction false} ProcessKeeps(r: Registry, listener: int, es: seq<Event>, accepts: Connection -> bool)
    requires Sound(r, listener) && AllPending(r, es)
    ensures Sound(Process(r, es, accepts).r, listener)
    decreases |es|
  {
    hide Sound;
    if es != [] {
      if es[0].ConnectEvent? && accepts(es[0].peer) {
        var out := AcceptPeer(r, es[0].fd, es[0].peer, false);
        assert es[0].peer.negotiated by { PendingNegotiated(r, listener, es[0].fd); }
        if out.error.None? {
          AcceptKeepsIff(r, listener, es[0].fd, es[0].peer, false);
          StillPending(r, es, out.r);
          ProcessKeeps(out.r, listener, es[1..], accepts);
        } else {
          RefusedAcceptKeeps(r, listener, es[0].fd, es[0].peer, false);
        }
      } else {
        assert AllPending(r, es[1..]);
        ProcessKeeps(r, listener, es[1..], accepts);
      }
    }
  }

  lemma PendingNegotiated(r: Registry, listener: int, fd: int)
    requires Sound(r, listener) && fd in r.pending
    ensures r.pending[fd].negotiated
  {
  }

  lemma StillPending(r: Registry, es: seq<Event>, r': Registry)
    requires es != [] && es[0].ConnectEvent? && AllPending(r, es)
    requires r'.pending == r.pending - {es[0].fd}
    ensures AllPending(r', es[1..])
  {
  }

  /** Polling and then asking about every event. After an exception the events stay. */
  function ProcessEvents(r: Registry, listener: int, w: World, accepts: Connection -> bool): Outcome {
    var p := PollEvents(r, listener, w);
    if p.error.Some? then Outcome(p.r, p.error)
    else
      var out := Process(p.r, p.r.events, accepts);
      if out.error.Some? then out else Outcome(out.r.(events := []), None)
  }

  lemma OnceAppend(first: seq<Event>, rest: seq<Event>, fd: int)
    requires ConnectsOnce(first) && ConnectsOnce(rest)
    requires (forall e :: e in first ==> e.fd == fd) && (forall e :: e in rest ==> e.fd != fd)
    ensures ConnectsOnce(first + rest)
  {
    var all := first + rest;
    forall i, j | 0 <= i < j < |all| && all[i].ConnectEvent? && all[j].ConnectEvent?
      ensures all[i].fd != all[j].fd
    {
      if i < |first| <= j { assert all[i] in first && all[j] in rest; }
    }
  }

  lemma {:induction false} ConnectOnce(handled: seq<int>, r: Registry, w: World)
    requires NoRepeat(handled)
    ensures ConnectsOnce(EventsOf(handled, r, w))
  {
    if handled != [] {
      ConnectOnce(handled[1..], r, w);
      EventsNamed(handled[1..], r, w);
      TouchNamed(r, handled[0], w, handled);
      OneConnect(r, handled[0], w);
      hide Touch, ConnectsOnce;
      var rest := EventsOf(handled[1..], r, w);
      forall e | e in rest ensures e.fd != handled[0] { assert Named(e, handled[1..], r, w); }
      OnceAppend(TouchedAt(r, handled[0], w).events, rest, handled[0]);
    }
  }

  lemma OneConnect(r: Registry, fd: int, w: World)
    ensures ConnectsOnce(TouchedAt(r, fd, w).events)
  {
  }

  /** With no event left over, `process_events` keeps the registry sound, whichever
      connections are accepted: those it asks about are the ones pending. */
  lemma ProcessEventsKeeps(r: Registry, listener: int, w: World, accepts: Connection -> bool)
    requires Sound(r, listener) && Fresh(r, w) && !w.interrupted && r.events == []
    ensures Sound(ProcessEvents(r, listener, w, accepts).r, listener)
  {
    PollKeeps(r, listener, w);
    EventsNamePeers(r, listener, w);
    EachHandledOnce(r, listener, w);
    hide PollEvents, Sound, Touch, Process, PlaceOf;
    var p := PollEvents(r, listener, w);
    ConnectOnce(p.handled, r, w);
    assert p.r.events[|r.events|..] == p.r.events == EventsOf(p.handled, r, w);
    forall i | 0 <= i < |p.r.events| && p.r.events[i].ConnectEvent?
      ensures p.r.events[i].fd in p.r.pending && p.r.pending[p.r.events[i].fd] == p.r.events[i].peer
    {
      assert p.r.events[i] in p.r.events[|r.events|..];
    }
    if p.error.None? {
      ProcessKeeps(p.r, listener, p.r.events, accepts);
      EventsAside(Process(p.r, p.r.events, accepts).r, listener);
    }
  }

  lemma EventsAside(r: Registry, listener: int)
    requires Sound(r, listener)
    ensures Sound(r.(events := []), listener)
  {
    hide Distinct, Fds;
    var r' := r.(events := []);
    assert forall x :: PlaceOf(r', x) == PlaceOf(r, x);
  }

  // ----- runs ------------------------------------------------------------------

  datatype Server = Server(r: Registry, listener: int)

  datatype Op =
    | Poll(w: World)
    | Accept(fd: int, c: Connection, temporary: bool)
    | Dial(fd: int, c: Connection)
    | Restart(fd: int) // the listening socket is replaced, or gone (-1)
    | Pull             // the caller takes the events

  function Next(s: Server, op: Op): Server {
    match op
    case Poll(w) => s.(r := PollEvents(s.r, s.listener, w).r)
    case Accept(fd, c, temporary) => s.(r := AcceptPeer(s.r, fd, c, temporary).r)
    case Dial(fd, c) => s.(r := Connect(s.r, fd, c).r)
    case Restart(fd) =>
      if s.r.fds == [] then s
      else Server(s.r.(fds := s.r.fds[0 := s.r.fds[0].(fd := fd)]), fd)
    case Pull => s.(r := s.r.(events := []))
  }

  /** New descriptors are not open ones, and a peer that is accepted still waits. */
  ghost predicate Allowed(s: Server, op: Op) {
    match op
    case Poll(w) => Fresh(s.r, w) && !w.interrupted
    case Accept(fd, c, _) => fd in s.r.pending && s.r.pending[fd] == c
    case Dial(fd, _) => fd !in Fds(s.r.fds, 0)
    case Restart(fd) => fd !in Fds(s.r.fds, 1)
    case Pull => true
  }

  function Begin(listener: int): Server {
    Server(Registry([PollFd(listener, Quiet)], map[], map[], map[], [], map[]), listener)
  }

  function Run(listener: int, ops: seq<Op>): Server {
    if ops == [] then Begin(listener) else Next(Run(listener, ops[..|ops| - 1]), ops[|ops| - 1])
  }

  ghost predicate Legal(listener: int, ops: seq<Op>) {
    forall k :: 0 <= k < |ops| ==> Allowed(Run(listener, ops[..k]), ops[k])
  }

  lemma RestartKeeps(s: Server, fd: int)
    requires Sound(s.r, s.listener) && fd !in Fds(s.r.fds, 1)
    ensures Sound(Next(s, Restart(fd)).r, fd)
    ensures forall x :: PlaceOf(Next(s, Restart(fd)).r, x) == PlaceOf(s.r, x)
  {
    var fds, fds' := s.r.fds, s.r.fds[0 := s.r.fds[0].(fd := fd)];
    assert Fds(fds', 1) == Fds(fds, 1) by {
      assert forall k :: 1 <= k < |fds| ==> fds'[k] == fds[k];
      assert forall k :: 1 <= k < |fds| ==> fds'[k].fd in Fds(fds', 1);
    }
    assert forall k :: 1 <= k < |fds| ==> fds[k].fd in Fds(fds, 1);
    hide Fds;
  }

  lemma NextKeeps(s: Server, op: Op)
    requires Sound(s.r, s.listener) && Allowed(s, op)
    ensures Sound(Next(s, op).r, Next(s, op).listener)
  {
    hide Sound, PollEvents, Fds, Fresh;
    match op
    case Poll(w) => PollKeeps(s.r, s.listener, w);
    case Accept(fd, c, temporary) =>
      PendingNegotiated(s.r, s.listener, fd);
      if AcceptPeer(s.r, fd, c, temporary).error.None? {
        AcceptKeepsIff(s.r, s.listener, fd, c, temporary);
      } else {
        RefusedAcceptKeeps(s.r, s.listener, fd, c, temporary);
      }
    case Dial(fd, c) => ConnectKeeps(s.r, s.listener, fd, c);
    case Restart(fd) => RestartKeeps(s, fd);
    case Pull => EventsAside(s.r, s.listener);
  }

  /** On every run the descriptors and the maps stay in step. */
  lemma {:induction false} AlwaysSound(listener: int, ops: seq<Op>)
    requires Legal(listener, ops)
    ensures Sound(Run(listener, ops).r, Run(listener, ops).listener)
  {
    hide Sound, Next, Allowed;
    if ops == [] {
      BeginSound(listener);
    } else {
      var n := |ops| - 1;
      LegalBefore(listener, ops, n);
      AlwaysSound(listener, ops[..n]);
      NextKeeps(Run(listener, ops[..n]), ops[n]);
    }
  }

  lemma BeginSound(listener: int)
    ensures Sound(Begin(listener).r, listener)
  {
  }

  lemma LegalBefore(listener: int, ops: seq<Op>, n: nat)
    requires Legal(listener, ops) && n <= |ops|
    ensures Legal(listener, ops[..n])
  {
    forall k | 0 <= k < n ensures Allowed(Run(listener, ops[..n][..k]), ops[..n][k]) {
      assert ops[..n][..k] == ops[..k];
    }
  }

  // ----- how a connection came to its place --------------------------------------

  /** The step takes in a new connection. */
  ghost predicate Accepted(s: Server, op: Op, fd: int) {
    && op.Poll? && op.w.accepted.Success? && op.w.accepted.value.0 == fd
    && PlaceOf(s.r, fd).Nowhere?
  }

  /** The step ends a handshake, with a protocol, of a peer that is not known. */
  ghost predicate Deferred(s: Server, op: Op, fd: int) {
    && op.Poll? && PlaceOf(s.r, fd).Handshaking?
    && var after := PlaceOf(Next(s, op).r, fd);
       after.Awaiting? && after.c.negotiated && after.c.uuid !in s.r.known
  }

  /** The step makes a peer trusted: one known at that moment, one that waited and is
      accepted now, or one called from here; always with a protocol agreed. */
  ghost predicate Trusted(s: Server, op: Op, fd: int) {
    && var after := PlaceOf(Next(s, op).r, fd);
    && after.Connected? && after.c.negotiated
    && match op
       case Poll(_) =>
         PlaceOf(s.r, fd).Handshaking? && after.c.uuid in s.r.known && s.r.known[after.c.uuid] == after.c.key
       case Accept(x, c, _) => x == fd && PlaceOf(s.r, fd) == Awaiting(c) && after.c == c
       case Dial(x, c) => x == fd && PlaceOf(s.r, fd).Nowhere? && after.c == c
       case _ => false
  }

  /** No other way into any place: a connection moves from the handshake to the peers,
      or to the pending ones and from there to the peers, and else stays or goes. */
  ghost predicate MovesOn(s: Server, op: Op, fd: int) {
    var before, after := PlaceOf(s.r, fd), PlaceOf(Next(s, op).r, fd);
    match after
    case Nowhere => true
    case Handshaking(_) => before.Handshaking? || Accepted(s, op, fd)
    case Awaiting(_) => before == after || Deferred(s, op, fd)
    case Connected(_) => before == after || Trusted(s, op, fd)
  }

  lemma TouchMoves(place: Place, fd: int, act: Activity, known: map<bytes, bytes>)
    requires (place.Awaiting? || place.Connected?) ==> place.c.negotiated
    ensures var t := Touch(place, fd, act, known).place;
      match t
      case Nowhere => true
      case Handshaking(_) => place.Handshaking?
      case Awaiting(c) => place == t || (place.Handshaking? && c.negotiated && c.uuid !in known)
      case Connected(c) => place == t || (place.Handshaking? && c.negotiated && c.uuid in known && known[c.uuid] == c.key)
  {
  }

  lemma PlaceSound(r: Registry, listener: int, fd: int)
    requires Sound(r, listener)
    ensures var t := PlaceOf(r, fd); (t.Awaiting? || t.Connected?) ==> t.c.negotiated
    ensures fd !in Fds(r.fds, 0) ==> PlaceOf(r, fd).Nowhere?
  {
    assert forall x :: x in Fds(r.fds, 1) ==> x in Fds(r.fds, 0);
  }

  lemma StepHistory(s: Server, op: Op, fd: int)
    requires Sound(s.r, s.listener) && Allowed(s, op)
    ensures MovesOn(s, op, fd)
  {
    hide Sound, Touch, Fds, PollEvents;
    PlaceSound(s.r, s.listener, fd);
    match op
    case Poll(w) =>
      assert Valid(s.r, s.listener) by { SoundIsValid(s.r, s.listener); }
      EachHandledOnce(s.r, s.listener, w);
      TouchMoves(PlaceOf(s.r, fd), fd, w.activity(fd), s.r.known);
      PassPlace(s.r, s.listener, w, fd);
      FreshClient(s.r, w);
    case Accept(x, c, temporary) =>
      PendingNegotiated(s.r, s.listener, x);
      if AcceptPeer(s.r, x, c, temporary).error.None? {
        assert Apart(s.r) by { SoundIsValid(s.r, s.listener); }
        AcceptMoves(s.r, x, c, temporary);
      } else {
        RefusedAcceptKeeps(s.r, s.listener, x, c, temporary);
      }
    case Dial(x, c) => ConnectKeeps(s.r, s.listener, x, c);
    case Restart(x) => RestartKeeps(s, x);
    case Pull => assert PlaceOf(Next(s, op).r, fd) == PlaceOf(s.r, fd);
  }

  lemma SoundIsValid(r: Registry, listener: int)
    requires Sound(r, listener)
    ensures Valid(r, listener) && Apart(r)
  {
  }

  lemma PassPlace(r: Registry, listener: int, w: World, fd: int)
    requires Passed(r, listener, w, ReadyNow(r, w), PollEvents(r, listener, w))
    ensures PlaceOf(PollEvents(r, listener, w).r, fd) == PlaceAfter(r, listener, PollEvents(r, listener, w), w, fd)
  {
  }

  ghost predicate AcceptedAt(listener: int, ops: seq<Op>, k: nat, fd: int) {
    k < |ops| && Accepted(Run(listener, ops[..k]), ops[k], fd)
  }

  ghost predicate DeferredAt(listener: int, ops: seq<Op>, k: nat, fd: int) {
    k < |ops| && Deferred(Run(listener, ops[..k]), ops[k], fd)
  }

  ghost predicate TrustedAt(listener: int, ops: seq<Op>, k: nat, fd: int) {
    k < |ops| && Trusted(Run(listener, ops[..k]), ops[k], fd)
  }

  /** Step `k` put the connection where it still is. */
  ghost predicate Since(listener: int, ops: seq<Op>, k: nat, fd: int) {
    forall m :: k < m <= |ops| ==> PlaceOf(Run(listener, ops[..m]).r, fd) == PlaceOf(Run(listener, ops).r, fd)
  }

  /** How each place is come by, at some step of the run. */
  ghost predicate Explained(listener: int, ops: seq<Op>, fd: int) {
    match PlaceOf(Run(listener, ops).r, fd)
    case Nowhere => true
    case Handshaking(_) => exists k: nat :: AcceptedAt(listener, ops, k, fd)
    case Awaiting(_) => exists k: nat :: DeferredAt(listener, ops, k, fd) && Since(listener, ops, k, fd)
    case Connected(_) => exists k: nat :: TrustedAt(listener, ops, k, fd) && Since(listener, ops, k, fd)
  }

  lemma ShorterRun(listener: int, ops: seq<Op>, n: nat, k: nat, fd: int)
    requires n <= |ops|
    ensures AcceptedAt(listener, ops[..n], k, fd) ==> AcceptedAt(listener, ops, k, fd)
    ensures DeferredAt(listener, ops[..n], k, fd) ==> DeferredAt(listener, ops, k, fd)
    ensures TrustedAt(listener, ops[..n], k, fd) ==> TrustedAt(listener, ops, k, fd)
  {
    hide Run, Accepted, Deferred, Trusted;
    if k < n { assert ops[..n][..k] == ops[..k]; }
  }

  lemma SinceLonger(listener: int, ops: seq<Op>, k: nat, fd: int)
    requires ops != [] && Since(listener, ops[..|ops| - 1], k, fd)
    requires PlaceOf(Run(listener, ops).r, fd) == PlaceOf(Run(listener, ops[..|ops| - 1]).r, fd)
    ensures Since(listener, ops, k, fd)
  {
    hide Run, PlaceOf;
    var n := |ops| - 1;
    forall m | k < m <= |ops|
      ensures PlaceOf(Run(listener, ops[..m]).r, fd) == PlaceOf(Run(listener, ops).r, fd)
    {
      if m <= n { assert ops[..n][..m] == ops[..m]; } else { assert ops[..m] == ops; }
    }
  }

  lemma SinceLast(listener: int, ops: seq<Op>, fd: int)
    requires ops != []
    ensures Since(listener, ops, |ops| - 1, fd)
  {
    assert ops[..|ops|] == ops;
  }

  lemma ExplainStep(listener: int, ops: seq<Op>, fd: int)
    requires ops != [] && Explained(listener, ops[..|ops| - 1], fd)
    requires MovesOn(Run(listener, ops[..|ops| - 1]), ops[|ops| - 1], fd)
    ensures Explained(listener, ops, fd)
  {
    hide PlaceOf, Next, Since, Accepted, Deferred, Trusted;
    var n := |ops| - 1;
    var before, after := PlaceOf(Run(listener, ops[..n]).r, fd), PlaceOf(Run(listener, ops).r, fd);
    SinceLast(listener, ops, fd);
    if before == after || (before.Handshaking? && after.Handshaking?) {
      match before
      case Nowhere =>
      case Handshaking(_) =>
        var k: nat :| AcceptedAt(listener, ops[..n], k, fd);
        ShorterRun(listener, ops, n, k, fd);
        assert AcceptedAt(listener, ops, k, fd);
      case Awaiting(_) =>
        var k: nat :| DeferredAt(listener, ops[..n], k, fd) && Since(listener, ops[..n], k, fd);
        ShorterRun(listener, ops, n, k, fd);
        SinceLonger(listener, ops, k, fd);
        assert DeferredAt(listener, ops, k, fd);
      case Connected(_) =>
        var k: nat :| TrustedAt(listener, ops[..n], k, fd) && Since(listener, ops[..n], k, fd);
        ShorterRun(listener, ops, n, k, fd);
        SinceLonger(listener, ops, k, fd);
        assert TrustedAt(listener, ops, k, fd);
    } else {
      assert after.Handshaking? ==> AcceptedAt(listener, ops, n, fd);
      assert after.Awaiting? ==> DeferredAt(listener, ops, n, fd);
      assert after.Connected? ==> TrustedAt(listener, ops, n, fd);
    }
  }

  lemma {:induction false} History(listener: int, ops: seq<Op>, fd: int)
    requires Legal(listener, ops)
    ensures Explained(listener, ops, fd)
  {
    hide Sound, Next, Allowed, MovesOn, Legal;
    if ops == [] {
      BeginExplained(listener, fd);
    } else {
      var n := |ops| - 1;
      LegalBefore(listener, ops, n);
      History(listener, ops[..n], fd);
      AlwaysSound(listener, ops[..n]);
      assert Allowed(Run(listener, ops[..n]), ops[n]) by { AllowedAt(listener, ops, n); }
      StepHistory(Run(listener, ops[..n]), ops[n], fd);
      ExplainStep(listener, ops, fd);
    }
  }

  lemma AllowedAt(listener: int, ops: seq<Op>, n: nat)
    requires Legal(listener, ops) && n < |ops|
    ensures Allowed(Run(listener, ops[..n]), ops[n])
  {
  }

  lemma BeginExplained(listener: int, fd: int)
    ensures Explained(listener, [], fd)
  {
  }

  /** Between steps `h` and `k` the peer was pending, not being known. */
  ghost predicate Waited(listener: int, ops: seq<Op>, h: nat, k: nat, fd: int) {
    exists j: nat :: h < j < k && DeferredAt(listener, ops, j, fd)
  }

  /** Before step `k` the listener accepted the connection, and it waited unless step
      `k` found it known. */
  ghost predicate CameIn(listener: int, ops: seq<Op>, k: nat, fd: int)
    requires k < |ops|
  {
    exists h: nat :: h < k && AcceptedAt(listener, ops, h, fd) && (ops[k].Poll? || Waited(listener, ops, h, k, fd))
  }

  /** The whole way of a connection among the peers, on every run: called from here;
      or accepted by the listener and then, its handshake over, known; or accepted,
      then pending because not known, and then accepted by the user. It is there with
      an agreed protocol, and has been since. */
  lemma PromotionHistory(listener: int, ops: seq<Op>, fd: int) returns (k: nat)
    requires Legal(listener, ops) && fd in Run(listener, ops).r.peers
    ensures k < |ops| && TrustedAt(listener, ops, k, fd) && Since(listener, ops, k, fd)
    ensures ops[k].Dial? || CameIn(listener, ops, k, fd)
  {
    hide Run, Legal, Next, Sound, Allowed, Since, PollEvents;
    History(listener, ops, fd);
    k :| TrustedAt(listener, ops, k, fd) && Since(listener, ops, k, fd);
    LegalBefore(listener, ops, k);
    History(listener, ops[..k], fd);
    if ops[k].Poll? {
      var h: nat :| AcceptedAt(listener, ops[..k], h, fd);
      ShorterRun(listener, ops, k, h, fd);
    } else if ops[k].Accept? {
      var j: nat :| DeferredAt(listener, ops[..k], j, fd) && Since(listener, ops[..k], j, fd);
      ShorterRun(listener, ops, k, j, fd);
      assert ops[..k][..j] == ops[..j];
      LegalBefore(listener, ops, j);
      History(listener, ops[..j], fd);
      var h: nat :| AcceptedAt(listener, ops[..j], h, fd);
      ShorterRun(listener, ops, j, h, fd);
      assert Waited(listener, ops, h, k, fd);
    }
  }
}
