/** The server's connections: the polled descriptors and the three maps that are
    kept in step with them, under a loop that removes and appends while it runs. */
module Registry {
  import opened Bytes
  import opened Requests

  /** `Odd`: an event that `poll` counts but the loop does not handle. */
  datatype Revents = Quiet | Readable | Odd

  datatype PollFd = PollFd(fd: int, revents: Revents)

  datatype Connection = Connection(uuid: bytes, key: bytes, negotiated: bool)

  datatype Event =
    | RequestEvent(fd: int, request: Request)
    | ConnectEvent(fd: int, peer: Connection)

  type PeerMap = map<int, Connection>

  /** `fds[0]` is the slot of the listening socket. */
  datatype Registry = Registry(
    fds: seq<PollFd>, handshake: PeerMap, pending: PeerMap, peers: PeerMap,
    events: seq<Event>, known: map<bytes, bytes>)

  /** What polling one connection brings: requests, whether it is still connected,
      whether the handshake completes, or an exception. */
  datatype Activity = Activity(requests: seq<Request>, connected: bool, negotiates: bool, error: Option<Error>)

  /** What the outside does during one pass: `poll` may fail, a descriptor be ready,
      a socket be accepted. */
  datatype World = World(
    interrupted: bool, revents: int -> Revents, activity: int -> Activity, accepted: Result<(int, Connection)>)

  // ----- the known peers -------------------------------------------------------

  function Knows(known: map<bytes, bytes>, c: Connection): Result<bool> {
    if c.uuid !in known then Success(false)
    else if known[c.uuid] != c.key then Failure(DifferentKey)
    else Success(true)
  }

  function Remember(known: map<bytes, bytes>, c: Connection): Result<map<bytes, bytes>> {
    if c.uuid in known then if known[c.uuid] != c.key then Failure(DifferentKey) else Success(known)
    else Success(known[c.uuid := c.key])
  }

  // ----- one descriptor --------------------------------------------------------

  /** Swap-remove: the last entry takes the place of entry `i`. */
  function DeleteMove(fds: seq<PollFd>, i: nat): seq<PollFd>
    requires i < |fds|
  {
    var n := |fds| - 1;
    if i == n then fds[..n] else fds[..n][i := fds[n]]
  }

  datatype Handled = Handled(r: Registry, next: nat, error: Option<Error>)

  function RequestEvents(fd: int, requests: seq<Request>): seq<Event> {
    seq(|requests|, k requires 0 <= k < |requests| => RequestEvent(fd, requests[k]))
  }

  /** `handle_peer_events` on entry `i`: the new registry and where to go on. */
  function Handle(r: Registry, i: nat, act: Activity): Handled
    requires i < |r.fds|
  {
    var fd := r.fds[i].fd;
    if fd in r.peers then
      if act.error.Some? then Handled(r, i, act.error)
      else
        var r1 := r.(events := r.events + RequestEvents(fd, act.requests));
        if !act.connected then Handled(r1.(peers := r.peers - {fd}, fds := DeleteMove(r.fds, i)), i, None)
        else Handled(r1, i + 1, None)
    else if fd in r.pending then
      if act.error.Some? then Handled(r, i, act.error)
      else if !act.connected then Handled(r.(pending := r.pending - {fd}, fds := DeleteMove(r.fds, i)), i, None)
      else Handled(r, i + 1, None)
    else if fd in r.handshake then
      if act.error.Some? then Handled(r, i, act.error)
      else if !act.connected then Handled(r.(handshake := r.handshake - {fd}, fds := DeleteMove(r.fds, i)), i, None)
      else
        var c := r.handshake[fd].(negotiated := r.handshake[fd].negotiated || act.negotiates);
        if !c.negotiated then Handled(r.(handshake := r.handshake[fd := c]), i + 1, None)
        else
          match Knows(r.known, c)
          case Failure(e) => Handled(r.(handshake := r.handshake[fd := c]), i, Some(e))
          case Success(true) =>
            Handled(r.(handshake := r.handshake - {fd}, peers := r.peers[fd := c]), i + 1, None)
          case Success(false) =>
            Handled(r.(handshake := r.handshake - {fd}, pending := r.pending[fd := c],
                       events := r.events + [ConnectEvent(fd, c)]), i + 1, None)
    else Handled(r.(fds := DeleteMove(r.fds, i)), i, None)
  }

  // ----- one pass --------------------------------------------------------------

  datatype Pass = Pass(r: Registry, handled: seq<int>, error: Option<Error>)

  function Then(fd: int, p: Pass): Pass { p.(handled := [fd] + p.handled) }

  /** The loop of `poll_events` from entry `i` on, with `ready` descriptors still to
      come; `handled` lists the descriptors it acts on. */
  function Sweep(r: Registry, listener: int, i: nat, ready: int, w: World): Pass
    decreases if ready > 0 then ready else 0, |r.fds| - i
  {
    if ready <= 0 || i >= |r.fds| then Pass(r, [], None)
    else if !r.fds[i].revents.Readable? then Sweep(r, listener, i + 1, ready, w)
    else
      var fd := r.fds[i].fd;
      if fd == listener then
        match w.accepted
        case Failure(e) => Pass(r, [fd], Some(e))
        case Success((client, c)) => Then(fd, Sweep(Admit(r, client, c), listener, i + 1, ready - 1, w))
      else
        var h := Handle(r, i, w.activity(fd));
        if h.error.Some? then Pass(h.r, [fd], h.error)
        else Then(fd, Sweep(h.r, listener, h.next, ready - 1, w))
  }

  /** An accepted socket starts in the handshake. */
  function Admit(r: Registry, fd: int, c: Connection): Registry {
    r.(fds := r.fds + [PollFd(fd, Quiet)],
       handshake := if fd in r.handshake then r.handshake else r.handshake[fd := c])
  }

  /** `poll` fills in the events, passing over negative descriptors. */
  function Polled(fds: seq<PollFd>, w: World): seq<PollFd> {
    if w.interrupted then fds
    else seq(|fds|, k requires 0 <= k < |fds| =>
           fds[k].(revents := if fds[k].fd < 0 then Quiet else w.revents(fds[k].fd)))
  }

  /** How many descriptors `poll` says have events, or -1. */
  function NbReady(fds: seq<PollFd>, w: World): int {
    if w.interrupted then -1 else |BusyAt(Polled(fds, w), 0)|
  }

  function PollEvents(r: Registry, listener: int, w: World): Pass {
    Sweep(r.(fds := Polled(r.fds, w)), listener, 0, NbReady(r.fds, w), w)
  }

  // ----- what it means for one connection ------------------------------------------

  datatype Place = Nowhere | Handshaking(c: Connection) | Awaiting(c: Connection) | Connected(c: Connection)

  function PlaceOf(r: Registry, fd: int): Place {
    if fd in r.peers then Connected(r.peers[fd])
    else if fd in r.pending then Awaiting(r.pending[fd])
    else if fd in r.handshake then Handshaking(r.handshake[fd])
    else Nowhere
  }

  datatype Touched = Touched(place: Place, events: seq<Event>, error: Option<Error>)

  /** What handling a descriptor does, by the place of its connection alone. */
  function Touch(place: Place, fd: int, act: Activity, known: map<bytes, bytes>): Touched {
    if place.Nowhere? then Touched(Nowhere, [], None)
    else if act.error.Some? then Touched(place, [], act.error)
    else
      match place
      case Connected(c) =>
        Touched(if act.connected then place else Nowhere,
                seq(|act.requests|, k requires 0 <= k < |act.requests| => RequestEvent(fd, act.requests[k])), None)
      case Awaiting(c) => Touched(if act.connected then place else Nowhere, [], None)
      case Handshaking(c) =>
        var c' := c.(negotiated := c.negotiated || act.negotiates);
        if !act.connected then Touched(Nowhere, [], None)
        else if !c'.negotiated then Touched(Handshaking(c'), [], None)
        else if c'.uuid !in known then Touched(Awaiting(c'), [ConnectEvent(fd, c')], None)
        else if known[c'.uuid] == c'.key then Touched(Connected(c'), [], None)
        else Touched(Handshaking(c'), [], Some(DifferentKey))
  }

  // ----- the invariant ---------------------------------------------------------

  ghost predicate Distinct(fds: seq<PollFd>) {
    forall i, j :: 0 <= i < j < |fds| ==> fds[i].fd != fds[j].fd
  }

  /** The descriptors from entry `i` on. */
  function Fds(fds: seq<PollFd>, i: nat): set<int> { set k | i <= k < |fds| :: fds[k].fd }

  /** No connection is in two maps. */
  ghost predicate Apart(r: Registry) {
    && (forall x :: x in r.peers ==> x !in r.pending && x !in r.handshake)
    && (forall x :: x in r.pending ==> x !in r.handshake)
  }

  /** Slot 0 is the listener, the other descriptors are distinct, and each is in
      exactly one of the three maps, which hold no other. */
  ghost predicate Valid(r: Registry, listener: int) {
    && |r.fds| >= 1 && r.fds[0].fd == listener
    && Distinct(r.fds) && Apart(r)
    && forall x :: x in Fds(r.fds, 1) <==> !PlaceOf(r, x).Nowhere?
  }

  function Ready(fds: seq<PollFd>, i: nat): set<int> {
    set k | i <= k < |fds| && fds[k].revents.Readable? :: fds[k].fd
  }

  /** The descriptors that `poll` counts. */
  function Busy(fds: seq<PollFd>, i: nat): set<int> {
    set k | i <= k < |fds| && !fds[k].revents.Quiet? :: fds[k].fd
  }

  lemma Skipped(fds: seq<PollFd>, i: nat)
    requires i < |fds| && Distinct(fds)
    ensures Fds(fds, i) == {fds[i].fd} + Fds(fds, i + 1) && fds[i].fd !in Fds(fds, i + 1)
    ensures Ready(fds, i) == (if fds[i].revents.Readable? then {fds[i].fd} else {}) + Ready(fds, i + 1)
    ensures Busy(fds, i) == (if fds[i].revents.Quiet? then {} else {fds[i].fd}) + Busy(fds, i + 1)
    ensures fds[i].fd !in Ready(fds, i + 1) && fds[i].fd !in Busy(fds, i + 1)
  {
  }

  lemma DeleteMoveIs(fds: seq<PollFd>, i: nat, from: nat)
    requires from <= i < |fds| && Distinct(fds)
    ensures var fds' := DeleteMove(fds, i);
      && |fds'| == |fds| - 1 && fds'[..i] == fds[..i] && Distinct(fds')
      && Fds(fds', from) == Fds(fds, from) - {fds[i].fd}
      && Ready(fds', from) == Ready(fds, from) - {fds[i].fd}
      && Busy(fds', from) == Busy(fds, from) - {fds[i].fd}
  {
    var n, fds' := |fds| - 1, DeleteMove(fds, i);
    forall k | from <= k < |fds| && k != i ensures exists m :: from <= m < |fds'| && fds'[m] == fds[k] {
      assert fds'[if k == n then i else k] == fds[k];
    }
  }

  lemma AppendIs(fds: seq<PollFd>, i: nat, fd: int)
    requires i <= |fds| && Distinct(fds) && fd !in Fds(fds, 0)
    ensures var fds' := fds + [PollFd(fd, Quiet)];
      && Distinct(fds') && Fds(fds', i) == Fds(fds, i) + {fd}
      && Ready(fds', i) == Ready(fds, i) && Busy(fds', i) == Busy(fds, i)
  {
    var fds' := fds + [PollFd(fd, Quiet)];
    forall k | 0 <= k < |fds| ensures fds'[k].fd in Fds(fds, 0) {
      assert fds'[k] == fds[k];
    }
    assert fds'[|fds|].fd == fd;
    assert Fds(fds', i) == Fds(fds, i) + {fd} by {
      forall k | i <= k < |fds| ensures fds[k].fd in Fds(fds', i) { assert fds'[k] == fds[k]; }
    }
    forall k | i <= k < |fds| ensures fds'[k] == fds[k] {}
  }

  // ----- handling one descriptor is moving its connection ------------------------

  lemma HasPlace(r: Registry, listener: int, i: nat)
    requires Valid(r, listener) && 1 <= i < |r.fds|
    ensures r.fds[i].fd != listener && !PlaceOf(r, r.fds[i].fd).Nowhere?
    ensures r.fds[i].fd in Fds(r.fds, 1)
  {
  }

  function TouchedAt(r: Registry, fd: int, w: World): Touched {
    Touch(PlaceOf(r, fd), fd, w.activity(fd), r.known)
  }

  /** The connection of entry `i` moves as `Touch` says, and no other does. */
  ghost predicate Moves(r: Registry, i: nat, w: World)
    requires i < |r.fds|
  {
    var fd := r.fds[i].fd;
    var h, t := Handle(r, i, w.activity(fd)), TouchedAt(r, fd, w);
    && h.error == t.error && h.r.known == r.known && h.r.events == r.events + t.events
    && Apart(h.r)
    && forall x :: PlaceOf(h.r, x) == if x == fd then t.place else PlaceOf(r, x)
  }

  lemma ConnectedMoves(r: Registry, i: nat, w: World)
    requires i < |r.fds| && Apart(r) && r.fds[i].fd in r.peers
    ensures Moves(r, i, w)
  {
    hide DeleteMove;
    assert r.events + [] == r.events;
  }

  lemma AwaitingMoves(r: Registry, i: nat, w: World)
    requires i < |r.fds| && Apart(r) && r.fds[i].fd in r.pending
    ensures Moves(r, i, w)
  {
    hide DeleteMove;
    assert r.events + [] == r.events;
  }

  lemma HandshakeGoesOn(r: Registry, i: nat, w: World)
    requires i < |r.fds| && Apart(r) && r.fds[i].fd in r.handshake
    requires var act := w.activity(r.fds[i].fd);
      act.error.Some? || !act.connected || !(r.handshake[r.fds[i].fd].negotiated || act.negotiates)
    ensures Moves(r, i, w)
  {
    hide DeleteMove;
    assert r.events + [] == r.events;
  }

  lemma HandshakeEnds(r: Registry, i: nat, w: World)
    requires i < |r.fds| && Apart(r) && r.fds[i].fd in r.handshake
    requires var act := w.activity(r.fds[i].fd);
      act.error.None? && act.connected && (r.handshake[r.fds[i].fd].negotiated || act.negotiates)
    ensures Moves(r, i, w)
  {
    hide DeleteMove;
    assert r.events + [] == r.events;
  }

  /** `handle_peer_events` moves one connection as `Touch` says and touches no other. */
  lemma HandleMoves(r: Registry, i: nat, w: World)
    requires i < |r.fds| && !PlaceOf(r, r.fds[i].fd).Nowhere? && Apart(r)
    ensures Moves(r, i, w)
  {
    hide Moves;
    var fd := r.fds[i].fd;
    if fd in r.peers { ConnectedMoves(r, i, w); }
    else if fd in r.pending { AwaitingMoves(r, i, w); }
    else {
      var act := w.activity(fd);
      if act.error.Some? || !act.connected || !(r.handshake[fd].negotiated || act.negotiates) {
        HandshakeGoesOn(r, i, w);
      } else {
        HandshakeEnds(r, i, w);
      }
    }
  }

  /** What it does to the array, and where the loop goes on. */
  lemma HandleShape(r: Registry, i: nat, act: Activity)
    requires i < |r.fds| && !PlaceOf(r, r.fds[i].fd).Nowhere?
    ensures var fd, h := r.fds[i].fd, Handle(r, i, act);
      var gone := Touch(PlaceOf(r, fd), fd, act, r.known).place.Nowhere?;
      && h.r.fds == (if gone then DeleteMove(r.fds, i) else r.fds)
      && (h.error.None? ==> h.next == if gone then i else i + 1)
      && (gone ==> h.error.None?)
  {
    hide DeleteMove;
  }

  /** It keeps the registry in step and the entries still to come as they were. */
  lemma HandleKeeps(r: Registry, listener: int, i: nat, w: World)
    requires Valid(r, listener) && 1 <= i < |r.fds| && r.fds[i].revents.Readable?
    ensures Moves(r, i, w)
    ensures var fd := r.fds[i].fd;
      var h := Handle(r, i, w.activity(fd));
      && Valid(h.r, listener) && Fds(h.r.fds, 0) <= Fds(r.fds, 0)
      && (h.error.None? ==>
            (i <= h.next <= |h.r.fds|
             && Ready(h.r.fds, h.next) == Ready(r.fds, i) - {fd}
             && Busy(h.r.fds, h.next) == Busy(r.fds, i) - {fd}))
  {
    hide Handle, Ready, Busy, Touch, Apart;
    HasPlace(r, listener, i);
    var act := w.activity(r.fds[i].fd);
    HandleShape(r, i, act);
    HandleMoves(r, i, w);
    Skipped(r.fds, i);
    DeleteMoveIs(r.fds, i, i);
    DeleteMoveIs(r.fds, i, 0);
    DeleteMoveIs(r.fds, i, 1);
    hide Distinct, Fds;
    var h := Handle(r, i, act);
    if h.r.fds != r.fds {
      assert h.r.fds[0] == h.r.fds[..i][0] == r.fds[0];
    }
  }

  // ----- a whole pass ----------------------------------------------------------

  ghost predicate NoRepeat(s: seq<int>) { forall i, j :: 0 <= i < j < |s| ==> s[i] != s[j] }

  /** The events of handling these descriptors, each found as the pass began. */
  function EventsOf(handled: seq<int>, r: Registry, w: World): seq<Event> {
    if handled == [] then [] else TouchedAt(r, handled[0], w).events + EventsOf(handled[1..], r, w)
  }

  /** The pass touched each descriptor it handled exactly once and as it was at the
      beginning, whatever was removed or appended in between. */
  ghost predicate Swept(r: Registry, ready: set<int>, p: Pass, w: World) {
    && p.r.known == r.known
    && NoRepeat(p.handled) && (forall x :: x in p.handled ==> x in ready)
    && (forall x :: PlaceOf(p.r, x) == if x in p.handled then TouchedAt(r, x, w).place else PlaceOf(r, x))
    && p.r.events == r.events + EventsOf(p.handled, r, w)
  }

  /** An exception is that of the last descriptor handled, and the first. */
  ghost predicate Raised(r: Registry, p: Pass, w: World) {
    && (p.error.Some? ==> p.handled != [])
    && forall k :: 0 <= k < |p.handled| ==>
         TouchedAt(r, p.handled[k], w).error == if k == |p.handled| - 1 then p.error else None
  }

  lemma {:induction false} EventsSame(handled: seq<int>, r: Registry, r': Registry, w: World)
    requires r.known == r'.known && forall x :: x in handled ==> PlaceOf(r, x) == PlaceOf(r', x)
    ensures EventsOf(handled, r, w) == EventsOf(handled, r', w)
  {
    if handled != [] { EventsSame(handled[1..], r, r', w); }
  }

  lemma SweptStep(r: Registry, fd: int, mid: Registry, ready: set<int>, p: Pass, w: World)
    requires Swept(mid, ready - {fd}, p, w) && fd in ready
    requires mid.known == r.known && mid.events == r.events + TouchedAt(r, fd, w).events
    requires forall x :: PlaceOf(mid, x) == if x == fd then TouchedAt(r, fd, w).place else PlaceOf(r, x)
    ensures Swept(r, ready, Then(fd, p), w)
  {
    hide Touch, PlaceOf;
    EventsSame(p.handled, mid, r, w);
    var all := Then(fd, p).handled;
    assert all[1..] == p.handled;
  }

  lemma RaisedStep(r: Registry, fd: int, mid: Registry, ready: set<int>, p: Pass, w: World)
    requires Raised(mid, p, w) && mid.known == r.known && fd !in p.handled
    requires TouchedAt(r, fd, w).error.None?
    requires forall x :: x != fd ==> PlaceOf(mid, x) == PlaceOf(r, x)
    ensures Raised(r, Then(fd, p), w)
  {
    hide Touch, PlaceOf;
    var all := Then(fd, p).handled;
    forall k | 0 <= k < |all|
      ensures TouchedAt(r, all[k], w).error == if k == |all| - 1 then p.error else None
    {
      if k > 0 { assert all[k] == p.handled[k - 1] && p.handled[k - 1] in p.handled; }
    }
  }

  lemma SweptNothing(r: Registry, ready: set<int>, w: World)
    ensures Swept(r, ready, Pass(r, [], None), w) && Raised(r, Pass(r, [], None), w)
  {
    assert r.events + [] == r.events;
  }

  lemma SweptLast(r: Registry, i: nat, ready: set<int>, w: World)
    requires i < |r.fds| && Moves(r, i, w) && r.fds[i].fd in ready
    requires Handle(r, i, w.activity(r.fds[i].fd)).error.Some?
    ensures var fd := r.fds[i].fd;
      var h := Handle(r, i, w.activity(fd));
      Swept(r, ready, Pass(h.r, [fd], h.error), w) && Raised(r, Pass(h.r, [fd], h.error), w)
  {
    hide Handle, Touch;
    var fd := r.fds[i].fd;
    assert EventsOf([fd], r, w) == TouchedAt(r, fd, w).events by { assert [fd][1..] == []; }
  }

  /** From any entry after the listener's on: every descriptor ready there is handled
      exactly once, if all that are counted are still to come and none throws. */
  lemma {:induction false} SweepFrom(r: Registry, listener: int, i: nat, ready: int, w: World)
    requires Valid(r, listener) && 1 <= i <= |r.fds|
    ensures var p := Sweep(r, listener, i, ready, w);
      && Valid(p.r, listener) && Fds(p.r.fds, 0) <= Fds(r.fds, 0)
      && Swept(r, Ready(r.fds, i), p, w) && Raised(r, p, w)
      && (p.error.None? && ready >= |Busy(r.fds, i)| ==> forall x :: x in Ready(r.fds, i) ==> x in p.handled)
    decreases if ready > 0 then ready else 0, |r.fds| - i
  {
    hide Valid, Handle, Fds, Ready, Busy, Swept, Raised, Moves;
    if ready <= 0 || i >= |r.fds| {
      SweptNothing(r, Ready(r.fds, i), w);
      NothingReady(r.fds, i, ready);
    } else {
      EntryIs(r, listener, i);
      var fd := r.fds[i].fd;
      if !r.fds[i].revents.Readable? {
        SweepFrom(r, listener, i + 1, ready, w);
        SmallerBusy(r.fds, i);
      } else {
        HandleKeeps(r, listener, i, w);
        var h := Handle(r, i, w.activity(fd));
        if h.error.Some? {
          SweptLast(r, i, Ready(r.fds, i), w);
        } else {
          SweepFrom(h.r, listener, h.next, ready - 1, w);
          HandleThenSweep(r, i, w, Sweep(h.r, listener, h.next, ready - 1, w));
          SmallerBusy(r.fds, i);
        }
      }
    }
  }

  lemma EntryIs(r: Registry, listener: int, i: nat)
    requires Valid(r, listener) && 1 <= i < |r.fds|
    ensures r.fds[i].fd != listener
    ensures !r.fds[i].revents.Readable? ==> Ready(r.fds, i) == Ready(r.fds, i + 1)
    ensures r.fds[i].revents.Readable? ==> r.fds[i].fd in Ready(r.fds, i)
    ensures Distinct(r.fds)
  {
    HasPlace(r, listener, i);
    Skipped(r.fds, i);
  }

  lemma SmallerBusy(fds: seq<PollFd>, i: nat)
    requires i < |fds| && Distinct(fds)
    ensures |Busy(fds, i + 1)| <= |Busy(fds, i)|
    ensures !fds[i].revents.Quiet? ==> |Busy(fds, i) - {fds[i].fd}| == |Busy(fds, i)| - 1
  {
    Skipped(fds, i);
    var rest := Busy(fds, i + 1);
    if !fds[i].revents.Quiet? {
      assert Busy(fds, i) - {fds[i].fd} == rest;
    } else {
      assert Busy(fds, i) == rest;
    }
  }

  lemma NothingReady(fds: seq<PollFd>, i: nat, ready: int)
    requires ready <= 0 || i >= |fds|
    ensures ready >= |Busy(fds, i)| ==> Ready(fds, i) == {}
  {
    if ready >= |Busy(fds, i)| {
      assert Busy(fds, i) == {};
      assert forall x :: x in Ready(fds, i) ==> x in Busy(fds, i);
    }
  }

  lemma HandleThenSweep(r: Registry, i: nat, w: World, p: Pass)
    requires i < |r.fds| && Moves(r, i, w) && r.fds[i].fd in Ready(r.fds, i)
    requires var fd := r.fds[i].fd;
      var h := Handle(r, i, w.activity(fd));
      h.error.None? && Swept(h.r, Ready(r.fds, i) - {fd}, p, w) && Raised(h.r, p, w)
    ensures Swept(r, Ready(r.fds, i), Then(r.fds[i].fd, p), w) && Raised(r, Then(r.fds[i].fd, p), w)
  {
    hide Handle, Touch, Ready, PlaceOf;
    var fd := r.fds[i].fd;
    var h := Handle(r, i, w.activity(fd));
    SweptStep(r, fd, h.r, Ready(r.fds, i), p, w);
    RaisedStep(r, fd, h.r, Ready(r.fds, i), p, w);
  }

  lemma AdmitKeeps(r: Registry, listener: int, fd: int, c: Connection)
    requires Valid(r, listener) && fd !in Fds(r.fds, 0)
    ensures var r' := Admit(r, fd, c);
      && Valid(r', listener) && |r'.fds| == |r.fds| + 1 && r'.known == r.known && r'.events == r.events
      && Ready(r'.fds, 1) == Ready(r.fds, 1) && Busy(r'.fds, 1) == Busy(r.fds, 1)
      && fd !in Ready(r.fds, 1) && fd != listener
      && forall x :: PlaceOf(r', x) == if x == fd then Handshaking(c) else PlaceOf(r, x)
  {
    AppendIs(r.fds, 1, fd);
    assert r.fds[0].fd in Fds(r.fds, 0);
    assert forall x :: x in Fds(r.fds, 1) ==> x in Fds(r.fds, 0);
    assert forall x :: x in Ready(r.fds, 1) ==> x in Fds(r.fds, 0);
    hide Distinct, Ready, Busy, Fds;
  }

  lemma PolledFds(fds: seq<PollFd>, w: World, i: nat)
    ensures |Polled(fds, w)| == |fds|
    ensures forall k :: 0 <= k < |fds| ==> Polled(fds, w)[k].fd == fds[k].fd
    ensures Fds(Polled(fds, w), i) == Fds(fds, i)
    ensures Distinct(fds) ==> Distinct(Polled(fds, w))
  {
    var fds' := Polled(fds, w);
    assert forall k :: 0 <= k < |fds| ==> fds'[k].fd == fds[k].fd;
    forall x | x in Fds(fds, i) ensures x in Fds(fds', i) {
      var k :| i <= k < |fds| && fds[k].fd == x;
      assert fds'[k].fd == x;
    }
  }

  lemma PolledReady(fds: seq<PollFd>, w: World)
    requires !w.interrupted
    ensures Ready(Polled(fds, w), 0) == set x | x in Fds(fds, 0) && x >= 0 && w.revents(x).Readable?
  {
    var fds' := Polled(fds, w);
    forall x | x in Fds(fds, 0) && x >= 0 && w.revents(x).Readable? ensures x in Ready(fds', 0) {
      var k :| 0 <= k < |fds| && fds[k].fd == x;
      assert fds'[k].fd == x && fds'[k].revents.Readable?;
    }
  }

  lemma PolledCount(fds: seq<PollFd>, w: World)
    requires Distinct(fds) && !w.interrupted
    ensures NbReady(fds, w) == |Busy(Polled(fds, w), 0)|
  {
    var fds' := Polled(fds, w);
    PolledFds(fds, w, 0);
    CountBusy(fds', 0);
  }

  /** `poll` changes no connection. */
  lemma PolledKeeps(r: Registry, listener: int, w: World)
    requires Valid(r, listener)
    ensures var r' := r.(fds := Polled(r.fds, w));
      && Valid(r', listener) && Fds(r'.fds, 0) == Fds(r.fds, 0)
      && forall x :: PlaceOf(r', x) == PlaceOf(r, x)
  {
    PolledFds(r.fds, w, 0);
    PolledFds(r.fds, w, 1);
    hide Distinct, Polled, Fds;
  }

  /** The entries that `poll` counts. */
  function BusyAt(fds: seq<PollFd>, i: nat): set<int> { set k | i <= k < |fds| && !fds[k].revents.Quiet? }

  lemma BusyAtStep(fds: seq<PollFd>, i: nat)
    requires i < |fds|
    ensures BusyAt(fds, i) == (if fds[i].revents.Quiet? then {} else {i}) + BusyAt(fds, i + 1)
    ensures i !in BusyAt(fds, i + 1)
  {
  }

  lemma AddOne(s: set<int>, x: int)
    requires x !in s
    ensures |{x} + s| == |s| + 1
  {
    assert {x} + s == s + {x};
  }

  lemma BusyEnd(fds: seq<PollFd>)
    ensures BusyAt(fds, |fds|) == {} && Busy(fds, |fds|) == {}
  {
  }

  /** Distinct descriptors: as many as entries. */
  lemma {:induction false} CountBusy(fds: seq<PollFd>, i: nat)
    requires Distinct(fds) && i <= |fds|
    ensures |BusyAt(fds, i)| == |Busy(fds, i)|
    decreases |fds| - i
  {
    hide Distinct, Busy, BusyAt, Fds, Ready;
    if i == |fds| {
      BusyEnd(fds);
    } else {
      CountBusy(fds, i + 1);
      Skipped(fds, i);
      BusyAtStep(fds, i);
      if !fds[i].revents.Quiet? {
        AddOne(BusyAt(fds, i + 1), i);
        AddOne(Busy(fds, i + 1), fds[i].fd);
      } else {
        assert {} + BusyAt(fds, i + 1) == BusyAt(fds, i + 1);
        assert {} + Busy(fds, i + 1) == Busy(fds, i + 1);
      }
    }
  }

  /** The place of a connection after a pass that handled these descriptors. */
  function PlaceAfter(r: Registry, listener: int, p: Pass, w: World, fd: int): Place {
    if listener in p.handled && w.accepted.Success? && fd == w.accepted.value.0 then Handshaking(w.accepted.value.1)
    else if fd in p.handled then TouchedAt(r, fd, w).place
    else PlaceOf(r, fd)
  }

  /** The new socket's descriptor is not one of those open. */
  ghost predicate Fresh(r: Registry, w: World) {
    w.accepted.Success? ==> w.accepted.value.0 !in Fds(r.fds, 0)
  }

  /** What a pass comes to, over the descriptors that were ready when it began. */
  ghost predicate Passed(r: Registry, listener: int, w: World, ready: set<int>, p: Pass) {
    && Valid(p.r, listener) && p.r.known == r.known
    && NoRepeat(p.handled) && (forall x :: x in p.handled ==> x in ready)
    && (p.error.None? ==> forall x :: x in ready ==> x in p.handled)
    && (forall x :: PlaceOf(p.r, x) == PlaceAfter(r, listener, p, w, x))
    && p.r.events == r.events + EventsOf(p.handled, r, w)
  }

  /** What handling one of them throws, found as the pass began. */
  function ErrorOf(r: Registry, listener: int, fd: int, w: World): Option<Error> {
    if fd != listener then TouchedAt(r, fd, w).error
    else if w.accepted.Failure? then Some(w.accepted.error)
    else None
  }

  /** Nothing throws but the last one handled, if the pass did. */
  ghost predicate Threw(r: Registry, listener: int, w: World, p: Pass) {
    && (p.error.Some? ==> p.handled != [])
    && forall k :: 0 <= k < |p.handled| ==>
         ErrorOf(r, listener, p.handled[k], w) == if k == |p.handled| - 1 then p.error else None
  }

  function ReadyNow(r: Registry, w: World): set<int> {
    set x | x in Fds(r.fds, 0) && x >= 0 && w.revents(x).Readable?
  }

  /** One pass, whatever is removed and appended during it, keeps the registry in
      step and handles each descriptor that was ready at its start exactly once, as
      it was at the start. An exception ends it at the first whose handling throws, so
      that there is one exactly when that of some ready descriptor does. */
  lemma EachHandledOnce(r: Registry, listener: int, w: World)
    requires Valid(r, listener) && Fresh(r, w) && !w.interrupted
    ensures Passed(r, listener, w, ReadyNow(r, w), PollEvents(r, listener, w))
    ensures Threw(r, listener, w, PollEvents(r, listener, w))
    ensures PollEvents(r, listener, w).error.None?
      <==> forall x :: x in ReadyNow(r, w) ==> ErrorOf(r, listener, x, w).None?
  {
    var r0 := r.(fds := Polled(r.fds, w));
    var n := NbReady(r.fds, w);
    PolledKeeps(r, listener, w);
    PolledReady(r.fds, w);
    PolledCount(r.fds, w) by { assert Distinct(r.fds); }
    hide Polled, NbReady, Valid, Sweep, Threw;
    SweepAll(r0, listener, n, w);
    var p := Sweep(r0, listener, 0, n, w);
    EventsSame(p.handled, r0, r, w);
    SameErrors(r0, r, listener, w, p);
    ThrowsIff(r, listener, w, ReadyNow(r, w), p);
  }

  lemma SameErrors(r: Registry, r': Registry, listener: int, w: World, p: Pass)
    requires r.known == r'.known && forall x :: PlaceOf(r, x) == PlaceOf(r', x)
    ensures Threw(r, listener, w, p) <==> Threw(r', listener, w, p)
  {
    hide Touch, PlaceOf;
    assert forall x :: ErrorOf(r, listener, x, w) == ErrorOf(r', listener, x, w);
  }

  lemma ThrowsIff(r: Registry, listener: int, w: World, ready: set<int>, p: Pass)
    requires Threw(r, listener, w, p) && forall x :: x in p.handled ==> x in ready
    requires p.error.None? ==> forall x :: x in ready ==> x in p.handled
    ensures p.error.None? <==> forall x :: x in ready ==> ErrorOf(r, listener, x, w).None?
  {
    hide ErrorOf;
    if p.error.Some? { assert p.handled[|p.handled| - 1] in ready; }
  }

  lemma SweepAll(r: Registry, listener: int, ready: int, w: World)
    requires Valid(r, listener) && Fresh(r, w) && ready >= |Busy(r.fds, 0)|
    ensures Passed(r, listener, w, Ready(r.fds, 0), Sweep(r, listener, 0, ready, w))
    ensures Threw(r, listener, w, Sweep(r, listener, 0, ready, w))
  {
    hide Valid, Ready, Busy, Fds, Passed, Swept, Raised, Threw, Admit, PlaceOf, Distinct, Fresh, Sweep;
    ListenerFirst(r, listener);
    SweepFirst(r, listener, ready, w);
    if ready <= 0 {
      NothingReady(r.fds, 0, ready);
      SweptNothing(r, {}, w);
      ListenerQuiet(r, listener, w, {}, Pass(r, [], None));
    } else if !r.fds[0].revents.Readable? {
      SmallerBusy(r.fds, 0);
      SweepFrom(r, listener, 1, ready, w);
      assert {} + Ready(r.fds, 1) == Ready(r.fds, 1);
      ListenerQuiet(r, listener, w, Ready(r.fds, 1), Sweep(r, listener, 1, ready, w));
    } else if w.accepted.Success? {
      SweepAdmitted(r, listener, ready, w);
    } else {
      AcceptFails(r, listener, w);
    }
  }

  lemma SweepFirst(r: Registry, listener: int, ready: int, w: World)
    requires |r.fds| >= 1 && r.fds[0].fd == listener
    ensures Sweep(r, listener, 0, ready, w) ==
      if ready <= 0 then Pass(r, [], None)
      else if !r.fds[0].revents.Readable? then Sweep(r, listener, 1, ready, w)
      else if w.accepted.Failure? then Pass(r, [listener], Some(w.accepted.error))
      else Then(listener, Sweep(Admit(r, w.accepted.value.0, w.accepted.value.1), listener, 1, ready - 1, w))
  {
  }

  lemma SweepAdmitted(r: Registry, listener: int, ready: int, w: World)
    requires Valid(r, listener) && Fresh(r, w) && ready >= |Busy(r.fds, 0)|
    requires r.fds[0].revents.Readable? && w.accepted.Success?
    ensures var (client, c) := w.accepted.value;
      Passed(r, listener, w, Ready(r.fds, 0),
             Then(listener, Sweep(Admit(r, client, c), listener, 1, ready - 1, w)))
      && Threw(r, listener, w, Then(listener, Sweep(Admit(r, client, c), listener, 1, ready - 1, w)))
  {
    hide Valid, Ready, Busy, Fds, Passed, Swept, Raised, Threw, Admit, PlaceOf, Distinct, Fresh, Sweep;
    var (client, c) := w.accepted.value;
    ListenerFirst(r, listener);
    SmallerBusy(r.fds, 0);
    FreshClient(r, w);
    AdmitKeeps(r, listener, client, c);
    FirstIsBusy(r, listener);
    SweepFrom(Admit(r, client, c), listener, 1, ready - 1, w);
    AdmitThenSweep(r, listener, w, Sweep(Admit(r, client, c), listener, 1, ready - 1, w));
  }

  lemma FirstIsBusy(r: Registry, listener: int)
    requires Valid(r, listener) && r.fds[0].revents.Readable?
    ensures |Busy(r.fds, 1)| == |Busy(r.fds, 0)| - 1
  {
    hide Busy, Ready, Fds, Apart, PlaceOf;
    Skipped(r.fds, 0);
    AddOne(Busy(r.fds, 1), listener);
  }

  lemma FreshClient(r: Registry, w: World)
    requires Fresh(r, w)
    ensures w.accepted.Success? ==> w.accepted.value.0 !in Fds(r.fds, 0)
  {
  }

  lemma ListenerFirst(r: Registry, listener: int)
    requires Valid(r, listener)
    ensures |r.fds| >= 1 && r.fds[0].fd == listener && Distinct(r.fds) && PlaceOf(r, listener).Nowhere?
    ensures Ready(r.fds, 0) == (if r.fds[0].revents.Readable? then {listener} else {}) + Ready(r.fds, 1)
    ensures listener !in Ready(r.fds, 1)
  {
    Skipped(r.fds, 0);
  }

  lemma ListenerQuiet(r: Registry, listener: int, w: World, ready: set<int>, p: Pass)
    requires Valid(p.r, listener) && Swept(r, ready, p, w) && Raised(r, p, w) && listener !in ready
    requires p.error.None? ==> forall x :: x in ready ==> x in p.handled
    ensures Passed(r, listener, w, ready, p) && Threw(r, listener, w, p)
  {
    hide Valid, PlaceOf, Touch;
    forall k | 0 <= k < |p.handled| ensures p.handled[k] != listener { assert p.handled[k] in ready; }
  }

  lemma AcceptFails(r: Registry, listener: int, w: World)
    requires Valid(r, listener) && r.fds[0].revents.Readable? && w.accepted.Failure? && PlaceOf(r, listener).Nowhere?
    ensures Passed(r, listener, w, Ready(r.fds, 0), Pass(r, [listener], Some(w.accepted.error)))
    ensures Threw(r, listener, w, Pass(r, [listener], Some(w.accepted.error)))
  {
    assert r.fds[0].fd in Ready(r.fds, 0);
    assert [listener][1..] == [];
    hide Valid, PlaceOf, Ready;
    assert TouchedAt(r, listener, w) == Touched(Nowhere, [], None);
    assert r.events + EventsOf([listener], r, w) == r.events;
  }

  lemma AdmitThenSweep(r: Registry, listener: int, w: World, p: Pass)
    requires w.accepted.Success? && Valid(p.r, listener)
    requires var (client, c) := w.accepted.value;
      && var mid := Admit(r, client, c);
         && mid.events == r.events && mid.known == r.known
         && Swept(mid, Ready(r.fds, 1), p, w) && Raised(mid, p, w)
         && client !in Ready(r.fds, 1) && client != listener
         && forall x :: PlaceOf(mid, x) == if x == client then Handshaking(c) else PlaceOf(r, x)
    requires listener !in Ready(r.fds, 1) && PlaceOf(r, listener).Nowhere?
    requires p.error.None? ==> forall x :: x in Ready(r.fds, 1) ==> x in p.handled
    ensures Passed(r, listener, w, {listener} + Ready(r.fds, 1), Then(listener, p))
    ensures Threw(r, listener, w, Then(listener, p))
  {
    hide PlaceOf, Ready, Valid, Admit, Threw;
    AdmitThenRaised(r, listener, w, p);
    var (client, c) := w.accepted.value;
    EventsSame(p.handled, r, Admit(r, client, c), w);
    var all := Then(listener, p);
    assert all.handled[1..] == p.handled;
    assert TouchedAt(r, listener, w) == Touched(Nowhere, [], None);
    hide Touch, EventsOf;
    assert EventsOf(all.handled, r, w) == EventsOf(p.handled, r, w) by { SilentFirst(listener, p.handled, r, w); }
  }

  lemma AdmitThenRaised(r: Registry, listener: int, w: World, p: Pass)
    requires w.accepted.Success?
    requires var (client, c) := w.accepted.value;
      && var mid := Admit(r, client, c);
         && mid.known == r.known && Raised(mid, p, w)
         && client !in Ready(r.fds, 1) && listener !in Ready(r.fds, 1)
         && (forall x :: x in p.handled ==> x in Ready(r.fds, 1))
         && forall x :: PlaceOf(mid, x) == if x == client then Handshaking(c) else PlaceOf(r, x)
    ensures Threw(r, listener, w, Then(listener, p))
  {
    hide Touch, PlaceOf, Ready, Admit;
    var all := Then(listener, p);
    forall k | 0 <= k < |all.handled|
      ensures ErrorOf(r, listener, all.handled[k], w) == if k == |all.handled| - 1 then all.error else None
    {
      if k > 0 { assert all.handled[k] == p.handled[k - 1] && p.handled[k - 1] in p.handled; }
    }
  }

  lemma SilentFirst(fd: int, handled: seq<int>, r: Registry, w: World)
    requires TouchedAt(r, fd, w).events == []
    ensures EventsOf([fd] + handled, r, w) == EventsOf(handled, r, w)
  {
    assert ([fd] + handled)[1..] == handled;
  }
}
