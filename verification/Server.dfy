/** The server object: its poll loop and the operations on its registry. */
module Server {
  import opened Bytes
  import opened Requests
  import opened R = Registry
  import P = Promotion

  class Server {
    var fds: seq<PollFd>
    var handshakePeers: PeerMap
    var pendingPeers: PeerMap
    var peers: PeerMap
    var events: seq<Event>
    var knownPeers: map<bytes, bytes>
    var socket: int

    function State(): Registry
      reads this
    {
      Registry(fds, handshakePeers, pendingPeers, peers, events, knownPeers)
    }

    constructor (listening: int)
      ensures P.Server(State(), socket) == P.Begin(listening)
    {
      fds := [PollFd(listening, Quiet)];
      handshakePeers, pendingPeers, peers := map[], map[], map[];
      events, knownPeers, socket := [], map[], listening;
    }

    /** `delete_move`: the entry that comes next is at the returned index. */
    method DeleteMove(i: nat) returns (next: nat)
      requires i < |fds|
      modifies `fds
      ensures fds == R.DeleteMove(old(fds), i) && next == i
    {
      var back := |fds| - 1;
      if i == back {
        fds := fds[..back];
        return |fds|;
      }
      fds := fds[i := fds[back]];
      fds := fds[..back];
      assert fds == old(fds)[..back][i := old(fds)[back]];
      return i;
    }

    method DeletePeer(i: nat) returns (next: nat)
      requires i < |fds|
      modifies this
      ensures State() == old(State().(fds := R.DeleteMove(fds, i), peers := peers - {fds[i].fd}))
      ensures next == i && socket == old(socket)
    {
      peers := peers - {fds[i].fd};
      next := DeleteMove(i);
    }

    /** `delete_pre_auth_peer` on the map of pending peers. */
    method DeletePendingPeer(i: nat) returns (next: nat)
      requires i < |fds|
      modifies this
      ensures State() == old(State().(fds := R.DeleteMove(fds, i), pending := pendingPeers - {fds[i].fd}))
      ensures next == i && socket == old(socket)
    {
      pendingPeers := pendingPeers - {fds[i].fd};
      next := DeleteMove(i);
    }

    /** `delete_pre_auth_peer` on the map of handshakes. */
    method DeleteHandshakePeer(i: nat) returns (next: nat)
      requires i < |fds|
      modifies this
      ensures State() == old(State().(fds := R.DeleteMove(fds, i), handshake := handshakePeers - {fds[i].fd}))
      ensures next == i && socket == old(socket)
    {
      handshakePeers := handshakePeers - {fds[i].fd};
      next := DeleteMove(i);
    }

    method InsertPeer(fd: int, c: Connection) returns (error: Option<Error>)
      modifies `peers
      ensures P.Outcome(State(), error) == P.InsertPeer(old(State()), fd, c)
    {
      if !c.negotiated {
        return Some(NoProtocol);
      }
      if fd in peers {
        return Some(AlreadyConnected);
      }
      peers := peers[fd := c];
      return None;
    }

    method AcceptPeer(fd: int, c: Connection, temporaryTrust: bool) returns (error: Option<Error>)
      modifies this
      ensures P.Outcome(State(), error) == P.AcceptPeer(old(State()), fd, c, temporaryTrust)
      ensures socket == old(socket)
    {
      if !temporaryTrust {
        if c.uuid in knownPeers {
          if knownPeers[c.uuid] != c.key {
            return Some(DifferentKey);
          }
        } else {
          knownPeers := knownPeers[c.uuid := c.key];
        }
      }
      pendingPeers := pendingPeers - {fd};
      error := InsertPeer(fd, c);
    }

    /** `c` is the connection as its handshake left it. */
    method Connect(fd: int, c: Connection) returns (error: Option<Error>)
      modifies this
      ensures P.Outcome(State(), error) == P.Connect(old(State()), fd, c)
      ensures socket == old(socket)
    {
      if !c.negotiated {
        return Some(NoProtocol);
      }
      fds := fds + [PollFd(fd, Quiet)];
      error := InsertPeer(fd, c);
    }

    method HandlePeerEvents(i: nat, activity: Activity) returns (next: nat, error: Option<Error>)
      requires i < |fds|
      modifies this
      ensures Handle(old(State()), i, activity) == Handled(State(), next, error)
      ensures socket == old(socket)
    {
      var fd := fds[i].fd;
      if fd in peers {
        if activity.error.Some? {
          return i, activity.error;
        }
        var k := 0;
        while k < |activity.requests|
          modifies `events
          invariant 0 <= k <= |activity.requests|
          invariant events == old(events) + RequestEvents(fd, activity.requests)[..k]
        {
          events := events + [RequestEvent(fd, activity.requests[k])];
          k := k + 1;
        }
        if !activity.connected {
          next := DeletePeer(i);
          return next, None;
        }
        return i + 1, None;
      }
      if fd in pendingPeers {
        if activity.error.Some? {
          return i, activity.error;
        }
        if !activity.connected {
          next := DeletePendingPeer(i);
          return next, None;
        }
        return i + 1, None;
      }
      if fd in handshakePeers {
        if activity.error.Some? {
          return i, activity.error;
        }
        if !activity.connected {
          next := DeleteHandshakePeer(i);
          return next, None;
        }
        var c := handshakePeers[fd].(negotiated := handshakePeers[fd].negotiated || activity.negotiates);
        handshakePeers := handshakePeers[fd := c];
        if c.negotiated {
          if c.uuid in knownPeers && knownPeers[c.uuid] != c.key {
            return i, Some(DifferentKey);
          }
          if c.uuid in knownPeers {
            peers := peers[fd := c];
          } else {
            pendingPeers := pendingPeers[fd := c];
            events := events + [ConnectEvent(fd, c)];
          }
          handshakePeers := handshakePeers - {fd};
          assert handshakePeers == old(handshakePeers) - {fd};
        }
        return i + 1, None;
      }
      next := DeleteMove(i);
      return next, None;
    }

    /** One pass; `handled` are the descriptors acted on, in order. */
    method PollEvents(w: World) returns (ghost handled: seq<int>, error: Option<Error>)
      modifies this
      ensures R.PollEvents(old(State()), socket, w) == Pass(State(), handled, error)
      ensures socket == old(socket)
    {
      hide Handle, Polled, NbReady;
      ghost var whole := R.PollEvents(State(), socket, w);
      var nbReady := NbReady(fds, w);
      fds := Polled(fds, w);
      handled, error := [], None;
      var i := 0;
      while nbReady > 0 && i < |fds|
        invariant 0 <= i && socket == old(socket)
        invariant var rest := Sweep(State(), socket, i, nbReady, w);
          whole.r == rest.r && whole.error == rest.error && whole.handled == handled + rest.handled
        decreases if nbReady > 0 then nbReady else 0, |fds| - i
      {
        if fds[i].revents.Readable? {
          nbReady := nbReady - 1;
          var fd := fds[i].fd;
          handled := handled + [fd];
          if fd == socket {
            if w.accepted.Failure? {
              return handled, Some(w.accepted.error);
            }
            var (client, c) := w.accepted.value;
            fds := fds + [PollFd(client, Quiet)];
            if client !in handshakePeers {
              handshakePeers := handshakePeers[client := c];
            }
            i := i + 1;
          } else {
            var next, e := HandlePeerEvents(i, w.activity(fd));
            if e.Some? {
              return handled, e;
            }
            i := next;
          }
        } else {
          i := i + 1;
        }
      }
    }

    /** The events are dropped only when nothing was thrown. */
    method ProcessEvents(w: World, accepts: Connection -> bool) returns (error: Option<Error>)
      modifies this
      ensures P.Outcome(State(), error) == P.ProcessEvents(old(State()), socket, w, accepts)
      ensures socket == old(socket)
    {
      ghost var handled;
      handled, error := PollEvents(w);
      if error.Some? {
        return;
      }
      ghost var outcome := P.Process(State(), events, accepts);
      var pulled := events;
      var k := 0;
      while k < |pulled|
        invariant 0 <= k <= |pulled|
        invariant socket == old(socket) && events == pulled
        invariant P.Process(State(), pulled[k..], accepts) == outcome
      {
        if pulled[k].ConnectEvent? && accepts(pulled[k].peer) {
          error := AcceptPeer(pulled[k].fd, pulled[k].peer, false);
          if error.Some? {
            return;
          }
        }
        k := k + 1;
      }
      events := [];
      return None;
    }
  }
}
