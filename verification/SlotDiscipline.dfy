/** Two honest peers doing anything they like, with distinct paths for RECEIVE_FILE:
    what becomes of the slots of each. */
module SlotDiscipline {
  import opened Bytes
  import opened Requests
  import opened Transfers
  import opened MessageQueue
  import opened Paths
  import opened FileMapping
  import opened Tokens
  import opened Peer
  import C = Codec

  /** `toA` and `toB` count the messages of the other's wire each has taken in, `askedX`
      are the paths X asked for, `pushedX` those it pushed. Taking in a message may throw:
      then X has `stopped`, and this model with it, since the source keeps the buffer and
      takes in its messages again; what that can do is in `Redelivery`. */
  datatype Pair = Pair(
    a: Peer, b: Peer, toA: nat, toB: nat, stoppedA: bool, stoppedB: bool,
    askedA: set<bytes>, askedB: set<bytes>, pushedA: set<bytes>, pushedB: set<bytes>)

  function Swap(s: Pair): Pair {
    Pair(s.b, s.a, s.toB, s.toA, s.stoppedB, s.stoppedA, s.askedB, s.askedA, s.pushedB, s.pushedA)
  }

  /** The requests of `a`. */
  function ViewOf(s: Pair): View {
    View(s.a.queue.outgoing, s.a.queue.slots, s.a.wire, s.toB, s.b.buffer, s.b.wire, s.toA, s.askedA, s.pushedB)
  }

  /** What one of the peers does next. */
  datatype Action =
    | Deliver                            // it takes in the next message
    | Decide(k: nat, status: Status)     // its user answers a request that waits
    | Ask(data: Data)                    // its user asks for something
    | Push(host: Path)                   // or pushes a file
    | Emit(id: MessageId)                // the window loop sends a packet
    | Elsewhere(p: Peer)                 // its transfers are tidied up

  /** Nobody asks twice for a path, or for one that the other pushes. */
  predicate Enabled(s: Pair, act: Action) {
    match act
    case Deliver => s.toA < |s.b.wire| && !s.stoppedA
    case Decide(k, status) => k < |s.a.buffer| && status != APPROVAL_PENDING
    case Ask(data) =>
      && !data.Response? && !data.SendFile?
      && (data.ReceiveFile? ==> data.filepath !in s.askedA && data.filepath !in s.pushedB)
    case Push(host) => host != [] && PushedPath(s.a.env, host) !in s.askedB
    case Emit(id) => id in s.a.uploads && s.a.uploads[id].open && s.a.queue.slots > 0
    case Elsewhere(p) => p.queue == s.a.queue && p.wire == s.a.wire && p.buffer == s.a.buffer
  }

  /** An exception leaves the state it was thrown in, and one thrown while taking in a
      message stops that. RECEIVE_FILE arrives as the wire carries it, with the fixed
      packet size. */
  function Next(s: Pair, act: Action): Pair
    requires Enabled(s, act)
  {
    match act
    case Deliver =>
      var out := AuthorizeRequest(s.a, C.Delivered(s.b.wire[s.toA]));
      s.(a := out.peer, toA := s.toA + 1, stoppedA := out.error.Some?)
    case Decide(k, status) =>
      s.(a := RespondToRequest(s.a.(buffer := Unheld(s.a.buffer, k)), s.a.buffer[k], status).peer)
    case Ask(data) =>
      var sent := AskFor(s.a, data);
      s.(a := sent.peer,
         askedA := if data.ReceiveFile? && sent.error.None? then s.askedA + {data.filepath} else s.askedA)
    case Push(host) =>
      s.(a := CreateHostUpload(s.a, host).peer, pushedA := s.pushedA + {PushedPath(s.a.env, host)})
    case Emit(id) => s.(a := SendPacket(s.a, id).peer)
    case Elsewhere(p) => s.(a := p)
  }

  ghost predicate Inv(s: Pair) { Orderly(ViewOf(s)) && Orderly(ViewOf(Swap(s))) }

  // ----- what a peer's steps do to its own requests ----------------------------------

  /** Open requests stay as they are; the others stay or are forgotten for new ones. */
  ghost predicate OnlyNew(out: MessageMap, out': MessageMap) {
    && (forall x :: Taken(out, x) ==> x in out' && out'[x] == out[x])
    && (forall x :: x in out' ==> (x in out && out'[x] == out[x]) || out'[x].status.None?)
  }

  lemma OnlyNewTwice(a: MessageMap, b: MessageMap, c: MessageMap)
    requires OnlyNew(a, b) && OnlyNew(b, c)
    ensures OnlyNew(a, c)
  {
    forall x | Taken(a, x) ensures x in c && c[x] == a[x] { assert Taken(b, x); }
  }

  /** A state like this one but for `a`, with nothing of its open requests lost. */
  ghost predicate Goes(s: Pair, p: Peer) {
    Inv(s.(a := p)) && OnlyNew(s.a.queue.outgoing, p.queue.outgoing)
  }

  /** Nothing of the other peer's on its way is about this SEND_FILE. */
  ghost predicate Unawaited(s: Pair, m: Request) {
    var v := ViewOf(Swap(s));
    forall i :: InFlight(v, i) ==> !Serves(m, v.sent[i].messageId, v.out)
  }

  /** Sending never scans for ever: it takes a free slot and an id nobody holds. */
  lemma SentCore(p: Peer, data: Data) returns (id: MessageId)
    requires Conserved(p.queue) && p.queue.slots > 0
    ensures !Taken(p.queue.outgoing, id)
    ensures var out := SendRequest(p, data);
      && out.error.None?
      && out.peer.queue.outgoing == p.queue.outgoing[id := Message(Request(id, data), None)]
      && out.peer.queue.slots == p.queue.slots - 1
      && out.peer.wire == p.wire + [Request(id, data)] && out.peer.buffer == p.buffer
      && out.id == id
  {
    hide FirstFree, OpenIds, Send, FirstOnRing;
    FreeSlotMeansFreeId(p.queue, data);
    SendTakes(p.queue, data);
    id := Send(p.queue, data).id;
    assert !Taken(p.queue.outgoing, id) by { FirstIsFree(p.queue.outgoing, p.queue.next, id); }
  }

  lemma FirstIsFree(out: MessageMap, start: MessageId, id: MessageId)
    requires FirstOnRing(out, start, id)
    ensures !Taken(out, id)
  {
  }

  lemma SendKeeps(s: Pair, data: Data)
    requires Inv(s) && !data.Response? && !data.ReceiveFile?
    requires data.SendFile? ==> data.filepath in s.askedB + s.pushedA
    requires data.SendFile? ==> forall x :: Unawaited(s, Request(x, data))
    ensures Goes(s, SendRequest(s.a, data).peer)
    ensures SendRequest(s.a, data).error == if s.a.queue.slots == 0 then Some(NoMoreSlots) else None
  {
    if s.a.queue.slots > 0 {
      assert Conserved(s.a.queue);
      hide Inv, OpenIds, Unawaited, SendRequest, Taken;
      var id := SentCore(s.a, data);
      NewViews(s, id, data, SendRequest(s.a, data).peer);
      NewOne(s.a.queue.outgoing, id, Message(Request(id, data), None));
    }
  }

  lemma NewViews(s: Pair, id: MessageId, data: Data, p: Peer)
    requires Inv(s) && !data.Response? && !data.ReceiveFile?
    requires data.SendFile? ==> data.filepath in s.askedB + s.pushedA
    requires data.SendFile? ==> forall x :: Unawaited(s, Request(x, data))
    requires !Taken(s.a.queue.outgoing, id) && s.a.queue.slots > 0
    requires p.queue.outgoing == s.a.queue.outgoing[id := Message(Request(id, data), None)]
    requires p.queue.slots == s.a.queue.slots - 1
    requires p.wire == s.a.wire + [Request(id, data)] && p.buffer == s.a.buffer
    ensures Inv(s.(a := p))
  {
    hide Orderly, Unawaited, Taken;
    SentOrderly(ViewOf(s), id, data);
    Disjoint(ViewOf(Swap(s)));
    NothingAwaits(s, Request(id, data));
    BackOrderly(ViewOf(Swap(s)), Request(id, data), s.pushedA);
    assert ViewOf(s.(a := p)) == WithSent(ViewOf(s), id, data);
    assert ViewOf(Swap(s.(a := p))) == ViewOf(Swap(s)).(back := s.a.wire + [Request(id, data)]);
  }

  lemma NewOne(out: MessageMap, id: MessageId, m: Message)
    requires !Taken(out, id) && m.status.None?
    ensures OnlyNew(out, out[id := m])
  {
  }

  lemma Disjoint(v: View)
    requires Orderly(v)
    ensures v.asked !! v.pushed
  {
  }

  lemma NothingAwaits(s: Pair, m: Request)
    requires m.data.SendFile? ==> Unawaited(s, m)
    ensures var v := ViewOf(Swap(s)); forall i :: InFlight(v, i) ==> !Serves(m, v.sent[i].messageId, v.out)
  {
  }

  // ----- replies ---------------------------------------------------------------

  /** The same requests, slots, messages and waiting requests. */
  predicate Like(p: Peer, q: Peer) {
    && p.queue.outgoing == q.queue.outgoing && p.queue.slots == q.queue.slots
    && p.wire == q.wire && p.buffer == q.buffer
  }

  /** What `a` owes the other peer. */
  ghost predicate Owes(s: Pair, x: MessageId) { Owed(ViewOf(Swap(s)), x) }

  lemma LikeKeeps(s: Pair, p: Peer)
    requires Inv(s) && Like(s.a, p)
    ensures Goes(s, p)
    ensures forall x :: Owes(s, x) ==> Owes(s.(a := p), x)
  {
    assert ViewOf(s.(a := p)) == ViewOf(s);
    assert ViewOf(Swap(s.(a := p))) == ViewOf(Swap(s));
  }

  lemma ReplyKeeps(s: Pair, p: Peer, x: MessageId, status: Status)
    requires Inv(s) && Owes(s, x) && Like(s.a, p) && x in p.queue.incoming
    ensures var out := SendReply(p, x, status);
      && out.error.None? && Goes(s, out.peer)
      && out.peer.queue.outgoing == s.a.queue.outgoing && out.peer.queue.slots == s.a.queue.slots
      && (status == APPROVAL_PENDING ==> Owes(s.(a := out.peer), x))
  {
    hide Orderly, Owed;
    var q := SendReply(p, x, status).peer;
    var m := Request(x, Response(status));
    AppendOrderly(ViewOf(s), m);
    ReplyOrderly(ViewOf(Swap(s)), x, status);
    assert ViewOf(s.(a := q)) == ViewOf(s).(sent := s.a.wire + [m]);
    assert ViewOf(Swap(s.(a := q))) == ViewOf(Swap(s)).(back := s.a.wire + [m]);
  }

  lemma GoesOn(s: Pair, p: Peer, q: Peer)
    requires Goes(s, p) && Goes(s.(a := p), q)
    ensures Goes(s, q)
  {
    hide Inv;
    assert s.(a := p).(a := q) == s.(a := q);
    OnlyNewTwice(s.a.queue.outgoing, p.queue.outgoing, q.queue.outgoing);
  }

  lemma SendGoes(s: Pair, p: Peer, data: Data)
    requires Goes(s, p) && !data.Response? && !data.ReceiveFile? && !data.SendFile?
    ensures Goes(s, SendRequest(p, data).peer)
    ensures SendRequest(p, data).error == if p.queue.slots == 0 then Some(NoMoreSlots) else None
  {
    hide Inv, SendRequest;
    SendKeeps(s.(a := p), data);
    GoesOn(s, p, SendRequest(p, data).peer);
  }

  lemma LikeGoes(s: Pair, p: Peer, q: Peer)
    requires Goes(s, p) && Like(p, q)
    ensures Goes(s, q)
  {
    hide Inv;
    LikeKeeps(s.(a := p), q);
    GoesOn(s, p, q);
  }

  // ----- answering requests ----------------------------------------------------

  lemma AnswerListKeeps(s: Pair, p: Peer, r: Request)
    requires Inv(s) && Owes(s, r.messageId) && Like(s.a, p)
    requires r.data.ListFiles? && r.messageId in p.queue.incoming
    ensures Goes(s, AnswerListFiles(p, r).peer)
  {
    hide Inv, Owed, Entries, NoDirectory, SendReply, SendRequest, Goes, Like;
    var id := r.messageId;
    LikeKeeps(s, p);
    if NoDirectory(p.env, r.data.folderpath) { return; }
    var q := if id in p.listers then p
             else p.(listers := p.listers[id := OpenLister(Entries(p.env, r.data.folderpath))]);
    assert Like(s.a, q) by { LikeListers(s.a, p, q.listers); }
    ReplyKeeps(s, q, id, STATUS_OK);
    var p1 := SendReply(q, id, STATUS_OK).peer;
    assert p1.listers == q.listers by { ReplyOnly(q, id, STATUS_OK); }
    SendListGoes(s, p1, id);
  }

  lemma LikeListers(p: Peer, q: Peer, listers: map<MessageId, Lister>)
    requires Like(p, q)
    ensures Like(p, q.(listers := listers))
  {
  }

  lemma ReplyOnly(p: Peer, x: MessageId, status: Status)
    requires x in p.queue.incoming
    ensures SendReply(p, x, status).error.None?
    ensures SendReply(p, x, status).peer ==
      p.(queue := Answered(p.queue, x, status).value, wire := p.wire + [Request(x, Response(status))])
  {
  }

  lemma SendListGoes(s: Pair, p: Peer, id: MessageId)
    requires Goes(s, p) && id in p.listers
    ensures Goes(s, SendList(p, id).peer)
    ensures p.queue.slots > 0 ==> SendList(p, id).error != Some(NoMoreSlots)
  {
    hide Goes, SendRequest;
    if ValidLister(p.listers[id]) {
      var (l, packet) := NextList(p.listers[id], id);
      var q := p.(listers := p.listers[id := l]);
      LikeGoes(s, p, q);
      if packet.Some? { SendGoes(s, q, packet.value); }
    }
  }

  lemma SendPacketGoes(s: Pair, p: Peer, id: MessageId)
    requires Goes(s, p) && id in p.uploads
    ensures Goes(s, SendPacket(p, id).peer)
    ensures p.queue.slots > 0 ==> SendPacket(p, id).error != Some(NoMoreSlots)
  {
    hide Goes, SendRequest;
    if Typed(p.uploads[id]) {
      var (u, packet) := NextPacket(p.uploads[id], id);
      var q := p.(uploads := p.uploads[id := u]);
      LikeGoes(s, p, q);
      if packet.Some? { SendGoes(s, q, packet.value); }
    }
  }

  lemma SimpleReplyKeeps(s: Pair, p: Peer, r: Request)
    requires Inv(s) && Owes(s, r.messageId) && Like(s.a, p) && r.messageId in p.queue.incoming
    requires r.data.DataPacket? || r.data.FileList?
    ensures r.data.DataPacket? ==> Goes(s, ReceiveDataPacket(p, r).peer)
    ensures r.data.FileList? ==> Goes(s, ReceiveFileList(p, r).peer)
  {
    hide Inv, Owed, Owes, ReceivePacket, ReceiveList, SendReply, Goes;
    if r.data.DataPacket? {
      var DataPacket(id, packetId, data) := r.data;
      if id !in p.downloads || !p.downloads[id].download.request.SendFile? {
        ReplyKeeps(s, p, r.messageId, INVALID_REQUEST_ID);
      } else {
        var Incoming(d, keep) := p.downloads[id];
        var (d', error) := ReceivePacket(d, p.env.hash, packetId, data);
        SameRequest(d, p.env.hash, packetId, data);
        var done := d.open && !d'.open && error.None?;
        var p' := p.(downloads := p.downloads[id := Incoming(d', keep)],
                     saved := if done then p.saved + [(d'.request.filepath, d'.file)] else p.saved);
        LikeKeeps(s, p');
        LikeKeeps(s, p'.(saved := p.saved));
        var q := if !d'.open && !keep then p'.(downloads := p'.downloads - {id}) else p';
        ReplyKeeps(s, q, r.messageId, STATUS_OK);
      }
    } else {
      var FileList(id, packetId, files) := r.data;
      if id !in p.listings {
        ReplyKeeps(s, p, r.messageId, INVALID_REQUEST_ID);
      } else {
        var q := p.(listings := p.listings[id := ReceiveList(p.listings[id], packetId, files)]);
        ReplyKeeps(s, q, r.messageId, STATUS_OK);
      }
    }
  }

  lemma DownloadKeeps(s: Pair, p: Peer, id: MessageId, data: Data)
    requires Inv(s) && Owes(s, id) && Like(s.a, p) && id in p.queue.incoming && data.SendFile?
    ensures Goes(s, CreateDownload(p, id, data).peer)
  {
    hide Inv, Owed, Owes, SendReply, Goes;
    match p.env.destination(data)
    case Blocked => LikeKeeps(s, p);
    case Downloaded => ReplyKeeps(s, p, id, UP_TO_DATE);
    case _ =>
      var q := if id in p.downloads then p
               else p.(downloads := p.downloads[id := Incoming(OpenDownload(data), false)]);
      ReplyKeeps(s, q, id, STATUS_OK);
  }

  /** The RECEIVE_FILE that `a` owes is the only one for its path, so that nothing else
      on its way is served by the SEND_FILE that answers it. */
  ghost predicate OwedPath(s: Pair, r: Request) {
    var out := s.b.queue.outgoing;
    r.data.ReceiveFile? ==>
      (r.messageId in out && out[r.messageId].request.data.ReceiveFile?
       && out[r.messageId].request.data.filepath == r.data.filepath)
  }

  lemma OwedUnawaited(s: Pair, r: Request, m: Request)
    requires Inv(s) && Owes(s, r.messageId) && OwedPath(s, r) && r.data.ReceiveFile?
    requires m.data.SendFile? && m.data.filepath == r.data.filepath
    ensures Unawaited(s, m) && r.data.filepath in s.askedB
  {
    var v := ViewOf(Swap(s));
    forall i | InFlight(v, i) ensures !Serves(m, v.sent[i].messageId, v.out) {
      assert v.sent[i].messageId != r.messageId;
    }
  }

  lemma CreateUploadGoes(s: Pair, p: Peer, u: Upload)
    requires Goes(s, p) && Typed(u)
    requires u.request.filepath in s.askedB + s.pushedA
    requires forall x :: Unawaited(s.(a := p), Request(x, u.request))
    ensures Goes(s, CreateUpload(p, u).peer)
  {
    hide Inv, SendRequest, Unawaited;
    SendKeeps(s.(a := p), u.request);
    var sent := SendRequest(p, u.request);
    GoesOn(s, p, sent.peer);
    if sent.error.None? {
      LikeGoes(s, sent.peer, CreateUpload(p, u).peer);
    }
  }

  lemma PreparedPath(env: Env, host: Path, virtualPath: bytes, size: nat, start: nat)
    requires UploadError(env, host, size).None? && PrepareUpload(env, host, virtualPath, size, start).0.Some?
    ensures PrepareUpload(env, host, virtualPath, size, start).0.value.request.filepath == virtualPath
  {
  }

  lemma ServeKeeps(s: Pair, p: Peer, r: Request)
    requires Inv(s) && Owes(s, r.messageId) && OwedPath(s, r) && Like(s.a, p)
    requires r.data.ReceiveFile? && r.messageId in p.queue.incoming
    ensures Goes(s, AnswerReceiveFile(p, r).peer)
  {
    hide Inv, Owed, Owes, SendReply, Goes, CreateUpload, PrepareUpload, UploadError, VirtualToHost, Unawaited, Like;
    var ReceiveFile(path, size, start) := r.data;
    var host := VirtualToHost(p.env.root, path);
    LikeKeeps(s, p);
    if UploadError(p.env, host, size).None? {
      var (handler, status) := PrepareUpload(p.env, host, path, size, start);
      ReplyKeeps(s, p, r.messageId, status);
      var q := SendReply(p, r.messageId, status).peer;
      if handler.Some? {
        PreparedPath(p.env, host, path, size, start);
        OwedUnawaited(s, r, Request(0, handler.value.request));
        forall x ensures Unawaited(s.(a := q), Request(x, handler.value.request)) {
          var m := Request(x, handler.value.request);
          OwedUnawaited(s, r, m);
          UnawaitedStill(s, q, m);
        }
        CreateUploadGoes(s, q, handler.value);
      }
    }
  }

  lemma UnawaitedStill(s: Pair, p: Peer, m: Request)
    requires Unawaited(s, m)
    ensures Unawaited(s.(a := p), m)
  {
    var v, v' := ViewOf(Swap(s)), ViewOf(Swap(s.(a := p)));
    assert forall i :: InFlight(v', i) ==> InFlight(v, i);
  }

  /** Whatever the request and the status: at most one answer to what is owed, and the
      requests that follow from it. */
  lemma RespondKeeps(s: Pair, p: Peer, r: Request, status: Status)
    requires Inv(s) && Owes(s, r.messageId) && OwedPath(s, r) && Like(s.a, p)
    ensures var out := RespondToRequest(p, r, status);
      && Goes(s, out.peer)
      && (status == APPROVAL_PENDING ==>
            (out.error.None? && Owes(s.(a := out.peer), r.messageId) && out.peer.buffer == p.buffer))
  {
    hide Inv, Owed, Owes, OwedPath, Goes, AnswerReceiveFile, AnswerListFiles, ReceiveDataPacket,
         ReceiveFileList, CreateDownload;
    var q := p.(queue := Requested(p.queue, r));
    if status != STATUS_OK {
      ReplyKeeps(s, q, r.messageId, status);
    } else {
      match r.data
      case DataPacket(_, _, _) => SimpleReplyKeeps(s, q, r);
      case SendFile(_, _, _, _, _, _) => DownloadKeeps(s, q, r.messageId, r.data);
      case ReceiveFile(_, _, _) => ServeKeeps(s, q, r);
      case ListFiles(_) => AnswerListKeeps(s, q, r);
      case FileList(_, _, _) => SimpleReplyKeeps(s, q, r);
      case _ => ReplyKeeps(s, q, r.messageId, STATUS_OK);
    }
  }

  lemma AskUserKeeps(s: Pair, p: Peer, r: Request)
    requires Inv(s) && Owes(s, r.messageId) && Like(s.a, p)
    requires !r.data.ReceiveFile? && Opened(s, r)
    ensures Goes(s, AskUser(p, r).peer)
  {
    hide Orderly, Owed, RespondToRequest, OnlyNew;
    RespondKeeps(s, p, r, APPROVAL_PENDING);
    var q := RespondToRequest(p, r, APPROVAL_PENDING).peer;
    var h := q.(buffer := q.buffer + [r]);
    HoldOrderly(ViewOf(Swap(s.(a := q))), r);
    assert ViewOf(Swap(s.(a := h))) == ViewOf(Swap(s.(a := q))).(held := q.buffer + [r]);
    assert ViewOf(s.(a := h)) == ViewOf(s.(a := q));
  }

  // ----- taking in a message ---------------------------------------------------

  function Arrived(s: Pair): Pair { s.(toA := s.toA + 1) }

  /** A request that arrives is one the other peer has open. */
  ghost predicate Opened(s: Pair, m: Request) {
    var out := s.b.queue.outgoing;
    Taken(out, m.messageId) && out[m.messageId].request == m
  }

  lemma ArrivedKeeps(s: Pair)
    requires Inv(s) && s.toA < |s.b.wire|
    ensures ViewOf(Arrived(s)) == ViewOf(s).(read := s.toA + 1)
    ensures ViewOf(Swap(Arrived(s))) == ViewOf(Swap(s)).(taken := s.toA + 1)
    ensures Inv(Arrived(s))
    ensures var m := s.b.wire[s.toA]; IsRequest(m) ==> Owes(Arrived(s), m.messageId) && Opened(s, m)
  {
    hide Orderly, Owed;
    var m := s.b.wire[s.toA];
    assert s.toA <= |s.b.wire|;
    ReadOrderly(ViewOf(s));
    TakeOrderly(ViewOf(Swap(s)));
    if IsRequest(m) { FlightIs(ViewOf(Swap(s))); }
  }

  lemma FlightIs(v: View)
    requires Orderly(v) && v.taken < |v.sent| && IsRequest(v.sent[v.taken])
    ensures Taken(v.out, v.sent[v.taken].messageId)
    ensures v.out[v.sent[v.taken].messageId].request == v.sent[v.taken]
  {
    assert InFlight(v, v.taken);
  }

  /** The status noted for a reply: an accepted RECEIVE_FILE goes on waiting. */
  function NotedStatus(out: MessageMap, x: MessageId, status: Status): Status
    requires x in out
  {
    if status == STATUS_OK && out[x].request.data.ReceiveFile? then APPROVAL_PENDING else status
  }

  lemma ReplyAwaited(v: View)
    requires Orderly(v) && v.read < |v.back| && v.back[v.read].data.Response?
    ensures Taken(v.out, v.back[v.read].messageId) && v.slots < 255
  {
    assert Coming(v, v.read);
    TakenMeansSlots(v, v.back[v.read].messageId);
  }

  lemma RepliedCore(q: Queue, x: MessageId, status: Status)
    requires x in q.outgoing
    ensures Replied(q, x, status).Success?
    ensures var q' := Replied(q, x, status).value;
      && q'.outgoing == q.outgoing[x := q.outgoing[x].(status := Some(status))]
      && q'.slots == if Taken(q.outgoing, x) && status != APPROVAL_PENDING then (q.slots + 1) % 256 else q.slots
  {
    hide OpenIds;
    ReplyChanges(q, x, status);
  }

  /** A status noted on the arrival of a message that settles the request, or of a reply
      that does not. */
  lemma NotedKeeps(s: Pair, x: MessageId, status: Status)
    requires Inv(s) && s.toA < |s.b.wire| && x in s.a.queue.outgoing
    requires status == APPROVAL_PENDING ==> Taken(s.a.queue.outgoing, x)
    requires status != APPROVAL_PENDING && Taken(s.a.queue.outgoing, x)
      ==> Settler(s.b.wire[s.toA], x, s.a.queue.outgoing)
    ensures Replied(s.a.queue, x, status).Success?
    ensures var q := Replied(s.a.queue, x, status).value;
      var s' := Arrived(s).(a := s.a.(queue := q));
      && Inv(s') && ViewOf(Swap(s')) == ViewOf(Swap(Arrived(s)))
      && q.outgoing == s.a.queue.outgoing[x := s.a.queue.outgoing[x].(status := Some(status))]
      && (Taken(s.a.queue.outgoing, x) && status != APPROVAL_PENDING ==> q.slots > 0)
  {
    hide Orderly, Settler, Taken;
    ArrivedKeeps(s);
    RepliedCore(s.a.queue, x, status);
    NotedOrderly(ViewOf(s), x, status);
    var q := Replied(s.a.queue, x, status).value;
    assert ViewOf(Arrived(s).(a := s.a.(queue := q))) == WithNoted(ViewOf(s), x, status);
    if Taken(s.a.queue.outgoing, x) { TakenMeansSlots(ViewOf(s), x); }
  }

  lemma {:induction false} BurstGoes(s: Pair, p: Peer, id: MessageId, n: nat)
    requires Goes(s, p) && id in p.uploads
    ensures Goes(s, Burst(p, id, n).peer)
    ensures Burst(p, id, n).error != Some(NoMoreSlots)
    decreases n
  {
    hide Goes, SendPacket;
    if n != 0 && p.uploads[id].open && p.queue.slots != 0 {
      SendPacketGoes(s, p, id);
      var sent := SendPacket(p, id);
      if sent.error.None? { BurstGoes(s, sent.peer, id, n - 1); }
    }
  }

  lemma GoesSelf(s: Pair)
    requires Inv(s)
    ensures Goes(s, s.a)
  {
  }

  /** The rest of a reply's handling, once its status is noted. */
  lemma FollowUp(s: Pair, q: Peer, source: Data, id: MessageId)
    requires Inv(s) && s.a == q && q.queue.slots > 0
    ensures source.DataPacket? && source.requestId in q.uploads ==>
      Goes(s, NextOnReply(q, source.requestId).peer) && NextOnReply(q, source.requestId).error != Some(NoMoreSlots)
    ensures source.SendFile? && id in q.uploads ==>
      Goes(s, Burst(q, id, 5).peer) && Burst(q, id, 5).error != Some(NoMoreSlots)
    ensures source.FileList? && source.requestId in q.listers ==>
      && Goes(s, NextListOnReply(q, source.requestId, id).peer)
      && NextListOnReply(q, source.requestId, id).error != Some(NoMoreSlots)
  {
    hide Goes, Inv, Burst, SendList, SendPacket;
    GoesSelf(s);
    if source.DataPacket? && source.requestId in q.uploads {
      if q.uploads[source.requestId].open {
        SendPacketGoes(s, q, source.requestId);
      } else {
        LikeGoes(s, q, q.(uploads := q.uploads - {source.requestId}));
      }
    } else if source.SendFile? && id in q.uploads {
      BurstGoes(s, q, id, 5);
    } else if source.FileList? && source.requestId in q.listers {
      if q.listers[source.requestId].extraSent {
        LikeGoes(s, q, q.(uploads := q.uploads - {id}));
      } else {
        SendListGoes(s, q, source.requestId);
      }
    }
  }

  /** The requests of `a` once the arriving message has been noted. */
  function NotedOut(s: Pair): MessageMap
    requires s.toA < |s.b.wire|
  {
    var m, out := s.b.wire[s.toA], s.a.queue.outgoing;
    match m.data
    case Response(status) =>
      if m.messageId in out then
        out[m.messageId := out[m.messageId].(status := Some(NotedStatus(out, m.messageId, status)))]
      else out
    case SendFile(path, _, _, _, _, _) =>
      (match FindReceiveFile(out, path, 0)
       case Some(x) => out[x := out[x].(status := Some(STATUS_OK))]
       case None => out)
    case _ => out
  }

  lemma ReplyArrives(s: Pair)
    requires Inv(s) && s.toA < |s.b.wire| && s.b.wire[s.toA].data.Response?
    ensures var m := s.b.wire[s.toA];
      && Taken(s.a.queue.outgoing, m.messageId)
      && var out := ReceiveReply(s.a, m.messageId, m.data.status);
         && Inv(Arrived(s).(a := out.peer)) && OnlyNew(NotedOut(s), out.peer.queue.outgoing)
         && out.error != Some(NoMoreSlots)
  {
    hide Orderly, OnlyNew, Burst, NextOnReply, NextListOnReply, Replied;
    var m := s.b.wire[s.toA];
    var x, status, out := m.messageId, m.data.status, s.a.queue.outgoing;
    ReplyAwaited(ViewOf(s));
    var noted := NotedStatus(out, x, status);
    NotedKeeps(s, x, noted);
    var q := s.a.(queue := Replied(s.a.queue, x, noted).value);
    var s1 := Arrived(s).(a := q);
    GoesSelf(s1);
    if noted == STATUS_OK {
      FollowUp(s1, q, out[x].request.data, x);
      if out[x].request.data.ListFiles? {
        LikeGoes(s1, q, ReceiveReply(s.a, x, status).peer);
      }
    }
    assert Goes(s1, ReceiveReply(s.a, x, status).peer);
  }

  lemma FileArrives(s: Pair)
    requires Inv(s) && s.toA < |s.b.wire| && s.b.wire[s.toA].data.SendFile?
    ensures var next := AuthorizeRequest(s.a, s.b.wire[s.toA]).peer;
      Inv(Arrived(s).(a := next)) && OnlyNew(NotedOut(s), next.queue.outgoing)
  {
    hide Inv, OnlyNew, RespondToRequest, AskUser, Replied, Owed, FindReceiveFile;
    var m := s.b.wire[s.toA];
    ArrivedKeeps(s);
    match FindReceiveFile(s.a.queue.outgoing, m.data.filepath, 0)
    case Some(x) =>
      assert Settler(m, x, s.a.queue.outgoing);
      NotedKeeps(s, x, STATUS_OK);
      var q := s.a.(queue := Replied(s.a.queue, x, STATUS_OK).value);
      RespondKeeps(Arrived(s).(a := q), q, m, STATUS_OK);
    case None =>
      AskUserKeeps(Arrived(s), s.a, m);
  }

  lemma OtherArrives(s: Pair)
    requires Inv(s) && s.toA < |s.b.wire|
    requires !s.b.wire[s.toA].data.SendFile? && !s.b.wire[s.toA].data.Response?
    ensures var next := AuthorizeRequest(s.a, C.Delivered(s.b.wire[s.toA])).peer;
      Inv(Arrived(s).(a := next)) && OnlyNew(s.a.queue.outgoing, next.queue.outgoing)
  {
    hide Inv, OnlyNew, RespondToRequest, AskUser, Owed, MayList;
    var m := s.b.wire[s.toA];
    ArrivedKeeps(s);
    var r := C.Delivered(m);
    match r.data
    case DataPacket(id, _, _) =>
      RespondKeeps(Arrived(s), s.a, r, if id in s.a.downloads then STATUS_OK else INVALID_REQUEST_ID);
    case ReceiveFile(_, _, _) => RespondKeeps(Arrived(s), s.a, r, STATUS_OK);
    case ListFiles(folder) =>
      RespondKeeps(Arrived(s), s.a, r, if MayList(s.a.env, folder) then STATUS_OK else FILE_NOT_FOUND);
    case FileList(id, _, _) =>
      RespondKeeps(Arrived(s), s.a, r, if id in s.a.listings then STATUS_OK else INVALID_REQUEST_ID);
    case _ => AskUserKeeps(Arrived(s), s.a, r);
  }

  lemma DeliverKeeps(s: Pair)
    requires Inv(s) && Enabled(s, Deliver)
    ensures Inv(Next(s, Deliver)) && OnlyNew(NotedOut(s), Next(s, Deliver).a.queue.outgoing)
  {
    hide Orderly, OnlyNew, ReceiveReply, RespondToRequest, AskUser, FindReceiveFile;
    var m := s.b.wire[s.toA];
    if m.data.Response? { ReplyArrives(s); }
    else if m.data.SendFile? { FileArrives(s); }
    else { OtherArrives(s); }
    var t := Arrived(s).(a := Next(s, Deliver).a);
    assert ViewOf(Next(s, Deliver)) == ViewOf(t) && ViewOf(Swap(Next(s, Deliver))) == ViewOf(Swap(t));
  }

  // ----- the other steps -----------------------------------------------------------

  lemma DecideKeeps(s: Pair, k: nat, status: Status)
    requires Inv(s) && Enabled(s, Decide(k, status))
    ensures Goes(s, Next(s, Decide(k, status)).a)
  {
    hide Orderly, OnlyNew, RespondToRequest, Owed, Unheld;
    var p := s.a.(buffer := Unheld(s.a.buffer, k));
    UnholdOrderly(ViewOf(Swap(s)), k);
    assert ViewOf(s.(a := p)) == ViewOf(s);
    assert ViewOf(Swap(s.(a := p))) == ViewOf(Swap(s)).(held := p.buffer);
    HeldIsNot(ViewOf(Swap(s)), k);
    RespondKeeps(s.(a := p), p, s.a.buffer[k], status);
  }

  lemma HeldIsNot(v: View, k: nat)
    requires Orderly(v) && k < |v.held|
    ensures !v.held[k].data.ReceiveFile?
  {
  }

  lemma AskKeeps(s: Pair, data: Data)
    requires Inv(s) && Enabled(s, Ask(data))
    ensures Inv(Next(s, Ask(data))) && OnlyNew(s.a.queue.outgoing, Next(s, Ask(data)).a.queue.outgoing)
  {
    hide Inv, OnlyNew, AskFor;
    if data.ReceiveFile? { AskPathKeeps(s, data); } else { AskOtherKeeps(s, data); }
  }

  lemma AskPathKeeps(s: Pair, data: Data)
    requires Inv(s) && Enabled(s, Ask(data)) && data.ReceiveFile?
    ensures Inv(Next(s, Ask(data))) && OnlyNew(s.a.queue.outgoing, Next(s, Ask(data)).a.queue.outgoing)
  {
    hide Inv, OpenIds, SendRequest, Taken, C.Print;
    AlwaysPrinted(Request(SendRequest(s.a, data).id, data));
    if s.a.queue.slots > 0 {
      ConservedHere(s);
      var id := SentCore(s.a, data);
      AskedViews(s, id, data, SendRequest(s.a, data).peer);
      NewOne(s.a.queue.outgoing, id, Message(Request(id, data), None));
    } else {
      GoesSelf(s);
      NoSlotLeft(s.a, data);
    }
  }

  lemma AskOtherKeeps(s: Pair, data: Data)
    requires Inv(s) && Enabled(s, Ask(data)) && !data.ReceiveFile?
    ensures Inv(Next(s, Ask(data))) && OnlyNew(s.a.queue.outgoing, Next(s, Ask(data)).a.queue.outgoing)
  {
    hide Inv, OnlyNew, OpenIds, SendRequest, Taken, C.Print;
    SendKeeps(s, data);
    if s.a.queue.slots > 0 { UnsentKeeps(s, data); }
  }

  lemma AlwaysPrinted(r: Request)
    requires r.data.ReceiveFile?
    ensures C.Print(r).Success?
  {
  }

  lemma ConservedHere(s: Pair)
    requires Inv(s)
    ensures Conserved(s.a.queue)
  {
  }

  lemma NoSlotLeft(p: Peer, data: Data)
    requires p.queue.slots == 0
    ensures SendRequest(p, data) == SendOut(p, 0, Some(NoMoreSlots))
  {
  }

  /** A request that has its id and slot and is never written. */
  lemma UnsentKeeps(s: Pair, data: Data)
    requires Inv(s) && s.a.queue.slots > 0
    requires !data.Response? && !data.ReceiveFile? && !data.SendFile?
    ensures Goes(s, s.a.(queue := SendRequest(s.a, data).peer.queue))
  {
    hide Orderly, OnlyNew, OpenIds, SendRequest, Taken;
    ConservedHere(s);
    var id := SentCore(s.a, data);
    var p := s.a.(queue := SendRequest(s.a, data).peer.queue);
    NewOne(s.a.queue.outgoing, id, Message(Request(id, data), None));
    SentOrderly(ViewOf(s), id, data);
    UnsentOrderly(ViewOf(s), id, data);
    assert ViewOf(s.(a := p)) == WithSent(ViewOf(s), id, data).(sent := s.a.wire);
    assert ViewOf(Swap(s.(a := p))) == ViewOf(Swap(s));
  }

  lemma AskedViews(s: Pair, id: MessageId, data: Data, p: Peer)
    requires Inv(s) && data.ReceiveFile? && data.filepath !in s.askedA && data.filepath !in s.pushedB
    requires !Taken(s.a.queue.outgoing, id) && s.a.queue.slots > 0
    requires p.queue.outgoing == s.a.queue.outgoing[id := Message(Request(id, data), None)]
    requires p.queue.slots == s.a.queue.slots - 1
    requires p.wire == s.a.wire + [Request(id, data)] && p.buffer == s.a.buffer
    ensures Inv(s.(a := p, askedA := s.askedA + {data.filepath}))
  {
    hide Orderly, Taken;
    SentOrderly(ViewOf(s), id, data);
    Disjoint(ViewOf(Swap(s)));
    BackOrderly(ViewOf(Swap(s)), Request(id, data), s.pushedA);
    var t := s.(a := p, askedA := s.askedA + {data.filepath});
    assert ViewOf(t) == WithSent(ViewOf(s), id, data);
    assert ViewOf(Swap(t)) == ViewOf(Swap(s)).(back := s.a.wire + [Request(id, data)]);
  }

  lemma PushKeeps(s: Pair, host: Path)
    requires Inv(s) && Enabled(s, Push(host))
    ensures Inv(Next(s, Push(host))) && OnlyNew(s.a.queue.outgoing, Next(s, Push(host)).a.queue.outgoing)
  {
    hide Orderly, OnlyNew, CreateUpload, PrepareUpload, UploadError, PushedPath, Unawaited;
    var path := PushedPath(s.a.env, host);
    var s1 := s.(pushedA := s.pushedA + {path});
    Disjoint(ViewOf(Swap(s)));
    PushedOrderly(ViewOf(Swap(s)), s1.pushedA);
    assert ViewOf(s1) == ViewOf(s) && ViewOf(Swap(s1)) == ViewOf(Swap(s)).(pushed := s1.pushedA);
    GoesSelf(s1);
    if UploadError(s.a.env, host, 4096).None? && PrepareUpload(s.a.env, host, path, 4096, 0).0.Some? {
      var u := PrepareUpload(s.a.env, host, path, 4096, 0).0.value;
      PreparedPath(s.a.env, host, path, 4096, 0);
      forall x ensures Unawaited(s1, Request(x, u.request)) { NotAsked(s1, Request(x, u.request)); }
      CreateUploadGoes(s1, s1.a, u);
    }
  }

  lemma NotAsked(s: Pair, m: Request)
    requires Inv(s) && m.data.SendFile? && m.data.filepath !in s.askedB
    ensures Unawaited(s, m)
  {
  }

  lemma NextKeeps(s: Pair, act: Action)
    requires Inv(s) && Enabled(s, act)
    ensures Inv(Next(s, act))
    ensures OnlyNew(if act.Deliver? then NotedOut(s) else s.a.queue.outgoing, Next(s, act).a.queue.outgoing)
  {
    hide Inv, OnlyNew, NotedOut, AuthorizeRequest, RespondToRequest, SendRequest, CreateHostUpload, SendPacket, PushedPath;
    match act
    case Deliver => DeliverKeeps(s);
    case Decide(k, status) => DecideKeeps(s, k, status);
    case Ask(data) => AskKeeps(s, data);
    case Push(host) => PushKeeps(s, host);
    case Emit(id) =>
      GoesSelf(s);
      SendPacketGoes(s, s.a, id);
    case Elsewhere(p) => LikeKeeps(s, p);
  }

  // ----- runs ------------------------------------------------------------------

  /** Either peer may act at any time. */
  datatype Turn = Turn(byA: bool, act: Action)

  predicate Possible(s: Pair, t: Turn) { if t.byA then Enabled(s, t.act) else Enabled(Swap(s), t.act) }

  function Step(s: Pair, t: Turn): Pair
    requires Possible(s, t)
  {
    if t.byA then Next(s, t.act) else Swap(Next(Swap(s), t.act))
  }

  function Run(s: Pair, turns: seq<Turn>): Option<Pair>
    decreases |turns|
  {
    if turns == [] then Some(s)
    else
      match Run(s, turns[..|turns| - 1])
      case None => None
      case Some(mid) =>
        if Possible(mid, turns[|turns| - 1]) then Some(Step(mid, turns[|turns| - 1])) else None
  }

  /** Two peers that have just been connected. */
  predicate Fresh(s: Pair) {
    && s.a.queue == EMPTY && s.b.queue == EMPTY && s.a.wire == [] && s.b.wire == []
    && s.a.buffer == [] && s.b.buffer == [] && s.toA == 0 && s.toB == 0 && !s.stoppedA && !s.stoppedB
    && s.askedA == {} && s.askedB == {} && s.pushedA == {} && s.pushedB == {}
  }

  lemma SwapKeeps(s: Pair)
    ensures Swap(Swap(s)) == s && (Inv(s) <==> Inv(Swap(s)))
  {
  }

  lemma FreshKeeps(s: Pair)
    requires Fresh(s)
    ensures Inv(s)
  {
    assert OpenIds(EMPTY.outgoing) == {};
  }

  lemma {:induction false} RunKeeps(s: Pair, turns: seq<Turn>)
    requires Inv(s)
    ensures Run(s, turns).Some? ==> Inv(Run(s, turns).value)
    decreases |turns|
  {
    hide Inv, Next, Enabled;
    if turns != [] {
      var n := |turns| - 1;
      RunKeeps(s, turns[..n]);
      var before := Run(s, turns[..n]);
      if before.Some? && Possible(before.value, turns[n]) {
        var mid := before.value;
        SwapKeeps(mid);
        if turns[n].byA {
          NextKeeps(mid, turns[n].act);
        } else {
          NextKeeps(Swap(mid), turns[n].act);
          SwapKeeps(Next(Swap(mid), turns[n].act));
        }
      }
    }
  }

  // ----- what holds on every run ---------------------------------------------------

  /** The state after a run, as one of the peers sees it. */
  function Seen(s: Pair, turns: seq<Turn>, byA: bool): Pair
    requires Run(s, turns).Some?
  {
    if byA then Run(s, turns).value else Swap(Run(s, turns).value)
  }

  lemma SeenKeeps(s: Pair, turns: seq<Turn>, byA: bool)
    requires Fresh(s) && Run(s, turns).Some?
    ensures Inv(Seen(s, turns, byA))
  {
    hide Inv, Run;
    FreshKeeps(s);
    RunKeeps(s, turns);
    SwapKeeps(Run(s, turns).value);
  }

  /** Free slots and waiting requests are 255 together, always, and no step ends in an
      endless scan for an id. */
  lemma SlotsConserved(s: Pair, turns: seq<Turn>, byA: bool, data: Data)
    requires Fresh(s) && Run(s, turns).Some?
    ensures Conserved(Seen(s, turns, byA).a.queue)
    ensures SendRequest(Seen(s, turns, byA).a, data).error in {None, Some(NoMoreSlots)}
  {
    hide Run;
    SeenKeeps(s, turns, byA);
    var p := Seen(s, turns, byA).a;
    if p.queue.slots > 0 { var _ := SentCore(p, data); }
  }

  /** No settled request ever goes back to "approval pending": one found pending after
      a step was open before it. */
  lemma NeverSetBack(s: Pair, turns: seq<Turn>, byA: bool, act: Action)
    requires Fresh(s) && Run(s, turns).Some? && Enabled(Seen(s, turns, byA), act)
    ensures var before := Seen(s, turns, byA);
      var out, out' := before.a.queue.outgoing, Next(before, act).a.queue.outgoing;
      forall x :: x in out' && out'[x].status == Some(APPROVAL_PENDING) ==>
        Taken(out, x) && out'[x].request == out[x].request
  {
    hide Inv, Next, Enabled, Run, Fresh;
    SeenKeeps(s, turns, byA);
    var before := Seen(s, turns, byA);
    NextKeeps(before, act);
    if act.Deliver? {
      assert before.toA < |before.b.wire| by { DeliverPossible(before); }
      NotedNotBack(before);
    }
  }

  lemma DeliverPossible(s: Pair)
    requires Enabled(s, Deliver)
    ensures s.toA < |s.b.wire|
  {
  }

  lemma NotedNotBack(s: Pair)
    requires Inv(s) && s.toA < |s.b.wire|
    ensures var out, noted := s.a.queue.outgoing, NotedOut(s);
      forall x :: x in noted && noted[x].status == Some(APPROVAL_PENDING) ==>
        Taken(out, x) && noted[x].request == out[x].request
  {
    hide Orderly, FindReceiveFile;
    if s.b.wire[s.toA].data.Response? { ReplyAwaited(ViewOf(s)); }
  }

  /** What ends the waiting of RECEIVE_FILE `x`: the SEND_FILE for its path, or a refusal. */
  predicate Ends(m: Request, x: MessageId, out: MessageMap) {
    || Serves(m, x, out)
    || (m.data.Response? && m.messageId == x && m.data.status != STATUS_OK && m.data.status != APPROVAL_PENDING)
  }

  /** A RECEIVE_FILE keeps its slot through every step, of either peer, but the arrival
      of its SEND_FILE or of its refusal. */
  lemma KeepsItsSlot(s: Pair, turns: seq<Turn>, byA: bool, act: Action, x: MessageId)
    requires Fresh(s) && Run(s, turns).Some? && Enabled(Seen(s, turns, byA), act)
    requires var out := Seen(s, turns, byA).a.queue.outgoing;
      Taken(out, x) && out[x].request.data.ReceiveFile?
    ensures var before := Seen(s, turns, byA);
      var out, out' := before.a.queue.outgoing, Next(before, act).a.queue.outgoing;
      || (Taken(out', x) && out'[x].request == out[x].request)
      || (act.Deliver? && Ends(before.b.wire[before.toA], x, out))
  {
    hide Inv, Next, Enabled, Run, Fresh;
    SeenKeeps(s, turns, byA);
    var before := Seen(s, turns, byA);
    NextKeeps(before, act);
    if act.Deliver? {
      assert before.toA < |before.b.wire| by { DeliverPossible(before); }
      NotedKeepsSlot(before, x);
    }
  }

  lemma NotedKeepsSlot(s: Pair, x: MessageId)
    requires s.toA < |s.b.wire|
    requires Taken(s.a.queue.outgoing, x) && s.a.queue.outgoing[x].request.data.ReceiveFile?
    ensures var out, noted := s.a.queue.outgoing, NotedOut(s);
      || (Taken(noted, x) && noted[x].request == out[x].request)
      || Ends(s.b.wire[s.toA], x, out)
  {
  }

  /** Handling a reply never runs out of slots: the request it answers is open, and its
      slot is free before anything is sent. */
  lemma ReplyFindsASlot(s: Pair, turns: seq<Turn>, byA: bool)
    requires Fresh(s) && Run(s, turns).Some? && Enabled(Seen(s, turns, byA), Deliver)
    requires var t := Seen(s, turns, byA); t.b.wire[t.toA].data.Response?
    ensures var t := Seen(s, turns, byA);
      var m := t.b.wire[t.toA];
      && Taken(t.a.queue.outgoing, m.messageId)
      && AuthorizeRequest(t.a, m).error != Some(NoMoreSlots)
  {
    hide Inv, Run, ReceiveReply;
    SeenKeeps(s, turns, byA);
    ReplyArrives(Seen(s, turns, byA));
  }

  // ----- and without distinct paths ---------------------------------------------------

  /** A SEND_FILE pushed for a path that was asked for as well: it settles the request,
      and the reply that comes after sets it back, with its slot free. */
  lemma PushedPathSetsBack(p: Peer, x: MessageId, push: Request)
    requires Taken(p.queue.outgoing, x) && p.queue.outgoing[x].request.data.ReceiveFile?
    requires push.data.SendFile? && push.data.filepath == p.queue.outgoing[x].request.data.filepath
    requires FindReceiveFile(p.queue.outgoing, push.data.filepath, 0) == Some(x)
    ensures var settled := AuthorizeRequest(p, push).peer;
      && x in settled.queue.outgoing && !Taken(settled.queue.outgoing, x)
      && SetsBack(settled.queue, x, APPROVAL_PENDING)
      && var back := AuthorizeRequest(settled, Request(x, Response(STATUS_OK))).peer;
         Taken(back.queue.outgoing, x) && back.queue.slots == (p.queue.slots + 1) % 256
  {
    hide FindReceiveFile, RespondToRequest, AskUser, Replied, ReceiveReply;
    RepliedCore(p.queue, x, STATUS_OK);
    var q := p.(queue := Replied(p.queue, x, STATUS_OK).value);
    DownloadCore(q, push);
    AcceptedLate(RespondToRequest(q, push, STATUS_OK).peer, x);
  }

  lemma DownloadCore(p: Peer, push: Request)
    requires push.data.SendFile?
    ensures var q := RespondToRequest(p, push, STATUS_OK).peer.queue;
      q.outgoing == p.queue.outgoing && q.slots == p.queue.slots
  {
    hide AnswerReceiveFile, AnswerListFiles, ReceiveDataPacket, ReceiveFileList;
  }

  lemma AcceptedLate(p: Peer, x: MessageId)
    requires x in p.queue.outgoing && p.queue.outgoing[x].request.data.ReceiveFile?
    requires p.queue.outgoing[x].status == Some(STATUS_OK)
    ensures var q := ReceiveReply(p, x, STATUS_OK).peer.queue;
      Taken(q.outgoing, x) && q.slots == p.queue.slots
  {
    hide Burst, NextOnReply, NextListOnReply;
  }
}
