/** One peer against any bytes at all, with messages taken in again after an exception: when
    its slots are conserved, and which messages set a settled request back. */
module Redelivery {
  import opened Bytes
  import opened Requests
  import opened Transfers
  import opened MessageQueue
  import opened Paths
  import opened FileMapping
  import opened Peer
  import S = Stream
  import C = Codec

  // ----- what a step does to a peer's own requests ------------------------------------

  /** Every request is as it was, or new. */
  ghost predicate OldOrNew(out: MessageMap, out': MessageMap) {
    forall x :: x in out' ==> (x in out && out'[x] == out[x]) || out'[x].status.None?
  }

  /** So for a peer, with as many slots and waiting requests together, on the same host. */
  ghost predicate Steps(p: Peer, q: Peer) {
    OldOrNew(p.queue.outgoing, q.queue.outgoing) && Total(q.queue) == Total(p.queue) && q.env == p.env
  }

  lemma StepsTwice(p: Peer, q: Peer, r: Peer)
    requires Steps(p, q) && Steps(q, r)
    ensures Steps(p, r)
  {
  }

  lemma SameOutgoing(p: Peer, q: Peer)
    requires p.queue.outgoing == q.queue.outgoing && p.queue.slots == q.queue.slots && p.env == q.env
    ensures Steps(p, q)
  {
  }

  lemma SendSteps(p: Peer, data: Data)
    ensures Steps(p, SendRequest(p, data).peer)
  {
    hide FirstFree, FirstOnRing, OpenIds;
    if Send(p.queue, data).Sent? { SendTakes(p.queue, data); }
  }

  lemma SendPacketSteps(p: Peer, id: MessageId)
    requires id in p.uploads
    ensures Steps(p, SendPacket(p, id).peer)
  {
    hide SendRequest, NextPacket;
    if Typed(p.uploads[id]) {
      var (u, packet) := NextPacket(p.uploads[id], id);
      if packet.Some? { SendSteps(p.(uploads := p.uploads[id := u]), packet.value); }
    }
  }

  lemma SendListSteps(p: Peer, id: MessageId)
    requires id in p.listers
    ensures Steps(p, SendList(p, id).peer)
  {
    hide SendRequest, NextList;
    if ValidLister(p.listers[id]) {
      var (l, packet) := NextList(p.listers[id], id);
      if packet.Some? { SendSteps(p.(listers := p.listers[id := l]), packet.value); }
    }
  }

  lemma {:induction false} BurstSteps(p: Peer, id: MessageId, n: nat)
    requires id in p.uploads
    ensures Steps(p, Burst(p, id, n).peer)
    decreases n
  {
    hide SendPacket;
    if n != 0 && p.uploads[id].open && p.queue.slots != 0 {
      SendPacketSteps(p, id);
      var sent := SendPacket(p, id);
      if sent.error.None? {
        BurstSteps(sent.peer, id, n - 1);
        StepsTwice(p, sent.peer, Burst(sent.peer, id, n - 1).peer);
      }
    }
  }

  lemma ReplySteps(p: Peer, id: MessageId, status: Status)
    ensures SendReply(p, id, status).peer.queue.outgoing == p.queue.outgoing
    ensures SendReply(p, id, status).peer.queue.slots == p.queue.slots
    ensures SendReply(p, id, status).peer.env == p.env
    ensures SendReply(p, id, status).peer.listers == p.listers
  {
  }

  lemma CreateUploadSteps(p: Peer, u: Upload)
    ensures Steps(p, CreateUpload(p, u).peer)
  {
    hide SendRequest;
    SendSteps(p, u.request);
  }

  lemma AnswerSteps(p: Peer, r: Request)
    ensures r.data.ReceiveFile? ==> Steps(p, AnswerReceiveFile(p, r).peer)
    ensures r.data.ListFiles? ==> Steps(p, AnswerListFiles(p, r).peer)
  {
    hide SendReply, CreateUpload, PrepareUpload, VirtualToHost, UploadError, SendList, Entries, NoDirectory, Steps;
    if r.data.ReceiveFile? {
      var ReceiveFile(path, size, start) := r.data;
      var host := VirtualToHost(p.env.root, path);
      SameOutgoing(p, p);
      if UploadError(p.env, host, size).Some? { return; }
      var (handler, status) := PrepareUpload(p.env, host, path, size, start);
      ReplySteps(p, r.messageId, status);
      var replied := SendReply(p, r.messageId, status).peer;
      SameOutgoing(p, replied);
      if handler.Some? {
        CreateUploadSteps(replied, handler.value);
        StepsTwice(p, replied, CreateUpload(replied, handler.value).peer);
      }
    } else if r.data.ListFiles? {
      SameOutgoing(p, p);
      if NoDirectory(p.env, r.data.folderpath) { return; }
      var id := r.messageId;
      var q := if id in p.listers then p
               else p.(listers := p.listers[id := OpenLister(Entries(p.env, r.data.folderpath))]);
      ReplySteps(q, id, STATUS_OK);
      var replied := SendReply(q, id, STATUS_OK).peer;
      SameOutgoing(p, replied);
      SendListSteps(replied, id);
      StepsTwice(p, replied, SendList(replied, id).peer);
    }
  }

  lemma RespondSteps(p: Peer, r: Request, status: Status)
    ensures Steps(p, RespondToRequest(p, r, status).peer)
  {
    hide AnswerReceiveFile, AnswerListFiles, ReceiveDataPacket, ReceiveFileList, CreateDownload, SendReply, Steps;
    var q := p.(queue := Requested(p.queue, r));
    SameOutgoing(p, q);
    ReplySteps(q, r.messageId, status);
    QuietSteps(q, r);
    AnswerSteps(q, r);
    var out := RespondToRequest(p, r, status).peer;
    assert Steps(q, out) by {
      if status != STATUS_OK || !(r.data.ReceiveFile? || r.data.ListFiles?) { SameOutgoing(q, out); }
    }
    StepsTwice(p, q, out);
  }

  /** Answers that send no request of this peer's own. */
  lemma QuietSteps(p: Peer, r: Request)
    ensures r.data.DataPacket? ==> SameQueue(p, ReceiveDataPacket(p, r).peer)
    ensures r.data.SendFile? ==> SameQueue(p, CreateDownload(p, r.messageId, r.data).peer)
    ensures r.data.FileList? ==> SameQueue(p, ReceiveFileList(p, r).peer)
  {
    hide ReceivePacket, ReceiveList, ReceiveDataPacket;
    if r.data.DataPacket? { PacketSteps(p, r); }
  }

  lemma PacketSteps(p: Peer, r: Request)
    requires r.data.DataPacket?
    ensures SameQueue(p, ReceiveDataPacket(p, r).peer)
  {
    hide ReceivePacket, SendReply;
    var DataPacket(id, packetId, data) := r.data;
    ReplySteps(p, r.messageId, INVALID_REQUEST_ID);
    if id in p.downloads && p.downloads[id].download.request.SendFile? {
      var Incoming(d, keep) := p.downloads[id];
      var (d', error) := ReceivePacket(d, p.env.hash, packetId, data);
      assert d'.request == d.request by { SameRequest(d, p.env.hash, packetId, data); }
      var done := d.open && !d'.open && error.None?;
      var q := p.(downloads := p.downloads[id := Incoming(d', keep)],
                  saved := if done then p.saved + [(d'.request.filepath, d'.file)] else p.saved);
      ReplySteps(if !d'.open && !keep then q.(downloads := q.downloads - {id}) else q, r.messageId, STATUS_OK);
    }
  }

  ghost predicate SameQueue(p: Peer, q: Peer) {
    p.queue.outgoing == q.queue.outgoing && p.queue.slots == q.queue.slots && p.env == q.env
  }

  // ----- exactly the messages that set a request back -------------------------------------

  /** Some request that was settled is pending again. */
  ghost predicate SetsOneBack(out: MessageMap, out': MessageMap) {
    exists x: MessageId :: x in out && !Open(out[x]) && x in out' && out'[x].status == Some(APPROVAL_PENDING)
  }

  /** A reply to a settled request that does not settle it: "approval pending", or OK to a
      RECEIVE_FILE. */
  predicate LateReply(out: MessageMap, m: Request) {
    && m.data.Response? && m.messageId in out && !Open(out[m.messageId])
    && (m.data.status == APPROVAL_PENDING
        || (m.data.status == STATUS_OK && out[m.messageId].request.data.ReceiveFile?))
  }

  lemma OnlyOldAndNew(out: MessageMap, out': MessageMap)
    requires OldOrNew(out, out')
    ensures !SetsOneBack(out, out')
  {
  }

  /** Noting a status on one request, then only new ones. */
  lemma NotedOne(p: Peer, x: MessageId, status: Status, q: Peer)
    requires x in p.queue.outgoing && Steps(p.(queue := Replied(p.queue, x, status).value), q)
    ensures SetsOneBack(p.queue.outgoing, q.queue.outgoing) ==> SetsBack(p.queue, x, status)
    ensures Conserved(p.queue) ==> Total(q.queue) == 255 + if SetsBack(p.queue, x, status) then 1 else 0
  {
    hide OpenIds;
    ReplyChanges(p.queue, x, status);
    if Taken(p.queue.outgoing, x) { OneOpen(p.queue.outgoing, x); }
  }

  lemma OneOpen(out: MessageMap, x: MessageId)
    requires Taken(out, x)
    ensures |OpenIds(out)| > 0
  {
    assert x in OpenIds(out);
  }

  lemma NotedCore(q: Queue, x: MessageId, status: Status)
    requires x in q.outgoing
    ensures Replied(q, x, status).Success?
    ensures Replied(q, x, status).value.outgoing == q.outgoing[x := q.outgoing[x].(status := Some(status))]
  {
  }

  /** What follows a status that was noted. */
  lemma FollowUpSteps(p: Peer, x: MessageId, status: Status)
    requires x in p.queue.outgoing
    ensures var source := p.queue.outgoing[x].request.data;
      var noted := if status == STATUS_OK && source.ReceiveFile? then APPROVAL_PENDING else status;
      var q := p.(queue := Replied(p.queue, x, noted).value);
      && Steps(q, ReceiveReply(p, x, status).peer)
      && (noted == APPROVAL_PENDING ==> ReceiveReply(p, x, status).peer == q)
  {
    hide Burst, SendPacket, SendList, Replied, OldOrNew;
    var source := p.queue.outgoing[x].request.data;
    var noted := if status == STATUS_OK && source.ReceiveFile? then APPROVAL_PENDING else status;
    NotedCore(p.queue, x, noted);
    var q := p.(queue := Replied(p.queue, x, noted).value);
    SameOutgoing(q, q);
    match source {
      case DataPacket(upload, _, _) => if upload in q.uploads { SendPacketSteps(q, upload); }
      case SendFile(_, _, _, _, _, _) => if x in q.uploads { BurstSteps(q, x, 5); }
      case FileList(lister, _, _) => if lister in q.listers { SendListSteps(q, lister); }
      case _ =>
    }
  }

  /** For any peer in any state and any message: taking it in sets a request back exactly
      when it is a late reply; and then, and only then, slots are not conserved. */
  lemma SetsBackIff(p: Peer, m: Request)
    ensures SetsOneBack(p.queue.outgoing, AuthorizeRequest(p, m).peer.queue.outgoing)
      <==> LateReply(p.queue.outgoing, m)
    ensures Conserved(p.queue) ==>
      (Conserved(AuthorizeRequest(p, m).peer.queue) <==> !LateReply(p.queue.outgoing, m))
  {
    hide ReceiveReply, RespondToRequest, Replied, FindReceiveFile, MayList, OldOrNew, OpenIds, SetsOneBack;
    var out, q := p.queue.outgoing, AuthorizeRequest(p, m).peer;
    match m.data
    case Response(status) =>
      if m.messageId in out {
        ReplySetsBack(p, m.messageId, status);
      } else {
        SameSetsNone(out);
      }
    case SendFile(path, _, _, _, _, _) =>
      match FindReceiveFile(out, path, 0) {
        case Some(x) =>
          NotedCore(p.queue, x, STATUS_OK);
          RespondSteps(p.(queue := Replied(p.queue, x, STATUS_OK).value), m, STATUS_OK);
          NotedOne(p, x, STATUS_OK, q);
        case None =>
          RespondSteps(p, m, APPROVAL_PENDING);
          OnlyOldAndNew(out, q.queue.outgoing);
      }
    case _ =>
      OtherSteps(p, m);
      OnlyOldAndNew(out, q.queue.outgoing);
  }

  lemma SameSetsNone(out: MessageMap)
    ensures !SetsOneBack(out, out)
  {
  }

  lemma ReplySetsBack(p: Peer, x: MessageId, status: Status)
    requires x in p.queue.outgoing
    ensures var out, q, late := p.queue.outgoing, ReceiveReply(p, x, status).peer,
                                LateReply(p.queue.outgoing, Request(x, Response(status)));
      && (SetsOneBack(out, q.queue.outgoing) <==> late)
      && (Conserved(p.queue) ==> (Conserved(q.queue) <==> !late))
  {
    hide ReceiveReply, Replied, OldOrNew, OpenIds;
    var out := p.queue.outgoing;
    var noted := if status == STATUS_OK && out[x].request.data.ReceiveFile? then APPROVAL_PENDING else status;
    FollowUpSteps(p, x, status);
    NotedCore(p.queue, x, noted);
    var q := ReceiveReply(p, x, status).peer;
    NotedOne(p, x, noted, q);
    if noted == APPROVAL_PENDING { assert q.queue.outgoing[x].status == Some(APPROVAL_PENDING); }
  }

  lemma OtherSteps(p: Peer, m: Request)
    requires !m.data.Response? && !m.data.SendFile?
    ensures Steps(p, AuthorizeRequest(p, m).peer)
  {
    hide RespondToRequest, MayList;
    match m.data
    case DataPacket(id, _, _) => RespondSteps(p, m, if id in p.downloads then STATUS_OK else INVALID_REQUEST_ID);
    case ReceiveFile(_, _, _) => RespondSteps(p, m, STATUS_OK);
    case ListFiles(folder) => RespondSteps(p, m, if MayList(p.env, folder) then STATUS_OK else FILE_NOT_FOUND);
    case FileList(id, _, _) => RespondSteps(p, m, if id in p.listings then STATUS_OK else INVALID_REQUEST_ID);
    case _ => RespondSteps(p, m, APPROVAL_PENDING);
  }

  // ----- reads and what the user does ----------------------------------------------------

  /** What a peer does with each message of a read. */
  function Take(p: Peer, m: Request): (Peer, Option<Error>) {
    var out := AuthorizeRequest(p, m);
    (out.peer, out.error)
  }

  datatype Event =
    | Poll(read: bytes)                        // any bytes arrive
    | Respond(request: Request, status: Status) // the user answers a request
    | Ask(data: Data)                          // asks for something
    | Push(host: Path)                         // or pushes a file
    | Emit(id: MessageId)                      // the window loop sends a packet
    | Elsewhere(p: Peer)                       // the transfers are tidied up

  type Session = S.Polled<Peer>

  /** A read that throws keeps its bytes, and the next read starts from them. */
  function After(s: Session, e: Event): Session {
    match e
    case Poll(read) => S.PollWith(Take, s.state, s.buffer, read)
    case Respond(r, status) => s.(state := RespondToRequest(s.state, r, status).peer)
    case Ask(data) => s.(state := AskFor(s.state, data).peer)
    case Push(host) => if host == [] then s else s.(state := CreateHostUpload(s.state, host).peer)
    case Emit(id) => if id in s.state.uploads then s.(state := SendPacket(s.state, id).peer) else s
    case Elsewhere(p) => if p.queue == s.state.queue then s.(state := p.(env := s.state.env)) else s
  }

  function History(p: Peer, events: seq<Event>): Session {
    if events == [] then S.Polled(p, [], None)
    else After(History(p, events[..|events| - 1]), events[|events| - 1])
  }

  /** The messages an event hands over, those of a read that threw once more. */
  function Taking(s: Session, e: Event): seq<Request> {
    if e.Poll? then S.Drain(s.buffer + e.read).requests else []
  }

  /** After the first `k` of these messages; behind an exception nothing happens. */
  function Behind(p: Peer, ms: seq<Request>, k: nat): (Peer, Option<Error>)
    requires k <= |ms|
  {
    S.Feed(Take, p, ms[..k])
  }

  /** Among the messages taken in is a late reply. */
  ghost predicate TakesLate(p: Peer, ms: seq<Request>) {
    exists k :: 0 <= k < |ms| && Behind(p, ms, k).1.None? && LateReply(Behind(p, ms, k).0.queue.outgoing, ms[k])
  }

  /** Slots are conserved after each of them. */
  ghost predicate Throughout(p: Peer, ms: seq<Request>) {
    forall k :: 0 <= k <= |ms| ==> Conserved(Behind(p, ms, k).0.queue)
  }

  lemma OneMoreTaken(p: Peer, ms: seq<Request>, k: nat)
    requires k < |ms|
    ensures var (q, error) := Behind(p, ms, k);
      Behind(p, ms, k + 1) == if error.Some? then (q, error) else Take(q, ms[k])
  {
    hide AuthorizeRequest;
    assert ms[..k + 1] == ms[..k] + [ms[k]];
    S.FeedAppend(Take, p, ms[..k], [ms[k]]);
    var q := Behind(p, ms, k).0;
    assert [ms[k]][1..] == [];
  }

  lemma {:induction false} ConservedBehind(p: Peer, ms: seq<Request>, k: nat)
    requires Conserved(p.queue) && k <= |ms| && !TakesLate(p, ms)
    ensures Conserved(Behind(p, ms, k).0.queue)
    decreases k
  {
    hide AuthorizeRequest, LateReply, Conserved;
    if k > 0 {
      ConservedBehind(p, ms, k - 1);
      OneMoreTaken(p, ms, k - 1);
      SetsBackIff(Behind(p, ms, k - 1).0, ms[k - 1]);
    } else {
      assert ms[..0] == [];
    }
  }

  lemma MessagesIff(p: Peer, ms: seq<Request>)
    requires Conserved(p.queue)
    ensures Throughout(p, ms) <==> !TakesLate(p, ms)
  {
    hide AuthorizeRequest, LateReply, Conserved, Behind;
    if !TakesLate(p, ms) {
      forall k | 0 <= k <= |ms| ensures Conserved(Behind(p, ms, k).0.queue) { ConservedBehind(p, ms, k); }
    } else {
      var k: nat :| k < |ms| && Behind(p, ms, k).1.None? && LateReply(Behind(p, ms, k).0.queue.outgoing, ms[k]);
      OneMoreTaken(p, ms, k);
      SetsBackIff(Behind(p, ms, k).0, ms[k]);
      assert !(Conserved(Behind(p, ms, k).0.queue) && Conserved(Behind(p, ms, k + 1).0.queue));
    }
  }

  lemma {:induction false} OthersStep(s: Session, e: Event)
    requires !e.Poll?
    ensures Steps(s.state, After(s, e).state)
  {
    hide RespondToRequest, SendRequest, SendPacket, CreateUpload, PushedPath, PrepareUpload, UploadError, C.Print;
    var p := s.state;
    SameOutgoing(p, p);
    match e
    case Respond(r, status) => RespondSteps(p, r, status);
    case Ask(data) =>
      SendSteps(p, data);
      SameOutgoing(SendRequest(p, data).peer, p.(queue := SendRequest(p, data).peer.queue)) by { SendEnv(p, data); }
      StepsTwice(p, SendRequest(p, data).peer, p.(queue := SendRequest(p, data).peer.queue));
    case Push(host) =>
      if host != [] {
        if UploadError(p.env, host, 4096).Some? { return; }
        var prepared := PrepareUpload(p.env, host, PushedPath(p.env, host), 4096, 0).0;
        if prepared.Some? { CreateUploadSteps(p, prepared.value); }
      }
    case Emit(id) => if id in p.uploads { SendPacketSteps(p, id); }
    case Elsewhere(q) => if q.queue == p.queue { SameOutgoing(p, q.(env := p.env)); }
  }

  lemma SendEnv(p: Peer, data: Data)
    ensures SendRequest(p, data).peer.env == p.env
  {
  }

  lemma EventIff(s: Session, e: Event)
    requires Conserved(s.state.queue)
    ensures Throughout(s.state, Taking(s, e)) && Conserved(After(s, e).state.queue)
      <==> !TakesLate(s.state, Taking(s, e))
  {
    hide AuthorizeRequest, LateReply, OldOrNew, Behind, TakesLate;
    var ms := Taking(s, e);
    MessagesIff(s.state, ms);
    if e.Poll? {
      assert After(s, e).state == Behind(s.state, ms, |ms|).0 by { AllTaken(s, e); }
    } else {
      OthersStep(s, e);
    }
  }

  lemma AllTaken(s: Session, e: Event)
    requires e.Poll?
    ensures After(s, e).state == Behind(s.state, Taking(s, e), |Taking(s, e)|).0
  {
    hide AuthorizeRequest;
    var ms := Taking(s, e);
    assert ms[..|ms|] == ms;
  }

  /** Slots are conserved after every message of event `i`, and after it. */
  ghost predicate KeptAt(p: Peer, events: seq<Event>, i: nat)
    requires i < |events|
  {
    var s := History(p, events[..i]);
    Throughout(s.state, Taking(s, events[i])) && Conserved(After(s, events[i]).state.queue)
  }

  /** Event `i` takes in a late reply. */
  ghost predicate LateAt(p: Peer, events: seq<Event>, i: nat)
    requires i < |events|
  {
    var s := History(p, events[..i]);
    TakesLate(s.state, Taking(s, events[i]))
  }

  ghost predicate AllKept(p: Peer, events: seq<Event>) {
    forall i :: 0 <= i < |events| ==> KeptAt(p, events, i)
  }

  ghost predicate NeverLate(p: Peer, events: seq<Event>) {
    forall i :: 0 <= i < |events| ==> !LateAt(p, events, i)
  }

  lemma UpToTheLast(p: Peer, events: seq<Event>)
    requires events != []
    ensures var n := |events| - 1;
      && (AllKept(p, events) <==> AllKept(p, events[..n]) && KeptAt(p, events, n))
      && (NeverLate(p, events) <==> NeverLate(p, events[..n]) && !LateAt(p, events, n))
  {
    hide KeptAt, LateAt, History;
    var n := |events| - 1;
    forall i | 0 <= i < n
      ensures KeptAt(p, events[..n], i) == KeptAt(p, events, i)
      ensures LateAt(p, events[..n], i) == LateAt(p, events, i)
    {
      SameBefore(p, events, n, i);
    }
  }

  lemma SameBefore(p: Peer, events: seq<Event>, n: nat, i: nat)
    requires i < n <= |events|
    ensures KeptAt(p, events[..n], i) == KeptAt(p, events, i)
    ensures LateAt(p, events[..n], i) == LateAt(p, events, i)
  {
    hide History, Taking, After, Throughout, TakesLate;
    assert events[..n][..i] == events[..i];
  }

  lemma ConservedNow(p: Peer, events: seq<Event>)
    requires Conserved(p.queue)
    requires events != [] ==> KeptAt(p, events, |events| - 1)
    ensures Conserved(History(p, events).state.queue)
  {
    hide After, Throughout, Conserved;
  }

  /** For any bytes in any reads, with whatever an exception brings again, and anything the
      user does in between: free slots and waiting requests are 255 together, after every
      message and every other step, exactly as long as no late reply is taken in. */
  lemma {:induction false} ConservedIff(p: Peer, events: seq<Event>)
    requires Conserved(p.queue)
    ensures AllKept(p, events) <==> NeverLate(p, events)
  {
    hide KeptAt, LateAt, Conserved, History;
    if events != [] {
      var before := events[..|events| - 1];
      ConservedIff(p, before);
      UpToTheLast(p, events);
      if AllKept(p, before) {
        ConservedNow(p, before);
        LastEvent(p, events);
      }
    }
  }

  lemma LastEvent(p: Peer, events: seq<Event>)
    requires events != [] && Conserved(History(p, events[..|events| - 1]).state.queue)
    ensures KeptAt(p, events, |events| - 1) <==> !LateAt(p, events, |events| - 1)
  {
    hide Throughout, TakesLate, After, Taking, Conserved, History;
    EventIff(History(p, events[..|events| - 1]), events[|events| - 1]);
  }

  // ----- messages taken in again -----------------------------------------------------

  /** After a read that threw, each of its messages is handed over again, and sets a request
      back exactly when it is a late reply by then. */
  lemma RedeliveredIff(s: Session, read: bytes, more: bytes, k: nat)
    requires After(s, Poll(read)).error.Some? && k < |Taking(s, Poll(read))|
    ensures var ms, next := Taking(s, Poll(read)), After(s, Poll(read));
      var again := Taking(next, Poll(more));
      && ms <= again
      && (Behind(next.state, again, k).1.None? ==>
            var q := Behind(next.state, again, k).0;
            (SetsOneBack(q.queue.outgoing, Behind(next.state, again, k + 1).0.queue.outgoing)
             <==> LateReply(q.queue.outgoing, ms[k])))
  {
    hide AuthorizeRequest, SetsOneBack, LateReply;
    S.ThrowRedelivers(Take, s.state, s.buffer, read, more);
    var next := After(s, Poll(read));
    var again := Taking(next, Poll(more));
    OneMoreTaken(next.state, again, k);
    SetsBackIff(Behind(next.state, again, k).0, again[k]);
  }

  // ----- messages that throw whatever the peer's state ------------------------------------

  /** A request that throws before any answer: a listing that opens no folder, or a file
      that cannot be read. */
  predicate Thrown(env: Env, m: Request) {
    || (m.data.ListFiles? && MayList(env, m.data.folderpath) && NoDirectory(env, m.data.folderpath))
    || (m.data.ReceiveFile? && ServeStatus(env, m.data) == Failure(HostError))
  }

  lemma ThrowsAlways(p: Peer, m: Request)
    requires Thrown(p.env, m)
    ensures Take(p, m) == (p.(queue := Requested(p.queue, m)), Some(HostError)) && !m.data.Response?
  {
    hide MayList, NoDirectory, VirtualToHost, NotFound, Entries, PrepareUpload;
  }

  /** A peer stays on its host. */
  lemma SameHost(p: Peer, m: Request)
    ensures Take(p, m).0.env == p.env
  {
    hide ReceiveReply, RespondToRequest, Replied, FindReceiveFile, MayList, OldOrNew, OpenIds;
    match m.data
    case Response(status) => if m.messageId in p.queue.outgoing { FollowUpSteps(p, m.messageId, status); }
    case SendFile(path, _, _, _, _, _) =>
      match FindReceiveFile(p.queue.outgoing, path, 0) {
        case Some(x) =>
          NotedCore(p.queue, x, STATUS_OK);
          RespondSteps(p.(queue := Replied(p.queue, x, STATUS_OK).value), m, STATUS_OK);
        case None => RespondSteps(p, m, APPROVAL_PENDING);
      }
    case _ => OtherSteps(p, m);
  }

  lemma {:induction false} FeedThrows(p: Peer, ms: seq<Request>, k: nat)
    requires k < |ms| && Thrown(p.env, ms[k])
    ensures S.Feed(Take, p, ms).1.Some?
    decreases k
  {
    hide Take, Thrown;
    if k == 0 {
      ThrowsAlways(p, ms[0]);
    } else if Take(p, ms[0]).1.None? {
      SameHost(p, ms[0]);
      FeedThrows(Take(p, ms[0]).0, ms[1..], k - 1);
    }
  }

  lemma {:induction false} FeedSameHost(p: Peer, ms: seq<Request>)
    ensures S.Feed(Take, p, ms).0.env == p.env
    decreases |ms|
  {
    hide Take;
    if ms != [] {
      SameHost(p, ms[0]);
      FeedSameHost(Take(p, ms[0]).0, ms[1..]);
    }
  }

  lemma AfterSameHost(s: Session, e: Event)
    ensures After(s, e).state.env == s.state.env
    ensures !e.Poll? ==> After(s, e).buffer == s.buffer
  {
    hide Take, RespondToRequest, AskFor, CreateHostUpload, SendPacket;
    if e.Poll? { FeedSameHost(s.state, S.Drain(s.buffer + e.read).requests); } else { OthersStep(s, e); }
  }

  lemma {:induction false} HistorySameHost(p: Peer, events: seq<Event>)
    ensures History(p, events).state.env == p.env
  {
    hide After;
    if events != [] {
      HistorySameHost(p, events[..|events| - 1]);
      AfterSameHost(History(p, events[..|events| - 1]), events[|events| - 1]);
    }
  }

  /** Some message in the buffer throws always. */
  ghost predicate Stuck(s: Session, ms: seq<Request>) {
    && ms <= S.Drain(s.buffer).requests
    && exists k :: 0 <= k < |ms| && Thrown(s.state.env, ms[k])
  }

  lemma StaysStuck(s: Session, e: Event, ms: seq<Request>)
    requires Stuck(s, ms)
    ensures Stuck(After(s, e), ms)
    ensures e.Poll? ==> After(s, e).error.Some? && ms <= Taking(s, e)
  {
    hide Take, Thrown, S.Drain;
    AfterSameHost(s, e);
    if e.Poll? {
      var k: nat :| k < |ms| && Thrown(s.state.env, ms[k]);
      S.DrainGrows(s.buffer, e.read);
      assert Taking(s, e)[k] == ms[k];
      FeedThrows(s.state, Taking(s, e), k);
    } else {
      hide After;
    }
  }

  /** Once a read has brought a message that throws whatever the peer's state, every later
      read throws, and hands over every message of that read again, whatever else happens. */
  lemma {:induction false} NeverPast(p: Peer, events: seq<Event>, i: nat, k: nat)
    requires i < |events| && events[i].Poll?
    requires k < |Taking(History(p, events[..i]), events[i])|
    requires Thrown(p.env, Taking(History(p, events[..i]), events[i])[k])
    ensures var ms := Taking(History(p, events[..i]), events[i]);
      && Stuck(History(p, events), ms)
      && forall j :: i <= j < |events| && events[j].Poll? ==>
           var before := History(p, events[..j]);
           After(before, events[j]).error.Some? && ms <= Taking(before, events[j])
    decreases |events|
  {
    hide Take, Thrown, S.Drain, After, Stuck, History, Taking;
    var n := |events| - 1;
    var first, ms := History(p, events[..i]), Taking(History(p, events[..i]), events[i]);
    assert History(p, events) == After(History(p, events[..n]), events[n]) by { LastStep(p, events); }
    if i == n {
      HistorySameHost(p, events[..i]);
      GetsStuck(first, events[i], k);
    } else {
      assert events[..n][..i] == events[..i];
      NeverPast(p, events[..n], i, k);
      StaysStuck(History(p, events[..n]), events[n], ms);
      forall j | i <= j < |events| && events[j].Poll?
        ensures var before := History(p, events[..j]);
          After(before, events[j]).error.Some? && ms <= Taking(before, events[j])
      {
        if j < n { assert events[..n][..j] == events[..j] && events[..n][j] == events[j]; }
      }
    }
  }

  lemma LastStep(p: Peer, events: seq<Event>)
    requires events != []
    ensures History(p, events) == After(History(p, events[..|events| - 1]), events[|events| - 1])
  {
    hide After;
  }

  lemma GetsStuck(s: Session, e: Event, k: nat)
    requires e.Poll? && k < |Taking(s, e)| && Thrown(s.state.env, Taking(s, e)[k])
    ensures Stuck(After(s, e), Taking(s, e)) && After(s, e).error.Some?
  {
    hide Take, Thrown, S.Drain;
    AfterSameHost(s, e);
    FeedThrows(s.state, Taking(s, e), k);
  }

  /** An accepted RECEIVE_FILE. */
  lemma AcceptedTakes(p: Peer, x: MessageId)
    requires x in p.queue.outgoing && p.queue.outgoing[x].request.data.ReceiveFile?
    ensures var m, out := p.queue.outgoing[x], p.queue.outgoing;
      var (q, error) := Take(p, Request(x, Response(STATUS_OK)));
      && error.None? && q.env == p.env && q.listers == p.listers
      && q.queue.next == p.queue.next && q.queue.slots == p.queue.slots
      && q.queue.outgoing == out[x := m.(status := Some(APPROVAL_PENDING))]
  {
    hide Burst, SendPacket, SendList, OpenIds;
    ReplyChanges(p.queue, x, APPROVAL_PENDING);
  }

  /** The SEND_FILE for a RECEIVE_FILE that waits. */
  lemma FileTakes(p: Peer, x: MessageId, file: Request)
    requires file.data.SendFile? && FindReceiveFile(p.queue.outgoing, file.data.filepath, 0) == Some(x)
    requires Taken(p.queue.outgoing, x) && p.queue.slots < 255 && p.env.destination(file.data) != Blocked
    ensures var m, out := p.queue.outgoing[x], p.queue.outgoing;
      var (q, error) := Take(p, file);
      && error.None? && q.env == p.env && q.listers == p.listers
      && q.queue.next == p.queue.next && q.queue.slots == p.queue.slots + 1
      && q.queue.outgoing == out[x := m.(status := Some(STATUS_OK))]
  {
    hide OpenIds, FindReceiveFile, Replied, RespondToRequest;
    ReplyChanges(p.queue, x, STATUS_OK);
    NotedCore(p.queue, x, STATUS_OK);
    DownloadTakes(p.(queue := Replied(p.queue, x, STATUS_OK).value), file);
  }

  lemma DownloadTakes(p: Peer, file: Request)
    requires file.data.SendFile? && p.env.destination(file.data) != Blocked
    ensures var Out(q, error) := RespondToRequest(p, file, STATUS_OK);
      && error.None? && q.env == p.env && q.listers == p.listers
      && q.queue.next == p.queue.next && SameQueue(p, q)
  {
  }

  /** The first packet of a listing, with or without a slot for it. */
  lemma FirstListing(p: Peer, id: MessageId, entries: seq<FileInfo>)
    requires id in p.listers && p.listers[id] == OpenLister(entries)
    requires p.queue.slots > 0 ==> !Taken(p.queue.outgoing, p.queue.next)
    ensures var Out(q, error) := SendList(p, id);
      && q.env == p.env && q.listers.Keys == p.listers.Keys
      && if p.queue.slots == 0 then error == Some(NoMoreSlots) && q.queue == p.queue
         else error.None? && q.queue.slots == p.queue.slots - 1 && SlotGone(p.queue, q.queue)
  {
    hide NextList;
    FirstPacket(entries, id);
    var (l, packet) := NextList(p.listers[id], id);
    var q := p.(listers := p.listers[id := l]);
    assert q.listers.Keys == p.listers.Keys;
    NextTaken(p.queue, packet.value);
  }

  lemma FirstPacket(entries: seq<FileInfo>, id: MessageId)
    ensures NextList(OpenLister(entries), id).1.Some?
  {
  }

  /** One request more, under the next id. */
  ghost predicate SlotGone(q: Queue, q': Queue) {
    && q'.slots == q.slots - 1
    && forall y :: y in q.outgoing && y != q.next ==> y in q'.outgoing && q'.outgoing[y] == q.outgoing[y]
  }

  lemma NextTaken(q: Queue, data: Data)
    requires q.slots > 0 ==> !Taken(q.outgoing, q.next)
    ensures if q.slots == 0 then Send(q, data).NoSlots?
            else Send(q, data).Sent? && SlotGone(q, Send(q, data).queue)
  {
    assert !Taken(q.outgoing, q.next) ==> FirstFree(q.outgoing, q.next, 256) == Some(q.next);
  }

  /** A listing that is accepted and can be opened. */
  predicate Listable(env: Env, m: Request) {
    m.data.ListFiles? && MayList(env, m.data.folderpath) && !NoDirectory(env, m.data.folderpath)
  }

  lemma ListingTakes(p: Peer, r: Request)
    requires Listable(p.env, r) && r.messageId !in p.listers
    requires p.queue.slots > 0 ==> !Taken(p.queue.outgoing, p.queue.next)
    ensures var (q, error) := Take(p, r);
      && q.env == p.env && q.listers.Keys == p.listers.Keys + {r.messageId}
      && if p.queue.slots == 0 then
           error == Some(NoMoreSlots) && q.queue.outgoing == p.queue.outgoing && q.queue.slots == 0
         else error.None? && q.queue.slots == p.queue.slots - 1 && SlotGone(p.queue, q.queue)
  {
    hide Entries, MayList, NoDirectory, OpenLister, SendList, SlotGone;
    var id := r.messageId;
    var entries := Entries(p.env, r.data.folderpath);
    var q := p.(queue := Requested(p.queue, r), listers := p.listers[id := OpenLister(entries)]);
    var replied := SendReply(q, id, STATUS_OK).peer;
    FirstListing(replied, id, entries);
    assert SlotGone(replied.queue, SendList(replied, id).peer.queue) ==>
      SlotGone(p.queue, SendList(replied, id).peer.queue) by { SameGone(p.queue, replied.queue, SendList(replied, id).peer.queue); }
  }

  lemma SameGone(q: Queue, r: Queue, q': Queue)
    requires q.outgoing == r.outgoing && q.slots == r.slots && q.next == r.next
    ensures SlotGone(r, q') ==> SlotGone(q, q')
  {
  }

  /** The last RECEIVE_FILE of a peer without a slot: one read brings OK for it, its
      SEND_FILE and two LIST_FILES. The second of these throws; the next read begins with
      the same OK, and sets the settled request back. */
  lemma RedeliverySetsBack(p: Peer, x: MessageId, file: Request, l1: Request, l2: Request)
    requires Conserved(p.queue) && p.queue.slots == 0 && Taken(p.queue.outgoing, x)
    requires file.data.SendFile? && FindReceiveFile(p.queue.outgoing, file.data.filepath, 0) == Some(x)
    requires Listable(p.env, l1) && Listable(p.env, l2) && l1.messageId != l2.messageId
    requires p.env.destination(file.data) != Blocked
    requires l1.messageId !in p.listers && l2.messageId !in p.listers
    requires !Taken(p.queue.outgoing, p.queue.next)
    ensures var ok := Request(x, Response(STATUS_OK));
      var (q, error) := S.Feed(Take, p, [ok, file, l1, l2]);
      && error == Some(NoMoreSlots)
      && Conserved(q.queue) && LateReply(q.queue.outgoing, ok)
      && !Conserved(AuthorizeRequest(q, ok).peer.queue)
  {
    hide Take, AuthorizeRequest, MayList, NoDirectory, FindReceiveFile, OpenIds, Taken, LateReply, SlotGone, Conserved;
    var ok := Request(x, Response(STATUS_OK));
    var out := p.queue.outgoing;
    IsRequested(out, x, file.data.filepath);
    AcceptedTakes(p, x);
    var p1 := Take(p, ok).0;
    SameRequests(out, x, APPROVAL_PENDING, file.data.filepath, 0);
    StillTaken(out, x);
    FileTakes(p1, x, file);
    var p2 := Take(p1, file).0;
    assert p2.queue.outgoing == out[x := out[x].(status := Some(STATUS_OK))];
    NextStillFree(out, x, p.queue.next);
    ListingTakes(p2, l1);
    var p3 := Take(p2, l1).0;
    ListingTakes(p3, l2);
    var p4 := Take(p3, l2).0;
    FeedFour(p, ok, file, l1, l2);
    StillSettled(p2.queue, p3.queue, x);
    NotLate(p, p1, p2, p3, ok, file, l1, l2);
    SetsBackIff(p4, ok);
  }

  /** With any slots left: one read brings OK for a RECEIVE_FILE, its SEND_FILE and a request
      that throws. The next read begins with the same OK, and sets the settled request back. */
  lemma ThrownSetsBack(p: Peer, x: MessageId, file: Request, m: Request)
    requires Conserved(p.queue) && Taken(p.queue.outgoing, x) && Thrown(p.env, m)
    requires file.data.SendFile? && FindReceiveFile(p.queue.outgoing, file.data.filepath, 0) == Some(x)
    requires p.env.destination(file.data) != Blocked
    ensures var ok := Request(x, Response(STATUS_OK));
      var (q, error) := S.Feed(Take, p, [ok, file, m]);
      && error == Some(HostError)
      && Conserved(q.queue) && LateReply(q.queue.outgoing, ok)
      && !Conserved(AuthorizeRequest(q, ok).peer.queue)
  {
    hide Take, AuthorizeRequest, Thrown, FindReceiveFile, OpenIds, Taken, LateReply, Conserved;
    var ok := Request(x, Response(STATUS_OK));
    var out := p.queue.outgoing;
    IsRequested(out, x, file.data.filepath);
    AcceptedTakes(p, x);
    var p1 := Take(p, ok).0;
    SameRequests(out, x, APPROVAL_PENDING, file.data.filepath, 0);
    StillTaken(out, x);
    SlotsBelow(p.queue, x);
    FileTakes(p1, x, file);
    var p2 := Take(p1, file).0;
    assert p2.queue.outgoing == out[x := out[x].(status := Some(STATUS_OK))];
    ThrowsAlways(p2, m);
    FeedThree(p, ok, file, m);
    NowSettled(p2.queue.outgoing, x);
    AlsoConserved(p, p1, p2, ok, file, m);
    SetsBackIff(Take(p2, m).0, ok);
  }

  lemma SlotsBelow(q: Queue, x: MessageId)
    requires Conserved(q) && Taken(q.outgoing, x)
    ensures q.slots < 255
  {
    OneOpen(q.outgoing, x);
  }

  lemma NowSettled(out: MessageMap, x: MessageId)
    requires x in out && out[x].request.data.ReceiveFile? && out[x].status == Some(STATUS_OK)
    ensures LateReply(out, Request(x, Response(STATUS_OK)))
  {
  }

  lemma AlsoConserved(p: Peer, p1: Peer, p2: Peer, ok: Request, file: Request, m: Request)
    requires Conserved(p.queue) && ok.data.Response? && Taken(p.queue.outgoing, ok.messageId)
    requires !file.data.Response? && !m.data.Response?
    requires p1 == Take(p, ok).0 && p2 == Take(p1, file).0
    ensures Conserved(Take(p2, m).0.queue)
  {
    hide AuthorizeRequest, Conserved;
    SetsBackIff(p, ok);
    SetsBackIff(p1, file);
    SetsBackIff(p2, m);
  }

  lemma FeedThree(p: Peer, m1: Request, m2: Request, m3: Request)
    requires Take(p, m1).1.None? && Take(Take(p, m1).0, m2).1.None?
    ensures S.Feed(Take, p, [m1, m2, m3]) == Take(Take(Take(p, m1).0, m2).0, m3)
  {
    hide Take;
    assert [m1, m2, m3][1..] == [m2, m3] && [m2, m3][1..] == [m3] && [m3][1..] == [];
    assert S.Feed(Take, Take(Take(p, m1).0, m2).0, [m3]) == Take(Take(Take(p, m1).0, m2).0, m3);
  }

  lemma IsRequested(out: MessageMap, x: MessageId, path: bytes)
    requires FindReceiveFile(out, path, 0) == Some(x)
    ensures x in out && out[x].request.data.ReceiveFile?
  {
  }

  lemma {:induction false} SameRequests(out: MessageMap, x: MessageId, status: Status, path: bytes, from: nat)
    requires x in out
    ensures FindReceiveFile(out[x := out[x].(status := Some(status))], path, from) == FindReceiveFile(out, path, from)
    decreases 256 - from
  {
    if from < 256 { SameRequests(out, x, status, path, from + 1); }
  }

  lemma StillTaken(out: MessageMap, x: MessageId)
    requires x in out
    ensures Taken(out[x := out[x].(status := Some(APPROVAL_PENDING))], x)
  {
  }

  lemma NextStillFree(out: MessageMap, x: MessageId, next: MessageId)
    requires x in out && Taken(out, x) && !Taken(out, next)
    ensures next != x && !Taken(out[x := out[x].(status := Some(STATUS_OK))], next)
  {
  }

  lemma StillSettled(q: Queue, q': Queue, x: MessageId)
    requires SlotGone(q, q') && x != q.next && x in q.outgoing && q.outgoing[x].request.data.ReceiveFile?
    requires q.outgoing[x].status == Some(STATUS_OK)
    ensures LateReply(q'.outgoing, Request(x, Response(STATUS_OK)))
  {
  }

  /** None of the four is a late reply the first time. */
  lemma NotLate(p: Peer, p1: Peer, p2: Peer, p3: Peer, ok: Request, file: Request, l1: Request, l2: Request)
    requires Conserved(p.queue) && ok.data.Response? && Taken(p.queue.outgoing, ok.messageId)
    requires !file.data.Response? && !l1.data.Response? && !l2.data.Response?
    requires p1 == Take(p, ok).0 && p2 == Take(p1, file).0 && p3 == Take(p2, l1).0
    ensures Conserved(Take(p3, l2).0.queue)
  {
    hide AuthorizeRequest, Conserved;
    SetsBackIff(p, ok);
    SetsBackIff(p1, file);
    SetsBackIff(p2, l1);
    SetsBackIff(p3, l2);
  }

  lemma FeedFour(p: Peer, m1: Request, m2: Request, m3: Request, m4: Request)
    requires Take(p, m1).1.None?
    requires Take(Take(p, m1).0, m2).1.None?
    requires Take(Take(Take(p, m1).0, m2).0, m3).1.None?
    ensures S.Feed(Take, p, [m1, m2, m3, m4]) == Take(Take(Take(Take(p, m1).0, m2).0, m3).0, m4)
  {
    hide Take;
    assert [m1, m2, m3, m4][1..] == [m2, m3, m4] && [m2, m3, m4][1..] == [m3, m4];
    assert [m3, m4][1..] == [m4] && [m4][1..] == [];
    var p1 := Take(p, m1).0;
    var p2 := Take(p1, m2).0;
    assert S.Feed(Take, p2, [m3, m4]) == Take(Take(p2, m3).0, m4) by {
      assert S.Feed(Take, Take(p2, m3).0, [m4]) == Take(Take(p2, m3).0, m4);
    }
    assert S.Feed(Take, p1, [m2, m3, m4]) == S.Feed(Take, p2, [m3, m4]);
  }

  // ----- a run to that state ---------------------------------------------------------

  const MOST: nat := 254

  function Asks(n: nat): seq<Event> { seq(n, _ => Ask(Ping)) }

  lemma {:induction false} AfterAsks(p: Peer, n: nat)
    requires p.queue == EMPTY && n <= MOST
    ensures var q := History(p, Asks(n)).state;
      q.queue == Queue(n, PingMap(n), map[], 255 - n) && q.env == p.env && q.listers == p.listers
    ensures History(p, Asks(n)).buffer == []
  {
    hide After, FirstFree;
    if n == 0 {
      assert PingMap(0) == map[];
    } else {
      AfterAsks(p, n - 1);
      assert Asks(n)[..n - 1] == Asks(n - 1);
      PingStep(n - 1);
      AskedPing(History(p, Asks(n - 1)));
    }
  }

  lemma AskedPing(s: Session)
    requires Returns(s.state.queue, CallSend(Ping))
    ensures var t := After(s, Ask(Ping));
      && t.state.queue == Step(s.state.queue, CallSend(Ping))
      && t.state.env == s.state.env && t.state.listers == s.state.listers && t.buffer == s.buffer
  {
    hide FirstFree, FindReceiveFile;
  }

  /** The run: pings and one RECEIVE_FILE take every slot, then the four messages arrive in
      one read, and then nothing more. */
  function LateRun(path: bytes, read: bytes): seq<Event> {
    Asks(MOST) + [Ask(ReceiveFile(path, 4096, 0))] + [Poll(read)] + [Poll([])]
  }

  lemma LastAsked(q: Queue, path: bytes)
    requires q == Queue(MOST, PingMap(MOST), map[], 1)
    ensures var data := ReceiveFile(path, 4096, 0);
      && Send(q, data).Sent?
      && var q' := Send(q, data).queue;
         && q'.slots == 0 && Taken(q'.outgoing, MOST) && !Taken(q'.outgoing, q'.next)
         && FindReceiveFile(q'.outgoing, path, 0) == Some(MOST) && Conserved(q')
  {
    hide OpenIds, FirstFree, FindReceiveFile, Send, FirstOnRing, PingMap, Conserved;
    var data := ReceiveFile(path, 4096, 0);
    UnderMost(q, data);
    SendTakes(q, data);
    var q' := Send(q, data).queue;
    PingsTaken(MOST);
    NoPingAsks(path);
    FirstAsked(q'.outgoing, path, 0);
    ManyPings(MOST);
    Counted(q');
  }

  lemma Counted(q: Queue)
    requires q.slots == 0 && |OpenIds(q.outgoing)| == 255
    ensures Conserved(q)
  {
  }

  lemma UnderMost(q: Queue, data: Data)
    requires q == Queue(MOST, PingMap(MOST), map[], 1)
    ensures Send(q, data) == Sent(Queue(255, q.outgoing[MOST := Message(Request(MOST, data), None)], map[], 0), MOST)
  {
    PingsTaken(MOST);
    assert FirstFree(q.outgoing, MOST, 256) == Some(MOST);
  }

  lemma NoPingAsks(path: bytes)
    ensures forall i: MessageId :: i in PingMap(MOST) ==> !IsReceiveFile(PingMap(MOST)[i], path)
  {
  }

  lemma ManyPings(n: nat)
    requires n <= 255
    ensures |OpenIds(PingMap(n))| == n
  {
    PingsTaken(n);
    CountIds(n);
    assert OpenIds(PingMap(n)) == IdsBelow(n);
  }

  lemma {:induction false} FirstAsked(out: MessageMap, path: bytes, from: nat)
    requires from <= MOST && MOST in out && IsReceiveFile(out[MOST], path)
    requires forall i: MessageId :: i < MOST && i in out ==> !IsReceiveFile(out[i], path)
    ensures FindReceiveFile(out, path, from) == Some(MOST)
    decreases MOST - from
  {
    if from < MOST { FirstAsked(out, path, from + 1); }
  }

  lemma Frames(rs: seq<Request>)
    requires C.AllSendable(rs)
    ensures S.Drain(C.Stream(rs)).requests == C.DeliveredAll(rs)
  {
    hide C.Frame, C.Sendable, C.ShortEnough, S.Drain, S.BadCut;
    var raw := C.Stream(rs);
    S.AllComplete(rs);
    S.DrainPrefix(rs, |raw|);
    assert raw[..|raw|] == raw && rs[..|rs|] == rs;
  }

  lemma AsTheyAre(x: MessageId, file: Request, l1: Request, l2: Request)
    requires file.data.SendFile? && l1.data.ListFiles? && l2.data.ListFiles?
    ensures var ms := [Request(x, Response(STATUS_OK)), file, l1, l2]; C.DeliveredAll(ms) == ms
  {
    var ok := Request(x, Response(STATUS_OK));
    assert [ok, file, l1, l2][1..] == [file, l1, l2] && [file, l1, l2][1..] == [l1, l2];
    assert [l1, l2][1..] == [l2] && [l2][1..] == [];
    assert C.DeliveredAll([l2]) == [l2];
    assert C.DeliveredAll([l1, l2]) == [l1, l2];
    assert C.DeliveredAll([file, l1, l2]) == [file, l1, l2];
  }

  /** For a peer that has just connected: a run on which a message that was right the first
      time is late the second. */
  lemma OneRunIsLate(p: Peer, file: Request, l1: Request, l2: Request)
    requires p.queue == EMPTY && p.listers == map[]
    requires file.data.SendFile? && p.env.destination(file.data) != Blocked
    requires Listable(p.env, l1) && Listable(p.env, l2) && l1.messageId != l2.messageId
    requires C.AllSendable([file, l1, l2])
    ensures var ms := [Request(MOST, Response(STATUS_OK)), file, l1, l2];
      var events := LateRun(file.data.filepath, C.Stream(ms));
      && History(p, events[..MOST + 2]).error == Some(NoMoreSlots)
      && Conserved(History(p, events[..MOST + 2]).state.queue)
      && LateAt(p, events, MOST + 2) && !AllKept(p, events)
  {
    hide History, After, KeptAt, LateAt, AllKept, TakesLate, Taking, Conserved, Taken, MayList, NoDirectory, FindReceiveFile;
    hide C.DeliveredAll, C.Stream, C.AllSendable, S.Drain;
    var x, path := MOST, file.data.filepath;
    var ms := [Request(x, Response(STATUS_OK)), file, l1, l2];
    var asked := Asks(MOST) + [Ask(ReceiveFile(path, 4096, 0))];
    var events := LateRun(path, C.Stream(ms));
    assert events[..MOST + 2] == asked + [Poll(C.Stream(ms))];
    assert events == asked + [Poll(C.Stream(ms))] + [Poll([])];
    AfterAsking(p, path);
    AllMaySend(x, file, l1, l2);
    Frames(ms);
    AsTheyAre(x, file, l1, l2);
    ThenLate(History(p, asked), x, ms, C.Stream(ms), []);
    OneMoreEvent(p, asked, Poll(C.Stream(ms)));
    LateAtTheEnd(p, events[..MOST + 2], Poll([]));
    LateNotKept(p, events, MOST + 2);
  }

  lemma LateNotKept(p: Peer, events: seq<Event>, i: nat)
    requires p.queue == EMPTY && i < |events| && LateAt(p, events, i)
    ensures !AllKept(p, events)
  {
    hide LateAt, KeptAt;
    assert OpenIds(EMPTY.outgoing) == {};
    ConservedIff(p, events);
  }

  lemma OneMoreEvent(p: Peer, events: seq<Event>, e: Event)
    ensures History(p, events + [e]) == After(History(p, events), e)
  {
    hide After;
    assert (events + [e])[..|events|] == events;
  }

  lemma LateAtTheEnd(p: Peer, events: seq<Event>, e: Event)
    requires var s := History(p, events); TakesLate(s.state, Taking(s, e))
    ensures LateAt(p, events + [e], |events|)
  {
    hide History, TakesLate, Taking;
    assert (events + [e])[..|events|] == events;
  }

  lemma AllMaySend(x: MessageId, file: Request, l1: Request, l2: Request)
    requires C.AllSendable([file, l1, l2])
    ensures C.AllSendable([Request(x, Response(STATUS_OK)), file, l1, l2])
  {
    var ok := Request(x, Response(STATUS_OK));
    assert C.Sendable(ok) && C.ShortEnough(ok);
    assert [ok, file, l1, l2] == [ok] + [file, l1, l2];
  }

  lemma AfterAsking(p: Peer, path: bytes)
    requires p.queue == EMPTY
    ensures var s := History(p, Asks(MOST) + [Ask(ReceiveFile(path, 4096, 0))]);
      var q := s.state.queue;
      && s.buffer == [] && s.state.env == p.env && s.state.listers == p.listers
      && q.slots == 0 && Taken(q.outgoing, MOST) && !Taken(q.outgoing, q.next)
      && FindReceiveFile(q.outgoing, path, 0) == Some(MOST) && Conserved(q)
  {
    hide FindReceiveFile, OpenIds, History, PingMap, FirstFree, Taken, Conserved;
    AfterAsks(p, MOST);
    var before := History(p, Asks(MOST));
    LastAsked(before.state.queue, path);
    OneMoreEvent(p, Asks(MOST), Ask(ReceiveFile(path, 4096, 0)));
  }

  /** A read of these four messages throws, and the next one sets the request back. */
  lemma ThenLate(s: Session, x: MessageId, ms: seq<Request>, read: bytes, more: bytes)
    requires s.buffer == [] && S.Drain(read).requests == ms && |ms| == 4
    requires ms[0] == Request(x, Response(STATUS_OK))
    requires ms[1].data.SendFile? && s.state.env.destination(ms[1].data) != Blocked
    requires Listable(s.state.env, ms[2]) && Listable(s.state.env, ms[3]) && ms[2].messageId != ms[3].messageId
    requires var p := s.state;
      && Conserved(p.queue) && p.queue.slots == 0 && Taken(p.queue.outgoing, x)
      && !Taken(p.queue.outgoing, p.queue.next)
      && FindReceiveFile(p.queue.outgoing, ms[1].data.filepath, 0) == Some(x)
      && ms[2].messageId !in p.listers && ms[3].messageId !in p.listers
    ensures var next := After(s, Poll(read));
      && next.error == Some(NoMoreSlots) && Conserved(next.state.queue)
      && TakesLate(next.state, Taking(next, Poll(more)))
  {
    hide MayList, NoDirectory, FindReceiveFile, Taken, Conserved, LateReply, S.Feed, S.Drain, Take;
    assert ms == [ms[0], ms[1], ms[2], ms[3]];
    assert [] + read == read;
    RedeliverySetsBack(s.state, x, ms[1], ms[2], ms[3]);
    S.ThrowRedelivers(Take, s.state, [], read, more);
    var next := After(s, Poll(read));
    LateAtOnce(next.state, Taking(next, Poll(more)));
  }

  lemma LateAtOnce(p: Peer, ms: seq<Request>)
    requires ms != [] && LateReply(p.queue.outgoing, ms[0])
    ensures TakesLate(p, ms)
  {
    hide LateReply, Take;
    assert ms[..0] == [];
    assert Behind(p, ms, 0) == (p, None);
  }

  // ----- and a short one ---------------------------------------------------------------

  /** A peer that has just connected asks for a file; the answers come with a request that
      throws, in one read; then nothing more comes. */
  function ShortRun(path: bytes, read: bytes): seq<Event> {
    [Ask(ReceiveFile(path, 4096, 0))] + [Poll(read)] + [Poll([])]
  }

  lemma ThrownRunIsLate(p: Peer, file: Request, m: Request)
    requires p.queue == EMPTY && p.env.destination(file.data) != Blocked
    requires file.data.SendFile? && Thrown(p.env, m) && C.AllSendable([file, m])
    requires m.data.ReceiveFile? ==> m.data.packetSize == 4096
    ensures var ms := [Request(0, Response(STATUS_OK)), file, m];
      var events := ShortRun(file.data.filepath, C.Stream(ms));
      && History(p, events[..2]).error == Some(HostError)
      && Conserved(History(p, events[..2]).state.queue)
      && LateAt(p, events, 2) && !AllKept(p, events)
  {
    hide History, After, KeptAt, LateAt, AllKept, TakesLate, Taking, Conserved, Taken, Thrown, FindReceiveFile;
    hide C.DeliveredAll, C.Stream, C.AllSendable, S.Drain;
    var path := file.data.filepath;
    var ms := [Request(0, Response(STATUS_OK)), file, m];
    var asked, read := [Ask(ReceiveFile(path, 4096, 0))], C.Stream(ms);
    var events := ShortRun(path, read);
    assert events[..2] == asked + [Poll(read)];
    AfterOneAsk(p, path);
    AsTheyAreToo(file, m);
    Frames(ms);
    ThenThrown(History(p, asked), ms, read, []);
    OneMoreEvent(p, asked, Poll(read));
    assert asked + [Poll(read)] + [Poll([])] == events;
    LateAtTheEnd(p, events[..2], Poll([]));
    LateNotKept(p, events, 2);
  }

  lemma AfterOneAsk(p: Peer, path: bytes)
    requires p.queue == EMPTY
    ensures var s := History(p, [Ask(ReceiveFile(path, 4096, 0))]);
      var q := s.state.queue;
      && s.buffer == [] && s.state.env == p.env
      && Taken(q.outgoing, 0) && FindReceiveFile(q.outgoing, path, 0) == Some(0) && Conserved(q)
  {
    var data := ReceiveFile(path, 4096, 0);
    var e := Ask(data);
    assert [e][..0] == [];
    assert History(p, []) == S.Polled(p, [], None);
    assert FirstFree(map[], 0, 256) == Some(0);
    var q := Send(EMPTY, data).queue;
    assert OpenIds(q.outgoing) == {0};
    assert History(p, [e]) == After(S.Polled(p, [], None), e);
  }

  lemma AsTheyAreToo(file: Request, m: Request)
    requires file.data.SendFile? && C.AllSendable([file, m])
    requires m.data.ReceiveFile? ==> m.data.packetSize == 4096
    ensures var ms := [Request(0, Response(STATUS_OK)), file, m];
      C.DeliveredAll(ms) == ms && C.AllSendable(ms)
  {
    var ok := Request(0, Response(STATUS_OK));
    assert C.Sendable(ok) && C.ShortEnough(ok);
    assert [ok, file, m] == [ok] + [file, m];
    hide C.Sendable, C.ShortEnough;
    assert [ok, file, m][1..] == [file, m] && [file, m][1..] == [m] && [m][1..] == [];
    assert C.DeliveredAll([m]) == [m];
    assert C.DeliveredAll([file, m]) == [file, m];
  }

  /** A read of these three messages throws, and the next one sets the request back. */
  lemma ThenThrown(s: Session, ms: seq<Request>, read: bytes, more: bytes)
    requires s.buffer == [] && S.Drain(read).requests == ms && |ms| == 3
    requires ms[0] == Request(0, Response(STATUS_OK)) && ms[1].data.SendFile? && Thrown(s.state.env, ms[2])
    requires s.state.env.destination(ms[1].data) != Blocked
    requires var p := s.state;
      && Conserved(p.queue) && Taken(p.queue.outgoing, 0)
      && FindReceiveFile(p.queue.outgoing, ms[1].data.filepath, 0) == Some(0)
    ensures var next := After(s, Poll(read));
      && next.error == Some(HostError) && Conserved(next.state.queue)
      && TakesLate(next.state, Taking(next, Poll(more)))
  {
    hide Thrown, FindReceiveFile, Taken, Conserved, LateReply, TakesLate, S.Feed, S.Drain, Take;
    assert ms == [ms[0], ms[1], ms[2]];
    assert [] + read == read;
    ThrownSetsBack(s.state, 0, ms[1], ms[2]);
    S.ThrowRedelivers(Take, s.state, [], read, more);
    var next := After(s, Poll(read));
    LateAtOnce(next.state, Taking(next, Poll(more)));
  }
}
