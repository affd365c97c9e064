/** Pushing a file: `send_file` on one side, automatic answers and a user's
    decision on the other, over two FIFO channels. */
module FilePush {
  import opened Bytes
  import opened Requests
  import opened Transfers
  import opened MessageQueue
  import opened Paths
  import opened Peer

  /** Where `send_file` stands: waiting for the status, in its window loop, or
      returned with a refusal. */
  datatype Stage = Awaiting | Window | Returned

  /** Both peers; `toB` and `toA` count the messages of the other's wire each has
      taken in, the rest is in the channels. */
  datatype Push = Push(a: Peer, b: Peer, id: MessageId, stage: Stage, toB: nat, toA: nat, error: Option<Error>)

  datatype Action =
    | DeliverToReceiver
    | DeliverToSender
    | Decide(status: Status) // the receiving user answers what awaits approval
    | Resume                 // `wait_for_status` comes back with OK
    | GiveUp                 // or with a refusal
    | Emit                   // the window loop sends a packet

  predicate Answers(s: Push, ok: bool) {
    && s.stage.Awaiting? && s.id in s.a.queue.outgoing
    && var status := s.a.queue.outgoing[s.id].status;
       status.Some? && status.value != APPROVAL_PENDING && (status.value == STATUS_OK) == ok
  }

  predicate Enabled(s: Push, act: Action) {
    && s.error.None?
    && match act
       case DeliverToReceiver => s.toB < |s.a.wire|
       case DeliverToSender => s.toA < |s.b.wire|
       case Decide(status) => s.b.buffer != [] && status != APPROVAL_PENDING
       case Resume => Answers(s, true)
       case GiveUp => Answers(s, false)
       case Emit => s.stage.Window? && s.id in s.a.uploads && s.a.uploads[s.id].open && s.a.queue.slots > 0
  }

  function Next(s: Push, act: Action): Push
    requires Enabled(s, act)
  {
    match act
    case DeliverToReceiver =>
      var out := AuthorizeRequest(s.b, s.a.wire[s.toB]);
      s.(b := out.peer, toB := s.toB + 1, error := out.error)
    case DeliverToSender =>
      var out := AuthorizeRequest(s.a, s.b.wire[s.toA]);
      s.(a := out.peer, toA := s.toA + 1, error := out.error)
    case Decide(status) =>
      var out := RespondToRequest(s.b.(buffer := s.b.buffer[1..]), s.b.buffer[0], status);
      s.(b := out.peer, error := out.error)
    case Resume => s.(stage := Window)
    case GiveUp => s.(stage := Returned, a := s.a.(uploads := s.a.uploads - {s.id}))
    case Emit =>
      var out := SendPacket(s.a, s.id);
      s.(a := out.peer, error := out.error)
  }

  /** After these steps; none if one of them was not possible. */
  function Run(s: Push, acts: seq<Action>): Option<Push>
    decreases |acts|
  {
    if acts == [] then Some(s)
    else
      match Run(s, acts[..|acts| - 1])
      case None => None
      case Some(t) => if Enabled(t, acts[|acts| - 1]) then Some(Next(t, acts[|acts| - 1])) else None
  }

  // ----- the job -------------------------------------------------------------

  /** What is pushed: the SEND_FILE and its id, the file, and the slots that were
      free before. */
  datatype Job = Job(id: MessageId, request: Data, content: bytes, slots: nat, hash: Hash)

  predicate ValidJob(j: Job) {
    && j.request.SendFile? && j.request.packetSize > 0 && |j.content| > 0 && j.slots > 0
    && j.request.totalPackets == TotalPackets(|j.content|, j.request.packetSize)
    && j.request.filehash == j.hash(j.request.algorithm, j.content)
  }

  /** All that the uploader will send, the last packet perhaps empty. */
  function Packets(j: Job): seq<bytes>
    requires ValidJob(j)
  {
    Chunks(j.content, j.request.packetSize)
  }

  /** The packets that are announced. */
  function Blocks(j: Job): seq<bytes>
    requires ValidJob(j)
  {
    PacketsCount(j);
    Packets(j)[..j.request.totalPackets]
  }

  lemma PacketsCount(j: Job)
    requires ValidJob(j)
    ensures var total := j.request.totalPackets;
      && total > 0 && (|Packets(j)| == total || (|Packets(j)| == total + 1 && Packets(j)[total] == []))
  {
    ChunksCount(j.content, j.request.packetSize);
    CountSent(|j.content|, j.request.packetSize, 0);
    if |j.content| % j.request.packetSize == 0 { NotNone(|j.content|, j.request.packetSize); }
  }

  lemma NotNone(n: nat, size: nat)
    requires size > 0 && n > 0 && n % size == 0
    ensures n / size > 0
  {
    if n < size { DivideSmall(n, size); }
  }

  lemma {:induction false} ChunksFull(content: bytes, size: nat, i: nat)
    requires size > 0 && i < |Chunks(content, size)| - 1
    ensures |Chunks(content, size)[i]| == size
    decreases |content|
  {
    if i > 0 { ChunksFull(content[size..], size, i - 1); }
  }

  lemma BlocksAreTheFile(j: Job)
    requires ValidJob(j)
    ensures Announces(j.request, j.hash, Blocks(j)) && Concat(Blocks(j)) == j.content
  {
    var size, total, ps := j.request.packetSize, j.request.totalPackets, Packets(j);
    PacketsCount(j);
    ChunksJoin(j.content, size);
    LastIsEmpty(ps, total);
    ChunksCount(j.content, size);
    CountSent(|j.content|, size, 0);
    forall i | 0 <= i < |ps| - 1 ensures |ps[i]| == size { ChunksFull(j.content, size, i); }
  }

  lemma {:induction false} RangeAt(n: nat, i: nat)
    requires i < n
    ensures |Range(0, n)| == n && Range(0, n)[i] == i
    decreases n
  {
    if n > 1 { RangeAt(n - 1, if i < n - 1 then i else 0); }
  }

  /** The announced packets, or the one packet of an empty file, delivered in order
      give back the file, unless it is empty: then the first packet is taken for a
      short one in the middle. */
  lemma ReceivedIffNotEmpty(request: Data, h: Hash, content: bytes)
    requires request.SendFile? && request.packetSize > 0
    requires request.totalPackets == TotalPackets(|content|, request.packetSize)
    requires request.filehash == h(request.algorithm, content)
    ensures var n := if request.totalPackets == 0 then 1 else request.totalPackets;
      && n <= |Chunks(content, request.packetSize)|
      && |Range(0, n)| == n && (forall i :: 0 <= i < n ==> Range(0, n)[i] == i)
      && var (d, error) := Deliver(OpenDownload(request), h, Chunks(content, request.packetSize)[..n], Range(0, n));
         (error.None? && !d.open && d.file == content) <==> content != []
  {
    var n := if request.totalPackets == 0 then 1 else request.totalPackets;
    forall i | 0 <= i < n ensures |Range(0, n)| == n && Range(0, n)[i] == i { RangeAt(n, i); }
    RangeAt(n, 0);
    if content == [] {
      assert ReceivePacket(OpenDownload(request), h, 0, []).1 == Some(SizeInvalid);
    } else {
      var j := Job(0, request, content, 1, h);
      PacketsCount(j);
      BlocksAreTheFile(j);
      assert Blocks(j)[..0] == [];
      DeliverInOrder(OpenDownload(request), h, Blocks(j), 0, Range(0, n));
      assert Blocks(j)[..n] == Blocks(j);
    }
  }

  // ----- the sender ----------------------------------------------------------

  /** Message `i` of the push. */
  function SentData(j: Job, i: nat): Data
    requires ValidJob(j) && i <= |Packets(j)|
  {
    if i == 0 then j.request else DataPacket(j.id, i - 1, Packets(j)[i - 1])
  }

  /** From message `from` on, each is waiting for an answer, under an id of its own. */
  ghost predicate AllWaiting(out: MessageMap, wire: seq<Request>, from: nat) {
    && (forall i :: from <= i < |wire| ==>
          Taken(out, wire[i].messageId) && out[wire[i].messageId].request == wire[i])
    && (forall i, k :: from <= i < k < |wire| ==> wire[i].messageId != wire[k].messageId)
  }

  /** If this id is taken, then by one of those messages. */
  ghost predicate Owned(out: MessageMap, wire: seq<Request>, from: nat, id: MessageId) {
    Taken(out, id) ==> exists i :: from <= i < |wire| && wire[i].messageId == id
  }

  predicate Uploading(u: Upload, j: Job, k: nat)
    requires ValidJob(j) && k <= |Packets(j)|
  {
    && u.request == j.request && u.packetId == k && Pending(u) == Packets(j)[k..]
  }

  ghost predicate Wrote(wire: seq<Request>, j: Job)
    requires ValidJob(j)
  {
    && 1 <= |wire| <= |Packets(j)| + 1 && wire[0].messageId == j.id
    && forall i :: 0 <= i < |wire| ==> wire[i].data == SentData(j, i)
  }

  /** The sender, of whose messages the first `answered` are settled. */
  ghost predicate Sender(a: Peer, j: Job, answered: nat)
    requires ValidJob(j)
  {
    && Conserved(a.queue)
    && Wrote(a.wire, j) && answered <= |a.wire|
    && AllWaiting(a.queue.outgoing, a.wire, answered) && Owned(a.queue.outgoing, a.wire, answered, j.id)
    && a.queue.slots + (|a.wire| - answered) == j.slots
    && (j.id in a.uploads ==> Uploading(a.uploads[j.id], j, |a.wire| - 1))
  }

  /** More was written, and of old statuses some may have been forgotten with
      their ids recycled. */
  ghost predicate Grew(a: Peer, b: Peer) {
    && a.wire <= b.wire
    && forall id: MessageId :: id in a.queue.outgoing ==>
         (id in b.queue.outgoing && b.queue.outgoing[id].status in {a.queue.outgoing[id].status, None})
  }

  lemma GrewTwice(a: Peer, b: Peer, c: Peer)
    requires Grew(a, b) && Grew(b, c)
    ensures Grew(a, c)
  {
  }

  /** A send keeps everything and appends the next packet. */
  lemma SendKeeps(a: Peer, j: Job, answered: nat)
    requires ValidJob(j) && Sender(a, j, answered)
    requires j.id in a.uploads && a.uploads[j.id].open && a.queue.slots > 0
    ensures var out := SendPacket(a, j.id);
      && out.error.None? && Sender(out.peer, j, answered)
      && j.id in out.peer.uploads
      && |out.peer.wire| == |a.wire| + 1 && Grew(a, out.peer)
  {
    hide NextPacket, Pending, Send, FirstOnRing, Chunks, Open, OpenIds, TotalPackets;
    var u, k := a.uploads[j.id], |a.wire| - 1;
    NextTakesHead(u, j.id);
    assert Pending(u)[1..] == Packets(j)[k + 1..];
    var packet := NextPacket(u, j.id).1.value;
    FreeSlotMeansFreeId(a.queue, packet);
    SendTakes(a.queue, packet);
    OneMoreWaits(a.queue.outgoing, a.wire, answered, Send(a.queue, packet).id, packet);
  }

  lemma OneMoreWaits(out: MessageMap, wire: seq<Request>, from: nat, id: MessageId, data: Data)
    requires AllWaiting(out, wire, from) && !Taken(out, id) && from <= |wire|
    ensures AllWaiting(out[id := Message(Request(id, data), None)], wire + [Request(id, data)], from)
    ensures forall own :: Owned(out, wire, from, own) ==>
              Owned(out[id := Message(Request(id, data), None)], wire + [Request(id, data)], from, own)
  {
    var more := wire + [Request(id, data)];
    forall own | Owned(out, wire, from, own)
      ensures Owned(out[id := Message(Request(id, data), None)], more, from, own)
    {
      if own == id { assert more[|wire|].messageId == own; }
      else if Taken(out, own) {
        var i :| from <= i < |wire| && wire[i].messageId == own;
        assert more[i].messageId == own;
      }
    }
  }

  lemma {:induction false} BurstKeeps(a: Peer, j: Job, answered: nat, n: nat)
    requires ValidJob(j) && Sender(a, j, answered) && j.id in a.uploads
    ensures var out := Burst(a, j.id, n);
      && out.error.None? && Sender(out.peer, j, answered)
      && j.id in out.peer.uploads && Grew(a, out.peer)
    decreases n
  {
    hide Sender, SendPacket, Grew;
    if n != 0 && a.uploads[j.id].open && a.queue.slots != 0 {
      SendKeeps(a, j, answered);
      var mid := SendPacket(a, j.id).peer;
      BurstKeeps(mid, j, answered, n - 1);
      GrewTwice(a, mid, Burst(mid, j.id, n - 1).peer);
    } else {
      GrewSame(a);
    }
  }

  lemma GrewSame(a: Peer)
    ensures Grew(a, a)
  {
  }

  /** A final answer to the oldest open message frees its slot, so that one can be
      sent in its place. */
  lemma SettleKeeps(a: Peer, j: Job, answered: nat, status: Status)
    requires ValidJob(j) && Sender(a, j, answered) && answered < |a.wire| && status != APPROVAL_PENDING
    ensures var id := a.wire[answered].messageId;
      && id in a.queue.outgoing
      && var q := Replied(a.queue, id, status).value;
         && Sender(a.(queue := q), j, answered + 1) && q.slots > 0
         && q.outgoing == a.queue.outgoing[id := a.queue.outgoing[id].(status := Some(status))]
  {
    hide Pending, Chunks, TotalPackets, OpenIds, Uploading;
    var id := a.wire[answered].messageId;
    ReplyChanges(a.queue, id, status);
    SlotsBelow(a.queue, id);
  }

  lemma SlotsBelow(q: Queue, id: MessageId)
    requires Conserved(q) && Taken(q.outgoing, id)
    ensures q.slots < 255
  {
    assert id in OpenIds(q.outgoing);
    assert OpenIds(q.outgoing) != {};
  }

  /** "Approval pending" leaves the request open. */
  lemma PendingKeeps(a: Peer, j: Job)
    requires ValidJob(j) && Sender(a, j, 0)
    ensures j.id in a.queue.outgoing
    ensures var q := Replied(a.queue, j.id, APPROVAL_PENDING).value;
      && Sender(a.(queue := q), j, 0)
      && q.outgoing == a.queue.outgoing[j.id := a.queue.outgoing[j.id].(status := Some(APPROVAL_PENDING))]
  {
    hide Pending, Chunks, TotalPackets, OpenIds, Uploading;
    ReplyChanges(a.queue, j.id, APPROVAL_PENDING);
  }

  // ----- the receiver --------------------------------------------------------

  predicate Accepted(b: Peer) { |b.wire| >= 2 && b.wire[1].data == Response(STATUS_OK) }

  /** What the user decided, once that was sent. */
  function Verdict(b: Peer): Option<Status> {
    if |b.wire| >= 2 && b.wire[1].data.Response? then Some(b.wire[1].data.status) else None
  }

  /** `d` data packets have been taken in: the file is a prefix, or saved whole. */
  ghost predicate Downloading(b: Peer, b0: Peer, j: Job, d: nat)
    requires ValidJob(j)
  {
    if d < j.request.totalPackets then
      && j.id in b.downloads && !b.downloads[j.id].keep
      && b.downloads[j.id].download.request == j.request
      && InOrder(b.downloads[j.id].download, j.hash, Blocks(j), d)
      && b.saved == b0.saved
    else
      && j.id !in b.downloads && b.saved == b0.saved + [(j.request.filepath, j.content)]
  }

  /** The receiver after the first `got` messages, having started as `b0`. */
  ghost predicate Receiver(b: Peer, b0: Peer, j: Job, got: nat)
    requires ValidJob(j)
  {
    && b.env == b0.env && b.queue.outgoing == b0.queue.outgoing
    && if got == 0 then b == b0
       else
         && |b.wire| >= 1 && b.wire[0] == Request(j.id, Response(APPROVAL_PENDING))
         && if b.buffer != [] then
              && got == 1 && b.buffer == [Request(j.id, j.request)] && |b.wire| == 1
              && b.downloads == b0.downloads && b.saved == b0.saved
            else
              && |b.wire| == got + 1
              && b.wire[1].messageId == j.id && b.wire[1].data.Response?
              && b.wire[1].data.status != APPROVAL_PENDING
              && if Accepted(b) then Downloading(b, b0, j, got - 1)
                 else got == 1 && j.id !in b.downloads && b.saved == b0.saved
  }

  /** The receiver the push begins with. */
  ghost predicate Fresh(b0: Peer, j: Job)
    requires ValidJob(j)
  {
    && b0.wire == [] && b0.buffer == [] && j.id !in b0.downloads && b0.env.hash == j.hash
    && b0.env.destination(j.request) in {Openable, Downloaded}
    && FindReceiveFile(b0.queue.outgoing, j.request.filepath, 0).None?
  }

  lemma Announced(b0: Peer, j: Job)
    requires ValidJob(j) && Fresh(b0, j)
    ensures var out := AuthorizeRequest(b0, Request(j.id, j.request));
      && out.error.None? && Receiver(out.peer, b0, j, 1) && out.peer.buffer != []
  {
    hide FindReceiveFile, TotalPackets;
  }

  lemma Decided(b: Peer, b0: Peer, j: Job, status: Status)
    requires ValidJob(j) && Fresh(b0, j) && Receiver(b, b0, j, 1) && b.buffer != [] && status != APPROVAL_PENDING
    ensures var out := RespondToRequest(b.(buffer := b.buffer[1..]), b.buffer[0], status);
      && out.error.None? && Receiver(out.peer, b0, j, 1) && out.peer.buffer == []
      && b.wire <= out.peer.wire && |out.peer.wire| == 2
      && Verdict(out.peer) in {Some(status), Some(UP_TO_DATE)}
  {
    hide FindReceiveFile, Blocks, ValidJob, InOrder, CreateDownload, AnswerReceiveFile, AnswerListFiles, ReceiveDataPacket;
    IsSendFile(j);
    if status == STATUS_OK {
      var asked := b.(buffer := b.buffer[1..], queue := Requested(b.queue, b.buffer[0]));
      assert asked.env == b0.env;
      Granted(asked, j);
      Begins(j);
    }
  }

  lemma Granted(b: Peer, j: Job)
    requires b.env.destination(j.request) in {Openable, Downloaded}
    requires j.request.SendFile? && j.id in b.queue.incoming && j.id !in b.downloads
    ensures var out := CreateDownload(b, j.id, j.request);
      var q := Answered(b.queue, j.id, if b.env.destination(j.request) == Downloaded then UP_TO_DATE else STATUS_OK).value;
      && out.error.None?
      && out.peer == if b.env.destination(j.request) == Downloaded
           then b.(queue := q, wire := b.wire + [Request(j.id, Response(UP_TO_DATE))])
           else b.(queue := q, wire := b.wire + [Request(j.id, Response(STATUS_OK))],
                   downloads := b.downloads[j.id := Incoming(OpenDownload(j.request), false)])
  {
  }

  lemma Begins(j: Job)
    requires ValidJob(j)
    ensures j.request.totalPackets > 0
    ensures InOrder(OpenDownload(j.request), j.hash, Blocks(j), 0)
  {
    BlocksAreTheFile(j);
    assert Blocks(j)[..0] == [];
    PacketsCount(j);
  }

  lemma BlocksCount(j: Job)
    requires ValidJob(j)
    ensures |Blocks(j)| == j.request.totalPackets
  {
    PacketsCount(j);
  }

  /** A packet of the accepted file is written and acknowledged; the extra empty
      one, coming after the file was saved, is refused. */
  lemma PacketArrives(b: Peer, b0: Peer, j: Job, got: nat, id: MessageId)
    requires ValidJob(j) && Fresh(b0, j) && Receiver(b, b0, j, got)
    requires got >= 1 && Accepted(b) && b.buffer == [] && got <= |Packets(j)|
    ensures var out := AuthorizeRequest(b, Request(id, DataPacket(j.id, got - 1, Packets(j)[got - 1])));
      var status := if got <= j.request.totalPackets then STATUS_OK else INVALID_REQUEST_ID;
      && out.error.None? && Receiver(out.peer, b0, j, got + 1) && out.peer.buffer == []
      && out.peer.wire == b.wire + [Request(id, Response(status))]
  {
    hide FindReceiveFile, Blocks, Packets, TotalPackets, ReceivePacket, InOrder;
    PacketsCount(j);
    BlocksCount(j);
    if got <= j.request.totalPackets {
      var d := b.downloads[j.id].download;
      assert Blocks(j)[got - 1] == Packets(j)[got - 1] by { BlockIs(j, got - 1); }
      StillOpen(d, j, got - 1);
      SameRequest(d, j.hash, got - 1, Packets(j)[got - 1]);
      NextInOrder(d, j.hash, Blocks(j), got - 1);
      var d' := ReceivePacket(d, j.hash, got - 1, Packets(j)[got - 1]).0;
      AtEnd(d', j, got);
    }
  }

  lemma BlockIs(j: Job, i: nat)
    requires ValidJob(j) && i < j.request.totalPackets
    ensures |Blocks(j)| == j.request.totalPackets <= |Packets(j)| && Blocks(j)[i] == Packets(j)[i]
  {
    PacketsCount(j);
  }

  lemma StillOpen(d: Download, j: Job, k: nat)
    requires ValidJob(j) && InOrder(d, j.hash, Blocks(j), k) && k < j.request.totalPackets
    ensures d.open && d.request.SendFile?
  {
    BlocksCount(j);
  }

  lemma AtEnd(d: Download, j: Job, k: nat)
    requires ValidJob(j) && InOrder(d, j.hash, Blocks(j), k)
    ensures d.open == (k < j.request.totalPackets)
    ensures k == j.request.totalPackets ==> d.file == j.content
  {
    BlocksCount(j);
    BlocksAreTheFile(j);
    if k == j.request.totalPackets { assert Blocks(j)[..k] == Blocks(j); }
  }

  // ----- every reachable state -----------------------------------------------

  /** How many of the sender's messages are settled after `read` replies: the
      first reply only says that the user was asked. */
  function Settled(read: nat): nat { if read <= 1 then 0 else read - 1 }

  lemma AskedOnce(b: Peer, b0: Peer, j: Job, got: nat)
    requires ValidJob(j) && Fresh(b0, j) && Receiver(b, b0, j, got)
    ensures b.buffer != [] ==> got == 1 && |b.wire| == 1
    ensures got == 0 ==> b == b0 && b.wire == [] && b.buffer == []
    ensures got > 0 && b.buffer == [] ==> |b.wire| == got + 1
  {
  }

  /** Replies come in the order of the messages, under their ids; every packet
      announced is acknowledged. */
  ghost predicate Linked(aw: seq<Request>, bw: seq<Request>, got: nat, total: nat) {
    && got <= |aw|
    && forall i :: 1 <= i < got ==> Acknowledged(aw, bw, i, total)
  }

  predicate Acknowledged(aw: seq<Request>, bw: seq<Request>, i: nat, total: nat) {
    && i < |aw| && i + 1 < |bw|
    && bw[i + 1] == Request(aw[i].messageId, Response(if i <= total then STATUS_OK else INVALID_REQUEST_ID))
  }

  /** What `wait_for_status` can see under the id of the SEND_FILE. */
  ghost predicate Visible(s: Push, j: Job)
    requires ValidJob(j)
  {
    && (s.toA >= 2 ==>
         && j.id in s.a.queue.outgoing
         && var status := s.a.queue.outgoing[j.id].status;
            if Accepted(s.b) then status in {None, Some(STATUS_OK)} || |s.a.wire| == |Packets(j)| + 1
            else status == Verdict(s.b))
    && (s.toA < 2 ==> s.stage == Awaiting)
    && (s.stage == Window ==> Accepted(s.b) || |s.a.wire| == |Packets(j)| + 1)
    && (s.stage == Returned ==> !Accepted(s.b) || |s.a.wire| == |Packets(j)| + 1)
    && (j.id !in s.a.uploads ==> s.stage == Returned || |s.a.wire| == |Packets(j)| + 1)
  }

  ghost predicate Inv(s: Push, j: Job, b0: Peer) {
    && ValidJob(j) && s.id == j.id && s.error.None?
    && Fresh(b0, j)
    && Sender(s.a, j, Settled(s.toA))
    && Receiver(s.b, b0, j, s.toB)
    && s.toA <= |s.b.wire|
    && Linked(s.a.wire, s.b.wire, s.toB, j.request.totalPackets)
    && (|s.a.wire| > 1 ==> Accepted(s.b) && s.toA >= 2)
    && Visible(s, j)
  }

  lemma LinkedGrows(aw: seq<Request>, more: seq<Request>, bw: seq<Request>, got: nat, total: nat)
    requires Linked(aw, bw, got, total) && aw <= more
    ensures Linked(more, bw, got, total)
  {
    forall i | 1 <= i < got ensures Acknowledged(more, bw, i, total) {
      assert Acknowledged(aw, bw, i, total);
      assert aw[i] == more[..|aw|][i];
    }
  }

  lemma LinkedAcks(aw: seq<Request>, bw: seq<Request>, more: seq<Request>, got: nat, total: nat)
    requires Linked(aw, bw, got, total) && 1 <= got < |aw| && |bw| == got + 1
    requires more == bw + [Request(aw[got].messageId, Response(if got <= total then STATUS_OK else INVALID_REQUEST_ID))]
    ensures Linked(aw, more, got + 1, total)
  {
    forall i | 1 <= i < got + 1 ensures Acknowledged(aw, more, i, total) {
      if i < got { assert Acknowledged(aw, bw, i, total); }
    }
  }

  lemma EmitKeeps(s: Push, j: Job, b0: Peer)
    requires Inv(s, j, b0) && Enabled(s, Emit)
    ensures Inv(Next(s, Emit), j, b0) && |Next(s, Emit).a.wire| == |s.a.wire| + 1
  {
    hide SendPacket, Sender, Receiver, Packets, Accepted;
    SendKeeps(s.a, j, Settled(s.toA));
    Bound(s.a, j, Settled(s.toA));
    Bound(SendPacket(s.a, j.id).peer, j, Settled(s.toA));
    var t := Next(s, Emit);
    LinkedGrows(s.a.wire, t.a.wire, s.b.wire, s.toB, j.request.totalPackets);
  }

  lemma Bound(a: Peer, j: Job, answered: nat)
    requires ValidJob(j) && Sender(a, j, answered)
    ensures 1 <= |a.wire| <= |Packets(j)| + 1 && answered <= |a.wire|
    ensures |a.wire| == |Packets(j)| + 1 && j.id in a.uploads ==> !a.uploads[j.id].open
    ensures j.id in a.uploads && !a.uploads[j.id].open ==> |a.wire| == |Packets(j)| + 1
  {
    if j.id in a.uploads { NextTakesHead(a.uploads[j.id], j.id); }
  }

  lemma AnnounceKeeps(s: Push, j: Job, b0: Peer)
    requires Inv(s, j, b0) && Enabled(s, DeliverToReceiver) && s.toB == 0
    ensures Inv(Next(s, DeliverToReceiver), j, b0) && Next(s, DeliverToReceiver).b.buffer != []
  {
    hide AuthorizeRequest, Packets, Fresh, FindReceiveFile, Downloading;
    AskedOnce(s.b, b0, j, s.toB);
    assert s.a.wire[0].data == SentData(j, 0);
    Announced(b0, j);
  }

  lemma PacketKeeps(s: Push, j: Job, b0: Peer)
    requires Inv(s, j, b0) && Enabled(s, DeliverToReceiver) && s.toB >= 1
    ensures Inv(Next(s, DeliverToReceiver), j, b0)
  {
    hide AuthorizeRequest, Packets, Fresh, Receiver, Linked, ValidJob, Visible;
    var i := s.toB;
    AskedOnce(s.b, b0, j, i);
    Bound(s.a, j, Settled(s.toA));
    var m := s.a.wire[i];
    assert m.data == SentData(j, i);
    PacketArrives(s.b, b0, j, i, m.messageId);
    var b := AuthorizeRequest(s.b, m).peer;
    assert j.request.SendFile? by { IsSendFile(j); }
    LinkedAcks(s.a.wire, s.b.wire, b.wire, i, j.request.totalPackets);
    SameView(s, Next(s, DeliverToReceiver), j);
  }

  lemma IsSendFile(j: Job)
    requires ValidJob(j)
    ensures j.request.SendFile?
  {
  }

  /** Once there is a verdict, later replies do not change what the sender sees. */
  lemma SameView(s: Push, t: Push, j: Job)
    requires ValidJob(j) && Visible(s, j)
    requires t.a == s.a && t.stage == s.stage && t.toA == s.toA
    requires |s.b.wire| >= 2 && |t.b.wire| >= 2 && s.b.wire[1] == t.b.wire[1]
    ensures Visible(t, j)
  {
  }

  lemma DecideKeeps(s: Push, j: Job, b0: Peer, status: Status)
    requires Inv(s, j, b0) && Enabled(s, Decide(status))
    ensures Inv(Next(s, Decide(status)), j, b0) && Next(s, Decide(status)).b.buffer == []
    ensures Verdict(Next(s, Decide(status)).b) in {Some(status), Some(UP_TO_DATE)}
  {
    hide RespondToRequest, Packets, Fresh, Receiver, ValidJob, Sender, Acknowledged;
    AskedOnce(s.b, b0, j, s.toB);
    Decided(s.b, b0, j, status);
  }

  /** The reply that says the user was asked. */
  lemma AskedKeeps(s: Push, j: Job, b0: Peer)
    requires Inv(s, j, b0) && Enabled(s, DeliverToSender) && s.toA == 0
    ensures Inv(Next(s, DeliverToSender), j, b0) && |Next(s, DeliverToSender).a.wire| >= |s.a.wire|
  {
    hide Sender, Packets, Chunks, Fresh, Burst, NextOnReply, NextListOnReply, RespondToRequest, AskUser, Open, Downloading;
    Bound(s.a, j, 0);
    FirstWaits(s.a, j);
    AskedOnce(s.b, b0, j, s.toB);
    PendingKeeps(s.a, j);
  }

  lemma FirstWaits(a: Peer, j: Job)
    requires ValidJob(j) && Sender(a, j, 0)
    ensures j.id in a.queue.outgoing && a.queue.outgoing[j.id].request == Request(j.id, j.request)
    ensures a.wire[0].messageId == j.id && |Packets(j)| >= 1
  {
  }

  /** The user's verdict: on acceptance the first packets go out. */
  lemma VerdictKeeps(s: Push, j: Job, b0: Peer)
    requires Inv(s, j, b0) && Enabled(s, DeliverToSender) && s.toA == 1
    ensures Inv(Next(s, DeliverToSender), j, b0) && |Next(s, DeliverToSender).a.wire| >= |s.a.wire|
  {
    hide Sender, Packets, Chunks, Fresh, Burst, NextOnReply, NextListOnReply, RespondToRequest, AskUser, Open, Downloading;
    Bound(s.a, j, 0);
    FirstWaits(s.a, j);
    AskedOnce(s.b, b0, j, s.toB);
    var status := s.b.wire[1].data.status;
    SettleKeeps(s.a, j, 0, status);
    var settled := s.a.(queue := Replied(s.a.queue, j.id, status).value);
    if status == STATUS_OK {
      BurstKeeps(settled, j, 1, 5);
      Bound(Burst(settled, j.id, 5).peer, j, 1);
      LinkedGrows(s.a.wire, Burst(settled, j.id, 5).peer.wire, s.b.wire, s.toB, j.request.totalPackets);
    }
  }

  /** What the sender makes of the answer to a packet. */
  lemma AnswerToPacket(a: Peer, j: Job, i: nat, status: Status)
    requires ValidJob(j) && Sender(a, j, i) && 1 <= i < |a.wire|
    requires status in {STATUS_OK, INVALID_REQUEST_ID}
    ensures var id := a.wire[i].messageId;
      && id in a.queue.outgoing
      && var settled := a.(queue := Replied(a.queue, id, status).value);
         AuthorizeRequest(a, Request(id, Response(status))) ==
           if status == STATUS_OK && j.id in a.uploads then NextOnReply(settled, j.id) else Out(settled, None)
  {
    hide Sender, Packets, ValidJob, NextOnReply, Burst, NextListOnReply, RespondToRequest, AskUser;
    PacketWaits(a, j, i);
  }

  /** The answer to a packet: the next one goes out, or the upload is over. */
  lemma ReplyKeeps(s: Push, j: Job, b0: Peer)
    requires Inv(s, j, b0) && Enabled(s, DeliverToSender) && s.toA >= 2
    ensures Inv(Next(s, DeliverToSender), j, b0) && |Next(s, DeliverToSender).a.wire| >= |s.a.wire|
  {
    hide Sender, Packets, Fresh, SendPacket, AuthorizeRequest, Receiver, Open, Linked;
    var i := s.toA - 1;
    AskedOnce(s.b, b0, j, s.toB);
    Bound(s.a, j, i);
    PacketsCount(j);
    assert s.b.wire[i + 1].data in {Response(STATUS_OK), Response(INVALID_REQUEST_ID)}
        && (s.b.wire[i + 1].data == Response(STATUS_OK) || i > j.request.totalPackets)
        && s.b.wire[i + 1].messageId == s.a.wire[i].messageId by { AckIs(s, j, i); }
    var status, id := s.b.wire[i + 1].data.status, s.a.wire[i].messageId;
    AnswerToPacket(s.a, j, i, status);
    SettleKeeps(s.a, j, i, status);
    var settled := s.a.(queue := Replied(s.a.queue, id, status).value);
    Bound(settled, j, i + 1);
    if status == STATUS_OK && j.id in s.a.uploads {
      if settled.uploads[j.id].open {
        SendKeeps(settled, j, i + 1);
        LinkedGrows(s.a.wire, SendPacket(settled, j.id).peer.wire, s.b.wire, s.toB, j.request.totalPackets);
      } else {
        UploadDropped(settled, j, i + 1);
      }
    }
  }

  lemma AckIs(s: Push, j: Job, i: nat)
    requires ValidJob(j) && Linked(s.a.wire, s.b.wire, s.toB, j.request.totalPackets) && 1 <= i < s.toB
    ensures Acknowledged(s.a.wire, s.b.wire, i, j.request.totalPackets)
  {
  }

  lemma UploadDropped(a: Peer, j: Job, answered: nat)
    requires ValidJob(j) && Sender(a, j, answered)
    ensures Sender(a.(uploads := a.uploads - {j.id}), j, answered)
  {
  }

  lemma PacketWaits(a: Peer, j: Job, i: nat)
    requires ValidJob(j) && Sender(a, j, i) && 1 <= i < |a.wire|
    ensures var id := a.wire[i].messageId;
      && id in a.queue.outgoing && a.queue.outgoing[id].request.data.DataPacket?
      && a.queue.outgoing[id].request.data.requestId == j.id
  {
    assert a.wire[i].data == SentData(j, i);
  }

  lemma GiveUpKeeps(s: Push, j: Job, b0: Peer)
    requires Inv(s, j, b0) && Enabled(s, GiveUp)
    ensures Inv(Next(s, GiveUp), j, b0)
  {
    hide Sender, Receiver, Packets, ValidJob, Linked, Fresh;
    UploadDropped(s.a, j, Settled(s.toA));
    if s.toA < 2 { StillAsking(s, j, b0); }
  }

  /** Before the verdict is read, the status is not final. */
  lemma StillAsking(s: Push, j: Job, b0: Peer)
    requires Inv(s, j, b0) && s.toA < 2
    ensures !Answers(s, true) && !Answers(s, false)
  {
    assert s.a.wire[0].messageId == j.id;
    assert Taken(s.a.queue.outgoing, j.id);
  }

  lemma ResumeKeeps(s: Push, j: Job, b0: Peer)
    requires Inv(s, j, b0) && Enabled(s, Resume)
    ensures Inv(Next(s, Resume), j, b0)
  {
    hide Sender, Receiver, Packets, ValidJob, Linked, Fresh;
    if s.toA < 2 { StillAsking(s, j, b0); }
    assert Accepted(s.b) || Verdict(s.b) != Some(STATUS_OK);
  }

  lemma NextKeeps(s: Push, act: Action, j: Job, b0: Peer)
    requires Inv(s, j, b0) && Enabled(s, act)
    ensures Inv(Next(s, act), j, b0)
  {
    hide Inv, Enabled, Next;
    match act
    case DeliverToReceiver => if s.toB == 0 { AnnounceKeeps(s, j, b0); } else { PacketKeeps(s, j, b0); }
    case DeliverToSender =>
      if s.toA == 0 { AskedKeeps(s, j, b0); }
      else if s.toA == 1 { VerdictKeeps(s, j, b0); }
      else { ReplyKeeps(s, j, b0); }
    case Decide(status) => DecideKeeps(s, j, b0, status);
    case Resume => ResumeKeeps(s, j, b0);
    case GiveUp => GiveUpKeeps(s, j, b0);
    case Emit => EmitKeeps(s, j, b0);
  }

  // ----- the replies -----------------------------------------------------------

  /** A status is the user's last word only by the user's decision. */
  lemma VerdictComes(s: Push, act: Action, j: Job, b0: Peer)
    requires Inv(s, j, b0) && Enabled(s, act)
    ensures var after := Verdict(Next(s, act).b);
      || after.None? || after == Verdict(s.b) || after == Some(UP_TO_DATE)
      || (act.Decide? && after == Some(act.status))
  {
    hide Sender, Receiver, Packets, Linked, Visible, Fresh, AuthorizeRequest, RespondToRequest, SendPacket;
    NextKeeps(s, act, j, b0);
    match act
    case DeliverToReceiver =>
      AskedOnce(s.b, b0, j, s.toB);
      AskedOnce(Next(s, act).b, b0, j, s.toB + 1);
      if s.toB == 0 { AnnounceKeeps(s, j, b0); } else { SameVerdict(s, j, b0); }
    case Decide(status) => DecideKeeps(s, j, b0, status);
    case _ =>
  }

  lemma SameVerdict(s: Push, j: Job, b0: Peer)
    requires Inv(s, j, b0) && Enabled(s, DeliverToReceiver) && s.toB >= 1
    ensures Verdict(Next(s, DeliverToReceiver).b) == Verdict(s.b)
  {
    hide AuthorizeRequest, Packets, Fresh, Receiver, Linked, ValidJob, Visible;
    AskedOnce(s.b, b0, j, s.toB);
    Bound(s.a, j, Settled(s.toA));
    var m := s.a.wire[s.toB];
    assert m.data == SentData(j, s.toB);
    PacketArrives(s.b, b0, j, s.toB, m.messageId);
  }

  predicate AllFit(wire: seq<Request>) {
    forall r :: r in wire ==> r.data.Response? && FitsChar(r.data.status)
  }

  /** Every reply is a status that a byte can carry, if the user's is. */
  lemma RepliesFit(s: Push, j: Job, b0: Peer)
    requires Inv(s, j, b0) && (Verdict(s.b).Some? ==> FitsChar(Verdict(s.b).value))
    ensures AllFit(s.b.wire)
  {
    hide Sender, Visible, Downloading, Chunks, TotalPackets;
    AskedOnce(s.b, b0, j, s.toB);
    forall k | 0 <= k < |s.b.wire| ensures s.b.wire[k].data.Response? && FitsChar(s.b.wire[k].data.status) {
      if k >= 2 { assert Acknowledged(s.a.wire, s.b.wire, k - 1, j.request.totalPackets); }
    }
  }

  lemma {:induction false} VerdictFits(s: Push, acts: seq<Action>, j: Job, b0: Peer)
    requires Inv(s, j, b0) && Verdict(s.b).None? && Run(s, acts).Some?
    requires forall act :: act in acts && act.Decide? ==> FitsChar(act.status)
    ensures var v := Verdict(Run(s, acts).value.b); v.Some? ==> FitsChar(v.value)
    decreases |acts|
  {
    hide Inv, Next, Verdict;
    if acts != [] {
      var n := |acts| - 1;
      assert forall act :: act in acts[..n] ==> act in acts;
      VerdictFits(s, acts[..n], j, b0);
      RunKeeps(s, acts[..n], j, b0);
      VerdictComes(Run(s, acts[..n]).value, acts[n], j, b0);
    }
  }

  // ----- the start -----------------------------------------------------------

  /** `send_file` gets past its preparations: a slot is free, the host file exists
      and may be read. */
  predicate Prepared(a0: Peer, host: Path) {
    && Conserved(a0.queue) && a0.queue.slots > 0
    && host != [] && UploadError(a0.env, host, 4096).None?
    && PrepareUpload(a0.env, host, PushedPath(a0.env, host), 4096, 0).0.Some?
  }

  /** And the file is not empty, the channels are, the receiver has neither asked for the
      file nor a transfer left under the same id, and the file can be put in its place. */
  ghost predicate CanPush(a0: Peer, b0: Peer, host: Path) {
    && Prepared(a0, host)
    && a0.wire == [] && a0.env.disk(Render(host)).content != [] && PushId(a0, host) !in a0.uploads
    && b0.wire == [] && b0.buffer == [] && PushId(a0, host) !in b0.downloads
    && b0.env.hash == a0.env.hash && b0.env.destination(Announcement(a0, host)) in {Openable, Downloaded}
    && FindReceiveFile(b0.queue.outgoing, Announcement(a0, host).filepath, 0).None?
  }

  /** The SEND_FILE that announces a host file. */
  function Announcement(a0: Peer, host: Path): (d: Data)
    requires Prepared(a0, host)
    ensures d.SendFile?
  {
    PrepareUpload(a0.env, host, PushedPath(a0.env, host), 4096, 0).0.value.request
  }

  function PushId(a0: Peer, host: Path): MessageId
    requires Prepared(a0, host)
  {
    FreeSlotMeansFreeId(a0.queue, Announcement(a0, host));
    Send(a0.queue, Announcement(a0, host)).id
  }

  function Start(a0: Peer, b0: Peer, host: Path): Push
    requires Prepared(a0, host)
  {
    var out := CreateHostUpload(a0, host);
    Push(out.peer, b0, PushId(a0, host), Awaiting, 0, 0, out.error)
  }

  function JobOf(a0: Peer, host: Path): Job
    requires Prepared(a0, host)
  {
    Job(PushId(a0, host), Announcement(a0, host), a0.env.disk(Render(host)).content, a0.queue.slots, a0.env.hash)
  }

  lemma StartsWell(a0: Peer, b0: Peer, host: Path)
    requires CanPush(a0, b0, host)
    ensures Inv(Start(a0, b0, host), JobOf(a0, host), b0)
  {
    hide Send, FindReceiveFile, PushedPath, TotalPackets, Chunks, Open, OpenIds;
    var j := JobOf(a0, host);
    assert ValidJob(j);
    PacketsCount(j);
    FreeSlotMeansFreeId(a0.queue, j.request);
    SendTakes(a0.queue, j.request);
    OneMoreWaits(a0.queue.outgoing, [], 0, j.id, j.request);
    assert [] + [Request(j.id, j.request)] == [Request(j.id, j.request)];
    assert Owned(a0.queue.outgoing, [], 0, j.id);
    assert Packets(j)[0..] == Packets(j);
  }

  lemma {:induction false} RunKeeps(s: Push, acts: seq<Action>, j: Job, b0: Peer)
    requires Inv(s, j, b0)
    ensures Run(s, acts).Some? ==> Inv(Run(s, acts).value, j, b0)
    decreases |acts|
  {
    hide Inv, Next;
    if acts != [] {
      RunKeeps(s, acts[..|acts| - 1], j, b0);
      var before := Run(s, acts[..|acts| - 1]);
      if before.Some? && Enabled(before.value, acts[|acts| - 1]) {
        NextKeeps(before.value, acts[|acts| - 1], j, b0);
      }
    }
  }

  // ----- what the runs amount to -----------------------------------------------

  function Payload(r: Request): bytes { if r.data.DataPacket? then r.data.data else [] }

  /** The bytes carried by the DATA_PACKETs among some messages. */
  function Carried(ms: seq<Request>): bytes { Concat(seq(|ms|, i requires 0 <= i < |ms| => Payload(ms[i]))) }

  /** What the receiver has written: to the download, or to the file saved since. */
  function Written(b: Peer, id: MessageId, saves: nat): bytes {
    if id in b.downloads then b.downloads[id].download.file
    else if |b.saved| > saves then b.saved[|b.saved| - 1].1
    else []
  }

  lemma CarriedSplits(xs: seq<Request>, ys: seq<Request>)
    ensures Carried(xs + ys) == Carried(xs) + Carried(ys)
  {
    var f := (ms: seq<Request>) => seq(|ms|, i requires 0 <= i < |ms| => Payload(ms[i]));
    assert f(xs + ys) == f(xs) + f(ys);
    ConcatAppend(f(xs), f(ys));
  }

  /** The first messages carry the first packets. */
  lemma CarriedIs(wire: seq<Request>, j: Job, n: nat)
    requires ValidJob(j) && Wrote(wire, j) && n <= |wire|
    ensures Carried(wire[..n]) == Concat(Packets(j)[..if n == 0 then 0 else n - 1])
  {
    var ps := Packets(j);
    if n > 0 {
      forall i | 0 <= i < n ensures Payload(wire[i]) == if i == 0 then [] else ps[i - 1] {
        assert wire[i].data == SentData(j, i);
      }
      var loads := seq(n, i requires 0 <= i < n => Payload(wire[i]));
      assert loads == seq(|wire[..n]|, i requires 0 <= i < |wire[..n]| => Payload(wire[..n][i]));
      assert loads == [[]] + ps[..n - 1];
      ConcatCons([], ps[..n - 1]);
    }
  }

  lemma WrittenIs(s: Push, j: Job, b0: Peer)
    requires Inv(s, j, b0)
    ensures Written(s.b, j.id, |b0.saved|) == Carried(s.a.wire[..s.toB])
  {
    CarriedIs(s.a.wire, j, s.toB);
    if s.toB >= 1 && s.b.buffer == [] && Accepted(s.b) {
      WholeOrPrefix(s.b, b0, j, s.toB - 1);
    } else {
      hide Sender, Linked, Visible;
      NothingYet(s.b, b0, j, s.toB);
      assert Packets(j)[..0] == [];
    }
  }

  lemma NothingYet(b: Peer, b0: Peer, j: Job, got: nat)
    requires ValidJob(j) && Fresh(b0, j) && Receiver(b, b0, j, got)
    requires got == 0 || b.buffer != [] || !Accepted(b)
    ensures got <= 1 && Written(b, j.id, |b0.saved|) == []
  {
  }

  lemma WholeOrPrefix(b: Peer, b0: Peer, j: Job, d: nat)
    requires ValidJob(j) && Downloading(b, b0, j, d) && d <= |Packets(j)|
    ensures Written(b, j.id, |b0.saved|) == Concat(Packets(j)[..d])
  {
    PacketsCount(j);
    BlocksCount(j);
    ChunksJoin(j.content, j.request.packetSize);
    var total := j.request.totalPackets;
    if d < total {
      assert Blocks(j)[..d] == Packets(j)[..d];
    } else {
      LastIsEmpty(Packets(j), d);
    }
  }

  /** In every reachable state of every interleaving: nothing was thrown, the ids
      are consecutive, and what the receiver has written followed by what is still
      in the channel is what was emitted, a prefix of the file. */
  lemma NothingLost(a0: Peer, b0: Peer, host: Path, acts: seq<Action>)
    requires CanPush(a0, b0, host) && Run(Start(a0, b0, host), acts).Some?
    ensures var s := Run(Start(a0, b0, host), acts).value;
      var content := a0.env.disk(Render(host)).content;
      && s.error.None?
      && s.toB <= |s.a.wire|
      && Written(s.b, s.id, |b0.saved|) + Carried(s.a.wire[s.toB..]) == Carried(s.a.wire) <= content
      && forall i :: 1 <= i < |s.a.wire| ==>
           var d := s.a.wire[i].data; d.DataPacket? && d.requestId == s.id && d.packetId == i - 1
  {
    hide Prepared, Inv, Start, Run, JobOf;
    StartsWell(a0, b0, host);
    RunKeeps(Start(a0, b0, host), acts, JobOf(a0, host), b0);
    var s, j := Run(Start(a0, b0, host), acts).value, JobOf(a0, host);
    ConservedIn(s, j, b0);
    assert j.content == a0.env.disk(Render(host)).content by { JobContent(a0, host); }
  }

  lemma JobContent(a0: Peer, host: Path)
    requires Prepared(a0, host)
    ensures a0.env.disk(Render(host)).HostBytes? && JobOf(a0, host).content == a0.env.disk(Render(host)).content
    ensures JobOf(a0, host).request == Announcement(a0, host)
  {
  }

  lemma ConservedIn(s: Push, j: Job, b0: Peer)
    requires Inv(s, j, b0)
    ensures s.error.None? && s.id == j.id && s.toB <= |s.a.wire|
    ensures Written(s.b, s.id, |b0.saved|) + Carried(s.a.wire[s.toB..]) == Carried(s.a.wire) <= j.content
    ensures forall i :: 1 <= i < |s.a.wire| ==>
              var d := s.a.wire[i].data; d.DataPacket? && d.requestId == s.id && d.packetId == i - 1
  {
    hide Receiver, AllWaiting, Visible, Accepted, Packets, Acknowledged;
    WrittenIs(s, j, b0);
    var w, k := s.a.wire, |s.a.wire| - 1;
    CarriedSplits(w[..s.toB], w[s.toB..]);
    assert w[..s.toB] + w[s.toB..] == w && w[..|w|] == w;
    CarriedIs(w, j, |w|);
    PrefixOfFile(j, k);
    forall i | 1 <= i < |w| ensures w[i].data == DataPacket(j.id, i - 1, Packets(j)[i - 1]) {
      assert w[i].data == SentData(j, i);
    }
  }

  lemma PrefixOfFile(j: Job, k: nat)
    requires ValidJob(j) && k <= |Packets(j)|
    ensures Concat(Packets(j)[..k]) <= j.content
  {
    ChunksJoin(j.content, j.request.packetSize);
    ConcatAppend(Packets(j)[..k], Packets(j)[k..]);
    assert Packets(j)[..k] + Packets(j)[k..] == Packets(j);
  }

  /** In every reachable state the receiver has either saved exactly the file, and
      then holds all of it, or saved nothing, and then does not. */
  lemma SavedIffWhole(a0: Peer, b0: Peer, host: Path, acts: seq<Action>)
    requires CanPush(a0, b0, host) && Run(Start(a0, b0, host), acts).Some?
    ensures var s := Run(Start(a0, b0, host), acts).value;
      var content := a0.env.disk(Render(host)).content;
      var whole := Written(s.b, s.id, |b0.saved|) == content;
      s.b.saved == if whole then b0.saved + [(Announcement(a0, host).filepath, content)] else b0.saved
  {
    hide Prepared, Inv, Start, Run, JobOf, Announcement;
    StartsWell(a0, b0, host);
    RunKeeps(Start(a0, b0, host), acts, JobOf(a0, host), b0);
    var s, j := Run(Start(a0, b0, host), acts).value, JobOf(a0, host);
    SavedIn(s, j, b0);
    JobContent(a0, host);
  }

  lemma SavedIn(s: Push, j: Job, b0: Peer)
    requires Inv(s, j, b0)
    ensures s.id == j.id && j.request.SendFile?
    ensures s.b.saved == if Written(s.b, s.id, |b0.saved|) == j.content
                         then b0.saved + [(j.request.filepath, j.content)] else b0.saved
  {
    hide Sender, Linked, Visible;
    IsSendFile(j);
    if s.toB >= 1 && s.b.buffer == [] && Accepted(s.b) {
      ShortOf(s.b, b0, j, s.toB - 1);
    } else {
      NothingYet(s.b, b0, j, s.toB);
    }
  }

  lemma ShortOf(b: Peer, b0: Peer, j: Job, d: nat)
    requires ValidJob(j) && Downloading(b, b0, j, d)
    ensures (Written(b, j.id, |b0.saved|) == j.content) == (d >= j.request.totalPackets)
  {
    BlocksCount(j);
    BlocksAreTheFile(j);
    if d < j.request.totalPackets {
      var bs := Blocks(j);
      ConcatAppend(bs[..d], bs[d..]);
      assert bs[..d] + bs[d..] == bs;
      assert bs[d..][|bs[d..]| - 1] == bs[|bs| - 1];
    }
  }

  /** What is left to do, an upper bound. */
  function Measure(s: Push, j: Job): int
    requires ValidJob(j)
  {
    3 * (|Packets(j)| + 1 - |s.a.wire|) + 2 * (|s.a.wire| - s.toB) + (|s.b.wire| - s.toA)
    + (if s.toB == 0 || s.b.buffer != [] then 2 else 0) + (if s.stage == Awaiting then 1 else 0)
  }

  lemma MeasureFalls(s: Push, act: Action, j: Job, b0: Peer)
    requires Inv(s, j, b0) && Enabled(s, act)
    ensures 0 <= Measure(Next(s, act), j) < Measure(s, j)
  {
    hide Sender, Receiver, Packets, Linked, Visible, Fresh, AuthorizeRequest, RespondToRequest, SendPacket;
    NextKeeps(s, act, j, b0);
    var t := Next(s, act);
    AskedOnce(s.b, b0, j, s.toB);
    AskedOnce(t.b, b0, j, t.toB);
    Bound(t.a, j, Settled(t.toA));
    GotIsSent(t, j);
    match act
    case DeliverToReceiver => if s.toB == 0 { AnnounceKeeps(s, j, b0); }
    case DeliverToSender =>
      if s.toA == 0 { AskedKeeps(s, j, b0); }
      else if s.toA == 1 { VerdictKeeps(s, j, b0); }
      else { ReplyKeeps(s, j, b0); }
    case Decide(status) => DecideKeeps(s, j, b0, status);
    case Emit => EmitKeeps(s, j, b0);
    case _ =>
  }

  lemma GotIsSent(s: Push, j: Job)
    requires ValidJob(j) && Linked(s.a.wire, s.b.wire, s.toB, j.request.totalPackets)
    ensures s.toB <= |s.a.wire|
  {
  }

  lemma {:induction false} RunBound(s: Push, acts: seq<Action>, j: Job, b0: Peer)
    requires Inv(s, j, b0) && Run(s, acts).Some?
    ensures |acts| + Measure(Run(s, acts).value, j) <= Measure(s, j)
    decreases |acts|
  {
    hide Inv, Next, Measure;
    if acts != [] {
      RunBound(s, acts[..|acts| - 1], j, b0);
      RunKeeps(s, acts[..|acts| - 1], j, b0);
      MeasureFalls(Run(s, acts[..|acts| - 1]).value, acts[|acts| - 1], j, b0);
    }
  }

  lemma MeasureAtLeast(s: Push, j: Job, b0: Peer)
    requires Inv(s, j, b0)
    ensures Measure(s, j) >= 0
  {
    hide Receiver, Visible, Packets, ValidJob;
  }

  /** Every run ends: at most three steps for each packet, and eight more. */
  lemma EveryRunEnds(a0: Peer, b0: Peer, host: Path, acts: seq<Action>)
    requires CanPush(a0, b0, host) && Run(Start(a0, b0, host), acts).Some?
    ensures |acts| <= 3 * (|a0.env.disk(Render(host)).content| / 4096) + 8
  {
    hide Inv, Run, PrepareUpload, CreateHostUpload, Measure, Chunks, Packets;
    StartsWell(a0, b0, host);
    var s, j := Start(a0, b0, host), JobOf(a0, host);
    RunBound(s, acts, j, b0);
    RunKeeps(s, acts, j, b0);
    MeasureAtLeast(Run(s, acts).value, j, b0);
    StartMeasure(a0, b0, host);
  }

  lemma JobValid(s: Push, j: Job, b0: Peer)
    requires Inv(s, j, b0)
    ensures ValidJob(j)
  {
  }

  lemma StartMeasure(a0: Peer, b0: Peer, host: Path)
    requires CanPush(a0, b0, host) && Inv(Start(a0, b0, host), JobOf(a0, host), b0)
    ensures Measure(Start(a0, b0, host), JobOf(a0, host))
         == 3 * (|a0.env.disk(Render(host)).content| / 4096) + 8
  {
    hide Inv, PushedPath, Send, OpenIds, TotalPackets, FindReceiveFile;
    var s, j := Start(a0, b0, host), JobOf(a0, host);
    assert ValidJob(j) by { JobValid(s, j, b0); }
    FreeSlotMeansFreeId(a0.queue, j.request);
    ChunksCount(j.content, j.request.packetSize);
  }

  /** A run that cannot go on is complete: the file was accepted and all of it is
      saved, or it was refused and the sender knows. */
  lemma StuckMeansDone(a0: Peer, b0: Peer, host: Path, acts: seq<Action>)
    requires CanPush(a0, b0, host) && Run(Start(a0, b0, host), acts).Some?
    requires forall act :: !Enabled(Run(Start(a0, b0, host), acts).value, act)
    ensures var s := Run(Start(a0, b0, host), acts).value;
      && Verdict(s.b).Some?
      && s.toB == |s.a.wire| && s.toA == |s.b.wire|
      && if Verdict(s.b) == Some(STATUS_OK)
         then Written(s.b, s.id, |b0.saved|) == a0.env.disk(Render(host)).content && s.stage != Awaiting
         else s.stage == Returned && s.id !in s.b.downloads && |s.a.wire| == 1
  {
    hide Prepared, Inv, Start, Run, JobOf, Enabled;
    StartsWell(a0, b0, host);
    RunKeeps(Start(a0, b0, host), acts, JobOf(a0, host), b0);
    var s, j := Run(Start(a0, b0, host), acts).value, JobOf(a0, host);
    DoneIn(s, j, b0);
    JobContent(a0, host);
  }

  lemma DoneIn(s: Push, j: Job, b0: Peer)
    requires Inv(s, j, b0) && forall act :: !Enabled(s, act)
    ensures s.id == j.id && Verdict(s.b).Some? && s.toB == |s.a.wire| && s.toA == |s.b.wire|
    ensures if Verdict(s.b) == Some(STATUS_OK)
            then Written(s.b, s.id, |b0.saved|) == j.content && s.stage != Awaiting
            else s.stage == Returned && s.id !in s.b.downloads && |s.a.wire| == 1
  {
    hide Sender, Receiver, Packets, Linked, Fresh, ValidJob;
    assert !Enabled(s, DeliverToReceiver) && !Enabled(s, DeliverToSender) && !Enabled(s, Decide(STATUS_OK));
    assert !Enabled(s, Resume) && !Enabled(s, GiveUp) && !Enabled(s, Emit);
    Bound(s.a, j, Settled(s.toA));
    GotIsSent(s, j);
    AskedOnce(s.b, b0, j, s.toB);
    AllAnswered(s.a, j, Settled(s.toA));
    VerdictIs(s.b, b0, j, s.toB);
    PacketsCount(j);
    if Accepted(s.b) {
      DecidedDownload(s.b, b0, j, s.toB);
      ShortOf(s.b, b0, j, s.toB - 1);
    }
  }

  lemma AllAnswered(a: Peer, j: Job, answered: nat)
    requires ValidJob(j) && Sender(a, j, answered) && answered == |a.wire|
    ensures a.queue.slots > 0 && !Taken(a.queue.outgoing, j.id)
  {
  }

  lemma VerdictIs(b: Peer, b0: Peer, j: Job, got: nat)
    requires ValidJob(j) && Fresh(b0, j) && Receiver(b, b0, j, got) && got > 0 && b.buffer == []
    ensures Verdict(b).Some? && (Verdict(b) == Some(STATUS_OK)) == Accepted(b)
    ensures !Accepted(b) ==> got == 1 && j.id !in b.downloads
  {
  }

  lemma DecidedDownload(b: Peer, b0: Peer, j: Job, got: nat)
    requires ValidJob(j) && Fresh(b0, j) && Receiver(b, b0, j, got) && got > 0 && b.buffer == [] && Accepted(b)
    ensures Downloading(b, b0, j, got - 1)
  {
  }
}
