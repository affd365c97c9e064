/** A push carried by bytes: what the sender writes survives framing, any cutting
    into reads, and parsing. */
module EndToEnd {
  import opened Bytes
  import opened Requests
  import opened VarInt
  import opened Codec
  import opened Paths
  import P = Peer
  import F = FilePush
  import S = Stream
  import T = Transfers

  /** Messages that reach the other side as they were sent. */
  predicate Unchanged(rs: seq<Request>) {
    AllSendable(rs) && forall r :: r in rs ==> Delivered(r) == r
  }

  lemma {:induction false} DeliveredUnchanged(rs: seq<Request>)
    requires Unchanged(rs)
    ensures DeliveredAll(rs) == rs
  {
    if rs != [] {
      assert forall r :: r in rs[1..] ==> r in rs;
      DeliveredUnchanged(rs[1..]);
      assert rs[0] in rs;
    }
  }

  /** A data packet of at most 4096 bytes fits in a frame. */
  lemma PacketFits(id: MessageId, request: MessageId, packet: nat, data: bytes)
    requires packet < 0x100_0000_0000_0000 && |data| <= 4096
    ensures Sendable(Request(id, DataPacket(request, packet, data)))
    ensures ShortEnough(Request(id, DataPacket(request, packet, data)))
  {
    hide Encode;
    SmallShifts();
    EncodeLength(packet, 8);
    EncodeLength(|data|, 8);
  }

  lemma {:induction false} ChunksSmall(content: bytes, size: nat, i: nat)
    requires size > 0 && i < |T.Chunks(content, size)|
    ensures |T.Chunks(content, size)[i]| <= size
    decreases |content|
  {
    if i > 0 { ChunksSmall(content[size..], size, i - 1); }
  }

  lemma WireUnchanged(wire: seq<Request>, j: F.Job)
    requires F.ValidJob(j) && F.Wrote(wire, j)
    requires j.request.packetSize == 4096 && |j.content| < U64
    requires Sendable(Request(j.id, j.request)) && ShortEnough(Request(j.id, j.request))
    ensures Unchanged(wire)
  {
    T.ChunksCount(j.content, 4096);
    forall r | r in wire ensures Sendable(r) && ShortEnough(r) && Delivered(r) == r {
      var i :| 0 <= i < |wire| && wire[i] == r;
      assert r.data == F.SentData(j, i);
      if i > 0 {
        ChunksSmall(j.content, 4096, i - 1);
        PacketFits(r.messageId, j.id, i - 1, F.Packets(j)[i - 1]);
      }
    }
  }

  /** In every reachable state of a push, whatever reads the bytes written so far
      are cut into, the receiving end dispatches exactly the messages sent, once
      each and in order, unless a read ends inside a frame's size field. */
  lemma PushOverBytes(a0: P.Peer, b0: P.Peer, host: Path, acts: seq<F.Action>, chunks: seq<bytes>)
    requires F.CanPush(a0, b0, host) && F.Run(F.Start(a0, b0, host), acts).Some?
    requires |a0.env.disk(Render(host)).content| < U64
    requires var announced := Request(F.PushId(a0, host), F.Announcement(a0, host));
      Sendable(announced) && ShortEnough(announced)
    requires var wire := F.Run(F.Start(a0, b0, host), acts).value.a.wire;
      && Concat(chunks) == Stream(wire)
      && forall i :: 0 < i <= |chunks| ==> !S.BadCut(wire, S.Cut(chunks, i))
    ensures S.PollAll(chunks) == S.State([], F.Run(F.Start(a0, b0, host), acts).value.a.wire)
  {
    hide F.Start, F.Run, Sendable, ShortEnough, Stream, P.PrepareUpload, DeliveredAll, Delivered;
    F.StartsWell(a0, b0, host);
    var j := F.JobOf(a0, host);
    F.RunKeeps(F.Start(a0, b0, host), acts, j, b0);
    var s := F.Run(F.Start(a0, b0, host), acts).value;
    AnnouncedInPackets(a0, host);
    WireUnchanged(s.a.wire, j);
    DeliveredUnchanged(s.a.wire);
    S.WholeStream(s.a.wire, chunks);
  }

  lemma RepliesUnchanged(wire: seq<Request>)
    requires F.AllFit(wire)
    ensures Unchanged(wire)
  {
    forall r | r in wire ensures Sendable(r) && ShortEnough(r) && Delivered(r) == r {}
  }

  /** And so do the replies the other way, if the user answers with a status that a
      byte can carry. */
  lemma RepliesOverBytes(a0: P.Peer, b0: P.Peer, host: Path, acts: seq<F.Action>, chunks: seq<bytes>)
    requires F.CanPush(a0, b0, host) && F.Run(F.Start(a0, b0, host), acts).Some?
    requires forall act :: act in acts && act.Decide? ==> FitsChar(act.status)
    requires var wire := F.Run(F.Start(a0, b0, host), acts).value.b.wire;
      && Concat(chunks) == Stream(wire)
      && forall i :: 0 < i <= |chunks| ==> !S.BadCut(wire, S.Cut(chunks, i))
    ensures S.PollAll(chunks) == S.State([], F.Run(F.Start(a0, b0, host), acts).value.b.wire)
  {
    hide F.Run, Sendable, ShortEnough, Stream, P.CreateHostUpload, DeliveredAll, Delivered, F.Inv, F.JobOf;
    F.StartsWell(a0, b0, host);
    var j, start := F.JobOf(a0, host), F.Start(a0, b0, host);
    F.RunKeeps(start, acts, j, b0);
    F.VerdictFits(start, acts, j, b0);
    var s := F.Run(start, acts).value;
    F.RepliesFit(s, j, b0);
    RepliesUnchanged(s.b.wire);
    DeliveredUnchanged(s.b.wire);
    S.WholeStream(s.b.wire, chunks);
  }

  lemma AnnouncedInPackets(a0: P.Peer, host: Path)
    requires F.Prepared(a0, host)
    ensures F.JobOf(a0, host).request.packetSize == 4096
  {
  }
}
