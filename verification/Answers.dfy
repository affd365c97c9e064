/** What a peer writes and changes for each message it takes in, and for each thing its user
    does: the answers, status by status. */
module Answers {
  import opened Bytes
  import opened Requests
  import opened Transfers
  import opened MessageQueue
  import opened Paths
  import opened FileMapping
  import opened ForbiddenPaths
  import opened Peer

  // ----- who may be served and listed ------------------------------------------------

  /** The path leads to no host node, or a forbidden folder is in front of where it leads. */
  ghost predicate Withheld(env: Env, folders: set<Path>, path: bytes) {
    var found := FindVirtual(env.root, path);
    || found.None? || NodeAt(env.root, found.value.0).kind == Virtual
    || exists f :: f in folders && f <= VirtualToHost(env.root, path)
  }

  /** The status of a RECEIVE_FILE, or what it throws, by what is on the host. */
  lemma ServeStatusIs(env: Env, folders: set<Path>, path: bytes, size: nat, start: nat)
    requires WellFormedRoot(env.root) && DenotesAll(env.forbidden, folders)
    ensures var status, found := ServeStatus(env, ReceiveFile(path, size, start)),
                                 env.disk(Render(VirtualToHost(env.root, path)));
      && (status == Success(FILE_NOT_FOUND) <==> Withheld(env, folders, path) || found.Missing?)
      && (status == Failure(HostError) <==>
            !Withheld(env, folders, path) && (found.Unreadable? || found.Directory?))
      && (status == Failure(Crash) <==> !Withheld(env, folders, path) && found.HostBytes? && size == 0)
      && (status == Success(BAD_REQUEST) <==>
            !Withheld(env, folders, path) && found.HostBytes? && size > 0
            && start > |found.content| / size + if |found.content| % size == 0 then 0 else 1)
      && (status == Success(STATUS_OK) <==>
            !Withheld(env, folders, path) && found.HostBytes? && size > 0
            && start <= |found.content| / size + if |found.content| % size == 0 then 0 else 1)
  {
    hide WellFormed, Walk, VirtualComponents, Join, Render, IsForbidden, DenotesAll, NearlyNormal;
    var host := VirtualToHost(env.root, path);
    HostOrNot(env.root, path);
    if host != [] {
      ReachesOnlyVisible(env.root, path);
      ForbiddenIff(env.forbidden, folders, host);
      WithinIs(folders, host);
    }
  }

  lemma WithinIs(folders: set<Path>, p: Path)
    ensures (exists f :: f in folders && Within(p, f)) <==> exists f :: f in folders && f <= p
  {
    if f :| f in folders && f <= p { assert Within(p, f); }
    if f :| f in folders && Within(p, f) { assert f <= p; }
  }

  /** A host path is found exactly for a host node. */
  lemma HostOrNot(root: Node, path: bytes)
    requires WellFormedRoot(root)
    ensures VirtualToHost(root, path) == [] <==>
      FindVirtual(root, path).None? || NodeAt(root, FindVirtual(root, path).value.0).kind == Virtual
  {
    hide Walk, VirtualComponents, Normal;
    if FindVirtual(root, path).Some? {
      var (a, rest) := FindVirtual(root, path).value;
      KindsAreKept(root, a);
      JoinSome(NodeAt(root, a).hostPath, rest);
    }
  }

  lemma {:induction false} KindsAreKept(n: Node, a: Address)
    requires ValidAddress(n, a) && n.kind == Virtual && n.hostPath == [] && forall c :: c in n.children ==> WellFormed(c)
    ensures NodeAt(n, a).kind == Virtual <==> NodeAt(n, a).hostPath == []
  {
    if a != [] {
      var child := n.children[a[0]];
      assert WellFormed(child);
      if child.kind == Virtual { KindsAreKept(child, a[1..]); } else { assert a[1..] == []; }
    }
  }

  lemma {:induction false} JoinSome(p: Path, rest: Path)
    ensures p != [] ==> Join(p, rest) != []
  {
    if rest != [] { JoinSome(p, rest[..|rest| - 1]); }
  }

  /** A listing is accepted exactly when the path is found and leads to a virtual node, or to
      a host node with no forbidden folder in front of its own path. */
  lemma MayListIff(env: Env, folders: set<Path>, path: bytes)
    requires WellFormedRoot(env.root) && DenotesAll(env.forbidden, folders)
    ensures MayList(env, path) <==>
      && FindVirtual(env.root, path).Some?
      && var n := NodeAt(env.root, FindVirtual(env.root, path).value.0);
         n.kind == Virtual || !exists f :: f in folders && f <= n.hostPath
  {
    hide Walk, VirtualComponents, Render, IsForbidden, DenotesAll, Normal, NearlyNormal;
    if FindVirtual(env.root, path).Some? {
      var n := NodeAt(env.root, FindVirtual(env.root, path).value.0);
      if n.kind != Virtual {
        HostNodeIsNormal(env.root, FindVirtual(env.root, path).value.0);
        HostPathIsNearly(n);
        ForbiddenIff(env.forbidden, folders, n.hostPath);
        WithinIs(folders, n.hostPath);
      }
    }
  }

  lemma HostPathIsNearly(n: Node)
    requires WellFormed(n) && n.kind != Virtual
    ensures NearlyNormal(n.hostPath)
  {
  }

  // ----- a file that is pushed from here -----------------------------------------------

  /** Pushing a host file: thrown back when it is not there, forbidden or unreadable; else one
      SEND_FILE announces it whole, in packets of 4096 bytes, under its virtual path or, without
      one, under its own name, and its packets will be numbered from 0. */
  lemma PushedIs(p: Peer, host: Path)
    requires host != []
    ensures var out, found := CreateHostUpload(p, host), p.env.disk(Render(host));
      var name := HostToVirtual(p.env.root, host);
      if found.Missing? || IsForbidden(p.env.forbidden, Render(host)) then out == Out(p, Some(OutOfRange))
      else if !found.HostBytes? then out == Out(p, Some(HostError))
      else if p.queue.slots == 0 || NoIdLeft(p.queue) then
        out == Out(p, Some(if p.queue.slots == 0 then NoMoreSlots else Error.Endless))
      else
        && out.error.None? && |out.peer.wire| == |p.wire| + 1 && out.peer.wire[..|p.wire|] == p.wire
        && var Request(id, data) := out.peer.wire[|p.wire|];
           && AnnouncesFile(data, p.env, host, if name == [] then host[|host| - 1] else name, 4096, 0)
           && out.peer.uploads ==
              if id in p.uploads then p.uploads else p.uploads[id := Upload(data, found.content, 0, true, 0, 0)]
  {
    hide HostToVirtual, IsForbidden, Render, FirstFree, OpenIds, Send, FirstOnRing, NoIdLeft;
    if UploadError(p.env, host, 4096).None? {
      var prepared := PrepareUpload(p.env, host, PushedPath(p.env, host), 4096, 0).0;
      if prepared.Some? { SendOrNone(p.queue, prepared.value.request); }
    }
  }

  /** What keeps a request from being written. */
  function Unprintable(d: Data): Option<Error> {
    if d.PairRequest? || d.AcceptPairRequest? then Some(NotImplemented)
    else if d.SupportedVersions? || d.SelectedVersion? then Some(UnknownCommand)
    else if d.SendFile? && |d.filehash| != (match d.algorithm case MD5 => 16 case SHA256 => 32 case SHA512 => 64) then
      Some(WrongHashSize)
    else None
  }

  /** Asking for anything: it takes a slot and an id that no waiting request has, and is
      written, unless it cannot be printed, which throws behind that; without a slot or an id
      nothing changes. */
  lemma AskedIs(p: Peer, data: Data)
    ensures var out := AskFor(p, data);
      if p.queue.slots == 0 || NoIdLeft(p.queue) then
        out.peer == p && out.error == Some(if p.queue.slots == 0 then NoMoreSlots else Error.Endless)
      else
        var r := Request(out.id, data);
        && !Taken(p.queue.outgoing, out.id) && out.error == Unprintable(data)
        && out.peer == p.(queue := out.peer.queue, wire := out.peer.wire)
        && out.peer.queue.outgoing == p.queue.outgoing[out.id := Message(r, None)]
        && out.peer.queue.slots == p.queue.slots - 1
        && out.peer.wire == if Unprintable(data).Some? then p.wire else p.wire + [r]
  {
    hide FirstFree, OpenIds, Send, NoIdLeft;
    SendOrNone(p.queue, data);
    if Send(p.queue, data).Sent? { SendTakes(p.queue, data); }
  }

  // ----- messages that only the user can answer -------------------------------------------

  /** A message that nothing here answers by itself. */
  predicate ForTheUser(d: Data) { d.Ping? || d.PairRequest? || d.AcceptPairRequest? || d.SupportedVersions? || d.SelectedVersion? }

  /** It is noted, answered "approval pending" and kept for the user; nothing else changes. */
  lemma AsksTheUser(p: Peer, m: Request)
    requires ForTheUser(m.data)
    ensures AuthorizeRequest(p, m) == Out(
      p.(queue := p.queue.(incoming := p.queue.incoming[m.messageId := Message(m, Some(APPROVAL_PENDING))]),
         wire := p.wire + [Request(m.messageId, Response(APPROVAL_PENDING))],
         buffer := p.buffer + [m]), None)
  {
    NotedTwice(p.queue.incoming, m, APPROVAL_PENDING);
  }

  /** The answer `status` to a request, and nothing else. */
  function Answering(p: Peer, m: Request, status: Status): Peer {
    p.(queue := p.queue.(incoming := p.queue.incoming[m.messageId := Message(m, Some(status))]),
       wire := p.wire + [Request(m.messageId, Response(status))])
  }

  /** Whatever the user answers but OK is the whole answer. */
  lemma UserAnswers(p: Peer, m: Request, status: Status)
    requires status != STATUS_OK || ForTheUser(m.data) || m.data.Response?
    ensures RespondToRequest(p, m, status) == Out(Answering(p, m, status), None)
  {
    NotedTwice(p.queue.incoming, m, status);
  }

  /** OK from the user does not help a packet or a list that belongs to nothing. */
  lemma NothingToAddTo(p: Peer, m: Request)
    requires m.data.DataPacket? || m.data.FileList?
    requires m.data.DataPacket? ==> m.data.requestId !in p.downloads
    requires m.data.FileList? ==> m.data.requestId !in p.listings
    ensures RespondToRequest(p, m, STATUS_OK) == Out(Answering(p, m, INVALID_REQUEST_ID), None)
  {
    NotedTwice(p.queue.incoming, m, INVALID_REQUEST_ID);
  }

  /** An accepted SEND_FILE: nothing is opened twice, and nothing for a file that is there. */
  lemma DownloadOpened(p: Peer, m: Request)
    requires m.data.SendFile?
    ensures var out := RespondToRequest(p, m, STATUS_OK);
      match p.env.destination(m.data)
      case Blocked => out.error == Some(HostError) && out.peer.downloads == p.downloads && out.peer.wire == p.wire
      case Downloaded => out == Out(Answering(p, m, UP_TO_DATE), None)
      case _ =>
        && out.error.None? && out.peer.wire == Answering(p, m, STATUS_OK).wire
        && out.peer.queue == Answering(p, m, STATUS_OK).queue
        && out.peer.downloads ==
           if m.messageId in p.downloads then p.downloads
           else p.downloads[m.messageId := Incoming(Download(m.data, Arrivals(0, []), [], 0, true, 0), false)]
  {
    NotedTwice(p.queue.incoming, m, UP_TO_DATE);
    NotedTwice(p.queue.incoming, m, STATUS_OK);
  }

  lemma NotedTwice(incoming: MessageMap, m: Request, status: Status)
    ensures incoming[m.messageId := Message(m, None)][m.messageId := Message(m, Some(status))]
      == incoming[m.messageId := Message(m, Some(status))]
  {
  }

  /** A SEND_FILE for a path that was asked for settles the RECEIVE_FILE, with OK, whatever
      becomes of the file; one that was not asked for settles nothing. */
  lemma FileSettles(p: Peer, m: Request)
    requires m.data.SendFile?
    ensures var outgoing, outgoing' := p.queue.outgoing, AuthorizeRequest(p, m).peer.queue.outgoing;
      if !AskedFor(outgoing, m.data.filepath) then outgoing' == outgoing
      else
        exists x: MessageId :: AsksFor(outgoing, x, m.data.filepath)
          && outgoing' == outgoing[x := outgoing[x].(status := Some(STATUS_OK))]
  {
    hide FindReceiveFile, RespondToRequest, Replied;
    var outgoing := p.queue.outgoing;
    FindsIff(outgoing, m.data.filepath, 0);
    match FindReceiveFile(outgoing, m.data.filepath, 0)
    case Some(x) =>
      RepliedIs(p.queue, x, STATUS_OK);
      DownloadKeepsOutgoing(p.(queue := Replied(p.queue, x, STATUS_OK).value), m, STATUS_OK);
      assert AsksFor(outgoing, x, m.data.filepath);
    case None => DownloadKeepsOutgoing(p, m, APPROVAL_PENDING);
  }

  lemma DownloadKeepsOutgoing(p: Peer, m: Request, status: Status)
    requires m.data.SendFile?
    ensures RespondToRequest(p, m, status).peer.queue.outgoing == p.queue.outgoing
  {
    hide ReceiveDataPacket, AnswerReceiveFile, AnswerListFiles, ReceiveFileList;
  }

  // ----- packets ---------------------------------------------------------------------------

  /** A DATA_PACKET for no download is refused. For one: what it does to the file is done; a file
      that is whole is put in its place, once, and its download is forgotten unless it is kept;
      and the packet is acknowledged unless something was thrown. */
  lemma PacketTaken(p: Peer, m: Request)
    requires m.data.DataPacket?
    requires m.data.requestId in p.downloads ==> p.downloads[m.data.requestId].download.request.SendFile?
    ensures var out, id := AuthorizeRequest(p, m), m.data.requestId;
      if id !in p.downloads then out == Out(Answering(p, m, INVALID_REQUEST_ID), None)
      else
        var before := p.downloads[id];
        var (after, error) := ReceivePacket(before.download, p.env.hash, m.data.packetId, m.data.data);
        var whole := before.download.open && !after.open && error.None?;
        var blocked := whole && p.env.destination(before.download.request) == Occupied;
        && out.error == (if blocked then Some(HostError) else error)
        && out.peer.wire == p.wire + (if out.error.Some? then [] else [Request(m.messageId, Response(STATUS_OK))])
        && out.peer.saved == p.saved
           + (if whole && !blocked then [(before.download.request.filepath, after.file)] else [])
        && out.peer.downloads.Keys
           == (if out.error.None? && !after.open && !before.keep then p.downloads.Keys - {id} else p.downloads.Keys)
        && (id in out.peer.downloads ==> out.peer.downloads[id] == before.(download := after))
        && (forall x :: x in out.peer.downloads && x != id ==> out.peer.downloads[x] == p.downloads[x])
  {
    hide ReceivePacket;
    NotedTwice(p.queue.incoming, m, INVALID_REQUEST_ID);
    if m.data.requestId in p.downloads {
      SameRequest(p.downloads[m.data.requestId].download, p.env.hash, m.data.packetId, m.data.data);
    }
  }

  /** A FILE_LIST for no listing is refused; one for a listing goes to it and is acknowledged. */
  lemma ListTaken(p: Peer, m: Request)
    requires m.data.FileList?
    ensures var out, id := AuthorizeRequest(p, m), m.data.requestId;
      if id !in p.listings then out == Out(Answering(p, m, INVALID_REQUEST_ID), None)
      else
        out == Out(Answering(p, m, STATUS_OK).(
                     listings := p.listings[id := ReceiveList(p.listings[id], m.data.packetId, m.data.files)]), None)
  {
    hide ReceiveList;
    NotedTwice(p.queue.incoming, m, INVALID_REQUEST_ID);
    NotedTwice(p.queue.incoming, m, STATUS_OK);
  }

  /** A listing that may not be done is refused. */
  lemma ListingRefused(p: Peer, m: Request)
    requires m.data.ListFiles? && !MayList(p.env, m.data.folderpath)
    ensures AuthorizeRequest(p, m) == Out(Answering(p, m, FILE_NOT_FOUND), None)
  {
    hide MayList;
    NotedTwice(p.queue.incoming, m, FILE_NOT_FOUND);
  }

  // ----- replies -----------------------------------------------------------------------------

  /** These data packets of the upload were written, and nothing else. */
  ghost predicate Sends(p: Peer, q: Peer, id: MessageId, k: nat)
    requires id in p.uploads && Typed(p.uploads[id]) && p.uploads[id].request.packetSize > 0
    requires k <= |Pending(p.uploads[id])|
  {
    var u := p.uploads[id];
    && |q.wire| == |p.wire| + k && q.wire[..|p.wire|] == p.wire
    && (forall i :: 0 <= i < k ==> q.wire[|p.wire| + i].data == DataPacket(id, u.packetId + i, Pending(u)[i]))
    && q.queue.slots == p.queue.slots - k
    && id in q.uploads && q.uploads == p.uploads[id := q.uploads[id]]
    && q.uploads[id].request == u.request && q.uploads[id].packetId == u.packetId + k
    && Pending(q.uploads[id]) == Pending(u)[k..]
    && q == p.(queue := q.queue, wire := q.wire, uploads := q.uploads)
  }

  lemma SendsOne(p: Peer, id: MessageId)
    requires id in p.uploads && Typed(p.uploads[id]) && p.uploads[id].request.packetSize > 0
    requires Conserved(p.queue) && p.queue.slots > 0 && p.uploads[id].open
    ensures |Pending(p.uploads[id])| > 0
    ensures var out := SendPacket(p, id); out.error.None? && Conserved(out.peer.queue) && Sends(p, out.peer, id, 1)
  {
    hide NextPacket, Pending, Send, OpenIds, FirstFree, FirstOnRing;
    var u := p.uploads[id];
    NextTakesHead(u, id);
    var (u', packet) := NextPacket(u, id);
    FreeSlotMeansFreeId(p.queue, packet.value);
    SendTakes(p.queue, packet.value);
  }

  lemma OpenIsPending(u: Upload)
    requires u.request.SendFile? && u.request.packetSize > 0
    ensures u.open <==> Pending(u) != []
  {
  }

  lemma SendsMore(p: Peer, q: Peer, r: Peer, id: MessageId, k: nat)
    requires id in p.uploads && Typed(p.uploads[id]) && p.uploads[id].request.packetSize > 0
    requires 0 < |Pending(p.uploads[id])| && Sends(p, q, id, 1)
    requires k <= |Pending(q.uploads[id])| && Sends(q, r, id, k)
    ensures Sends(p, r, id, k + 1)
  {
    hide Pending;
    var u, v := p.uploads[id], q.uploads[id];
    assert Pending(v) == Pending(u)[1..];
    assert Pending(u)[1..][k..] == Pending(u)[k + 1..];
    forall i | 0 <= i < k + 1 ensures r.wire[|p.wire| + i].data == DataPacket(id, u.packetId + i, Pending(u)[i]) {
      if i == 0 {
        assert r.wire[|p.wire|] == r.wire[..|q.wire|][|p.wire|];
      } else {
        assert r.wire[|q.wire| + (i - 1)].data == DataPacket(id, v.packetId + (i - 1), Pending(v)[i - 1]);
      }
    }
    assert r.wire[..|p.wire|] == r.wire[..|q.wire|][..|p.wire|];
    assert r.uploads == p.uploads[id := r.uploads[id]];
  }

  function Least(a: nat, b: nat, c: nat): nat {
    var ab := if a < b then a else b;
    if ab < c then ab else c
  }

  lemma {:induction false} BurstSends(p: Peer, id: MessageId, n: nat)
    requires id in p.uploads && Typed(p.uploads[id]) && p.uploads[id].request.packetSize > 0
    requires Conserved(p.queue)
    ensures var out, k := Burst(p, id, n), Least(n, p.queue.slots, |Pending(p.uploads[id])|);
      out.error.None? && Sends(p, out.peer, id, k)
    decreases n
  {
    hide SendPacket, Pending, Conserved, Sends;
    var u := p.uploads[id];
    OpenIsPending(u);
    if n == 0 || !u.open || p.queue.slots == 0 {
      SendsNone(p, id);
    } else {
      SendsOne(p, id);
      var q := SendPacket(p, id).peer;
      OneLess(p, q, id);
      BurstSends(q, id, n - 1);
      SendsMore(p, q, Burst(q, id, n - 1).peer, id, Least(n - 1, q.queue.slots, |Pending(q.uploads[id])|));
    }
  }

  lemma SendsNone(p: Peer, id: MessageId)
    requires id in p.uploads && Typed(p.uploads[id]) && p.uploads[id].request.packetSize > 0
    ensures Sends(p, p, id, 0)
  {
    hide Pending;
    assert p.uploads == p.uploads[id := p.uploads[id]];
  }

  lemma OneLess(p: Peer, q: Peer, id: MessageId)
    requires id in p.uploads && Typed(p.uploads[id]) && p.uploads[id].request.packetSize > 0
    requires |Pending(p.uploads[id])| > 0 && Sends(p, q, id, 1)
    ensures id in q.uploads && q.uploads[id].request == p.uploads[id].request
    ensures q.queue.slots == p.queue.slots - 1 && |Pending(q.uploads[id])| == |Pending(p.uploads[id])| - 1
  {
  }

  /** After its status was noted. */
  function NotedPeer(p: Peer, x: MessageId, status: Status): Peer
    requires x in p.queue.outgoing
  {
    p.(queue := Replied(p.queue, x, status).value)
  }

  /** A reply to nothing is ignored; one that is not OK, or is OK to a RECEIVE_FILE, is noted
      and no more. */
  lemma PlainReply(p: Peer, x: MessageId, status: Status)
    ensures var out := AuthorizeRequest(p, Request(x, Response(status)));
      && (x !in p.queue.outgoing ==> out == Out(p, None))
      && (x in p.queue.outgoing && status != STATUS_OK ==> out == Out(NotedPeer(p, x, status), None))
      && (x in p.queue.outgoing && status == STATUS_OK && p.queue.outgoing[x].request.data.ReceiveFile? ==>
            out == Out(NotedPeer(p, x, APPROVAL_PENDING), None))
  {
    hide Burst, SendPacket, SendList, Replied;
  }

  /** OK to a SEND_FILE sends its first packets: five, or as many as there are slots or packets
      left. */
  lemma AcceptedFile(p: Peer, x: MessageId)
    requires x in p.queue.outgoing && p.queue.outgoing[x].request.data.SendFile?
    requires x in p.uploads && Typed(p.uploads[x]) && p.uploads[x].request.packetSize > 0
    requires Conserved(NotedPeer(p, x, STATUS_OK).queue)
    ensures var out, q := AuthorizeRequest(p, Request(x, Response(STATUS_OK))), NotedPeer(p, x, STATUS_OK);
      && out.error.None?
      && Sends(q, out.peer, x, Least(5, q.queue.slots, |Pending(p.uploads[x])|))
  {
    hide Burst, Replied, Pending, Sends, Conserved;
    BurstSends(NotedPeer(p, x, STATUS_OK), x, 5);
  }

  /** OK to a SEND_FILE whose upload is gone throws. */
  lemma AcceptedUnknown(p: Peer, x: MessageId)
    requires x in p.queue.outgoing && p.queue.outgoing[x].request.data.SendFile? && x !in p.uploads
    ensures AuthorizeRequest(p, Request(x, Response(STATUS_OK))) ==
      Out(NotedPeer(p, x, STATUS_OK), Some(UnknownTransfer))
  {
    hide Replied;
  }

  /** OK to a packet sends the next one of its upload, if it is still open, and forgets the
      upload if not. */
  lemma AcceptedPacket(p: Peer, x: MessageId)
    requires x in p.queue.outgoing && p.queue.outgoing[x].request.data.DataPacket?
    requires var u := p.queue.outgoing[x].request.data.requestId;
      u in p.uploads ==> Typed(p.uploads[u]) && p.uploads[u].request.packetSize > 0
    requires var q := NotedPeer(p, x, STATUS_OK).queue; Conserved(q) && q.slots > 0
    ensures var out, q := AuthorizeRequest(p, Request(x, Response(STATUS_OK))), NotedPeer(p, x, STATUS_OK);
      var u := p.queue.outgoing[x].request.data.requestId;
      && out.error.None?
      && if u !in p.uploads then out.peer == q
         else if Pending(p.uploads[u]) == [] then out.peer == q.(uploads := p.uploads - {u})
         else Sends(q, out.peer, u, 1)
  {
    hide SendPacket, Replied, Pending, Sends, Conserved;
    var q, u := NotedPeer(p, x, STATUS_OK), p.queue.outgoing[x].request.data.requestId;
    if u in p.uploads {
      OpenIsPending(p.uploads[u]);
      if p.uploads[u].open { SendsOne(q, u); }
    }
  }

  /** OK to a LIST_FILES makes room for the list, once. */
  lemma AcceptedListing(p: Peer, x: MessageId)
    requires x in p.queue.outgoing && p.queue.outgoing[x].request.data.ListFiles?
    ensures AuthorizeRequest(p, Request(x, Response(STATUS_OK))) ==
      Out(NotedPeer(p, x, STATUS_OK).(
            listings := if x in p.listings then p.listings else p.listings[x := Listing([], 0, [], false)]), None)
  {
    hide Replied;
  }

  /** OK to a FILE_LIST sends the next 255 entries; behind the last ones an empty list; and
      behind that nothing, but the upload under the reply's id is forgotten. */
  lemma AcceptedList(p: Peer, x: MessageId)
    requires x in p.queue.outgoing && p.queue.outgoing[x].request.data.FileList?
    requires var l := p.queue.outgoing[x].request.data.requestId; l in p.listers && ValidLister(p.listers[l])
    requires var q := NotedPeer(p, x, STATUS_OK).queue; Conserved(q) && q.slots > 0
    ensures var out, q := AuthorizeRequest(p, Request(x, Response(STATUS_OK))), NotedPeer(p, x, STATUS_OK);
      var id := p.queue.outgoing[x].request.data.requestId;
      var l := p.listers[id];
      var end := if l.pos + 255 < |l.entries| then l.pos + 255 else |l.entries|;
      && out.error.None?
      && if l.extraSent then out.peer == q.(uploads := p.uploads - {x})
         else
           && |out.peer.wire| == |p.wire| + 1 && out.peer.wire[..|p.wire|] == p.wire
           && out.peer.wire[|p.wire|].data == FileList(id, l.currentId, l.entries[l.pos..end])
           && out.peer.listers == p.listers[id := Lister(l.entries, end, l.currentId + 1, end == l.pos)]
           && out.peer.uploads == p.uploads
  {
    hide Replied, Conserved, Send, FirstFree;
    var q, id := NotedPeer(p, x, STATUS_OK), p.queue.outgoing[x].request.data.requestId;
    if !p.listers[id].extraSent {
      FreeSlotMeansFreeId(q.queue, NextList(p.listers[id], id).1.value);
    }
  }
}
