/** What a connected peer does with each message: the protocol step functions,
    over the queue, the transfers under way and what was written to the socket. */
module Peer {
  import opened Bytes
  import opened Requests
  import opened Transfers
  import opened MessageQueue
  import opened Paths
  import opened FileMapping
  import opened ForbiddenPaths
  import C = Codec

  /** What is at a path of the host. */
  datatype OnDisk =
    | Missing
    | Unreadable // something that cannot be opened
    | HostBytes(content: bytes)
    | Directory(names: seq<(bytes, bool)>) // and which of the names are folders

  /** What becomes of a file that is pushed here. */
  datatype Destination =
    | Openable
    | Downloaded // it is there already, or on its way
    | Blocked    // what is there cannot be read, or its folder cannot be made
    | Occupied   // a folder is in its place: the file cannot be put there once it is whole

  /** What the peer is configured with and finds on its host. */
  datatype Env = Env(
    root: Node,
    forbidden: set<bytes>,
    disk: bytes -> OnDisk,
    modified: bytes -> nat,
    destination: Data -> Destination,
    hash: Hash)

  datatype Incoming = Incoming(download: Download, keep: bool)

  datatype Peer = Peer(
    env: Env,
    queue: Queue,
    uploads: map<MessageId, Upload>,
    downloads: map<MessageId, Incoming>,
    listers: map<MessageId, Lister>,
    listings: map<MessageId, Listing>,
    buffer: seq<Request>, // waiting for manual approval
    wire: seq<Request>, // everything written, oldest first
    saved: seq<(bytes, bytes)>) // files renamed into place, with their content

  /** A step's outcome: the new state, and the exception that cut it short. */
  datatype Out = Out(peer: Peer, error: Option<Error>)

  function SendReply(p: Peer, id: MessageId, status: Status): Out {
    match Answered(p.queue, id, status)
    case Failure(e) => Out(p, Some(e))
    case Success(q) => Out(p.(queue := q, wire := p.wire + [Request(id, Response(status))]), None)
  }

  datatype SendOut = SendOut(peer: Peer, id: MessageId, error: Option<Error>)

  function SendRequest(p: Peer, data: Data): SendOut {
    match Send(p.queue, data)
    case NoSlots => SendOut(p, 0, Some(NoMoreSlots))
    case Endless => SendOut(p, 0, Some(Error.Endless))
    case Sent(q, id) => SendOut(p.(queue := q, wire := p.wire + [Request(id, data)]), id, None)
  }

  function Just(s: SendOut): Out { Out(s.peer, s.error) }

  /** A request of the user's own choice. One that cannot be printed has its id and slot all
      the same, and never leaves. */
  function AskFor(p: Peer, data: Data): SendOut {
    var sent := SendRequest(p, data);
    match C.Print(Request(sent.id, data))
    case Success(_) => sent
    case Failure(e) => if sent.error.Some? then sent else SendOut(p.(queue := sent.peer.queue), sent.id, Some(e))
  }

  // ----- uploads -------------------------------------------------------------

  predicate Typed(u: Upload) { u.request.SendFile? }

  /** Nothing there, or nothing to be seen. */
  predicate NotFound(env: Env, host: Path) {
    env.disk(Render(host)).Missing? || host == [] || IsForbidden(env.forbidden, Render(host))
  }

  /** What preparing an upload throws: a folder has no size, an unreadable file no hash, and
      packets of no bytes divide by zero. */
  function UploadError(env: Env, host: Path, size: nat): Option<Error> {
    if NotFound(env, host) then None
    else if !env.disk(Render(host)).HostBytes? then Some(HostError)
    else if size == 0 then Some(Crash)
    else None
  }

  /** A handler ready to send a host file, or why not. */
  function PrepareUpload(env: Env, host: Path, virtualPath: bytes, size: nat, start: nat):
      (r: (Option<Upload>, Status))
    requires UploadError(env, host, size).None?
    ensures r.0.Some? <==> r.1 == STATUS_OK
    ensures r.0.Some? ==> Typed(r.0.value)
  {
    var path := Render(host);
    if NotFound(env, host) then (None, FILE_NOT_FOUND)
    else
      var content := env.disk(path).content;
      var total := TotalPackets(|content|, size);
      if start > total then (None, BAD_REQUEST)
      else
        var request := SendFile(virtualPath, SHA512, env.hash(SHA512, content), env.modified(path), size, total - start);
        (Some(OpenUpload(request, content, start)), STATUS_OK)
  }

  function CreateUpload(p: Peer, u: Upload): Out {
    var sent := SendRequest(p, u.request);
    if sent.error.Some? then Just(sent)
    else
      var q := sent.peer;
      Out(if sent.id in q.uploads then q else q.(uploads := q.uploads[sent.id := u]), None)
  }

  /** The path a pushed file is announced under. */
  function PushedPath(env: Env, host: Path): bytes
    requires host != []
  {
    var virtualPath := HostToVirtual(env.root, host);
    if virtualPath == [] then host[|host| - 1] else virtualPath
  }

  /** `create_host_upload`: a failure to prepare is an exception. */
  function CreateHostUpload(p: Peer, host: Path): Out
    requires host != []
  {
    if UploadError(p.env, host, 4096).Some? then Out(p, UploadError(p.env, host, 4096))
    else
      match PrepareUpload(p.env, host, PushedPath(p.env, host), 4096, 0).0
      case Some(u) => CreateUpload(p, u)
      case None => Out(p, Some(OutOfRange))
  }

  // ----- answering requests --------------------------------------------------

  function CreateDownload(p: Peer, id: MessageId, data: Data): Out
    requires data.SendFile?
  {
    match p.env.destination(data)
    case Blocked => Out(p, Some(HostError))
    case Downloaded => SendReply(p, id, UP_TO_DATE)
    case _ =>
      var q := if id in p.downloads then p
               else p.(downloads := p.downloads[id := Incoming(OpenDownload(data), false)]);
      SendReply(q, id, STATUS_OK)
  }

  function ReceiveDataPacket(p: Peer, request: Request): Out
    requires request.data.DataPacket?
  {
    var DataPacket(id, packetId, data) := request.data;
    if id !in p.downloads || !p.downloads[id].download.request.SendFile? then
      SendReply(p, request.messageId, INVALID_REQUEST_ID)
    else
      var Incoming(d, keep) := p.downloads[id];
      var (d', error) := ReceivePacket(d, p.env.hash, packetId, data);
      var done := d.open && !d'.open && error.None?;
      var p' := p.(downloads := p.downloads[id := Incoming(d', keep)],
                   saved := if done then p.saved + [(d'.request.filepath, d'.file)] else p.saved);
      if error.Some? then Out(p', error)
      else if done && p.env.destination(d'.request) == Occupied then Out(p'.(saved := p.saved), Some(HostError))
      else
        SendReply(if !d'.open && !keep then p'.(downloads := p'.downloads - {id}) else p',
                  request.messageId, STATUS_OK)
  }

  function AnswerReceiveFile(p: Peer, request: Request): Out
    requires request.data.ReceiveFile?
  {
    var ReceiveFile(path, size, start) := request.data;
    var host := VirtualToHost(p.env.root, path);
    if UploadError(p.env, host, size).Some? then Out(p, UploadError(p.env, host, size))
    else
      var (handler, status) := PrepareUpload(p.env, host, path, size, start);
      var replied := SendReply(p, request.messageId, status);
      if replied.error.Some? || handler.None? then replied
      else CreateUpload(replied.peer, handler.value)
  }

  /** The path to list: the root when none is given. */
  function RequestedPath(env: Env, path: bytes): bytes { if path == [] then env.root.name else path }

  /** `folder / name` as a string. */
  function Inside(folder: bytes, name: bytes): bytes {
    if folder != [] && folder[|folder| - 1] == SLASH then folder + name else folder + [SLASH] + name
  }

  function FolderEntries(folder: bytes, names: seq<(bytes, bool)>): seq<FileInfo> {
    if names == [] then []
    else [FileInfo(Inside(folder, names[0].0), if names[0].1 then DIRECTORY else FILE)]
         + FolderEntries(folder, names[1..])
  }

  function ChildEntries(folder: bytes, children: seq<Node>): seq<FileInfo> {
    if children == [] then []
    else [FileInfo(Inside(folder, children[0].name), if children[0].kind == HostFile then FILE else DIRECTORY)]
         + ChildEntries(folder, children[1..])
  }

  /** A listing that opens a host folder which is none: that throws. */
  predicate NoDirectory(env: Env, folder: bytes) {
    var path := RequestedPath(env, folder);
    var host := VirtualToHost(env.root, path);
    && FindVirtual(env.root, path).Some?
    && NodeAt(env.root, FindVirtual(env.root, path).value.0).kind == HostFolder
    && host != [] && !env.disk(Render(host)).Directory?
  }

  /** What a listing of a virtual path contains. */
  function Entries(env: Env, folder: bytes): seq<FileInfo> {
    var path := RequestedPath(env, folder);
    match FindVirtual(env.root, path)
    case None => []
    case Some((a, _)) =>
      var n := NodeAt(env.root, a);
      match n.kind
      case HostFolder =>
        (match env.disk(Render(VirtualToHost(env.root, path)))
         case Directory(names) => FolderEntries(path, names)
         case _ => [])
      case HostFile => if env.disk(Render(n.hostPath)).Directory? then [] else [FileInfo(path, FILE)]
      case Virtual => ChildEntries(path, n.children)
  }

  predicate ValidLister(l: Lister) { l.pos <= |l.entries| }

  /** Without a packet a null one is sent: it takes a slot before it is looked at. */
  function SendList(p: Peer, id: MessageId): Out
    requires id in p.listers
  {
    if !ValidLister(p.listers[id]) then Out(p, Some(Crash))
    else
      var (l, packet) := NextList(p.listers[id], id);
      var q := p.(listers := p.listers[id := l]);
      if packet.None? then Out(q, Some(if q.queue.slots == 0 then NoMoreSlots else Crash))
      else Just(SendRequest(q, packet.value))
  }

  function AnswerListFiles(p: Peer, request: Request): Out
    requires request.data.ListFiles?
  {
    var id := request.messageId;
    if NoDirectory(p.env, request.data.folderpath) then Out(p, Some(HostError))
    else
      var q := if id in p.listers then p
               else p.(listers := p.listers[id := OpenLister(Entries(p.env, request.data.folderpath))]);
      var replied := SendReply(q, id, STATUS_OK);
      if replied.error.Some? then replied else SendList(replied.peer, id)
  }

  function ReceiveFileList(p: Peer, request: Request): Out
    requires request.data.FileList?
  {
    var FileList(id, packetId, files) := request.data;
    if id !in p.listings then SendReply(p, request.messageId, INVALID_REQUEST_ID)
    else
      SendReply(p.(listings := p.listings[id := ReceiveList(p.listings[id], packetId, files)]),
                request.messageId, STATUS_OK)
  }

  function RespondToRequest(p: Peer, request: Request, status: Status): Out {
    var q := p.(queue := Requested(p.queue, request));
    if status != STATUS_OK then SendReply(q, request.messageId, status)
    else
      match request.data
      case DataPacket(_, _, _) => ReceiveDataPacket(q, request)
      case SendFile(_, _, _, _, _, _) => CreateDownload(q, request.messageId, request.data)
      case ReceiveFile(_, _, _) => AnswerReceiveFile(q, request)
      case ListFiles(_) => AnswerListFiles(q, request)
      case FileList(_, _, _) => ReceiveFileList(q, request)
      case _ => SendReply(q, request.messageId, STATUS_OK)
  }

  // ----- handling replies ----------------------------------------------------

  /** After SEND_FILE was accepted: up to `n` packets while slots last. */
  function Burst(p: Peer, id: MessageId, n: nat): Out
    requires id in p.uploads
    decreases n
  {
    if n == 0 || !p.uploads[id].open || p.queue.slots == 0 then Out(p, None)
    else
      var sent := SendPacket(p, id);
      if sent.error.Some? then sent else Burst(sent.peer, id, n - 1)
  }

  /** One packet of an upload still open. */
  function SendPacket(p: Peer, id: MessageId): (out: Out)
    requires id in p.uploads
    ensures id in out.peer.uploads
  {
    if !Typed(p.uploads[id]) then Out(p, Some(Crash))
    else
      var (u, packet) := NextPacket(p.uploads[id], id);
      var q := p.(uploads := p.uploads[id := u]);
      if packet.None? then Out(q, Some(Crash)) else Just(SendRequest(q, packet.value))
  }

  function NextOnReply(p: Peer, id: MessageId): Out
    requires id in p.uploads
  {
    if p.uploads[id].open then SendPacket(p, id) else Out(p.(uploads := p.uploads - {id}), None)
  }

  /** A finished lister answers with nothing, and the upload that happens to have
      the reply's id is erased in its place. */
  function NextListOnReply(p: Peer, lister: MessageId, id: MessageId): Out
    requires lister in p.listers
  {
    if p.listers[lister].extraSent then Out(p.(uploads := p.uploads - {id}), None)
    else SendList(p, lister)
  }

  function ReceiveReply(p: Peer, id: MessageId, status: Status): Out
    requires id in p.queue.outgoing
  {
    var source := p.queue.outgoing[id].request.data;
    // An accepted RECEIVE_FILE keeps waiting for its SEND_FILE.
    var noted := if status == STATUS_OK && source.ReceiveFile? then APPROVAL_PENDING else status;
    var q := p.(queue := Replied(p.queue, id, noted).value);
    if noted != STATUS_OK then Out(q, None)
    else
      match source
      case DataPacket(upload, _, _) => if upload in q.uploads then NextOnReply(q, upload) else Out(q, None)
      case SendFile(_, _, _, _, _, _) =>
        if id in q.uploads then Burst(q, id, 5) else Out(q, Some(UnknownTransfer))
      case ListFiles(_) =>
        Out(if id in q.listings then q else q.(listings := q.listings[id := NEW_LISTING]), None)
      case FileList(lister, _, _) =>
        if lister in q.listers then NextListOnReply(q, lister, id) else Out(q, None)
      case _ => Out(q, None)
  }

  // ----- receiving anything --------------------------------------------------

  predicate IsReceiveFile(m: Message, path: bytes) {
    m.request.data.ReceiveFile? && m.request.data.filepath == path
  }

  /** Some outgoing RECEIVE_FILE for this path, from id `from` on. */
  function FindReceiveFile(out: MessageMap, path: bytes, from: nat): (r: Option<MessageId>)
    ensures r.Some? ==> r.value in out && IsReceiveFile(out[r.value], path)
    decreases 256 - from
  {
    if from >= 256 then None
    else if from in out && IsReceiveFile(out[from], path) then Some(from)
    else FindReceiveFile(out, path, from + 1)
  }

  function AskUser(p: Peer, request: Request): Out {
    var out := RespondToRequest(p, request, APPROVAL_PENDING);
    if out.error.Some? then out else Out(out.peer.(buffer := out.peer.buffer + [request]), None)
  }

  function MayList(env: Env, folder: bytes): bool {
    match FindVirtual(env.root, folder)
    case None => false
    case Some((a, _)) =>
      var n := NodeAt(env.root, a);
      n.kind == Virtual || !IsForbidden(env.forbidden, Render(n.hostPath))
  }

  function AuthorizeRequest(p: Peer, request: Request): Out {
    match request.data
    case Response(status) =>
      if request.messageId in p.queue.outgoing then ReceiveReply(p, request.messageId, status) else Out(p, None)
    case DataPacket(id, _, _) =>
      RespondToRequest(p, request, if id in p.downloads then STATUS_OK else INVALID_REQUEST_ID)
    case SendFile(path, _, _, _, _, _) =>
      (match FindReceiveFile(p.queue.outgoing, path, 0)
       case Some(id) =>
         RespondToRequest(p.(queue := Replied(p.queue, id, STATUS_OK).value), request, STATUS_OK)
       case None => AskUser(p, request))
    case ReceiveFile(_, _, _) => RespondToRequest(p, request, STATUS_OK)
    case ListFiles(folder) =>
      RespondToRequest(p, request, if MayList(p.env, folder) then STATUS_OK else FILE_NOT_FOUND)
    case FileList(id, _, _) =>
      RespondToRequest(p, request, if id in p.listings then STATUS_OK else INVALID_REQUEST_ID)
    case _ => AskUser(p, request)
  }

  // ----- who is answered how ---------------------------------------------------

  /** Some outgoing RECEIVE_FILE, answered or not, is for this path. */
  ghost predicate AskedFor(out: MessageMap, path: bytes) {
    exists id: MessageId :: AsksFor(out, id, path)
  }

  predicate AsksFor(out: MessageMap, id: MessageId, path: bytes) {
    id in out && out[id].request.data.ReceiveFile? && out[id].request.data.filepath == path
  }

  lemma {:induction false} FindsIff(out: MessageMap, path: bytes, from: nat)
    ensures FindReceiveFile(out, path, from).Some?
      <==> exists id: MessageId :: id >= from && AsksFor(out, id, path)
    decreases 256 - from
  {
    if from < 256 {
      FindsIff(out, path, from + 1);
      assert AsksFor(out, from, path) <==> from in out && IsReceiveFile(out[from], path);
    }
  }

  /** A pushed file is accepted without asking exactly when a RECEIVE_FILE for its path
      is among the outgoing requests, even one settled long ago, and what is at its
      destination can be read; otherwise the user is asked and nothing is downloaded. */
  lemma AcceptedUnaskedIff(p: Peer, request: Request)
    requires request.data.SendFile?
    ensures var out := AuthorizeRequest(p, request);
      if !AskedFor(p.queue.outgoing, request.data.filepath) then
        && out.error.None?
        && out.peer.wire == p.wire + [Request(request.messageId, Response(APPROVAL_PENDING))]
        && out.peer.buffer == p.buffer + [request]
        && out.peer.downloads == p.downloads && out.peer.queue.outgoing == p.queue.outgoing
      else if p.env.destination(request.data) == Blocked then
        && out.error == Some(HostError)
        && out.peer.wire == p.wire && out.peer.buffer == p.buffer && out.peer.downloads == p.downloads
      else
        var answer := if p.env.destination(request.data) == Downloaded then UP_TO_DATE else STATUS_OK;
        && out.error.None?
        && out.peer.wire == p.wire + [Request(request.messageId, Response(answer))]
        && out.peer.buffer == p.buffer
        && (answer == STATUS_OK ==> request.messageId in out.peer.downloads)
  {
    hide FindReceiveFile, ReceiveReply, ReceiveDataPacket, AnswerReceiveFile, AnswerListFiles, ReceiveFileList, Replied;
    FindsIff(p.queue.outgoing, request.data.filepath, 0);
    match FindReceiveFile(p.queue.outgoing, request.data.filepath, 0)
    case Some(id) =>
      RepliedIs(p.queue, id, STATUS_OK);
      assert AsksFor(p.queue.outgoing, id, request.data.filepath);
    case None =>
  }

  lemma RepliedIs(q: Queue, id: MessageId, status: Status)
    requires id in q.outgoing
    ensures Replied(q, id, status).Success?
    ensures Replied(q, id, status).value.outgoing == q.outgoing[id := q.outgoing[id].(status := Some(status))]
  {
  }

  /** Which RECEIVE_FILE is served, what the others are told, and which throw. */
  function ServeStatus(env: Env, data: Data): Result<Status>
    requires data.ReceiveFile?
  {
    var host := VirtualToHost(env.root, data.filepath);
    match (if NotFound(env, host) then Missing else env.disk(Render(host)))
    case Missing => Success(FILE_NOT_FOUND)
    case HostBytes(content) =>
      if data.packetSize == 0 then Failure(Crash)
      else if data.packetStart > TotalPackets(|content|, data.packetSize) then Success(BAD_REQUEST)
      else Success(STATUS_OK)
    case _ => Failure(HostError)
  }

  /** Every answer to a RECEIVE_FILE: an exception and no answer, for what cannot be read or
      cut into packets; a refusal alone; OK and then the SEND_FILE; or OK and then, for want
      of a slot or of an id, an exception or no return. */
  lemma ServedIff(p: Peer, request: Request)
    requires request.data.ReceiveFile?
    ensures var out, status := AuthorizeRequest(p, request), ServeStatus(p.env, request.data);
      if status.Failure? then
        out.error == Some(status.error) && out.peer == p.(queue := Requested(p.queue, request))
      else if status.value != STATUS_OK then
        && out.error.None? && out.peer.uploads == p.uploads
        && out.peer.wire == p.wire + [Request(request.messageId, Response(status.value))]
      else if p.queue.slots == 0 || NoIdLeft(p.queue) then
        && out.error == Some(if p.queue.slots == 0 then NoMoreSlots else Error.Endless)
        && out.peer.uploads == p.uploads
        && out.peer.wire == p.wire + [Request(request.messageId, Response(STATUS_OK))]
      else
        && out.error.None? && |out.peer.wire| == |p.wire| + 2
        && out.peer.wire[..|p.wire| + 1] == p.wire + [Request(request.messageId, Response(STATUS_OK))]
        && var host := VirtualToHost(p.env.root, request.data.filepath);
           var sent, content := out.peer.wire[|p.wire| + 1], p.env.disk(Render(host)).content;
           && AnnouncesFile(sent.data, p.env, host, request.data.filepath, request.data.packetSize, request.data.packetStart)
           && sent.messageId in out.peer.uploads
           && (sent.messageId !in p.uploads ==>
                 out.peer.uploads[sent.messageId]
                   == Upload(sent.data, content, request.data.packetSize * request.data.packetStart, true, 0, 0))
  {
    hide VirtualToHost, IsForbidden, Render, FirstFree, OpenIds, Send, FirstOnRing, NoIdLeft;
    var data := request.data;
    var host := VirtualToHost(p.env.root, data.filepath);
    if UploadError(p.env, host, data.packetSize).None? {
      var prepared := PrepareUpload(p.env, host, data.filepath, data.packetSize, data.packetStart);
      var replied := SendReply(p.(queue := Requested(p.queue, request)), request.messageId, prepared.1).peer;
      if prepared.0.Some? {
        SendOrNone(replied.queue, prepared.0.value.request);
        assert NoIdLeft(replied.queue) == NoIdLeft(p.queue) by { SameIds(p.queue, replied.queue); }
      }
    }
  }

  /** The SEND_FILE that announces a host file from some packet on: its path as given, its
      digest by SHA-512, its date, the packet size and as many packets as are left, the last
      one perhaps not full. */
  ghost predicate AnnouncesFile(d: Data, env: Env, host: Path, path: bytes, size: nat, start: nat) {
    var found := env.disk(Render(host));
    && found.HostBytes? && size > 0 && d.SendFile?
    && d.filepath == path && d.algorithm == SHA512 && d.filehash == env.hash(SHA512, found.content)
    && d.lastUpdated == env.modified(Render(host)) && d.packetSize == size
    && d.totalPackets + start == |found.content| / size + if |found.content| % size == 0 then 0 else 1
  }

  /** Every id is held by a request that waits: the scan for one has no end. */
  ghost predicate NoIdLeft(q: Queue) { forall id: MessageId :: Taken(q.outgoing, id) }

  lemma SameIds(q: Queue, q': Queue)
    requires q.outgoing == q'.outgoing
    ensures NoIdLeft(q) == NoIdLeft(q')
  {
  }

  /** The slots and ids of any queue decide what becomes of a send. */
  lemma SendOrNone(q: Queue, data: Data)
    ensures if q.slots == 0 then Send(q, data) == NoSlots
            else if NoIdLeft(q) then Send(q, data) == Sending.Endless
            else Send(q, data).Sent?
    ensures Conserved(q) && q.slots > 0 ==> !NoIdLeft(q)
  {
    hide FirstOnRing;
    RingScan(q.outgoing, q.next);
    if q.slots > 0 && NoIdLeft(q) { NoneOnRing(q.outgoing, q.next); }
    OpenIdsBound(q.outgoing);
  }

  lemma NoneOnRing(out: MessageMap, start: MessageId)
    requires forall id: MessageId :: Taken(out, id)
    ensures forall id :: !FirstOnRing(out, start, id)
  {
  }

  // ----- what an answered RECEIVE_FILE can read --------------------------------

  /** Whatever path RECEIVE_FILE asks for: an upload is only ever opened on the
      content of a host path that extends, as a list of components, the path of a
      visible host node and has no forbidden folder in front. */
  lemma UploadsLexicallyInside(p: Peer, request: Request, folders: set<Path>)
    requires request.data.ReceiveFile?
    requires WellFormedRoot(p.env.root) && DenotesAll(p.env.forbidden, folders)
    requires var host := VirtualToHost(p.env.root, request.data.filepath);
      && UploadError(p.env, host, request.data.packetSize).None?
      && PrepareUpload(p.env, host, request.data.filepath, request.data.packetSize, request.data.packetStart).0.Some?
    ensures var path := request.data.filepath;
      var host := VirtualToHost(p.env.root, path);
      && FindVirtual(p.env.root, path).Some?
      && var a := FindVirtual(p.env.root, path).value.0;
         && VisibleBelow(p.env.root, a) && NodeAt(p.env.root, a).kind != Virtual
         && NodeAt(p.env.root, a).hostPath <= host
         && (forall f :: f in folders ==> !Within(host, f))
         && p.env.disk(Render(host)) == HostBytes(PrepareUpload(p.env, host, path, request.data.packetSize,
                                                                 request.data.packetStart).0.value.content)
  {
    var path := request.data.filepath;
    ReachesOnlyVisible(p.env.root, path);
    ForbiddenIff(p.env.forbidden, folders, VirtualToHost(p.env.root, path));
  }
}
