/** The connected peer as an object: its queue, its transfers and its handlers of
    requests and replies, which change it in place. */
module PeerObject {
  import opened Bytes
  import opened Requests
  import opened Transfers
  import opened Paths
  import opened FileMapping
  import opened ForbiddenPaths
  import Q = MessageQueue
  import P = Peer

  class Peer {
    const queue: Q.MessageQueue
    const env: P.Env
    var uploads: map<MessageId, Upload>
    var downloads: map<MessageId, P.Incoming>
    var listers: map<MessageId, Lister>
    var listings: map<MessageId, Listing>
    var requestBuffer: seq<Request>
    var wire: seq<Request>
    var saved: seq<(bytes, bytes)>

    function State(): P.Peer
      reads this, queue
    {
      P.Peer(env, queue.State(), uploads, downloads, listers, listings, requestBuffer, wire, saved)
    }

    constructor (env: P.Env)
      ensures fresh(queue)
      ensures State() == P.Peer(env, Q.EMPTY, map[], map[], map[], map[], [], [], [])
    {
      this.env := env;
      queue := new Q.MessageQueue();
      uploads, downloads, listers, listings := map[], map[], map[], map[];
      requestBuffer, wire, saved := [], [], [];
    }

    /** `pull_requests`, once the socket was polled. */
    method PullRequests() returns (requests: seq<Request>)
      modifies `requestBuffer
      ensures requests == old(requestBuffer) && State() == old(State()).(buffer := [])
    {
      requests := requestBuffer;
      requestBuffer := [];
    }

    method SendReply(messageId: MessageId, status: Status) returns (error: Option<Error>)
      modifies `wire, queue
      ensures P.Out(State(), error) == P.SendReply(old(State()), messageId, status)
    {
      var message := Request(messageId, Response(status));
      error := queue.SendReply(messageId, status);
      if error.None? {
        wire := wire + [message];
      }
    }

    method SendRequest(data: Data) returns (messageId: MessageId, error: Option<Error>)
      requires !Q.Send(queue.State(), data).Endless?
      modifies `wire, queue
      ensures P.Out(State(), error) == P.Just(P.SendRequest(old(State()), data))
      ensures error.None? ==> messageId == P.SendRequest(old(State()), data).id
    {
      var sent := queue.SendRequest(data);
      if sent.Failure? {
        return 0, Some(sent.error);
      }
      messageId, error := sent.value, None;
      wire := wire + [Request(messageId, data)];
    }

    // ----- uploads ---------------------------------------------------------------

    /** A folder and an unreadable file throw once they are found; a packet size of 0
        divides by zero. */
    method PrepareUpload(host: Path, virtualPath: bytes, size: nat, start: nat)
      returns (handler: Option<Upload>, status: Status, error: Option<Error>)
      requires P.UploadError(env, host, size) != Some(Crash)
      ensures error == P.UploadError(env, host, size)
      ensures error.None? ==> (handler, status) == P.PrepareUpload(env, host, virtualPath, size, start)
      ensures error.Some? ==> handler.None?
    {
      var path := Render(host);
      var forbidden := TestForbidden(env.forbidden, path);
      var found := env.disk(path);
      if found.Missing? || host == [] || forbidden {
        return None, FILE_NOT_FOUND, None;
      }
      if !found.HostBytes? {
        return None, FILE_NOT_FOUND, Some(HostError);
      }
      var content := found.content;
      var total := |content| / size + if |content| % size == 0 then 0 else 1;
      if start > total {
        return None, BAD_REQUEST, None;
      }
      total := total - start;
      var request := SendFile(virtualPath, SHA512, env.hash(SHA512, content), env.modified(path), size, total);
      return Some(OpenUpload(request, content, start)), STATUS_OK, None;
    }

    method CreateUpload(handler: Upload) returns (error: Option<Error>)
      requires P.CreateUpload(State(), handler).error != Some(Error.Endless)
      modifies this, queue
      ensures P.Out(State(), error) == P.CreateUpload(old(State()), handler)
    {
      var messageId, e := SendRequest(handler.request);
      if e.Some? {
        return e;
      }
      if messageId !in uploads {
        uploads := uploads[messageId := handler];
      }
      return None;
    }

    method CreateHostUpload(host: Path) returns (error: Option<Error>)
      requires host != [] && P.CreateHostUpload(State(), host).error != Some(Error.Endless)
      modifies this, queue
      ensures P.Out(State(), error) == P.CreateHostUpload(old(State()), host)
    {
      var virtualPath := HostToVirtualPath(env.root, host);
      if virtualPath == [] {
        virtualPath := host[|host| - 1];
      }
      var handler, status, e := PrepareUpload(host, virtualPath, 4096, 0);
      if e.Some? {
        return e;
      }
      if status == STATUS_OK {
        error := CreateUpload(handler.value);
      } else {
        error := Some(OutOfRange);
      }
    }

    // ----- answering requests ------------------------------------------------------

    method CreateDownload(requestId: MessageId, data: Data) returns (error: Option<Error>)
      requires data.SendFile?
      modifies this, queue
      ensures P.Out(State(), error) == P.CreateDownload(old(State()), requestId, data)
    {
      var destination := env.destination(data);
      if destination == P.Blocked {
        return Some(HostError);
      }
      if destination == P.Downloaded {
        error := SendReply(requestId, UP_TO_DATE);
        return;
      }
      if requestId !in downloads {
        downloads := downloads[requestId := P.Incoming(OpenDownload(data), false)];
      }
      error := SendReply(requestId, STATUS_OK);
    }

    method AnswerDataPacket(request: Request) returns (error: Option<Error>)
      requires request.data.DataPacket?
      modifies this, queue
      ensures P.Out(State(), error) == P.ReceiveDataPacket(old(State()), request)
    {
      hide ReceivePacket;
      var DataPacket(id, packetId, data) := request.data;
      if id !in downloads || !downloads[id].download.request.SendFile? {
        error := SendReply(request.messageId, INVALID_REQUEST_ID);
        return;
      }
      var handler := downloads[id];
      var (received, e) := ReceivePacket(handler.download, env.hash, packetId, data);
      SameRequest(handler.download, env.hash, packetId, data);
      downloads := downloads[id := handler.(download := received)];
      if e.Some? {
        return e;
      }
      if handler.download.open && !received.open {
        if env.destination(received.request) == P.Occupied {
          return Some(HostError);
        }
        saved := saved + [(received.request.filepath, received.file)];
      }
      if !received.open && !handler.keep {
        downloads := downloads - {id};
      }
      error := SendReply(request.messageId, STATUS_OK);
    }

    method AnswerReceiveFile(request: Request) returns (error: Option<Error>)
      requires request.data.ReceiveFile?
      requires P.AnswerReceiveFile(State(), request).error !in {Some(Crash), Some(Error.Endless)}
      modifies this, queue
      ensures P.Out(State(), error) == P.AnswerReceiveFile(old(State()), request)
    {
      hide VirtualToHost, P.PrepareUpload, P.CreateUpload, P.SendReply, P.UploadError;
      var ReceiveFile(virtualPath, size, start) := request.data;
      var host := VirtualToHostPath(env.root, virtualPath);
      var handler, status, e := PrepareUpload(host, virtualPath, size, start);
      if e.Some? {
        return e;
      }
      error := SendReply(request.messageId, status);
      if error.Some? {
        return;
      }
      if handler.Some? {
        error := CreateUpload(handler.value);
      }
    }

    method SendNextList(id: MessageId) returns (error: Option<Error>)
      requires id in listers
      requires P.SendList(State(), id).error !in {Some(Crash), Some(Error.Endless)}
      modifies this, queue
      ensures P.Out(State(), error) == P.SendList(old(State()), id)
    {
      var (lister, packet) := NextList(listers[id], id);
      listers := listers[id := lister];
      if packet.None? {
        return Some(NoMoreSlots); // not even for a null packet
      }
      var messageId;
      messageId, error := SendRequest(packet.value);
    }

    /** Whether the iterator over the folder to list cannot be made. */
    method NoDirectory(folder: bytes) returns (r: bool)
      ensures r == P.NoDirectory(env, folder)
    {
      var path := P.RequestedPath(env, folder);
      var found := FindVirtualNode(env.root, path);
      if found.None? || NodeAt(env.root, found.value.0).kind != HostFolder {
        return false;
      }
      var host := VirtualToHostPath(env.root, path);
      r := host != [] && !env.disk(Render(host)).Directory?;
    }

    method AnswerListFiles(request: Request) returns (error: Option<Error>)
      requires request.data.ListFiles?
      requires P.AnswerListFiles(State(), request).error !in {Some(Crash), Some(Error.Endless)}
      modifies this, queue
      ensures P.Out(State(), error) == P.AnswerListFiles(old(State()), request)
    {
      hide P.Entries, P.SendList, P.SendReply;
      var id := request.messageId;
      var unlistable := NoDirectory(request.data.folderpath);
      if unlistable {
        return Some(HostError);
      }
      var handler := OpenLister(P.Entries(env, request.data.folderpath));
      if id !in listers {
        listers := listers[id := handler];
      }
      ghost var before := State();
      error := SendReply(id, STATUS_OK);
      RepliesOnly(before, id, STATUS_OK);
      if error.Some? {
        return;
      }
      error := SendNextList(id);
    }

    method AnswerFileList(request: Request) returns (error: Option<Error>)
      requires request.data.FileList?
      modifies this, queue
      ensures P.Out(State(), error) == P.ReceiveFileList(old(State()), request)
    {
      var FileList(id, packetId, files) := request.data;
      if id !in listings {
        error := SendReply(request.messageId, INVALID_REQUEST_ID);
        return;
      }
      listings := listings[id := ReceiveList(listings[id], packetId, files)];
      error := SendReply(request.messageId, STATUS_OK);
    }

    method RespondToRequest(request: Request, status: Status) returns (error: Option<Error>)
      requires P.RespondToRequest(State(), request, status).error !in {Some(Crash), Some(Error.Endless)}
      modifies this, queue
      ensures P.Out(State(), error) == P.RespondToRequest(old(State()), request, status)
    {
      hide P.ReceiveDataPacket, P.CreateDownload, P.AnswerReceiveFile, P.AnswerListFiles, P.ReceiveFileList, P.SendReply;
      var id := queue.ReceiveRequest(request);
      if status != STATUS_OK {
        error := SendReply(request.messageId, status);
        return;
      }
      match request.data {
        case DataPacket(_, _, _) => error := AnswerDataPacket(request);
        case SendFile(_, _, _, _, _, _) => error := CreateDownload(request.messageId, request.data);
        case ReceiveFile(_, _, _) => error := AnswerReceiveFile(request);
        case ListFiles(_) => error := AnswerListFiles(request);
        case FileList(_, _, _) => error := AnswerFileList(request);
        case _ => error := SendReply(request.messageId, STATUS_OK);
      }
    }

    // ----- handling replies ----------------------------------------------------------

    method SendNextPacket(id: MessageId) returns (error: Option<Error>)
      requires id in uploads
      requires P.SendPacket(State(), id).error !in {Some(Crash), Some(Error.Endless)}
      modifies this, queue
      ensures P.Out(State(), error) == P.SendPacket(old(State()), id)
      ensures id in uploads
    {
      var (upload, packet) := NextPacket(uploads[id], id);
      uploads := uploads[id := upload];
      var messageId;
      messageId, error := SendRequest(packet.value);
    }

    /** The first packets of an accepted file: five, or fewer while slots last. */
    method SendBurst(id: MessageId) returns (error: Option<Error>)
      requires id in uploads
      requires P.Burst(State(), id, 5).error !in {Some(Crash), Some(Error.Endless)}
      modifies this, queue
      ensures P.Out(State(), error) == P.Burst(old(State()), id, 5)
    {
      hide P.SendPacket;
      ghost var whole := P.Burst(State(), id, 5);
      var i := 0;
      while i < 5 && uploads[id].open && queue.slots > 0
        invariant 0 <= i <= 5 && id in uploads
        invariant P.Burst(State(), id, 5 - i) == whole
      {
        error := SendNextPacket(id);
        if error.Some? {
          return;
        }
        i := i + 1;
      }
      return None;
    }

    /** The window of `send_file`: packets until the file ends or no slot is left. A slot
        each, so that 255 are never exceeded. */
    method SendWindow(id: MessageId) returns (error: Option<Error>)
      requires id in uploads
      requires P.Burst(State(), id, 255).error !in {Some(Crash), Some(Error.Endless)}
      modifies this, queue
      ensures P.Out(State(), error) == P.Burst(old(State()), id, 255)
      ensures error.None? ==> id in uploads && (!uploads[id].open || queue.slots == 0)
    {
      hide P.SendPacket;
      ghost var whole := P.Burst(State(), id, 255);
      ghost var i := 0;
      while uploads[id].open && queue.slots > 0
        invariant 0 <= i <= 255 && id in uploads && queue.slots <= 255 - i
        invariant P.Burst(State(), id, 255 - i) == whole
        decreases queue.slots
      {
        ghost var before := State();
        error := SendNextPacket(id);
        if error.Some? {
          return;
        }
        SendTakesSlot(before, id);
        i := i + 1;
      }
      return None;
    }

    method ReceiveReply(messageId: MessageId, status: Status) returns (error: Option<Error>)
      requires messageId in queue.outgoing
      requires P.ReceiveReply(State(), messageId, status).error !in {Some(Crash), Some(Error.Endless)}
      modifies this, queue
      ensures P.Out(State(), error) == P.ReceiveReply(old(State()), messageId, status)
    {
      hide P.Burst, P.SendPacket, P.SendList;
      var source := queue.outgoing[messageId].request.data;
      var noted := status;
      if status == STATUS_OK && source.ReceiveFile? {
        noted := APPROVAL_PENDING;
      }
      var e := queue.ReceiveReply(messageId, noted);
      if noted != STATUS_OK {
        return None;
      }
      error := None;
      match source {
        case DataPacket(upload, _, _) =>
          if upload in uploads {
            if uploads[upload].open {
              error := SendNextPacket(upload);
            } else {
              uploads := uploads - {upload};
            }
          }
        case SendFile(_, _, _, _, _, _) =>
          if messageId !in uploads {
            return Some(UnknownTransfer);
          }
          error := SendBurst(messageId);
        case ListFiles(_) =>
          if messageId !in listings {
            listings := listings[messageId := NEW_LISTING];
          }
        case FileList(lister, _, _) =>
          if lister in listers {
            if listers[lister].extraSent {
              uploads := uploads - {messageId};
            } else {
              error := SendNextList(lister);
            }
          }
        case _ =>
      }
    }

    // ----- receiving anything --------------------------------------------------------

    /** An outgoing RECEIVE_FILE for this path. */
    method FindReceiveFile(path: bytes) returns (found: Option<MessageId>)
      ensures found == P.FindReceiveFile(queue.outgoing, path, 0)
    {
      var id: nat := 0;
      while id < 256
        invariant 0 <= id <= 256
        invariant P.FindReceiveFile(queue.outgoing, path, id) == P.FindReceiveFile(queue.outgoing, path, 0)
      {
        if id in queue.outgoing && P.IsReceiveFile(queue.outgoing[id], path) {
          return Some(id);
        }
        id := id + 1;
      }
      return None;
    }

    method AskUser(request: Request) returns (error: Option<Error>)
      requires P.AskUser(State(), request).error !in {Some(Crash), Some(Error.Endless)}
      modifies this, queue
      ensures P.Out(State(), error) == P.AskUser(old(State()), request)
    {
      hide P.RespondToRequest;
      error := RespondToRequest(request, APPROVAL_PENDING);
      if error.None? {
        requestBuffer := requestBuffer + [request];
      }
    }

    method AuthorizeRequest(request: Request) returns (error: Option<Error>)
      requires P.AuthorizeRequest(State(), request).error !in {Some(Crash), Some(Error.Endless)}
      modifies this, queue
      ensures P.Out(State(), error) == P.AuthorizeRequest(old(State()), request)
    {
      hide P.RespondToRequest, P.ReceiveReply, P.AskUser, P.FindReceiveFile, FindVirtual, IsForbidden;
      match request.data {
        case Response(status) =>
          if request.messageId in queue.outgoing {
            error := ReceiveReply(request.messageId, status);
          } else {
            error := None;
          }
        case DataPacket(id, _, _) =>
          error := RespondToRequest(request, if id in downloads then STATUS_OK else INVALID_REQUEST_ID);
        case SendFile(path, _, _, _, _, _) =>
          var original := FindReceiveFile(path);
          if original.Some? {
            var e := queue.ReceiveReply(original.value, STATUS_OK);
            error := RespondToRequest(request, STATUS_OK);
          } else {
            error := AskUser(request);
          }
        case ReceiveFile(_, _, _) =>
          error := RespondToRequest(request, STATUS_OK);
        case ListFiles(folder) =>
          var node := FindVirtualNode(env.root, folder);
          if node.None? {
            error := RespondToRequest(request, FILE_NOT_FOUND);
            return;
          }
          var found := NodeAt(env.root, node.value.0);
          var forbidden := false;
          if found.kind != Virtual {
            forbidden := TestForbidden(env.forbidden, Render(found.hostPath));
          }
          error := RespondToRequest(request, if forbidden then FILE_NOT_FOUND else STATUS_OK);
        case FileList(id, _, _) =>
          error := RespondToRequest(request, if id in listings then STATUS_OK else INVALID_REQUEST_ID);
        case _ =>
          error := AskUser(request);
      }
    }
  }

  lemma SendTakesSlot(p: P.Peer, id: MessageId)
    requires id in p.uploads && P.SendPacket(p, id).error.None?
    ensures P.SendPacket(p, id).peer.queue.slots == p.queue.slots - 1
  {
  }

  lemma RepliesOnly(p: P.Peer, id: MessageId, status: Status)
    ensures P.SendReply(p, id, status).peer.listers == p.listers
  {
  }
}
