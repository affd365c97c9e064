/** The four transfer handlers as objects updated in place; each method is proved
    to do to the object what the functions of `Transfers` do to its value. */
module TransferHandlers {
  import opened Bytes
  import opened Requests
  import opened Transfers

  class UploadTransferHandler {
    const request: Data
    const content: bytes
    var pos: nat
    var open: bool
    var packetId: nat
    var transferredSize: nat

    ghost predicate Valid() { request.SendFile? }

    function State(): Upload
      reads this
    {
      Upload(request, content, pos, open, packetId, transferredSize)
    }

    constructor (request: Data, content: bytes, packetStart: nat)
      requires request.SendFile?
      ensures Valid() && State() == OpenUpload(request, content, packetStart)
    {
      this.request, this.content := request, content;
      pos, open, packetId, transferredSize := request.packetSize * packetStart, true, 0, 0;
    }

    method GetNextPacket(requestId: MessageId) returns (packet: Option<Data>)
      requires Valid()
      modifies this
      ensures (State(), packet) == NextPacket(old(State()), requestId)
    {
      if !open {
        return None;
      }
      var left := if pos <= |content| then content[pos..] else [];
      var data := if |left| < request.packetSize then left else left[..request.packetSize];
      pos := pos + |data|;
      packet := Some(DataPacket(requestId, packetId, data));
      packetId := packetId + 1;
      transferredSize := transferredSize + |data|;
      if |data| < request.packetSize {
        open := false;
      }
    }
  }

  class DownloadTransferHandler {
    const request: Data
    var missingIds: seq<nat>
    var expectedId: nat
    var file: bytes
    var cursor: nat
    var open: bool
    var transferredSize: nat

    ghost predicate Valid() { request.SendFile? }

    function State(): Download
      reads this
    {
      Download(request, Arrivals(expectedId, missingIds), file, cursor, open, transferredSize)
    }

    constructor (request: Data)
      requires request.SendFile?
      ensures Valid() && State() == OpenDownload(request)
    {
      this.request := request;
      missingIds, expectedId, file, cursor, open, transferredSize := [], 0, [], 0, true, 0;
    }

    method Write(data: bytes)
      modifies this
      ensures State() == Append(old(State()), data)
    {
      if open {
        file := WriteAt(file, cursor, data);
        cursor := cursor + |data|;
      }
    }

    method Finish(h: Hash) returns (error: Option<Error>)
      requires Valid()
      modifies this
      ensures (State(), error) == FinishTransfer(old(State()), h)
    {
      open := false;
      error := if h(request.algorithm, file) == request.filehash then None else Some(HashMismatch);
    }

    /** Notes the skipped ids and fills their places with zeros. */
    method FillGap(diff: nat)
      requires Valid()
      modifies this
      ensures missingIds == old(missingIds) + Range(expectedId, expectedId + diff)
      ensures State() == Append(old(State()), Zeros(diff * request.packetSize)).(
                           arrivals := Arrivals(expectedId, missingIds))
      ensures expectedId == old(expectedId)
    {
      var i := 0;
      while i < diff
        invariant 0 <= i <= diff
        invariant missingIds == old(missingIds) + Range(expectedId, expectedId + i)
        invariant expectedId == old(expectedId)
        invariant State() == Append(old(State()), Zeros(i * request.packetSize)).(
                               arrivals := Arrivals(expectedId, missingIds))
      {
        MoreZeros(file, old(State()), i, request.packetSize);
        missingIds := missingIds + [expectedId + i];
        Write(Zeros(request.packetSize));
        i := i + 1;
      }
    }

    method ReceivePacket(h: Hash, id: nat, data: bytes) returns (error: Option<Error>)
      requires Valid()
      modifies this
      ensures (State(), error) == Transfers.ReceivePacket(old(State()), h, id, data)
    {
      ghost var before := State();
      missingIds := Erase(missingIds, id);
      transferredSize := transferredSize + |data|;
      if id > expectedId {
        var diff := id - expectedId;
        FillGap(diff);
        expectedId := id + 1;
        return None;
      } else if id < expectedId {
        if open {
          file := WriteAt(file, request.packetSize * id, data);
        }
        if missingIds == [] && expectedId + 1 == request.totalPackets {
          error := Finish(h);
          return;
        }
        return None;
      } else {
        expectedId := expectedId + 1;
        var lastPacket := expectedId == request.totalPackets;
        Write(data);
        if |data| != request.packetSize && !lastPacket {
          return Some(SizeInvalid);
        }
        if lastPacket && missingIds == [] {
          error := Finish(h);
          return;
        }
        return None;
      }
    }
  }

  /** Writing zeros piece by piece is writing them at once. */
  lemma MoreZeros(file: bytes, d: Download, i: nat, size: nat)
    ensures Append(Append(d, Zeros(i * size)), Zeros(size)) == Append(d, Zeros((i + 1) * size))
  {
    Distribute(i + 1, i, size);
    WriteTwice(d.file, d.cursor, i * size, size);
    assert Zeros(i * size + size) == Zeros((i + 1) * size);
  }

  lemma WriteTwice(file: bytes, at: nat, n: nat, m: nat)
    ensures WriteAt(WriteAt(file, at, Zeros(n)), at + n, Zeros(m)) == WriteAt(file, at, Zeros(n + m))
  {
    var once := WriteAt(file, at, Zeros(n + m));
    var twice := WriteAt(WriteAt(file, at, Zeros(n)), at + n, Zeros(m));
    if n > 0 && m > 0 {
      assert |once| == |twice|;
      assert forall i :: 0 <= i < |once| ==> once[i] == twice[i];
    }
  }

  class ListFilesTransferHandler {
    const entries: seq<FileInfo>
    var pos: nat
    var currentId: nat
    var extraPacketSent: bool

    ghost predicate Valid()
      reads this
    {
      pos <= |entries|
    }

    function State(): Lister
      reads this
    {
      Lister(entries, pos, currentId, extraPacketSent)
    }

    constructor (entries: seq<FileInfo>)
      ensures Valid() && State() == OpenLister(entries)
    {
      this.entries := entries;
      pos, currentId, extraPacketSent := 0, 0, false;
    }

    method GetNextPacket(requestId: MessageId) returns (packet: Option<Data>)
      requires Valid()
      modifies this
      ensures Valid() && (State(), packet) == NextList(old(State()), requestId)
    {
      if extraPacketSent {
        return None;
      }
      var files: seq<FileInfo> := [];
      ghost var start := pos;
      var i := 0;
      while pos < |entries| && i < MAX_COUNT
        invariant 0 <= i <= MAX_COUNT && pos == start + i <= |entries|
        invariant files == entries[start..pos]
        invariant currentId == old(currentId) && extraPacketSent == old(extraPacketSent)
      {
        files := files + [entries[pos]];
        pos := pos + 1;
        i := i + 1;
      }
      packet := Some(FileList(requestId, currentId, files));
      currentId := currentId + 1;
      if files == [] {
        extraPacketSent := true;
      }
    }
  }

  class FileListTransferHandler {
    var fileList: seq<FileInfo>
    var currentId: nat
    var missingIds: seq<nat>
    var gotEmpty: bool

    function State(): Listing
      reads this
    {
      Listing(fileList, currentId, missingIds, gotEmpty)
    }

    constructor ()
      ensures State() == NEW_LISTING
    {
      fileList, currentId, missingIds, gotEmpty := [], 0, [], false;
    }

    method ReceivePacket(id: nat, files: seq<FileInfo>)
      modifies this
      ensures State() == ReceiveList(old(State()), id, files)
    {
      if id > currentId {
        while currentId < id
          invariant old(currentId) <= currentId <= id
          invariant missingIds == old(missingIds) + Range(old(currentId), currentId)
          invariant fileList == old(fileList) && gotEmpty == old(gotEmpty)
        {
          missingIds := missingIds + [currentId];
          currentId := currentId + 1;
        }
      } else if id < currentId {
        if id !in missingIds {
          return;
        }
        missingIds := Erase(missingIds, id);
      } else {
        currentId := currentId + 1;
      }
      if files == [] {
        gotEmpty := true;
      } else {
        fileList := fileList + files;
      }
    }
  }
}
