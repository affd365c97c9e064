/** The formatters and parsers of protocol v0.0.0 as they are written: sizes
    announced before the payload is appended, and one reusable VarInt that eats
    the payload from the front. Each is proved equal to the wire format. */
module ProtocolHandler {
  import opened Bytes
  import opened Requests
  import opened Codec
  import V = VarInt
  import S = Serialize

  // ----- formatters ----------------------------------------------------------

  /** The parts every formatter writes before its payload. */
  method Begin(messageId: MessageId, code: byte, payloadSize: nat) returns (result: bytes)
    requires payloadSize < U64
    ensures result == MAGIC + [code] + [messageId] + V.Encode(payloadSize)
  {
    var size := new V.VarInt.FromNumber(payloadSize);
    result := MAGIC;
    result := result + [code];
    result := result + [messageId];
    result := result + size.values;
  }

  method FormatResponse(messageId: MessageId, d: Data) returns (result: bytes)
    requires d.Response?
    ensures result == Frame(Request(messageId, d))
  {
    result := Begin(messageId, 0x00, 1);
    result := result + [ToChar(d.status)];
  }

  method FormatSendFile(messageId: MessageId, d: Data) returns (r: Result<bytes>)
    requires d.SendFile? && Typed(d)
    ensures r == Print(Request(messageId, d))
  {
    StringFits(d.filepath, Payload(d)[|Str(d.filepath)|..], d);
    var filepathSize := new V.VarInt.FromNumber(|d.filepath|);
    var packetSize := new V.VarInt.FromNumber(d.packetSize);
    var totalPackets := new V.VarInt.FromNumber(d.totalPackets);
    if |d.filehash| != d.algorithm.Size() {
      return Failure(WrongHashSize);
    }
    var payloadSize := |filepathSize.values| + |d.filepath| + 1 + |d.filehash| + 8
      + |packetSize.values| + |totalPackets.values|;
    assert payloadSize == |Payload(d)|;
    var result := Begin(messageId, 0x10, payloadSize);
    ghost var header := result;
    result := result + filepathSize.values;
    result := result + d.filepath;
    result := result + [d.algorithm.Code()];
    result := result + d.filehash;
    var updated := S.WriteNumber(d.lastUpdated);
    result := result + updated;
    result := result + packetSize.values;
    result := result + totalPackets.values;
    Regroup7(header, filepathSize.values, d.filepath, [d.algorithm.Code()], d.filehash, updated,
             packetSize.values, totalPackets.values);
    return Success(result);
  }

  lemma Regroup7(h: bytes, a: bytes, b: bytes, c: bytes, d: bytes, e: bytes, f: bytes, g: bytes)
    ensures h + a + b + c + d + e + f + g == h + (a + b + c + d + e + f + g)
  {
  }

  lemma Regroup4(h: bytes, a: bytes, b: bytes, c: bytes, d: bytes)
    ensures h + a + b + c + d == h + (a + b + c + d)
  {
  }

  lemma Regroup3(h: bytes, a: bytes, b: bytes, c: bytes)
    ensures h + a + b + c == h + (a + b + c)
  {
  }

  lemma StringFits(s: bytes, rest: bytes, d: Data)
    requires Typed(d) && Payload(d) == Str(s) + rest
    ensures |s| < U64
  {
  }

  method FormatReceiveFile(messageId: MessageId, d: Data) returns (result: bytes)
    requires d.ReceiveFile? && Typed(d)
    ensures result == Frame(Request(messageId, d))
  {
    var filepathSize := new V.VarInt.FromNumber(|d.filepath|);
    var packetSize := new V.VarInt.FromNumber(PACKET_SIZE);
    var packetStart := new V.VarInt.FromNumber(d.packetStart);
    var payloadSize := |filepathSize.values| + |d.filepath| + |packetSize.values| + |packetStart.values|;
    assert payloadSize == |Payload(d)|;
    result := Begin(messageId, 0x11, payloadSize);
    ghost var header := result;
    result := result + filepathSize.values;
    result := result + d.filepath;
    result := result + packetSize.values;
    result := result + packetStart.values;
    Regroup4(header, filepathSize.values, d.filepath, packetSize.values, packetStart.values);
  }

  method FormatListFiles(messageId: MessageId, d: Data) returns (result: bytes)
    requires d.ListFiles? && Typed(d)
    ensures result == Frame(Request(messageId, d))
  {
    var folderpathSize := new V.VarInt.FromNumber(|d.folderpath|);
    result := Begin(messageId, 0x20, |folderpathSize.values| + |d.folderpath|);
    ghost var header := result;
    result := result + folderpathSize.values;
    result := result + d.folderpath;
    Assoc(header, folderpathSize.values, d.folderpath);
  }

  /** The announced size of the array, summed before anything is written. */
  method ArraySize(files: seq<FileInfo>) returns (arrayTotalSize: nat)
    requires |Files(files)| < U64
    ensures arrayTotalSize == |Files(files)|
  {
    FilesFit(files);
    arrayTotalSize := 0;
    for i := 0 to |files|
      invariant arrayTotalSize == |Files(files[..i])|
    {
      FilesSnoc(files, i);
      var varint := new V.VarInt.FromNumber(|files[i].path|);
      arrayTotalSize := arrayTotalSize + |varint.values| + |files[i].path| + 1;
    }
    assert files[..|files|] == files;
  }

  method AppendFiles(start: bytes, files: seq<FileInfo>) returns (result: bytes)
    requires |Files(files)| < U64
    ensures result == start + Files(files)
  {
    FilesFit(files);
    result := start;
    for i := 0 to |files|
      invariant result == start + Files(files[..i])
    {
      FilesSnoc(files, i);
      Assoc(start, Files(files[..i]), Entry(files[i]));
      var varint := new V.VarInt.FromNumber(|files[i].path|);
      ghost var before := result;
      result := result + varint.values;
      result := result + files[i].path;
      result := result + [ToChar(files[i].fileType)];
      Regroup3(before, varint.values, files[i].path, [ToChar(files[i].fileType)]);
    }
    assert files[..|files|] == files;
  }

  method FormatFileList(messageId: MessageId, d: Data) returns (result: bytes)
    requires d.FileList? && Typed(d)
    ensures result == Frame(Request(messageId, d))
  {
    var files := d.files;
    FilesFit(files);
    var itemCount := new V.VarInt.FromNumber(|files|);
    var packetId := new V.VarInt.FromNumber(d.packetId);
    var arrayTotalSize := ArraySize(files);
    var payloadSize := 1 + |packetId.values| + |itemCount.values| + arrayTotalSize;
    assert payloadSize == |Payload(d)|;
    result := Begin(messageId, 0x21, payloadSize);
    ghost var header := result;
    result := result + [d.requestId];
    result := result + packetId.values;
    result := result + itemCount.values;
    result := AppendFiles(result, files);
    Regroup4(header, [d.requestId], packetId.values, itemCount.values, Files(files));
  }

  lemma {:induction false} FilesSnoc(files: seq<FileInfo>, i: nat)
    requires i < |files|
    ensures Files(files[..i + 1]) == Files(files[..i]) + Entry(files[i])
    ensures |Files(files[..i + 1])| <= |Files(files)|
  {
    FilesAppend(files[..i], [files[i]]);
    assert files[..i] + [files[i]] == files[..i + 1];
    assert [files[i]][1..] == [];
    FilesAppend(files[..i + 1], files[i + 1..]);
    assert files[..i + 1] + files[i + 1..] == files;
  }

  lemma {:induction false} FilesAppend(a: seq<FileInfo>, b: seq<FileInfo>)
    ensures Files(a + b) == Files(a) + Files(b)
  {
    if a == [] {
      assert a + b == b;
    } else {
      FilesAppend(a[1..], b);
      assert (a + b)[1..] == a[1..] + b;
      Assoc(Entry(a[0]), Files(a[1..]), Files(b));
    }
  }

  lemma Assoc(a: bytes, b: bytes, c: bytes)
    ensures a + (b + c) == a + b + c
  {
  }

  lemma {:induction false} FilesFit(files: seq<FileInfo>)
    ensures |files| <= |Files(files)|
    ensures forall f :: f in files ==> |f.path| < |Files(files)|
  {
    if files != [] { FilesFit(files[1..]); }
  }

  method FormatDataPacket(messageId: MessageId, d: Data) returns (result: bytes)
    requires d.DataPacket? && Typed(d)
    ensures result == Frame(Request(messageId, d))
  {
    var packetId := new V.VarInt.FromNumber(d.packetId);
    var packetSize := new V.VarInt.FromNumber(|d.data|);
    var payloadSize := 1 + |packetId.values| + |packetSize.values| + |d.data|;
    result := Begin(messageId, 0x42, payloadSize);
    ghost var header := result;
    result := result + [d.requestId];
    result := result + packetId.values;
    result := result + packetSize.values;
    result := result + d.data;
    Regroup4(header, [d.requestId], packetId.values, packetSize.values, d.data);
  }

  method FormatPing(messageId: MessageId, d: Data) returns (result: bytes)
    requires d.Ping?
    ensures result == Frame(Request(messageId, d))
  {
    result := Begin(messageId, 0x30, 0);
  }

  method FormatRequest(request: Request) returns (r: Result<bytes>)
    requires Typed(request.data)
    ensures r == Print(request)
  {
    var id, d := request.messageId, request.data;
    var result: bytes;
    match d {
      case Response(_) => result := FormatResponse(id, d);
      case SendFile(_, _, _, _, _, _) =>
        r := FormatSendFile(id, d);
        return;
      case ReceiveFile(_, _, _) => result := FormatReceiveFile(id, d);
      case ListFiles(_) => result := FormatListFiles(id, d);
      case FileList(_, _, _) => result := FormatFileList(id, d);
      case Ping => result := FormatPing(id, d);
      case DataPacket(_, _, _) => result := FormatDataPacket(id, d);
      case PairRequest => return Failure(NotImplemented);
      case AcceptPairRequest => return Failure(NotImplemented);
      case SupportedVersions(_) => return Failure(UnknownCommand);
      case SelectedVersion(_) => return Failure(UnknownCommand);
    }
    return Success(result);
  }

  // ----- parsers -------------------------------------------------------------

  /** `parse` then `to_number` on the shared VarInt. */
  method TakeNumber(varint: V.VarInt, payload: bytes) returns (r: Result<nat>, rest: bytes)
    requires varint.Valid()
    modifies varint
    ensures varint.Valid()
    ensures r.Success? <==> V.ReadNumber(payload).Success?
    ensures r.Success? ==> V.ReadNumber(payload) == Success((r.value, rest)) && r.value < U64
    ensures r.Failure? ==> V.ReadNumber(payload) == Failure(r.error)
  {
    var ok;
    ok, rest := varint.Parse(payload);
    if !ok {
      return Failure(BadRequest), payload;
    }
    r := varint.ToNumber();
  }

  method ParseSendFile(p: bytes) returns (r: Result<Data>)
    ensures r == Codec.ParseSendFile(p)
  {
    var varint := new V.VarInt();
    var payload := p;
    var n, size, total;
    n, payload := TakeNumber(varint, payload);
    if n.Failure? { return Failure(n.error); }
    if |payload| < n.value { return Failure(BadRequest); }
    var filepath := payload[..n.value];
    payload := payload[n.value..];
    if payload == [] { return Failure(BadRequest); }
    var algorithm := AlgorithmOf(payload[0]);
    if algorithm.None? { return Failure(UnknownHash); }
    var algoSize := algorithm.value.Size();
    if |payload| < 1 + algoSize + 8 + 1 { return Failure(BadRequest); }
    var filehash := payload[1..1 + algoSize];
    payload := payload[1 + algoSize..];
    var updated := S.ReadFixed(payload[..8]);
    payload := payload[8..];
    size, payload := TakeNumber(varint, payload);
    if size.Failure? { return Failure(size.error); }
    total, payload := TakeNumber(varint, payload);
    if total.Failure? { return Failure(total.error); }
    return Success(SendFile(filepath, algorithm.value, filehash, updated.value, size.value, total.value));
  }

  method ParseReceiveFile(p: bytes) returns (r: Result<Data>)
    ensures r == Codec.ParseReceiveFile(p)
  {
    var varint := new V.VarInt();
    var payload := p;
    var n, size, start;
    n, payload := TakeNumber(varint, payload);
    if n.Failure? { return Failure(n.error); }
    if |payload| < n.value { return Failure(BadRequest); }
    var filepath := payload[..n.value];
    payload := payload[n.value..];
    size, payload := TakeNumber(varint, payload);
    if size.Failure? { return Failure(size.error); }
    start, payload := TakeNumber(varint, payload);
    if start.Failure? { return Failure(start.error); }
    return Success(ReceiveFile(filepath, size.value, start.value));
  }

  method ParseListFiles(p: bytes) returns (r: Result<Data>)
    ensures r == Codec.ParseListFiles(p)
  {
    var varint := new V.VarInt();
    var n, payload := TakeNumber(varint, p);
    if n.Failure? { return Failure(n.error); }
    if |payload| < n.value { return Failure(BadRequest); }
    return Success(ListFiles(payload[..n.value]));
  }

  method ParseFileList(p: bytes) returns (r: Result<Data>)
    ensures r == Codec.ParseFileList(p)
  {
    if p == [] { return Failure(OutOfRange); }
    var varint := new V.VarInt();
    var requestId, payload := p[0], p[1..];
    var packetId, count;
    packetId, payload := TakeNumber(varint, payload);
    if packetId.Failure? { return Failure(packetId.error); }
    count, payload := TakeNumber(varint, payload);
    if count.Failure? { return Failure(count.error); }
    var files := TakeFiles(varint, payload, count.value);
    if files.Failure? { return Failure(files.error); }
    return Success(FileList(requestId, packetId.value, files.value));
  }

  method TakeFile(varint: V.VarInt, p: bytes) returns (r: Result<FileInfo>, rest: bytes)
    requires varint.Valid()
    modifies varint
    ensures varint.Valid()
    ensures r.Success? ==> ParseFile(p) == Success((r.value, rest))
    ensures r.Failure? ==> ParseFile(p) == Failure(r.error)
  {
    var n, payload := TakeNumber(varint, p);
    rest := payload;
    if n.Failure? { return Failure(n.error), rest; }
    if |payload| < (n.value + 1) % U64 { return Failure(BadRequest), rest; }
    if |payload| < n.value + 1 { return Failure(OutOfRange), rest; }
    var path := payload[..n.value];
    payload := payload[n.value..];
    return Success(FileInfo(path, FromChar(payload[0]))), payload[1..];
  }

  method TakeFiles(varint: V.VarInt, items: bytes, count: nat) returns (r: Result<seq<FileInfo>>)
    requires varint.Valid()
    modifies varint
    ensures r == ParseFiles(items, count)
  {
    var payload, file := items, Failure(BadRequest);
    var files: seq<FileInfo> := [];
    var i := 0;
    PrependNothing(ParseFiles(items, count));
    while i < count
      invariant 0 <= i <= count && varint.Valid()
      invariant ParseFiles(items, count) == Prepend(files, ParseFiles(payload, count - i))
    {
      PrependFile(files, payload, count - i);
      file, payload := TakeFile(varint, payload);
      if file.Failure? { return Failure(file.error); }
      files := files + [file.value];
      i := i + 1;
    }
    assert files + [] == files;
    return Success(files);
  }

  ghost function Prepend(files: seq<FileInfo>, r: Result<seq<FileInfo>>): Result<seq<FileInfo>> {
    match r case Success(more) => Success(files + more) case Failure(e) => Failure(e)
  }

  lemma PrependNothing(r: Result<seq<FileInfo>>)
    ensures Prepend([], r) == r
  {
    if r.Success? { assert [] + r.value == r.value; }
  }

  lemma PrependFile(files: seq<FileInfo>, p: bytes, n: nat)
    requires n > 0
    ensures ParseFile(p).Failure? ==> Prepend(files, ParseFiles(p, n)) == Failure(ParseFile(p).error)
    ensures ParseFile(p).Success? ==>
      Prepend(files, ParseFiles(p, n))
      == Prepend(files + [ParseFile(p).value.0], ParseFiles(ParseFile(p).value.1, n - 1))
  {
    if ParseFile(p).Success? {
      var (file, rest) := ParseFile(p).value;
      if ParseFiles(rest, n - 1).Success? {
        var more := ParseFiles(rest, n - 1).value;
        assert files + ([file] + more) == files + [file] + more;
      }
    }
  }

  method ParseDataPacket(p: bytes) returns (r: Result<Data>)
    ensures r == Codec.ParseDataPacket(p)
  {
    if p == [] { return Failure(OutOfRange); }
    var varint := new V.VarInt();
    var requestId, payload := p[0], p[1..];
    var packetId, n;
    packetId, payload := TakeNumber(varint, payload);
    if packetId.Failure? { return Failure(packetId.error); }
    n, payload := TakeNumber(varint, payload);
    if n.Failure? { return Failure(n.error); }
    if |payload| < n.value { return Failure(BadRequest); }
    return Success(DataPacket(requestId, packetId.value, payload[..n.value]));
  }

  method GetRequestData(code: byte, payload: bytes) returns (r: Result<Data>)
    ensures r == ParsePayload(code, payload)
  {
    if code == 0x00 {
      return if payload == [] then Failure(BadRequest) else Success(Response(FromChar(payload[0])));
    } else if code == 0x10 {
      r := ParseSendFile(payload);
    } else if code == 0x11 {
      r := ParseReceiveFile(payload);
    } else if code == 0x20 {
      r := ParseListFiles(payload);
    } else if code == 0x21 {
      r := ParseFileList(payload);
    } else if code == 0x30 {
      r := Success(Ping);
    } else if code == 0x42 {
      r := ParseDataPacket(payload);
    } else {
      r := Failure(if code == 0x50 || code == 0x51 then NotImplemented else UnknownCommand);
    }
  }

  /** The size field's length (0 if it has no end) and the size it spells. */
  method TakeSize(field: bytes) returns (length: nat, n: nat)
    requires |field| <= 8
    ensures length == 0 <==> V.Scan(field).None?
    ensures length > 0 ==> length == |V.Scan(field).value.0| && n == V.Value(V.Scan(field).value.0)
  {
    var payloadSize := new V.VarInt();
    var ok, _ := payloadSize.Parse(field);
    if !ok { return 0, 0; }
    var r := payloadSize.ToNumber();
    return |payloadSize.values|, r.value;
  }

  method ParseRequest(raw: bytes) returns (r: Parse)
    ensures r == Codec.ParseRequest(raw)
  {
    if |raw| < 6 { return Incomplete; }
    if raw[..4] != MAGIC { return Failed(MissingMagic); }
    var length, n := TakeSize(SizeField(raw));
    if length == 0 { return Failed(MessageTooLong); }
    var start := 6 + length;
    if |raw| < start + n { return Incomplete; }
    var data := GetRequestData(raw[4], raw[start..start + n]);
    if data.Failure? { return Failed(data.error); }
    return Parsed(Request(raw[5], data.value), start + n);
  }
}
