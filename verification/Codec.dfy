/** The wire format of protocol v0.0.0: what a frame is, and how it is read.
    Printing and parsing are inverse to each other, whatever bytes follow. */
module Codec {
  import opened Bytes
  import opened Requests
  import opened VarInt
  import opened Serialize

  const MAGIC: bytes := [70, 83, 80, 95] // "FSP_"
  const PACKET_SIZE: nat := 4096

  // ----- what is written -----------------------------------------------------

  function Str(s: bytes): bytes { Encode(|s|) + s }

  function Entry(f: FileInfo): bytes { Str(f.path) + [ToChar(f.fileType)] }

  function Files(files: seq<FileInfo>): bytes {
    if files == [] then [] else Entry(files[0]) + Files(files[1..])
  }

  function Payload(d: Data): bytes {
    match d
    case Response(status) => [ToChar(status)]
    case SendFile(path, algorithm, hash, updated, size, total) =>
      Str(path) + [algorithm.Code()] + hash + Digits(updated, 8) + Encode(size) + Encode(total)
    case ReceiveFile(path, _, start) => Str(path) + Encode(PACKET_SIZE) + Encode(start)
    case ListFiles(path) => Str(path)
    case FileList(id, packet, files) => [id] + Encode(packet) + Encode(|files|) + Files(files)
    case DataPacket(id, packet, data) => [id] + Encode(packet) + Encode(|data|) + data
    case _ => []
  }

  predicate Implemented(d: Data) {
    !d.SupportedVersions? && !d.SelectedVersion? && !d.PairRequest? && !d.AcceptPairRequest?
  }

  /** What the C++ types guarantee: 64-bit counters, strings that fit in memory
      and enumerations that fit in a `char`. */
  predicate Typed(d: Data) {
    && |Payload(d)| < U64
    && match d
       case Response(status) => FitsChar(status)
       case SendFile(_, _, _, updated, size, total) => updated < U64 && size < U64 && total < U64
       case ReceiveFile(_, size, start) => size < U64 && start < U64
       case FileList(_, packet, files) =>
         packet < U64 && forall f :: f in files ==> FitsChar(f.fileType)
       case DataPacket(_, packet, _) => packet < U64
       case _ => true
  }

  predicate DigestFits(d: Data) { d.SendFile? ==> |d.filehash| == d.algorithm.Size() }

  predicate Sendable(r: Request) { Implemented(r.data) && Typed(r.data) && DigestFits(r.data) }

  function Header(r: Request): bytes { MAGIC + [Code(r.data)] + [r.messageId] }

  function Frame(r: Request): bytes {
    Header(r) + Encode(|Payload(r.data)|) + Payload(r.data)
  }

  /** What printing a request gives: its frame, or the exception thrown. */
  function Print(r: Request): Result<bytes> {
    if r.data.PairRequest? || r.data.AcceptPairRequest? then Failure(NotImplemented)
    else if !Implemented(r.data) then Failure(UnknownCommand)
    else if !DigestFits(r.data) then Failure(WrongHashSize)
    else Success(Frame(r))
  }

  /** What the receiver gets: the packet size of RECEIVE_FILE is not sent. */
  function Received(d: Data): Data {
    if d.ReceiveFile? then d.(packetSize := PACKET_SIZE) else d
  }

  function Delivered(r: Request): Request { r.(data := Received(r.data)) }

  // ----- what is read --------------------------------------------------------

  function ReadString(input: bytes): (r: Result<(bytes, bytes)>)
    ensures r.Success? ==> |r.value.1| < |input|
  {
    var (n, rest) :- ReadNumber(input);
    if |rest| < n then Failure(BadRequest) else Success((rest[..n], rest[n..]))
  }

  function ParseResponse(p: bytes): Result<Data> {
    if p == [] then Failure(BadRequest) else Success(Response(FromChar(p[0])))
  }

  /** The digest and its algorithm; what follows has room for eight bytes and one more. */
  function ReadHash(p: bytes): (r: Result<(HashAlgorithm, bytes, bytes)>)
    ensures r.Success? ==> |r.value.2| >= 9
  {
    if p == [] then Failure(BadRequest)
    else
      match AlgorithmOf(p[0])
      case None => Failure(UnknownHash)
      case Some(algorithm) =>
        var n := algorithm.Size();
        if |p| < 1 + n + 8 + 1 then Failure(BadRequest) else Success((algorithm, p[1..1 + n], p[1 + n..]))
  }

  function ParseSendFile(p: bytes): Result<Data> {
    var (path, p1) :- ReadString(p);
    var (algorithm, hash, p2) :- ReadHash(p1);
    var (size, p3) :- ReadNumber(p2[8..]);
    var (total, _) :- ReadNumber(p3);
    Success(SendFile(path, algorithm, hash, Number(p2[..8]), size, total))
  }

  function ParseReceiveFile(p: bytes): Result<Data> {
    var (path, p1) :- ReadString(p);
    var (size, p2) :- ReadNumber(p1);
    var (start, _) :- ReadNumber(p2);
    Success(ReceiveFile(path, size, start))
  }

  function ParseListFiles(p: bytes): Result<Data> {
    var (path, _) :- ReadString(p);
    Success(ListFiles(path))
  }

  /** One entry: the size test adds one to a 64-bit number, which may wrap. */
  function ParseFile(p: bytes): (r: Result<(FileInfo, bytes)>)
    ensures r.Success? ==> |r.value.1| < |p|
  {
    var (n, rest) :- ReadNumber(p);
    if |rest| < (n + 1) % U64 then Failure(BadRequest)
    else if |rest| < n + 1 then Failure(OutOfRange)
    else Success((FileInfo(rest[..n], FromChar(rest[n])), rest[n + 1..]))
  }

  function ParseFiles(p: bytes, n: nat): Result<seq<FileInfo>>
    decreases n
  {
    if n == 0 then Success([])
    else
      var (file, rest) :- ParseFile(p);
      var files :- ParseFiles(rest, n - 1);
      Success([file] + files)
  }

  function ParseFileList(p: bytes): Result<Data> {
    if p == [] then Failure(OutOfRange)
    else
      var (packet, p1) :- ReadNumber(p[1..]);
      var (count, p2) :- ReadNumber(p1);
      var files :- ParseFiles(p2, count);
      Success(FileList(p[0], packet, files))
  }

  function ParseDataPacket(p: bytes): Result<Data> {
    if p == [] then Failure(OutOfRange)
    else
      var (packet, p1) :- ReadNumber(p[1..]);
      var (data, _) :- ReadString(p1);
      Success(DataPacket(p[0], packet, data))
  }

  function ParsePayload(code: byte, p: bytes): Result<Data> {
    if code == 0x00 then ParseResponse(p)
    else if code == 0x10 then ParseSendFile(p)
    else if code == 0x11 then ParseReceiveFile(p)
    else if code == 0x20 then ParseListFiles(p)
    else if code == 0x21 then ParseFileList(p)
    else if code == 0x30 then Success(Ping)
    else if code == 0x42 then ParseDataPacket(p)
    else if code == 0x50 || code == 0x51 then Failure(NotImplemented)
    else Failure(UnknownCommand)
  }

  datatype Parse =
    | Incomplete
    | Parsed(request: Request, consumed: nat)
    | Failed(error: Error)

  /** At most eight bytes of size. */
  function SizeField(raw: bytes): bytes
    requires |raw| >= 6
  {
    raw[6..if |raw| < 14 then |raw| else 14]
  }

  function ParseRequest(raw: bytes): (r: Parse)
    ensures r.Parsed? ==> 7 <= r.consumed <= |raw|
  {
    if |raw| < 6 then Incomplete
    else if raw[..4] != MAGIC then Failed(MissingMagic)
    else
      match Scan(SizeField(raw))
      case None => Failed(MessageTooLong)
      case Some((size, _)) =>
        var start := 6 + |size|;
        var end := start + Value(size);
        if |raw| < end then Incomplete
        else
          match ParsePayload(raw[4], raw[start..end])
          case Failure(e) => Failed(e)
          case Success(d) => Parsed(Request(raw[5], d), end)
  }

  // ----- payload round trips -------------------------------------------------

  lemma ReadStr(s: bytes, rest: bytes)
    requires |s| < U64
    ensures ReadString(Str(s) + rest) == Success((s, rest))
  {
    assert Str(s) + rest == Encode(|s|) + (s + rest);
    ReadEncoded(|s|, s + rest);
  }

  lemma CharRoundTrip(x: int)
    ensures FromChar(ToChar(x)) == x <==> FitsChar(x)
  {
  }

  lemma ReadHashed(algorithm: HashAlgorithm, hash: bytes, rest: bytes)
    requires |hash| == algorithm.Size() && |rest| >= 9
    ensures ReadHash([algorithm.Code()] + hash + rest) == Success((algorithm, hash, rest))
  {
    var p := [algorithm.Code()] + hash + rest;
    assert p[1..1 + algorithm.Size()] == hash;
    assert p[1 + algorithm.Size()..] == rest;
  }

  lemma RoundTripSendFile(d: Data)
    requires d.SendFile? && Typed(d) && DigestFits(d)
    ensures ParsePayload(Code(d), Payload(d)) == Success(Received(d))
  {
    var SendFile(path, algorithm, hash, updated, size, total) := d;
    var p4 := Encode(total);
    var p3 := Encode(size) + p4;
    var p2 := Digits(updated, 8) + p3;
    var p1 := [algorithm.Code()] + hash + p2;
    Regroup(Str(path), [algorithm.Code()], hash, Digits(updated, 8), Encode(size), p4);
    ReadStr(path, p1);
    ReadHashed(algorithm, hash, p2);
    assert p2[8..] == p3 && p2[..8] == Digits(updated, 8);
    EightBytes();
    NumberOfDigits(updated, 8);
    ReadEncoded(size, p4);
    assert p4 + [] == p4;
    ReadEncoded(total, []);
  }

  lemma Regroup(a: bytes, b: bytes, c: bytes, d: bytes, e: bytes, f: bytes)
    ensures a + b + c + d + e + f == a + (b + c + (d + (e + f)))
  {
  }

  lemma RoundTripReceiveFile(d: Data)
    requires d.ReceiveFile? && Typed(d)
    ensures ParsePayload(Code(d), Payload(d)) == Success(Received(d))
  {
    var p2 := Encode(d.packetStart);
    var p1 := Encode(PACKET_SIZE) + p2;
    assert Payload(d) == Str(d.filepath) + p1;
    ReadStr(d.filepath, p1);
    ReadEncoded(PACKET_SIZE, p2);
    assert p2 == Encode(d.packetStart) + [];
    ReadEncoded(d.packetStart, []);
  }

  lemma ReadEntry(f: FileInfo, rest: bytes)
    requires |f.path| < U64 - 1 && FitsChar(f.fileType)
    ensures ParseFile(Entry(f) + rest) == Success((f, rest))
  {
    var tail := f.path + ([ToChar(f.fileType)] + rest);
    assert Entry(f) + rest == Encode(|f.path|) + tail;
    ReadEncoded(|f.path|, tail);
    assert tail[..|f.path|] == f.path && tail[|f.path| + 1..] == rest;
    CharRoundTrip(f.fileType);
  }

  lemma {:induction false} RoundTripFiles(files: seq<FileInfo>)
    requires |Files(files)| < U64
    requires forall f :: f in files ==> FitsChar(f.fileType)
    ensures ParseFiles(Files(files), |files|) == Success(files)
    ensures |files| <= |Files(files)|
  {
    if files != [] {
      assert |Entry(files[0])| >= |files[0].path| + 2;
      ReadEntry(files[0], Files(files[1..]));
      RoundTripFiles(files[1..]);
      assert files == [files[0]] + files[1..];
    }
  }

  lemma RoundTripFileList(d: Data)
    requires d.FileList? && Typed(d)
    ensures ParsePayload(Code(d), Payload(d)) == Success(Received(d))
  {
    var p2 := Files(d.files);
    var p1 := Encode(|d.files|) + p2;
    RoundTripFiles(d.files);
    ReadEncoded(d.packetId, p1);
    ReadEncoded(|d.files|, p2);
    ParsedFileList(d, Encode(d.packetId), Encode(|d.files|), p2);
  }

  lemma ParsedFileList(d: Data, id: bytes, count: bytes, files: bytes)
    requires d.FileList?
    requires ReadNumber(id + (count + files)) == Success((d.packetId, count + files))
    requires ReadNumber(count + files) == Success((|d.files|, files))
    requires ParseFiles(files, |d.files|) == Success(d.files)
    ensures ParseFileList([d.requestId] + id + count + files) == Success(d)
  {
    hide ReadNumber, ParseFiles;
    var p := [d.requestId] + id + count + files;
    assert p[1..] == id + (count + files);
  }

  lemma RoundTripDataPacket(d: Data)
    requires d.DataPacket? && Typed(d)
    ensures ParsePayload(Code(d), Payload(d)) == Success(Received(d))
  {
    var p1 := Str(d.data) + [];
    assert Payload(d) == [d.requestId] + (Encode(d.packetId) + p1);
    ReadEncoded(d.packetId, p1);
    ReadStr(d.data, []);
  }

  lemma RoundTripListFiles(d: Data)
    requires d.ListFiles? && Typed(d)
    ensures ParsePayload(Code(d), Payload(d)) == Success(Received(d))
  {
    assert Payload(d) == Str(d.folderpath) + [];
    ReadStr(d.folderpath, []);
  }

  lemma RoundTripByte(d: Data)
    requires (d.Response? || d.Ping?) && Typed(d)
    ensures ParsePayload(Code(d), Payload(d)) == Success(Received(d))
  {
    if d.Response? { CharRoundTrip(d.status); }
  }

  lemma RoundTripPayload(d: Data)
    requires Implemented(d) && Typed(d) && DigestFits(d)
    ensures ParsePayload(Code(d), Payload(d)) == Success(Received(d))
  {
    if d.SendFile? { RoundTripSendFile(d); }
    else if d.ReceiveFile? { RoundTripReceiveFile(d); }
    else if d.ListFiles? { RoundTripListFiles(d); }
    else if d.FileList? { RoundTripFileList(d); }
    else if d.DataPacket? { RoundTripDataPacket(d); }
    else { RoundTripByte(d); }
  }

  // ----- frame round trip ----------------------------------------------------

  /** The size field is found at once when it has at most eight bytes. */
  lemma ScanSize(raw: bytes, size: bytes, rest: bytes)
    requires |raw| >= 6 && raw[6..] == size + rest
    requires Terminated(size)
    ensures |size| <= 8 ==> Scan(SizeField(raw)).Some? && Scan(SizeField(raw)).value.0 == size
    ensures |size| > 8 ==> Scan(SizeField(raw)).None?
  {
    var field := SizeField(raw);
    assert field == raw[6..][..|field|];
    if |size| <= 8 {
      assert field == size + rest[..|field| - |size|];
      ScanTerminated(size, rest[..|field| - |size|]);
    } else {
      assert field == size[..8];
      ScanUnterminated(field);
    }
  }

  /** Payloads of 2^56 bytes and more need a nine-byte size. */
  predicate ShortEnough(r: Request) { |Payload(r.data)| < 0x100_0000_0000_0000 }

  lemma SizeBytes(r: Request)
    ensures |Encode(|Payload(r.data)|)| <= 8 <==> ShortEnough(r)
  {
    EncodeLength(|Payload(r.data)|, 8);
    SmallShifts();
  }

  /** Whatever follows a frame, parsing yields the request and stops at the
      frame's end, exactly when the payload is below 2^56 bytes. */
  lemma FrameRoundTrip(r: Request, rest: bytes)
    requires Sendable(r)
    ensures ShortEnough(r) ==> ParseRequest(Frame(r) + rest) == Parsed(Delivered(r), |Frame(r)|)
    ensures !ShortEnough(r) ==> ParseRequest(Frame(r) + rest) == Failed(MessageTooLong)
  {
    var raw, p := Frame(r) + rest, Payload(r.data);
    var size := Encode(|p|);
    EncodeCorrect(|p|);
    FrameParts(r, rest);
    ScanSize(raw, size, p + rest);
    SizeBytes(r);
    if ShortEnough(r) {
      RoundTripPayload(r.data);
    }
  }

  lemma FrameParts(r: Request, rest: bytes)
    ensures var raw, p := Frame(r) + rest, Payload(r.data);
      var start := 6 + |Encode(|p|)|;
      && raw[..4] == MAGIC && raw[4] == Code(r.data) && raw[5] == r.messageId
      && raw[6..] == Encode(|p|) + (p + rest)
      && start + |p| == |Frame(r)| && raw[start..start + |p|] == p
  {
    var raw, p := Frame(r) + rest, Payload(r.data);
    var size := Encode(|p|);
    assert |Header(r)| == 6;
    assert raw == Header(r) + (size + (p + rest));
    assert raw[6..] == size + (p + rest);
    assert raw[..4] == MAGIC;
    assert raw[6 + |size|..6 + |size| + |p|] == p;
  }

  /** A request comes back unchanged exactly when it is short enough and, for
      RECEIVE_FILE, asked for the one packet size the format can carry. */
  lemma ReturnsUnchangedIff(r: Request, rest: bytes)
    requires Sendable(r)
    ensures ParseRequest(Frame(r) + rest) == Parsed(r, |Frame(r)|)
      <==> ShortEnough(r) && (r.data.ReceiveFile? ==> r.data.packetSize == PACKET_SIZE)
  {
    FrameRoundTrip(r, rest);
  }

  /** No frame is a prefix of another: the bytes fix the request and its end. */
  lemma PrefixFree(r1: Request, rest1: bytes, r2: Request, rest2: bytes)
    requires Sendable(r1) && ShortEnough(r1) && Sendable(r2) && ShortEnough(r2)
    requires Frame(r1) + rest1 == Frame(r2) + rest2
    ensures Delivered(r1) == Delivered(r2) && Frame(r1) == Frame(r2) && rest1 == rest2
  {
    FrameRoundTrip(r1, rest1);
    FrameRoundTrip(r2, rest2);
    var raw := Frame(r1) + rest1;
    assert Frame(r1) == raw[..|Frame(r1)|] == Frame(r2);
    assert rest1 == raw[|Frame(r1)|..] == rest2;
  }

  function Stream(rs: seq<Request>): bytes {
    if rs == [] then [] else Frame(rs[0]) + Stream(rs[1..])
  }

  function DeliveredAll(rs: seq<Request>): seq<Request> {
    if rs == [] then [] else [Delivered(rs[0])] + DeliveredAll(rs[1..])
  }

  predicate AllSendable(rs: seq<Request>) {
    forall r :: r in rs ==> Sendable(r) && ShortEnough(r)
  }

  /** A byte stream has at most one reading as a list of requests. */
  lemma {:induction false} UniquelyDecodable(rs1: seq<Request>, rs2: seq<Request>)
    requires AllSendable(rs1) && AllSendable(rs2)
    requires Stream(rs1) == Stream(rs2)
    ensures DeliveredAll(rs1) == DeliveredAll(rs2)
  {
    if rs1 != [] && rs2 != [] {
      PrefixFree(rs1[0], Stream(rs1[1..]), rs2[0], Stream(rs2[1..]));
      UniquelyDecodable(rs1[1..], rs2[1..]);
    }
  }

  // ----- partial frames ------------------------------------------------------

  /** Where a cut inside a frame is an error rather than a wait. */
  predicate CutInSize(r: Request, k: nat) {
    6 <= k < 6 + |Encode(|Payload(r.data)|)|
  }

  /** A strict prefix of a frame parses to "wait for more", except when it ends
      in the size field. */
  lemma PartialFrame(r: Request, k: nat)
    requires Sendable(r) && ShortEnough(r) && k < |Frame(r)|
    ensures ParseRequest(Frame(r)[..k]) == if CutInSize(r, k) then Failed(MessageTooLong) else Incomplete
  {
    if k >= 6 {
      hide Encode, Scan, Value, ParsePayload, Typed;
      var raw, p := Frame(r)[..k], Payload(r.data);
      var size := Encode(|p|);
      EncodeCorrect(|p|);
      PartialParts(r, k);
      SizeBytes(r);
      if CutInSize(r, k) {
        assert SizeField(raw) == raw[6..];
        ScanUnterminated(raw[6..]);
      } else {
        ScanSize(raw, size, p[..k - 6 - |size|]);
      }
    }
  }

  lemma PartialParts(r: Request, k: nat)
    requires 6 <= k < |Frame(r)|
    ensures var raw, p := Frame(r)[..k], Payload(r.data);
      var size := Encode(|p|);
      && raw[..4] == MAGIC && |Frame(r)| == 6 + |size| + |p|
      && raw[6..] == if k < 6 + |size| then size[..k - 6] else size + p[..k - 6 - |size|]
  {
    hide Encode, Payload;
    var raw, p := Frame(r)[..k], Payload(r.data);
    var size := Encode(|p|);
    FrameParts(r, []);
    assert Frame(r) + [] == Frame(r) && p + [] == p;
    assert raw[6..] == (size + p)[..k - 6];
    assert raw[..4] == Frame(r)[..4];
  }

  lemma SizeFieldGrows(raw: bytes, more: bytes)
    requires |raw| >= 6
    ensures SizeField(raw) <= SizeField(raw + more)
  {
  }

  /** More bytes after a parsed frame change nothing. */
  lemma ParsedIsStable(raw: bytes, more: bytes)
    requires ParseRequest(raw).Parsed?
    ensures ParseRequest(raw + more) == ParseRequest(raw)
  {
    hide Scan, Value, ParsePayload;
    var longer := raw + more;
    assert longer[..4] == raw[..4] && longer[4] == raw[4] && longer[5] == raw[5];
    var (size, rest) := Scan(SizeField(raw)).value;
    ScanSplits(SizeField(raw));
    SizeFieldGrows(raw, more);
    var extra := SizeField(longer)[|SizeField(raw)|..];
    assert SizeField(longer) == size + (rest + extra);
    ScanTerminated(size, rest + extra);
    SameSlice(raw, more, 6 + |size|, 6 + |size| + Value(size));
  }

  lemma SameSlice(raw: bytes, more: bytes, start: nat, end: nat)
    requires start <= end <= |raw|
    ensures (raw + more)[start..end] == raw[start..end]
  {
  }
}
