/** The bytes of each message: which number stands where, and examples byte for byte. */
module Layout {
  import opened Bytes
  import opened Requests
  import opened VarInt
  import opened Serialize
  import opened Codec

  /** These bytes are this number, in the shortest form. */
  predicate IsNumber(bs: bytes, v: nat) { Shortest(bs) && Value(bs) == v }

  /** These eight bytes are this number, least significant first. */
  predicate IsFixed(bs: bytes, v: nat) { |bs| == 8 && Number(bs) == v }

  lemma EncodedIs(v: nat)
    ensures IsNumber(Encode(v), v)
  {
    EncodeCorrect(v);
  }

  /** "FSP_", the command, the id, the size of the payload, the payload. */
  lemma FrameIs(r: Request) returns (size: bytes)
    ensures IsNumber(size, |Payload(r.data)|)
    ensures Frame(r) == [70, 83, 80, 95, Code(r.data), r.messageId] + size + Payload(r.data)
  {
    size := Encode(|Payload(r.data)|);
    EncodedIs(|Payload(r.data)|);
    assert Header(r) == [70, 83, 80, 95, Code(r.data), r.messageId];
  }

  lemma SendFileIs(d: Data) returns (name: bytes, date: bytes, size: bytes, total: bytes)
    requires d.SendFile? && d.lastUpdated < U64
    ensures IsNumber(name, |d.filepath|) && IsFixed(date, d.lastUpdated)
    ensures IsNumber(size, d.packetSize) && IsNumber(total, d.totalPackets)
    ensures Payload(d) == name + d.filepath
      + [match d.algorithm case MD5 => 1 case SHA256 => 2 case SHA512 => 3] + d.filehash + date + size + total
  {
    name, date := Encode(|d.filepath|), Digits(d.lastUpdated, 8);
    size, total := Encode(d.packetSize), Encode(d.totalPackets);
    EncodedIs(|d.filepath|);
    EncodedIs(d.packetSize);
    EncodedIs(d.totalPackets);
    EightBytes();
    NumberOfDigits(d.lastUpdated, 8);
  }

  lemma ReceiveFileIs(d: Data) returns (name: bytes, size: bytes, start: bytes)
    requires d.ReceiveFile?
    ensures IsNumber(name, |d.filepath|) && IsNumber(size, 4096) && IsNumber(start, d.packetStart)
    ensures Payload(d) == name + d.filepath + size + start
  {
    name, size, start := Encode(|d.filepath|), Encode(PACKET_SIZE), Encode(d.packetStart);
    EncodedIs(|d.filepath|);
    EncodedIs(PACKET_SIZE);
    EncodedIs(d.packetStart);
  }

  lemma DataPacketIs(d: Data) returns (packet: bytes, size: bytes)
    requires d.DataPacket?
    ensures IsNumber(packet, d.packetId) && IsNumber(size, |d.data|)
    ensures Payload(d) == [d.requestId] + packet + size + d.data
  {
    packet, size := Encode(d.packetId), Encode(|d.data|);
    EncodedIs(d.packetId);
    EncodedIs(|d.data|);
  }

  lemma FileListIs(d: Data) returns (packet: bytes, count: bytes)
    requires d.FileList?
    ensures IsNumber(packet, d.packetId) && IsNumber(count, |d.files|)
    ensures Payload(d) == [d.requestId] + packet + count + Files(d.files)
  {
    packet, count := Encode(d.packetId), Encode(|d.files|);
    EncodedIs(d.packetId);
    EncodedIs(|d.files|);
  }

  /** Each entry: its path behind its size, and one byte for its type. */
  lemma FilesIs(files: seq<FileInfo>) returns (size: bytes)
    requires files != []
    ensures IsNumber(size, |files[0].path|)
    ensures Files(files) == size + files[0].path + [files[0].fileType % 256] + Files(files[1..])
  {
    size := Encode(|files[0].path|);
    EncodedIs(|files[0].path|);
  }

  // ----- examples --------------------------------------------------------------------

  lemma Small(v: nat)
    ensures v < 128 ==> Encode(v) == [v]
    ensures Encode(300) == [0xAC, 0x02] && Encode(4096) == [0x80, 0x20]
  {
    OneMoreGroup(2, 44);
    OneMoreGroup(32, 0);
  }

  lemma OneMoreGroup(v: nat, low: nat)
    requires v > 0 && low < 128
    ensures Encode(128 * v + low) == [128 + low] + Encode(v)
  {
    assert (128 * v + low) / 128 == v && (128 * v + low) % 128 == low;
  }

  lemma OneMoreDigit(v: nat, low: byte, n: nat)
    ensures Digits(256 * v + low, n + 1) == [low] + Digits(v, n)
  {
    assert (256 * v + low) / 256 == v && (256 * v + low) % 256 == low;
  }

  /** Numbers, byte for byte. */
  lemma NumberExamples()
    ensures Encode(0) == [0] && Encode(127) == [127] && Encode(128) == [0x80, 0x01]
    ensures Encode(300) == [0xAC, 0x02] && Encode(16384) == [0x80, 0x80, 0x01]
    ensures Digits(0x0102030405060708, 8) == [8, 7, 6, 5, 4, 3, 2, 1]
  {
    hide Encode, Digits;
    Small(0);
    Small(1);
    Small(127);
    OneMoreGroup(1, 0);
    OneMoreGroup(128, 0);
    DigitsExample();
  }

  lemma DigitsExample()
    ensures Digits(0x0102030405060708, 8) == [8, 7, 6, 5, 4, 3, 2, 1]
  {
    var four := FourDigits();
    hide Digits;
    OneMoreDigit(four, 5, 4);
    OneMoreDigit(256 * four + 5, 6, 5);
    OneMoreDigit(256 * (256 * four + 5) + 6, 7, 6);
    OneMoreDigit(256 * (256 * (256 * four + 5) + 6) + 7, 8, 7);
  }

  lemma FourDigits() returns (v: nat)
    ensures v == 0x01020304 && Digits(v, 4) == [4, 3, 2, 1]
  {
    assert Digits(0, 0) == [];
    hide Digits;
    OneMoreDigit(0, 1, 0);
    OneMoreDigit(1, 2, 1);
    OneMoreDigit(0x0102, 3, 2);
    OneMoreDigit(0x010203, 4, 3);
    v := 0x01020304;
  }

  lemma ShortFrame(r: Request, payload: bytes)
    requires Payload(r.data) == payload && |payload| < 128
    ensures Frame(r) == [70, 83, 80, 95, Code(r.data), r.messageId, |payload|] + payload
  {
    Small(|payload|);
    hide Payload, Encode;
    assert Header(r) == [70, 83, 80, 95, Code(r.data), r.messageId];
  }

  /** Replies, byte for byte. */
  lemma ReplyExamples()
    ensures Frame(Request(7, Response(STATUS_OK))) == [70, 83, 80, 95, 0x00, 7, 1, 0x00]
    ensures Frame(Request(7, Response(UP_TO_DATE))) == [70, 83, 80, 95, 0x00, 7, 1, 0x22]
    ensures Frame(Request(7, Response(APPROVAL_PENDING))) == [70, 83, 80, 95, 0x00, 7, 1, 0x33]
    ensures Frame(Request(7, Response(BAD_REQUEST))) == [70, 83, 80, 95, 0x00, 7, 1, 0x40]
    ensures Frame(Request(7, Response(UNAUTHORIZED))) == [70, 83, 80, 95, 0x00, 7, 1, 0x41]
    ensures Frame(Request(7, Response(INVALID_REQUEST_ID))) == [70, 83, 80, 95, 0x00, 7, 1, 0x42]
    ensures Frame(Request(7, Response(FILE_NOT_FOUND))) == [70, 83, 80, 95, 0x00, 7, 1, 0x44]
  {
    forall status: Status ensures Frame(Request(7, Response(status))) == [70, 83, 80, 95, 0x00, 7, 1] + [status % 256] {
      ShortFrame(Request(7, Response(status)), [status % 256]);
    }
    hide Frame;
  }

  /** One request of each kind, byte for byte. */
  lemma FrameExamples(digest: bytes)
    requires |digest| == 16
    ensures Frame(Request(7, Ping)) == [70, 83, 80, 95, 0x30, 7, 0]
    ensures Frame(Request(2, ListFiles([97, 47, 98]))) == [70, 83, 80, 95, 0x20, 2, 4] + [3, 97, 47, 98]
    ensures Frame(Request(2, ReceiveFile([97], 4096, 5))) == [70, 83, 80, 95, 0x11, 2, 5] + [1, 97, 0x80, 0x20, 5]
    ensures Frame(Request(2, DataPacket(9, 300, [1, 2, 3])))
         == [70, 83, 80, 95, 0x42, 2, 7] + [9, 0xAC, 0x02, 3, 1, 2, 3]
    ensures Frame(Request(2, FileList(9, 300, [FileInfo([97], FILE), FileInfo([98, 99], DIRECTORY)])))
         == [70, 83, 80, 95, 0x21, 2, 11] + [9, 0xAC, 0x02, 2, 1, 97, 0, 2, 98, 99, 1]
    ensures Frame(Request(2, SendFile([97, 98], MD5, digest, 0x0102030405060708, 300, 4)))
         == [70, 83, 80, 95, 0x10, 2, 31] + ([2, 97, 98, 1] + digest + [8, 7, 6, 5, 4, 3, 2, 1, 0xAC, 0x02, 4])
  {
    PathExamples();
    PacketExample();
    ListExample();
    SendFileExample(digest);
    hide Payload, Frame;
    ShortFrame(Request(7, Ping), []);
    ShortFrame(Request(2, ListFiles([97, 47, 98])), [3, 97, 47, 98]);
    ShortFrame(Request(2, ReceiveFile([97], 4096, 5)), [1, 97, 0x80, 0x20, 5]);
    ShortFrame(Request(2, DataPacket(9, 300, [1, 2, 3])), [9, 0xAC, 0x02, 3, 1, 2, 3]);
    ShortFrame(Request(2, FileList(9, 300, [FileInfo([97], FILE), FileInfo([98, 99], DIRECTORY)])),
               [9, 0xAC, 0x02, 2, 1, 97, 0, 2, 98, 99, 1]);
    ShortFrame(Request(2, SendFile([97, 98], MD5, digest, 0x0102030405060708, 300, 4)),
               [2, 97, 98, 1] + digest + [8, 7, 6, 5, 4, 3, 2, 1, 0xAC, 0x02, 4]);
  }

  lemma PathExamples()
    ensures Payload(Ping) == [] && Payload(ListFiles([97, 47, 98])) == [3, 97, 47, 98]
    ensures Payload(ReceiveFile([97], 4096, 5)) == [1, 97, 0x80, 0x20, 5]
  {
    Small(1);
    Small(3);
    Small(5);
    hide Encode;
  }

  lemma PacketExample()
    ensures Payload(DataPacket(9, 300, [1, 2, 3])) == [9, 0xAC, 0x02, 3, 1, 2, 3]
  {
    Small(3);
    hide Encode;
  }

  lemma SendFileExample(digest: bytes)
    requires |digest| == 16
    ensures Payload(SendFile([97, 98], MD5, digest, 0x0102030405060708, 300, 4))
         == [2, 97, 98, 1] + digest + [8, 7, 6, 5, 4, 3, 2, 1, 0xAC, 0x02, 4]
  {
    Small(2);
    Small(4);
    NumberExamples();
    hide Encode, Digits;
  }

  lemma ListExample()
    ensures Payload(FileList(9, 300, [FileInfo([97], FILE), FileInfo([98, 99], DIRECTORY)]))
         == [9, 0xAC, 0x02, 2, 1, 97, 0, 2, 98, 99, 1]
  {
    Small(1);
    Small(2);
    hide Encode;
    var files := [FileInfo([97], FILE), FileInfo([98, 99], DIRECTORY)];
    assert files[1..] == [files[1]] && [files[1]][1..] == [];
    assert Files([files[1]]) == [2, 98, 99, 1];
    assert Files(files) == [1, 97, 0] + [2, 98, 99, 1];
  }

  // ----- bytes that are no message -----------------------------------------------------

  /** Fewer than six bytes are waited for; others must begin with "FSP_"; the size must end
      within eight bytes, here already; and then the payload is waited for. */
  lemma HeaderIs(raw: bytes)
    ensures |raw| < 6 ==> ParseRequest(raw) == Incomplete
    ensures |raw| >= 6 && raw[..4] != [70, 83, 80, 95] ==> ParseRequest(raw) == Failed(MissingMagic)
    ensures |raw| >= 6 && raw[..4] == [70, 83, 80, 95] ==>
      (ParseRequest(raw) == Failed(MessageTooLong)
       <==> forall i :: 6 <= i < |raw| && i < 14 ==> raw[i] >= 128)
  {
    if |raw| >= 6 && raw[..4] == [70, 83, 80, 95] {
      assert raw[..4] == MAGIC;
      var field := SizeField(raw);
      ScanNone(field);
      assert forall i :: 0 <= i < |field| ==> field[i] == raw[6 + i];
      PayloadErrors(raw[4]);
      if forall i :: 0 <= i < |field| ==> field[i] >= 128 {
        forall i | 6 <= i < |raw| && i < 14 ensures raw[i] >= 128 { assert field[i - 6] == raw[i]; }
      }
    }
  }

  lemma {:induction false} ScanNone(bs: bytes)
    ensures Scan(bs).None? <==> forall i :: 0 <= i < |bs| ==> bs[i] >= 128
  {
    if bs != [] {
      ScanNone(bs[1..]);
      assert bs[0] >= 128 && (forall i :: 0 <= i < |bs[1..]| ==> bs[1..][i] >= 128)
        ==> forall i :: 0 <= i < |bs| ==> bs[i] >= 128;
      forall i | 0 <= i < |bs[1..]| ensures bs[1..][i] == bs[i + 1] {}
    }
  }

  /** The exceptions of the payload parsers. */
  lemma {:induction false} FilesErrors(p: bytes, n: nat)
    ensures ParseFiles(p, n).Failure? ==> ParseFiles(p, n).error in {BadRequest, NumberTooBig, OutOfRange}
    decreases n
  {
    if n > 0 && ParseFile(p).Success? { FilesErrors(ParseFile(p).value.1, n - 1); }
  }

  lemma NumberErrors()
    ensures forall p :: ReadNumber(p).Failure? ==> ReadNumber(p).error in {BadRequest, NumberTooBig}
  {
  }

  lemma PayloadErrors(code: byte)
    ensures forall p :: ParsePayload(code, p).Failure? ==> ParsePayload(code, p).error != MessageTooLong
  {
    NumberErrors();
    hide ReadNumber, ParseFiles;
    forall p | ParsePayload(code, p).Failure? ensures ParsePayload(code, p).error != MessageTooLong {
      if code == 0x21 && p != [] && ReadNumber(p[1..]).Success? {
        var p1 := ReadNumber(p[1..]).value.1;
        if ReadNumber(p1).Success? { FilesErrors(ReadNumber(p1).value.1, ReadNumber(p1).value.0); }
      }
    }
  }

  /** Commands without a parser. */
  lemma CommandErrors(code: byte, p: bytes)
    ensures code == 0x50 || code == 0x51 ==> ParsePayload(code, p) == Failure(NotImplemented)
    ensures code !in {0x00, 0x10, 0x11, 0x20, 0x21, 0x30, 0x42, 0x50, 0x51} ==>
      ParsePayload(code, p) == Failure(UnknownCommand)
    ensures code == 0x30 ==> ParsePayload(code, p) == Success(Ping)
  {
  }

  lemma OneByte(b: byte, rest: bytes)
    requires b < 128
    ensures ReadNumber([b] + rest) == Success((b, rest))
  {
    var input := [b] + rest;
    assert input[..1] == [b] && input[1..] == rest && [b][1..] == [];
    assert Value([b]) == b;
  }

  lemma NoNumber()
    ensures ReadNumber([]) == Failure(BadRequest)
  {
  }

  lemma OneString(s: bytes, rest: bytes)
    requires |s| < 128
    ensures ReadString([|s|] + s + rest) == Success((s, rest))
  {
    OneByte(|s|, s + rest);
    assert [|s|] + s + rest == [|s|] + (s + rest);
    assert (s + rest)[..|s|] == s && (s + rest)[|s|..] == rest;
  }

  /** Replies, as they are read: one byte, signed; what follows is ignored. */
  lemma ReplyRead(p: bytes)
    ensures p == [] ==> ParsePayload(0x00, p) == Failure(BadRequest)
    ensures p != [] ==> var b: int := p[0];
      ParsePayload(0x00, p) == Success(Response(if b < 128 then b else b - 256))
  {
  }

  /** Paths that are shorter or longer than they say. */
  lemma PathErrors(n: byte, p: bytes)
    requires n < 128
    ensures ParsePayload(0x20, [n] + p) == if |p| < n then Failure(BadRequest) else Success(ListFiles(p[..n]))
    ensures |p| < n ==> ParsePayload(0x10, [n] + p) == ParsePayload(0x11, [n] + p) == Failure(BadRequest)
  {
    OneByte(n, p);
    hide ReadNumber;
  }

  /** RECEIVE_FILE needs both its numbers, and ignores what follows. */
  lemma ReceiveFileRead(s: bytes, size: byte, start: byte, more: bytes)
    requires |s| < 128 && size < 128 && start < 128
    ensures ParsePayload(0x11, [|s|] + s + []) == Failure(BadRequest)
    ensures ParsePayload(0x11, [|s|] + s + ([size] + [])) == Failure(BadRequest)
    ensures ParsePayload(0x11, [|s|] + s + ([size] + ([start] + more))) == Success(ReceiveFile(s, size, start))
  {
    OneString(s, []);
    OneString(s, [size] + []);
    OneString(s, [size] + ([start] + more));
    OneByte(size, []);
    OneByte(size, [start] + more);
    OneByte(start, more);
    NoNumber();
    hide ReadString, ReadNumber;
  }

  /** SEND_FILE: an unknown hash, and a digest that is cut off. */
  lemma SendFileErrors(s: bytes, code: byte, more: bytes)
    requires |s| < 128
    ensures ParsePayload(0x10, [|s|] + s + []) == Failure(BadRequest)
    ensures code !in {1, 2, 3} ==> ParsePayload(0x10, [|s|] + s + ([code] + more)) == Failure(UnknownHash)
    ensures code in {1, 2, 3} && |more| < 9 + (if code == 1 then 16 else if code == 2 then 32 else 64) ==>
      ParsePayload(0x10, [|s|] + s + ([code] + more)) == Failure(BadRequest)
  {
    OneString(s, []);
    OneString(s, [code] + more);
    hide ReadString, ReadNumber;
  }

  /** DATA_PACKET: nothing at all, no number, no size, and less data than it says. */
  lemma DataPacketRead(id: byte, packet: byte, n: byte, p: bytes)
    requires packet < 128 && n < 128
    ensures ParsePayload(0x42, []) == Failure(OutOfRange)
    ensures ParsePayload(0x42, [id]) == Failure(BadRequest)
    ensures ParsePayload(0x42, [id] + ([packet] + [])) == Failure(BadRequest)
    ensures ParsePayload(0x42, [id] + ([packet] + ([n] + p))) ==
      if |p| < n then Failure(BadRequest) else Success(DataPacket(id, packet, p[..n]))
  {
    assert [id][1..] == [] && ([id] + ([packet] + []))[1..] == [packet] + [];
    assert ([id] + ([packet] + ([n] + p)))[1..] == [packet] + ([n] + p);
    OneByte(packet, []);
    OneByte(packet, [n] + p);
    OneByte(n, p);
    NoNumber();
    hide ReadNumber;
  }

  /** FILE_LIST: nothing at all, no number, no count, and fewer entries than it says. */
  lemma FileListErrors(id: byte, packet: byte, n: byte)
    requires packet < 128 && 0 < n < 128
    ensures ParsePayload(0x21, []) == Failure(OutOfRange)
    ensures ParsePayload(0x21, [id]) == Failure(BadRequest)
    ensures ParsePayload(0x21, [id] + ([packet] + [])) == Failure(BadRequest)
    ensures ParsePayload(0x21, [id] + ([packet] + ([n] + []))) == Failure(BadRequest)
    ensures ParsePayload(0x21, [id] + ([packet] + ([0] + []))) == Success(FileList(id, packet, []))
  {
    assert [id][1..] == [] && ([id] + ([packet] + []))[1..] == [packet] + [];
    assert ([id] + ([packet] + ([n] + [])))[1..] == [packet] + ([n] + []);
    assert ([id] + ([packet] + ([0] + [])))[1..] == [packet] + ([0] + []);
    OneByte(packet, []);
    OneByte(packet, [n] + []);
    OneByte(packet, [0] + []);
    OneByte(n, []);
    OneByte(0, []);
    NoNumber();
    hide ReadNumber;
  }

  /** An entry of a FILE_LIST: cut off before its type it throws, and differently where the
      size of its path cannot be counted one further. */
  lemma EntryRead(n: nat, p: bytes)
    requires n < U64 && |p| < U64
    ensures ParseFile(Encode(n) + p) ==
      if |p| > n then Success((FileInfo(p[..n], if p[n] < 128 then p[n] as int else p[n] as int - 256), p[n + 1..]))
      else if n == U64 - 1 then Failure(OutOfRange)
      else Failure(BadRequest)
  {
    ReadEncoded(n, p);
    Wraps(n);
    hide ReadNumber, Encode;
    ParsedFile(Encode(n) + p, n, p);
  }

  lemma Wraps(n: nat)
    requires n < U64
    ensures (n + 1) % U64 == if n == U64 - 1 then 0 else n + 1
  {
  }

  lemma ParsedFile(input: bytes, n: nat, p: bytes)
    requires ReadNumber(input) == Success((n, p)) && |p| < U64
    requires (n + 1) % U64 == if n == U64 - 1 then 0 else n + 1
    ensures ParseFile(input) ==
      if |p| > n then Success((FileInfo(p[..n], if p[n] < 128 then p[n] as int else p[n] as int - 256), p[n + 1..]))
      else if n == U64 - 1 then Failure(OutOfRange)
      else Failure(BadRequest)
  {
    hide ReadNumber;
  }

  /** Which requests are printed, and what the others throw. */
  lemma PrintedIff(r: Request)
    ensures Print(r) == Failure(NotImplemented) <==> r.data.PairRequest? || r.data.AcceptPairRequest?
    ensures Print(r) == Failure(UnknownCommand) <==> r.data.SupportedVersions? || r.data.SelectedVersion?
    ensures Print(r) == Failure(WrongHashSize) <==>
      r.data.SendFile? && |r.data.filehash| != (match r.data.algorithm case MD5 => 16 case SHA256 => 32 case SHA512 => 64)
    ensures Print(r).Success? ==> Print(r).value == Frame(r)
  {
    hide Frame;
  }
}
