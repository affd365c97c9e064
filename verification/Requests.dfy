/** Requests: a command, its payload and a message id. */
module Requests {
  import opened Bytes

  type MessageId = byte

  // Status codes, in the `int` the source gives the enumeration.
  type Status = int
  const STATUS_OK: Status := 0x00
  const UP_TO_DATE: Status := 0x22
  const APPROVAL_PENDING: Status := 0x33
  const BAD_REQUEST: Status := 0x40
  const UNAUTHORIZED: Status := 0x41
  const INVALID_REQUEST_ID: Status := 0x42
  const FILE_NOT_FOUND: Status := 0x44

  const FILE: int := 0
  const DIRECTORY: int := 1

  datatype HashAlgorithm = MD5 | SHA256 | SHA512 {
    function Code(): byte {
      match this case MD5 => 1 case SHA256 => 2 case SHA512 => 3
    }

    function Size(): nat {
      match this case MD5 => 16 case SHA256 => 32 case SHA512 => 64
    }
  }

  function AlgorithmOf(code: byte): Option<HashAlgorithm> {
    if code == 1 then Some(MD5) else if code == 2 then Some(SHA256) else if code == 3 then Some(SHA512) else None
  }

  datatype FileInfo = FileInfo(path: bytes, fileType: int)

  datatype Data =
    | Response(status: Status)
    | SupportedVersions(versions: seq<nat>)
    | SelectedVersion(version: nat)
    | SendFile(filepath: bytes, algorithm: HashAlgorithm, filehash: bytes,
               lastUpdated: nat, packetSize: nat, totalPackets: nat)
    | ReceiveFile(filepath: bytes, packetSize: nat, packetStart: nat)
    | ListFiles(folderpath: bytes)
    | FileList(requestId: MessageId, packetId: nat, files: seq<FileInfo>)
    | Ping
    | DataPacket(requestId: MessageId, packetId: nat, data: bytes)
    | PairRequest
    | AcceptPairRequest

  datatype Request = Request(messageId: MessageId, data: Data)

  function Code(d: Data): byte {
    match d
    case Response(_) => 0x00
    case SupportedVersions(_) => 0x01
    case SelectedVersion(_) => 0x02
    case SendFile(_, _, _, _, _, _) => 0x10
    case ReceiveFile(_, _, _) => 0x11
    case ListFiles(_) => 0x20
    case FileList(_, _, _) => 0x21
    case Ping => 0x30
    case DataPacket(_, _, _) => 0x42
    case PairRequest => 0x50
    case AcceptPairRequest => 0x51
  }

  /** `static_cast<char>` of an `int`, seen as the byte written. */
  function ToChar(x: int): byte { x % 256 }

  /** A plain (signed) `char` widened to `int`. */
  function FromChar(b: byte): int { if b < 128 then b else b - 256 }

  /** The values whose cast to `char` loses nothing. */
  predicate FitsChar(x: int) { -128 <= x < 128 }
}
