# libfsp, verified

A Dafny 4.11 model of libfsp, a peer-to-peer file-sharing library, and proofs about it.
`dafny verify dfyconfig.toml` checks the whole project.

The library cuts requests into frames on a byte stream, numbers them with 8-bit ids that go
round a ring under a budget of 255 open requests, and builds file pushes, file pulls and
folder listings on top. A virtual file tree decides what a peer may see of the host, a server
keeps its connections in an array and three maps, and a small handshake picks a protocol
version.

## How it is laid out

| file | what is in it |
|---|---|
| `Bytes`, `Requests` | bytes, results, the requests and their codes |
| `VarInt`, `Serialize` | LEB128 numbers (section 7.6 of DWARF Version 5) and 8-byte numbers |
| `Codec`, `Layout`, `ProtocolHandler` | the wire format as functions; which number stands where, with examples byte for byte; its printers and parsers as written |
| `Stream` | reassembly of frames from a stream read in pieces, with a handler that may throw |
| `MessageQueue` | ids and slots |
| `Transfers`, `TransferHandlers` | the four transfer handlers, as values and as objects |
| `Paths`, `FileMapping`, `ForbiddenPaths`, `PathNodes` | path components, the virtual tree, its search and walk, forbidden folders, the tree's setters |
| `Peer`, `PeerObject` | what a connected peer does with each message: as functions of its state, and as the object that changes in place |
| `Answers`, `Listed` | the answer to each message and what it changes, in terms of what is on the host; what a listing says, and where its entries lead |
| `Containment` | what the checks of a peer let through: forbidden folders below a mapped one, paths that climb out of it or take a detour |
| `FilePush`, `EndToEnd` | two peers and two channels: pushing a file; the same over bytes |
| `FolderListing` | two peers and two channels: listing a folder |
| `Tokens`, `SlotDiscipline` | two peers doing anything: where the answer to every open request is |
| `Redelivery` | one peer against any bytes, with messages taken in again after an exception |
| `Registry`, `Promotion`, `Trust`, `Server` | the server's registry, whole runs of it, who is trusted and whose key is known, the server object |
| `Handshake`, `PreAuthPeer` | version negotiation, and the object that carries it out |

Code that changes things step by step is a method or a class, and each such method is proved
to compute a function of its inputs or of the old state (`ensures State() == F(old(State()), …)`).
The theorems are about those functions, so that they hold of the methods. What the library
throws is a `Failure` or an error value. `Endless` and `Crash` are two outcomes it does not
throw: a scan that never ends, and a division by zero or a null packet.

A wire is the list of messages written to a socket, and a channel is the part of it the other
side has not taken in; `EndToEnd.PushOverBytes` replaces the list by bytes.

## Properties that do not hold as one might expect

Each has its exact condition, and where it helps a concrete input as well.

- A frame is read back exactly when its payload is below 2^56 bytes; RECEIVE_FILE always comes
  back with packet size 4096 (`Codec.ReturnsUnchangedIff`).
- A read that ends inside a frame's size field throws instead of waiting (`Stream.Reassembly`),
  and an exception, of the parser or of the handling of a request, brings the requests of the
  buffer again (`Stream.ThrowRedelivers`). With any handler, every request is handed over just
  once exactly when no read before the last ends in an exception of the handler, and each that
  ends in one of the parser finds no complete frame in the buffer (`Stream.HandedOverOnceIff`;
  for requests only recorded `Stream.OnceEachIff`, with `Stream.ThrowingReadDispatchesTwice` as
  the input).
- A listing that opens no folder, and a file that cannot be read, throw before they are answered
  (`FolderListing.AnsweredIff`, `Peer.ServedIff`, with `Containment.NoSuchFolder` as the input).
  Such a message is never got past: every later read throws and hands over all that came with it
  once more (`Redelivery.NeverPast`).
- Ten bytes that encode 0 with padding are refused: a number is accepted exactly when its value is
  below 2^64 and it has at most nine bytes or no padding (`VarInt.FitsIff`, `VarInt.PaddedZeroIsRefused`).
- Setting an answered request back to "approval pending" can leave a free slot and no free id,
  and the next send scans for ever (`MessageQueue.ASendCanBeEndless`, exactly when:
  `MessageQueue.ScanEndsIff`).
- A message sets a settled request back exactly when it is a reply that comes late, "approval
  pending" or OK to a RECEIVE_FILE (`Redelivery.SetsBackIff`); slots are conserved over any bytes
  and anything the user does exactly as long as none is taken in (`Redelivery.ConservedIff`). An
  honest peer brings one about by pushing a file that was asked for
  (`SlotDiscipline.PushedPathSetsBack`), and, even with distinct paths, when an exception makes
  its OK arrive again: for want of a slot (`Redelivery.OneRunIsLate`), or because it lists a
  folder that is not there (`Redelivery.ThrownRunIsLate`). So the slot theorems of two peers speak
  of distinct paths and hold until a message that a peer takes in throws.
- Packets that arrive out of order lose the one that opened the first gap
  (`Transfers.RecoveredIffInOrder`); an empty file cannot be received (`FilePush.ReceivedIffNotEmpty`).
- A pushed file is accepted without asking when its path was ever asked for, even if that request
  was refused long ago (`Peer.AcceptedUnaskedIff`).
- A finished lister is never erased, so that a second listing under the same id sends a null
  packet (`FolderListing.ListingCrashesIff`, `FolderListing.SecondListingFails`).
- The forbidden test compares components as they stand, so that what is forbidden can be reached
  through "." and "..". For a virtual path, nothing that is forbidden where the path leads is ever
  served, whatever is forbidden, exactly when the host path leads to a part of itself
  (`Containment.ServedSafelyIff`), and none is ever listed exactly when it leads to a part of the
  path of the node, which alone is tested (`Containment.ListedSafelyIff`). The inputs: a file beside
  the mapped folder (`Containment.ServedAllTheSame`), one in it behind a detour
  (`Containment.DetourAllTheSame`), a folder below it (`Containment.ListedAllTheSame`).
- A mapped folder can be left through "..", exactly when some prefix of the remaining components
  has more ".." than names, unless it is the root directory (`Containment.ReachesInsideIff`).
- A path with a trailing slash comes back without it (`FileMapping.RoundTripIff`), and the root's
  name is stripped from a path even in the middle of a component, which hides just the children
  whose name begins with it (`FileMapping.ChildByNameIff`).
- The forbidden test reads a string as the path it spells exactly when no slash is doubled in front
  of a name (`ForbiddenPaths.ReadsAsPathIff`, with `ForbiddenPaths.DoubledSlashIsMissed` as the input).
- A root name without a leading slash is refused (`PathNodes.RootNameIff`).
- Accepting a peer that is no longer pending leaves one that is trusted and never polled
  (`Promotion.AcceptKeepsIff`).
- Two ends agree on a version with certainty exactly when all patch bytes of the client are
  below 128 (`Handshake.AgreesIff`).

## Model

| member | source | states |
|---|---|---|
| VarInt.EncodeCorrect | source/Utils/VarInt.cpp:39-55 | the bytes written are a well-formed number, without a superfluous last group, and their value (the sum of 7-bit groups) is the number |
| VarInt.EncodeIsShortest | source/Utils/VarInt.cpp:39-55 | among all byte strings with the same value the encoding is the shortest, and the only one of its length |
| VarInt.ReadEncoded | source/Utils/VarInt.cpp:63-85 | for every 64-bit number and any bytes after it, parsing gives back the number and exactly those bytes |
| VarInt.ScanSplits | source/Utils/VarInt.cpp:63-79 | parsing splits the input: number and remainder together are the input |
| VarInt.FitsBound | source/Utils/VarInt.cpp:96-111 | bytes accepted as a number have a value below 2^64 |
| VarInt.FitsIff | source/Utils/VarInt.cpp:96-111 | any terminated bytes are accepted exactly when their value is below 2^64 and there are at most nine of them or no padding |
| VarInt.PaddedZeroIsRefused | source/Utils/VarInt.cpp:96-102 | the input for padding: a ten-byte zero is refused although its value is 0 |
| VarInt.VarInt.Reset | source/Utils/VarInt.cpp:39-55 | the object holds the encoding and a cached number that agrees with it |
| VarInt.VarInt.Parse | source/Utils/VarInt.cpp:63-79 | takes the first complete number and leaves the rest; without one nothing changes; the cached number never disagrees with the bytes |
| VarInt.VarInt.ToNumber | source/Utils/VarInt.cpp:81-111 | the value of the bytes when they fit in 64 bits, the exception otherwise; the cache stays right |
| Serialize.NumberOfDigits | source/Utils/Serialize.cpp:21-48 | writing then reading gives back any number that fits |
| Serialize.DigitsOfNumber | source/Utils/Serialize.cpp:21-48 | reading then writing gives back the bytes |
| Serialize.WriteNumber | source/Utils/Serialize.cpp:21-30 | the eight bytes whose base-256 number is the value |
| Serialize.ReadFixed | source/Utils/Serialize.cpp:39-48 | the base-256 number of up to eight bytes without overflow, the exception for more |
| Codec.FrameRoundTrip | source/Protocol/Handler/v0.0.0/ProtocolHandler.cpp:26-119 | for every request of the seven kinds and any bytes after its frame: parsing returns it and stops at the frame's end if the payload is below 2^56 bytes, and throws otherwise |
| Codec.ReturnsUnchangedIff | source/Protocol/Handler/v0.0.0/ProtocolHandler.cpp:71-95 | a request comes back unchanged exactly when it is short enough and, for RECEIVE_FILE, of packet size 4096 |
| Codec.RoundTripPayload | source/Protocol/Handler/v0.0.0/ProtocolHandler.cpp:97-119 | the payload of each of the seven kinds is read back by its parser |
| Codec.PrefixFree | source/Protocol/Handler/v0.0.0/ProtocolHandler.cpp:71-95 | no frame is a prefix of another: the bytes fix the request and where it ends |
| Codec.UniquelyDecodable | source/Protocol/Handler/v0.0.0/ProtocolHandler.cpp:71-95 | a byte stream is the frames of at most one list of requests |
| Codec.PartialFrame | source/Protocol/Handler/v0.0.0/ProtocolHandler.cpp:71-95 | a strict prefix of a frame makes the parser wait, except one that ends in the size field, which throws |
| Codec.ParsedIsStable | source/Protocol/Handler/v0.0.0/ProtocolHandler.cpp:71-95 | bytes that arrive later change nothing about a request already complete, for any bytes at all |
| Layout.FrameIs | source/Protocol/Handler/v0.0.0/ProtocolHandler.cpp:130-141 | every frame: "FSP_", the command, the message id, the size of the payload as a number in shortest form, the payload |
| Layout.SendFileIs | source/Protocol/Handler/v0.0.0/ProtocolHandler.cpp:166-192 | which numbers stand where in a SEND_FILE: path and its size, algorithm, digest, eight bytes of date, packet size, packet count |
| Layout.ReceiveFileIs | source/Protocol/Handler/v0.0.0/ProtocolHandler.cpp:242-260 | the same for RECEIVE_FILE: path and its size, 4096, the first packet wanted |
| Layout.DataPacketIs | source/Protocol/Handler/v0.0.0/ProtocolHandler.cpp:409-426 | the same for DATA_PACKET: transfer, packet number, size, data |
| Layout.FileListIs | source/Protocol/Handler/v0.0.0/ProtocolHandler.cpp:334-365 | the same for FILE_LIST: listing, packet number, count, entries |
| Layout.FilesIs | source/Protocol/Handler/v0.0.0/ProtocolHandler.cpp:355-363 | each entry: path and its size, one byte of type |
| Layout.NumberExamples | source/Utils/VarInt.cpp:39-55 | numbers, byte for byte |
| Layout.ReplyExamples | include/FileShare/Protocol/Definitions.hpp:47-65 | a reply with each status used, byte for byte |
| Layout.FrameExamples | include/FileShare/Protocol/Definitions.hpp:25-44 | one request of each kind, byte for byte |
| Layout.HeaderIs | source/Protocol/Handler/v0.0.0/ProtocolHandler.cpp:71-95 | which bytes are waited for, which begin wrongly, and which have a size field without an end: the last exactly when all bytes of it that are there, eight at most, go on |
| Layout.CommandErrors | source/Protocol/Handler/v0.0.0/ProtocolHandler.cpp:97-119 | the commands without a parser and their exceptions |
| Layout.PathErrors | source/Protocol/Handler/v0.0.0/ProtocolHandler.cpp:308-319 | a path shorter than its size throws, in all three messages that begin with one |
| Layout.ReceiveFileRead | source/Protocol/Handler/v0.0.0/ProtocolHandler.cpp:262-282 | a number missing throws, bytes too many are ignored |
| Layout.SendFileErrors | source/Protocol/Handler/v0.0.0/ProtocolHandler.cpp:194-231 | unknown hashes and digests that are cut off |
| Layout.DataPacketRead | source/Protocol/Handler/v0.0.0/ProtocolHandler.cpp:428-446 | every way a DATA_PACKET with small numbers can be cut, and what is read of a whole one |
| Layout.FileListErrors | source/Protocol/Handler/v0.0.0/ProtocolHandler.cpp:367-398 | every way a FILE_LIST can be cut before its entries |
| Layout.EntryRead | source/Protocol/Handler/v0.0.0/ProtocolHandler.cpp:367-398 | an entry with any size of path: read, cut off, or past the end where the size test wraps |
| Layout.PrintedIff | source/Protocol/Handler/v0.0.0/ProtocolHandler.cpp:26-69 | which requests are printed, and which exception each of the others throws |
| ProtocolHandler.FormatRequest | source/Protocol/Handler/v0.0.0/ProtocolHandler.cpp:26-69 | prints the frame of the request, or the exception for the kinds and digests that have none |
| ProtocolHandler.FormatResponse | source/Protocol/Handler/v0.0.0/ProtocolHandler.cpp:130-141 | the announced size is that of the payload: the result is the frame |
| ProtocolHandler.FormatSendFile | source/Protocol/Handler/v0.0.0/ProtocolHandler.cpp:166-192 | sizes announced in advance match; the result is the frame, or the exception for a digest of the wrong size |
| ProtocolHandler.FormatReceiveFile | source/Protocol/Handler/v0.0.0/ProtocolHandler.cpp:242-260 | the frame, with the fixed packet size |
| ProtocolHandler.FormatListFiles | source/Protocol/Handler/v0.0.0/ProtocolHandler.cpp:293-306 | the frame |
| ProtocolHandler.FormatFileList | source/Protocol/Handler/v0.0.0/ProtocolHandler.cpp:334-365 | the size summed over the array in a first loop is that of the entries appended in the second: the frame |
| ProtocolHandler.FormatDataPacket | source/Protocol/Handler/v0.0.0/ProtocolHandler.cpp:409-426 | the frame |
| ProtocolHandler.FormatPing | source/Protocol/Handler/v0.0.0/ProtocolHandler.cpp:453-462 | the frame |
| ProtocolHandler.ParseSendFile | source/Protocol/Handler/v0.0.0/ProtocolHandler.cpp:194-231 | with one reused VarInt that eats the payload: the same result and the same exceptions as the format's definition |
| ProtocolHandler.ParseReceiveFile | source/Protocol/Handler/v0.0.0/ProtocolHandler.cpp:262-282 | as above, for RECEIVE_FILE |
| ProtocolHandler.ParseListFiles | source/Protocol/Handler/v0.0.0/ProtocolHandler.cpp:308-319 | as above, for LIST_FILES |
| ProtocolHandler.ParseFileList | source/Protocol/Handler/v0.0.0/ProtocolHandler.cpp:367-398 | as above, for FILE_LIST and its counted entries |
| ProtocolHandler.ParseDataPacket | source/Protocol/Handler/v0.0.0/ProtocolHandler.cpp:428-446 | as above, for DATA_PACKET |
| ProtocolHandler.GetRequestData | source/Protocol/Handler/v0.0.0/ProtocolHandler.cpp:97-119 | dispatch on the command byte, with the exceptions for kinds without a parser |
| ProtocolHandler.ParseRequest | source/Protocol/Handler/v0.0.0/ProtocolHandler.cpp:71-95 | wait, throw, or a request and the bytes used, exactly as the format's definition |
| Stream.PeerBase.PollRequests | source/Peer/PeerBase.cpp:79-104 | one read, with any handler: hands over in order what a pass over buffer and read finds and keeps the rest; if the handler or the parser throws, it stops there and keeps everything; the loop ends |
| Stream.DrainInTwo | source/Peer/PeerBase.cpp:79-104 | draining a stream in two parts finds what draining it at once finds, for any bytes whose first part does not throw |
| Stream.AnyChunking | source/Peer/PeerBase.cpp:79-104 | the same for any number of reads |
| Stream.DrainPrefix | source/Peer/PeerBase.cpp:79-104 | of the first k bytes of a stream of frames exactly the complete frames are dispatched and the unfinished one is kept; it throws exactly in a size field |
| Stream.Reassembly | source/Peer/PeerBase.cpp:79-104 | for any requests and any cutting of their frames into reads: no read throws if and only if none ends in a size field, and then exactly the requests received so far were dispatched, once each and in order, and exactly the tail is kept |
| Stream.HandledOnce | source/Peer/PeerBase.cpp:79-104 | with any handler that throws on none of them, requests cut into such reads are handled once each and in order |
| Stream.ThrowRedelivers | source/Peer/PeerBase.cpp:97-103 | after a read that threw, whoever threw, the next one hands over every request of the buffer again, in front of any new ones |
| Stream.AfterReads | source/Peer/PeerBase.cpp:79-104 | for any cutting, reads that throw included: exactly what was dispatched, repetitions and all, and exactly what the buffer holds |
| Stream.OnceEachIff | source/Peer/PeerBase.cpp:79-104 | with requests only recorded: every one received was dispatched just once if and only if each read that throws, but for the last, finds no complete frame in the buffer |
| Stream.BufferWith | source/Peer/PeerBase.cpp:79-104 | for any handler, one that throws included, and any cutting: exactly what each read finds and what the buffer holds after it |
| Stream.HandedOverOnceIff | source/Peer/PeerBase.cpp:79-104 | for any handler and any cutting: no request is handed over twice, the one that throws included, if and only if no read before the last ends in an exception of the handler and each that ends in one of the parser finds no complete frame; then they are handed over in order from the first |
| Stream.WholeStream | source/Peer/PeerBase.cpp:79-104 | when everything has arrived, everything was dispatched and nothing is kept |
| Stream.ThrowingReadDispatchesTwice | source/Peer/PeerBase.cpp:97-103 | the input for it: a read cut in a size field makes the frame before it come twice |
| MessageQueue.RingScan | source/MessageQueue.cpp:23-38 | one lap of 256 ids finds the first absent or settled id from the current one on, and none only if every id is held by an unanswered request |
| MessageQueue.ScanEndsIff | source/MessageQueue.cpp:23-38 | the scan leaves its loop, after some number of rounds, if and only if some id is absent or settled |
| MessageQueue.FreeSlotMeansFreeId | source/MessageQueue.cpp:17-42 | pigeonhole: while slots are conserved, a free slot means that a send finds an id |
| MessageQueue.SendTakes | source/MessageQueue.cpp:17-42 | a send takes one slot and the first free id on the ring, and overwrites no unanswered request |
| MessageQueue.ReplyChanges | source/MessageQueue.cpp:56-78 | what a reply does to the status, the slots and the set of open ids, in all cases |
| MessageQueue.SlotConservation | source/MessageQueue.cpp:17-78 | on every run from the start: free slots plus open requests are 255 plus the number of set-backs modulo 256, and 255 exactly when nothing was set back |
| MessageQueue.IncomingHistory | source/MessageQueue.cpp:44-54 | on every run, under each id: the last request received, with the status last sent for it since |
| MessageQueue.AnsweredIff | source/MessageQueue.cpp:52-54 | a reply can be sent exactly to an id under which something was received, and throws otherwise |
| MessageQueue.RepliedIff | source/MessageQueue.cpp:56-78 | a reply is taken in exactly for an id that some send of the run was given, and throws otherwise |
| MessageQueue.RunsWithoutSetBacksReturn | source/MessageQueue.cpp:17-42 | on every run without set-backs every call returns |
| MessageQueue.ASendCanBeEndless | source/MessageQueue.cpp:23-38 | a run of calls that all return, after which the next send never does |
| MessageQueue.MessageQueue.SendRequest | source/MessageQueue.cpp:17-42 | the scanning loop ends and has the effect of the specification, or throws with nothing changed |
| MessageQueue.MessageQueue.ReceiveRequest | source/MessageQueue.cpp:44-50 | the incoming request is recorded without a status, replacing an older one |
| MessageQueue.MessageQueue.SendReply | source/MessageQueue.cpp:52-54 | the status is recorded; an unknown id throws and changes nothing |
| MessageQueue.MessageQueue.ReceiveReply | source/MessageQueue.cpp:56-78 | status and slots change as specified; an unknown id throws and changes nothing |
| Transfers.NextTakesHead | source/TransferHandler.cpp:122-140 | each call sends the first pending packet under the next id and leaves the others; without one it does nothing |
| Transfers.EmittedIs | source/TransferHandler.cpp:122-140 | all packets in order: consecutive ids with the pending data |
| Transfers.ChunksJoin | source/TransferHandler.cpp:122-140 | the packets of any content at any positive size join to the content |
| Transfers.ChunksCount | source/TransferHandler.cpp:122-140 | there are floor(n / size) + 1 of them and the last has n mod size bytes |
| Transfers.SentVersusAnnounced | source/Peer/Peer_private.cpp:212-222 | for any content and start that is not refused: the packets sent are numbered from 0 and join to the file from byte size * start on, the announced ones alone already do, and there is one more, empty, exactly when the size is a multiple of the packet size or nothing was announced |
| Transfers.MissingIds | source/TransferHandler.cpp:37-71 | for every order of arrival with gaps and duplicates: the expected id is one more than the largest seen, the missing list is strictly increasing and exactly the ids below it that have not arrived |
| Transfers.NextInOrder | source/TransferHandler.cpp:66-92 | an in-order packet is appended without complaint and the file is closed exactly when it is whole |
| Transfers.DeliverInOrder | source/TransferHandler.cpp:37-92 | in-order delivery from any point completes the file |
| Transfers.RecoveredIffInOrder | source/TransferHandler.cpp:37-92 | delivered once each, packets recover every file if and only if they arrive in order |
| Transfers.PacketArrival | source/TransferHandler.cpp:37-92 | one packet at an open download, byte for byte: the expected one at the cursor, an early one lost and zeros for those skipped, a late one in its place; exactly when it throws and when the file is finished |
| Transfers.ListGives | source/TransferHandler.cpp:168-221 | each list has the next 255 entries, or all that are left, under the next number; the first empty one ends it |
| Transfers.ListArrivalIs | source/TransferHandler.cpp:236-257 | what a list adds and which numbers are then missing, in any order of arrival |
| TransferHandlers.UploadTransferHandler.GetNextPacket | source/TransferHandler.cpp:122-140 | the object moves as the specification, closing the file on a short read |
| TransferHandlers.DownloadTransferHandler.ReceivePacket | source/TransferHandler.cpp:37-82 | the object moves as the specification in all three branches, with the exceptions |
| TransferHandlers.DownloadTransferHandler.FillGap | source/TransferHandler.cpp:44-55 | the loop notes exactly the skipped ids and writes their zeros |
| TransferHandlers.DownloadTransferHandler.Finish | source/TransferHandler.cpp:84-92 | the file is closed, and a wrong hash throws |
| TransferHandlers.ListFilesTransferHandler.GetNextPacket | source/TransferHandler.cpp:168-221 | up to 255 of the entries that remain, then one empty packet, then nothing |
| TransferHandlers.FileListTransferHandler.ReceivePacket | source/TransferHandler.cpp:236-257 | the object moves as the specification: gaps, duplicates, the empty last packet |
| Paths.ComponentsOfRender | source/Utils/Path.cpp:116-128 | iterating the string of a normalised path gives its components back |
| Paths.FindFolderInPath | source/Utils/Path.cpp:116-128 | the position behind the folder when it is a component-wise prefix, the end otherwise |
| Paths.InsideIffPrefix | source/Config/FileMapping.cpp:450-467 | on normalised paths, "starts with the string and a slash or the end follows" is the component-wise prefix |
| FileMapping.SearchIsFirst | source/Config/FileMapping.cpp:336-384 | the recursive search returns the first all-visible chain that serves the path in preorder, and nothing exactly when there is none |
| FileMapping.FoundIff | source/Config/FileMapping.cpp:336-384 | a host path is found if and only if some visible node, all above it visible, maps it or a folder around it, and what is found is the first such node |
| FileMapping.FindHostPath | source/Config/FileMapping.cpp:336-384 | the loop with an explicit stack and a visited set ends and finds what the recursive definition does; its stack is always a chain of visible nodes |
| FileMapping.StackToPath | source/Config/FileMapping.cpp:23-35 | the names on the chain, joined |
| FileMapping.HostToVirtualPath | source/Config/FileMapping.cpp:336-387 | the path of the matched node and the components left of the host path; empty when nothing matches |
| FileMapping.FindVirtualNode | source/Config/FileMapping.cpp:411-442 | the loop over components finds the node of the recursive walk and the components it leaves |
| FileMapping.VirtualToHostPath | source/Config/FileMapping.cpp:389-409 | the host path of that node, extended below a host folder |
| FileMapping.WalkTheChain | source/Config/FileMapping.cpp:411-442 | walking the names of any visible chain reaches its end and leaves the rest |
| FileMapping.RoundTrip | source/Config/FileMapping.cpp:336-442 | for every tree and host path that is found: the walk reaches the very node the search matched, leaves the right components, and the host path comes back, less a trailing slash |
| FileMapping.RoundTripIff | source/Config/FileMapping.cpp:336-442 | it comes back unchanged exactly when it has no trailing slash |
| FileMapping.ReachesOnlyVisible | source/Config/FileMapping.cpp:389-442 | whatever string is asked for, a host path found extends that of a host node on an all-visible chain |
| FileMapping.RootNameIsStripped | source/Config/FileMapping.cpp:414-420 | when the root's name is stripped, and what is then walked |
| FileMapping.ChildByNameIff | source/Config/FileMapping.cpp:414-420 | a visible child is found by its own name exactly when the name does not begin with that of the root, less its slashes |
| ForbiddenPaths.TestForbidden | source/Config/FileMapping.cpp:450-467 | the loop over the forbidden strings decides the string test |
| ForbiddenPaths.ForbiddenIff | source/Config/FileMapping.cpp:450-467 | on normalised paths the test holds if and only if some forbidden folder is a component-wise prefix |
| ForbiddenPaths.ClosedUnderDescendants | source/Config/FileMapping.cpp:450-467 | what is forbidden is forbidden with everything inside it |
| ForbiddenPaths.ReadsAsPathIff | source/Config/FileMapping.cpp:450-467 | for any non-empty string: its test against every normalised forbidden folder but the root is that of its components if and only if no slash is doubled in front of a name |
| ForbiddenPaths.DoubledSlashIsMissed | source/Config/FileMapping.cpp:450-467 | the input for it: with a doubled slash the same components pass the test |
| PathNodes.VectorToMap | source/Config/FileMapping.cpp:51-59 | exactly the names are keys, and of nodes with the same name the first is kept |
| PathNodes.PathNode.InsertChildNode | source/Config/FileMapping.cpp:138-150 | both exceptions, the whole new state, and the invariant of the node is kept |
| PathNodes.PathNode.SetType | source/Config/FileMapping.cpp:182-190 | refused exactly when children or a host path contradict it; the invariant is kept |
| PathNodes.PathNode.SetHostPath | source/Config/FileMapping.cpp:192-198 | refused on a virtual node; the invariant is kept |
| PathNodes.PathNode.SetChildNodes | source/Config/FileMapping.cpp:162-170 | children are refused on a host node; the invariant is kept |
| PathNodes.PathNode.SetName | source/Config/FileMapping.cpp:176-180 | refused exactly when empty or with a slash; the invariant is kept |
| PathNodes.SettersSuffice | source/Config/FileMapping.cpp:138-198 | a node that the setters let through, children filed under their names in any order of iteration, is one the search and the round trip can rely on |
| PathNodes.RootNameIff | source/Config/FileMapping.cpp:296-313 | a root name passes exactly when it is a name behind one or two slashes |
| Peer.UploadsLexicallyInside | source/Peer/Peer_private.cpp:197-223 | whatever path RECEIVE_FILE names, an upload is only opened on the content of a host path that extends, component by component, that of a visible host node and has no forbidden folder in front; where ".." leads is said by `ReachesInsideIff` |
| Peer.ServedIff | source/Peer/Peer.cpp:69-86 | every answer to a RECEIVE_FILE, in any state: an exception and no answer for a folder or a file that cannot be read, a division by zero for packet size 0; one refusal and no upload; else OK and a SEND_FILE with the path asked for, SHA-512 and the digest of the content, its date, the packet size asked for and the packets that are left, and an upload that begins at the packet asked for; or OK and then an exception without a slot, and no return without an id |
| Peer.AcceptedUnaskedIff | source/Peer/Peer_private.cpp:69-91 | a SEND_FILE is accepted without asking the user exactly when an outgoing RECEIVE_FILE, settled or not, has its path, and throws without an answer if what is at its destination cannot be read; otherwise it is held for the user |
| Answers.ServeStatusIs | source/Peer/Peer_private.cpp:197-224 | exactly when a RECEIVE_FILE is not found, refused for its start, thrown back or served, by the tree, the forbidden folders and what is on the host |
| Answers.MayListIff | source/Peer/Peer_private.cpp:94-103 | exactly when a LIST_FILES is accepted: the path is found, and leads to a virtual node or to a host node no forbidden folder is in front of |
| Answers.PushedIs | source/Peer/Peer_private.cpp:226-250 | a push: what is not there, forbidden or unreadable throws; else the SEND_FILE written has the virtual path or the own name, SHA-512 and the digest, the date, packets of 4096 bytes and their count, and an upload from the first byte on is kept, unless there is one under the id |
| Answers.AskedIs | source/Peer/Peer_private.cpp:31-43 | any request of the user's own: it takes a slot and an id that no waiting request has and is written; one that cannot be printed throws behind that; without a slot or an id nothing changes |
| Answers.AsksTheUser | source/Peer/Peer_private.cpp:118-125 | PING and the other kinds nothing answers by itself: "approval pending" is written, the request kept for the user, and nothing else changes |
| Answers.UserAnswers | source/Peer/Peer.cpp:41-48 | any status but OK that the user gives is written and noted, and nothing else changes |
| Answers.NothingToAddTo | source/Peer/Peer.cpp:50-110 | OK from the user for a packet or a list without a transfer is answered INVALID_REQUEST_ID, and nothing else changes |
| Answers.DownloadOpened | source/Peer/Peer_private.cpp:252-267 | an accepted SEND_FILE: exception, UP_TO_DATE, or OK and an empty download, unless there is one under the id |
| Answers.FileSettles | source/Peer/Peer_private.cpp:69-91 | a SEND_FILE for a path that was asked for settles one such RECEIVE_FILE with OK, whatever becomes of the file; another settles nothing |
| Answers.PacketTaken | source/Peer/Peer.cpp:50-66 | a DATA_PACKET: refused without a download; else acknowledged unless something is thrown, a whole file saved once, its download forgotten unless kept, every other one untouched |
| Answers.ListTaken | source/Peer/Peer.cpp:100-110 | a FILE_LIST: refused without a listing; else added to it and acknowledged |
| Answers.ListingRefused | source/Peer/Peer_private.cpp:94-103 | a LIST_FILES that is not accepted is answered FILE_NOT_FOUND, and nothing else changes |
| Answers.PlainReply | source/Peer/Peer_private.cpp:128-139 | a reply to nothing is ignored; one that is not OK is noted and no more; OK to a RECEIVE_FILE leaves it pending |
| Answers.AcceptedFile | source/Peer/Peer_private.cpp:158-168 | OK to a SEND_FILE sends the first packets of its upload and nothing else: exactly the least of five, the free slots and the packets left |
| Answers.AcceptedUnknown | source/Peer/Peer_private.cpp:158-160 | OK to a SEND_FILE whose upload is gone throws, the reply being noted |
| Answers.AcceptedPacket | source/Peer/Peer_private.cpp:141-156 | OK to a DATA_PACKET sends exactly the next packet of its upload, or forgets the upload when there is none |
| Answers.AcceptedListing | source/Peer/Peer_private.cpp:170-174 | OK to a LIST_FILES makes an empty list ready, once |
| Answers.AcceptedList | source/Peer/Peer_private.cpp:176-190 | OK to a FILE_LIST sends exactly the next 255 entries, or the rest, or an empty list; behind that nothing, and the upload under the id of the reply is forgotten |
| PeerObject.Peer.SendReply | source/Peer/Peer_private.cpp:24-29 | the reply is recorded and written, or neither |
| PeerObject.Peer.SendRequest | source/Peer/Peer_private.cpp:31-43 | the request is queued and written under the id given, or neither when no slot is free |
| PeerObject.Peer.PrepareUpload | source/Peer/Peer_private.cpp:197-224 | a handler whose announcement fits the file, or the status that refuses it |
| PeerObject.Peer.CreateHostUpload | source/Peer/Peer_private.cpp:226-239 | announces the file under its virtual path, or under its own name |
| PeerObject.Peer.CreateUpload | source/Peer/Peer_private.cpp:241-250 | SEND_FILE is sent and the upload kept under its id, unless one is there |
| PeerObject.Peer.CreateDownload | source/Peer/Peer_private.cpp:252-267 | a download is opened and accepted, or UP_TO_DATE is answered |
| PeerObject.Peer.RespondToRequest | source/Peer/Peer.cpp:41-114 | the whole new state for each kind of request and status, and the exceptions |
| PeerObject.Peer.AuthorizeRequest | source/Peer/Peer_private.cpp:45-126 | the whole new state for each message that can arrive |
| PeerObject.Peer.ReceiveReply | source/Peer/Peer_private.cpp:128-195 | the whole new state for each kind of request answered |
| PeerObject.Peer.SendBurst | source/Peer/Peer_private.cpp:158-168 | the loop sends up to five packets while the file and the slots last |
| PeerObject.Peer.SendWindow | source/Peer/Peer.cpp:131-138 | packets are sent until the file ends or no slot is left, one or the other |
| PeerObject.Peer.FindReceiveFile | source/Peer/Peer_private.cpp:72-80 | an outgoing RECEIVE_FILE for the path, if there is one |
| FilePush.NextKeeps | source/Peer/Peer_private.cpp:128-195 | every step of a push (deliveries, the user's decision, the window loop, the burst, the sends on replies) keeps the invariant of both peers and both channels |
| FilePush.NothingLost | source/Peer/Peer.cpp:120-145 | in every reachable state of every interleaving: nothing was thrown, ids are consecutive, and the bytes written by the receiver followed by those in the channel are the bytes emitted, a prefix of the file |
| FilePush.SavedIffWhole | source/TransferHandler.cpp:37-92 | in every reachable state the receiver has either saved exactly the file and holds all of it, or saved nothing and does not |
| FilePush.EveryRunEnds | source/Peer/Peer.cpp:120-145 | every run has at most 3 steps for each packet and 8 more |
| FilePush.StuckMeansDone | source/Peer/Peer.cpp:120-145 | no deadlock: a state with no possible step is complete, the file whole at the receiver, or refused and known to be |
| FilePush.ReceivedIffNotEmpty | source/TransferHandler.cpp:66-82 | the packets of a file, delivered in order, give it back without an exception if and only if it is not empty |
| EndToEnd.PushOverBytes | source/Peer/PeerBase.cpp:79-104 | in every reachable state of a push, however the bytes written are cut into reads (none ending in a size field), the other end dispatches exactly the messages sent |
| EndToEnd.RepliesOverBytes | source/Peer/PeerBase.cpp:79-104 | the same for the replies, if the user's status fits in a byte |
| FolderListing.AnsweredIff | source/Peer/Peer.cpp:87-98 | every answer to a LIST_FILES under a new id, in any state: one refusal unless the path is found and the node it is mapped to is virtual or not itself forbidden; an exception and no answer when that is a host folder and what the path opens is no folder; else OK and the first packet; or OK and then an exception without a slot, and no return without an id |
| Containment.OpensForbiddenLexicallyIff | source/Peer/Peer_private.cpp:94-103 | compared component by component, ".." unresolved: an accepted listing opens a forbidden host folder if and only if some forbidden folder lies strictly below the folder of the node and is, or contains, the one opened |
| Containment.ForbiddenFolderIsListed | source/TransferHandler.cpp:146-166 | in any tree: a forbidden folder directly below a mapped one is accepted and its entries are listed |
| Containment.ListedAllTheSame | source/TransferHandler.cpp:146-166 | the input for it: "s/k", where "s" is mapped to "/h" and "/h/k" is forbidden |
| Containment.StaysInsideIff | source/Config/FileMapping.cpp:389-409 | with "." and ".." followed, every step down from a folder stays in it if and only if the folder is the root directory or no prefix of the way has more ".." than names |
| Containment.ReachesInsideIff | source/Config/FileMapping.cpp:389-442 | so for every virtual path mapped into a host folder: the host path leads where the folder and the remaining components lead, and stays inside on the way under just that condition |
| Containment.ForbiddenFileIsServed | source/Peer/Peer_private.cpp:197-223 | in any tree with a folder "/h": the forbidden file "/k" is served to RECEIVE_FILE for "../k" in it |
| Containment.ServedAllTheSame | source/Peer/Peer_private.cpp:197-223 | the input for it: "s/../k", where "s" is mapped to "/h" and "/k" is forbidden |
| Containment.TestSufficesIff | source/Config/FileMapping.cpp:450-467 | testing one path for another: whatever is forbidden, the test finds what is forbidden where the other leads, "." and ".." followed, if and only if that is a component-wise prefix of the path tested |
| Containment.ServedSafelyIff | source/Peer/Peer_private.cpp:197-223 | for every virtual path with a host path: on every host, with any files and any forbidden folders, RECEIVE_FILE is refused whenever the path leads into a forbidden folder, if and only if the host path leads to a prefix of itself |
| Containment.ListedSafelyIff | source/Peer/Peer_private.cpp:94-103 | for every virtual path mapped into a host folder: on every host LIST_FILES is refused whenever the path leads into a forbidden folder, if and only if it leads to a prefix of the path of the node |
| Containment.LeadsIsForbidden | source/Config/FileMapping.cpp:450-467 | to lead into a forbidden folder is to fail the forbidden test once "." and ".." are followed |
| Containment.DetourAllTheSame | source/Peer/Peer_private.cpp:197-223 | the input that stays inside: "s/a/../k", where "s" is mapped to "/h" and "/h/k" is forbidden, is served and accepted for listing |
| Containment.NoSuchFolder | source/TransferHandler.cpp:146-166 | the input for a listing that throws: "s/k", where "/h/k" is no folder, is accepted and cannot be opened |
| FolderListing.NextKeeps | source/Peer/Peer_private.cpp:170-190 | every step of a listing keeps the invariant of both peers and both channels |
| FolderListing.AlwaysAPrefix | source/TransferHandler.cpp:168-257 | in every reachable state: nothing was thrown, what the asker has is a prefix of the folder's entries, and the packet to arrive next is the one expected |
| FolderListing.CollectedIsWhole | source/Peer/Peer.cpp:189-216 | the asker's loop ends exactly when ceil(n / 255) + 1 packets have arrived, and then its list is the folder's |
| FolderListing.EveryRunCompletes | source/Peer/Peer.cpp:189-216 | a run can go on exactly until two steps for each of those packets and three more were taken; then the asker has the whole list |
| Listed.EntriesAre | source/TransferHandler.cpp:168-221 | a listing of any path that is found: one entry for each name in the host folder opened, in order, DIRECTORY exactly for a folder; one for each child of a virtual folder, FILE exactly for a host file; the file itself, or nothing where a folder is in its place |
| Listed.CollectedAre | source/Peer/Peer.cpp:189-216 | so for the list the asker has in the end, on every run |
| Listed.HostEntryLeads | source/Config/FileMapping.cpp:389-442 | asking for the path of an entry of a host folder, however its slashes were written, leads to that very name in the folder opened |
| Listed.ChildEntryLeads | source/Config/FileMapping.cpp:411-442 | asking for the path of an entry of a virtual folder leads to that child if it is visible, and nowhere if it is not |
| FolderListing.ListingCrashesIff | source/Peer/Peer.cpp:87-98 | with a slot left, a LIST_FILES ends on a null packet if and only if it is accepted, what it opens is there, and its id has a lister that has sent its empty packet |
| FolderListing.SecondListingFails | source/Peer/Peer.cpp:87-98 | so after a complete listing another under the same id always fails, for want of a folder, of a slot or of a packet |
| Tokens.SentOrderly | source/Peer/Peer_private.cpp:35-43 | a request under a free id, for a fresh path if it is RECEIVE_FILE, keeps every open request with at most one place where its answer is |
| Tokens.UnsentOrderly | source/Peer/Peer_private.cpp:35-43 | so does one that has its id and slot and cannot be printed |
| Tokens.NotedOrderly | source/Peer/Peer_private.cpp:128-139 | so does noting a status on the arrival of the message it came with |
| Tokens.ReplyOrderly | source/Peer/Peer_private.cpp:24-29 | so does answering what is owed |
| Tokens.BackOrderly | source/Peer/Peer_private.cpp:241-250 | so does a SEND_FILE that is pushed, or that answers a RECEIVE_FILE that has arrived |
| SlotDiscipline.NextKeeps | source/Peer/Peer_private.cpp:45-195 | every step of either of two honest peers, one that throws included, keeps that order in both directions, whatever the other fields hold |
| SlotDiscipline.SlotsConserved | source/MessageQueue.cpp:17-78 | on every run of two peers with distinct paths, each taking in messages until one throws: free slots and open requests are 255 together, and no send scans for ever |
| SlotDiscipline.NeverSetBack | source/Peer/Peer_private.cpp:128-139 | on every such run, no settled request returns to "approval pending" |
| SlotDiscipline.KeepsItsSlot | source/Peer/Peer_private.cpp:69-139 | on every such run, a RECEIVE_FILE stays open, as it was sent, until its SEND_FILE or its refusal arrives |
| SlotDiscipline.ReplyFindsASlot | source/Peer/Peer_private.cpp:136-195 | on every such run, every reply finds its request open, and the sends made while handling it never run out of slots |
| SlotDiscipline.PushedPathSetsBack | source/Peer/Peer_private.cpp:69-139 | without distinct paths: a pushed file settles a request that the reply then sets back, its slot counted free |
| Redelivery.SetsBackIff | source/Peer/Peer_private.cpp:45-195 | for any peer in any state and any message: it sets a settled request back if and only if it is a reply to one, "approval pending" or OK to a RECEIVE_FILE; and exactly then conserved slots are not conserved |
| Redelivery.ConservedIff | source/Peer/PeerBase.cpp:79-104 | for any bytes in any reads, messages that come again after an exception included, and anything the user does in between: free slots and open requests are 255 together, after every message and every other step, if and only if no such reply is taken in |
| Redelivery.RedeliveredIff | source/Peer/PeerBase.cpp:97-103 | after a read that threw, each of its messages is handed over again, and sets a request back if and only if it is such a reply by then |
| Redelivery.NeverPast | source/Peer/PeerBase.cpp:79-104 | once a read has brought a listing that opens no folder, or a request for a file that cannot be read: on every continuation every later read throws and hands over every message of that read again |
| Redelivery.ThrownSetsBack | source/Peer/Peer_private.cpp:45-139 | with any slots left, one read of OK for a RECEIVE_FILE, its SEND_FILE and such a request: it throws with the request settled and slots conserved, and the OK, taken in again, sets it back |
| Redelivery.ThrownRunIsLate | source/Peer/PeerBase.cpp:79-104 | a whole run to that from a new connection: the RECEIVE_FILE, the frames of those three messages in one read, and one more read |
| Redelivery.RedeliverySetsBack | source/Peer/Peer_private.cpp:45-139 | a peer without a slot, and one read of OK for a RECEIVE_FILE, its SEND_FILE and two LIST_FILES of folders that are there: the last throws with the request settled and slots conserved, and the OK, taken in again, sets it back |
| Redelivery.OneRunIsLate | source/Peer/PeerBase.cpp:79-104 | a whole run to that: 254 pings and the RECEIVE_FILE, the frames of those four messages in one read, and one more read |
| Registry.HandleMoves | source/Server.cpp:303-358 | handling one descriptor moves its connection as its place and activity say and touches no other |
| Registry.HandleKeeps | source/Server.cpp:303-358 | it keeps array and maps in step, and the entries still to come as they were |
| Registry.DeleteMoveIs | include/FileShare/Utils/Vector.hpp:16-27 | swap-remove drops exactly one descriptor and moves none in front of it |
| Registry.SweepFrom | source/Server.cpp:270-301 | from any entry on, every ready descriptor is handled exactly once despite removals |
| Registry.EachHandledOnce | source/Server.cpp:270-358 | one pass, whatever is removed and appended during it, handles each descriptor ready at its start exactly once and as it was at the start, up to the first whose handling throws; it throws if and only if the handling of some ready descriptor does; slot 0 stays the listener, the others distinct, the maps disjoint and together equal to the descriptors |
| Promotion.AcceptKeepsIff | source/Server.cpp:234-258 | accepting a peer keeps all that if and only if the peer is pending |
| Promotion.ConnectKeeps | source/Server.cpp:166-179 | a connection made from here keeps it, and is trusted exactly when a protocol was agreed |
| Promotion.EventsNamePeers | source/Server.cpp:303-354 | REQUEST events name only trusted connections, CONNECT events only those left pending |
| Promotion.ProcessEventsKeeps | source/Server.cpp:188-207 | with no event left over, accepting any of the peers asked about keeps the registry sound |
| Trust.ProcessEventsIs | source/Server.cpp:188-207 | with no event left over and a poll that does not throw: afterwards every connection is where the poll left it, but those whose CONNECT event the callback accepted are peers; just their keys have been added to those known; the events are gone; and it throws exactly when two of those claim one uuid with different keys |
| Trust.HandshakeEndsIff | source/Server.cpp:329-348 | after a poll a connection is among the peers exactly when its handshake ended with a protocol and its uuid is known with its very key, pending exactly when the uuid is not known; with another key the poll throws there and it stays |
| Trust.ConnectEventIff | source/Server.cpp:340-348 | there is a CONNECT event for exactly those that the pass left pending |
| Trust.RequestsPassedOn | source/Server.cpp:303-318 | a pass passes on just the requests that a trusted connection brought, each once and in order, and nobody else's |
| Trust.AcceptPeerIs | source/Server.cpp:234-258 | accepting anybody at all: what is changed before each of the three exceptions, and without one |
| Trust.ConnectIs | source/Server.cpp:166-179 | calling anybody at all, with both exceptions |
| Trust.StrangerDropped | source/Server.cpp:356-358 | a ready descriptor without a connection is dropped from the array, and that is all |
| Trust.KnownHistory | source/Config/KnownPeerStore.cpp:18-26 | on every run each known key was put there when a connection that waited was accepted for good, with its uuid and key, and has never been overwritten since |
| Trust.KnownWasAccepted | source/Config/KnownPeerStore.cpp:39-50 | on every run, whoever became trusted by being known has the uuid and the key of a connection accepted for good before |
| Promotion.AlwaysSound | source/Server.cpp:135-358 | on every run the registry is in step and nobody is pending or trusted without a protocol |
| Promotion.StepHistory | source/Server.cpp:234-358 | a connection moves only from handshake to peers, or to pending and from there to peers |
| Promotion.PromotionHistory | source/Server.cpp:234-358 | the whole way of every trusted connection on every run: called from here; or accepted and, when its handshake ended, known under its uuid with its very key; or accepted, pending because not known, and accepted by the user |
| Server.Server.DeleteMove | include/FileShare/Utils/Vector.hpp:16-27 | the array and the position to go on from, in both branches |
| Server.Server.AcceptPeer | source/Server.cpp:234-258 | the whole new state and the exceptions |
| Server.Server.Connect | source/Server.cpp:166-179 | the whole new state and the exception without a protocol |
| Server.Server.HandlePeerEvents | source/Server.cpp:303-358 | the whole new state, where to go on, and the exceptions |
| Server.Server.PollEvents | source/Server.cpp:270-301 | the loop has the effect of the specified pass and acts on just the descriptors it lists |
| Server.Server.ProcessEvents | source/Server.cpp:188-207 | polling, then the callbacks; the events are dropped only if nothing was thrown |
| Handshake.LessIsNumeric | source/Protocol/Version.cpp:20-42 | the lexicographic order of the three bytes is the order of the 24-bit codes |
| Handshake.MaxIsLargest | source/Peer/PreAuthPeer.cpp:92-92 | the maximum chosen is a member and no member is greater |
| Handshake.VersionRoundTripIff | source/Protocol/Handler/IProtocolHandler.cpp:70-120 | a version is read back exactly when its patch byte is below 128 |
| Handshake.HelloRoundTrip | source/Protocol/Handler/IProtocolHandler.cpp:70-100 | the client's message is read back whatever follows |
| Handshake.HelloPrefix | source/Protocol/Handler/IProtocolHandler.cpp:70-100 | every strict prefix of it makes the server wait |
| Handshake.AnswerRoundTripIff | source/Protocol/Handler/IProtocolHandler.cpp:60-120 | the server's message is read back, whatever follows, exactly when the patch byte is below 128 |
| Handshake.AnswerPrefix | source/Protocol/Handler/IProtocolHandler.cpp:102-107 | every strict prefix of it makes the client wait |
| Handshake.Settles | source/Peer/PreAuthPeer.cpp:43-70 | however the message is cut into reads: nothing happens before the read that completes it, and what came after it stays buffered and unanswered |
| Handshake.BothSettle | source/Peer/PreAuthPeer.cpp:43-111 | for any two version sets and any cutting on both sides: both settle on the greatest common version, or the server closes without an answer |
| Handshake.AgreesIff | source/Protocol/Handler/IProtocolHandler.cpp:70-120 | a client agrees with every server it shares a version with if and only if all its patch bytes are below 128 |
| Handshake.HighPatchMisread | source/Protocol/Handler/IProtocolHandler.cpp:85-116 | two ends without a common version, and the server selects one |
| Handshake.RefusesAll | source/Peer/PreAuthPeer.cpp:72-80 | later requests are answered UNAUTHORIZED: just those that reassembly finds |
| Handshake.RefusedNextTime | source/Peer/PreAuthPeer.cpp:46-57 | what came with the handshake is refused at the next read, not before |
| Handshake.RefusalsArrive | source/Peer/PreAuthPeer.cpp:72-80 | what is written then, read by the other end: for each request that reassembly finds one reply under its id, in order, UNAUTHORIZED, and nothing else |
| Handshake.RefusalsArriveNext | source/Peer/PreAuthPeer.cpp:46-80 | the same for what came with the handshake, at the next read |
| Handshake.WrongMessageCloses | source/Peer/PreAuthPeer.cpp:60-68 | a first message that is long enough and begins otherwise closes the connection without an answer; a shorter one is waited for |
| Handshake.ClosedReadsNothing | source/Peer/PeerBase.cpp:79-90 | a closed end reads nothing and writes nothing, whatever arrives |
| Handshake.SelectionTakenIff | source/Peer/PreAuthPeer.cpp:99-107 | a client takes the version selected exactly when it speaks it, and closes otherwise, always without an answer |
| PreAuthPeer.MakeClientVersionPayload | source/Protocol/Handler/IProtocolHandler.cpp:37-52 | the array filled in place is the client's message, for up to 84 versions |
| PreAuthPeer.FormatServerSelectedVersion | source/Protocol/Handler/IProtocolHandler.cpp:60-68 | the server's message |
| PreAuthPeer.ReadClientVersion | source/Protocol/Handler/IProtocolHandler.cpp:70-100 | wait, throw, or the versions and the bytes used |
| PreAuthPeer.ReadServerVersion | source/Protocol/Handler/IProtocolHandler.cpp:102-120 | wait, throw, or the version and eight bytes |
| PreAuthPeer.PreAuthPeer.ParseBytes | source/Peer/PreAuthPeer.cpp:43-70 | the one-time break, the closed socket, and the message found |
| PreAuthPeer.PreAuthPeer.AuthorizeVersions | source/Peer/PreAuthPeer.cpp:82-110 | the selection and its answer, or the closed socket |
| PreAuthPeer.PreAuthPeer.PollRequests | source/Peer/PeerBase.cpp:79-104 | one read before trust has the effect of the specification |

## Left out

- Sockets, TLS, certificates, keys, `ppoll`: reads are any byte chunks, readiness any subset, new descriptors fresh; a failed poll handles nothing. Writing to a closed socket is taken to be harmless.
- Real files and hashes: a file is a byte sequence with a cursor, a hash any function of its content of the right size; what is at each host path, and what becomes of a file pushed here, are inputs that do not change meanwhile. Not among them: a path that cannot even be looked up, a file or folder that fails after it was opened, a temporary file that cannot be created though its folder can.
- Clocks: the modification time is the 64-bit number on the wire.
- `Peer.send_file` and `Peer.list_files`: their waiting loops are not methods but steps of the two machines (`Resume`, `GiveUp`, `Emit`, `Collect`), taken in any order the guards of the loops allow; only the sending of `send_file` is a loop of its own, `SendWindow`.
- `Peer.receive_file` after its first request: its waiting loop and its lookups in the incoming requests. The requests it causes are in `SlotDiscipline`; content is claimed for pushes.
- `Peer.respond_to_request` for a LIST_FILES of a path without a node, which the library never passes to the user: the source sends a null packet, the model an empty one.
- FilePush.NothingLost: is about non-empty files and an empty pair of channels, the receiver not having asked for the file, which can be put in its place there. `ReceivedIffNotEmpty` says what becomes of an empty one.
- FilePush.StuckMeansDone: says that the file is whole at the receiver, not that the upload is erased at the sender; when the last answer is the refusal of the extra empty packet it is not.
- FolderListing.AlwaysAPrefix: takes the finished flag of a new listing to be false; the header leaves it uninitialised.
- Symbolic links: `Containment.Resolve` follows "." and ".." in the path only.
- Containment.OpensForbiddenLexicallyIff: is about listings mapped into a host folder; those of virtual folders open no host folder, and hidden or forbidden children of one are named in it as in the source.
- Listings: the entries of a folder are read when the handler is opened, in the order the host gives them; children of a virtual folder come in any order, hidden ones included as in the source.
- SlotDiscipline.NextKeeps: once a message throws, that peer takes in nothing more in this machine, since the source would hand over the messages of the read again; what they then do is in `Redelivery`, for one peer and any bytes. Reads are taken not to end in a size field, which would do the same. Users answer a request once and not with "approval pending"; paths are asked for once, and not for ones the other peer pushes.
- Iteration order of hash maps: children are a sequence in any order; an outgoing RECEIVE_FILE is looked for by increasing id, which makes no difference while paths are distinct.
- `std::size_t` overflow of packet ids and positions, and allocation failures of strings and reserved vectors; `Codec.Typed` states the 64-bit bounds a printed request has to meet.
- C++ object lifetime: iterators into copies and across `emplace_back` are indices; a reference to an upload that was erased while `send_file` still loops ends the loop; the return value left unset when a handshake message throws is taken to be 0.
- PathNodes.PathNode.SetChildNodes: takes any keys, as the source does; that children are filed under their names is an assumption of `SettersSuffice`, since a child renamed through the reference returned on insertion keeps its old key. Host nodes are assumed to have a normalised, non-empty host path.
- Host paths that contain an absolute component behind the first, which `operator/=` would treat differently.
- PreAuthPeer.MakeClientVersionPayload: says nothing about more than 84 versions, where the byte index wraps; the library has one.
- Registry.EachHandledOnce: the order in which the events of different descriptors appear is that of handling, which removals change.
- The callbacks of `process_events` may only accept or decline; they do not call back into the server.
- Configuration files, debug strings, home folder lookup, VarInt comparison operators and `get_ancestor_path`: plumbing or easy members.
