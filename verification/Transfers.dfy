/** The transfer handlers as values: what each call does to a handler, and what
    whole sequences of calls amount to. */
module Transfers {
  import opened Bytes
  import opened Requests

  // ----- uploading -----------------------------------------------------------

  datatype Upload = Upload(request: Data, content: bytes, pos: nat, open: bool, packetId: nat, transferred: nat)

  function OpenUpload(request: Data, content: bytes, packetStart: nat): Upload
    requires request.SendFile?
  {
    Upload(request, content, request.packetSize * packetStart, true, 0, 0)
  }

  /** What the file still has to give; the cursor may stand past its end. */
  function Rest(u: Upload): bytes { if u.pos <= |u.content| then u.content[u.pos..] else [] }

  function NextPacket(u: Upload, requestId: MessageId): (Upload, Option<Data>)
    requires u.request.SendFile?
  {
    if !u.open then (u, None)
    else
      var size := u.request.packetSize;
      var data := if |Rest(u)| < size then Rest(u) else Rest(u)[..size];
      (u.(pos := u.pos + |data|, open := |data| >= size,
          packetId := u.packetId + 1, transferred := u.transferred + |data|),
       Some(DataPacket(requestId, u.packetId, data)))
  }

  /** A file cut into packets: full ones, then one that is not, possibly empty. */
  function Chunks(content: bytes, size: nat): seq<bytes>
    requires size > 0
  {
    if |content| < size then [content] else [content[..size]] + Chunks(content[size..], size)
  }

  /** The packets an uploader has not sent yet. */
  function Pending(u: Upload): seq<bytes>
    requires u.request.SendFile? && u.request.packetSize > 0
  {
    if u.open then Chunks(Rest(u), u.request.packetSize) else []
  }

  lemma {:induction false} ChunksCount(content: bytes, size: nat)
    requires size > 0
    ensures |Chunks(content, size)| == |content| / size + 1
    ensures |Chunks(content, size)[|Chunks(content, size)| - 1]| == |content| % size
    decreases |content|
  {
    if |content| >= size {
      ChunksCount(content[size..], size);
      DivideStep(|content|, size);
    } else {
      DivideSmall(|content|, size);
    }
  }

  lemma DivideStep(n: nat, size: nat)
    requires 0 < size <= n
    ensures n / size == (n - size) / size + 1 && n % size == (n - size) % size
  {
    var q, r := (n - size) / size, (n - size) % size;
    assert n - size == q * size + r;
    DivideUnique(n, size, q + 1, r);
  }

  lemma DivideSmall(n: nat, size: nat)
    requires n < size
    ensures n / size == 0 && n % size == n
  {
  }

  lemma DivideUnique(n: nat, size: nat, q: nat, r: nat)
    requires size > 0 && n == q * size + r && r < size
    ensures n / size == q && n % size == r
  {
    var q', r' := n / size, n % size;
    assert n == q' * size + r';
    Distribute(q, q', size);
    Distribute(q', q, size);
    if q' < q { AtLeast(q - q', size); }
    if q' > q { AtLeast(q' - q, size); }
  }

  lemma Distribute(a: int, b: int, c: int)
    ensures (a - b) * c == a * c - b * c
  {
  }

  lemma AtLeast(k: nat, size: nat)
    requires k >= 1
    ensures k * size >= size
  {
  }

  lemma {:induction false} ConcatCons(head: bytes, tail: seq<bytes>)
    ensures Concat([head] + tail) == head + Concat(tail)
  {
    ConcatAppend([head], tail);
    assert [head][..0] == [] && [] + head == head;
    assert Concat([head]) == head;
  }

  lemma {:induction false} ChunksJoin(content: bytes, size: nat)
    requires size > 0
    ensures Concat(Chunks(content, size)) == content
    decreases |content|
  {
    if |content| >= size {
      ChunksJoin(content[size..], size);
      ConcatCons(content[..size], Chunks(content[size..], size));
      assert content[..size] + content[size..] == content;
    } else {
      ConcatCons(content, []);
      assert [content] + [] == [content] && content + [] == content;
    }
  }

  /** One call takes the first pending packet; without one it does nothing. */
  lemma NextTakesHead(u: Upload, id: MessageId)
    requires u.request.SendFile? && u.request.packetSize > 0
    ensures Pending(u) == [] <==> !u.open
    ensures Pending(u) == [] ==> NextPacket(u, id) == (u, None)
    ensures Pending(u) != [] ==>
      var (u', packet) := NextPacket(u, id);
      && packet == Some(DataPacket(id, u.packetId, Pending(u)[0]))
      && Pending(u') == Pending(u)[1..]
      && u'.packetId == u.packetId + 1 && u'.request == u.request && u'.content == u.content
      && u'.transferred == u.transferred + |Pending(u)[0]|
  {
    if u.open && |Rest(u)| >= u.request.packetSize {
      var (u', _) := NextPacket(u, id);
      assert Rest(u') == Rest(u)[u.request.packetSize..];
    }
  }

  /** Every packet the uploader sends, in order. */
  function Emitted(u: Upload, id: MessageId): seq<Data>
    requires u.request.SendFile? && u.request.packetSize > 0
    decreases |Pending(u)|
  {
    NextTakesHead(u, id);
    if !u.open then [] else
      var (u', packet) := NextPacket(u, id);
      [packet.value] + Emitted(u', id)
  }

  lemma {:induction false} EmittedIs(u: Upload, id: MessageId)
    requires u.request.SendFile? && u.request.packetSize > 0
    ensures |Emitted(u, id)| == |Pending(u)|
    ensures forall i :: 0 <= i < |Pending(u)| ==>
      Emitted(u, id)[i] == DataPacket(id, u.packetId + i, Pending(u)[i])
    decreases |Pending(u)|
  {
    hide NextPacket, Pending;
    NextTakesHead(u, id);
    if u.open {
      var (u', packet) := NextPacket(u, id);
      EmittedIs(u', id);
      assert Emitted(u, id) == [packet.value] + Emitted(u', id);
      forall i | 0 <= i < |Pending(u)|
        ensures Emitted(u, id)[i] == DataPacket(id, u.packetId + i, Pending(u)[i])
      {
        if i > 0 { assert Pending(u)[i] == Pending(u')[i - 1]; }
      }
    }
  }

  // ----- announced and sent packets ------------------------------------------

  /** The packet count announced for a file of `n` bytes: `n / size` rounded up. */
  function TotalPackets(n: nat, size: nat): nat
    requires size > 0
  {
    n / size + if n % size == 0 then 0 else 1
  }

  lemma DivideShift(n: nat, size: nat, start: nat)
    requires size > 0 && start <= n / size
    ensures size * start <= n
    ensures (n - size * start) / size == n / size - start
    ensures (n - size * start) % size == n % size
  {
    var q, r := n / size, n % size;
    assert n == q * size + r;
    Distribute(q, start, size);
    if start < q { AtLeast(q - start, size); }
    DivideUnique(n - size * start, size, q - start, r);
  }

  /** The bytes left from packet `start` on. */
  function Left(n: nat, size: nat, start: nat): nat { if size * start <= n then n - size * start else 0 }

  /** Packets sent from `start` on, against packets announced. */
  lemma CountSent(n: nat, size: nat, start: nat)
    requires size > 0 && start <= TotalPackets(n, size)
    ensures var announced := TotalPackets(n, size) - start;
      && Left(n, size, start) / size + 1 == announced + (if n % size == 0 || announced == 0 then 1 else 0)
      && ((n % size == 0 || announced == 0) ==> Left(n, size, start) % size == 0)
  {
    if start <= n / size {
      DivideShift(n, size, start);
    } else {
      assert n == n / size * size + n % size;
      assert start == n / size + 1;
      Distribute(start, n / size, size);
      DivideSmall(0, size);
    }
  }

  /** For any file and any start that is not refused, the uploader sends the
      announced number of packets, numbered from 0, and one more, empty, exactly when
      the file is a multiple of the packet size or nothing was announced; they join to
      the file from its start-th packet on. */
  lemma SentVersusAnnounced(request: Data, content: bytes, start: nat, id: MessageId)
    requires request.SendFile? && request.packetSize > 0
    requires start <= TotalPackets(|content|, request.packetSize)
    ensures var size := request.packetSize;
      var announced := TotalPackets(|content|, size) - start;
      var u := OpenUpload(request, content, start);
      var sent := Pending(u);
      && |Emitted(u, id)| == |sent|
      && |sent| == announced + (if |content| % size == 0 || announced == 0 then 1 else 0)
      && (forall i :: 0 <= i < |sent| ==> Emitted(u, id)[i] == DataPacket(id, i, sent[i]))
      && Concat(sent) == (if size * start <= |content| then content[size * start..] else [])
      && Concat(sent[..announced]) == Concat(sent)
  {
    hide TotalPackets, Left, Rest, OpenUpload, Pending, Emitted;
    var size := request.packetSize;
    var u := OpenUpload(request, content, start);
    Opened(request, content, start);
    EmittedIs(u, id);
    ChunksJoin(Rest(u), size);
    ChunksCount(Rest(u), size);
    CountSent(|content|, size, start);
    LastIsEmpty(Chunks(Rest(u), size), TotalPackets(|content|, size) - start);
  }

  lemma Opened(request: Data, content: bytes, start: nat)
    requires request.SendFile? && request.packetSize > 0
    ensures var u, size := OpenUpload(request, content, start), request.packetSize;
      && u.request == request && u.packetId == 0 && Pending(u) == Chunks(Rest(u), size)
      && Rest(u) == (if size * start <= |content| then content[size * start..] else [])
      && |Rest(u)| == Left(|content|, size, start)
  {
    hide Chunks;
  }

  lemma LastIsEmpty(chunks: seq<bytes>, n: nat)
    requires n == |chunks| || (n + 1 == |chunks| && chunks[n] == [])
    ensures Concat(chunks[..n]) == Concat(chunks)
  {
    if n == |chunks| {
      assert chunks[..n] == chunks;
    } else {
      assert Concat(chunks) == Concat(chunks[..n]) + [];
    }
  }

  // ----- downloading: which packets have arrived ------------------------------

  /** `ranges::find` and `erase`. */
  function Erase(ids: seq<nat>, id: nat): seq<nat> {
    if ids == [] then [] else if ids[0] == id then ids[1..] else [ids[0]] + Erase(ids[1..], id)
  }

  function Range(from: nat, end: nat): seq<nat>
    requires from <= end
    decreases end
  {
    if from == end then [] else Range(from, end - 1) + [end - 1]
  }

  datatype Arrivals = Arrivals(expected: nat, missing: seq<nat>)

  function Arrive(a: Arrivals, id: nat): Arrivals {
    var missing := Erase(a.missing, id);
    if id > a.expected then Arrivals(id + 1, missing + Range(a.expected, id))
    else if id < a.expected then Arrivals(a.expected, missing)
    else Arrivals(id + 1, missing)
  }

  function ArriveAll(ids: seq<nat>): Arrivals {
    if ids == [] then Arrivals(0, []) else Arrive(ArriveAll(ids[..|ids| - 1]), ids[|ids| - 1])
  }

  predicate Increasing(s: seq<nat>) { forall i, j :: 0 <= i < j < |s| ==> s[i] < s[j] }

  lemma IncreasingAppend(s: seq<nat>, t: seq<nat>, at: nat)
    requires Increasing(s) && Increasing(t)
    requires (forall x :: x in s ==> x < at) && (forall x :: x in t ==> x >= at)
    ensures Increasing(s + t)
  {
    forall i, j | 0 <= i < j < |s + t| ensures (s + t)[i] < (s + t)[j] {
      if i < |s| <= j { assert (s + t)[i] in s && (s + t)[j] in t; }
    }
  }

  lemma {:induction false} EraseIncreasing(s: seq<nat>, id: nat)
    requires Increasing(s)
    ensures Increasing(Erase(s, id))
    ensures forall x: nat :: x in Erase(s, id) <==> x in s && x != id
  {
    if s != [] {
      EraseIncreasing(s[1..], id);
      assert s == [s[0]] + s[1..];
      if s[0] != id {
        IncreasingAppend([s[0]], Erase(s[1..], id), s[0] + 1);
      }
    }
  }

  lemma {:induction false} RangeIs(from: nat, end: nat)
    requires from <= end
    ensures Increasing(Range(from, end))
    ensures forall x :: x in Range(from, end) <==> from <= x < end
    decreases end
  {
    if from < end {
      RangeIs(from, end - 1);
      IncreasingAppend(Range(from, end - 1), [end - 1], end - 1);
    }
  }

  /** What the bookkeeping must say about the ids that have arrived. */
  ghost predicate Tracks(a: Arrivals, ids: seq<nat>) {
    && (forall x: nat :: x in ids ==> x < a.expected)
    && (a.expected > 0 ==> a.expected - 1 in ids)
    && Increasing(a.missing)
    && forall x: nat :: x in a.missing <==> x < a.expected && x !in ids
  }

  /** For every order of arrival, with gaps and duplicates: the expected id is
      one more than the largest seen, and the missing list is increasing and is
      exactly the ids below it that have not arrived. */
  lemma {:induction false} MissingIds(ids: seq<nat>)
    ensures Tracks(ArriveAll(ids), ids)
  {
    hide Tracks, Arrive;
    if ids == [] {
      NothingTracked();
    } else {
      var n := |ids| - 1;
      MissingIds(ids[..n]);
      TracksOneMore(ArriveAll(ids[..n]), ids[..n], ids[n]);
      assert ids == ids[..n] + [ids[n]];
    }
  }

  lemma NothingTracked()
    ensures Tracks(Arrivals(0, []), [])
  {
  }

  lemma TracksOneMore(a: Arrivals, ids: seq<nat>, id: nat)
    requires Tracks(a, ids)
    ensures Tracks(Arrive(a, id), ids + [id])
  {
    EraseIncreasing(a.missing, id);
    assert forall x: nat :: x in ids + [id] <==> x in ids || x == id;
    if id > a.expected {
      RangeIs(a.expected, id);
      IncreasingAppend(Erase(a.missing, id), Range(a.expected, id), a.expected);
    }
  }

  // ----- downloading: the file -----------------------------------------------

  type Hash = (HashAlgorithm, bytes) -> bytes

  datatype Download = Download(
    request: Data, arrivals: Arrivals, file: bytes, cursor: nat, open: bool, transferred: nat)

  function OpenDownload(request: Data): Download
    requires request.SendFile?
  {
    Download(request, Arrivals(0, []), [], 0, true, 0)
  }

  function Zeros(n: nat): bytes { seq(n, _ => 0) }

  /** Writing at a position of a file; a hole before it is filled with zeros. */
  function WriteAt(file: bytes, at: nat, data: bytes): bytes {
    if data == [] then file
    else
      var padded := if at <= |file| then file else file + Zeros(at - |file|);
      padded[..at] + data + if at + |data| < |padded| then padded[at + |data|..] else []
  }

  function FinishTransfer(d: Download, h: Hash): (Download, Option<Error>)
    requires d.request.SendFile?
  {
    (d.(open := false),
     if h(d.request.algorithm, d.file) == d.request.filehash then None else Some(HashMismatch))
  }

  /** A closed file silently ignores what is written. */
  function Append(d: Download, data: bytes): Download {
    if d.open then d.(file := WriteAt(d.file, d.cursor, data), cursor := d.cursor + |data|) else d
  }

  function Overwrite(d: Download, at: nat, data: bytes): Download {
    if d.open then d.(file := WriteAt(d.file, at, data)) else d
  }

  function ReceivePacket(d: Download, h: Hash, id: nat, data: bytes): (Download, Option<Error>)
    requires d.request.SendFile?
  {
    var size, total, before := d.request.packetSize, d.request.totalPackets, d.arrivals.expected;
    var d1 := d.(arrivals := Arrive(d.arrivals, id), transferred := d.transferred + |data|);
    var a := d1.arrivals;
    if id > before then (Append(d1, Zeros((id - before) * size)), None)
    else if id < before then
      var d2 := Overwrite(d1, size * id, data);
      if a.missing == [] && a.expected + 1 == total then FinishTransfer(d2, h) else (d2, None)
    else
      var d2 := Append(d1, data);
      var last := a.expected == total;
      if |data| != size && !last then (d2, Some(SizeInvalid))
      else if last && a.missing == [] then FinishTransfer(d2, h)
      else (d2, None)
  }

  lemma SameRequest(d: Download, h: Hash, id: nat, data: bytes)
    requires d.request.SendFile?
    ensures ReceivePacket(d, h, id, data).0.request == d.request
  {
  }

  /** A non-empty file in packets: all full but the last, none empty. */
  predicate Cut(blocks: seq<bytes>, size: nat) {
    && |blocks| > 0
    && (forall i :: 0 <= i < |blocks| - 1 ==> |blocks[i]| == size)
    && 0 < |blocks[|blocks| - 1]| <= size
  }

  /** The request announces this file. */
  predicate Announces(request: Data, h: Hash, blocks: seq<bytes>) {
    && request.SendFile?
    && Cut(blocks, request.packetSize)
    && request.totalPackets == |blocks|
    && request.filehash == h(request.algorithm, Concat(blocks))
  }

  /** The first `k` packets have arrived in order, once each. */
  predicate InOrder(d: Download, h: Hash, blocks: seq<bytes>, k: nat) {
    && Announces(d.request, h, blocks)
    && k <= |blocks|
    && d.arrivals == Arrivals(k, [])
    && d.file == Concat(blocks[..k]) && d.cursor == |d.file|
    && d.open == (k < |blocks|)
  }

  /** An in-order packet is written after the others without complaint, and the
      file is closed exactly when it is whole. */
  lemma NextInOrder(d: Download, h: Hash, blocks: seq<bytes>, k: nat)
    requires InOrder(d, h, blocks, k) && k < |blocks|
    ensures var (d', error) := ReceivePacket(d, h, k, blocks[k]);
      error.None? && InOrder(d', h, blocks, k + 1) && d'.request == d.request
  {
    assert blocks[..k + 1][..k] == blocks[..k];
    assert WriteAt(d.file, d.cursor, blocks[k]) == d.file + blocks[k];
    if k + 1 == |blocks| { assert blocks[..k + 1] == blocks; }
  }

  /** Delivering packets of the file in some order; the first exception ends it. */
  ghost function Deliver(d: Download, h: Hash, blocks: seq<bytes>, order: seq<nat>): (Download, Option<Error>)
    requires d.request.SendFile?
    requires forall i :: 0 <= i < |order| ==> order[i] < |blocks|
    decreases |order|
  {
    if order == [] then (d, None)
    else
      var (d', error) := ReceivePacket(d, h, order[0], blocks[order[0]]);
      if error.Some? then (d', error) else Deliver(d', h, blocks, order[1..])
  }

  /** The file arrives: no exception, finished, and byte for byte what was sent. */
  ghost predicate Recovered(request: Data, h: Hash, blocks: seq<bytes>, order: seq<nat>)
    requires request.SendFile?
    requires forall i :: 0 <= i < |order| ==> order[i] < |blocks|
  {
    var (d, error) := Deliver(OpenDownload(request), h, blocks, order);
    error.None? && !d.open && d.file == Concat(blocks)
  }

  predicate OnceEach(order: seq<nat>, n: nat) {
    && |order| == n
    && (forall i :: 0 <= i < n ==> order[i] < n)
    && forall i, j :: 0 <= i < j < n ==> order[i] != order[j]
  }

  lemma {:induction false} DeliverInOrder(d: Download, h: Hash, blocks: seq<bytes>, k: nat, order: seq<nat>)
    requires InOrder(d, h, blocks, k) && |order| == |blocks| - k
    requires forall i :: 0 <= i < |order| ==> order[i] == k + i
    ensures var (d', error) := Deliver(d, h, blocks, order);
      error.None? && InOrder(d', h, blocks, |blocks|)
    decreases |order|
  {
    if order != [] {
      NextInOrder(d, h, blocks, k);
      var (d', _) := ReceivePacket(d, h, k, blocks[k]);
      assert order[1..] == order[1..|order|];
      DeliverInOrder(d', h, blocks, k + 1, order[1..]);
    }
  }

  predicate AllZero(bs: bytes) { forall i :: 0 <= i < |bs| ==> bs[i] == 0 }

  lemma ZeroWrite(file: bytes, at: nat, data: bytes)
    requires AllZero(file) && AllZero(data)
    ensures AllZero(WriteAt(file, at, data))
  {
  }

  /** A packet that opens a gap leaves no trace of its own bytes. */
  lemma ZeroStays(d: Download, h: Hash, id: nat, data: bytes)
    requires d.request.SendFile? && AllZero(d.file)
    requires AllZero(data) || id > d.arrivals.expected
    ensures AllZero(ReceivePacket(d, h, id, data).0.file)
    ensures ReceivePacket(d, h, id, data).0.request == d.request
  {
    hide WriteAt, AllZero, Arrive;
    var before, size := d.arrivals.expected, d.request.packetSize;
    if id > before {
      var zeros := Zeros((id - before) * size);
      assert AllZero(zeros) by { ZerosAreZero((id - before) * size); }
      ZeroWrite(d.file, d.cursor, zeros);
    } else {
      ZeroWrite(d.file, d.cursor, data);
      ZeroWrite(d.file, size * id, data);
    }
  }

  lemma ZerosAreZero(n: nat)
    ensures AllZero(Zeros(n))
  {
  }

  lemma {:induction false} NeverWritten(d: Download, h: Hash, blocks: seq<bytes>, order: seq<nat>, g: nat)
    requires d.request.SendFile? && AllZero(d.file) && g !in order
    requires forall i :: 0 <= i < |order| ==> order[i] < |blocks|
    requires forall i :: 0 <= i < |blocks| && i != g ==> AllZero(blocks[i])
    ensures AllZero(Deliver(d, h, blocks, order).0.file)
    decreases |order|
  {
    if order != [] {
      ZeroStays(d, h, order[0], blocks[order[0]]);
      var (d', _) := ReceivePacket(d, h, order[0], blocks[order[0]]);
      NeverWritten(d', h, blocks, order[1..], g);
    }
  }

  /** `n` packets of zeros, but for packet `g`, which is ones. */
  function Marked(n: nat, g: nat, size: nat): seq<bytes> {
    seq(n, i => seq(size, _ => if i == g then 1 else 0))
  }

  lemma {:induction false} ConcatContains(blocks: seq<bytes>, g: nat, b: byte)
    requires g < |blocks| && b in blocks[g]
    ensures b in Concat(blocks)
  {
    var n := |blocks| - 1;
    if g < n { ConcatContains(blocks[..n], g, b); }
  }

  /** Up to the gap, then the packet that opens it, then the others. */
  lemma {:induction false} GapLosesPacket(d: Download, h: Hash, blocks: seq<bytes>, order: seq<nat>, k: nat)
    requires d.request.SendFile? && AllZero(d.file)
    requires forall i :: 0 <= i < |order| ==> order[i] < |blocks|
    requires forall i, j :: 0 <= i < j < |order| ==> order[i] != order[j]
    requires k < |order| && order[k] > d.arrivals.expected + k
    requires forall i :: 0 <= i < k ==> order[i] == d.arrivals.expected + i
    requires forall i :: 0 <= i < |blocks| && i != order[k] ==> AllZero(blocks[i])
    ensures AllZero(Deliver(d, h, blocks, order).0.file)
    decreases k
  {
    var g := order[k];
    ZeroStays(d, h, order[0], blocks[order[0]]);
    var (d', _) := ReceivePacket(d, h, order[0], blocks[order[0]]);
    if k == 0 {
      assert g !in order[1..];
      NeverWritten(d', h, blocks, order[1..], g);
    } else {
      assert d'.arrivals.expected == d.arrivals.expected + 1;
      GapLosesPacket(d', h, blocks, order[1..], k - 1);
    }
  }

  lemma {:induction false} NotBelow(order: seq<nat>, n: nat, k: nat, m: nat)
    requires OnceEach(order, n) && m <= k < n
    requires forall i :: 0 <= i < k ==> order[i] == i
    ensures order[k] >= m
  {
    if m > 0 {
      NotBelow(order, n, k, m - 1);
      assert order[m - 1] == m - 1;
    }
  }

  lemma {:induction false} FirstOutOfPlace(order: seq<nat>, n: nat, k: nat)
    requires OnceEach(order, n) && k <= n
    requires forall i :: 0 <= i < k ==> order[i] == i
    requires exists i :: 0 <= i < n && order[i] != i
    ensures exists j :: 0 <= j < n && order[j] > j && forall i :: 0 <= i < j ==> order[i] == i
    decreases n - k
  {
    if k < n && order[k] == k {
      FirstOutOfPlace(order, n, k + 1);
    } else if k < n {
      NotBelow(order, n, k, k);
    }
  }

  /** The request that announces a given file. */
  function AnnouncementOf(h: Hash, blocks: seq<bytes>, size: nat): Data {
    SendFile([], SHA512, h(SHA512, Concat(blocks)), 0, size, |blocks|)
  }

  /** Packets delivered once each recover every file exactly when they arrive in
      order: any other order loses the packet that opened the first gap. */
  lemma RecoveredIffInOrder(h: Hash, order: seq<nat>, n: nat, size: nat)
    requires n > 0 && size > 0 && OnceEach(order, n)
    ensures (forall i :: 0 <= i < n ==> order[i] == i)
      <==> forall blocks | |blocks| == n && Cut(blocks, size) ::
             Recovered(AnnouncementOf(h, blocks, size), h, blocks, order)
  {
    if forall i :: 0 <= i < n ==> order[i] == i {
      forall blocks | |blocks| == n && Cut(blocks, size)
        ensures Recovered(AnnouncementOf(h, blocks, size), h, blocks, order)
      {
        var d := OpenDownload(AnnouncementOf(h, blocks, size));
        assert blocks[..0] == [];
        DeliverInOrder(d, h, blocks, 0, order);
        assert blocks[..n] == blocks;
      }
    } else {
      FirstOutOfPlace(order, n, 0);
      var k :| 0 <= k < n && order[k] > k && forall i :: 0 <= i < k ==> order[i] == i;
      var g := order[k];
      var blocks := Marked(n, g, size);
      assert Cut(blocks, size);
      var request := AnnouncementOf(h, blocks, size);
      GapLosesPacket(OpenDownload(request), h, blocks, order, k);
      assert blocks[g][0] == 1;
      ConcatContains(blocks, g, 1);
      assert !Recovered(request, h, blocks, order);
    }
  }

  // ----- listing a folder ----------------------------------------------------

  const MAX_COUNT: nat := 255

  datatype Lister = Lister(entries: seq<FileInfo>, pos: nat, currentId: nat, extraSent: bool)

  function OpenLister(entries: seq<FileInfo>): Lister { Lister(entries, 0, 0, false) }

  function NextList(l: Lister, requestId: MessageId): (Lister, Option<Data>)
    requires l.pos <= |l.entries|
  {
    if l.extraSent then (l, None)
    else
      var end := if l.pos + MAX_COUNT < |l.entries| then l.pos + MAX_COUNT else |l.entries|;
      var files := l.entries[l.pos..end];
      (l.(pos := end, currentId := l.currentId + 1, extraSent := files == []),
       Some(FileList(requestId, l.currentId, files)))
  }

  datatype Listing = Listing(files: seq<FileInfo>, currentId: nat, missing: seq<nat>, gotEmpty: bool)

  const NEW_LISTING := Listing([], 0, [], false)

  function Finished(l: Listing): bool { l.missing == [] && l.gotEmpty }

  function ReceiveList(l: Listing, id: nat, files: seq<FileInfo>): Listing {
    if id < l.currentId && id !in l.missing then l // a packet received twice
    else
      var l1 :=
        if id > l.currentId then l.(missing := l.missing + Range(l.currentId, id), currentId := id)
        else if id < l.currentId then l.(missing := Erase(l.missing, id))
        else l.(currentId := id + 1);
      if files == [] then l1.(gotEmpty := true) else l1.(files := l1.files + files)
  }

  /** One call gives the next 255 entries under the next number; a list without any says
      that there are no more, and nothing follows it. */
  lemma ListGives(l: Lister, id: MessageId)
    requires l.pos <= |l.entries|
    ensures var (l', packet) := NextList(l, id);
      if l.extraSent then l' == l && packet.None?
      else
        && packet.Some? && packet.value.FileList? && packet.value.requestId == id && packet.value.packetId == l.currentId
        && l'.entries == l.entries && l'.currentId == l.currentId + 1
        && l.pos <= l'.pos <= |l.entries| && packet.value.files == l.entries[l.pos..l'.pos]
        && l'.pos - l.pos <= 255 && (l'.pos < |l.entries| ==> l'.pos - l.pos == 255)
        && (l'.extraSent <==> l.pos == |l.entries|)
  {
  }

  /** A list that arrives: one received before is ignored; the lists skipped are missing; its
      entries are added, in the order of arrival; an empty one is remembered. */
  lemma ListArrivalIs(l: Listing, id: nat, files: seq<FileInfo>)
    requires Increasing(l.missing)
    ensures var l', again := ReceiveList(l, id, files), id < l.currentId && id !in l.missing;
      && (again ==> l' == l)
      && (!again ==>
            && l'.files == l.files + files && (l'.gotEmpty <==> l.gotEmpty || files == [])
            && (forall x: nat :: x in l'.missing <==> (x in l.missing && !(x == id < l.currentId)) || l.currentId <= x < id)
            && l'.currentId == if id < l.currentId then l.currentId else if id == l.currentId then id + 1 else id)
  {
    EraseIncreasing(l.missing, id);
    if id > l.currentId { RangeIs(l.currentId, id); }
  }

  // ----- what a packet does to the file -------------------------------------------------

  /** The file after writing `data` at `at`, byte by byte; a hole is filled with zeros. */
  ghost predicate WrittenAt(file: bytes, at: nat, data: bytes, file': bytes) {
    && |file'| == (if data == [] || at + |data| <= |file| then |file| else at + |data|)
    && forall i :: 0 <= i < |file'| ==>
         file'[i] == if at <= i < at + |data| then data[i - at] else if i < |file| then file[i] else 0
  }

  lemma WriteAtIs(file: bytes, at: nat, data: bytes)
    ensures WrittenAt(file, at, data, WriteAt(file, at, data))
  {
    if data != [] {
      var padded := if at <= |file| then file else file + Zeros(at - |file|);
      assert |padded[..at]| == at;
    }
  }

  /** What finishing needs and says. */
  ghost predicate FinishedAs(d: Download, d': Download, error: Option<Error>, h: Hash)
    requires d.request.SendFile?
  {
    && !d'.open
    && (error.None? <==> h(d.request.algorithm, d'.file) == d.request.filehash)
    && (error.Some? ==> error == Some(HashMismatch))
  }

  /** How many bytes the packets skipped would have. */
  function Skipped(d: Download, id: nat): nat
    requires d.request.SendFile? && id > d.arrivals.expected
  {
    var count: nat := id - d.arrivals.expected;
    count * d.request.packetSize
  }

  /** A packet for an open download. The one expected goes to the cursor; it is refused, though
      written, if it is neither full nor the last, and finishes the file if it is the last and
      none is missing. One that comes early is lost: zeros are written for those skipped. One
      that comes late goes to its place, and finishes the file if none is missing any more and
      the next one expected is the last. */
  lemma PacketArrival(d: Download, h: Hash, id: nat, data: bytes)
    requires d.request.SendFile? && d.open && Increasing(d.arrivals.missing)
    ensures var (d', error) := ReceivePacket(d, h, id, data);
      var size, total, expected := d.request.packetSize, d.request.totalPackets, d.arrivals.expected;
      var still := exists x: nat :: x in d.arrivals.missing && x != id;
      && d'.request == d.request && d'.transferred == d.transferred + |data|
      && if id == expected then
           && WrittenAt(d.file, d.cursor, data, d'.file) && d'.cursor == d.cursor + |data|
           && if |data| != size && id + 1 != total then error == Some(SizeInvalid) && d'.open
              else if id + 1 == total && !still then FinishedAs(d, d', error, h)
              else error.None? && d'.open
         else if id > expected then
           && error.None? && d'.open && d'.cursor == d.cursor + Skipped(d, id)
           && WrittenAt(d.file, d.cursor, Zeros(Skipped(d, id)), d'.file)
         else
           && WrittenAt(d.file, size * id, data, d'.file) && d'.cursor == d.cursor
           && if !still && expected + 1 == total then FinishedAs(d, d', error, h) else error.None? && d'.open
  {
    hide WriteAt, Zeros;
    var missing := Erase(d.arrivals.missing, id);
    EraseIncreasing(d.arrivals.missing, id);
    NoneMissing(missing);
    WriteAtIs(d.file, d.cursor, data);
    WriteAtIs(d.file, d.request.packetSize * id, data);
    if id > d.arrivals.expected {
      WriteAtIs(d.file, d.cursor, Zeros(Skipped(d, id)));
      ZerosCount(Skipped(d, id));
    }
  }

  lemma ZerosCount(n: nat)
    ensures |Zeros(n)| == n
  {
  }

  lemma NoneMissing(missing: seq<nat>)
    ensures missing == [] <==> forall x: nat :: x !in missing
  {
    if missing != [] { assert missing[0] in missing; }
  }
}
