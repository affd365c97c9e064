/** Reassembly of requests from a byte stream read in arbitrary pieces. */
module Stream {
  import opened Bytes
  import opened Requests
  import opened VarInt
  import opened Codec
  import ProtocolHandler

  /** One pass over a buffer: the requests found, what is left, and the
      exception that ended the pass, if one did. */
  datatype Pass = Pass(requests: seq<Request>, rest: bytes, error: Option<Error>)

  function Drain(buffer: bytes): Pass {
    match ParseRequest(buffer)
    case Incomplete => Pass([], buffer, None)
    case Failed(e) => Pass([], buffer, Some(e))
    case Parsed(r, n) => var more := Drain(buffer[n..]); more.(requests := [r] + more.requests)
  }

  /** What is done with each request; it may throw. */
  type Handler<!S> = (S, Request) -> (S, Option<Error>)

  /** Handling requests in order, up to the first exception. */
  function Feed<S>(handle: Handler<S>, s: S, rs: seq<Request>): (S, Option<Error>)
    decreases |rs|
  {
    if rs == [] then (s, None)
    else
      var (s1, error) := handle(s, rs[0]);
      if error.Some? then (s1, error) else Feed(handle, s1, rs[1..])
  }

  datatype Polled<S> = Polled(state: S, buffer: bytes, error: Option<Error>)

  /** One read. An exception, of the parser or of the handler, keeps the whole buffer. */
  function PollWith<S>(handle: Handler<S>, s: S, buffer: bytes, read: bytes): Polled<S> {
    var pass := Drain(buffer + read);
    var (s1, error) := Feed(handle, s, pass.requests);
    if error.Some? then Polled(s1, buffer + read, error)
    else if pass.error.Some? then Polled(s1, buffer + read, pass.error)
    else Polled(s1, pass.rest, None)
  }

  /** The receiving end of a connection: `poll_requests`, with what the peer does with a
      request as a handler of its state. */
  class PeerBase<S> {
    var buffer: bytes
    var state: S
    var connected: bool

    constructor (state: S)
      ensures buffer == [] && this.state == state && connected
    {
      buffer, this.state, connected := [], state, true;
    }

    method PollRequests(handle: Handler<S>, read: bytes) returns (error: Option<Error>)
      modifies this
      ensures connected == old(connected)
      ensures !connected ==> unchanged(this) && error.None?
      ensures connected ==> Polled(state, buffer, error) == PollWith(handle, old(state), old(buffer), read)
    {
      if !connected {
        return None;
      }
      buffer := buffer + read;
      if buffer == [] {
        return None;
      }
      var view := buffer;
      var total := 0;
      ghost var all := Drain(buffer);
      while true
        invariant connected && buffer == old(buffer) + read
        invariant 0 <= total <= |buffer| && view == buffer[total..]
        invariant Feed(handle, old(state), all.requests) == Feed(handle, state, Drain(view).requests)
        invariant all.rest == Drain(view).rest && all.error == Drain(view).error
        decreases |view|
      {
        var ret := ProtocolHandler.ParseRequest(view);
        if ret.Incomplete? {
          break;
        }
        if ret.Failed? {
          return Some(ret.error);
        }
        ghost var more := Drain(view[ret.consumed..]).requests;
        assert ([ret.request] + more)[1..] == more;
        var (next, e) := handle(state, ret.request);
        state := next;
        if e.Some? {
          return e;
        }
        total := total + ret.consumed;
        view := view[ret.consumed..];
      }
      buffer := buffer[total..];
      return None;
    }
  }

  // ----- exceptions bring requests again -----------------------------------------

  /** More bytes never take back a request already found. */
  lemma {:induction false} DrainGrows(a: bytes, b: bytes)
    ensures Drain(a).requests <= Drain(a + b).requests
    decreases |a|
  {
    if ParseRequest(a).Parsed? {
      var n := ParseRequest(a).consumed;
      ParsedIsStable(a, b);
      assert (a + b)[n..] == a[n..] + b;
      DrainGrows(a[n..], b);
    }
  }

  /** After a read that throws, whoever threw, the next read hands over every request of
      the buffer again, those already handled first. */
  lemma ThrowRedelivers<S>(handle: Handler<S>, s: S, buffer: bytes, read: bytes, more: bytes)
    requires PollWith(handle, s, buffer, read).error.Some?
    ensures var kept := PollWith(handle, s, buffer, read).buffer;
      kept == buffer + read && Drain(buffer + read).requests <= Drain(kept + more).requests
  {
    DrainGrows(buffer + read, more);
  }

  lemma {:induction false} FeedAppend<S>(handle: Handler<S>, s: S, a: seq<Request>, b: seq<Request>)
    ensures Feed(handle, s, a + b) ==
      if Feed(handle, s, a).1.Some? then Feed(handle, s, a) else Feed(handle, Feed(handle, s, a).0, b)
    decreases |a|
  {
    if a == [] {
      assert a + b == b;
    } else {
      assert (a + b)[1..] == a[1..] + b;
      FeedAppend(handle, handle(s, a[0]).0, a[1..], b);
    }
  }

  // ----- requests only recorded ------------------------------------------------------

  /** The requests handed over so far, oldest first. */
  datatype State = State(buffer: bytes, dispatched: seq<Request>)

  function Record(log: seq<Request>, r: Request): (seq<Request>, Option<Error>) { (log + [r], None) }

  /** The state after one read, the requests being recorded. */
  function Poll(s: State, read: bytes): State {
    var buffer := s.buffer + read;
    var pass := Drain(buffer);
    State(if pass.error.None? then pass.rest else buffer, s.dispatched + pass.requests)
  }

  lemma {:induction false} FeedRecords(log: seq<Request>, rs: seq<Request>)
    ensures Feed(Record, log, rs) == (log + rs, None)
    decreases |rs|
  {
    if rs == [] {
      assert log + rs == log;
    } else {
      FeedRecords(log + [rs[0]], rs[1..]);
      assert rs == [rs[0]] + rs[1..];
      MoveRequest(log, rs[0], rs[1..]);
    }
  }

  lemma PollRecords(s: State, read: bytes)
    ensures var p := PollWith(Record, s.dispatched, s.buffer, read);
      State(p.buffer, p.state) == Poll(s, read) && p.error == Drain(s.buffer + read).error
  {
    FeedRecords(s.dispatched, Drain(s.buffer + read).requests);
  }

  lemma MoveRequest(a: seq<Request>, r: Request, b: seq<Request>)
    ensures a + ([r] + b) == a + [r] + b
  {
  }

  // ----- how the stream is cut does not matter -------------------------------

  /** Draining part of a stream, then the rest, finds what draining it at once
      finds: for any bytes at all, as long as the first pass does not throw. */
  lemma {:induction false} DrainInTwo(a: bytes, b: bytes)
    requires Drain(a).error.None?
    ensures var first, second := Drain(a), Drain(Drain(a).rest + b);
      Drain(a + b) == second.(requests := first.requests + second.requests)
    decreases |a|
  {
    if ParseRequest(a).Parsed? {
      var n := ParseRequest(a).consumed;
      ParsedIsStable(a, b);
      assert (a + b)[n..] == a[n..] + b;
      DrainInTwo(a[n..], b);
      Assoc([ParseRequest(a).request], Drain(a[n..]).requests, Drain(Drain(a).rest + b).requests);
    } else {
      var second := Drain(a + b);
      assert [] + second.requests == second.requests;
    }
  }

  lemma Assoc(a: seq<Request>, b: seq<Request>, c: seq<Request>)
    ensures a + (b + c) == (a + b) + c
  {
  }

  /** Reading the chunks one by one; none of the reads may throw. */
  ghost predicate ReadsFine(chunks: seq<bytes>) {
    forall i :: 0 < i <= |chunks| ==> Drain(Concat(chunks[..i])).error.None?
  }

  ghost function PollAll(chunks: seq<bytes>): State {
    if chunks == [] then State([], [])
    else Poll(PollAll(chunks[..|chunks| - 1]), chunks[|chunks| - 1])
  }

  lemma {:induction false} AnyChunking(chunks: seq<bytes>)
    requires ReadsFine(chunks)
    ensures var pass := Drain(Concat(chunks)); PollAll(chunks) == State(pass.rest, pass.requests)
  {
    if chunks != [] {
      var n := |chunks| - 1;
      var before := chunks[..n];
      forall i | 0 < i <= n ensures Drain(Concat(before[..i])).error.None? {
        assert before[..i] == chunks[..i];
      }
      AnyChunking(before);
      assert Drain(Concat(before)).error.None? by {
        if n > 0 { assert before == chunks[..n]; }
      }
      DrainInTwo(Concat(before), chunks[n]);
      assert chunks[..|chunks|] == chunks;
    }
  }

  /** The same with a handler. */
  ghost function PollAllWith<S>(handle: Handler<S>, s: S, chunks: seq<bytes>): Polled<S> {
    if chunks == [] then Polled(s, [], None)
    else
      var before := PollAllWith(handle, s, chunks[..|chunks| - 1]);
      PollWith(handle, before.state, before.buffer, chunks[|chunks| - 1])
  }

  /** If neither parser nor handler throws, however the stream is cut: every request is
      handled once and in order. */
  lemma {:induction false} HandledOnce<S>(handle: Handler<S>, s: S, chunks: seq<bytes>)
    requires ReadsFine(chunks) && Feed(handle, s, Drain(Concat(chunks)).requests).1.None?
    ensures var pass := Drain(Concat(chunks));
      PollAllWith(handle, s, chunks) == Polled(Feed(handle, s, pass.requests).0, pass.rest, None)
  {
    hide ParseRequest;
    DrainNothing();
    if chunks != [] {
      var n := |chunks| - 1;
      var before := chunks[..n];
      forall i | 0 < i <= n ensures Drain(Concat(before[..i])).error.None? {
        assert before[..i] == chunks[..i];
      }
      assert Drain(Concat(before)).error.None? by { if n > 0 { assert before == chunks[..n]; } }
      DrainInTwo(Concat(before), chunks[n]);
      var first := Drain(Concat(before));
      FeedAppend(handle, s, first.requests, Drain(first.rest + chunks[n]).requests);
      HandledOnce(handle, s, before);
      assert chunks[..|chunks|] == chunks;
    }
  }

  // ----- streams of well-formed requests -------------------------------------

  /** How many of the frames end within the first `k` bytes. */
  function Complete(rs: seq<Request>, k: nat): (n: nat)
    ensures n <= |rs|
  {
    if rs == [] || k < |Frame(rs[0])| then 0 else 1 + Complete(rs[1..], k - |Frame(rs[0])|)
  }

  /** The first `k` bytes of the stream end inside some frame's size field. */
  predicate BadCut(rs: seq<Request>, k: nat) {
    rs != [] && if k < |Frame(rs[0])| then CutInSize(rs[0], k) else BadCut(rs[1..], k - |Frame(rs[0])|)
  }

  lemma DrainNothing()
    ensures Drain([]) == Pass([], [], None)
  {
  }

  lemma DrainFrame(r: Request, rest: bytes)
    requires Sendable(r) && ShortEnough(r)
    ensures var more := Drain(rest);
      Drain(Frame(r) + rest) == more.(requests := [Delivered(r)] + more.requests)
  {
    FrameRoundTrip(r, rest);
    assert (Frame(r) + rest)[|Frame(r)|..] == rest;
  }

  /** Draining any prefix of a stream of frames finds the complete ones and
      keeps the rest; it throws exactly when the prefix ends in a size field. */
  lemma {:induction false} DrainPrefix(rs: seq<Request>, k: nat)
    requires AllSendable(rs) && k <= |Stream(rs)|
    ensures var pass, n := Drain(Stream(rs)[..k]), Complete(rs, k);
      && pass.requests == DeliveredAll(rs[..n])
      && |Stream(rs[..n])| <= k && pass.rest == Stream(rs)[..k][|Stream(rs[..n])|..]
      && pass.error == if BadCut(rs, k) then Some(MessageTooLong) else None
  {
    hide ParseRequest, Frame, CutInSize, Sendable, ShortEnough;
    var raw := Stream(rs)[..k];
    if rs == [] {
      DrainNothing();
    } else {
      var f, tail := Frame(rs[0]), Stream(rs[1..]);
      if k < |f| {
        assert raw == f[..k];
        PartialFrame(rs[0], k);
        assert rs[..0] == [];
      } else {
        var m := k - |f|;
        assert raw == f + tail[..m];
        DrainFrame(rs[0], tail[..m]);
        DrainPrefix(rs[1..], m);
        var n := Complete(rs[1..], m);
        assert rs[..n + 1][1..] == rs[1..][..n];
        assert Stream(rs[..n + 1]) == f + Stream(rs[1..][..n]);
        Skip(f, tail[..m], |Stream(rs[1..][..n])|);
      }
    }
  }

  lemma Skip(a: bytes, b: bytes, n: nat)
    requires n <= |b|
    ensures (a + b)[|a| + n..] == b[n..]
  {
  }

  /** The bytes received after the first `i` reads. */
  ghost function Cut(chunks: seq<bytes>, i: nat): nat
    requires i <= |chunks|
  {
    |Concat(chunks[..i])|
  }

  lemma ReadThrowsIff(rs: seq<Request>, chunks: seq<bytes>, i: nat)
    requires AllSendable(rs) && Concat(chunks) <= Stream(rs) && i <= |chunks|
    ensures Drain(Concat(chunks[..i])).error.None? <==> !BadCut(rs, Cut(chunks, i))
  {
    hide Drain, Frame, Sendable, CutInSize, ParseRequest;
    ConcatAppend(chunks[..i], chunks[i..]);
    assert chunks[..i] + chunks[i..] == chunks;
    Within(Concat(chunks[..i]), Concat(chunks[i..]), Stream(rs));
    DrainPrefix(rs, Cut(chunks, i));
  }

  lemma Within(a: bytes, b: bytes, whole: bytes)
    requires a + b <= whole
    ensures |a| <= |whole| && whole[..|a|] == a
  {
  }

  /** Reassembly: for any requests and any cutting of their frames into reads,
      no read throws if and only if none ends inside a size field; and then
      exactly the requests received so far were dispatched, once each and in
      order, and exactly the unfinished tail is kept. */
  lemma Reassembly(rs: seq<Request>, chunks: seq<bytes>)
    requires AllSendable(rs) && Concat(chunks) <= Stream(rs)
    ensures ReadsFine(chunks) <==> forall i :: 0 < i <= |chunks| ==> !BadCut(rs, Cut(chunks, i))
    ensures ReadsFine(chunks) ==>
      var n, s := Complete(rs, |Concat(chunks)|), PollAll(chunks);
      && s.dispatched == DeliveredAll(rs[..n])
      && Stream(rs[..n]) + s.buffer == Concat(chunks)
  {
    hide Drain, Frame, Stream, BadCut, Sendable, ShortEnough;
    forall i | 0 < i <= |chunks|
      ensures Drain(Concat(chunks[..i])).error.None? <==> !BadCut(rs, Cut(chunks, i))
    {
      ReadThrowsIff(rs, chunks, i);
    }
    if ReadsFine(chunks) {
      var k := |Concat(chunks)|;
      assert Concat(chunks) == Stream(rs)[..k];
      AnyChunking(chunks);
      DrainPrefix(rs, k);
      var n := Complete(rs, k);
      StreamPrefix(rs, n);
    }
  }

  lemma {:induction false} StreamPrefix(rs: seq<Request>, n: nat)
    requires n <= |rs|
    ensures Stream(rs[..n]) <= Stream(rs)
  {
    if n > 0 {
      var f, some, all := Frame(rs[0]), Stream(rs[1..][..n - 1]), Stream(rs[1..]);
      StreamPrefix(rs[1..], n - 1);
      assert rs[..n][1..] == rs[1..][..n - 1];
      assert Stream(rs[..n]) == f + some && Stream(rs) == f + all;
    } else {
      assert rs[..0] == [];
    }
  }

  /** When everything has arrived, everything was dispatched and nothing is kept. */
  lemma WholeStream(rs: seq<Request>, chunks: seq<bytes>)
    requires AllSendable(rs) && Concat(chunks) == Stream(rs)
    requires forall i :: 0 < i <= |chunks| ==> !BadCut(rs, Cut(chunks, i))
    ensures PollAll(chunks) == State([], DeliveredAll(rs))
  {
    Reassembly(rs, chunks);
    AllComplete(rs);
    assert rs[..|rs|] == rs;
    assert |PollAll(chunks).buffer| == 0;
  }

  lemma {:induction false} AllComplete(rs: seq<Request>)
    ensures Complete(rs, |Stream(rs)|) == |rs|
  {
    if rs != [] { AllComplete(rs[1..]); }
  }

  /** A read that throws keeps its requests in the buffer, so they are
      dispatched again: the first frame arrives with six bytes of the second,
      the rest of the second in the next read. */
  lemma ThrowingReadDispatchesTwice(r1: Request, r2: Request)
    requires AllSendable([r1, r2])
    ensures var cut := Frame(r1) + Frame(r2)[..6];
      PollAll([cut, Frame(r2)[6..]]) == State([], [Delivered(r1), Delivered(r1), Delivered(r2)])
  {
    hide Drain, Frame, Sendable, ShortEnough, Poll, PollAll;
    assert Sendable(r1) && ShortEnough(r1) by { assert [r1, r2][0] == r1; }
    assert Sendable(r2) && ShortEnough(r2) by { assert [r1, r2][1] == r2; }
    SecondCutAtSix(r2);
    var f1, f2 := Frame(r1), Frame(r2);
    var cut, rest := f1 + f2[..6], f2[6..];
    var d1, d2 := [Delivered(r1)], [Delivered(r2)];
    DrainFrame(r1, f2[..6]);
    DrainFrame(r1, f2);
    DrainFrame(r2, []);
    DrainNothing();
    assert f2 + [] == f2 && d1 + [] == d1 && d2 + [] == d2 && d1 + d2 == [Delivered(r1), Delivered(r2)];
    Rejoin(f1, f2);
    TwoPolls(cut, rest, [Delivered(r1)], [Delivered(r1), Delivered(r2)]);
  }

  lemma Rejoin(a: bytes, b: bytes)
    requires |b| >= 6
    ensures (a + b[..6]) + b[6..] == a + b
  {
  }

  lemma SecondCutAtSix(r: Request)
    requires Sendable(r) && ShortEnough(r)
    ensures |Frame(r)| > 6
    ensures Drain(Frame(r)[..6]) == Pass([], Frame(r)[..6], Some(MessageTooLong))
  {
    EncodeCorrect(|Payload(r.data)|);
    PartialFrame(r, 6);
  }

  lemma TwoPolls(a: bytes, b: bytes, first: seq<Request>, second: seq<Request>)
    requires Drain(a).error.Some? && Drain(a).requests == first
    requires Drain(a + b) == Pass(second, [], None)
    ensures PollAll([a, b]) == State([], first + second)
  {
    assert [a, b][..1] == [a] && [a][..0] == [];
    assert [] + a == a && [] + first == first;
    assert PollAll([a]) == State(a, first);
  }

  // ----- exactly what reads that throw bring twice -----------------------------------

  /** How many frames are no longer in the buffer after these reads: those complete at the
      last one that did not throw. */
  ghost function Gone(rs: seq<Request>, chunks: seq<bytes>): (n: nat)
    ensures n <= |rs|
  {
    if chunks == [] then 0
    else
      var k := |Concat(chunks)|;
      if BadCut(rs, k) then Gone(rs, chunks[..|chunks| - 1]) else Complete(rs, k)
  }

  lemma {:induction false} CompleteGrows(rs: seq<Request>, k: nat, m: nat)
    requires k <= m
    ensures Complete(rs, k) <= Complete(rs, m)
  {
    if rs != [] && k >= |Frame(rs[0])| {
      CompleteGrows(rs[1..], k - |Frame(rs[0])|, m - |Frame(rs[0])|);
    }
  }

  /** Counting from a frame on. */
  lemma {:induction false} CompleteFrom(rs: seq<Request>, b: nat, k: nat)
    requires b <= |rs| && |Stream(rs[..b])| <= k
    ensures var m := k - |Stream(rs[..b])|;
      && Complete(rs, k) == b + Complete(rs[b..], m) && (BadCut(rs, k) <==> BadCut(rs[b..], m))
    ensures Stream(rs) == Stream(rs[..b]) + Stream(rs[b..])
  {
    hide Frame, CutInSize;
    if b == 0 {
      assert rs[..0] == [] && rs[0..] == rs;
    } else {
      var f, tail := Frame(rs[0]), rs[1..];
      assert rs[..b][1..] == tail[..b - 1] && rs[b..] == tail[b - 1..];
      CompleteFrom(tail, b - 1, k - |f|);
      Regroup(f, Stream(tail[..b - 1]), Stream(tail[b - 1..]));
    }
  }

  lemma Regroup(a: bytes, b: bytes, c: bytes)
    ensures a + (b + c) == a + b + c
  {
  }

  lemma {:induction false} CompleteFits(rs: seq<Request>, k: nat)
    ensures |Stream(rs[..Complete(rs, k)])| <= k
  {
    hide Frame;
    if rs == [] || k < |Frame(rs[0])| {
      assert rs[..0] == [];
    } else {
      var m := k - |Frame(rs[0])|;
      CompleteFits(rs[1..], m);
      var n := Complete(rs[1..], m);
      assert rs[..n + 1][1..] == rs[1..][..n];
    }
  }

  /** All that was handed over, read by read. */
  ghost function Handed(rs: seq<Request>, chunks: seq<bytes>): seq<Request> {
    if chunks == [] then []
    else
      var before, end := chunks[..|chunks| - 1], Complete(rs, |Concat(chunks)|);
      Handed(rs, before) + DeliveredAll(if Gone(rs, before) <= end then rs[Gone(rs, before)..end] else [])
  }

  lemma {:induction false} GoneBound(rs: seq<Request>, chunks: seq<bytes>)
    ensures Gone(rs, chunks) <= Complete(rs, |Concat(chunks)|)
    ensures |Stream(rs[..Gone(rs, chunks)])| <= |Concat(chunks)|
  {
    hide Frame, BadCut, Stream;
    var k := |Concat(chunks)|;
    if chunks != [] && BadCut(rs, k) {
      GoneBound(rs, chunks[..|chunks| - 1]);
      CompleteGrows(rs, |Concat(chunks[..|chunks| - 1])|, k);
    } else if chunks != [] {
      CompleteFits(rs, k);
    } else {
      NoFrames(rs);
    }
  }

  lemma NoFrames(rs: seq<Request>)
    ensures Stream(rs[..0]) == [] && rs[0..] == rs
  {
  }

  /** For any requests and any cutting of their frames, reads that throw included: what is
      handed over and what stays in the buffer. */
  lemma {:induction false} AfterReads(rs: seq<Request>, chunks: seq<bytes>)
    requires AllSendable(rs) && Concat(chunks) <= Stream(rs)
    ensures |Stream(rs[..Gone(rs, chunks)])| <= |Concat(chunks)|
    ensures PollAll(chunks).buffer == Concat(chunks)[|Stream(rs[..Gone(rs, chunks)])|..]
    ensures PollAll(chunks).dispatched == Handed(rs, chunks)
  {
    hide Frame, BadCut, Stream, Sendable, ShortEnough, Drain, DeliveredAll;
    GoneBound(rs, chunks);
    if chunks == [] {
      NoFrames(rs);
    } else {
      var before, last := chunks[..|chunks| - 1], chunks[|chunks| - 1];
      AfterReads(rs, before);
      OneMoreRead(rs, before, last);
      assert chunks == before + [last];
    }
  }

  lemma OneMoreRead(rs: seq<Request>, before: seq<bytes>, last: bytes)
    requires AllSendable(rs) && Concat(before + [last]) <= Stream(rs)
    requires |Stream(rs[..Gone(rs, before)])| <= |Concat(before)|
    requires PollAll(before).buffer == Concat(before)[|Stream(rs[..Gone(rs, before)])|..]
    requires PollAll(before).dispatched == Handed(rs, before)
    ensures var chunks := before + [last];
      && |Stream(rs[..Gone(rs, chunks)])| <= |Concat(chunks)|
      && PollAll(chunks).buffer == Concat(chunks)[|Stream(rs[..Gone(rs, chunks)])|..]
      && PollAll(chunks).dispatched == Handed(rs, chunks)
  {
    hide Frame, BadCut, Stream, Sendable, ShortEnough, Drain, DeliveredAll, Complete;
    var chunks := before + [last];
    assert chunks[..|chunks| - 1] == before;
    assert Concat(chunks) == Concat(before) + last;
    var k, b := |Concat(chunks)|, Gone(rs, before);
    var skip := |Stream(rs[..b])|;
    GoneBound(rs, before);
    GoneBound(rs, chunks);
    CompleteGrows(rs, |Concat(before)|, k);
    CompleteFrom(rs, b, k);
    Shifted(Stream(rs[..b]), Stream(rs[b..]), Concat(chunks));
    assert Concat(chunks)[skip..] == Concat(before)[skip..] + last;
    assert AllSendable(rs[b..]);
    DrainPrefix(rs[b..], k - skip);
    var n := Complete(rs[b..], k - skip);
    assert rs[b..][..n] == rs[b..b + n];
    if !BadCut(rs, k) { CutOff(rs, b, n, Concat(chunks)); }
  }

  lemma Shifted(a: bytes, b: bytes, c: bytes)
    requires c <= a + b && |a| <= |c|
    ensures |c| - |a| <= |b| && c[|a|..] == b[..|c| - |a|]
  {
  }

  lemma CutOff(rs: seq<Request>, b: nat, n: nat, c: bytes)
    requires b + n <= |rs| && |Stream(rs[..b])| + |Stream(rs[b..][..n])| <= |c|
    ensures |Stream(rs[..b + n])| <= |c|
    ensures c[|Stream(rs[..b])|..][|Stream(rs[b..][..n])|..] == c[|Stream(rs[..b + n])|..]
  {
    hide Frame, BadCut, Complete, Stream;
    var front := rs[..b + n];
    assert front[..b] == rs[..b] && front[b..] == rs[b..][..n];
    StreamPrefix(front, b);
    CompleteFrom(front, b, |Stream(front[..b])|);
  }

  /** After the first `i` reads no complete frame is in the buffer. */
  ghost predicate NothingWhole(rs: seq<Request>, chunks: seq<bytes>, i: nat)
    requires i <= |chunks|
  {
    Gone(rs, chunks[..i]) == Complete(rs, Cut(chunks, i))
  }

  lemma {:induction false} DeliveredAppend(a: seq<Request>, b: seq<Request>)
    ensures DeliveredAll(a + b) == DeliveredAll(a) + DeliveredAll(b)
    ensures |DeliveredAll(a)| == |a|
  {
    if a == [] {
      assert a + b == b;
    } else {
      assert (a + b)[1..] == a[1..] + b;
      DeliveredAppend(a[1..], b);
    }
  }

  /** So after every read but the last. */
  ghost predicate NeverWhole(rs: seq<Request>, chunks: seq<bytes>) {
    forall i :: 0 < i < |chunks| ==> NothingWhole(rs, chunks, i)
  }

  lemma NeverWholeStep(rs: seq<Request>, chunks: seq<bytes>)
    requires chunks != []
    ensures var before := chunks[..|chunks| - 1];
      NeverWhole(rs, chunks) <==> NeverWhole(rs, before) && Gone(rs, before) == Complete(rs, |Concat(before)|)
  {
    hide Gone, Complete, Concat;
    var n := |chunks| - 1;
    var before := chunks[..n];
    NothingBefore(rs, chunks);
    assert n > 0 ==> (NothingWhole(rs, chunks, n) <==> Gone(rs, before) == Complete(rs, |Concat(before)|));
    NoneComplete(rs);
    assert n == 0 ==> before == [];
    if NeverWhole(rs, before) && Gone(rs, before) == Complete(rs, |Concat(before)|) {
      forall i | 0 < i < |chunks| ensures NothingWhole(rs, chunks, i) {
        if i < n { assert NothingWhole(rs, before, i); }
      }
    }
    if NeverWhole(rs, chunks) {
      forall i | 0 < i < |before| ensures NothingWhole(rs, before, i) { assert NothingWhole(rs, chunks, i); }
    }
  }

  /** Never fewer than have arrived, and just as many, then in order, if every read but the
      last left no complete frame behind. */
  lemma {:induction false} HandedIs(rs: seq<Request>, chunks: seq<bytes>)
    ensures var end := Complete(rs, |Concat(chunks)|);
      && |Handed(rs, chunks)| >= end
      && (NeverWhole(rs, chunks) <==> |Handed(rs, chunks)| == end)
      && (NeverWhole(rs, chunks) ==> Handed(rs, chunks) == DeliveredAll(rs[..end]))
  {
    hide BadCut, Complete, Concat, DeliveredAll, Gone, NeverWhole;
    if chunks == [] {
      NoneComplete(rs);
      NeverWholeNone(rs);
    } else {
      var n := |chunks| - 1;
      var before, end := chunks[..n], Complete(rs, |Concat(chunks)|);
      HandedIs(rs, before);
      GoneBound(rs, before);
      LastChunk(chunks);
      CompleteGrows(rs, |Concat(before)|, |Concat(chunks)|);
      var gone, whole := Gone(rs, before), Complete(rs, |Concat(before)|);
      DeliveredAppend(rs[gone..end], []);
      DeliveredAppend(rs[..whole], rs[whole..end]);
      assert rs[..whole] + rs[whole..end] == rs[..end];
      NeverWholeStep(rs, chunks);
    }
  }

  lemma NeverWholeNone(rs: seq<Request>)
    ensures NeverWhole(rs, [])
  {
  }

  lemma LastChunk(chunks: seq<bytes>)
    requires chunks != []
    ensures Concat(chunks) == Concat(chunks[..|chunks| - 1]) + chunks[|chunks| - 1]
  {
  }

  lemma NoneComplete(rs: seq<Request>)
    ensures Complete(rs, |Concat([])|) == 0 && Gone(rs, []) == 0 && DeliveredAll(rs[..0]) == []
  {
  }

  lemma NothingBefore(rs: seq<Request>, chunks: seq<bytes>)
    requires chunks != []
    ensures forall i :: 0 < i < |chunks| - 1 ==>
      (NothingWhole(rs, chunks[..|chunks| - 1], i) <==> NothingWhole(rs, chunks, i))
  {
    forall i | 0 < i < |chunks| - 1 ensures chunks[..|chunks| - 1][..i] == chunks[..i] {}
  }

  /** Exactly when every request is handed over just once: when each read that throws,
      but for the last, finds no complete frame in the buffer. */
  lemma OnceEachIff(rs: seq<Request>, chunks: seq<bytes>)
    requires AllSendable(rs) && Concat(chunks) <= Stream(rs)
    ensures PollAll(chunks).dispatched == DeliveredAll(rs[..Complete(rs, |Concat(chunks)|)])
      <==> forall i :: 0 < i < |chunks| && BadCut(rs, Cut(chunks, i)) ==> NothingWhole(rs, chunks, i)
  {
    hide Frame, BadCut, Stream, Sendable, ShortEnough, Drain, DeliveredAll, Complete;
    AfterReads(rs, chunks);
    HandedIs(rs, chunks);
    DeliveredAppend(rs[..Complete(rs, |Concat(chunks)|)], []);
    assert NeverWhole(rs, chunks) <==> forall i :: 0 < i < |chunks| ==> NothingWhole(rs, chunks, i);
    forall i | 0 < i < |chunks| && !BadCut(rs, Cut(chunks, i)) ensures NothingWhole(rs, chunks, i) {
      assert chunks[..i] != [];
    }
  }

  // ----- and the same with a handler that throws ---------------------------------------

  /** How many requests are handed over, the one that throws included. */
  function Reach<S>(handle: Handler<S>, s: S, rs: seq<Request>): nat
    decreases |rs|
  {
    if rs == [] then 0
    else
      var (s1, error) := handle(s, rs[0]);
      if error.Some? then 1 else 1 + Reach(handle, s1, rs[1..])
  }

  lemma {:induction false} ReachIs<S>(handle: Handler<S>, s: S, rs: seq<Request>)
    ensures Reach(handle, s, rs) <= |rs| && (rs != [] ==> Reach(handle, s, rs) > 0)
    ensures Feed(handle, s, rs).1.None? ==> Reach(handle, s, rs) == |rs|
    decreases |rs|
  {
    if rs != [] && handle(s, rs[0]).1.None? { ReachIs(handle, handle(s, rs[0]).0, rs[1..]); }
  }

  /** What a read finds in the buffer. */
  ghost function FoundAt<S>(handle: Handler<S>, s: S, chunks: seq<bytes>): seq<Request>
    requires chunks != []
  {
    Drain(PollAllWith(handle, s, chunks[..|chunks| - 1]).buffer + chunks[|chunks| - 1]).requests
  }

  ghost function StateAt<S>(handle: Handler<S>, s: S, chunks: seq<bytes>): S
    requires chunks != []
  {
    PollAllWith(handle, s, chunks[..|chunks| - 1]).state
  }

  /** Handling what the last of these reads found ended in an exception. */
  ghost predicate HandlerThrew<S>(handle: Handler<S>, s: S, chunks: seq<bytes>)
    requires chunks != []
  {
    Feed(handle, StateAt(handle, s, chunks), FoundAt(handle, s, chunks)).1.Some?
  }

  /** All that was handed over, read by read. */
  ghost function HandedOver<S>(handle: Handler<S>, s: S, chunks: seq<bytes>): seq<Request> {
    if chunks == [] then []
    else
      HandedOver(handle, s, chunks[..|chunks| - 1])
      + FoundAt(handle, s, chunks)[..ReachOf(handle, s, chunks)]
  }

  ghost function ReachOf<S>(handle: Handler<S>, s: S, chunks: seq<bytes>): (n: nat)
    requires chunks != []
    ensures n <= |FoundAt(handle, s, chunks)|
  {
    ReachIs(handle, StateAt(handle, s, chunks), FoundAt(handle, s, chunks));
    Reach(handle, StateAt(handle, s, chunks), FoundAt(handle, s, chunks))
  }

  /** How many frames are no longer in the buffer. */
  ghost function GoneWith<S>(handle: Handler<S>, s: S, rs: seq<Request>, chunks: seq<bytes>): (n: nat)
    ensures n <= |rs|
  {
    if chunks == [] then 0
    else if BadCut(rs, |Concat(chunks)|) || HandlerThrew(handle, s, chunks) then
      GoneWith(handle, s, rs, chunks[..|chunks| - 1])
    else Complete(rs, |Concat(chunks)|)
  }

  lemma {:induction false} GoneWithBound<S>(handle: Handler<S>, s: S, rs: seq<Request>, chunks: seq<bytes>)
    ensures GoneWith(handle, s, rs, chunks) <= Complete(rs, |Concat(chunks)|)
    ensures |Stream(rs[..GoneWith(handle, s, rs, chunks)])| <= |Concat(chunks)|
  {
    hide Frame, BadCut, Stream, HandlerThrew, Complete;
    if chunks == [] {
      NoFrames(rs);
    } else {
      var before := chunks[..|chunks| - 1];
      LastChunk(chunks);
      GoneWithBound(handle, s, rs, before);
      CompleteGrows(rs, |Concat(before)|, |Concat(chunks)|);
      CompleteFits(rs, |Concat(chunks)|);
    }
  }

  /** For any handler, requests and cutting: what the buffer holds, and what each read finds. */
  lemma {:induction false} BufferWith<S>(handle: Handler<S>, s: S, rs: seq<Request>, chunks: seq<bytes>)
    requires AllSendable(rs) && Concat(chunks) <= Stream(rs)
    ensures |Stream(rs[..GoneWith(handle, s, rs, chunks)])| <= |Concat(chunks)|
    ensures PollAllWith(handle, s, chunks).buffer == Concat(chunks)[|Stream(rs[..GoneWith(handle, s, rs, chunks)])|..]
    ensures chunks != [] ==>
      var gone, end := GoneWith(handle, s, rs, chunks[..|chunks| - 1]), Complete(rs, |Concat(chunks)|);
      gone <= end && FoundAt(handle, s, chunks) == DeliveredAll(rs[gone..end])
  {
    hide Frame, BadCut, Stream, Sendable, ShortEnough, Drain, DeliveredAll, Complete, Feed;
    GoneWithBound(handle, s, rs, chunks);
    if chunks == [] {
      NoFrames(rs);
    } else {
      var before, last := chunks[..|chunks| - 1], chunks[|chunks| - 1];
      LastChunk(chunks);
      BufferWith(handle, s, rs, before);
      var b := GoneWith(handle, s, rs, before);
      GoneWithBound(handle, s, rs, before);
      CompleteGrows(rs, |Concat(before)|, |Concat(chunks)|);
      DrainFrom(rs, Concat(before), last, b);
    }
  }

  /** Draining what is left of some frames and a read. */
  lemma DrainFrom(rs: seq<Request>, got: bytes, last: bytes, b: nat)
    requires AllSendable(rs) && got + last <= Stream(rs) && b <= |rs| && |Stream(rs[..b])| <= |got|
    requires b <= Complete(rs, |got + last|)
    ensures var pass, end := Drain(got[|Stream(rs[..b])|..] + last), Complete(rs, |got + last|);
      && pass.requests == DeliveredAll(rs[b..end])
      && |Stream(rs[..end])| <= |got + last|
      && pass.rest == (got + last)[|Stream(rs[..end])|..]
      && (pass.error.Some? <==> BadCut(rs, |got + last|))
    ensures got[|Stream(rs[..b])|..] + last == (got + last)[|Stream(rs[..b])|..]
  {
    hide Frame, BadCut, Stream, Sendable, ShortEnough, Drain, DeliveredAll, Complete;
    var all := got + last;
    var k, skip := |all|, |Stream(rs[..b])|;
    assert all[skip..] == got[skip..] + last;
    CompleteFrom(rs, b, k);
    Shifted(Stream(rs[..b]), Stream(rs[b..]), all);
    assert AllSendable(rs[b..]);
    DrainPrefix(rs[b..], k - skip);
    var n := Complete(rs[b..], k - skip);
    assert rs[b..][..n] == rs[b..b + n];
    CutOff(rs, b, n, all);
  }

  /** The places in the stream of the requests handed over. */
  ghost function Places<S>(handle: Handler<S>, s: S, rs: seq<Request>, chunks: seq<bytes>): seq<nat> {
    if chunks == [] then []
    else
      Places(handle, s, rs, chunks[..|chunks| - 1])
      + From(GoneWith(handle, s, rs, chunks[..|chunks| - 1]), ReachOf(handle, s, chunks))
  }

  function From(start: nat, n: nat): seq<nat> { seq(n, i requires 0 <= i < n => start + i) }

  /** The requests at these places. */
  ghost predicate AreAt(handed: seq<Request>, rs: seq<Request>, places: seq<nat>) {
    |handed| == |places|
    && forall i :: 0 <= i < |places| ==> places[i] < |rs| && handed[i] == Delivered(rs[places[i]])
  }

  lemma {:induction false} DeliveredAt(rs: seq<Request>, i: nat)
    requires i < |rs|
    ensures |DeliveredAll(rs)| == |rs| && DeliveredAll(rs)[i] == Delivered(rs[i])
  {
    hide Delivered;
    if i > 0 {
      DeliveredAt(rs[1..], i - 1);
    } else {
      DeliveredAppend(rs, []);
    }
  }

  lemma {:induction false} HandedAreAt<S>(handle: Handler<S>, s: S, rs: seq<Request>, chunks: seq<bytes>)
    requires AllSendable(rs) && Concat(chunks) <= Stream(rs)
    ensures AreAt(HandedOver(handle, s, chunks), rs, Places(handle, s, rs, chunks))
    ensures forall i :: 0 <= i < |Places(handle, s, rs, chunks)| ==>
      Places(handle, s, rs, chunks)[i] < Complete(rs, |Concat(chunks)|)
  {
    hide Frame, BadCut, Stream, Sendable, ShortEnough, Drain, DeliveredAll, Complete, GoneWith, FoundAt, ReachOf, Delivered;
    if chunks != [] {
      var before := chunks[..|chunks| - 1];
      LastChunk(chunks);
      HandedAreAt(handle, s, rs, before);
      BufferWith(handle, s, rs, chunks);
      CompleteGrows(rs, |Concat(before)|, |Concat(chunks)|);
      var gone, end := GoneWith(handle, s, rs, before), Complete(rs, |Concat(chunks)|);
      var n := ReachOf(handle, s, chunks);
      DeliveredAppend(rs[gone..end], []);
      assert n <= end - gone;
      forall i | 0 <= i < n ensures FoundAt(handle, s, chunks)[i] == Delivered(rs[gone + i]) {
        DeliveredAt(rs[gone..end], i);
      }
      Joined(HandedOver(handle, s, before), Places(handle, s, rs, before),
             FoundAt(handle, s, chunks)[..n], From(gone, n), rs);
    }
  }

  lemma Joined(h1: seq<Request>, p1: seq<nat>, h2: seq<Request>, p2: seq<nat>, rs: seq<Request>)
    requires AreAt(h1, rs, p1) && AreAt(h2, rs, p2)
    ensures AreAt(h1 + h2, rs, p1 + p2)
  {
    hide Delivered;
  }

  predicate NoneTwice(s: seq<nat>) { forall i, j :: 0 <= i < j < |s| ==> s[i] != s[j] }

  /** After the first `i` reads no complete frame is in the buffer. */
  ghost predicate LeftNone<S>(handle: Handler<S>, s: S, rs: seq<Request>, chunks: seq<bytes>, i: nat)
    requires i <= |chunks|
  {
    GoneWith(handle, s, rs, chunks[..i]) == Complete(rs, Cut(chunks, i))
  }

  /** So after every read but the last. */
  ghost predicate NoneLeft<S>(handle: Handler<S>, s: S, rs: seq<Request>, chunks: seq<bytes>) {
    forall i :: 0 < i < |chunks| ==> LeftNone(handle, s, rs, chunks, i)
  }

  lemma NoneLeftStep<S>(handle: Handler<S>, s: S, rs: seq<Request>, chunks: seq<bytes>)
    requires chunks != []
    ensures var before := chunks[..|chunks| - 1];
      NoneLeft(handle, s, rs, chunks)
      <==> NoneLeft(handle, s, rs, before) && GoneWith(handle, s, rs, before) == Complete(rs, |Concat(before)|)
  {
    hide GoneWith, Complete, Concat;
    var n := |chunks| - 1;
    var before := chunks[..n];
    forall i | 0 < i < n ensures LeftNone(handle, s, rs, before, i) == LeftNone(handle, s, rs, chunks, i) {
      assert before[..i] == chunks[..i];
    }
    assert LeftNone(handle, s, rs, chunks, n) <==> GoneWith(handle, s, rs, before) == Complete(rs, |Concat(before)|);
    if n == 0 { NothingGone(handle, s, rs); }
    if NoneLeft(handle, s, rs, before) && GoneWith(handle, s, rs, before) == Complete(rs, |Concat(before)|) {
      forall i | 0 < i < |chunks| ensures LeftNone(handle, s, rs, chunks, i) {
        if i < n { assert LeftNone(handle, s, rs, before, i); }
      }
    }
    if NoneLeft(handle, s, rs, chunks) {
      forall i | 0 < i < n ensures LeftNone(handle, s, rs, before, i) { assert LeftNone(handle, s, rs, chunks, i); }
    }
  }

  lemma NothingGone<S>(handle: Handler<S>, s: S, rs: seq<Request>)
    ensures GoneWith(handle, s, rs, []) == 0 == Complete(rs, |Concat([])|)
  {
  }

  /** What the last read hands over, and what it leaves. */
  lemma LastRead<S>(handle: Handler<S>, s: S, rs: seq<Request>, chunks: seq<bytes>)
    requires AllSendable(rs) && Concat(chunks) <= Stream(rs) && chunks != []
    ensures var gone, end := GoneWith(handle, s, rs, chunks[..|chunks| - 1]), Complete(rs, |Concat(chunks)|);
      var gone', n := GoneWith(handle, s, rs, chunks), ReachOf(handle, s, chunks);
      && Complete(rs, |Concat(chunks[..|chunks| - 1])|) <= end && gone + n <= end && (gone < end ==> n > 0)
      && (gone' == end ==> gone + n == end) && (gone' != end ==> gone' == gone)
      && (HandlerThrew(handle, s, chunks) ==> gone' != end)
      && (!HandlerThrew(handle, s, chunks) && !BadCut(rs, |Concat(chunks)|) ==> gone' == end)
  {
    hide Frame, BadCut, Stream, Sendable, ShortEnough, Drain, DeliveredAll, Complete, FoundAt, StateAt;
    var before := chunks[..|chunks| - 1];
    LastChunk(chunks);
    BufferWith(handle, s, rs, chunks);
    CompleteGrows(rs, |Concat(before)|, |Concat(chunks)|);
    var gone, end := GoneWith(handle, s, rs, before), Complete(rs, |Concat(chunks)|);
    DeliveredAppend(rs[gone..end], []);
    ReachIs(handle, StateAt(handle, s, chunks), FoundAt(handle, s, chunks));
  }

  /** In order from the first while nothing is left behind, and some twice otherwise. */
  lemma {:induction false} PlacesAre<S>(handle: Handler<S>, s: S, rs: seq<Request>, chunks: seq<bytes>)
    requires AllSendable(rs) && Concat(chunks) <= Stream(rs)
    ensures var places, gone := Places(handle, s, rs, chunks), GoneWith(handle, s, rs, chunks);
      var end := Complete(rs, |Concat(chunks)|);
      if NoneLeft(handle, s, rs, chunks) then
        && places == From(0, |places|)
        && if gone == end then |places| == end else gone in places
      else !NoneTwice(places)
  {
    hide Frame, BadCut, Stream, Sendable, ShortEnough, Complete, GoneWith, ReachOf, NoneLeft, NoneTwice, LeftNone;
    if chunks == [] {
      NothingGone(handle, s, rs);
      assert NoneLeft(handle, s, rs, []) by { NoReads(handle, s, rs); }
    } else {
      var before := chunks[..|chunks| - 1];
      LastChunk(chunks);
      PlacesAre(handle, s, rs, before);
      NoneLeftStep(handle, s, rs, chunks);
      GoneWithBound(handle, s, rs, before);
      LastRead(handle, s, rs, chunks);
      var gone, n := GoneWith(handle, s, rs, before), ReachOf(handle, s, chunks);
      MorePlaces(Places(handle, s, rs, before), gone, n);
    }
  }

  lemma NoReads<S>(handle: Handler<S>, s: S, rs: seq<Request>)
    ensures NoneLeft(handle, s, rs, [])
  {
  }

  lemma MorePlaces(places: seq<nat>, gone: nat, n: nat)
    ensures places == From(0, gone) ==> places + From(gone, n) == From(0, gone + n) && (n > 0 ==> gone in places + From(gone, n))
    ensures gone in places && n > 0 ==> !NoneTwice(places + From(gone, n))
    ensures !NoneTwice(places) ==> !NoneTwice(places + From(gone, n))
  {
    var all := places + From(gone, n);
    if n > 0 {
      assert all[|places|] == gone;
      if gone in places {
        var i :| 0 <= i < |places| && places[i] == gone;
        assert all[i] == gone;
      }
    }
    if !NoneTwice(places) {
      var i, j :| 0 <= i < j < |places| && places[i] == places[j];
      assert all[i] == all[j];
    }
  }

  /** For any handler, requests and cutting of their frames, every request handed over, the
      one that throws included, is handed over once exactly when no read before the last
      ends in an exception of the handler, and each that ends in one of the parser finds no
      complete frame in the buffer. */
  lemma HandedOverOnceIff<S>(handle: Handler<S>, s: S, rs: seq<Request>, chunks: seq<bytes>)
    requires AllSendable(rs) && Concat(chunks) <= Stream(rs)
    ensures AreAt(HandedOver(handle, s, chunks), rs, Places(handle, s, rs, chunks))
    ensures NoneTwice(Places(handle, s, rs, chunks)) <==>
      forall i :: 0 < i < |chunks| ==>
        !HandlerThrew(handle, s, chunks[..i]) && (BadCut(rs, Cut(chunks, i)) ==> LeftNone(handle, s, rs, chunks, i))
    ensures NoneTwice(Places(handle, s, rs, chunks)) ==>
      Places(handle, s, rs, chunks) == From(0, |HandedOver(handle, s, chunks)|)
  {
    hide Frame, BadCut, Stream, Sendable, ShortEnough, Complete, HandlerThrew, Places, HandedOver, GoneWith;
    HandedAreAt(handle, s, rs, chunks);
    PlacesAre(handle, s, rs, chunks);
    forall i | 0 < i < |chunks|
      ensures LeftNone(handle, s, rs, chunks, i) <==>
        !HandlerThrew(handle, s, chunks[..i]) && (BadCut(rs, Cut(chunks, i)) ==> LeftNone(handle, s, rs, chunks, i))
    {
      ConcatAppend(chunks[..i], chunks[i..]);
      assert chunks[..i] + chunks[i..] == chunks;
      LastRead(handle, s, rs, chunks[..i]);
    }
    OnceInOrder(Places(handle, s, rs, chunks));
  }

  lemma OnceInOrder(places: seq<nat>)
    ensures places == From(0, |places|) ==> NoneTwice(places)
  {
  }
}
