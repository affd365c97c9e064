/** The version handshake: the client lists the versions it speaks, the server
    selects one, and until then nothing else is read. */
module Handshake {
  import opened Bytes
  import opened Requests
  import opened Codec
  import S = Stream

  const SUPPORTED: byte := 0x01
  const SELECTED: byte := 0x02

  // ----- versions ------------------------------------------------------------

  /** Major, minor and patch, a byte each, of the low 24 bits. */
  function Triple(v: nat): (byte, byte, byte) { (v / 65536 % 256, v / 256 % 256, v % 256) }

  /** `operator<=>`: the triples in lexicographic order. */
  predicate Less(a: nat, b: nat) {
    var (a0, a1, a2) := Triple(a);
    var (b0, b1, b2) := Triple(b);
    a0 < b0 || (a0 == b0 && (a1 < b1 || (a1 == b1 && a2 < b2)))
  }

  predicate Is24Bit(v: nat) { v < 0x100_0000 }

  /** On 24-bit codes this is the order of the numbers. */
  lemma LessIsNumeric(a: nat, b: nat)
    requires Is24Bit(a) && Is24Bit(b)
    ensures Less(a, b) <==> a < b
  {
    FromTriple(a);
    FromTriple(b);
  }

  lemma FromTriple(v: nat)
    requires Is24Bit(v)
    ensures var (x, y, z) := Triple(v); v == 65536 * x + 256 * y + z
  {
    assert v / 65536 < 256;
    assert v / 256 == 256 * (v / 65536) + v / 256 % 256 by {
      assert v / 256 / 256 == v / 65536;
    }
  }

  /** `ranges::max`. */
  function Max(vs: seq<nat>): nat
    requires vs != []
  {
    if |vs| == 1 then vs[0]
    else
      var best := Max(vs[..|vs| - 1]);
      if Less(best, vs[|vs| - 1]) then vs[|vs| - 1] else best
  }

  lemma {:induction false} MaxIsLargest(vs: seq<nat>)
    requires vs != [] && forall v :: v in vs ==> Is24Bit(v)
    ensures Max(vs) in vs && forall v :: v in vs ==> v <= Max(vs)
  {
    hide Less, Is24Bit;
    var n := |vs| - 1;
    if n > 0 {
      assert vs == vs[..n] + [vs[n]];
      MaxIsLargest(vs[..n]);
      LessIsNumeric(Max(vs[..n]), vs[n]);
    }
  }

  function Triples(vs: seq<nat>): bytes {
    if vs == [] then [] else [Triple(vs[0]).0, Triple(vs[0]).1, Triple(vs[0]).2] + Triples(vs[1..])
  }

  /** A version as it is read: the last byte is added as a signed `char`, and the sum
      taken as a 32-bit number. */
  function ReadVersion(x: byte, y: byte, z: byte): nat {
    (65536 * x + 256 * y + FromChar(z)) % 0x1_0000_0000
  }

  /** A version comes back as it was written exactly when its patch byte is below 128. */
  lemma VersionRoundTripIff(v: nat)
    requires Is24Bit(v)
    ensures var (x, y, z) := Triple(v);
      ReadVersion(x, y, z) == v <==> v % 256 < 128
  {
    FromTriple(v);
  }

  // ----- messages ------------------------------------------------------------

  function ClientHello(names: seq<nat>): bytes
    requires |names| <= 255
  {
    MAGIC + [SUPPORTED, |names|] + Triples(names)
  }

  function ServerAnswer(v: nat): bytes {
    MAGIC + [SELECTED, Triple(v).0, Triple(v).1, Triple(v).2]
  }

  /** What a parser says: wait for more, give up, or versions and bytes read. */
  datatype Reading = More | Bad | Read(versions: seq<nat>, size: nat)

  function ReadVersions(bs: bytes, n: nat): seq<nat>
    requires |bs| >= 3 * n
  {
    if n == 0 then [] else [ReadVersion(bs[0], bs[1], bs[2])] + ReadVersions(bs[3..], n - 1)
  }

  function ParseClientVersion(raw: bytes): Reading {
    if |raw| < 6 then More
    else if raw[..5] != MAGIC + [SUPPORTED] then Bad
    else
      var n: nat := raw[5];
      if |raw| < 6 + 3 * n then More else Read(ReadVersions(raw[6..], n), 6 + 3 * n)
  }

  function ParseServerVersion(raw: bytes): Reading {
    if |raw| < 8 then More
    else if raw[..4] != MAGIC || raw[4] != SELECTED then Bad
    else Read([ReadVersion(raw[5], raw[6], raw[7])], 8)
  }

  /** Versions that survive the trip. */
  predicate Sound(vs: seq<nat>) { forall v :: v in vs ==> Is24Bit(v) && v % 256 < 128 }

  lemma {:induction false} TriplesLength(vs: seq<nat>)
    ensures |Triples(vs)| == 3 * |vs|
  {
    if vs != [] { TriplesLength(vs[1..]); }
  }

  lemma {:induction false} TriplesRead(vs: seq<nat>, rest: bytes)
    requires Sound(vs)
    ensures |Triples(vs)| == 3 * |vs|
    ensures ReadVersions(Triples(vs) + rest, |vs|) == vs
  {
    hide Triple, ReadVersion, Is24Bit;
    TriplesLength(vs);
    if vs != [] {
      TriplesRead(vs[1..], rest);
      VersionRoundTripIff(vs[0]);
      TriplesLength(vs[1..]);
      assert (Triples(vs) + rest)[3..] == Triples(vs[1..]) + rest;
    }
  }

  /** The hello is read back whatever follows it, and every strict prefix of it means
      "wait for more". */
  lemma HelloRoundTrip(names: seq<nat>, rest: bytes)
    requires |names| <= 255 && Sound(names)
    ensures ParseClientVersion(ClientHello(names) + rest) == Read(names, |ClientHello(names)|)
  {
    hide Triples, ReadVersions, Sound;
    TriplesRead(names, rest);
    var raw := ClientHello(names) + rest;
    assert raw[..5] == MAGIC + [SUPPORTED];
    assert raw[6..] == Triples(names) + rest;
  }

  lemma HelloPrefix(names: seq<nat>, k: nat)
    requires |names| <= 255 && k < |ClientHello(names)|
    ensures ParseClientVersion(ClientHello(names)[..k]) == More
  {
    TriplesLength(names);
    var raw := ClientHello(names)[..k];
    if k >= 6 { assert raw[..5] == MAGIC + [SUPPORTED] && raw[5] == |names|; }
  }

  lemma AnswerRoundTripIff(v: nat, rest: bytes)
    requires Is24Bit(v)
    ensures ParseServerVersion(ServerAnswer(v) + rest) == Read([v], 8) <==> v % 256 < 128
  {
    VersionRoundTripIff(v);
    var raw := ServerAnswer(v) + rest;
    assert raw[..4] == MAGIC;
    assert [ReadVersion(raw[5], raw[6], raw[7])] == [v] <==> ReadVersion(raw[5], raw[6], raw[7]) == v;
  }

  lemma AnswerPrefix(v: nat, k: nat)
    requires k < 8
    ensures ParseServerVersion(ServerAnswer(v)[..k]) == More
  {
  }

  // ----- one side --------------------------------------------------------------

  datatype Side = Client | Server

  /** One end before it is trusted. `names` are the versions it speaks, `sent` what it
      has written. */
  datatype PreAuth = PreAuth(
    side: Side, names: seq<nat>, protocol: Option<nat>, firstExtra: bool, buffer: bytes, open: bool, sent: bytes)

  function Begin(side: Side, names: seq<nat>): PreAuth { PreAuth(side, names, None, true, [], true, []) }

  function Common(vs: seq<nat>, names: seq<nat>): seq<nat> {
    if vs == [] then []
    else (if vs[0] in names then [vs[0]] else []) + Common(vs[1..], names)
  }

  /** `authorize_request` of the versions read. */
  function Negotiate(p: PreAuth, vs: seq<nat>): PreAuth {
    match p.side
    case Server =>
      var common := Common(vs, p.names);
      if common == [] then p.(open := false)
      else p.(protocol := Some(Max(common)), sent := p.sent + ServerAnswer(Max(common)))
    case Client =>
      if vs == [] || vs[0] !in p.names then p.(open := false) else p.(protocol := Some(vs[0]))
  }

  function Refusal(id: MessageId): bytes { Frame(Request(id, Response(UNAUTHORIZED))) }

  function Parse(side: Side, view: bytes): (r: Reading)
    ensures r.Read? ==> 0 < r.size <= |view|
  {
    match side case Server => ParseClientVersion(view) case Client => ParseServerVersion(view)
  }

  datatype Polled = Polled(p: PreAuth, error: Option<Error>)

  /** The loop of `poll_requests` over what is left of the buffer. Once a protocol is
      agreed, the loop is broken off one single time, whatever follows. */
  function Rounds(p: PreAuth, view: bytes): Polled
    decreases |view|
  {
    if p.protocol.Some? then
      if p.firstExtra then Polled(p.(firstExtra := false, buffer := view), None)
      else
        match ParseRequest(view)
        case Incomplete => Polled(p.(buffer := view), None)
        case Failed(e) => Polled(p, Some(e))
        case Parsed(r, n) => Rounds(p.(sent := p.sent + Refusal(r.messageId)), view[n..])
    else
      match Parse(p.side, view)
      case More => Polled(p.(buffer := view), None)
      case Bad => Polled(p.(open := false, buffer := view), None)
      case Read(vs, n) => Rounds(Negotiate(p, vs), view[n..])
  }

  function Poll(p: PreAuth, read: bytes): Polled {
    if !p.open || p.buffer + read == [] then Polled(p, None)
    else Rounds(p.(buffer := p.buffer + read), p.buffer + read)
  }

  function PollAll(p: PreAuth, chunks: seq<bytes>): PreAuth {
    if chunks == [] then p else Poll(PollAll(p, chunks[..|chunks| - 1]), chunks[|chunks| - 1]).p
  }

  /** The message this side waits for. */
  function Awaited(side: Side, vs: seq<nat>): bytes
    requires |vs| <= 255 && (side == Client ==> |vs| == 1)
  {
    match side case Server => ClientHello(vs) case Client => ServerAnswer(vs[0])
  }

  lemma AwaitedPrefix(side: Side, vs: seq<nat>, k: nat)
    requires |vs| <= 255 && (side == Client ==> |vs| == 1)
    requires k < |Awaited(side, vs)|
    ensures Parse(side, Awaited(side, vs)[..k]) == More
  {
    if side == Server { HelloPrefix(vs, k); } else { AnswerPrefix(vs[0], k); }
  }

  lemma AwaitedRead(side: Side, vs: seq<nat>, rest: bytes)
    requires |vs| <= 255 && (side == Client ==> |vs| == 1) && Sound(vs)
    ensures Parse(side, Awaited(side, vs) + rest) == Read(vs, |Awaited(side, vs)|)
  {
    hide ParseClientVersion, ParseServerVersion, ClientHello;
    if side == Server {
      HelloRoundTrip(vs, rest);
    } else {
      assert vs == [vs[0]] && vs[0] in vs;
      AnswerRoundTripIff(vs[0], rest);
    }
  }

  // ----- however the bytes are cut -------------------------------------------------

  /** Until the message is whole, its bytes are kept and nothing else happens. */
  lemma {:induction false} Waits(p: PreAuth, vs: seq<nat>, chunks: seq<bytes>)
    requires p == Begin(p.side, p.names)
    requires |vs| <= 255 && (p.side == Client ==> |vs| == 1)
    requires Concat(chunks) < Awaited(p.side, vs)
    ensures PollAll(p, chunks) == p.(buffer := Concat(chunks))
  {
    hide Parse, Awaited;
    if chunks != [] {
      var n := |chunks| - 1;
      var whole := Awaited(p.side, vs);
      Waits(p, vs, chunks[..n]);
      AwaitedPrefix(p.side, vs, |Concat(chunks)|);
      assert whole[..|Concat(chunks)|] == Concat(chunks);
    }
  }

  /** The read that completes the message, with whatever bytes after it, settles the
      matter: they stay in the buffer, unanswered. */
  lemma Settles(p: PreAuth, vs: seq<nat>, chunks: seq<bytes>, last: bytes, extra: bytes)
    requires p == Begin(p.side, p.names)
    requires |vs| <= 255 && (p.side == Client ==> |vs| == 1) && Sound(vs)
    requires Concat(chunks) < Awaited(p.side, vs) && Concat(chunks) + last == Awaited(p.side, vs) + extra
    ensures var q := Negotiate(p, vs);
      var end := PollAll(p, chunks + [last]);
      && (q.protocol.Some? ==> end == q.(firstExtra := false, buffer := extra))
      && (q.protocol.None? ==> !end.open)
      && (q.protocol.None? && !Parse(p.side, extra).Read? ==> end == q.(buffer := extra))
  {
    Waits(p, vs, chunks);
    var whole := Awaited(p.side, vs);
    assert (chunks + [last])[..|chunks|] == chunks;
    assert PollAll(p, chunks + [last]) == Poll(p.(buffer := Concat(chunks)), last).p;
    AwaitedRead(p.side, vs, extra);
    assert (whole + extra)[|whole|..] == extra;
    hide Parse, Awaited, Negotiate;
    var p1 := p.(buffer := whole + extra);
    assert Rounds(p1, whole + extra) == Rounds(Negotiate(p1, vs), extra);
    NegotiateIs(p, vs, whole + extra);
    StaysClosed(Negotiate(p1, vs), extra);
  }

  lemma NegotiateIs(p: PreAuth, vs: seq<nat>, buffer: bytes)
    requires p.protocol.None?
    ensures Negotiate(p.(buffer := buffer), vs) == Negotiate(p, vs).(buffer := buffer)
    ensures Negotiate(p, vs).protocol.None? ==> Negotiate(p, vs) == p.(open := false)
    ensures Negotiate(p, vs).protocol.Some? ==> Negotiate(p, vs).firstExtra == p.firstExtra
    ensures Negotiate(p, vs).side == p.side
  {
  }

  /** A closed end is never opened again. */
  lemma {:induction false} StaysClosed(p: PreAuth, view: bytes)
    ensures !p.open ==> !Rounds(p, view).p.open
    decreases |view|
  {
    hide ParseRequest, Parse, Refusal;
    if p.protocol.Some? {
      if !p.firstExtra && ParseRequest(view).Parsed? {
        var Parsed(r, n) := ParseRequest(view);
        StaysClosed(p.(sent := p.sent + Refusal(r.messageId)), view[n..]);
      }
    } else if Parse(p.side, view).Read? {
      var Read(vs, n) := Parse(p.side, view);
      StaysClosed(Negotiate(p, vs), view[n..]);
    }
  }

  // ----- what the two sides settle on ------------------------------------------------

  lemma {:induction false} CommonIs(vs: seq<nat>, names: seq<nat>)
    ensures forall v :: v in Common(vs, names) <==> v in vs && v in names
  {
    if vs != [] {
      CommonIs(vs[1..], names);
      assert vs == [vs[0]] + vs[1..];
    }
  }

  /** `v` is the greatest version both speak. */
  predicate Best(v: nat, client: seq<nat>, server: seq<nat>) {
    v in client && v in server && forall x :: x in client && x in server ==> x <= v
  }

  /** What the server selects from a client's versions. */
  lemma Selected(client: seq<nat>, server: seq<nat>)
    requires Sound(client)
    ensures Common(client, server) == [] <==> !exists v :: v in client && v in server
    ensures Common(client, server) != [] ==> Best(Max(Common(client, server)), client, server)
  {
    hide Is24Bit, Max;
    CommonIs(client, server);
    var common := Common(client, server);
    if common != [] {
      MaxIsLargest(common) by {
        forall v | v in common ensures Is24Bit(v) { assert v in client; }
      }
      assert common[0] in common;
    }
  }

  /** For any two sets of versions and however the bytes are cut, with anything after
      them: if some version is common, both sides settle on the greatest one, and what
      came after stays buffered and unanswered; if none is, the server closes without
      an answer and the client still waits. */
  lemma BothSettle(
      client: seq<nat>, server: seq<nat>,
      toServer: seq<bytes>, lastToServer: bytes, extraToServer: bytes,
      toClient: seq<bytes>, lastToClient: bytes, extraToClient: bytes)
    requires |client| <= 255 && Sound(client)
    requires Concat(toServer) < ClientHello(client)
    requires Concat(toServer) + lastToServer == ClientHello(client) + extraToServer
    ensures var s := PollAll(Begin(Server, server), toServer + [lastToServer]);
      if exists v :: v in client && v in server then
        && s.protocol.Some? && Best(s.protocol.value, client, server) && s.open
        && s.buffer == extraToServer && s.sent == ServerAnswer(s.protocol.value)
        && (Concat(toClient) < s.sent && Concat(toClient) + lastToClient == s.sent + extraToClient ==>
              var c := PollAll(Begin(Client, client), toClient + [lastToClient]);
              c.protocol == s.protocol && c.open && c.buffer == extraToClient && c.sent == [])
      else
        && !s.open
        && (!ParseClientVersion(extraToServer).Read? ==>
              s.protocol.None? && s.sent == [] && s.buffer == extraToServer)
  {
    hide ClientHello, ServerAnswer, Parse, Common, Max, Best, ParseClientVersion, ParseServerVersion, PollAll;
    Selected(client, server);
    assert Awaited(Server, client) == ClientHello(client);
    ServerParses(extraToServer);
    Settles(Begin(Server, server), client, toServer, lastToServer, extraToServer);
    if v :| v in client && v in server {
      var best := Max(Common(client, server));
      assert best in client && Is24Bit(best) && best % 256 < 128 by { BestIn(best, client, server); }
      assert Awaited(Client, [best]) == ServerAnswer(best);
      if Concat(toClient) < ServerAnswer(best) && Concat(toClient) + lastToClient == ServerAnswer(best) + extraToClient {
        Settles(Begin(Client, client), [best], toClient, lastToClient, extraToClient);
      }
    }
  }

  lemma ServerParses(view: bytes)
    ensures Parse(Server, view) == ParseClientVersion(view)
  {
  }

  lemma BestIn(v: nat, client: seq<nat>, server: seq<nat>)
    requires Best(v, client, server) && Sound(client)
    ensures v in client && Is24Bit(v) && v % 256 < 128
  {
  }

  /** A patch byte of 128 or more is misread: the two have no version in common, yet
      the server selects 0.0.128, which the client in turn takes for another. */
  lemma HighPatchMisread()
    ensures var client, server := [0x000180], [0x000080];
      && ParseClientVersion(ClientHello(client)) == Read([0x000080], 9)
      && Negotiate(Begin(Server, server), [0x000080]).protocol == Some(0x000080)
      && ParseServerVersion(ServerAnswer(0x000080)) == Read([0xFFFF_FF80], 8)
      && !Negotiate(Begin(Client, client), [0xFFFF_FF80]).open
  {
    var hello := ClientHello([0x000180]);
    assert Triples([0x000180]) == [0, 1, 0x80] by {
      assert [0x000180][1..] == [];
      assert Triple(0x000180) == (0, 1, 0x80);
    }
    assert hello[..5] == MAGIC + [SUPPORTED] && hello[6..] == [0, 1, 0x80];
    assert ReadVersions([0, 1, 0x80], 1) == [0x000080];
    assert Common([0x000080], [0x000080]) == [0x000080];
    assert ServerAnswer(0x000080)[..4] == MAGIC;
  }

  /** Each side reads the other's message in one piece and they end up with the greatest
      common version. */
  ghost predicate Agree(client: seq<nat>, server: seq<nat>)
    requires |client| <= 255
  {
    var s := Poll(Begin(Server, server), ClientHello(client)).p;
    && s.protocol.Some? && Best(s.protocol.value, client, server)
    && Poll(Begin(Client, client), s.sent).p.protocol == s.protocol
  }

  /** A client reaches agreement with every server it shares a version with exactly
      when the patch bytes of all its versions are below 128. */
  lemma AgreesIff(client: seq<nat>)
    requires |client| <= 255 && forall v :: v in client ==> Is24Bit(v)
    ensures (forall server: seq<nat> | (exists v :: v in client && v in server) :: Agree(client, server))
      <==> Sound(client)
  {
    if Sound(client) {
      forall server: seq<nat> | exists v :: v in client && v in server ensures Agree(client, server) {
        SoundAgrees(client, server);
      }
    } else {
      var v :| v in client && v % 256 >= 128;
      NoAgreement(client, v);
      assert v in [v];
    }
  }

  lemma SoundAgrees(client: seq<nat>, server: seq<nat>)
    requires |client| <= 255 && Sound(client) && exists v :: v in client && v in server
    ensures Agree(client, server)
  {
    hide ClientHello, ServerAnswer, Poll, Best, Sound;
    var hello := ClientHello(client);
    assert |hello| > 0 by { HelloLength(client); }
    var s := PollAll(Begin(Server, server), [] + [hello]);
    assert Concat([]) == [] && [] + hello == hello + [];
    assert s.sent + [] == [] + s.sent;
    AnswerLength(if s.protocol.Some? then s.protocol.value else 0);
    BothSettle(client, server, [], hello, [], [], s.sent, []);
    OnePoll(Begin(Server, server), hello);
    OnePoll(Begin(Client, client), s.sent);
  }

  lemma HelloLength(names: seq<nat>)
    requires |names| <= 255
    ensures |ClientHello(names)| == 6 + 3 * |names|
  {
    TriplesLength(names);
  }

  lemma AnswerLength(v: nat)
    ensures |ServerAnswer(v)| == 8
  {
  }

  lemma OnePoll(p: PreAuth, read: bytes)
    ensures PollAll(p, [] + [read]) == Poll(p, read).p
  {
    assert ([] + [read])[..0] == [];
  }

  /** With a server that speaks only this version. */
  lemma NoAgreement(client: seq<nat>, v: nat)
    requires |client| <= 255 && v in client && Is24Bit(v) && v % 256 >= 128
    ensures !Agree(client, [v])
  {
    hide ClientHello, ServerAnswer, ParseClientVersion, ParseServerVersion, Is24Bit, ParseRequest;
    var hello, p := ClientHello(client), Begin(Server, [v]);
    HelloLength(client);
    var vs := HelloReads(client);
    ServerParses(hello);
    CommonIs(vs, [v]);
    var q := p.(buffer := hello);
    assert p.buffer + hello == hello && hello[|hello|..] == [];
    var s := Poll(p, hello).p;
    assert s == Rounds(Negotiate(q, vs), []).p;
    if Common(vs, [v]) == [] {
      StaysUndecided(Negotiate(q, vs));
    } else {
      assert Max(Common(vs, [v])) == v by {
        assert forall i :: 0 <= i < |Common(vs, [v])| ==> Common(vs, [v])[i] in Common(vs, [v]);
        OnlyOne(Common(vs, [v]), v);
      }
      assert s.sent == ServerAnswer(v);
      AnswerMisread(client, v);
    }
  }

  lemma HelloReads(names: seq<nat>) returns (vs: seq<nat>)
    requires |names| <= 255
    ensures ParseClientVersion(ClientHello(names)) == Read(vs, |ClientHello(names)|)
  {
    HelloLength(names);
    var raw := ClientHello(names);
    assert raw[..5] == MAGIC + [SUPPORTED];
    vs := ReadVersions(raw[6..], |names|);
  }

  lemma StaysUndecided(p: PreAuth)
    requires p.protocol.None?
    ensures Rounds(p, []).p.protocol.None?
  {
  }

  lemma {:induction false} OnlyOne(vs: seq<nat>, v: nat)
    requires |vs| > 0 && forall i :: 0 <= i < |vs| ==> vs[i] == v
    ensures Max(vs) == v
  {
    hide Less;
    if |vs| > 1 { OnlyOne(vs[..|vs| - 1], v); }
  }

  lemma AnswerMisread(names: seq<nat>, v: nat)
    requires Is24Bit(v) && v % 256 >= 128
    ensures Poll(Begin(Client, names), ServerAnswer(v)).p.protocol != Some(v)
  {
    hide Triple, ReadVersion, ParseRequest;
    var answer := ServerAnswer(v);
    assert answer[..4] == MAGIC && [] + answer == answer && answer[8..] == [];
    VersionRoundTripIff(v);
    var (x, y, z) := Triple(v);
    assert ParseServerVersion(answer) == Read([ReadVersion(x, y, z)], 8);
    var p := Begin(Client, names).(buffer := answer);
    assert Poll(Begin(Client, names), answer) == Rounds(Negotiate(p, [ReadVersion(x, y, z)]), []);
  }

  // ----- requests before trust -----------------------------------------------------

  function Refusals(rs: seq<Request>): bytes {
    if rs == [] then [] else Refusal(rs[0].messageId) + Refusals(rs[1..])
  }

  /** After that one break, every request is answered with UNAUTHORIZED: just those that
      reassembly finds in the buffer. */
  lemma {:induction false} RefusesAll(p: PreAuth, view: bytes)
    requires p.protocol.Some? && !p.firstExtra
    ensures var pass, q := S.Drain(view), Rounds(p, view);
      && q.error == pass.error
      && q.p == p.(sent := p.sent + Refusals(pass.requests),
                   buffer := if pass.error.None? then pass.rest else p.buffer)
    decreases |view|
  {
    hide ParseRequest, Refusal;
    assert p.sent + [] == p.sent;
    if ParseRequest(view).Parsed? {
      var Parsed(r, n) := ParseRequest(view);
      var q := p.(sent := p.sent + Refusal(r.messageId));
      RefusesAll(q, view[n..]);
      var more := S.Drain(view[n..]).requests;
      assert ([r] + more)[1..] == more;
      Joined(p.sent, Refusal(r.messageId), Refusals(more));
    }
  }

  lemma Joined(a: bytes, b: bytes, c: bytes)
    ensures (a + b) + c == a + (b + c)
  {
  }

  /** So what came with the handshake is refused at the next read, not before. */
  lemma RefusedNextTime(
      p: PreAuth, vs: seq<nat>, chunks: seq<bytes>, last: bytes, extra: bytes, more: bytes)
    requires p == Begin(p.side, p.names)
    requires |vs| <= 255 && (p.side == Client ==> |vs| == 1) && Sound(vs)
    requires Concat(chunks) < Awaited(p.side, vs) && Concat(chunks) + last == Awaited(p.side, vs) + extra
    requires Negotiate(p, vs).protocol.Some?
    ensures var before, after := PollAll(p, chunks + [last]), Poll(PollAll(p, chunks + [last]), more);
      var pass := S.Drain(extra + more);
      && before.sent == Negotiate(p, vs).sent
      && (extra + more != [] ==>
            after.error == pass.error && after.p.sent == before.sent + Refusals(pass.requests))
  {
    hide Parse, Awaited, Concat, PollAll, Rounds;
    Settles(p, vs, chunks, last, extra);
    var before := PollAll(p, chunks + [last]);
    OpenWithProtocol(p, vs);
    if extra + more != [] {
      RefusesAll(before.(buffer := extra + more), extra + more);
    }
  }

  lemma OpenWithProtocol(p: PreAuth, vs: seq<nat>)
    requires p.open && p.protocol.None? && Negotiate(p, vs).protocol.Some?
    ensures Negotiate(p, vs).open
  {
  }

  /** The refusals of these requests, as the other end gets them. */
  function Refused(rs: seq<Request>): seq<Request> {
    seq(|rs|, i requires 0 <= i < |rs| => Request(rs[i].messageId, Response(UNAUTHORIZED)))
  }

  lemma {:induction false} RefusalsRead(rs: seq<Request>)
    ensures S.Drain(Refusals(rs)) == S.Pass(Refused(rs), [], None)
  {
    hide S.Drain, Frame, ParseRequest;
    if rs == [] {
      S.DrainNothing();
    } else {
      var r := Request(rs[0].messageId, Response(UNAUTHORIZED));
      RefusalsRead(rs[1..]);
      assert Sendable(r) && ShortEnough(r);
      S.DrainFrame(r, Refusals(rs[1..]));
      assert Refused(rs) == [r] + Refused(rs[1..]);
    }
  }

  /** What is written after the first `n` bytes, as the other end reads it. */
  function ReadFrom(sent: bytes, n: nat): S.Pass
    requires n <= |sent|
  {
    S.Drain(sent[n..])
  }

  /** Read by the other end: every request that reassembly finds gets one answer, in order
      and under its id, "unauthorized", and nothing else is written. */
  lemma RefusalsArrive(p: PreAuth, view: bytes)
    requires p.protocol.Some? && !p.firstExtra
    ensures var asked, sent := S.Drain(view).requests, Rounds(p, view).p.sent;
      && p.sent <= sent
      && var answers := ReadFrom(sent, |p.sent|);
         && answers.error.None? && answers.rest == [] && |answers.requests| == |asked|
         && forall i :: 0 <= i < |asked| ==>
              answers.requests[i] == Request(asked[i].messageId, Response(UNAUTHORIZED))
  {
    hide ParseRequest, Refusal, Rounds, S.Drain;
    RefusesAll(p, view);
    var rs := S.Drain(view).requests;
    RefusalsRead(rs);
    assert (p.sent + Refusals(rs))[|p.sent|..] == Refusals(rs);
  }

  /** The same of what came with the handshake, at the next read. */
  lemma RefusalsArriveNext(
      p: PreAuth, vs: seq<nat>, chunks: seq<bytes>, last: bytes, extra: bytes, more: bytes)
    requires p == Begin(p.side, p.names)
    requires |vs| <= 255 && (p.side == Client ==> |vs| == 1) && Sound(vs)
    requires Concat(chunks) < Awaited(p.side, vs) && Concat(chunks) + last == Awaited(p.side, vs) + extra
    requires Negotiate(p, vs).protocol.Some? && extra + more != []
    ensures var before := PollAll(p, chunks + [last]);
      var asked, sent := S.Drain(extra + more).requests, Poll(before, more).p.sent;
      && before.sent <= sent
      && var answers := ReadFrom(sent, |before.sent|);
         && answers.error.None? && answers.rest == [] && |answers.requests| == |asked|
         && forall i :: 0 <= i < |asked| ==>
              answers.requests[i] == Request(asked[i].messageId, Response(UNAUTHORIZED))
  {
    hide Parse, Awaited, Concat, PollAll, Rounds, Refusal, Refusals, S.Drain;
    Settles(p, vs, chunks, last, extra);
    var before := PollAll(p, chunks + [last]);
    OpenWithProtocol(p, vs);
    RefusalsArrive(before.(buffer := extra + more), extra + more);
  }

  // ----- messages that are not understood ---------------------------------------------

  /** A first message that does not begin like the one awaited closes the connection, and
      nothing is answered; a shorter one is waited for. */
  lemma WrongMessageCloses(side: Side, names: seq<nat>, read: bytes)
    requires read != []
    ensures var p, need := Begin(side, names), if side == Server then 6 else 8;
      var after := Poll(p, read);
      && (|read| < need ==> after == Polled(p.(buffer := read), None))
      && (|read| >= need && read[..5] != [70, 83, 80, 95, if side == Server then 1 else 2] ==>
            after == Polled(p.(open := false, buffer := read), None))
  {
    hide ParseRequest, ReadVersions, Parse, Rounds;
    var p := Begin(side, names);
    assert p.buffer + read == read;
    WrongBytes(side, read);
    FirstRound(p.(buffer := read), read);
  }

  lemma FirstRound(p: PreAuth, view: bytes)
    requires p.protocol.None?
    ensures Parse(p.side, view).More? ==> Rounds(p, view) == Polled(p.(buffer := view), None)
    ensures Parse(p.side, view).Bad? ==> Rounds(p, view) == Polled(p.(open := false, buffer := view), None)
  {
    hide Parse;
  }

  lemma WrongBytes(side: Side, read: bytes)
    ensures var need := if side == Server then 6 else 8;
      && (|read| < need ==> Parse(side, read) == More)
      && (|read| >= need && read[..5] != [70, 83, 80, 95, if side == Server then 1 else 2] ==> Parse(side, read) == Bad)
  {
    hide ReadVersions;
    assert MAGIC + [SUPPORTED] == [70, 83, 80, 95, 1] && MAGIC + [SELECTED] == [70, 83, 80, 95, 2];
    if |read| >= 8 && read[..4] == MAGIC && read[4] == SELECTED { assert read[..5] == read[..4] + [read[4]]; }
  }

  /** The client takes the version selected exactly when it speaks it, and closes otherwise;
      it never answers. */
  lemma SelectionTakenIff(names: seq<nat>, x: byte, y: byte, z: byte)
    requires z < 128
    ensures var v := 65536 * x + 256 * y + z;
      var p := Poll(Begin(Client, names), [70, 83, 80, 95, 2, x, y, z]).p;
      && (p.protocol == Some(v) <==> v in names) && (p.protocol.None? <==> v !in names)
      && (p.open <==> v in names) && p.sent == [] && p.buffer == []
  {
    hide ParseRequest;
    var read := [70, 83, 80, 95, 2, x, y, z];
    var p := Begin(Client, names);
    assert p.buffer + read == read && read[..4] == MAGIC && read[8..] == [];
    var v := 65536 * x + 256 * y + z;
    assert ParseServerVersion(read) == Read([v], 8);
    assert Poll(p, read) == Rounds(Negotiate(p.(buffer := read), [v]), []);
  }

  /** A closed end reads nothing and writes nothing, whatever arrives. */
  lemma {:induction false} ClosedReadsNothing(p: PreAuth, chunks: seq<bytes>)
    requires !p.open
    ensures PollAll(p, chunks) == p
    ensures forall read :: Poll(p, read) == Polled(p, None)
  {
    if chunks != [] { ClosedReadsNothing(p, chunks[..|chunks| - 1]); }
  }
}
