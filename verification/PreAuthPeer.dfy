/** One end of a connection before it is trusted, and the parsers and printers of
    the version handshake. */
module PreAuthPeer {
  import opened Bytes
  import opened Requests
  import opened Codec
  import opened Handshake
  import ProtocolHandler

  /** `index` is a byte in the source: past 84 versions it would wrap. */
  method MakeClientVersionPayload(names: seq<nat>) returns (ret: array<byte>)
    requires |names| <= 255
    ensures fresh(ret) && ret.Length == 6 + 3 * |names|
    ensures |names| <= 84 ==> ret[..] == ClientHello(names)
  {
    hide Triple, Triples, Head, ClientHello;
    ret := StaticBytes(|names|);
    HeadOnly(names);
    var index: byte := 6;
    var k := 0;
    while k < |names|
      invariant 0 <= k <= |names|
      invariant |names| <= 84 && k <= 83 ==> index == 6 + 3 * k
      invariant |names| <= 84 ==> ret[..6 + 3 * k] == Head(names, k)
    {
      var at: nat := index;
      PutVersion(ret, at, names[k]);
      HeadGrows(names, k);
      index := (at + 3) % 256;
      k := k + 1;
    }
    HeadAll(names);
    assert ret[..6 + 3 * |names|] == ret[..];
  }

  method StaticBytes(count: byte) returns (ret: array<byte>)
    ensures fresh(ret) && ret.Length == 6 + 3 * (count as int)
    ensures ret[..6] == MAGIC + [SUPPORTED, count]
  {
    ret := new byte[6 + 3 * (count as int)](_ => 0);
    ret[4], ret[5] := SUPPORTED, count;
    ret[0], ret[1], ret[2], ret[3] := MAGIC[0], MAGIC[1], MAGIC[2], MAGIC[3];
  }

  /** The payload up to its first `k` versions. */
  function Head(names: seq<nat>, k: nat): bytes
    requires |names| <= 255 && k <= |names|
  {
    MAGIC + [SUPPORTED, |names|] + Triples(names[..k])
  }

  lemma HeadOnly(names: seq<nat>)
    requires |names| <= 255
    ensures Head(names, 0) == MAGIC + [SUPPORTED, |names|]
  {
    assert names[..0] == [];
  }

  lemma HeadAll(names: seq<nat>)
    requires |names| <= 255
    ensures Head(names, |names|) == ClientHello(names)
  {
    assert names[..|names|] == names;
  }

  lemma HeadGrows(names: seq<nat>, k: nat)
    requires |names| <= 255 && k < |names|
    ensures Head(names, k + 1)
         == Head(names, k) + [Triple(names[k]).0, Triple(names[k]).1, Triple(names[k]).2]
  {
    hide Triple, Triples;
    TriplesSnoc(names, k);
  }

  method PutVersion(ret: array<byte>, at: nat, v: nat)
    requires at + 3 <= ret.Length
    modifies ret
    ensures ret[..at] == old(ret[..at])
    ensures ret[..at + 3] == old(ret[..at]) + [Triple(v).0, Triple(v).1, Triple(v).2]
  {
    hide Triple;
    var (x, y, z) := Triple(v);
    ret[at] := x;
    ret[at + 1] := y;
    ret[at + 2] := z;
  }

  lemma {:induction false} TriplesSnoc(vs: seq<nat>, k: nat)
    requires k < |vs|
    ensures Triples(vs[..k + 1])
         == Triples(vs[..k]) + [Triple(vs[k]).0, Triple(vs[k]).1, Triple(vs[k]).2]
    decreases k
  {
    hide Triple;
    if k > 0 {
      TriplesSnoc(vs[1..], k - 1);
      assert vs[..k + 1][1..] == vs[1..][..k];
      assert vs[..k][1..] == vs[1..][..k - 1];
    } else {
      assert vs[..1][1..] == [];
    }
  }

  method FormatServerSelectedVersion(version: nat) returns (str: bytes)
    ensures str == ServerAnswer(version)
  {
    str := MAGIC;
    str := str + [SELECTED];
    str := str + [version / 65536 % 256];
    str := str + [version / 256 % 256];
    str := str + [version % 256];
  }

  method ReadClientVersion(raw: bytes) returns (r: Reading)
    ensures r == Handshake.ParseClientVersion(raw)
  {
    if |raw| < 6 {
      return More;
    }
    if raw[..5] != MAGIC + [SUPPORTED] {
      return Bad;
    }
    var nbVersions: nat := raw[5];
    if |raw| < 6 + 3 * nbVersions {
      return More;
    }
    var versions := [];
    var str := raw[6..];
    assert str[0..] == str;
    var i := 0;
    while i < nbVersions
      invariant 0 <= i <= nbVersions
      invariant versions + ReadVersions(str[3 * i..], nbVersions - i) == ReadVersions(str, nbVersions)
    {
      assert str[3 * i..][3..] == str[3 * (i + 1)..];
      var version := ReadVersion(str[i * 3], str[i * 3 + 1], str[i * 3 + 2]);
      MoveOne(versions, version, ReadVersions(str[3 * (i + 1)..], nbVersions - (i + 1)));
      versions := versions + [version];
      i := i + 1;
    }
    assert versions + [] == versions;
    return Read(versions, 6 + 3 * nbVersions);
  }

  lemma MoveOne(a: seq<nat>, x: nat, b: seq<nat>)
    ensures a + ([x] + b) == a + [x] + b
  {
  }

  method ReadServerVersion(raw: bytes) returns (r: Reading)
    ensures r == Handshake.ParseServerVersion(raw)
  {
    if |raw| < 8 {
      return More;
    }
    if !(MAGIC <= raw) || raw[4] != SELECTED {
      return Bad;
    }
    return Read([ReadVersion(raw[5], raw[6], raw[7])], 8);
  }

  /** `erase_if`: the versions that are not among the names. */
  method KeepCommon(versions: seq<nat>, names: seq<nat>) returns (kept: seq<nat>)
    ensures kept == Common(versions, names)
  {
    kept := [];
    var k := 0;
    assert versions[0..] == versions;
    while k < |versions|
      invariant 0 <= k <= |versions|
      invariant kept + Common(versions[k..], names) == Common(versions, names)
    {
      assert versions[k..][1..] == versions[k + 1..];
      if versions[k] in names {
        MoveOne(kept, versions[k], Common(versions[k + 1..], names));
        kept := kept + [versions[k]];
      } else {
        assert [] + Common(versions[k + 1..], names) == Common(versions[k + 1..], names);
      }
      k := k + 1;
    }
    assert kept + [] == kept;
  }

  method LargestOf(versions: seq<nat>) returns (version: nat)
    requires versions != []
    ensures version == Max(versions)
  {
    hide Less;
    version := versions[0];
    var k := 1;
    assert versions[..1] == [versions[0]];
    while k < |versions|
      invariant 1 <= k <= |versions|
      invariant version == Max(versions[..k])
    {
      assert versions[..k + 1][..k] == versions[..k];
      if Less(version, versions[k]) {
        version := versions[k];
      }
      k := k + 1;
    }
    assert versions[..|versions|] == versions;
  }

  /** What a parser hands on. */
  datatype Message = Versions(versions: seq<nat>) | Command(request: Request)

  class PreAuthPeer {
    const side: Side
    const names: seq<nat>
    var protocol: Option<nat>
    var firstExtraRequest: bool
    var buffer: bytes
    var connected: bool
    var sent: bytes

    function State(): PreAuth
      reads this
    {
      PreAuth(side, names, protocol, firstExtraRequest, buffer, connected, sent)
    }

    constructor (side: Side, names: seq<nat>)
      ensures State() == Begin(side, names)
    {
      this.side, this.names := side, names;
      protocol, firstExtraRequest, buffer, connected, sent := None, true, [], true, [];
    }

    method DoClientHello()
      requires |names| <= 84
      modifies `sent
      ensures State() == old(State()).(sent := old(sent) + ClientHello(names))
    {
      var hello := MakeClientVersionPayload(names);
      sent := sent + hello[..];
    }

    /** How many bytes were used, 0 for none, and the message in them. */
    method ParseBytes(view: bytes) returns (ret: nat, out: Option<Message>, error: Option<Error>)
      modifies `firstExtraRequest, `connected
      ensures if old(protocol).Some? then
                if old(firstExtraRequest) then
                  ret == 0 && error.None? && State() == old(State()).(firstExtra := false)
                else
                  State() == old(State())
                  && match ParseRequest(view)
                     case Incomplete => ret == 0 && error.None?
                     case Failed(e) => error == Some(e)
                     case Parsed(r, n) => ret == n && error.None? && out == Some(Command(r))
              else
                error.None?
                && match Handshake.Parse(side, view)
                   case More => ret == 0 && State() == old(State())
                   case Bad => ret == 0 && State() == old(State()).(open := false)
                   case Read(vs, n) => ret == n && out == Some(Versions(vs)) && State() == old(State())
    {
      ret, out, error := 0, None, None;
      if protocol.Some? {
        if firstExtraRequest {
          firstExtraRequest := false;
          return;
        }
        var parsed := ProtocolHandler.ParseRequest(view);
        match parsed {
          case Incomplete =>
          case Failed(e) => error := Some(e);
          case Parsed(r, n) => ret, out := n, Some(Command(r));
        }
        return;
      }
      var reading: Reading;
      if side == Client {
        reading := ReadServerVersion(view);
      } else {
        reading := ReadClientVersion(view);
      }
      match reading {
        case More =>
        case Bad => connected := false;
        case Read(vs, n) => ret, out := n, Some(Versions(vs));
      }
    }

    method RefuseRequest(request: Request)
      modifies `sent
      ensures State() == old(State()).(sent := old(sent) + Refusal(request.messageId))
    {
      var message := ProtocolHandler.FormatResponse(request.messageId, Response(UNAUTHORIZED));
      sent := sent + message;
    }

    /** Of the client's versions, those spoken here; then the greatest. */
    method AuthorizeVersions(versions: seq<nat>)
      requires protocol.None?
      modifies `protocol, `connected, `sent
      ensures State() == Negotiate(old(State()), versions)
    {
      hide Max, Common, ServerAnswer;
      if side == Client {
        if versions == [] || versions[0] !in names {
          connected := false;
          return;
        }
        protocol := Some(versions[0]);
        return;
      }
      var kept := KeepCommon(versions, names);
      if kept == [] {
        connected := false;
        return;
      }
      var version := LargestOf(kept);
      protocol := Some(version);
      var answer := FormatServerSelectedVersion(version);
      sent := sent + answer;
    }

    method PollRequests(read: bytes) returns (error: Option<Error>)
      modifies this
      ensures Polled(State(), error) == Poll(old(State()), read)
    {
      hide ParseRequest, Handshake.Parse, Negotiate, Refusal;
      if !connected {
        return None;
      }
      buffer := buffer + read;
      if buffer == [] {
        return None;
      }
      var view := buffer;
      var total := 0;
      ghost var end := Rounds(State(), view);
      while true
        invariant 0 <= total <= |buffer| && view == buffer[total..]
        invariant buffer == old(buffer) + read
        invariant Rounds(State(), view) == end
        decreases |view|
      {
        var ret, out, e := ParseBytes(view);
        if e.Some? {
          return e;
        }
        if ret == 0 {
          break;
        }
        match out.value {
          case Versions(vs) => AuthorizeVersions(vs);
          case Command(request) => RefuseRequest(request);
        }
        assert view[ret..] == buffer[total + ret..];
        total := total + ret;
        view := view[ret..];
      }
      buffer := buffer[total..];
      return None;
    }
  }
}
