/** Listing a folder: LIST_FILES, then FILE_LIST packets one at a time, over two
    FIFO channels. */
module FolderListing {
  import opened Bytes
  import opened Requests
  import opened Transfers
  import opened MessageQueue
  import opened Peer

  /** The peer that asks and the one that answers; `toB` and `toA` count the messages
      each has taken in from the other's wire. */
  datatype Talk = Talk(
    a: Peer, b: Peer, id: MessageId, toB: nat, toA: nat, collected: Option<seq<FileInfo>>, error: Option<Error>)

  datatype Action =
    | DeliverToAnswerer
    | DeliverToAsker
    | Collect // `list_files` finds the listing finished

  predicate Enabled(s: Talk, act: Action) {
    && s.error.None?
    && match act
       case DeliverToAnswerer => s.toB < |s.a.wire|
       case DeliverToAsker => s.toA < |s.b.wire|
       case Collect =>
         && s.collected.None? && s.id in s.a.queue.outgoing
         && s.a.queue.outgoing[s.id].status == Some(STATUS_OK)
         && s.id in s.a.listings && Finished(s.a.listings[s.id])
  }

  function Next(s: Talk, act: Action): Talk
    requires Enabled(s, act)
  {
    match act
    case DeliverToAnswerer =>
      var out := AuthorizeRequest(s.b, s.a.wire[s.toB]);
      s.(b := out.peer, toB := s.toB + 1, error := out.error)
    case DeliverToAsker =>
      var out := AuthorizeRequest(s.a, s.b.wire[s.toA]);
      s.(a := out.peer, toA := s.toA + 1, error := out.error)
    case Collect =>
      s.(collected := Some(s.a.listings[s.id].files), a := s.a.(listings := s.a.listings - {s.id}))
  }

  function Run(s: Talk, acts: seq<Action>): Option<Talk>
    decreases |acts|
  {
    if acts == [] then Some(s)
    else
      match Run(s, acts[..|acts| - 1])
      case None => None
      case Some(t) => if Enabled(t, acts[|acts| - 1]) then Some(Next(t, acts[|acts| - 1])) else None
  }

  // ----- the packets ---------------------------------------------------------

  /** Where packet `i` starts among `n` entries. */
  function At(n: nat, i: nat): nat { if 255 * i <= n then 255 * i else n }

  /** `n / 255` rounded up, and an empty packet to say that this was all. */
  function PacketsFor(n: nat): nat { (n + 254) / 255 + 1 }

  function Part(entries: seq<FileInfo>, i: nat): seq<FileInfo> {
    entries[At(|entries|, i)..At(|entries|, i + 1)]
  }

  lemma PartIs(entries: seq<FileInfo>, i: nat)
    requires i < PacketsFor(|entries|)
    ensures Part(entries, i) == [] <==> i + 1 == PacketsFor(|entries|)
    ensures entries[..At(|entries|, i)] + Part(entries, i) == entries[..At(|entries|, i + 1)]
    ensures i + 1 == PacketsFor(|entries|) ==> At(|entries|, i) == |entries| == At(|entries|, i + 1)
  {
  }

  /** A lister that has sent `k` packets. */
  predicate ListerAt(l: Lister, entries: seq<FileInfo>, k: nat) {
    l == Lister(entries, At(|entries|, k), k, k == PacketsFor(|entries|))
  }

  lemma NextListIs(l: Lister, entries: seq<FileInfo>, k: nat, id: MessageId)
    requires ListerAt(l, entries, k) && k < PacketsFor(|entries|)
    ensures ValidLister(l) && !l.extraSent
    ensures NextList(l, id).1 == Some(FileList(id, k, Part(entries, k)))
    ensures ListerAt(NextList(l, id).0, entries, k + 1)
  {
    PartIs(entries, k);
  }

  /** A listing that has received the first `k` packets. */
  predicate ListingAt(l: Listing, entries: seq<FileInfo>, k: nat) {
    l == Listing(entries[..At(|entries|, k)], k, [], k == PacketsFor(|entries|))
  }

  lemma ReceiveListIs(l: Listing, entries: seq<FileInfo>, k: nat)
    requires ListingAt(l, entries, k) && k < PacketsFor(|entries|)
    ensures ListingAt(ReceiveList(l, k, Part(entries, k)), entries, k + 1)
  {
    PartIs(entries, k);
  }

  // ----- invariants ----------------------------------------------------------

  datatype Ask = Ask(id: MessageId, folder: bytes, entries: seq<FileInfo>)

  /** How many packets the answerer has sent after taking in `got` messages. */
  function PacketsAfter(entries: seq<FileInfo>, got: nat): nat {
    if got <= PacketsFor(|entries|) then got else PacketsFor(|entries|)
  }

  /** The answerer's packets from `from` on wait for an answer. */
  ghost predicate Waiting(out: MessageMap, wire: seq<Request>, from: nat) {
    forall i :: 0 < i < |wire| && from <= i ==>
      Taken(out, wire[i].messageId) && out[wire[i].messageId].request == wire[i]
  }

  ghost predicate ListsSent(wire: seq<Request>, k: Ask) {
    && wire != [] && wire[0] == Request(k.id, Response(STATUS_OK))
    && forall i :: 1 <= i < |wire| ==> wire[i].data == FileList(k.id, i - 1, Part(k.entries, i - 1))
  }

  /** The answerer after `got` messages: the first packet, then one for each answer. */
  ghost predicate Answerer(b: Peer, b0: Peer, k: Ask, got: nat) {
    && b.env == b0.env
    && if got == 0 then b == b0
       else
         && Conserved(b.queue)
         && |b.wire| == 1 + PacketsAfter(k.entries, got)
         && ListsSent(b.wire, k) && Waiting(b.queue.outgoing, b.wire, got)
         && b.queue.slots + (|b.wire| - got) == b0.queue.slots
         && k.id in b.listers && ListerAt(b.listers[k.id], k.entries, |b.wire| - 1)
  }

  /** The asker after `got` messages: the listing holds what the packets held. */
  ghost predicate Asker(a: Peer, k: Ask, got: nat, collected: Option<seq<FileInfo>>) {
    && |a.wire| == (if got == 0 then 1 else got)
    && a.wire[0] == Request(k.id, ListFiles(k.folder))
    && (forall i :: 1 <= i < |a.wire| ==> a.wire[i].data == Response(STATUS_OK))
    && k.id in a.queue.outgoing && a.queue.outgoing[k.id].request == a.wire[0]
    && a.queue.outgoing[k.id].status == (if got == 0 then None else Some(STATUS_OK))
    && match collected
       case None => if got == 0 then k.id !in a.listings
                    else k.id in a.listings && ListingAt(a.listings[k.id], k.entries, got - 1)
       case Some(files) => files == k.entries && got == PacketsFor(|k.entries|) + 1
  }

  /** Each answer names the packet it is for. */
  ghost predicate Echoed(aw: seq<Request>, bw: seq<Request>) {
    forall i :: 1 <= i < |aw| ==> Echo(aw, bw, i)
  }

  predicate Echo(aw: seq<Request>, bw: seq<Request>, i: nat) {
    i < |aw| && i < |bw| && aw[i].messageId == bw[i].messageId
  }

  /** The folder may be listed and opened, and no lister is left under the id. */
  ghost predicate CanList(b0: Peer, k: Ask) {
    && MayList(b0.env, k.folder) && !NoDirectory(b0.env, k.folder) && k.entries == Entries(b0.env, k.folder)
    && Conserved(b0.queue) && b0.queue.slots > 0 && b0.wire == [] && k.id !in b0.listers
  }

  ghost predicate Inv(s: Talk, k: Ask, b0: Peer) {
    && s.error.None? && s.id == k.id
    && CanList(b0, k)
    && s.toB <= |s.a.wire| && s.toA <= |s.b.wire|
    && Asker(s.a, k, s.toA, s.collected)
    && Answerer(s.b, b0, k, s.toB)
    && Echoed(s.a.wire, s.b.wire)
  }

  // ----- the answerer's steps --------------------------------------------------

  lemma SendListKeeps(b: Peer, b0: Peer, k: Ask, got: nat)
    requires b.env == b0.env && Conserved(b.queue) && b.queue.slots > 0 && got > 0
    requires |b.wire| == got && got <= PacketsFor(|k.entries|)
    requires ListsSent(b.wire, k) && Waiting(b.queue.outgoing, b.wire, got)
    requires b.queue.slots == b0.queue.slots
    requires k.id in b.listers && ListerAt(b.listers[k.id], k.entries, got - 1)
    ensures var out := SendList(b, k.id);
      && out.error.None? && Answerer(out.peer, b0, k, got)
      && out.peer.wire[..got] == b.wire && |out.peer.wire| == got + 1
  {
    hide Open, OpenIds, FirstOnRing, Send, NextList, ListerAt, PacketsFor;
    var packet := FileList(k.id, got - 1, Part(k.entries, got - 1));
    NextListIs(b.listers[k.id], k.entries, got - 1, k.id);
    FreeSlotMeansFreeId(b.queue, packet);
    SendTakes(b.queue, packet);
    SentWaits(b.queue.outgoing, b.wire, Send(b.queue, packet).id, packet, got);
  }

  lemma SentWaits(out: MessageMap, wire: seq<Request>, id: MessageId, data: Data, from: nat)
    requires |wire| == from > 0 && !Taken(out, id)
    ensures Waiting(out[id := Message(Request(id, data), None)], wire + [Request(id, data)], from)
  {
  }

  lemma AskedKeeps(b0: Peer, k: Ask)
    requires CanList(b0, k)
    ensures var out := AuthorizeRequest(b0, Request(k.id, ListFiles(k.folder)));
      out.error.None? && Answerer(out.peer, b0, k, 1)
  {
    hide SendList, MayList, NoDirectory, Entries, OpenIds;
    var request := Request(k.id, ListFiles(k.folder));
    var q := b0.(queue := Requested(b0.queue, request), listers := b0.listers[k.id := OpenLister(k.entries)]);
    var replied := SendReply(q, k.id, STATUS_OK);
    SendListKeeps(replied.peer, b0, k, 1);
  }

  /** An answer to the last packet: the next one follows, or there is none left. */
  lemma AnsweredKeeps(b: Peer, b0: Peer, k: Ask, got: nat)
    requires Answerer(b, b0, k, got) && 1 <= got < |b.wire|
    ensures var out := AuthorizeRequest(b, Request(b.wire[got].messageId, Response(STATUS_OK)));
      && out.error.None? && Answerer(out.peer, b0, k, got + 1) && b.wire <= out.peer.wire
  {
    hide SendList, OpenIds, NextOnReply, Burst, Part;
    var id := b.wire[got].messageId;
    assert Taken(b.queue.outgoing, id) && b.queue.outgoing[id].request == b.wire[got];
    ReplyChanges(b.queue, id, STATUS_OK);
    FreesSlot(b.queue, id);
    var q := b.(queue := Replied(b.queue, id, STATUS_OK).value);
    assert |b.wire| == got + 1;
    if got < PacketsFor(|k.entries|) {
      SendListKeeps(q, b0, k, got + 1);
    }
  }

  lemma FreesSlot(q: Queue, id: MessageId)
    requires Conserved(q) && Taken(q.outgoing, id)
    ensures var q' := Replied(q, id, STATUS_OK).value; Conserved(q') && q'.slots == q.slots + 1
  {
    ReplyChanges(q, id, STATUS_OK);
    assert id in OpenIds(q.outgoing);
    assert OpenIds(q.outgoing) != {};
  }

  // ----- the asker's steps -----------------------------------------------------

  lemma AcceptedKeeps(a: Peer, k: Ask)
    requires Asker(a, k, 0, None)
    ensures var out := AuthorizeRequest(a, Request(k.id, Response(STATUS_OK)));
      && out.error.None? && Asker(out.peer, k, 1, None) && out.peer.wire == a.wire
  {
    ReplyChanges(a.queue, k.id, STATUS_OK);
  }

  lemma ListArrives(a: Peer, k: Ask, got: nat, id: MessageId)
    requires Asker(a, k, got, None) && 1 <= got <= PacketsFor(|k.entries|)
    ensures var out := AuthorizeRequest(a, Request(id, FileList(k.id, got - 1, Part(k.entries, got - 1))));
      && out.error.None? && Asker(out.peer, k, got + 1, None)
      && out.peer.wire == a.wire + [Request(id, Response(STATUS_OK))]
  {
    hide Part, ListingAt, ReceiveList, PacketsFor;
    ReceiveListIs(a.listings[k.id], k.entries, got - 1);
  }

  // ----- every reachable state -----------------------------------------------

  lemma ToAnswererKeeps(s: Talk, k: Ask, b0: Peer)
    requires Inv(s, k, b0) && Enabled(s, DeliverToAnswerer)
    ensures Inv(Next(s, DeliverToAnswerer), k, b0)
  {
    hide AuthorizeRequest, Answerer, CanList, ListingAt;
    if s.toB == 0 {
      StartsEmpty(s.b, b0, k);
      AskedKeeps(b0, k);
    } else {
      assert Echo(s.a.wire, s.b.wire, s.toB);
      AnsweredKeeps(s.b, b0, k, s.toB);
      EchoedGrows(s.a.wire, s.b.wire, AuthorizeRequest(s.b, s.a.wire[s.toB]).peer.wire);
    }
  }

  lemma StartsEmpty(b: Peer, b0: Peer, k: Ask)
    requires Answerer(b, b0, k, 0) && CanList(b0, k)
    ensures b == b0 && b.wire == []
  {
  }

  lemma EchoedGrows(aw: seq<Request>, bw: seq<Request>, more: seq<Request>)
    requires Echoed(aw, bw) && bw <= more
    ensures Echoed(aw, more)
  {
    forall i | 1 <= i < |aw| ensures Echo(aw, more, i) {
      assert Echo(aw, bw, i);
      assert bw[i] == more[..|bw|][i];
    }
  }

  lemma ToAskerKeeps(s: Talk, k: Ask, b0: Peer)
    requires Inv(s, k, b0) && Enabled(s, DeliverToAsker)
    ensures Inv(Next(s, DeliverToAsker), k, b0)
  {
    hide AuthorizeRequest, CanList, ListingAt, Part, Waiting, PacketsFor, Conserved, ListerAt;
    assert s.toB > 0 by { if s.toB == 0 { StartsEmpty(s.b, b0, k); } }
    if s.toA == 0 {
      AcceptedKeeps(s.a, k);
    } else {
      var m := s.b.wire[s.toA];
      assert m.data == FileList(k.id, s.toA - 1, Part(k.entries, s.toA - 1));
      ListArrives(s.a, k, s.toA, m.messageId);
      EchoesOneMore(s.a.wire, s.b.wire);
    }
  }

  lemma EchoesOneMore(aw: seq<Request>, bw: seq<Request>)
    requires Echoed(aw, bw) && |aw| < |bw|
    ensures Echoed(aw + [Request(bw[|aw|].messageId, Response(STATUS_OK))], bw)
  {
    var more := aw + [Request(bw[|aw|].messageId, Response(STATUS_OK))];
    forall i | 1 <= i < |more| ensures Echo(more, bw, i) {
      if i < |aw| { assert Echo(aw, bw, i); }
    }
  }

  lemma NextKeeps(s: Talk, act: Action, k: Ask, b0: Peer)
    requires Inv(s, k, b0) && Enabled(s, act)
    ensures Inv(Next(s, act), k, b0)
  {
    hide AuthorizeRequest, Answerer, CanList, Entries;
    match act
    case DeliverToAnswerer => ToAnswererKeeps(s, k, b0);
    case DeliverToAsker => ToAskerKeeps(s, k, b0);
    case Collect => AllPackets(k.entries);
  }

  lemma AllPackets(entries: seq<FileInfo>)
    ensures entries[..At(|entries|, PacketsFor(|entries|))] == entries
  {
  }

  lemma {:induction false} RunKeeps(s: Talk, acts: seq<Action>, k: Ask, b0: Peer)
    requires Inv(s, k, b0)
    ensures Run(s, acts).Some? ==> Inv(Run(s, acts).value, k, b0)
    decreases |acts|
  {
    hide Inv, Next;
    if acts != [] {
      RunKeeps(s, acts[..|acts| - 1], k, b0);
      var before := Run(s, acts[..|acts| - 1]);
      if before.Some? && Enabled(before.value, acts[|acts| - 1]) {
        NextKeeps(before.value, acts[|acts| - 1], k, b0);
      }
    }
  }

  /** Every answer to LIST_FILES under a new id: a refusal when the node the folder is mapped
      to is not visible or is forbidden itself; an exception and no answer when that is a host
      folder and what it opens is none; else OK and the first packet; or OK and then, for want
      of a slot or of an id, an exception or no return, with the packet lost. */
  lemma AnsweredIff(b0: Peer, id: MessageId, folder: bytes)
    requires id !in b0.listers
    ensures var out := AuthorizeRequest(b0, Request(id, ListFiles(folder)));
      var entries := Entries(b0.env, folder);
      if !MayList(b0.env, folder) then
        && out.error.None? && out.peer.listers == b0.listers
        && out.peer.wire == b0.wire + [Request(id, Response(FILE_NOT_FOUND))]
      else if NoDirectory(b0.env, folder) then
        out.error == Some(HostError) && out.peer == b0.(queue := Requested(b0.queue, Request(id, ListFiles(folder))))
      else
        && id in out.peer.listers && ListerAt(out.peer.listers[id], entries, 1)
        && if b0.queue.slots == 0 || NoIdLeft(b0.queue) then
             && out.error == Some(if b0.queue.slots == 0 then NoMoreSlots else Error.Endless)
             && out.peer.wire == b0.wire + [Request(id, Response(STATUS_OK))]
           else
             && out.error.None? && |out.peer.wire| == |b0.wire| + 2
             && out.peer.wire[..|b0.wire| + 1] == b0.wire + [Request(id, Response(STATUS_OK))]
             && out.peer.wire[|b0.wire| + 1].data == FileList(id, 0, Part(entries, 0))
  {
    hide MayList, NoDirectory, Entries, SendList, Part, PacketsFor, ListerAt, OpenIds, NoIdLeft;
    if MayList(b0.env, folder) && !NoDirectory(b0.env, folder) {
      var request, entries := Request(id, ListFiles(folder)), Entries(b0.env, folder);
      var q := b0.(queue := Requested(b0.queue, request), listers := b0.listers[id := OpenLister(entries)]);
      var replied := SendReply(q, id, STATUS_OK).peer;
      SlotOrNone(replied, id, entries);
      SameIds(b0.queue, replied.queue);
    }
  }

  lemma SlotOrNone(b: Peer, id: MessageId, entries: seq<FileInfo>)
    requires id in b.listers && b.listers[id] == OpenLister(entries)
    ensures var out := SendList(b, id);
      && id in out.peer.listers && ListerAt(out.peer.listers[id], entries, 1)
      && if b.queue.slots == 0 || NoIdLeft(b.queue) then
           && out.error == Some(if b.queue.slots == 0 then NoMoreSlots else Error.Endless)
           && out.peer.wire == b.wire
         else
           && out.error.None? && |out.peer.wire| == |b.wire| + 1 && out.peer.wire[..|b.wire|] == b.wire
           && out.peer.wire[|b.wire|].data == FileList(id, 0, Part(entries, 0))
  {
    hide NextList, ListerAt, Part, OpenIds, Conserved, FirstFree, NoIdLeft;
    FirstLister(entries);
    AtLeastOne(entries);
    NextListIs(b.listers[id], entries, 0, id);
    var data := NextList(b.listers[id], id).1.value;
    SendOrNone(b.queue, data);
  }

  lemma FirstLister(entries: seq<FileInfo>)
    ensures ListerAt(OpenLister(entries), entries, 0)
  {
  }

  lemma AtLeastOne(entries: seq<FileInfo>)
    ensures PacketsFor(|entries|) >= 1
  {
  }

  // ----- the start -----------------------------------------------------------

  function AskId(a0: Peer, folder: bytes): MessageId
    requires Conserved(a0.queue) && a0.queue.slots > 0
  {
    FreeSlotMeansFreeId(a0.queue, ListFiles(folder));
    Send(a0.queue, ListFiles(folder)).id
  }

  function Start(a0: Peer, b0: Peer, folder: bytes): Talk
    requires Conserved(a0.queue) && a0.queue.slots > 0
  {
    var sent := SendRequest(a0, ListFiles(folder));
    Talk(sent.peer, b0, AskId(a0, folder), 0, 0, None, sent.error)
  }

  ghost predicate CanStart(a0: Peer, b0: Peer, folder: bytes) {
    && Conserved(a0.queue) && a0.queue.slots > 0 && a0.wire == [] && AskId(a0, folder) !in a0.listings
    && CanList(b0, Ask(AskId(a0, folder), folder, Entries(b0.env, folder)))
  }

  lemma StartsWell(a0: Peer, b0: Peer, folder: bytes)
    requires CanStart(a0, b0, folder)
    ensures Inv(Start(a0, b0, folder), Ask(AskId(a0, folder), folder, Entries(b0.env, folder)), b0)
  {
    hide Send, Open, OpenIds, Entries, MayList, NoDirectory;
    FreeSlotMeansFreeId(a0.queue, ListFiles(folder));
    SendTakes(a0.queue, ListFiles(folder));
  }

  // ----- what the runs amount to -----------------------------------------------

  /** What the asker has of the listing. */
  function Have(s: Talk): seq<FileInfo> {
    if s.collected.Some? then s.collected.value
    else if s.id in s.a.listings then s.a.listings[s.id].files
    else []
  }

  /** In every reachable state: nothing was thrown, the packets sent are numbered in
      order, the one to arrive next is the one expected, and what the asker has is a
      prefix of the folder's entries. */
  lemma AlwaysAPrefix(a0: Peer, b0: Peer, folder: bytes, acts: seq<Action>)
    requires CanStart(a0, b0, folder) && Run(Start(a0, b0, folder), acts).Some?
    ensures var s := Run(Start(a0, b0, folder), acts).value;
      && s.error.None?
      && Have(s) <= Entries(b0.env, folder)
      && (forall i :: 1 <= i < |s.b.wire| ==> s.b.wire[i].data.FileList? && s.b.wire[i].data.packetId == i - 1)
      && (1 <= s.toA < |s.b.wire| ==>
            s.id in s.a.listings && s.b.wire[s.toA].data.packetId == s.a.listings[s.id].currentId)
  {
    hide Inv, CanList, Run, Start, Entries;
    StartsWell(a0, b0, folder);
    var k := Ask(AskId(a0, folder), folder, Entries(b0.env, folder));
    RunKeeps(Start(a0, b0, folder), acts, k, b0);
    PrefixIn(Run(Start(a0, b0, folder), acts).value, k, b0);
  }

  lemma PrefixIn(s: Talk, k: Ask, b0: Peer)
    requires Inv(s, k, b0)
    ensures s.error.None? && Have(s) <= k.entries
    ensures forall i :: 1 <= i < |s.b.wire| ==> s.b.wire[i].data.FileList? && s.b.wire[i].data.packetId == i - 1
    ensures 1 <= s.toA < |s.b.wire| ==>
      s.id in s.a.listings && s.b.wire[s.toA].data.packetId == s.a.listings[s.id].currentId
  {
    hide Waiting, Conserved, Part, ListerAt, Entries, MayList;
  }

  /** The asker gets its list exactly when the answerer has sent `n / 255` rounded up,
      plus one, packets and all have arrived; and then it is the folder's. */
  lemma CollectedIsWhole(a0: Peer, b0: Peer, folder: bytes, acts: seq<Action>)
    requires CanStart(a0, b0, folder) && Run(Start(a0, b0, folder), acts).Some?
    ensures var s, entries := Run(Start(a0, b0, folder), acts).value, Entries(b0.env, folder);
      && |s.b.wire| <= PacketsFor(|entries|) + 1
      && (s.collected.Some? ==> s.collected.value == entries)
      && (s.collected.Some? || Enabled(s, Collect) <==> s.toA == PacketsFor(|entries|) + 1)
  {
    hide Inv, CanList, Run, Start, Entries, Enabled;
    StartsWell(a0, b0, folder);
    var k := Ask(AskId(a0, folder), folder, Entries(b0.env, folder));
    RunKeeps(Start(a0, b0, folder), acts, k, b0);
    WholeIn(Run(Start(a0, b0, folder), acts).value, k, b0);
  }

  lemma WholeIn(s: Talk, k: Ask, b0: Peer)
    requires Inv(s, k, b0)
    ensures |s.b.wire| <= PacketsFor(|k.entries|) + 1
    ensures s.collected.Some? ==> s.collected.value == k.entries
    ensures s.collected.Some? || Enabled(s, Collect) <==> s.toA == PacketsFor(|k.entries|) + 1
  {
    hide Waiting, Conserved, Part, ListerAt, Entries, MayList;
  }

  /** What is left: messages to deliver, and the list to collect. */
  function Measure(s: Talk, k: Ask): int {
    2 * (PacketsFor(|k.entries|) + 1) - s.toB - s.toA + if s.collected.None? then 1 else 0
  }

  lemma {:induction false} RunLength(s: Talk, acts: seq<Action>, k: Ask, b0: Peer)
    requires Inv(s, k, b0) && Run(s, acts).Some?
    ensures |acts| == Measure(s, k) - Measure(Run(s, acts).value, k)
    decreases |acts|
  {
    hide Inv, AuthorizeRequest, PacketsFor;
    if acts != [] { RunLength(s, acts[..|acts| - 1], k, b0); }
  }

  lemma MeasureIn(s: Talk, k: Ask, b0: Peer)
    requires Inv(s, k, b0)
    ensures Measure(s, k) >= 0
    ensures (forall act :: !Enabled(s, act)) ==> Measure(s, k) == 0
  {
    hide Waiting, Conserved, Part, Entries, MayList, NoDirectory;
    if forall act :: !Enabled(s, act) {
      assert !Enabled(s, DeliverToAnswerer) && !Enabled(s, DeliverToAsker) && !Enabled(s, Collect);
    }
  }

  /** Every run ends, and ends well: one that cannot go on has taken exactly two steps
      for each of the `n / 255` rounded up, plus one, packets and three more, and the
      asker has the whole list. */
  lemma EveryRunCompletes(a0: Peer, b0: Peer, folder: bytes, acts: seq<Action>)
    requires CanStart(a0, b0, folder) && Run(Start(a0, b0, folder), acts).Some?
    ensures var s, entries := Run(Start(a0, b0, folder), acts).value, Entries(b0.env, folder);
      && |acts| <= 2 * PacketsFor(|entries|) + 3
      && ((forall act :: !Enabled(s, act)) <==> |acts| == 2 * PacketsFor(|entries|) + 3)
      && (|acts| == 2 * PacketsFor(|entries|) + 3 ==>
            s.collected == Some(entries) && |s.b.wire| == PacketsFor(|entries|) + 1)
  {
    hide Inv, CanList, Run, Entries, Enabled, SendRequest;
    StartsWell(a0, b0, folder);
    var s0, k := Start(a0, b0, folder), Ask(AskId(a0, folder), folder, Entries(b0.env, folder));
    RunKeeps(s0, acts, k, b0);
    var s := Run(s0, acts).value;
    RunLength(s0, acts, k, b0);
    MeasureIn(s, k, b0);
    WholeIn(s, k, b0);
    if Measure(s, k) <= 0 { AtZero(s, k, b0); }
  }

  lemma AtZero(s: Talk, k: Ask, b0: Peer)
    requires Inv(s, k, b0) && Measure(s, k) <= 0
    ensures s.collected.Some? && |s.b.wire| == PacketsFor(|k.entries|) + 1
    ensures forall act :: !Enabled(s, act)
  {
    hide Waiting, Conserved, Part, Entries, MayList, NoDirectory;
  }

  // ----- a finished lister is never erased -------------------------------------

  /** LIST_FILES has no packet to send, and looks at a null one, exactly when the folder
      may be listed and opened, a finished lister is left under the id and a slot is free. */
  lemma ListingCrashesIff(b: Peer, request: Request)
    requires request.data.ListFiles?
    requires request.messageId in b.listers ==> ValidLister(b.listers[request.messageId])
    ensures AuthorizeRequest(b, request).error == Some(Crash) <==>
      && MayList(b.env, request.data.folderpath) && !NoDirectory(b.env, request.data.folderpath)
      && request.messageId in b.listers && b.listers[request.messageId].extraSent
      && b.queue.slots > 0
  {
    hide MayList, NoDirectory, Entries, FirstFree;
  }

  /** So once the ids have gone round, a second listing under the same id fails. */
  lemma SecondListingFails(a0: Peer, b0: Peer, folder: bytes, acts: seq<Action>, again: bytes)
    requires CanStart(a0, b0, folder) && Run(Start(a0, b0, folder), acts).Some?
    requires MayList(b0.env, again)
    ensures var s := Run(Start(a0, b0, folder), acts).value;
      s.collected.Some? ==>
        AuthorizeRequest(s.b, Request(s.id, ListFiles(again))).error
          == Some(if NoDirectory(b0.env, again) then HostError
                  else if s.b.queue.slots == 0 then NoMoreSlots else Crash)
  {
    hide Inv, CanList, Run, Start, Entries, AuthorizeRequest, MayList, NoDirectory;
    StartsWell(a0, b0, folder);
    var k := Ask(AskId(a0, folder), folder, Entries(b0.env, folder));
    RunKeeps(Start(a0, b0, folder), acts, k, b0);
    var s := Run(Start(a0, b0, folder), acts).value;
    if s.collected.Some? {
      ListerLeft(s, k, b0);
      FinishedListerFails(s.b, Request(s.id, ListFiles(again)));
    }
  }

  lemma FinishedListerFails(b: Peer, request: Request)
    requires request.data.ListFiles? && MayList(b.env, request.data.folderpath)
    requires request.messageId in b.listers && ValidLister(b.listers[request.messageId])
    requires b.listers[request.messageId].extraSent
    ensures AuthorizeRequest(b, request).error
      == Some(if NoDirectory(b.env, request.data.folderpath) then HostError
              else if b.queue.slots == 0 then NoMoreSlots else Crash)
  {
    hide MayList, NoDirectory, Entries;
  }

  lemma ListerLeft(s: Talk, k: Ask, b0: Peer)
    requires Inv(s, k, b0) && s.collected.Some?
    ensures s.id == k.id && s.b.env == b0.env && k.id in s.b.listers
    ensures ValidLister(s.b.listers[k.id]) && s.b.listers[k.id].extraSent
  {
    hide Waiting, Conserved, Part, Entries, MayList, NoDirectory;
  }
}
