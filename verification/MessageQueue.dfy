/** The message queue: 8-bit ids recycled around a ring, under a budget of 255
    requests that wait for an answer. */
module MessageQueue {
  import opened Bytes
  import opened Requests

  const MAX_ID: MessageId := 0xFF

  datatype Message = Message(request: Request, status: Option<Status>)

  type MessageMap = map<MessageId, Message>

  datatype Queue = Queue(next: MessageId, outgoing: MessageMap, incoming: MessageMap, slots: byte)

  const EMPTY := Queue(0, map[], map[], MAX_ID)

  /** Still waiting for an answer: none yet, or only "approval pending". */
  predicate Open(m: Message) { m.status.None? || m.status == Some(APPROVAL_PENDING) }

  predicate Taken(out: MessageMap, id: MessageId) { id in out && Open(out[id]) }

  function OpenIds(out: MessageMap): set<MessageId> { set id | id in out && Open(out[id]) }

  /** The id `k` places further round the ring. */
  function Ahead(id: MessageId, k: nat): MessageId { (id + k) % 256 }

  /** The first id not taken among `lap` ids from `id` on. */
  function FirstFree(out: MessageMap, id: MessageId, lap: nat): Option<MessageId>
    decreases lap
  {
    if lap == 0 then None
    else if Taken(out, id) then FirstFree(out, Ahead(id, 1), lap - 1)
    else Some(id)
  }

  datatype Sending =
    | NoSlots
    | Endless // the scan would go round for ever
    | Sent(queue: Queue, id: MessageId)

  function Send(q: Queue, data: Data): Sending {
    if q.slots == 0 then NoSlots
    else
      match FirstFree(q.outgoing, q.next, 256)
      case None => Sending.Endless
      case Some(id) =>
        Sent(Queue(Ahead(id, 1), q.outgoing[id := Message(Request(id, data), None)],
                   q.incoming, q.slots - 1), id)
  }

  function Replied(q: Queue, id: MessageId, status: Status): Result<Queue> {
    if id !in q.outgoing then Failure(UnknownMessage)
    else
      var m := q.outgoing[id];
      if m.status == Some(status) then Success(q)
      else
        var slots: byte :=
          if Open(m) && status != APPROVAL_PENDING then (q.slots + 1) % 256 else q.slots;
        Success(q.(outgoing := q.outgoing[id := m.(status := Some(status))], slots := slots))
  }

  function Requested(q: Queue, r: Request): Queue {
    q.(incoming := q.incoming[r.messageId := Message(r, None)])
  }

  function Answered(q: Queue, id: MessageId, status: Status): Result<Queue> {
    if id !in q.incoming then Failure(UnknownMessage)
    else Success(q.(incoming := q.incoming[id := q.incoming[id].(status := Some(status))]))
  }

  // ----- the id ring ---------------------------------------------------------

  /** `id` is what the scan from `start` must pick: free, and every id it passed
      over is taken by an unanswered request. */
  ghost predicate FirstOnRing(out: MessageMap, start: MessageId, id: MessageId) {
    && !Taken(out, id)
    && exists k :: 0 <= k < 256 && id == Ahead(start, k) && forall j :: 0 <= j < k ==> Taken(out, Ahead(start, j))
  }

  lemma {:induction false} ScanFinds(out: MessageMap, start: MessageId, k: nat, lap: nat)
    requires k + lap == 256
    requires forall j :: 0 <= j < k ==> Taken(out, Ahead(start, j))
    ensures match FirstFree(out, Ahead(start, k), lap)
      case Some(id) => FirstOnRing(out, start, id)
      case None => forall j :: 0 <= j < 256 ==> Taken(out, Ahead(start, j))
    decreases lap
  {
    if lap > 0 && Taken(out, Ahead(start, k)) {
      assert Ahead(Ahead(start, k), 1) == Ahead(start, k + 1);
      ScanFinds(out, start, k + 1, lap - 1);
    }
  }

  lemma RingCovers(start: MessageId, id: MessageId)
    ensures exists k :: 0 <= k < 256 && id == Ahead(start, k)
  {
    assert id == Ahead(start, (id - start) % 256);
  }

  /** One lap is enough, and finds the first id that is absent or settled; only
      when every id is taken does the scan have no end. */
  lemma RingScan(out: MessageMap, start: MessageId)
    ensures match FirstFree(out, start, 256)
      case Some(id) => FirstOnRing(out, start, id)
      case None => forall id: MessageId :: Taken(out, id)
  {
    assert Ahead(start, 0) == start;
    ScanFinds(out, start, 0, 256);
    if FirstFree(out, start, 256).None? {
      forall id: MessageId ensures Taken(out, id) { RingCovers(start, id); }
    }
  }

  /** Where the scan stands after `n` rounds of its loop. */
  function ScanAfter(out: MessageMap, id: MessageId, n: nat): Option<MessageId>
    decreases n
  {
    if !Taken(out, id) then None // has left the loop
    else if n == 0 then Some(id)
    else ScanAfter(out, Ahead(id, 1), n - 1)
  }

  /** The scan leaves its loop, after some number of rounds, exactly when some id
      is absent or settled. */
  lemma ScanEndsIff(out: MessageMap, start: MessageId)
    ensures (exists n :: ScanAfter(out, start, n).None?) <==> exists id: MessageId :: !Taken(out, id)
  {
    if id: MessageId :| !Taken(out, id) {
      RingCovers(start, id);
      var k: nat :| k < 256 && id == Ahead(start, k);
      LeavesAt(out, start, k);
    } else {
      forall n: nat ensures ScanAfter(out, start, n).Some? { NeverLeaves(out, start, n); }
    }
  }

  lemma {:induction false} LeavesAt(out: MessageMap, start: MessageId, k: nat)
    requires !Taken(out, Ahead(start, k))
    ensures ScanAfter(out, start, k).None?
    decreases k
  {
    if k > 0 {
      assert Ahead(Ahead(start, 1), k - 1) == Ahead(start, k);
      LeavesAt(out, Ahead(start, 1), k - 1);
    } else {
      assert Ahead(start, 0) == start;
    }
  }

  lemma {:induction false} NeverLeaves(out: MessageMap, start: MessageId, n: nat)
    requires forall id: MessageId :: Taken(out, id)
    ensures ScanAfter(out, start, n).Some?
    decreases n
  {
    if n > 0 { NeverLeaves(out, Ahead(start, 1), n - 1); }
  }

  // ----- the slot budget -----------------------------------------------------

  function Total(q: Queue): nat { q.slots + |OpenIds(q.outgoing)| }

  predicate Conserved(q: Queue) { Total(q) == 255 }

  function IdsBelow(n: nat): set<MessageId>
    requires n <= 256
  {
    if n == 0 then {} else IdsBelow(n - 1) + {n - 1}
  }

  lemma {:induction false} CountIds(n: nat)
    requires n <= 256
    ensures |IdsBelow(n)| == n
    ensures forall id: MessageId :: id in IdsBelow(n) <==> id < n
  {
    if n > 0 { CountIds(n - 1); }
  }

  lemma AddRemove<T>(s: set<T>, x: T)
    ensures |s + {x}| == if x in s then |s| else |s| + 1
    ensures |s - {x}| == if x in s then |s| - 1 else |s|
  {
    if x in s {
      assert s == (s - {x}) + {x};
    } else {
      assert s - {x} == s;
    }
  }

  lemma {:induction false} SubsetSmaller<T>(a: set<T>, b: set<T>)
    requires a <= b
    ensures |a| <= |b|
    ensures |a| == |b| ==> a == b
  {
    if x :| x in a { SubsetSmaller(a - {x}, b - {x}); } else { assert a == {}; }
  }

  lemma OpenIdsBound(out: MessageMap)
    ensures |OpenIds(out)| <= 256
    ensures |OpenIds(out)| == 256 <==> forall id: MessageId :: Taken(out, id)
  {
    CountIds(256);
    SubsetSmaller(OpenIds(out), IdsBelow(256));
    if forall id: MessageId :: Taken(out, id) {
      forall id: MessageId ensures id in OpenIds(out) { assert Taken(out, id); }
      assert OpenIds(out) == IdsBelow(256);
    } else if |OpenIds(out)| == 256 {
      assert OpenIds(out) == IdsBelow(256);
      forall id: MessageId ensures Taken(out, id) { assert id in IdsBelow(256); }
    }
  }

  /** Pigeonhole: while slots are conserved, a free slot means a free id. */
  lemma FreeSlotMeansFreeId(q: Queue, data: Data)
    requires Conserved(q) && q.slots > 0
    ensures Send(q, data).Sent?
  {
    OpenIdsBound(q.outgoing);
    RingScan(q.outgoing, q.next);
  }

  /** Sending takes a free slot and an id no unanswered request holds. */
  lemma SendTakes(q: Queue, data: Data)
    requires Send(q, data).Sent?
    ensures var Sent(q', id) := Send(q, data);
      && FirstOnRing(q.outgoing, q.next, id)
      && q'.next == Ahead(id, 1) && q'.slots == q.slots - 1 && q'.incoming == q.incoming
      && q'.outgoing == q.outgoing[id := Message(Request(id, data), None)]
      && OpenIds(q'.outgoing) == OpenIds(q.outgoing) + {id} && id !in OpenIds(q.outgoing)
      && |OpenIds(q'.outgoing)| == |OpenIds(q.outgoing)| + 1
  {
    RingScan(q.outgoing, q.next);
    var Sent(q', id) := Send(q, data);
    assert OpenIds(q'.outgoing) == OpenIds(q.outgoing) + {id};
  }

  /** A reply turns an answered request back into a waiting one. */
  predicate SetsBack(q: Queue, id: MessageId, status: Status) {
    id in q.outgoing && !Open(q.outgoing[id]) && status == APPROVAL_PENDING
  }

  predicate Settles(q: Queue, id: MessageId, status: Status) {
    Taken(q.outgoing, id) && status != APPROVAL_PENDING
  }

  lemma ReplyChanges(q: Queue, id: MessageId, status: Status)
    requires id in q.outgoing
    ensures var q' := Replied(q, id, status).value;
      && q'.next == q.next && q'.incoming == q.incoming
      && q'.outgoing == q.outgoing[id := q.outgoing[id].(status := Some(status))]
      && q'.slots == (if Settles(q, id, status) then (q.slots + 1) % 256 else q.slots)
      && OpenIds(q'.outgoing) ==
         (if status == APPROVAL_PENDING then OpenIds(q.outgoing) + {id} else OpenIds(q.outgoing) - {id})
      && |OpenIds(q'.outgoing)| == |OpenIds(q.outgoing)| - (if Settles(q, id, status) then 1 else 0)
                                   + (if SetsBack(q, id, status) then 1 else 0)
  {
    var q' := Replied(q, id, status).value;
    AddRemove(OpenIds(q.outgoing), id);
    if status == APPROVAL_PENDING {
      assert OpenIds(q'.outgoing) == OpenIds(q.outgoing) + {id};
    } else {
      assert OpenIds(q'.outgoing) == OpenIds(q.outgoing) - {id};
    }
  }

  // ----- whole runs ----------------------------------------------------------

  datatype Call =
    | CallSend(data: Data)
    | CallReceiveReply(id: MessageId, status: Status)
    | CallReceiveRequest(request: Request)
    | CallSendReply(id: MessageId, status: Status)

  predicate Returns(q: Queue, c: Call) { c.CallSend? ==> !Send(q, c.data).Endless? }

  /** The queue after a call; a call that throws changes nothing. */
  function Step(q: Queue, c: Call): Queue {
    match c
    case CallSend(data) => (match Send(q, data) case Sent(q', _) => q' case _ => q)
    case CallReceiveReply(id, status) =>
      (match Replied(q, id, status) case Success(q') => q' case _ => q)
    case CallReceiveRequest(r) => Requested(q, r)
    case CallSendReply(id, status) => (match Answered(q, id, status) case Success(q') => q' case _ => q)
  }

  function Run(calls: seq<Call>): Queue {
    if calls == [] then EMPTY else Step(Run(calls[..|calls| - 1]), calls[|calls| - 1])
  }

  /** Every call of the run comes back. */
  ghost predicate RunReturns(calls: seq<Call>) {
    forall i :: 0 <= i < |calls| ==> Returns(Run(calls[..i]), calls[i])
  }

  function SetBacks(calls: seq<Call>): nat {
    if calls == [] then 0
    else
      var n := |calls| - 1;
      SetBacks(calls[..n]) + SetBackBy(Run(calls[..n]), calls[n])
  }

  function SetBackBy(q: Queue, c: Call): nat {
    if c.CallReceiveReply? && SetsBack(q, c.id, c.status) then 1 else 0
  }

  lemma StepTotal(q: Queue, c: Call)
    ensures Total(Step(q, c)) in {Total(q) + SetBackBy(q, c), Total(q) + SetBackBy(q, c) - 256}
    ensures Total(q) == 255 && SetBackBy(q, c) == 0 ==> Total(Step(q, c)) == 255
  {
    hide FirstFree, FirstOnRing;
    if c.CallSend? && Send(q, c.data).Sent? {
      SendTakes(q, c.data);
    } else if c.CallReceiveReply? && c.id in q.outgoing {
      ReplyChanges(q, c.id, c.status);
      if Settles(q, c.id, c.status) {
        assert c.id in OpenIds(q.outgoing);
        assert OpenIds(q.outgoing) != {};
      }
    }
  }

  /** On every run, free slots plus waiting requests are 255 plus the number of
      settled requests set back to "approval pending", modulo 256; with none set
      back they are 255 exactly. */
  lemma {:induction false} SlotConservation(calls: seq<Call>)
    ensures Total(Run(calls)) % 256 == (255 + SetBacks(calls)) % 256
    ensures SetBacks(calls) == 0 ==> Conserved(Run(calls))
  {
    if calls == [] {
      assert OpenIds(EMPTY.outgoing) == {};
    } else {
      hide Step, Total, SetBackBy;
      var n := |calls| - 1;
      SlotConservation(calls[..n]);
      var q, c := Run(calls[..n]), calls[n];
      StepTotal(q, c);
      AddModulo(Total(Step(q, c)), Total(q), 255 + SetBacks(calls[..n]), SetBackBy(q, c));
    }
  }

  lemma AddModulo(total: nat, a: nat, b: nat, k: nat)
    requires a % 256 == b % 256
    requires total in {a + k, a + k - 256}
    ensures total % 256 == (b + k) % 256
  {
    assert a == 256 * (a / 256) + a % 256 && b == 256 * (b / 256) + b % 256;
    assert a - b == 256 * (a / 256 - b / 256);
  }

  lemma ConservedReturns(q: Queue, c: Call)
    requires Conserved(q)
    ensures Returns(q, c)
  {
    if c.CallSend? && q.slots > 0 { FreeSlotMeansFreeId(q, c.data); }
  }

  /** So no run without set-backs ever gets stuck in the scan. */
  lemma {:induction false} RunsWithoutSetBacksReturn(calls: seq<Call>)
    requires SetBacks(calls) == 0
    ensures RunReturns(calls)
  {
    if calls != [] {
      var n := |calls| - 1;
      RunsWithoutSetBacksReturn(calls[..n]);
      SlotConservation(calls[..n]);
      ConservedReturns(Run(calls[..n]), calls[n]);
      OneMore(calls[..n], calls[n]);
      assert calls == calls[..n] + [calls[n]];
    }
  }

  // ----- what is remembered of the other side's requests -------------------------------

  /** The last call that brought a request under this id. */
  function LastReceived(calls: seq<Call>, id: MessageId): (k: Option<nat>)
    ensures k.Some? ==> k.value < |calls| && calls[k.value].CallReceiveRequest?
  {
    if calls == [] then None
    else
      var n := |calls| - 1;
      if calls[n].CallReceiveRequest? && calls[n].request.messageId == id then Some(n)
      else LastReceived(calls[..n], id)
  }

  /** The last status sent for it after call `k`. */
  function LastStatus(calls: seq<Call>, k: nat, id: MessageId): Option<Status> {
    if |calls| <= k + 1 then None
    else
      var n := |calls| - 1;
      if calls[n].CallSendReply? && calls[n].id == id then Some(calls[n].status) else LastStatus(calls[..n], k, id)
  }

  /** On every run: under each id the last request received, with the status last sent for
      it since; and none where none was received. */
  lemma {:induction false} IncomingHistory(calls: seq<Call>, id: MessageId)
    ensures match LastReceived(calls, id)
      case None => id !in Run(calls).incoming
      case Some(k) =>
        && id in Run(calls).incoming
        && Run(calls).incoming[id] == Message(calls[k].request, LastStatus(calls, k, id))
  {
    hide FirstFree;
    if calls != [] {
      var n := |calls| - 1;
      IncomingHistory(calls[..n], id);
      if calls[n].CallSend? { SentIncoming(Run(calls[..n]), calls[n].data); }
    }
  }

  lemma SentIncoming(q: Queue, data: Data)
    ensures Step(q, CallSend(data)).incoming == q.incoming
  {
  }

  /** So a reply can be sent exactly to what was received, and throws otherwise. */
  lemma AnsweredIff(calls: seq<Call>, id: MessageId, status: Status)
    ensures Answered(Run(calls), id, status) == Failure(UnknownMessage) <==> LastReceived(calls, id).None?
    ensures Answered(Run(calls), id, status).Success? <==> LastReceived(calls, id).Some?
  {
    hide Run, LastReceived;
    IncomingHistory(calls, id);
  }

  /** Some call of the run sent a request under this id. */
  ghost predicate WasSent(calls: seq<Call>, id: MessageId) {
    exists k :: 0 <= k < |calls| && SentBy(calls, k, id)
  }

  ghost predicate SentBy(calls: seq<Call>, k: nat, id: MessageId)
    requires k < |calls|
  {
    && calls[k].CallSend?
    && Send(Run(calls[..k]), calls[k].data).Sent? && Send(Run(calls[..k]), calls[k].data).id == id
  }

  /** And a reply is taken in exactly for an id that was ever used, and throws otherwise. */
  lemma {:induction false} RepliedIff(calls: seq<Call>, id: MessageId, status: Status)
    ensures Replied(Run(calls), id, status) == Failure(UnknownMessage) <==> !WasSent(calls, id)
    ensures Replied(Run(calls), id, status).Success? <==> WasSent(calls, id)
  {
    SentHistory(calls, id);
    hide Run, WasSent;
  }

  lemma {:induction false} SentHistory(calls: seq<Call>, id: MessageId)
    ensures id in Run(calls).outgoing <==> WasSent(calls, id)
  {
    hide Send, Replied;
    if calls != [] {
      var n := |calls| - 1;
      SentHistory(calls[..n], id);
      OneMoreSent(Run(calls[..n]), calls[n], id);
      SentLonger(calls, id);
    }
  }

  lemma OneMoreSent(q: Queue, c: Call, id: MessageId)
    ensures id in Step(q, c).outgoing <==>
      id in q.outgoing || (c.CallSend? && Send(q, c.data).Sent? && Send(q, c.data).id == id)
  {
    hide FirstFree;
  }

  lemma SentLonger(calls: seq<Call>, id: MessageId)
    requires calls != []
    ensures WasSent(calls, id) <==> WasSent(calls[..|calls| - 1], id) || SentBy(calls, |calls| - 1, id)
  {
    hide Run, Send;
    var n := |calls| - 1;
    forall k | 0 <= k < n ensures calls[..n][..k] == calls[..k] {}
    if k :| 0 <= k < n && SentBy(calls, k, id) { assert SentBy(calls[..n], k, id); }
    if k :| 0 <= k < n && SentBy(calls[..n], k, id) { assert SentBy(calls, k, id); }
  }

  // ----- set-backs can exhaust the ids ---------------------------------------

  function Pings(n: nat): seq<Call> { seq(n, _ => CallSend(Ping)) }

  function PingMap(n: nat): MessageMap
    requires n <= 256
  {
    map id: MessageId | id in IdsBelow(n) :: Message(Request(id, Ping), None)
  }

  lemma PingsTaken(n: nat)
    requires n <= 256
    ensures forall id: MessageId :: Taken(PingMap(n), id) <==> id < n
    ensures forall id: MessageId :: id in PingMap(n) <==> id < n
  {
    CountIds(n);
  }

  lemma PingStep(n: nat)
    requires n < 255
    ensures Step(Queue(n, PingMap(n), map[], 255 - n), CallSend(Ping))
      == Queue(n + 1, PingMap(n + 1), map[], 255 - (n + 1))
    ensures Returns(Queue(n, PingMap(n), map[], 255 - n), CallSend(Ping))
  {
    CountIds(n);
    assert !Taken(PingMap(n), n);
    assert FirstFree(PingMap(n), n, 256) == Some(n);
    assert PingMap(n + 1) == PingMap(n)[n := Message(Request(n, Ping), None)];
  }

  lemma {:induction false} AfterPings(n: nat)
    requires n <= 255
    ensures Run(Pings(n)) == Queue(n, PingMap(n), map[], 255 - n)
    ensures RunReturns(Pings(n))
  {
    if n > 0 {
      AfterPings(n - 1);
      PingStep(n - 1);
      OneMore(Pings(n - 1), CallSend(Ping));
      assert Pings(n) == Pings(n - 1) + [CallSend(Ping)];
    } else {
      assert PingMap(0) == map[];
    }
  }

  lemma {:induction false} OneMore(calls: seq<Call>, c: Call)
    requires RunReturns(calls) && Returns(Run(calls), c)
    ensures Run(calls + [c]) == Step(Run(calls), c) && RunReturns(calls + [c])
  {
    var more := calls + [c];
    assert more[..|calls|] == calls;
    forall i | 0 <= i < |more| ensures Returns(Run(more[..i]), more[i]) {
      if i < |calls| { assert more[..i] == calls[..i]; }
    }
  }

  const SETTLE := CallReceiveReply(0, STATUS_OK)
  const BACK := CallReceiveReply(0, APPROVAL_PENDING)

  /** Answering request 0 and setting it back frees a slot and no id. */
  lemma GainSlot(calls: seq<Call>)
    requires RunReturns(calls) && Taken(Run(calls).outgoing, 0) && Run(calls).slots == 0
    ensures var q, q' := Run(calls), Run(calls + [SETTLE] + [BACK]);
      && RunReturns(calls + [SETTLE] + [BACK])
      && q' == q.(slots := 1, outgoing := q.outgoing[0 := q.outgoing[0].(status := Some(APPROVAL_PENDING))])
  {
    SettleAndBack(Run(calls));
    hide Step, Taken, Run, RunReturns;
    OneMore(calls, SETTLE);
    OneMore(calls + [SETTLE], BACK);
  }

  lemma SettleAndBack(q: Queue)
    requires Taken(q.outgoing, 0) && q.slots == 0
    ensures Step(Step(q, SETTLE), BACK)
      == q.(slots := 1, outgoing := q.outgoing[0 := q.outgoing[0].(status := Some(APPROVAL_PENDING))])
  {
    var out, m := q.outgoing, q.outgoing[0];
    assert out[0 := m.(status := Some(STATUS_OK))][0 := m.(status := Some(APPROVAL_PENDING))]
        == out[0 := m.(status := Some(APPROVAL_PENDING))];
  }

  /** A run after which only id 255 is free, and one slot. */
  lemma OneIdLeft() returns (calls: seq<Call>)
    ensures RunReturns(calls)
    ensures var q := Run(calls);
      && q.next == 255 && q.slots == 1 && 255 !in q.outgoing
      && forall id: MessageId :: id < 255 ==> Taken(q.outgoing, id)
  {
    hide Step, FirstFree, Send, Run, RunReturns, PingMap, Pings;
    AfterPings(255);
    PingsTaken(255);
    GainSlot(Pings(255));
    calls := Pings(255) + [SETTLE] + [BACK];
    forall id: MessageId | id < 255 ensures Taken(Run(calls).outgoing, id) {
      assert Taken(PingMap(255), id);
    }
  }

  /** 256 requests waiting while a slot is free: a run that came back from every
      call, after which the next send would scan for ever. */
  lemma ASendCanBeEndless() returns (calls: seq<Call>)
    ensures RunReturns(calls) && Send(Run(calls), Ping).Endless?
  {
    hide Step, FirstFree, Send, Run, RunReturns;
    var most := OneIdLeft();
    LastId(Run(most));
    OneMore(most, CallSend(Ping));
    var all := most + [CallSend(Ping)];
    var out := Run(all).outgoing;
    assert Taken(out, 0);
    GainSlot(all);
    calls := all + [SETTLE] + [BACK];
    StillTaken(out, out[0].(status := Some(APPROVAL_PENDING)), Run(calls).outgoing);
    NoneFree(Run(calls));
  }

  lemma LastId(q: Queue)
    requires q.next == 255 && q.slots == 1 && 255 !in q.outgoing
    requires forall id: MessageId :: id < 255 ==> Taken(q.outgoing, id)
    ensures Returns(q, CallSend(Ping))
    ensures var q' := Step(q, CallSend(Ping));
      q'.slots == 0 && forall id: MessageId :: Taken(q'.outgoing, id)
  {
    assert FirstFree(q.outgoing, 255, 256) == Some(255);
    var q' := Step(q, CallSend(Ping));
    forall id: MessageId ensures Taken(q'.outgoing, id) {
      if id < 255 { assert Taken(q.outgoing, id); }
    }
  }

  lemma StillTaken(out: MessageMap, m: Message, out': MessageMap)
    requires forall id: MessageId :: Taken(out, id)
    requires Open(m) && out' == out[0 := m]
    ensures forall id: MessageId :: Taken(out', id)
  {
    forall id: MessageId ensures Taken(out', id) { assert Taken(out, id); }
  }

  lemma NoneFree(q: Queue)
    requires q.slots > 0 && forall id: MessageId :: Taken(q.outgoing, id)
    ensures Send(q, Ping).Endless?
  {
    RingScan(q.outgoing, q.next);
  }

  // ----- the class -----------------------------------------------------------

  class MessageQueue {
    var messageId: MessageId
    var outgoing: MessageMap
    var incoming: MessageMap
    var slots: byte

    function State(): Queue
      reads this
    {
      Queue(messageId, outgoing, incoming, slots)
    }

    constructor ()
      ensures State() == EMPTY
    {
      messageId, outgoing, incoming, slots := 0, map[], map[], MAX_ID;
    }

    /** The scan may start only if it can end. */
    method SendRequest(data: Data) returns (r: Result<MessageId>)
      requires !Send(State(), data).Endless?
      modifies this
      ensures match Send(old(State()), data)
        case Sent(q, id) => State() == q && r == Success(id)
        case _ => State() == old(State()) && r == Failure(NoMoreSlots)
    {
      if slots == 0 {
        return Failure(NoMoreSlots);
      }
      slots := slots - 1;
      ghost var lap := 256;
      while Taken(outgoing, messageId)
        invariant 0 <= lap <= 256
        invariant FirstFree(outgoing, messageId, lap) == FirstFree(old(outgoing), old(messageId), 256)
        invariant outgoing == old(outgoing) && incoming == old(incoming) && slots == old(slots) - 1
        invariant FirstFree(outgoing, messageId, lap).Some?
        decreases lap
      {
        messageId := if messageId == MAX_ID then 0 else messageId + 1;
        lap := lap - 1;
      }
      var id := messageId;
      outgoing := outgoing[id := Message(Request(id, data), None)];
      messageId := (messageId + 1) % 256;
      return Success(id);
    }

    method ReceiveRequest(request: Request) returns (id: MessageId)
      modifies this
      ensures State() == Requested(old(State()), request) && id == request.messageId
    {
      id := request.messageId;
      incoming := incoming[id := Message(request, None)];
    }

    method SendReply(id: MessageId, status: Status) returns (error: Option<Error>)
      modifies this
      ensures match Answered(old(State()), id, status)
        case Success(q) => State() == q && error.None?
        case Failure(e) => State() == old(State()) && error == Some(e)
    {
      if id !in incoming {
        return Some(UnknownMessage);
      }
      incoming := incoming[id := incoming[id].(status := Some(status))];
      return None;
    }

    method ReceiveReply(id: MessageId, status: Status) returns (error: Option<Error>)
      modifies this
      ensures match Replied(old(State()), id, status)
        case Success(q) => State() == q && error.None?
        case Failure(e) => State() == old(State()) && error == Some(e)
    {
      if id !in outgoing {
        return Some(UnknownMessage);
      }
      var m := outgoing[id];
      var isApprovalPending := false;
      if m.status.Some? {
        if m.status.value == status {
          return None;
        }
        isApprovalPending := m.status.value == APPROVAL_PENDING;
      }
      if (m.status.None? || isApprovalPending) && status != APPROVAL_PENDING {
        slots := (slots + 1) % 256;
      }
      outgoing := outgoing[id := m.(status := Some(status))];
      return None;
    }
  }
}
