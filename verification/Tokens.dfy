/** One direction between two peers: the requests one of them has open, and where
    the answer to each is. */
module Tokens {
  import opened Bytes
  import opened Requests
  import opened MessageQueue

  /** `out` and `slots` are the requester's; `sent` is what it wrote and `taken` how
      much of that the other side took in; `held` waits for the other user; `back` is
      what the other side wrote and `read` how much of that was taken in. `asked` are
      the paths requested by RECEIVE_FILE, `pushed` those the other side sent unasked. */
  datatype View = View(
    out: MessageMap, slots: byte, sent: seq<Request>, taken: nat, held: seq<Request>,
    back: seq<Request>, read: nat, asked: set<bytes>, pushed: set<bytes>)

  predicate IsRequest(m: Request) { !m.data.Response? }

  /** A SEND_FILE for the path of open or settled RECEIVE_FILE `x`. */
  predicate Serves(m: Request, x: MessageId, out: MessageMap) {
    && m.data.SendFile? && x in out && out[x].request.data.ReceiveFile?
    && out[x].request.data.filepath == m.data.filepath
  }

  predicate Mentions(m: Request, x: MessageId, out: MessageMap) {
    (m.data.Response? && m.messageId == x) || Serves(m, x, out)
  }

  /** A status that settles such a request; OK leaves a RECEIVE_FILE waiting. */
  predicate Final(status: Status, source: Data) {
    status != APPROVAL_PENDING && !(status == STATUS_OK && source.ReceiveFile?)
  }

  predicate Settler(m: Request, x: MessageId, out: MessageMap) {
    || (m.data.Response? && m.messageId == x && x in out && Final(m.data.status, out[x].request.data))
    || Serves(m, x, out)
  }

  predicate InFlight(v: View, i: int) { v.taken <= i < |v.sent| && IsRequest(v.sent[i]) }

  predicate Coming(v: View, p: int) { v.read <= p < |v.back| }

  /** Each request on its way is open, as it was sent, under an id of its own. */
  ghost predicate FlightsOpen(v: View) {
    && (forall i :: InFlight(v, i) ==>
          Taken(v.out, v.sent[i].messageId) && v.out[v.sent[i].messageId].request == v.sent[i])
    && (forall i, j :: InFlight(v, i) && InFlight(v, j) && i < j ==> v.sent[i].messageId != v.sent[j].messageId)
  }

  /** Each request waiting for the other user is open, and on its way no more. */
  ghost predicate HeldOpen(v: View) {
    && (forall k :: 0 <= k < |v.held| ==>
          Taken(v.out, v.held[k].messageId) && v.out[v.held[k].messageId].request == v.held[k]
          && !v.held[k].data.ReceiveFile?)
    && (forall k, l :: 0 <= k < l < |v.held| ==> v.held[k].messageId != v.held[l].messageId)
    && (forall k, i :: 0 <= k < |v.held| && InFlight(v, i) ==> v.held[k].messageId != v.sent[i].messageId)
  }

  /** Nothing that comes back is about a request on its way, and nothing settles one
      that waits for the other user. */
  ghost predicate Unanswered(v: View) {
    && (forall i, p :: InFlight(v, i) && Coming(v, p) ==> !Mentions(v.back[p], v.sent[i].messageId, v.out))
    && (forall k, p :: 0 <= k < |v.held| && Coming(v, p) ==> !Settler(v.back[p], v.held[k].messageId, v.out))
  }

  /** Every reply coming back finds its request open: nothing before it settles it. */
  ghost predicate RepliesAwaited(v: View) {
    && (forall p :: Coming(v, p) && v.back[p].data.Response? ==> Taken(v.out, v.back[p].messageId))
    && (forall q, p :: Coming(v, q) && Coming(v, p) && q < p && v.back[p].data.Response?
          ==> !Settler(v.back[q], v.back[p].messageId, v.out))
  }

  predicate SamePath(d: Data, e: Data) { d.ReceiveFile? && e.ReceiveFile? && d.filepath == e.filepath }

  /** Every path is asked for once, and not pushed as well. */
  ghost predicate PathsDistinct(v: View) {
    && v.asked !! v.pushed
    && (forall x :: x in v.out && v.out[x].request.data.ReceiveFile? ==> v.out[x].request.data.filepath in v.asked)
    && (forall x, y :: x in v.out && y in v.out && SamePath(v.out[x].request.data, v.out[y].request.data) ==> x == y)
    && (forall p :: Coming(v, p) && v.back[p].data.SendFile? ==> v.back[p].data.filepath in v.asked + v.pushed)
  }

  ghost predicate Orderly(v: View) {
    && v.slots + |OpenIds(v.out)| == 255
    && v.taken <= |v.sent| && v.read <= |v.back|
    && FlightsOpen(v) && HeldOpen(v) && Unanswered(v) && RepliesAwaited(v) && PathsDistinct(v)
  }

  // ----- the requester's moves -----------------------------------------------------

  /** It sends a request, under an id that is not taken. */
  function WithSent(v: View, x: MessageId, data: Data): View
    requires v.slots > 0
  {
    v.(out := v.out[x := Message(Request(x, data), None)], slots := v.slots - 1,
       sent := v.sent + [Request(x, data)],
       asked := if data.ReceiveFile? then v.asked + {data.filepath} else v.asked)
  }

  /** A RECEIVE_FILE for a path neither asked for nor pushed before. */
  predicate NewPath(v: View, data: Data) {
    data.ReceiveFile? ==> data.filepath !in v.asked && data.filepath !in v.pushed
  }

  lemma SentOrderly(v: View, x: MessageId, data: Data)
    requires Orderly(v) && v.slots > 0 && !Taken(v.out, x) && !data.Response? && NewPath(v, data)
    ensures Orderly(WithSent(v, x, data))
  {
    var v' := WithSent(v, x, data);
    assert OpenIds(v'.out) == OpenIds(v.out) + {x};
    SentFlights(v, x, data);
    SentHeld(v, x, data);
    SentUnanswered(v, x, data);
    SentReplies(v, x, data);
    SentPaths(v, x, data);
  }

  /** Or has the request recorded and never writes it. */
  lemma UnsentOrderly(v: View, x: MessageId, data: Data)
    requires Orderly(v) && v.slots > 0 && !Taken(v.out, x) && !data.Response? && NewPath(v, data)
    ensures Orderly(WithSent(v, x, data).(sent := v.sent))
  {
    hide OpenIds;
    SentOrderly(v, x, data);
    var w := WithSent(v, x, data);
    var u := w.(sent := v.sent);
    forall i | InFlight(u, i) ensures InFlight(w, i) && w.sent[i] == u.sent[i] {}
    forall p | Coming(u, p) ensures Coming(w, p) {}
  }

  lemma SentFlights(v: View, x: MessageId, data: Data)
    requires Orderly(v) && v.slots > 0 && !Taken(v.out, x)
    ensures FlightsOpen(WithSent(v, x, data))
  {
    var v' := WithSent(v, x, data);
    forall i | InFlight(v', i) ensures i == |v.sent| || (InFlight(v, i) && v'.sent[i] == v.sent[i]) {}
  }

  lemma SentHeld(v: View, x: MessageId, data: Data)
    requires Orderly(v) && v.slots > 0 && !Taken(v.out, x)
    ensures HeldOpen(WithSent(v, x, data))
  {
    var v' := WithSent(v, x, data);
    forall i | InFlight(v', i) ensures i == |v.sent| || (InFlight(v, i) && v'.sent[i] == v.sent[i]) {}
  }

  lemma SentServes(v: View, x: MessageId, data: Data, m: Request, y: MessageId)
    requires Orderly(v) && NewPath(v, data)
    requires m.data.SendFile? ==> m.data.filepath in v.asked + v.pushed
    ensures Serves(m, y, v.out[x := Message(Request(x, data), None)]) ==> Serves(m, y, v.out) && y != x
  {
  }

  lemma SentUnanswered(v: View, x: MessageId, data: Data)
    requires Orderly(v) && v.slots > 0 && !Taken(v.out, x) && !data.Response? && NewPath(v, data)
    ensures Unanswered(WithSent(v, x, data))
  {
    var v' := WithSent(v, x, data);
    forall i, p | InFlight(v', i) && Coming(v', p) ensures !Mentions(v'.back[p], v'.sent[i].messageId, v'.out) {
      SentServes(v, x, data, v.back[p], v'.sent[i].messageId);
      assert Coming(v, p);
      if i < |v.sent| { assert InFlight(v, i) && v'.sent[i] == v.sent[i]; }
    }
    forall k, p | 0 <= k < |v.held| && Coming(v', p) ensures !Settler(v.back[p], v.held[k].messageId, v'.out) {
      SentServes(v, x, data, v.back[p], v.held[k].messageId);
      assert Coming(v, p);
    }
  }

  lemma SentReplies(v: View, x: MessageId, data: Data)
    requires Orderly(v) && v.slots > 0 && !Taken(v.out, x) && !data.Response? && NewPath(v, data)
    ensures RepliesAwaited(WithSent(v, x, data))
  {
    var v' := WithSent(v, x, data);
    forall q, p | Coming(v', q) && Coming(v', p) && q < p && v'.back[p].data.Response?
      ensures !Settler(v'.back[q], v'.back[p].messageId, v'.out)
    {
      assert Coming(v, p) && Coming(v, q);
      SentServes(v, x, data, v.back[q], v.back[p].messageId);
    }
    forall p | Coming(v', p) && v'.back[p].data.Response? ensures Taken(v'.out, v'.back[p].messageId) {
      assert Coming(v, p);
    }
  }

  lemma SentPaths(v: View, x: MessageId, data: Data)
    requires Orderly(v) && v.slots > 0 && !Taken(v.out, x) && NewPath(v, data)
    ensures PathsDistinct(WithSent(v, x, data))
  {
    var v' := WithSent(v, x, data);
    forall p | Coming(v', p) ensures Coming(v, p) {}
  }

  /** It takes in a message and notes a status for request `x`. */
  function WithNoted(v: View, x: MessageId, status: Status): View
    requires x in v.out
  {
    v.(read := v.read + 1, out := v.out[x := v.out[x].(status := Some(status))],
       slots := if Taken(v.out, x) && status != APPROVAL_PENDING then (v.slots + 1) % 256 else v.slots)
  }

  lemma TakenMeansSlots(v: View, x: MessageId)
    requires Orderly(v) && Taken(v.out, x)
    ensures v.slots < 255
  {
    assert x in OpenIds(v.out);
    assert OpenIds(v.out) != {};
  }

  /** The message settles `x`, or `x` was settled before; and none is set back. */
  lemma NotedOrderly(v: View, x: MessageId, status: Status)
    requires Orderly(v) && v.read < |v.back| && x in v.out
    requires status == APPROVAL_PENDING ==> Taken(v.out, x)
    requires status != APPROVAL_PENDING && Taken(v.out, x) ==> Settler(v.back[v.read], x, v.out)
    ensures Orderly(WithNoted(v, x, status))
  {
    var v' := WithNoted(v, x, status);
    var m := v.back[v.read];
    assert Coming(v, v.read);
    NotedSlots(v, x, status);
    assert forall y, n :: Settler(n, y, v'.out) == Settler(n, y, v.out) && Mentions(n, y, v'.out) == Mentions(n, y, v.out);
    assert forall p :: Coming(v', p) ==> Coming(v, p) && p != v.read;
    assert forall i :: InFlight(v', i) <==> InFlight(v, i);
    NotedFlights(v, x, status);
    assert RepliesAwaited(v') by {
      forall p | Coming(v', p) && v'.back[p].data.Response? ensures Taken(v'.out, v'.back[p].messageId) {
        assert !Settler(v.back[v.read], v.back[p].messageId, v.out);
      }
    }
    assert PathsDistinct(v');
    assert Unanswered(v');
  }

  lemma NotedSlots(v: View, x: MessageId, status: Status)
    requires v.slots + |OpenIds(v.out)| == 255 && x in v.out
    requires status == APPROVAL_PENDING ==> Taken(v.out, x)
    ensures var v' := WithNoted(v, x, status); v'.slots + |OpenIds(v'.out)| == 255
  {
    var v' := WithNoted(v, x, status);
    AddRemove(OpenIds(v.out), x);
    assert Taken(v.out, x) ==> x in OpenIds(v.out) && OpenIds(v.out) != {};
    if status == APPROVAL_PENDING {
      assert OpenIds(v'.out) == OpenIds(v.out);
    } else {
      assert OpenIds(v'.out) == OpenIds(v.out) - {x};
    }
  }

  lemma NotedFlights(v: View, x: MessageId, status: Status)
    requires Orderly(v) && v.read < |v.back| && x in v.out
    requires status != APPROVAL_PENDING && Taken(v.out, x) ==> Settler(v.back[v.read], x, v.out)
    ensures FlightsOpen(WithNoted(v, x, status)) && HeldOpen(WithNoted(v, x, status))
  {
    var v' := WithNoted(v, x, status);
    assert Coming(v, v.read);
    assert forall i :: InFlight(v', i) <==> InFlight(v, i);
    assert forall i :: InFlight(v, i) ==> !Mentions(v.back[v.read], v.sent[i].messageId, v.out);
    assert Settler(v.back[v.read], x, v.out) ==> Mentions(v.back[v.read], x, v.out);
    assert forall k :: 0 <= k < |v.held| ==> !Settler(v.back[v.read], v.held[k].messageId, v.out);
  }

  /** It takes in a message that changes none of its requests. */
  lemma ReadOrderly(v: View)
    requires Orderly(v) && v.read < |v.back|
    ensures Orderly(v.(read := v.read + 1))
  {
    var v' := v.(read := v.read + 1);
    assert forall p :: Coming(v', p) ==> Coming(v, p);
    assert forall i :: InFlight(v', i) <==> InFlight(v, i);
  }

  /** It writes a reply. */
  lemma AppendOrderly(v: View, m: Request)
    requires Orderly(v) && m.data.Response?
    ensures Orderly(v.(sent := v.sent + [m]))
    ensures forall x :: Owed(v, x) ==> Owed(v.(sent := v.sent + [m]), x)
  {
    var v' := v.(sent := v.sent + [m]);
    forall i | InFlight(v', i) ensures InFlight(v, i) && v'.sent[i] == v.sent[i] {}
    assert forall p :: Coming(v', p) <==> Coming(v, p);
  }

  // ----- the other side's moves --------------------------------------------------------

  /** Open, and neither on its way, nor held, nor about to be settled: the other side
      owes the answer. */
  ghost predicate Owed(v: View, x: MessageId) {
    && Taken(v.out, x)
    && (forall i :: InFlight(v, i) ==> v.sent[i].messageId != x)
    && (forall k :: 0 <= k < |v.held| ==> v.held[k].messageId != x)
    && (forall p :: Coming(v, p) ==> !Settler(v.back[p], x, v.out))
  }

  /** The other side takes in a message; it now owes the answer to a request. */
  lemma TakeOrderly(v: View)
    requires Orderly(v) && v.taken < |v.sent|
    ensures var v' := v.(taken := v.taken + 1);
      && Orderly(v')
      && (IsRequest(v.sent[v.taken]) ==> Owed(v', v.sent[v.taken].messageId))
  {
    var v' := v.(taken := v.taken + 1);
    assert forall i :: InFlight(v', i) ==> InFlight(v, i) && i != v.taken;
    assert forall p :: Coming(v', p) <==> Coming(v, p);
    if IsRequest(v.sent[v.taken]) { assert InFlight(v, v.taken); }
  }

  function Unheld(held: seq<Request>, k: nat): seq<Request>
    requires k < |held|
  {
    held[..k] + held[k + 1..]
  }

  lemma UnheldAt(held: seq<Request>, k: nat, l: nat)
    requires k < |held| && l < |held| - 1
    ensures |Unheld(held, k)| == |held| - 1 && Unheld(held, k)[l] == held[if l < k then l else l + 1]
  {
  }

  lemma UnheldLength(held: seq<Request>, k: nat)
    requires k < |held|
    ensures |Unheld(held, k)| == |held| - 1
  {
  }

  lemma UnheldOpen(v: View, k: nat)
    requires HeldOpen(v) && k < |v.held|
    ensures HeldOpen(v.(held := Unheld(v.held, k)))
    ensures forall l :: 0 <= l < |Unheld(v.held, k)| ==> Unheld(v.held, k)[l].messageId != v.held[k].messageId
  {
    hide Unheld, Taken;
    var v' := v.(held := Unheld(v.held, k));
    forall l: nat | l < |v.held| - 1
      ensures |v'.held| == |v.held| - 1 && v'.held[l] == v.held[if l < k then l else l + 1]
    {
      UnheldAt(v.held, k, l);
    }
    UnheldLength(v.held, k);
    assert forall i :: InFlight(v', i) <==> InFlight(v, i);
  }

  /** A request that was held is answered now. */
  lemma UnholdOrderly(v: View, k: nat)
    requires Orderly(v) && k < |v.held|
    ensures var v' := v.(held := Unheld(v.held, k));
      Orderly(v') && Owed(v', v.held[k].messageId)
  {
    hide Unheld, Taken, Settler, Mentions, HeldOpen;
    UnheldOpen(v, k);
    var v' := v.(held := Unheld(v.held, k));
    assert forall i :: InFlight(v', i) <==> InFlight(v, i);
    assert forall p :: Coming(v', p) <==> Coming(v, p);
    HeldAt(v, k);
    forall l, p | 0 <= l < |v'.held| && Coming(v', p) ensures !Settler(v'.back[p], v'.held[l].messageId, v'.out) {
      UnheldAt(v.held, k, l) by { UnheldLength(v.held, k); }
    }
  }

  lemma HeldAt(v: View, k: nat)
    requires HeldOpen(v) && k < |v.held|
    ensures Taken(v.out, v.held[k].messageId)
    ensures forall i :: InFlight(v, i) ==> v.sent[i].messageId != v.held[k].messageId
  {
  }

  /** The answer to what is owed. */
  lemma ReplyOrderly(v: View, x: MessageId, status: Status)
    requires Orderly(v) && Owed(v, x)
    ensures var v' := v.(back := v.back + [Request(x, Response(status))]);
      && Orderly(v')
      && (status == APPROVAL_PENDING ==> Owed(v', x))
  {
    var v' := v.(back := v.back + [Request(x, Response(status))]);
    assert forall i :: InFlight(v', i) <==> InFlight(v, i);
    forall p | Coming(v', p) ensures p == |v.back| || (Coming(v, p) && v'.back[p] == v.back[p]) {}
  }

  lemma HoldOrderly(v: View, r: Request)
    requires Orderly(v) && Owed(v, r.messageId) && v.out[r.messageId].request == r && !r.data.ReceiveFile?
    ensures Orderly(v.(held := v.held + [r]))
  {
    var v' := v.(held := v.held + [r]);
    assert forall i :: InFlight(v', i) <==> InFlight(v, i);
    assert forall p :: Coming(v', p) <==> Coming(v, p);
  }

  /** A request of the other side comes back; a SEND_FILE is either pushed, under a path
      nobody asked for, or answers a RECEIVE_FILE that has arrived. */
  lemma BackOrderly(v: View, m: Request, pushed: set<bytes>)
    requires Orderly(v) && IsRequest(m) && v.pushed <= pushed && v.asked !! pushed
    requires m.data.SendFile? ==> m.data.filepath in v.asked + pushed
    requires forall i :: InFlight(v, i) ==> !Serves(m, v.sent[i].messageId, v.out)
    ensures Orderly(v.(back := v.back + [m], pushed := pushed))
  {
    var v' := v.(back := v.back + [m], pushed := pushed);
    assert forall i :: InFlight(v', i) <==> InFlight(v, i);
    forall p | Coming(v', p) ensures p == |v.back| || (Coming(v, p) && v'.back[p] == v.back[p]) {}
    forall k | 0 <= k < |v.held| ensures !Settler(m, v.held[k].messageId, v.out) {}
  }

  lemma PushedOrderly(v: View, pushed: set<bytes>)
    requires Orderly(v) && v.pushed <= pushed && v.asked !! pushed
    ensures Orderly(v.(pushed := pushed))
  {
    var v' := v.(pushed := pushed);
    assert forall i :: InFlight(v', i) <==> InFlight(v, i);
    assert forall p :: Coming(v', p) <==> Coming(v, p);
  }
}
