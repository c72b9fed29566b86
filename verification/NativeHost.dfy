/** The extension's side of the native port: request ids, the pending map, and what happens to
    requests across answers, disconnects and reconnects. */
module NativeHost {
  import opened Common
  import opened Protocol

  // ---- request ids ------------------------------------------------------------------------

  /** The id of the n-th request of the session. */
  function RequestId(kind: string, n: nat): string {
    "req_" + kind + "_" + Decimal(n)
  }

  lemma LastPart(kind: string, n: nat, k: nat)
    requires k < |Decimal(n)|
    ensures var id := RequestId(kind, n);
            && |id| == 5 + |kind| + |Decimal(n)|
            && '0' <= id[|id| - 1 - k] <= '9'
            && id[|id| - 1 - |Decimal(n)|] == '_'
            && id[|id| - |Decimal(n)|..] == Decimal(n)
  {
    DecimalHasDigits(n);
    var id := RequestId(kind, n);
    assert id[|id| - 1 - k] == Decimal(n)[|Decimal(n)| - 1 - k];
  }

  /** Ids of different requests differ, whatever the kinds are spelled like. */
  lemma RequestIdsDiffer(kind: string, n: nat, other: string, m: nat)
    requires RequestId(kind, n) == RequestId(other, m)
    ensures n == m && kind == other
  {
    var a, b := |Decimal(n)|, |Decimal(m)|;
    LastPart(kind, n, if b < a then b else 0);
    LastPart(other, m, if a < b then a else 0);
    assert a == b;
    ValueOfDecimal(n);
    ValueOfDecimal(m);
    var id := RequestId(kind, n);
    assert id[4..4 + |kind|] == kind && id[4..4 + |other|] == other;
  }

  const HELLO: Json := Object(map["extension_version" := Text("0.1.0"), "protocol_version" := Text("1.0")])

  // ---- one client -------------------------------------------------------------------------

  datatype Outcome = Resolved(payload: Json) | Rejected(message: string)

  /** One use of a request id: by `request`, which awaits an outcome, or by `notifyHost`, which
      does not. `outcomes` lists every settlement of the request's promise, first to last. */
  datatype Call = Call(client: nat, kind: string, payload: Json, awaits: bool, outcomes: seq<Outcome>)

  /** What one client sees: all the calls of the session (the n-th call took the id number n) and
      its own pending map, from request id to call. */
  datatype Page = Page(calls: seq<Call>, pending: map<string, nat>)

  function IdOf(calls: seq<Call>, i: nat): string
    requires i < |calls|
  {
    RequestId(calls[i].kind, i + 1)
  }

  /** The frame a call posts. */
  function RequestFrame(calls: seq<Call>, i: nat): Frame
    requires i < |calls|
  {
    Request("1.0", IdOf(calls, i), calls[i].kind, calls[i].payload)
  }

  ghost predicate Indexed(page: Page) {
    forall id :: id in page.pending ==> page.pending[id] < |page.calls| && id == IdOf(page.calls, page.pending[id])
  }

  function Settle(call: Call, outcome: Outcome): Call {
    call.(outcomes := call.outcomes + [outcome])
  }

  predicate Falsy(payload: Option<Json>) {
    payload.None? || payload.value in {Null, Bool(false), Number(0.0), Text("")}
  }

  /** The payload, or an empty object when it is absent or falsy. */
  function OrEmpty(payload: Option<Json>): Json {
    if Falsy(payload) then Object(map[]) else payload.value
  }

  /** What a response settles its request with. */
  function Verdict(reply: Frame): Outcome
    requires reply.Response?
  {
    if reply.status.Succeeded? then Resolved(OrEmpty(reply.payload))
    else
      match reply.error
      case Some(e) => Rejected(e.code + ": " + e.message)
      case None => Rejected("unknown: host error")
  }

  /** What a response means for the promise: a success resolves it with the payload, an empty object
      standing in for one that is absent, null, false, zero or the empty text; a failure rejects
      it with the error's code and message. */
  ghost predicate Answers(reply: Frame, outcome: Outcome)
    requires reply.Response?
  {
    && (reply.status == Succeeded ==>
          match reply.payload
          case None => outcome == Resolved(Object(map[]))
          case Some(q) =>
            if q == Null || q == Bool(false) || q == Number(0.0) || q == Text("")
            then outcome == Resolved(Object(map[])) else outcome == Resolved(q))
    && (reply.status == Failed ==>
          match reply.error
          case None => outcome == Rejected("unknown: host error")
          case Some(e) => outcome == Rejected(e.code + ": " + e.message))
  }

  /** A response answers in one way only. */
  lemma VerdictAnswers(reply: Frame, outcome: Outcome)
    requires reply.Response?
    ensures Answers(reply, outcome) <==> outcome == Verdict(reply)
  {
  }

  function OnRequest(page: Page, client: nat, kind: string, payload: Json, thrown: Option<string>): Page {
    var id := RequestId(kind, |page.calls| + 1);
    match thrown
    case None => Page(page.calls + [Call(client, kind, payload, true, [])], page.pending[id := |page.calls|])
    case Some(e) => Page(page.calls + [Call(client, kind, payload, true, [Rejected(e)])], page.pending - {id})
  }

  function OnNotify(page: Page, client: nat, kind: string, payload: Json): Page {
    page.(calls := page.calls + [Call(client, kind, payload, false, [])])
  }

  function OnMessage(page: Page, message: Frame): Page
    requires Indexed(page)
  {
    if message.Response? && message.requestId in page.pending then
      var i := page.pending[message.requestId];
      Page(page.calls[i := Settle(page.calls[i], Verdict(message))], page.pending - {message.requestId})
    else page
  }

  /** Every pending request is rejected, no other call changes, nothing stays pending. */
  function RejectPending(page: Page, why: string): Page {
    Page(seq(|page.calls|, i requires 0 <= i < |page.calls| =>
               if i in page.pending.Values then Settle(page.calls[i], Rejected(why)) else page.calls[i]), map[])
  }

  /** The session's counter and the promises made so far, shared by all clients of a page. */
  class Session {
    var requestSeq: nat
    var calls: seq<Call>

    constructor ()
      ensures requestSeq == 0 && calls == []
    {
      requestSeq, calls := 0, [];
    }

    method NextRequestId(kind: string) returns (id: string)
      modifies this`requestSeq
      ensures requestSeq == old(requestSeq) + 1 && id == RequestId(kind, requestSeq)
    {
      requestSeq := requestSeq + 1;
      id := "req_" + kind + "_" + Decimal(requestSeq);
    }
  }

  class NativeHost {
    const session: Session
    const client: nat
    var pending: map<string, nat>
    /** Which connection is current. */
    var port: nat

    ghost predicate Valid()
      reads this, session
    {
      session.requestSeq == |session.calls| && Indexed(Page(session.calls, pending))
    }

    ghost function View(): Page
      reads this, session
    {
      Page(session.calls, pending)
    }

    /** Opens the first port and sends the handshake over it. */
    constructor (session: Session, client: nat, port: nat, thrown: Option<string>)
      requires session.requestSeq == |session.calls|
      modifies session
      ensures this.session == session && this.client == client && this.port == port
      ensures Valid()
      ensures View() == OnRequest(Page(old(session.calls), map[]), client, "hello", HELLO, thrown)
      ensures session.calls != [] && session.calls[|session.calls| - 1].kind == "hello"
      ensures session.calls[|session.calls| - 1].payload
           == Object(map["extension_version" := Text("0.1.0"), "protocol_version" := Text("1.0")])
    {
      this.session, this.client, this.port := session, client, port;
      pending := map[];
      new;
      var hello := Request("hello", Some(HELLO), thrown);
    }

    /** Sends a request; `thrown` is the exception of `postMessage`, if it throws. The promise is
        entered in the pending map before the frame is posted. */
    method Request(kind: string, payload: Option<Json>, thrown: Option<string>) returns (posted: Option<Frame>)
      requires Valid()
      modifies this`pending, session
      ensures Valid()
      ensures View() == OnRequest(old(View()), client, kind, OrEmpty(payload), thrown)
      ensures posted == if thrown.Some? then None else Some(RequestFrame(session.calls, |session.calls| - 1))
    {
      var i := |session.calls|;
      var id := session.NextRequestId(kind);
      session.calls := session.calls + [Call(client, kind, OrEmpty(payload), true, [])];
      pending := pending[id := i];
      match thrown {
        case None =>
          posted := Some(Frame.Request("1.0", id, kind, OrEmpty(payload)));
        case Some(e) =>
          pending := pending - {id};
          session.calls := session.calls[i := Settle(session.calls[i], Rejected(e))];
          posted := None;
          assert pending == old(pending) - {id};
          assert [] + [Rejected(e)] == [Rejected(e)];
          assert session.calls == old(session.calls) + [Call(client, kind, OrEmpty(payload), true, [Rejected(e)])];
      }
    }

    /** Posts a request nobody awaits. A throwing `postMessage` has used up the id all the same. */
    method NotifyHost(kind: string, payload: Option<Json>, thrown: Option<string>) returns (posted: Option<Frame>)
      requires Valid()
      modifies session
      ensures Valid()
      ensures View() == OnNotify(old(View()), client, kind, OrEmpty(payload))
      ensures posted == if thrown.Some? then None else Some(RequestFrame(session.calls, |session.calls| - 1))
    {
      var id := session.NextRequestId(kind);
      session.calls := session.calls + [Call(client, kind, OrEmpty(payload), false, [])];
      posted := if thrown.Some? then None else Some(Frame.Request("1.0", id, kind, OrEmpty(payload)));
    }

    /** A frame from the host: a response settles its pending request, or is ignored. */
    method Receive(message: Frame)
      requires Valid()
      modifies this`pending, session`calls
      ensures Valid()
      ensures View() == OnMessage(old(View()), message)
      ensures !(message.Response? && message.requestId in old(pending)) ==> View() == old(View())
      ensures message.Response? && message.requestId in old(pending) ==>
        var i := old(pending)[message.requestId];
        && pending == old(pending) - {message.requestId}
        && i < |old(session.calls)| && |session.calls| == |old(session.calls)|
        && (forall k :: 0 <= k < |session.calls| && k != i ==> session.calls[k] == old(session.calls)[k])
        && exists outcome ::
             Answers(message, outcome) && session.calls[i].outcomes == old(session.calls)[i].outcomes + [outcome]
    {
      if message.Response? {
        VerdictAnswers(message, Verdict(message));
        if message.requestId !in pending {
          return;
        }
        var i := pending[message.requestId];
        pending := pending - {message.requestId};
        if message.status.Succeeded? {
          session.calls := session.calls[i := Settle(session.calls[i], Resolved(OrEmpty(message.payload)))];
        } else {
          var err := if message.error.Some? then message.error.value else ProtocolError("unknown", "host error", None);
          session.calls := session.calls[i := Settle(session.calls[i], Rejected(err.code + ": " + err.message))];
          assert "unknown" + ": " + "host error" == "unknown: host error";
        }
      }
    }

    /** Rejects every pending request and forgets them. */
    method RejectAll(why: string)
      requires Valid()
      modifies this`pending, session`calls
      ensures Valid()
      ensures View() == RejectPending(old(View()), why)
    {
      ghost var before := View();
      hide Halfway;
      hide RejectPending;
      var left := pending;
      NoneRejectedYet(before, why);
      while left != map[]
        invariant session.requestSeq == old(session.requestSeq) && pending == before.pending
        invariant Halfway(before, session.calls, left, why)
        decreases |left|
      {
        var id :| id in left;
        var i := left[id];
        RejectOne(before, session.calls, left, why, id);
        session.calls := session.calls[i := Settle(session.calls[i], Rejected(why))];
        left := left - {id};
      }
      pending := map[];
      AllAreRejected(before, session.calls, why);
    }

    method OnDisconnect(error: Option<string>)
      requires Valid()
      modifies this`pending, session`calls
      ensures Valid()
      ensures View() == RejectPending(old(View()), "native host disconnected: " + Reason(error))
    {
      RejectAll("native host disconnected: " + Reason(error));
    }

    /** Drops the old port, rejects what was pending on it, and connects anew: a new port and a
        handshake over it. */
    method Reconnect(newPort: nat, thrown: Option<string>)
      requires Valid()
      modifies this, session
      ensures Valid() && port == newPort
      ensures View() == OnRequest(RejectPending(old(View()), "reconnecting"), client, "hello", HELLO, thrown)
    {
      RejectAll("reconnecting");
      port := newPort;
      var hello := Request("hello", Some(HELLO), thrown);
    }
  }

  function Reason(error: Option<string>): string {
    if error.Some? then error.value else "(no error)"
  }

  /** Halfway through the rejections: `left` is still to be rejected, the rest has been. */
  ghost predicate Halfway(before: Page, calls: seq<Call>, left: map<string, nat>, why: string) {
    && |calls| == |before.calls|
    && (forall id :: id in left ==> id in before.pending && left[id] == before.pending[id])
    && forall i :: 0 <= i < |calls| ==>
         calls[i] ==
         if i in before.pending.Values && i !in left.Values then Settle(before.calls[i], Rejected(why))
         else before.calls[i]
  }

  lemma NoneRejectedYet(before: Page, why: string)
    ensures Halfway(before, before.calls, before.pending, why)
  {
  }

  lemma AllAreRejected(before: Page, calls: seq<Call>, why: string)
    requires Halfway(before, calls, map[], why)
    ensures Page(calls, map[]) == RejectPending(before, why)
    ensures |calls| == |before.calls|
  {
    assert calls == RejectPending(before, why).calls;
  }

  lemma RejectOne(before: Page, calls: seq<Call>, left: map<string, nat>, why: string, id: string)
    requires Indexed(before) && Halfway(before, calls, left, why) && id in left
    ensures left[id] < |calls|
    ensures Halfway(before, calls[left[id] := Settle(calls[left[id]], Rejected(why))], left - {id}, why)
  {
    OnePendingPerCall(before, left, id);
    assert left[id] in left.Values;
    hide Settle;
  }

  /** Removing one id from what is left removes exactly its call. */
  lemma OnePendingPerCall(page: Page, left: map<string, nat>, id: string)
    requires Indexed(page) && id in left
    requires forall x :: x in left ==> x in page.pending && left[x] == page.pending[x]
    ensures left[id] in page.pending.Values && left[id] < |page.calls|
    ensures forall i :: i in (left - {id}).Values <==> i in left.Values && i != left[id]
  {
    forall i | i in left.Values && i != left[id]
      ensures i in (left - {id}).Values
    {
      var x :| x in left && left[x] == i;
      assert x in left - {id} && (left - {id})[x] == i;
    }
    forall i | i in (left - {id}).Values
      ensures i in left.Values && i != left[id]
    {
      var x :| x in left - {id} && (left - {id})[x] == i;
      assert x in left && x == IdOf(page.calls, left[x]);
    }
    assert page.pending[id] == left[id];
  }
}
