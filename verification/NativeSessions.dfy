/** Whole sessions: any number of clients, each with ports opened one after another, and hosts that
    answer over first-in first-out channels, in any interleaving. */
module NativeSessions {
  import opened Common
  import opened Protocol
  import opened NativeHost

  /** A client's own state: what it awaits and which port is current. */
  datatype Client = Client(pending: map<string, nat>, port: nat)

  /** A connection and the host process behind it: the calls posted and not yet read, those the
      host has read, the messages on their way back, and every message the host has sent. */
  datatype Port = Port(owner: nat, up: seq<nat>, received: seq<nat>, down: seq<Frame>, sent: seq<Frame>)

  datatype World = World(calls: seq<Call>, clients: seq<Client>, ports: seq<Port>)

  const START: World := World([], [], [])

  datatype Step =
    | Create(hello: Option<string>)
    | Send(client: nat, kind: string, payload: Option<Json>, thrown: Option<string>)
    | Notify(client: nat, kind: string, payload: Option<Json>, thrown: Option<string>)
    | HostRead(port: nat)
    | HostAnswer(port: nat, nth: nat, reply: Frame)
    | HostPush(port: nat, message: Frame)
    | Deliver(port: nat)
    | Disconnect(port: nat, error: Option<string>)
    | Reconnect(client: nat, hello: Option<string>)

  function PageOf(w: World, c: nat): Page
    requires c < |w.clients|
  {
    Page(w.calls, w.clients[c].pending)
  }

  /** The world after client `c` has changed its page. */
  function WithPage(w: World, c: nat, page: Page): World
    requires c < |w.clients|
  {
    World(page.calls, w.clients[c := w.clients[c].(pending := page.pending)], w.ports)
  }

  /** The last call's frame put on a port, unless posting it threw. */
  function Posted(w: World, p: nat, thrown: Option<string>): World
    requires p < |w.ports| && w.calls != []
  {
    if thrown.Some? then w
    else w.(ports := w.ports[p := w.ports[p].(up := w.ports[p].up + [|w.calls| - 1])])
  }

  /** Steps that make sense: existing clients and ports, a host that answers what it has read with
      a response of the same id, or pushes a notification or a response with the empty id. That
      pending maps are well formed always holds; it is asked for only to apply a delivery. A
      disconnect event and a delivery may come from a port that is no longer current. */
  ghost predicate Enabled(w: World, step: Step) {
    match step
    case Create(_) => true
    case Send(c, _, _, _) => c < |w.clients| && w.clients[c].port < |w.ports|
    case Notify(c, _, _, _) => c < |w.clients| && w.clients[c].port < |w.ports|
    case HostRead(p) => p < |w.ports| && w.ports[p].up != []
    case HostAnswer(p, n, reply) =>
      p < |w.ports| && n < |w.ports[p].received| && w.ports[p].received[n] < |w.calls|
      && reply.Response? && reply.requestId == IdOf(w.calls, w.ports[p].received[n])
    case HostPush(p, message) =>
      p < |w.ports| && (message.Notification? || (message.Response? && message.requestId == ""))
    case Deliver(p) =>
      p < |w.ports| && w.ports[p].down != []
      && w.ports[p].owner < |w.clients| && Indexed(PageOf(w, w.ports[p].owner))
    case Disconnect(p, _) => p < |w.ports| && w.ports[p].owner < |w.clients|
    case Reconnect(c, _) => c < |w.clients|
  }

  function NewPort(owner: nat): Port {
    Port(owner, [], [], [], [])
  }

  ghost function Next(w: World, step: Step): World
    requires Enabled(w, step)
  {
    match step
    case Create(thrown) =>
      var c, p := |w.clients|, |w.ports|;
      var joined := World(w.calls, w.clients + [Client(map[], p)], w.ports + [NewPort(c)]);
      Posted(WithPage(joined, c, OnRequest(PageOf(joined, c), c, "hello", HELLO, thrown)), p, thrown)
    case Send(c, kind, payload, thrown) =>
      Posted(WithPage(w, c, OnRequest(PageOf(w, c), c, kind, OrEmpty(payload), thrown)), w.clients[c].port, thrown)
    case Notify(c, kind, payload, thrown) =>
      Posted(WithPage(w, c, OnNotify(PageOf(w, c), c, kind, OrEmpty(payload))), w.clients[c].port, thrown)
    case HostRead(p) =>
      var port := w.ports[p];
      w.(ports := w.ports[p := port.(up := port.up[1..], received := port.received + [port.up[0]])])
    case HostAnswer(p, _, reply) => Sending(w, p, reply)
    case HostPush(p, message) => Sending(w, p, message)
    case Deliver(p) =>
      var port := w.ports[p];
      WithPage(w, port.owner, OnMessage(PageOf(w, port.owner), port.down[0]))
      .(ports := w.ports[p := port.(down := port.down[1..])])
    case Disconnect(p, error) =>
      var c := w.ports[p].owner;
      WithPage(w, c, RejectPending(PageOf(w, c), "native host disconnected: " + Reason(error)))
    case Reconnect(c, thrown) =>
      var p := |w.ports|;
      var rejected := RejectPending(PageOf(w, c), "reconnecting");
      var moved := WithPage(w, c, OnRequest(rejected, c, "hello", HELLO, thrown));
      Posted(World(moved.calls, moved.clients[c := moved.clients[c].(port := p)], w.ports + [NewPort(c)]), p, thrown)
  }

  function Sending(w: World, p: nat, message: Frame): World
    requires p < |w.ports|
  {
    var port := w.ports[p];
    w.(ports := w.ports[p := port.(down := port.down + [message], sent := port.sent + [message])])
  }

  /** The world a run of steps leads to, or None when one of them is not enabled. */
  ghost function After(steps: seq<Step>): Option<World> {
    if steps == [] then Some(START)
    else
      var n := |steps| - 1;
      match After(steps[..n])
      case None => None
      case Some(w) => if Enabled(w, steps[n]) then Some(Next(w, steps[n])) else None
  }

  // ---- the pending map --------------------------------------------------------------------

  /** A request of client `c` that has not been settled. */
  predicate Waiting(call: Call, c: nat) {
    call.client == c && call.awaits && call.outcomes == []
  }

  /** The pending map is exactly the client's unsettled requests, each under its own id. */
  ghost predicate PendingIsWaiting(page: Page, c: nat) {
    && Indexed(page)
    && (forall id :: id in page.pending ==> Waiting(page.calls[page.pending[id]], c))
    && forall i :: 0 <= i < |page.calls| && Waiting(page.calls[i], c) ==>
         IdOf(page.calls, i) in page.pending
  }

  ghost predicate AtMostOnce(calls: seq<Call>) {
    forall i :: 0 <= i < |calls| ==> |calls[i].outcomes| <= 1 && (!calls[i].awaits ==> calls[i].outcomes == [])
  }

  /** What client `c` may do to the session's calls: settle its own, and make new ones. */
  ghost predicate ActsAs(c: nat, before: seq<Call>, after: seq<Call>) {
    && |before| <= |after|
    && (forall i :: 0 <= i < |before| ==> SameCall(c, before[i], after[i]))
    && forall i :: |before| <= i < |after| ==> after[i].client == c
  }

  predicate SameCall(c: nat, before: Call, after: Call) {
    && after.client == before.client && after.kind == before.kind && after.payload == before.payload
    && after.awaits == before.awaits
    && (before.client != c ==> after == before)
    && (before.outcomes != [] ==> after.outcomes == before.outcomes)
  }

  /** No other client notices. */
  lemma OthersUnaffected(c: nat, d: nat, before: seq<Call>, after: seq<Call>, pending: map<string, nat>)
    requires c != d && ActsAs(c, before, after) && PendingIsWaiting(Page(before, pending), d)
    ensures PendingIsWaiting(Page(after, pending), d)
  {
    forall id | id in pending
      ensures pending[id] < |after| && id == IdOf(after, pending[id]) && Waiting(after[pending[id]], d)
    {
      assert SameCall(c, before[pending[id]], after[pending[id]]);
    }
    forall i | 0 <= i < |after| && Waiting(after[i], d)
      ensures IdOf(after, i) in pending
    {
      assert i < |before| && SameCall(c, before[i], after[i]);
      assert Waiting(before[i], d) && IdOf(before, i) == IdOf(after, i);
    }
  }

  lemma FreshId(page: Page, kind: string)
    requires Indexed(page)
    ensures RequestId(kind, |page.calls| + 1) !in page.pending
  {
    var id := RequestId(kind, |page.calls| + 1);
    if id in page.pending {
      RequestIdsDiffer(kind, |page.calls| + 1, page.calls[page.pending[id]].kind, page.pending[id] + 1);
    }
  }

  /** A new call, awaited or settled at once, and nothing else. */
  lemma NewCallKeeps(calls: seq<Call>, c: nat, call: Call)
    requires AtMostOnce(calls) && call.client == c && |call.outcomes| <= 1 && (!call.awaits ==> call.outcomes == [])
    ensures AtMostOnce(calls + [call]) && ActsAs(c, calls, calls + [call])
  {
  }

  lemma SentKeepsPending(page: Page, c: nat, kind: string, payload: Json)
    requires PendingIsWaiting(page, c)
    ensures PendingIsWaiting(OnRequest(page, c, kind, payload, None), c)
  {
    FreshId(page, kind);
    var after := OnRequest(page, c, kind, payload, None);
    forall i | 0 <= i < |after.calls| && Waiting(after.calls[i], c)
      ensures IdOf(after.calls, i) in after.pending
    {
      if i < |page.calls| {
        assert after.calls[i] == page.calls[i] && IdOf(page.calls, i) in page.pending;
      }
    }
    forall id | id in after.pending
      ensures after.pending[id] < |after.calls| && id == IdOf(after.calls, after.pending[id])
      ensures Waiting(after.calls[after.pending[id]], c)
    {
      assert id in page.pending || id == IdOf(after.calls, |page.calls|);
    }
  }

  lemma QuietCallKeepsPending(page: Page, c: nat, call: Call)
    requires PendingIsWaiting(page, c) && !Waiting(call, c)
    ensures PendingIsWaiting(page.(calls := page.calls + [call]), c)
  {
    var after := page.(calls := page.calls + [call]);
    forall i | 0 <= i < |after.calls| && Waiting(after.calls[i], c)
      ensures IdOf(after.calls, i) in after.pending
    {
      assert after.calls[i] == page.calls[i] && IdOf(page.calls, i) in page.pending;
    }
    forall id | id in after.pending
      ensures after.pending[id] < |after.calls| && id == IdOf(after.calls, after.pending[id])
      ensures Waiting(after.calls[after.pending[id]], c)
    {
      assert id in page.pending;
    }
  }

  lemma RequestKeeps(page: Page, c: nat, kind: string, payload: Json, thrown: Option<string>)
    requires PendingIsWaiting(page, c) && AtMostOnce(page.calls)
    ensures var after := OnRequest(page, c, kind, payload, thrown);
            PendingIsWaiting(after, c) && AtMostOnce(after.calls) && ActsAs(c, page.calls, after.calls)
  {
    FreshId(page, kind);
    var after := OnRequest(page, c, kind, payload, thrown);
    NewCallKeeps(page.calls, c, after.calls[|page.calls|]);
    if thrown.None? {
      SentKeepsPending(page, c, kind, payload);
    } else {
      assert after.pending == page.pending;
      QuietCallKeepsPending(page, c, after.calls[|page.calls|]);
    }
    hide PendingIsWaiting;
    hide AtMostOnce;
    hide ActsAs;
    hide RequestId;
  }

  lemma NotifyKeeps(page: Page, c: nat, kind: string, payload: Json)
    requires PendingIsWaiting(page, c) && AtMostOnce(page.calls)
    ensures var after := OnNotify(page, c, kind, payload);
            PendingIsWaiting(after, c) && AtMostOnce(after.calls) && ActsAs(c, page.calls, after.calls)
  {
    NewCallKeeps(page.calls, c, Call(c, kind, payload, false, []));
    QuietCallKeepsPending(page, c, Call(c, kind, payload, false, []));
  }

  lemma MessageKeeps(page: Page, c: nat, message: Frame)
    requires PendingIsWaiting(page, c) && AtMostOnce(page.calls)
    ensures var after := OnMessage(page, message);
            PendingIsWaiting(after, c) && AtMostOnce(after.calls) && ActsAs(c, page.calls, after.calls)
  {
    hide RequestId;
    hide Verdict;
    var after := OnMessage(page, message);
    if message.Response? && message.requestId in page.pending {
      var k := page.pending[message.requestId];
      forall id | id in after.pending
        ensures after.pending[id] != k
      {
        assert id == IdOf(page.calls, page.pending[id]);
      }
      forall i | 0 <= i < |after.calls| && Waiting(after.calls[i], c)
        ensures IdOf(after.calls, i) in after.pending
      {
        assert i != k && after.calls[i] == page.calls[i];
        assert IdOf(page.calls, i) in page.pending;
        SameIdSameCall(page.calls, i, k);
      }
    }
  }

  /** Request ids are never reused. */
  lemma SameIdSameCall(calls: seq<Call>, i: nat, j: nat)
    requires i < |calls| && j < |calls| && i != j
    ensures IdOf(calls, i) != IdOf(calls, j)
  {
    if IdOf(calls, i) == IdOf(calls, j) {
      RequestIdsDiffer(calls[i].kind, i + 1, calls[j].kind, j + 1);
    }
  }

  lemma RejectKeeps(page: Page, c: nat, why: string)
    requires PendingIsWaiting(page, c) && AtMostOnce(page.calls)
    ensures var after := RejectPending(page, why);
            PendingIsWaiting(after, c) && AtMostOnce(after.calls) && ActsAs(c, page.calls, after.calls)
  {
    hide RequestId;
    var after := RejectPending(page, why);
    forall i | 0 <= i < |after.calls|
      ensures SameCall(c, page.calls[i], after.calls[i]) && !Waiting(after.calls[i], c)
      ensures |after.calls[i].outcomes| <= 1 && (!after.calls[i].awaits ==> after.calls[i].outcomes == [])
    {
      if Waiting(page.calls[i], c) {
        assert page.pending[IdOf(page.calls, i)] == i by {
          var k := page.pending[IdOf(page.calls, i)];
          if k != i {
            SameIdSameCall(page.calls, i, k);
          }
        }
        assert i in page.pending.Values;
      }
    }
  }

  // ---- the whole world --------------------------------------------------------------------

  ghost predicate Wiring(w: World) {
    && (forall i :: 0 <= i < |w.calls| ==> w.calls[i].client < |w.clients|)
    && (forall p :: 0 <= p < |w.ports| ==> w.ports[p].owner < |w.clients|)
    && forall c :: 0 <= c < |w.clients| ==> w.clients[c].port < |w.ports| && w.ports[w.clients[c].port].owner == c
  }

  ghost predicate Pages(w: World) {
    forall c :: 0 <= c < |w.clients| ==> PendingIsWaiting(PageOf(w, c), c)
  }

  /** The calls a port has carried, in order. */
  function Carried(port: Port): seq<nat> {
    port.received + port.up
  }

  ghost predicate Below(port: Port, n: nat) {
    forall k :: 0 <= k < |Carried(port)| ==> Carried(port)[k] < n
  }

  /** The reply answers a call the host has read. */
  ghost predicate Answered(calls: seq<Call>, port: Port, reply: Frame) {
    reply.Response? && reply.requestId != "" ==>
      exists n | 0 <= n < |port.received| ::
        port.received[n] < |calls| && reply.requestId == IdOf(calls, port.received[n])
  }

  /** A port carries its owner's calls, in the order they were made; what is on its way back is
      the end of what the host sent; a response that names a request names one the host read. */
  ghost predicate Traffic(calls: seq<Call>, port: Port) {
    && Below(port, |calls|)
    && (forall k :: 0 <= k < |Carried(port)| ==> calls[Carried(port)[k]].client == port.owner)
    && (forall j, k :: 0 <= j < k < |Carried(port)| ==> Carried(port)[j] < Carried(port)[k])
    && |port.down| <= |port.sent| && port.down == port.sent[|port.sent| - |port.down|..]
    && forall k :: 0 <= k < |port.sent| ==> Answered(calls, port, port.sent[k])
  }

  ghost predicate AllTraffic(w: World) {
    forall p :: 0 <= p < |w.ports| ==> Traffic(w.calls, w.ports[p])
  }

  /** The host behind some port read this call and sent a success for its id with this payload. */
  ghost predicate Backed(w: World, i: nat, payload: Json)
    requires i < |w.calls|
  {
    exists p, k | 0 <= p < |w.ports| && 0 <= k < |w.ports[p].sent| ::
      Backs(w.calls, i, payload, w.ports[p], w.ports[p].sent[k])
  }

  ghost predicate Backs(calls: seq<Call>, i: nat, payload: Json, port: Port, reply: Frame)
    requires i < |calls|
  {
    && port.owner == calls[i].client && i in port.received
    && reply.Response? && reply.requestId == IdOf(calls, i)
    && reply.status.Succeeded? && payload == OrEmpty(reply.payload)
  }

  ghost predicate AllBacked(w: World) {
    forall i :: 0 <= i < |w.calls| ==> OutcomeBacked(w, i)
  }

  ghost predicate OutcomeBacked(w: World, i: nat)
    requires i < |w.calls|
  {
    forall payload :: Resolved(payload) in w.calls[i].outcomes ==> Backed(w, i, payload)
  }

  ghost predicate Good(w: World) {
    Wiring(w) && Pages(w) && AtMostOnce(w.calls) && AllTraffic(w) && AllBacked(w)
  }

  // ---- one change at a time ---------------------------------------------------------------

  lemma TrafficKept(c: nat, before: seq<Call>, after: seq<Call>, port: Port)
    requires Traffic(before, port) && ActsAs(c, before, after)
    ensures Traffic(after, port)
  {
    forall k | 0 <= k < |port.sent|
      ensures Answered(after, port, port.sent[k])
    {
      var reply := port.sent[k];
      assert Answered(before, port, reply);
      if reply.Response? && reply.requestId != "" {
        var n :| 0 <= n < |port.received| && port.received[n] < |before|
                 && reply.requestId == IdOf(before, port.received[n]);
        assert SameCall(c, before[port.received[n]], after[port.received[n]]);
      }
    }
    forall k | 0 <= k < |Carried(port)|
      ensures Carried(port)[k] < |after| && after[Carried(port)[k]].client == port.owner
    {
      assert SameCall(c, before[Carried(port)[k]], after[Carried(port)[k]]);
    }
  }

  /** A port that has carried and sent at least as much backs at least as much. */
  lemma BackedKept(w: World, after: World, c: nat, i: nat, payload: Json)
    requires i < |w.calls| && Backed(w, i, payload) && ActsAs(c, w.calls, after.calls)
    requires |w.ports| <= |after.ports|
    requires forall p :: 0 <= p < |w.ports| ==> Grows(w.ports[p], after.ports[p])
    ensures Backed(after, i, payload)
  {
    var p, k :| 0 <= p < |w.ports| && 0 <= k < |w.ports[p].sent|
                && Backs(w.calls, i, payload, w.ports[p], w.ports[p].sent[k]);
    assert Grows(w.ports[p], after.ports[p]);
    assert SameCall(c, w.calls[i], after.calls[i]);
    assert after.ports[p].sent[k] == w.ports[p].sent[k];
    assert Backs(after.calls, i, payload, after.ports[p], after.ports[p].sent[k]);
  }

  ghost predicate Grows(before: Port, after: Port) {
    after.owner == before.owner && before.received <= after.received && before.sent <= after.sent
  }

  /** A resolution among these calls was there before, or a host has answered. */
  ghost predicate OldOrBacked(w: World, calls: seq<Call>, i: nat)
    requires i < |calls|
  {
    forall payload :: Resolved(payload) in calls[i].outcomes ==>
      i < |w.calls| && (w.calls[i].outcomes != [] || Backed(w, i, payload))
  }

  /** A client changes its page within its rights, and resolves only what a host answered. */
  lemma PageStep(w: World, c: nat, page: Page)
    requires Good(w) && c < |w.clients|
    requires PendingIsWaiting(page, c) && AtMostOnce(page.calls) && ActsAs(c, w.calls, page.calls)
    requires forall i :: 0 <= i < |page.calls| ==> OldOrBacked(w, page.calls, i)
    ensures Good(WithPage(w, c, page))
  {
    var after := WithPage(w, c, page);
    forall d | 0 <= d < |after.clients|
      ensures PendingIsWaiting(PageOf(after, d), d)
    {
      if d != c {
        assert PendingIsWaiting(PageOf(w, d), d);
        OthersUnaffected(c, d, w.calls, page.calls, w.clients[d].pending);
      }
    }
    forall p | 0 <= p < |after.ports|
      ensures Traffic(after.calls, after.ports[p])
    {
      TrafficKept(c, w.calls, page.calls, w.ports[p]);
    }
    forall i | 0 <= i < |after.calls|
      ensures OutcomeBacked(after, i)
    {
      BackingKept(w, c, page, i);
    }
    assert Wiring(after) by {
      hide PendingIsWaiting;
      hide Traffic;
      forall i | 0 <= i < |after.calls|
        ensures after.calls[i].client < |after.clients|
      {
        if i < |w.calls| {
          assert SameCall(c, w.calls[i], page.calls[i]);
        }
      }
    }
  }

  lemma BackingKept(w: World, c: nat, page: Page, i: nat)
    requires AllBacked(w) && c < |w.clients| && ActsAs(c, w.calls, page.calls) && i < |page.calls|
    requires OldOrBacked(w, page.calls, i)
    ensures OutcomeBacked(WithPage(w, c, page), i)
  {
    forall payload | Resolved(payload) in page.calls[i].outcomes
      ensures Backed(WithPage(w, c, page), i, payload)
    {
      assert OutcomeBacked(w, i);
      assert SameCall(c, w.calls[i], page.calls[i]);
      assert Backed(w, i, payload);
      BackedKept(w, WithPage(w, c, page), c, i, payload);
    }
  }

  lemma BackingGrows(w: World, after: World)
    requires AllBacked(w) && after.calls == w.calls && |w.ports| <= |after.ports|
    requires forall p :: 0 <= p < |w.ports| ==> Grows(w.ports[p], after.ports[p])
    ensures AllBacked(after)
  {
    forall i | 0 <= i < |after.calls|
      ensures OutcomeBacked(after, i)
    {
      assert OutcomeBacked(w, i);
      forall payload | Resolved(payload) in after.calls[i].outcomes
        ensures Backed(after, i, payload)
      {
        BackedKept(w, after, 0, i, payload);
      }
    }
  }

  /** Clients that keep what they await keep their pages. */
  lemma PagesKept(w: World, after: World)
    requires Pages(w) && after.calls == w.calls && |w.clients| <= |after.clients|
    requires forall d :: 0 <= d < |w.clients| ==> after.clients[d].pending == w.clients[d].pending
    requires forall d :: |w.clients| <= d < |after.clients| ==>
               after.clients[d].pending == map[] && forall i :: 0 <= i < |w.calls| ==> w.calls[i].client != d
    ensures Pages(after)
  {
    forall d | 0 <= d < |after.clients|
      ensures PendingIsWaiting(PageOf(after, d), d)
    {
      if d < |w.clients| {
        assert PageOf(after, d) == PageOf(w, d);
      }
    }
  }

  /** One port changes, carrying and sending no less. */
  lemma PortStep(w: World, p: nat, port: Port)
    requires Good(w) && p < |w.ports| && Grows(w.ports[p], port) && Traffic(w.calls, port)
    ensures Good(w.(ports := w.ports[p := port]))
  {
    var after := w.(ports := w.ports[p := port]);
    BackingGrows(w, after);
    PagesKept(w, after);
    hide Traffic;
    hide Pages;
    hide AllBacked;
    hide AtMostOnce;
  }

  /** A port and, for a new client, the client as well are added; nothing is on them yet. */
  lemma JoinStep(w: World, clients: seq<Client>, c: nat)
    requires Good(w) && c < |clients| && |w.clients| <= |clients| <= |w.clients| + 1
    requires c == |w.clients| || |clients| == |w.clients|
    requires clients[c].port == |w.ports|
    requires forall d :: 0 <= d < |w.clients| ==> clients[d].pending == w.clients[d].pending
    requires forall d :: 0 <= d < |clients| && d != c ==> d < |w.clients| && clients[d].port == w.clients[d].port
    requires |clients| > |w.clients| ==> clients[|w.clients|].pending == map[]
    ensures Good(World(w.calls, clients, w.ports + [NewPort(c)]))
  {
    var after := World(w.calls, clients, w.ports + [NewPort(c)]);
    BackingGrows(w, after);
    PagesKept(w, after);
    assert Traffic(w.calls, NewPort(c));
    assert AllTraffic(after) by {
      hide Traffic;
    }
    hide Traffic;
    hide Pages;
    hide AllBacked;
    hide AtMostOnce;
    hide AllTraffic;
  }

  lemma TrafficOfPost(calls: seq<Call>, port: Port, n: nat)
    requires Traffic(calls, port) && n < |calls| && calls[n].client == port.owner && Below(port, n)
    ensures Traffic(calls, port.(up := port.up + [n]))
  {
    var more := port.(up := port.up + [n]);
    assert Carried(more) == Carried(port) + [n];
    forall k | 0 <= k < |port.sent|
      ensures Answered(calls, more, port.sent[k])
    {
      StillAnswered(calls, port, more, port.sent[k]);
    }
    hide Answered;
  }

  /** The newest call is put on a port of its client. */
  lemma PostStep(w: World, p: nat, thrown: Option<string>)
    requires Good(w) && p < |w.ports| && w.calls != []
    requires w.calls[|w.calls| - 1].client == w.ports[p].owner && Below(w.ports[p], |w.calls| - 1)
    ensures Good(Posted(w, p, thrown))
  {
    if thrown.None? {
      TrafficOfPost(w.calls, w.ports[p], |w.calls| - 1);
      PortStep(w, p, w.ports[p].(up := w.ports[p].up + [|w.calls| - 1]));
    }
  }

  lemma SendKeeps(w: World, c: nat, kind: string, payload: Json, thrown: Option<string>)
    requires Good(w) && c < |w.clients|
    requires forall p :: 0 <= p < |w.ports| ==> Below(w.ports[p], |w.calls|)
    ensures Good(Posted(WithPage(w, c, OnRequest(PageOf(w, c), c, kind, payload, thrown)), w.clients[c].port, thrown))
  {
    var page := OnRequest(PageOf(w, c), c, kind, payload, thrown);
    RequestKeeps(PageOf(w, c), c, kind, payload, thrown);
    PageStep(w, c, page);
    hide PendingIsWaiting;
    hide Traffic;
    hide OutcomeBacked;
    PostStep(WithPage(w, c, page), w.clients[c].port, thrown);
  }

  lemma NotifyKeepsGood(w: World, c: nat, kind: string, payload: Json, thrown: Option<string>)
    requires Good(w) && c < |w.clients|
    requires forall p :: 0 <= p < |w.ports| ==> Below(w.ports[p], |w.calls|)
    ensures Good(Posted(WithPage(w, c, OnNotify(PageOf(w, c), c, kind, payload)), w.clients[c].port, thrown))
  {
    var page := OnNotify(PageOf(w, c), c, kind, payload);
    NotifyKeeps(PageOf(w, c), c, kind, payload);
    PageStep(w, c, page);
    hide PendingIsWaiting;
    hide Traffic;
    hide OutcomeBacked;
    PostStep(WithPage(w, c, page), w.clients[c].port, thrown);
  }

  lemma RejectKeepsGood(w: World, c: nat, why: string)
    requires Good(w) && c < |w.clients|
    ensures Good(WithPage(w, c, RejectPending(PageOf(w, c), why)))
  {
    var page := RejectPending(PageOf(w, c), why);
    RejectKeeps(PageOf(w, c), c, why);
    PageStep(w, c, page);
  }

  lemma ReadKeepsGood(w: World, p: nat)
    requires Good(w) && Enabled(w, HostRead(p))
    ensures Good(Next(w, HostRead(p)))
  {
    var port := w.ports[p];
    var after := port.(up := port.up[1..], received := port.received + [port.up[0]]);
    assert Carried(after) == Carried(port);
    forall k | 0 <= k < |after.sent|
      ensures Answered(w.calls, after, after.sent[k])
    {
      StillAnswered(w.calls, port, after, after.sent[k]);
    }
    PortStep(w, p, after);
  }

  lemma StillAnswered(calls: seq<Call>, port: Port, after: Port, reply: Frame)
    requires Answered(calls, port, reply) && port.received <= after.received
    ensures Answered(calls, after, reply)
  {
    if reply.Response? && reply.requestId != "" {
      var n :| 0 <= n < |port.received| && port.received[n] < |calls|
               && reply.requestId == IdOf(calls, port.received[n]);
      assert after.received[n] == port.received[n];
    }
  }

  lemma SendingKeepsGood(w: World, p: nat, message: Frame)
    requires Good(w) && p < |w.ports| && Answered(w.calls, w.ports[p], message)
    ensures Good(Sending(w, p, message))
  {
    var port := w.ports[p];
    var after := port.(down := port.down + [message], sent := port.sent + [message]);
    assert Carried(after) == Carried(port);
    forall k | 0 <= k < |after.sent|
      ensures Answered(w.calls, after, after.sent[k])
    {
      StillAnswered(w.calls, port, after, after.sent[k]);
    }
    assert after.down == after.sent[|after.sent| - |after.down|..];
    PortStep(w, p, after);
  }

  /** A response that settles a request of the port's owner is the answer of the host that read
      that request. */
  lemma DeliveredIsAnAnswer(w: World, p: nat)
    requires Good(w) && p < |w.ports| && w.ports[p].down != []
    requires var message := w.ports[p].down[0];
             message.Response? && message.requestId in w.clients[w.ports[p].owner].pending
    ensures var message := w.ports[p].down[0];
            var i := w.clients[w.ports[p].owner].pending[message.requestId];
            && i < |w.calls| && (message.status.Succeeded? ==> Backed(w, i, OrEmpty(message.payload)))
  {
    var port := w.ports[p];
    var message := port.down[0];
    var c := port.owner;
    assert PendingIsWaiting(PageOf(w, c), c) && Traffic(w.calls, port);
    var i := w.clients[c].pending[message.requestId];
    var k := |port.sent| - |port.down|;
    assert port.sent[k] == message && Answered(w.calls, port, message);
    var n :| 0 <= n < |port.received| && port.received[n] < |w.calls|
             && message.requestId == IdOf(w.calls, port.received[n]);
    assert message.requestId == IdOf(w.calls, i);
    if port.received[n] != i {
      SameIdSameCall(w.calls, i, port.received[n]);
    }
    if message.status.Succeeded? {
      assert Backs(w.calls, i, OrEmpty(message.payload), port, port.sent[k]);
    }
  }

  lemma TakeMessage(calls: seq<Call>, port: Port)
    requires Traffic(calls, port) && port.down != []
    ensures Traffic(calls, port.(down := port.down[1..]))
  {
    var after := port.(down := port.down[1..]);
    assert Carried(after) == Carried(port);
    forall k | 0 <= k < |after.sent|
      ensures Answered(calls, after, after.sent[k])
    {
      StillAnswered(calls, port, after, after.sent[k]);
    }
  }

  lemma DeliverKeepsGood(w: World, p: nat)
    requires Good(w) && Enabled(w, Deliver(p))
    ensures Good(Next(w, Deliver(p)))
  {
    var port := w.ports[p];
    var c, message := port.owner, port.down[0];
    var page := OnMessage(PageOf(w, c), message);
    MessageKeeps(PageOf(w, c), c, message);
    if message.Response? && message.requestId in w.clients[c].pending {
      DeliveredIsAnAnswer(w, p);
    }
    PageStep(w, c, page);
    var mid := WithPage(w, c, page);
    var after := port.(down := port.down[1..]);
    hide PendingIsWaiting;
    hide OutcomeBacked;
    hide OnMessage;
    assert Traffic(mid.calls, port);
    TakeMessage(mid.calls, port);
    hide Traffic;
    PortStep(mid, p, after);
  }

  lemma CreateKeepsGood(w: World, thrown: Option<string>)
    requires Good(w)
    ensures Good(Next(w, Create(thrown)))
  {
    var c := |w.clients|;
    var clients := w.clients + [Client(map[], |w.ports|)];
    JoinStep(w, clients, c);
    var joined := World(w.calls, clients, w.ports + [NewPort(c)]);
    hide PendingIsWaiting;
    hide OutcomeBacked;
    SendKeeps(joined, c, "hello", HELLO, thrown);
  }

  lemma ReconnectKeepsGood(w: World, c: nat, thrown: Option<string>)
    requires Good(w) && c < |w.clients|
    ensures Good(Next(w, Reconnect(c, thrown)))
  {
    RejectKeepsGood(w, c, "reconnecting");
    var rejected := WithPage(w, c, RejectPending(PageOf(w, c), "reconnecting"));
    var clients := rejected.clients[c := rejected.clients[c].(port := |w.ports|)];
    JoinStep(rejected, clients, c);
    var joined := World(rejected.calls, clients, w.ports + [NewPort(c)]);
    TrafficIsBelow(joined);
    SendKeeps(joined, c, "hello", HELLO, thrown);
    ReconnectInSteps(w, c, thrown);
  }

  /** Reconnecting is rejecting, opening a port, and sending the handshake. */
  lemma ReconnectInSteps(w: World, c: nat, thrown: Option<string>)
    requires c < |w.clients|
    ensures var rejected := WithPage(w, c, RejectPending(PageOf(w, c), "reconnecting"));
            var clients := rejected.clients[c := rejected.clients[c].(port := |w.ports|)];
            var joined := World(rejected.calls, clients, w.ports + [NewPort(c)]);
            Next(w, Reconnect(c, thrown)) ==
            Posted(WithPage(joined, c, OnRequest(PageOf(joined, c), c, "hello", HELLO, thrown)), |w.ports|, thrown)
  {
    hide RequestId;
    hide RejectPending;
  }

  lemma TrafficIsBelow(w: World)
    requires AllTraffic(w)
    ensures forall p :: 0 <= p < |w.ports| ==> Below(w.ports[p], |w.calls|)
  {
  }

  lemma StepKeepsGood(w: World, step: Step)
    requires Good(w) && Enabled(w, step)
    ensures Good(Next(w, step))
  {
    TrafficIsBelow(w);
    hide Good;
    match step {
      case Create(thrown) => CreateKeepsGood(w, thrown);
      case Send(c, kind, payload, thrown) => SendKeeps(w, c, kind, OrEmpty(payload), thrown);
      case Notify(c, kind, payload, thrown) => NotifyKeepsGood(w, c, kind, OrEmpty(payload), thrown);
      case HostRead(p) => ReadKeepsGood(w, p);
      case HostAnswer(p, n, reply) => SendingKeepsGood(w, p, reply);
      case HostPush(p, message) => SendingKeepsGood(w, p, message);
      case Deliver(p) => DeliverKeepsGood(w, p);
      case Disconnect(p, error) => RejectKeepsGood(w, w.ports[p].owner, "native host disconnected: " + Reason(error));
      case Reconnect(c, thrown) => ReconnectKeepsGood(w, c, thrown);
    }
  }

  /** Every reachable world is good. */
  lemma {:induction false} EveryRunIsGood(steps: seq<Step>, w: World)
    requires After(steps) == Some(w)
    ensures Good(w)
  {
    if steps != [] {
      var n := |steps| - 1;
      var before := After(steps[..n]).value;
      EveryRunIsGood(steps[..n], before);
      StepKeepsGood(before, steps[n]);
    }
  }

  // ---- what holds of every session --------------------------------------------------------

  /** In every reachable state, for every client: the pending map is exactly the requests it has
      issued and that are not settled, each under its own id; no request is settled twice, and one
      that nobody awaits never; and a request resolves only with the payload of a success sent, for
      its id, by the host that read it on one of the client's own ports. */
  lemma EverySession(steps: seq<Step>, w: World)
    requires After(steps) == Some(w)
    ensures forall c :: 0 <= c < |w.clients| ==> PendingIsWaiting(Page(w.calls, w.clients[c].pending), c)
    ensures forall i :: 0 <= i < |w.calls| ==>
      |w.calls[i].outcomes| <= 1 && (!w.calls[i].awaits ==> w.calls[i].outcomes == [])
    ensures forall i, payload | 0 <= i < |w.calls| && Resolved(payload) in w.calls[i].outcomes ::
      Backed(w, i, payload)
  {
    EveryRunIsGood(steps, w);
    forall c | 0 <= c < |w.clients|
      ensures PendingIsWaiting(Page(w.calls, w.clients[c].pending), c)
    {
      assert PendingIsWaiting(PageOf(w, c), c);
    }
    forall i, payload | 0 <= i < |w.calls| && Resolved(payload) in w.calls[i].outcomes
      ensures Backed(w, i, payload)
    {
      assert OutcomeBacked(w, i);
    }
  }

  /** Hosts read a client's requests in the order they were made, and the channels lose, repeat
      and reorder nothing: what was read and what is still to be read make up an ascending list of
      the owner's calls, and what is on its way back is the end of what was sent. */
  lemma ChannelsAreFifo(steps: seq<Step>, w: World, p: nat)
    requires After(steps) == Some(w) && p < |w.ports|
    ensures var carried := w.ports[p].received + w.ports[p].up;
            && (forall j, k :: 0 <= j < k < |carried| ==> carried[j] < carried[k])
            && (forall k :: 0 <= k < |carried| ==>
                  carried[k] < |w.calls| && w.calls[carried[k]].client == w.ports[p].owner)
    ensures var port := w.ports[p];
            |port.down| <= |port.sent| && port.down == port.sent[|port.sent| - |port.down|..]
  {
    EveryRunIsGood(steps, w);
    assert Traffic(w.calls, w.ports[p]);
    assert Carried(w.ports[p]) == w.ports[p].received + w.ports[p].up;
  }

  /** Delivering a message changes a promise or a pending map exactly when it is a response to an
      unsettled request of the port's own client. A response to a request that was settled
      already - by an earlier answer, a disconnect or a reconnect - changes nothing. */
  lemma OnlyFreshAnswersCount(steps: seq<Step>, w: World, p: nat)
    requires After(steps) == Some(w) && Enabled(w, Deliver(p))
    ensures var after := Next(w, Deliver(p));
            var message := w.ports[p].down[0];
            (after.calls == w.calls && after.clients == w.clients) <==>
            !(message.Response? && exists i | 0 <= i < |w.calls| ::
                Waiting(w.calls[i], w.ports[p].owner) && IdOf(w.calls, i) == message.requestId)
  {
    EveryRunIsGood(steps, w);
    var c, message := w.ports[p].owner, w.ports[p].down[0];
    assert PendingIsWaiting(PageOf(w, c), c);
    if message.Response? {
      if message.requestId in w.clients[c].pending {
        var i := w.clients[c].pending[message.requestId];
        assert Waiting(w.calls[i], c) && IdOf(w.calls, i) == message.requestId;
        assert Next(w, Deliver(p)).calls[i] == Settle(w.calls[i], Verdict(message)) != w.calls[i];
      } else {
        assert w.clients[c := w.clients[c].(pending := w.clients[c].pending)] == w.clients;
      }
    }
  }

  /** Delivering a response to an unsettled request of the port's client settles that request as the
      response says, forgets its id, and changes no other call. */
  lemma DeliverySettles(steps: seq<Step>, w: World, p: nat, i: nat)
    requires After(steps) == Some(w) && Enabled(w, Deliver(p))
    requires w.ports[p].down[0].Response?
    requires i < |w.calls| && w.calls[i].client == w.ports[p].owner && w.calls[i].awaits && w.calls[i].outcomes == []
    requires w.ports[p].down[0].requestId == IdOf(w.calls, i)
    ensures var after := Next(w, Deliver(p));
            && |after.calls| == |w.calls|
            && (exists outcome :: Answers(w.ports[p].down[0], outcome) && after.calls[i].outcomes == [outcome])
            && (forall k :: 0 <= k < |w.calls| && k != i ==> after.calls[k] == w.calls[k])
            && IdOf(w.calls, i) !in after.clients[w.ports[p].owner].pending
  {
    EveryRunIsGood(steps, w);
    var c, message := w.ports[p].owner, w.ports[p].down[0];
    assert PendingIsWaiting(PageOf(w, c), c) && Waiting(w.calls[i], c);
    var k := w.clients[c].pending[message.requestId];
    if k != i {
      SameIdSameCall(w.calls, i, k);
    }
    VerdictAnswers(message, Verdict(message));
    assert [] + [Verdict(message)] == [Verdict(message)];
    hide Verdict;
    hide Answers;
    hide RequestId;
    hide Good;
  }

  /** Right after a disconnect or a reconnect every request the client had made is settled: those that
      were pending have been rejected, with the reason, and no other call has changed. */
  lemma NothingSurvivesALostPort(steps: seq<Step>, w: World, step: Step)
    requires After(steps) == Some(w) && Enabled(w, step)
    requires step.Disconnect? || step.Reconnect?
    ensures var c := if step.Disconnect? then w.ports[step.port].owner else step.client;
            var why := if step.Reconnect? then "reconnecting"
                       else match step.error
                         case Some(e) => "native host disconnected: " + e
                         case None => "native host disconnected: (no error)";
            && |w.calls| <= |Next(w, step).calls|
            && forall i :: 0 <= i < |w.calls| ==>
                 Next(w, step).calls[i].outcomes
                 == if w.calls[i].client == c && w.calls[i].awaits && w.calls[i].outcomes == [] then [Rejected(why)]
                    else w.calls[i].outcomes
  {
    hide PendingIsWaiting;
    hide After;
    var c := if step.Disconnect? then w.ports[step.port].owner else step.client;
    var why := if step.Disconnect? then "native host disconnected: " + Reason(step.error) else "reconnecting";
    assert "native host disconnected: " + "(no error)" == "native host disconnected: (no error)";
    PendingOf(steps, w, c);
    CallsAfterALostPort(w, step, c, why);
    hide Enabled;
    hide Next;
    forall i | 0 <= i < |w.calls|
      ensures Next(w, step).calls[i].outcomes
           == if Waiting(w.calls[i], c) then [Rejected(why)] else w.calls[i].outcomes
    {
      RejectSettles(PageOf(w, c), c, why, i);
    }
    hide RejectPending;
  }

  lemma PendingOf(steps: seq<Step>, w: World, c: nat)
    requires After(steps) == Some(w) && c < |w.clients|
    ensures PendingIsWaiting(PageOf(w, c), c)
  {
    EveryRunIsGood(steps, w);
  }

  lemma CallsAfterALostPort(w: World, step: Step, c: nat, why: string)
    requires Enabled(w, step) && (step.Disconnect? || step.Reconnect?)
    requires c == if step.Disconnect? then w.ports[step.port].owner else step.client
    requires why == if step.Disconnect? then "native host disconnected: " + Reason(step.error) else "reconnecting"
    ensures |w.calls| <= |Next(w, step).calls|
    ensures forall i :: 0 <= i < |w.calls| ==>
              i < |RejectPending(PageOf(w, c), why).calls|
              && Next(w, step).calls[i] == RejectPending(PageOf(w, c), why).calls[i]
  {
    hide RequestId;
  }

  lemma RejectSettles(page: Page, c: nat, why: string, i: nat)
    requires PendingIsWaiting(page, c) && i < |page.calls|
    ensures RejectPending(page, why).calls[i].outcomes
         == if Waiting(page.calls[i], c) then [Rejected(why)] else page.calls[i].outcomes
  {
    hide RequestId;
    if Waiting(page.calls[i], c) {
      var k := page.pending[IdOf(page.calls, i)];
      if k != i {
        SameIdSameCall(page.calls, i, k);
      }
      assert page.pending[IdOf(page.calls, i)] == i;
      assert i in page.pending.Values;
      assert [] + [Rejected(why)] == [Rejected(why)];
    }
  }

  /** The run that takes one more step. */
  lemma OneMoreStep(steps: seq<Step>, step: Step)
    requires After(steps + [step]).Some?
    ensures After(steps).Some? && Enabled(After(steps).value, step)
    ensures After(steps + [step]) == Some(Next(After(steps).value, step))
  {
    hide Enabled;
    hide Next;
    assert (steps + [step])[..|steps|] == steps;
  }

  /** A promise, once settled, keeps its outcome through the rest of the session. */
  lemma {:induction false} SettledForGood(steps: seq<Step>, w: World, more: seq<Step>, later: World, i: nat)
    requires After(steps) == Some(w) && After(steps + more) == Some(later)
    requires i < |w.calls| && w.calls[i].outcomes != []
    ensures i < |later.calls| && later.calls[i] == w.calls[i]
    decreases |more|
  {
    hide After;
    hide Good;
    hide Enabled;
    hide Next;
    if more == [] {
      assert steps + more == steps;
    } else {
      var n := |more| - 1;
      assert steps + more == (steps + more[..n]) + [more[n]];
      OneMoreStep(steps + more[..n], more[n]);
      var before := After(steps + more[..n]).value;
      SettledForGood(steps, w, more[..n], before, i);
      SettledOnce(steps + more[..n], before, i);
      SettledOnce(steps + more, later, i);
      StepExtends(before, more[n], i);
    }
  }

  lemma SettledOnce(steps: seq<Step>, w: World, i: nat)
    requires After(steps) == Some(w)
    ensures Good(w)
    ensures i < |w.calls| ==> |w.calls[i].outcomes| <= 1
  {
    hide After;
    EveryRunIsGood(steps, w);
  }

  /** Calls are never removed, and outcomes are only ever added. */
  lemma StepExtends(w: World, step: Step, i: nat)
    requires Good(w) && Enabled(w, step) && i < |w.calls|
    ensures var after := Next(w, step);
            i < |after.calls| && after.calls[i] == w.calls[i].(outcomes := after.calls[i].outcomes)
            && w.calls[i].outcomes <= after.calls[i].outcomes
  {
    hide Good;
    hide RequestId;
    hide Verdict;
  }
}
