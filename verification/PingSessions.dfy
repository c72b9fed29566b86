/** Sessions whose hosts answer by dispatching what they read: what a resolved promise means. */
module PingSessions {
  import opened Common
  import opened Protocol
  import opened NativeHost
  import opened NativeSessions
  import Dispatch

  /** What a host sends for a request: the dispatched answer, or its replacement when that is too
      large. */
  ghost predicate IsAnswer(c: Codec, request: Frame, reply: Frame) {
    var answer := Dispatch.DispatchFrame(c, request);
    reply == answer || exists size: nat :: reply == Dispatch.OversizeError(answer, size)
  }

  /** An answer is to the request that was read. */
  ghost predicate Honest(c: Codec, w: World, step: Step) {
    step.HostAnswer? && Enabled(w, step) ==>
      IsAnswer(c, RequestFrame(w.calls, w.ports[step.port].received[step.nth]), step.reply)
  }

  ghost predicate HonestRun(c: Codec, steps: seq<Step>) {
    forall n :: 0 <= n < |steps| ==>
      match After(steps[..n])
      case None => true
      case Some(w) => Honest(c, w, steps[n])
  }

  /** A success for a request is the dispatched answer to a request the host has read. */
  ghost predicate Dispatched(c: Codec, calls: seq<Call>, port: Port, reply: Frame) {
    reply.Response? && reply.requestId != "" && reply.status.Succeeded? ==>
      exists n | 0 <= n < |port.received| ::
        port.received[n] < |calls| && reply == Dispatch.DispatchFrame(c, RequestFrame(calls, port.received[n]))
  }

  ghost predicate AllDispatched(c: Codec, w: World) {
    forall p, k :: 0 <= p < |w.ports| && 0 <= k < |w.ports[p].sent| ==>
      Dispatched(c, w.calls, w.ports[p], w.ports[p].sent[k])
  }

  /** What a step does to the ports: what was read and sent stays, and only a host's own step sends. */
  lemma PortsGrow(w: World, step: Step)
    requires Good(w) && Enabled(w, step)
    ensures var after := Next(w, step);
            && |w.ports| <= |after.ports|
            && (forall p :: 0 <= p < |w.ports| ==>
                  w.ports[p].received <= after.ports[p].received
                  && after.ports[p].sent
                     == w.ports[p].sent
                        + if step.HostAnswer? && step.port == p then [step.reply]
                          else if step.HostPush? && step.port == p then [step.message]
                          else [])
            && (forall p :: |w.ports| <= p < |after.ports| ==> after.ports[p].sent == [])
  {
    hide Good;
    hide OnRequest;
    hide OnNotify;
    hide OnMessage;
    hide RejectPending;
  }

  lemma StillDispatched(c: Codec, w: World, step: Step, p: nat, reply: Frame)
    requires Good(w) && Enabled(w, step) && p < |w.ports|
    requires Dispatched(c, w.calls, w.ports[p], reply)
    ensures p < |Next(w, step).ports| && Dispatched(c, Next(w, step).calls, Next(w, step).ports[p], reply)
  {
    hide Good;
    hide Enabled;
    PortsGrow(w, step);
    var after := Next(w, step);
    hide Next;
    if reply.Response? && reply.requestId != "" && reply.status.Succeeded? {
      var n :| 0 <= n < |w.ports[p].received| && w.ports[p].received[n] < |w.calls|
               && reply == Dispatch.DispatchFrame(c, RequestFrame(w.calls, w.ports[p].received[n]));
      StepExtends(w, step, w.ports[p].received[n]);
      assert after.ports[p].received[n] == w.ports[p].received[n];
    }
  }

  lemma NewIsDispatched(c: Codec, w: World, step: Step)
    requires Enabled(w, step) && Honest(c, w, step)
    ensures step.HostAnswer? ==> Dispatched(c, w.calls, w.ports[step.port], step.reply)
    ensures step.HostPush? ==> Dispatched(c, w.calls, w.ports[step.port], step.message)
  {
  }

  lemma StepKeepsDispatched(c: Codec, w: World, step: Step)
    requires Good(w) && Enabled(w, step) && Honest(c, w, step) && AllDispatched(c, w)
    ensures AllDispatched(c, Next(w, step))
  {
    hide Good;
    PortsGrow(w, step);
    NewIsDispatched(c, w, step);
    hide Enabled;
    hide Honest;
    var after := Next(w, step);
    hide Next;
    hide Dispatched;
    forall p, k | 0 <= p < |after.ports| && 0 <= k < |after.ports[p].sent|
      ensures Dispatched(c, after.calls, after.ports[p], after.ports[p].sent[k])
    {
      var reply := after.ports[p].sent[k];
      assert p < |w.ports|;
      assert Dispatched(c, w.calls, w.ports[p], reply);
      StillDispatched(c, w, step, p, reply);
    }
  }

  lemma {:induction false} EveryHonestRun(c: Codec, steps: seq<Step>, w: World)
    requires After(steps) == Some(w) && HonestRun(c, steps)
    ensures AllDispatched(c, w)
  {
    if steps != [] {
      var n := |steps| - 1;
      var before := After(steps[..n]).value;
      forall k | 0 <= k < n
        ensures steps[..n][..k] == steps[..k]
      {
      }
      assert Honest(c, before, steps[n]);
      EveryHonestRun(c, steps[..n], before);
      EveryRunIsGood(steps[..n], before);
      StepKeepsDispatched(c, before, steps[n]);
    }
  }

  /** With hosts that dispatch what they read, a promise resolves only for a ping, and with the
      nonce of that very ping, through any number of clients, ports and reconnects. */
  lemma ResolvedPingsEchoTheirOwnNonce(c: Codec, steps: seq<Step>, w: World, i: nat, payload: Json)
    requires After(steps) == Some(w) && HonestRun(c, steps)
    requires i < |w.calls| && Resolved(payload) in w.calls[i].outcomes
    ensures w.calls[i].kind == "ping" && w.calls[i].awaits
    ensures payload.Get("echo")
         == Some(match w.calls[i].payload.Get("nonce") case Some(nonce) => nonce case None => Null)
  {
    EveryHonestRun(c, steps, w);
    EverySession(steps, w);
    hide After;
    hide HonestRun;
    assert Backed(w, i, payload);
    var p, k :| 0 <= p < |w.ports| && 0 <= k < |w.ports[p].sent|
                && Backs(w.calls, i, payload, w.ports[p], w.ports[p].sent[k]);
    var reply := w.ports[p].sent[k];
    assert Dispatched(c, w.calls, w.ports[p], reply);
    assert reply.requestId[0] == 'r';
    var n :| 0 <= n < |w.ports[p].received| && w.ports[p].received[n] < |w.calls|
             && reply == Dispatch.DispatchFrame(c, RequestFrame(w.calls, w.ports[p].received[n]));
    Dispatch.AnswersInKind(c, RequestFrame(w.calls, w.ports[p].received[n]));
    if w.ports[p].received[n] != i {
      SameIdSameCall(w.calls, w.ports[p].received[n], i);
    }
  }

  /** A dispatched ping that is delivered while its request is pending does resolve it, with the pong
      and the ping's own nonce. */
  lemma DeliveredPingResolves(c: Codec, steps: seq<Step>, w: World, p: nat, i: nat)
    requires After(steps) == Some(w) && Enabled(w, Deliver(p))
    requires i < |w.calls| && w.calls[i].client == w.ports[p].owner && w.calls[i].awaits && w.calls[i].outcomes == []
    requires w.calls[i].kind == "ping"
    requires w.ports[p].down[0]
          == Dispatch.DispatchFrame(c, Request("1.0", IdOf(w.calls, i), "ping", w.calls[i].payload))
    ensures var nonce := w.calls[i].payload.Get("nonce");
            Next(w, Deliver(p)).calls[i].outcomes
            == [Resolved(Object(map["pong" := Bool(true),
                                    "echo" := match nonce case Some(n) => n case None => Null]))]
  {
    DeliverySettles(steps, w, p, i);
    hide After;
    hide Enabled;
    hide Next;
    hide RequestId;
  }

  lemma TakeStep(steps: seq<Step>, w: World, step: Step)
    requires After(steps) == Some(w) && Enabled(w, step)
    ensures After(steps + [step]) == Some(Next(w, step))
  {
    assert (steps + [step])[..|steps|] == steps;
    hide Enabled;
    hide Next;
  }

  /** The world after a client has sent a ping on its own, idle port, and the host has read it. */
  lemma PingIsRead(steps: seq<Step>, w: World, c: nat, payload: Option<Json>) returns (more: seq<Step>, read: World)
    requires After(steps) == Some(w) && c < |w.clients| && w.clients[c].port < |w.ports|
    requires w.ports[w.clients[c].port].up == []
    ensures more == steps + [Send(c, "ping", payload, None)] + [HostRead(w.clients[c].port)]
    ensures After(more) == Some(read)
    ensures read.calls == w.calls + [Call(c, "ping", OrEmpty(payload), true, [])] && |read.ports| == |w.ports|
    ensures var p := w.clients[c].port;
            read.ports[p] == w.ports[p].(received := w.ports[p].received + [|w.calls|])
  {
    hide RequestId;
    hide OrEmpty;
    var p := w.clients[c].port;
    var send := Send(c, "ping", payload, None);
    TakeStep(steps, w, send);
    var sent := Next(w, send);
    assert sent.ports[p] == w.ports[p].(up := [|w.calls|]);
    TakeStep(steps + [send], sent, HostRead(p));
    more, read := steps + [send] + [HostRead(p)], Next(sent, HostRead(p));
    hide After;
    assert [|w.calls|][1..] == [];
  }

  /** From any state of a session with its port idle, a ping and its answer is a run that resolves the
      ping's promise, with the pong and the nonce. */
  lemma PingRoundTrip(codec: Codec, steps: seq<Step>, w: World, c: nat, payload: Option<Json>)
    returns (more: seq<Step>, later: World)
    requires After(steps) == Some(w) && c < |w.clients| && w.clients[c].port < |w.ports|
    requires w.ports[w.clients[c].port].up == [] && w.ports[w.clients[c].port].down == []
    ensures After(more) == Some(later) && |w.calls| < |later.calls|
    ensures later.calls[|w.calls|].kind == "ping"
    ensures var nonce := OrEmpty(payload).Get("nonce");
            later.calls[|w.calls|].outcomes
            == [Resolved(Object(map["pong" := Bool(true),
                                    "echo" := match nonce case Some(n) => n case None => Null]))]
  {
    hide RequestId;
    hide OrEmpty;
    hide After;
    var p, i := w.clients[c].port, |w.calls|;
    var read;
    more, read := PingIsRead(steps, w, c, payload);
    EveryRunIsGood(steps, w);
    assert w.ports[p].owner == c;
    var reply := Dispatch.DispatchFrame(codec, RequestFrame(read.calls, i));
    Dispatch.AnswersInKind(codec, RequestFrame(read.calls, i));
    var n := |w.ports[p].received|;
    var answer := HostAnswer(p, n, reply);
    assert Enabled(read, answer);
    TakeStep(more, read, answer);
    var answered := Next(read, answer);
    assert answered.ports[p].down == [reply] && answered.calls == read.calls;
    EveryRunIsGood(more + [answer], answered);
    assert Enabled(answered, Deliver(p)) by {
      assert PendingIsWaiting(PageOf(answered, c), c);
    }
    DeliveredPingResolves(codec, more + [answer], answered, p, i);
    TakeStep(more + [answer], answered, Deliver(p));
    more, later := more + [answer] + [Deliver(p)], Next(answered, Deliver(p));
    StepExtends(answered, Deliver(p), i);
  }
}
