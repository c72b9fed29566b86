/** The buffered review queue: a stored list of decisions, deduplicated by id and capped,
    rewritten by handlers that read, compute and write back with a pause in between. */
module ReviewQueue {
  import opened Common

  const REVIEW_CAP: nat := 50

  /** A classification decision as the extension receives it. */
  datatype Decision = Decision(id: string, reviewRequired: seq<string>, applied: seq<string>)

  predicate HasWork(d: Decision) {
    |d.reviewRequired| > 0 || |d.applied| > 0
  }

  /** The items that do not carry the id. */
  function Without(items: seq<Decision>, id: string): seq<Decision> {
    if items == [] then []
    else Without(items[..|items| - 1], id) + if items[|items| - 1].id != id then [items[|items| - 1]] else []
  }

  /** The newest `n` items. */
  function Newest(items: seq<Decision>, n: nat): seq<Decision> {
    if |items| <= n then items else items[|items| - n..]
  }

  datatype Op = Buffer(d: Decision) | Resolve(id: string)

  /** The id an operation is about. */
  function OpId(op: Op): string {
    if op.Buffer? then op.d.id else op.id
  }

  /** What a handler writes back, given what it read. */
  function Rewritten(items: seq<Decision>, op: Op): seq<Decision> {
    match op
    case Buffer(d) => Newest(Without(items, d.id) + [d], REVIEW_CAP)
    case Resolve(id) => Without(items, id)
  }

  /** Whether the handler touches the store at all. */
  predicate Touches(op: Op) {
    op.Buffer? ==> HasWork(op.d)
  }

  /** The stored queue and its two handlers, each run without interruption. */
  class SessionStore {
    var queue: seq<Decision>

    constructor ()
      ensures queue == []
    {
      queue := [];
    }

    method BufferReview(payload: Decision)
      modifies this
      ensures queue == After(old(queue), Buffer(payload))
    {
      if HasWork(payload) {
        var items := queue;
        var deduped := Filter(items, payload.id);
        deduped := deduped + [payload];
        queue := if |deduped| <= REVIEW_CAP then deduped else deduped[|deduped| - REVIEW_CAP..];
      }
    }

    method ResolveReview(decisionId: string)
      modifies this
      ensures queue == After(old(queue), Resolve(decisionId))
    {
      queue := Filter(queue, decisionId);
    }

    static method Filter(items: seq<Decision>, id: string) returns (kept: seq<Decision>)
      ensures kept == Without(items, id)
    {
      kept := [];
      for i := 0 to |items|
        invariant kept == Without(items[..i], id)
      {
        assert items[..i + 1][..i] == items[..i];
        if items[i].id != id {
          kept := kept + [items[i]];
        }
      }
      assert items[..|items|] == items;
    }
  }

  /** The queue after a handler that nothing interrupts. */
  function After(items: seq<Decision>, op: Op): seq<Decision> {
    if Touches(op) then Rewritten(items, op) else items
  }

  // ---- what a rewrite keeps -----------------------------------------------------------------

  ghost predicate DistinctIds(items: seq<Decision>) {
    forall i, j :: 0 <= i < j < |items| ==> items[i].id != items[j].id
  }

  ghost predicate WellFormed(items: seq<Decision>) {
    DistinctIds(items) && |items| <= REVIEW_CAP
  }

  lemma {:induction false} WithoutFacts(items: seq<Decision>, id: string)
    ensures |Without(items, id)| <= |items|
    ensures forall d :: d in Without(items, id) <==> d in items && d.id != id
    ensures DistinctIds(items) ==> DistinctIds(Without(items, id))
  {
    if items != [] {
      var init, last := items[..|items| - 1], items[|items| - 1];
      WithoutFacts(init, id);
      assert items == init + [last];
      if DistinctIds(items) {
        KeptAreOthers(init, last, id);
      }
    }
  }

  lemma KeptAreOthers(init: seq<Decision>, last: Decision, id: string)
    requires DistinctIds(init + [last])
    requires forall d :: d in Without(init, id) <==> d in init && d.id != id
    ensures DistinctIds(init)
    ensures forall i :: 0 <= i < |Without(init, id)| ==> Without(init, id)[i].id != last.id
  {
    var items := init + [last];
    assert forall k :: 0 <= k < |init| ==> items[k] == init[k] && items[k].id != items[|init|].id;
    var kept := Without(init, id);
    forall i | 0 <= i < |kept|
      ensures kept[i].id != last.id
    {
      assert kept[i] in kept;
    }
  }

  lemma RewriteKeepsWellFormed(items: seq<Decision>, op: Op)
    requires WellFormed(items)
    ensures WellFormed(Rewritten(items, op))
  {
    WithoutFacts(items, OpId(op));
    var kept := Without(items, OpId(op));
    if op.Buffer? {
      forall i | 0 <= i < |kept|
        ensures kept[i].id != op.d.id
      {
        assert kept[i] in kept;
      }
      assert DistinctIds(kept + [op.d]);
    }
  }

  // ---- handlers that interleave ----------------------------------------------------------------

  /** A handler that has read the store and not yet written. */
  datatype Running = Running(op: Op, read: seq<Decision>)

  /** The store and the handlers under way, by handler number. */
  datatype Session = Session(queue: seq<Decision>, running: map<nat, Running>)

  /** One event: a handler starts and reads (a failed read gives the empty queue), or writes
      back (a failed write changes nothing) and ends. */
  datatype Event = Start(handler: nat, op: Op, readFails: bool) | Finish(handler: nat, writeFails: bool)

  function Step(s: Session, e: Event): Session {
    match e
    case Start(h, op, readFails) =>
      if h in s.running || !Touches(op) then s
      else s.(running := s.running[h := Running(op, if readFails then [] else s.queue)])
    case Finish(h, writeFails) =>
      if h !in s.running then s
      else Session(if writeFails then s.queue else Rewritten(s.running[h].read, s.running[h].op), s.running - {h})
  }

  function Run(s: Session, events: seq<Event>): Session {
    if events == [] then s else Step(Run(s, events[..|events| - 1]), events[|events| - 1])
  }

  const EMPTY: Session := Session([], map[])

  ghost predicate Safe(s: Session) {
    WellFormed(s.queue) && forall h :: h in s.running ==> WellFormed(s.running[h].read)
  }

  /** After any interleaving, failures included, the queue holds distinct decisions and at most
      the cap. */
  lemma {:induction false} EveryInterleavingIsSafe(events: seq<Event>)
    ensures Safe(Run(EMPTY, events))
  {
    if events != [] {
      var s, e := Run(EMPTY, events[..|events| - 1]), events[|events| - 1];
      EveryInterleavingIsSafe(events[..|events| - 1]);
      if e.Finish? && e.handler in s.running {
        RewriteKeepsWellFormed(s.running[e.handler].read, s.running[e.handler].op);
      }
    }
  }

  /** The queue after handlers that run one after another. */
  function Sequential(ops: seq<Op>): seq<Decision> {
    if ops == [] then [] else After(Sequential(ops[..|ops| - 1]), ops[|ops| - 1])
  }

  /** The operations in the order of their writes. */
  function Finished(s: Session, events: seq<Event>): seq<Op> {
    if events == [] then []
    else
      var init, e := events[..|events| - 1], events[|events| - 1];
      var before := Run(s, init);
      Finished(s, init) + if e.Finish? && e.handler in before.running then [before.running[e.handler].op] else []
  }

  /** No write fails, and every write finds the store as its handler read it. */
  ghost predicate WritesFindWhatWasRead(s: Session, events: seq<Event>) {
    forall i :: 0 <= i < |events| && events[i].Finish? && events[i].handler in Run(s, events[..i]).running ==>
      !events[i].writeFails
      && Run(s, events[..i]).running[events[i].handler].read == Run(s, events[..i]).queue
  }

  lemma {:induction false} RunningTouches(events: seq<Event>, h: nat)
    requires h in Run(EMPTY, events).running
    ensures Touches(Run(EMPTY, events).running[h].op)
  {
    if events != [] {
      var init := events[..|events| - 1];
      if h in Run(EMPTY, init).running {
        RunningTouches(init, h);
      }
    }
  }

  /** Interleaved handlers leave the queue their operations leave one after another, in the
      order of the writes, as long as every write finds the queue as its handler read it. */
  lemma {:induction false} InterleavingIsSequential(events: seq<Event>)
    requires WritesFindWhatWasRead(EMPTY, events)
    ensures Run(EMPTY, events).queue == Sequential(Finished(EMPTY, events))
  {
    if events != [] {
      var n := |events| - 1;
      var init, e := events[..n], events[n];
      forall i | 0 <= i < |init|
        ensures init[..i] == events[..i]
      {
      }
      InterleavingIsSequential(init);
      var before := Run(EMPTY, init);
      if e.Finish? && e.handler in before.running {
        RunningTouches(init, e.handler);
        assert events[n].Finish? && !events[n].writeFails && before.running[e.handler].read == before.queue;
        var ops, op := Finished(EMPTY, init), before.running[e.handler].op;
        assert Finished(EMPTY, events) == ops + [op];
        assert (ops + [op])[..|ops|] == ops;
      } else {
        assert Finished(EMPTY, events) == Finished(EMPTY, init);
      }
    }
  }

  lemma SequentialOneMore(ops: seq<Op>, op: Op)
    ensures Sequential(ops + [op]) == After(Sequential(ops), op)
  {
    assert (ops + [op])[..|ops|] == ops;
  }

  lemma WithoutOther(d: Decision, id: string)
    requires d.id != id
    ensures Without([], id) == [] && Without([], d.id) == [] && Without([d], id) == [d]
  {
    assert [d][..0] == [];
  }

  lemma SequentialOfTwo(a: Decision, b: Decision)
    requires HasWork(a) && HasWork(b) && a.id != b.id
    ensures Sequential([] + [Buffer(a)] + [Buffer(b)]) == [a, b]
    ensures Rewritten([], Buffer(a)) == [a] && Rewritten([], Buffer(b)) == [b]
  {
    hide Without;
    WithoutOther(a, b.id);
    WithoutOther(b, a.id);
    SequentialOneMore([], Buffer(a));
    SequentialOneMore([] + [Buffer(a)], Buffer(b));
    assert Sequential([]) == [];
    assert [] + [a] == [a] && [a] + [b] == [a, b];
  }

  // ---- what a write loses ---------------------------------------------------------------------

  /** A full queue that a new decision joins. */
  ghost predicate Evicts(read: seq<Decision>, op: Op) {
    op.Buffer? && |read| == 50 && forall x :: x in read ==> x.id != op.d.id
  }

  /** A decision of another id is lost by a write exactly when its handler had not read it, or
      had read it as the oldest of a full queue that a new decision joins. */
  lemma LostIff(s: Session, h: nat, x: Decision)
    requires Safe(s) && h in s.running && x in s.queue && x.id != OpId(s.running[h].op)
    ensures x !in Step(s, Finish(h, false)).queue
       <==> x !in s.running[h].read
            || (Evicts(s.running[h].read, s.running[h].op) && x == s.running[h].read[0])
  {
    var Running(op, read) := s.running[h];
    WithoutFacts(read, OpId(op));
    if op.Buffer? {
      hide Without;
      var kept := Without(read, op.d.id);
      if Evicts(read, op) {
        assert forall k :: 0 <= k < |read| ==> read[k] in read;
        NothingToRemove(read, op.d.id);
        OldestIsEvicted(read, op.d, x);
      } else if |kept| == REVIEW_CAP {
        SomethingRemoved(read, op.d.id);
        assert false;
      }
    }
  }

  lemma {:induction false} NothingToRemove(items: seq<Decision>, id: string)
    requires forall k :: 0 <= k < |items| ==> items[k].id != id
    ensures Without(items, id) == items
  {
    if items != [] {
      var n := |items| - 1;
      NothingToRemove(items[..n], id);
      assert items == items[..n] + [items[n]];
    }
  }

  lemma {:induction false} SomethingRemoved(items: seq<Decision>, id: string)
    requires |Without(items, id)| == |items|
    ensures forall x :: x in items ==> x.id != id
  {
    if items != [] {
      var init := items[..|items| - 1];
      WithoutFacts(init, id);
      SomethingRemoved(init, id);
      assert items == init + [items[|items| - 1]];
    }
  }

  lemma OldestIsEvicted(read: seq<Decision>, d: Decision, x: Decision)
    requires DistinctIds(read) && |read| == REVIEW_CAP && x.id != d.id
    ensures x in Newest(read + [d], REVIEW_CAP) <==> x in read && x != read[0]
  {
    var kept := Newest(read + [d], REVIEW_CAP);
    assert kept == read[1..] + [d];
    assert x in kept <==> x in read[1..];
    assert read == [read[0]] + read[1..];
    if x in read[1..] {
      var k :| 0 <= k < |read| - 1 && read[1..][k] == x;
      assert read[0].id != read[k + 1].id;
    }
  }

  /** A handler whose read fails replaces whatever the queue holds by its own decision, even
      with no other handler under way. */
  lemma FailedReadWipesTheQueue(s: Session, h: nat, d: Decision)
    requires h !in s.running && HasWork(d)
    ensures Step(Step(s, Start(h, Buffer(d), true)), Finish(h, false)).queue == [d]
  {
    assert Without([], d.id) == [];
  }

  // ---- the schedules that lose nothing ----------------------------------------------------------

  /** A handler that starts at `i` can write at `j`: nothing of the same number ends between. */
  ghost predicate Pair(events: seq<Event>, i: int, j: int) {
    && 0 <= i < j < |events| && events[i].Start? && events[j].Finish? && events[i].handler == events[j].handler
    && forall m :: i < m < j && events[m].Finish? ==> events[m].handler != events[i].handler
  }

  /** No write fails, none comes between another handler's read and write, and a read fails
      only while nothing has been written. */
  ghost predicate Undisturbed(events: seq<Event>) {
    forall i, j :: Pair(events, i, j) ==>
      !events[j].writeFails
      && forall i2, k :: Pair(events, i2, k) && k < j ==> !events[i].readFails && k < i
  }

  /** The same events up to what the handlers do. */
  ghost predicate SameSchedule(a: seq<Event>, b: seq<Event>) {
    && |a| == |b|
    && forall m :: 0 <= m < |a| ==>
         match a[m]
         case Start(h, _, readFails) => b[m].Start? && b[m].handler == h && b[m].readFails == readFails
         case Finish(_, _) => a[m] == b[m]
  }

  ghost predicate LosesNothing(events: seq<Event>) {
    Run(EMPTY, events).queue == Sequential(Finished(EMPTY, events))
  }

  /** A handler under way read the queue when it started. */
  lemma {:induction false} ReadAtStart(events: seq<Event>, n: nat, h: nat) returns (i: nat)
    requires n <= |events| && h in Run(EMPTY, events[..n]).running
    ensures i < n && events[i].Start? && events[i].handler == h
    ensures forall m :: i < m < n && events[m].Finish? ==> events[m].handler != h
    ensures Run(EMPTY, events[..n]).running[h].read
         == if events[i].readFails then [] else Run(EMPTY, events[..i]).queue
  {
    assert events[..n][..n - 1] == events[..n - 1];
    if h in Run(EMPTY, events[..n - 1]).running {
      i := ReadAtStart(events, n - 1, h);
    } else {
      i := n - 1;
    }
  }

  /** Only the write of a handler under way changes the queue. */
  lemma {:induction false} QueueStays(events: seq<Event>, lo: nat, hi: nat)
    requires lo <= hi <= |events|
    requires forall i, k :: Pair(events, i, k) && lo <= k < hi ==> events[k].writeFails
    ensures Run(EMPTY, events[..hi]).queue == Run(EMPTY, events[..lo]).queue
  {
    if lo < hi {
      QueueStays(events, lo, hi - 1);
      var before, e := Run(EMPTY, events[..hi - 1]), events[hi - 1];
      assert events[..hi][..hi - 1] == events[..hi - 1];
      if e.Finish? && e.handler in before.running {
        var i := ReadAtStart(events, hi - 1, e.handler);
        assert Pair(events, i, hi - 1);
      }
    }
  }

  lemma WriteFindsItsRead(events: seq<Event>, j: nat)
    requires Undisturbed(events) && j < |events| && events[j].Finish?
    requires events[j].handler in Run(EMPTY, events[..j]).running
    ensures !events[j].writeFails
    ensures Run(EMPTY, events[..j]).running[events[j].handler].read == Run(EMPTY, events[..j]).queue
  {
    var i := ReadAtStart(events, j, events[j].handler);
    assert Pair(events, i, j);
    QueueStays(events, if events[i].readFails then 0 else i, j);
  }

  lemma UndisturbedLosesNothing(events: seq<Event>)
    requires Undisturbed(events)
    ensures LosesNothing(events)
  {
    forall j | 0 <= j < |events| && events[j].Finish? && events[j].handler in Run(EMPTY, events[..j]).running
      ensures !events[j].writeFails
      ensures Run(EMPTY, events[..j]).running[events[j].handler].read == Run(EMPTY, events[..j]).queue
    {
      WriteFindsItsRead(events, j);
    }
    InterleavingIsSequential(events);
  }

  const IDLE: Op := Buffer(Decision("", [], []))

  /** The schedule with one handler that buffers `a`, one that buffers `b`, and no other that
      touches the queue. */
  ghost function TwoBuffer(events: seq<Event>, first: nat, a: Decision, second: nat, b: Decision): seq<Event> {
    seq(|events|, m requires 0 <= m < |events| =>
      match events[m]
      case Start(h, _, readFails) =>
        Start(h, if m == first then Buffer(a) else if m == second then Buffer(b) else IDLE, readFails)
      case Finish(h, writeFails) => Finish(h, writeFails))
  }

  lemma SameScheduleBothWays(a: seq<Event>, b: seq<Event>)
    requires SameSchedule(a, b)
    ensures SameSchedule(b, a)
    ensures forall i, j :: Pair(a, i, j) <==> Pair(b, i, j)
  {
    forall i, j
      ensures Pair(a, i, j) <==> Pair(b, i, j)
    {
      if 0 <= i < j < |a| {
        assert forall m :: i < m < j ==> (a[m].Finish? <==> b[m].Finish?) && a[m].handler == b[m].handler;
      }
    }
  }

  lemma SameScheduleUndisturbed(a: seq<Event>, b: seq<Event>)
    requires SameSchedule(a, b) && Undisturbed(a)
    ensures Undisturbed(b)
  {
    SameScheduleBothWays(a, b);
    forall i, j | Pair(b, i, j)
      ensures !b[j].writeFails
      ensures forall i2, k :: Pair(b, i2, k) && k < j ==> !b[i].readFails && k < i
    {
      assert Pair(a, i, j);
    }
  }

  lemma RunPrefix(events: seq<Event>, n: nat)
    requires 0 < n <= |events|
    ensures var s, e := Run(EMPTY, events[..n - 1]), events[n - 1];
            && Run(EMPTY, events[..n]) == Step(s, e)
            && Finished(EMPTY, events[..n])
               == Finished(EMPTY, events[..n - 1])
                  + if e.Finish? && e.handler in s.running then [s.running[e.handler].op] else []
  {
    assert events[..n][..n - 1] == events[..n - 1];
  }

  lemma SoleBuffer(a: Decision)
    ensures Rewritten([], Buffer(a)) == [a]
  {
    assert Without([], a.id) == [];
    assert [] + [a] == [a];
  }

  /** The handlers under way after `n` events, when one runs over (i, j] and one over (p, q]. */
  ghost function UnderWay(h: nat, i: int, j: int, a: Decision, g: nat, p: int, q: int, b: Decision, n: int)
    : map<nat, Running>
  {
    (if i < n <= j then map[h := Running(Buffer(a), [])] else map[])
    + if p < n <= q then map[g := Running(Buffer(b), [])] else map[]
  }

  /** A write at `j` disturbs the handler of the pair (p, q), which read before it, or failed
      to read. */
  ghost predicate Disturbs(events: seq<Event>, i: int, j: int, p: int, q: int) {
    Pair(events, i, j) && Pair(events, p, q) && j < q && (events[p].readFails || p <= j)
  }

  /** The state after `n` events, the writes at `j` and `q` not failing. */
  ghost function Expected(events: seq<Event>, i: int, j: int, a: Decision, p: int, q: int, b: Decision, n: int): Session
    requires Pair(events, i, j) && Pair(events, p, q)
  {
    Session(if n <= j then [] else if n <= q then [a] else [b],
            UnderWay(events[i].handler, i, j, a, events[p].handler, p, q, b, n))
  }

  /** The disturbed handler overwrites what the other one wrote. */
  lemma ExpectedStep(events: seq<Event>, i: nat, j: nat, a: Decision, p: nat, q: nat, b: Decision, n: nat)
    requires Disturbs(events, i, j, p, q) && HasWork(a) && HasWork(b)
    requires !events[j].writeFails && !events[q].writeFails && 0 < n <= |events|
    ensures Step(Expected(events, i, j, a, p, q, b, n - 1), TwoBuffer(events, i, a, p, b)[n - 1])
         == Expected(events, i, j, a, p, q, b, n)
  {
    hide Rewritten;
    SoleBuffer(a);
    SoleBuffer(b);
    var m := n - 1;
    var h, g := events[i].handler, events[p].handler;
    var before, after := UnderWay(h, i, j, a, g, p, q, b, m), UnderWay(h, i, j, a, g, p, q, b, n);
    if m == i {
      assert before[h := Running(Buffer(a), [])] == after;
    } else if m == j {
      assert before - {h} == after;
    } else if m == p {
      assert before[g := Running(Buffer(b), [])] == after;
    } else if m == q {
      assert before - {g} == after;
    } else {
      assert before == after;
    }
  }

  /** Only the two handlers' own ends write anything. */
  lemma ExpectedWrites(events: seq<Event>, i: nat, j: nat, a: Decision, p: nat, q: nat, b: Decision, m: nat)
    requires Disturbs(events, i, j, p, q) && m < |events|
    ensures var s, e := Expected(events, i, j, a, p, q, b, m), TwoBuffer(events, i, a, p, b)[m];
            && (e.Finish? && e.handler in s.running <==> m == j || m == q)
            && (m == j ==> s.running[e.handler].op == Buffer(a))
            && (m == q ==> s.running[e.handler].op == Buffer(b))
  {
  }

  /** The first handler's operation once `m` is past `j`, then the second's once past `q`. */
  function Ended(a: Decision, j: int, b: Decision, q: int, m: int): seq<Op> {
    if m <= j then [] else if m <= q then [Buffer(a)] else [Buffer(a), Buffer(b)]
  }

  lemma OneMoreEnded(a: Decision, j: int, b: Decision, q: int, m: int)
    requires j < q
    ensures Ended(a, j, b, q, m) + (if m == j then [Buffer(a)] else if m == q then [Buffer(b)] else [])
         == Ended(a, j, b, q, m + 1)
  {
  }

  lemma NothingStarted(events: seq<Event>, i: nat, j: nat, a: Decision, p: nat, q: nat, b: Decision)
    requires Pair(events, i, j) && Pair(events, p, q)
    ensures Expected(events, i, j, a, p, q, b, 0) == EMPTY && Ended(a, j, b, q, 0) == []
  {
    assert UnderWay(events[i].handler, i, j, a, events[p].handler, p, q, b, 0) == map[];
  }

  /** After `n` events the state and the finished operations are the expected ones. */
  ghost predicate AsExpected(
      events: seq<Event>, i: nat, j: nat, a: Decision, p: nat, q: nat, b: Decision, n: nat)
    requires Pair(events, i, j) && Pair(events, p, q) && n <= |events|
  {
    var some := TwoBuffer(events, i, a, p, b)[..n];
    Run(EMPTY, some) == Expected(events, i, j, a, p, q, b, n) && Finished(EMPTY, some) == Ended(a, j, b, q, n)
  }

  lemma AsExpectedAtFirst(events: seq<Event>, i: nat, j: nat, a: Decision, p: nat, q: nat, b: Decision)
    requires Pair(events, i, j) && Pair(events, p, q)
    ensures AsExpected(events, i, j, a, p, q, b, 0)
  {
    NothingStarted(events, i, j, a, p, q, b);
    NoEvents(TwoBuffer(events, i, a, p, b));
    hide Expected;
    hide Ended;
    hide Run;
    hide Finished;
    hide Pair;
  }

  lemma AsExpectedNext(
      events: seq<Event>, i: nat, j: nat, a: Decision, p: nat, q: nat, b: Decision, n: nat)
    requires Disturbs(events, i, j, p, q) && HasWork(a) && HasWork(b)
    requires !events[j].writeFails && !events[q].writeFails && 0 < n <= |events|
    requires AsExpected(events, i, j, a, p, q, b, n - 1)
    ensures AsExpected(events, i, j, a, p, q, b, n)
  {
    RunPrefix(TwoBuffer(events, i, a, p, b), n);
    ExpectedStep(events, i, j, a, p, q, b, n);
    ExpectedWrites(events, i, j, a, p, q, b, n - 1);
    OneMoreEnded(a, j, b, q, n - 1);
    hide Pair;
    hide Expected;
    hide Ended;
    hide Run;
    hide Finished;
    hide Step;
    hide TwoBuffer;
  }

  lemma {:induction false} TwoHandlers(
      events: seq<Event>, i: nat, j: nat, a: Decision, p: nat, q: nat, b: Decision, n: nat)
    requires Disturbs(events, i, j, p, q) && HasWork(a) && HasWork(b)
    requires !events[j].writeFails && !events[q].writeFails && n <= |events|
    ensures AsExpected(events, i, j, a, p, q, b, n)
  {
    hide AsExpected;
    hide HasWork;
    if n == 0 {
      AsExpectedAtFirst(events, i, j, a, p, q, b);
    } else {
      TwoHandlers(events, i, j, a, p, q, b, n - 1);
      AsExpectedNext(events, i, j, a, p, q, b, n);
    }
  }

  lemma NoEvents(events: seq<Event>)
    ensures Run(EMPTY, events[..0]) == EMPTY && Finished(EMPTY, events[..0]) == []
  {
  }

  /** The state after `n` events when only the handler of a pair does anything. */
  ghost function ExpectedAlone(events: seq<Event>, i: int, j: int, a: Decision, n: int): Session
    requires Pair(events, i, j)
  {
    Session(if n <= j || events[j].writeFails then [] else [a],
            if i < n <= j then map[events[i].handler := Running(Buffer(a), [])] else map[])
  }

  lemma AloneStep(events: seq<Event>, i: nat, j: nat, a: Decision, m: nat)
    requires Pair(events, i, j) && HasWork(a) && m < |events|
    ensures var s, e := ExpectedAlone(events, i, j, a, m), TwoBuffer(events, i, a, |events|, a)[m];
            && Step(s, e) == ExpectedAlone(events, i, j, a, m + 1)
            && (e.Finish? && e.handler in s.running <==> m == j)
            && (m == j ==> s.running[e.handler].op == Buffer(a))
  {
    SoleBuffer(a);
    hide Rewritten;
    if m == j {
      assert map[events[i].handler := Running(Buffer(a), [])] - {events[i].handler} == map[];
    }
  }

  lemma {:induction false} OneHandler(events: seq<Event>, i: nat, j: nat, a: Decision, n: nat)
    requires Pair(events, i, j) && HasWork(a) && n <= |events|
    ensures var some := TwoBuffer(events, i, a, |events|, a)[..n];
            && Run(EMPTY, some) == ExpectedAlone(events, i, j, a, n)
            && Finished(EMPTY, some) == Ended(a, j, a, |events|, n)
  {
    var all := TwoBuffer(events, i, a, |events|, a);
    if n == 0 {
      assert all[..0] == [];
    } else {
      hide *;
      OneHandler(events, i, j, a, n - 1);
      RunPrefix(all, n);
      AloneStep(events, i, j, a, n - 1);
      hide Run;
      hide Finished;
      hide Step;
      hide ExpectedAlone;
      hide TwoBuffer;
    }
  }

  /** A write that fails loses its own decision. */
  lemma FailedWriteLoses(events: seq<Event>, i: nat, j: nat, a: Decision)
    requires Pair(events, i, j) && events[j].writeFails && HasWork(a)
    ensures !LosesNothing(TwoBuffer(events, i, a, |events|, a))
  {
    var all := TwoBuffer(events, i, a, |events|, a);
    assert all[..|events|] == all;
    OneHandler(events, i, j, a, |events|);
    SequentialOneMore([], Buffer(a));
    SoleBuffer(a);
    assert [] + [Buffer(a)] == [Buffer(a)];
    hide Run;
    hide Finished;
    hide Rewritten;
  }

  /** A disturbed write drops what the other handler added. */
  lemma OverlappingWritesLoseADecision(
      events: seq<Event>, i: nat, j: nat, a: Decision, p: nat, q: nat, b: Decision)
    requires Disturbs(events, i, j, p, q) && !events[j].writeFails && !events[q].writeFails
    requires HasWork(a) && HasWork(b) && a.id != b.id
    ensures var all := TwoBuffer(events, i, a, p, b);
            Run(EMPTY, all).queue == [b] && Sequential(Finished(EMPTY, all)) == [a, b]
  {
    var all := TwoBuffer(events, i, a, p, b);
    assert all[..|events|] == all;
    TwoHandlers(events, i, j, a, p, q, b, |events|);
    SequentialOfTwo(a, b);
    assert [] + [Buffer(a)] + [Buffer(b)] == [Buffer(a), Buffer(b)];
    hide Run;
    hide Finished;
  }

  lemma TwoBufferIsSameSchedule(events: seq<Event>, first: nat, a: Decision, second: nat, b: Decision)
    ensures SameSchedule(events, TwoBuffer(events, first, a, second, b))
  {
  }

  lemma DisturbedCanLose(events: seq<Event>)
    requires !Undisturbed(events)
    ensures exists other :: SameSchedule(events, other) && !LosesNothing(other)
  {
    var a, b := Decision("a", ["x"], []), Decision("b", ["x"], []);
    var p, q :| Pair(events, p, q)
      && (events[q].writeFails
          || exists i, j :: Pair(events, i, j) && j < q && (events[p].readFails || p <= j));
    if events[q].writeFails {
      TwoBufferIsSameSchedule(events, p, a, |events|, a);
      FailedWriteLoses(events, p, q, a);
    } else {
      var i, j :| Pair(events, i, j) && j < q && (events[p].readFails || p <= j);
      if events[j].writeFails {
        TwoBufferIsSameSchedule(events, i, a, |events|, a);
        FailedWriteLoses(events, i, j, a);
      } else {
        TwoBufferIsSameSchedule(events, i, a, p, b);
        assert "a"[0] != "b"[0];
        OverlappingWritesLoseADecision(events, i, j, a, p, q, b);
      }
    }
  }

  /** Whatever the handlers do, the queue is that of their operations one after another, if and
      only if the schedule is undisturbed. */
  lemma NothingIsLostIff(events: seq<Event>)
    ensures Undisturbed(events) <==> forall other :: SameSchedule(events, other) ==> LosesNothing(other)
  {
    if Undisturbed(events) {
      forall other | SameSchedule(events, other)
        ensures LosesNothing(other)
      {
        SameScheduleUndisturbed(events, other);
        UndisturbedLosesNothing(other);
      }
    } else {
      DisturbedCanLose(events);
    }
  }

  // ---- the cap against a log that never evicts -------------------------------------------------

  function LogAfter(items: seq<Decision>, op: Op): seq<Decision> {
    if !Touches(op) then items
    else match op
      case Buffer(d) => Without(items, d.id) + [d]
      case Resolve(id) => Without(items, id)
  }

  /** The deduplicated log that keeps everything. */
  function Log(ops: seq<Op>): seq<Decision> {
    if ops == [] then [] else LogAfter(Log(ops[..|ops| - 1]), ops[|ops| - 1])
  }

  ghost predicate IsSuffix(s: seq<Decision>, of: seq<Decision>) {
    |s| <= |of| && s == of[|of| - |s|..]
  }

  lemma {:induction false} WithoutOfConcat(a: seq<Decision>, b: seq<Decision>, id: string)
    ensures Without(a + b, id) == Without(a, id) + Without(b, id)
  {
    if b == [] {
      assert a + b == a;
    } else {
      assert (a + b)[..|a + b| - 1] == a + b[..|b| - 1];
      WithoutOfConcat(a, b[..|b| - 1], id);
    }
  }

  lemma WithoutKeepsSuffix(s: seq<Decision>, of: seq<Decision>, id: string)
    requires IsSuffix(s, of)
    ensures IsSuffix(Without(s, id), Without(of, id))
  {
    var front := of[..|of| - |s|];
    assert of == front + s;
    WithoutOfConcat(front, s, id);
  }

  /** The capped queue is always a suffix of the log that never evicts, newest last. */
  lemma {:induction false} QueueIsSuffixOfLog(ops: seq<Op>)
    ensures IsSuffix(Sequential(ops), Log(ops))
  {
    if ops != [] {
      var init, op := ops[..|ops| - 1], ops[|ops| - 1];
      QueueIsSuffixOfLog(init);
      WithoutKeepsSuffix(Sequential(init), Log(init), OpId(op));
    }
  }

  lemma {:induction false} LogIsDistinct(ops: seq<Op>)
    ensures DistinctIds(Log(ops))
  {
    if ops != [] {
      var init, op := ops[..|ops| - 1], ops[|ops| - 1];
      LogIsDistinct(init);
      WithoutFacts(Log(init), OpId(op));
      if op.Buffer? {
        AppendKeepsDistinct(Log(init), op.d);
      }
    }
  }

  lemma AppendKeepsDistinct(items: seq<Decision>, d: Decision)
    requires DistinctIds(items)
    ensures DistinctIds(Without(items, d.id) + [d])
  {
    WithoutFacts(items, d.id);
    var kept := Without(items, d.id);
    forall i | 0 <= i < |kept|
      ensures kept[i].id != d.id
    {
      assert kept[i] in kept;
    }
  }

  /** Removing an id from distinct decisions removes at most one. */
  lemma {:induction false} WithoutDropsAtMostOne(items: seq<Decision>, id: string)
    requires DistinctIds(items)
    ensures |Without(items, id)| >= |items| - 1
    ensures (forall i :: 0 <= i < |items| ==> items[i].id != id) ==> Without(items, id) == items
  {
    if items != [] {
      var init := items[..|items| - 1];
      WithoutDropsAtMostOne(init, id);
      assert items == init + [items[|items| - 1]];
    }
  }

  lemma NewestOfSuffix(s: seq<Decision>, of: seq<Decision>, d: Decision)
    requires IsSuffix(s, of) && |s| >= REVIEW_CAP - 1
    ensures Newest(s + [d], REVIEW_CAP) == Newest(of + [d], REVIEW_CAP)
  {
    var n := REVIEW_CAP - 1;
    assert s[|s| - n..] == of[|of| - n..];
    assert (s + [d])[|s| - n..] == s[|s| - n..] + [d];
    assert (of + [d])[|of| - n..] == of[|of| - n..] + [d];
  }

  /** Capping before a decision is buffered or only after it gives the same queue. */
  lemma CapCommutes(log: seq<Decision>, d: Decision)
    requires DistinctIds(log)
    ensures Newest(Without(Newest(log, REVIEW_CAP), d.id) + [d], REVIEW_CAP)
         == Newest(Without(log, d.id) + [d], REVIEW_CAP)
  {
    var q := Newest(log, REVIEW_CAP);
    if |log| > REVIEW_CAP {
      assert IsSuffix(q, log);
      WithoutKeepsSuffix(q, log, d.id);
      assert DistinctIds(q) by {
        assert forall i :: 0 <= i < |q| ==> q[i] == log[|log| - REVIEW_CAP + i];
      }
      WithoutDropsAtMostOne(q, d.id);
      hide Without;
      hide DistinctIds;
      NewestOfSuffix(Without(q, d.id), Without(log, d.id), d);
    }
  }

  /** With nothing resolved, the queue is exactly the newest fifty of the log. */
  lemma {:induction false} QueueIsNewestOfLog(ops: seq<Op>)
    requires forall i :: 0 <= i < |ops| ==> ops[i].Buffer?
    ensures Sequential(ops) == Newest(Log(ops), 50)
  {
    if ops != [] {
      var init, op := ops[..|ops| - 1], ops[|ops| - 1];
      QueueIsNewestOfLog(init);
      LogIsDistinct(init);
      CapCommutes(Log(init), op.d);
    }
  }

  /** A decision with an action to review or one to undo is buffered, last; any other leaves the queue
      as it is. */
  lemma BufferedIffWork(items: seq<Decision>, d: Decision)
    ensures d.reviewRequired != [] || d.applied != [] ==>
      var after := After(items, Buffer(d)); after != [] && after[|after| - 1] == d && |after| <= 50
    ensures d.reviewRequired == [] && d.applied == [] ==> After(items, Buffer(d)) == items
  {
  }
}
