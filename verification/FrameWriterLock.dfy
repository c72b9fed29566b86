/** The single-writer guard under concurrency: any number of threads call `write`, one at a time
    holds the lock, and the output takes the holder's bytes in pieces of any size. */
module FrameWriterLock {
  import opened Common
  import opened Protocol
  import opened NativeStdio

  /** One call of `write` that has had the lock: how many bytes of its frame reached the wire,
      and whether the call reported success. */
  datatype Turn = Turn(thread: nat, frame: Frame, written: nat, acked: bool)

  /** `issued` lists the calls in the order they were made, `log` the finished turns in lock
      order; a thread is in `waiting` while it is blocked on the lock. */
  datatype State = State(
    wire: seq<Byte>, log: seq<Turn>, holder: Option<Turn>,
    waiting: map<nat, Frame>, issued: seq<(nat, Frame)>)

  const START: State := State([], [], None, map[], [])

  datatype Step =
    | Call(thread: nat, frame: Frame)
    | Acquire(next: nat)
    | Refuse
    | Put(count: nat)
    | Fail
    | Finish

  /** The bytes a call puts on the wire when nothing goes wrong. */
  function Image(c: Codec, frame: Frame): seq<Byte> {
    if Fits(c, frame) then Framed(c.order, c.encode(frame).value) else []
  }

  predicate Busy(s: State, t: nat) {
    t in s.waiting || (s.holder.Some? && s.holder.value.thread == t)
  }

  /** Whether a step can be taken. A call blocks its thread until its turn is over. `Fail` is an
      I/O error or a panic at any point of the write or of the flush: either way the lock is
      released, and a poisoned lock is taken again as if nothing had happened. */
  predicate Enabled(c: Codec, s: State, step: Step) {
    match step
    case Call(t, _) => !Busy(s, t)
    case Acquire(t) => t in s.waiting && s.holder.None?
    case Refuse => s.holder.Some? && !Fits(c, s.holder.value.frame)
    case Put(k) => s.holder.Some? && s.holder.value.written + k <= |Image(c, s.holder.value.frame)|
    case Fail => s.holder.Some?
    case Finish => s.holder.Some? && Fits(c, s.holder.value.frame)
                   && s.holder.value.written == |Image(c, s.holder.value.frame)|
  }

  function Next(c: Codec, s: State, step: Step): State
    requires Enabled(c, s, step)
  {
    match step
    case Call(t, frame) => s.(waiting := s.waiting[t := frame], issued := s.issued + [(t, frame)])
    case Acquire(t) => s.(holder := Some(Turn(t, s.waiting[t], 0, false)), waiting := s.waiting - {t})
    case Refuse => s.(log := s.log + [s.holder.value], holder := None)
    case Put(k) =>
      var turn := s.holder.value;
      s.(wire := s.wire + Image(c, turn.frame)[turn.written..turn.written + k],
         holder := Some(turn.(written := turn.written + k)))
    case Fail => s.(log := s.log + [s.holder.value], holder := None)
    case Finish => s.(log := s.log + [s.holder.value.(acked := true)], holder := None)
  }

  /** The state a list of steps leads to, or None when one of them is not enabled. */
  function After(c: Codec, steps: seq<Step>): Option<State> {
    if steps == [] then Some(START)
    else
      var n := |steps| - 1;
      match After(c, steps[..n])
      case None => None
      case Some(s) => if Enabled(c, s, steps[n]) then Some(Next(c, s, steps[n])) else None
  }

  // ---- what every run keeps ---------------------------------------------------------------

  /** The bytes a turn left on the wire. */
  function Left(c: Codec, turn: Turn): seq<Byte> {
    if turn.written <= |Image(c, turn.frame)| then Image(c, turn.frame)[..turn.written] else []
  }

  function LeftBy(c: Codec, log: seq<Turn>): seq<Byte> {
    if log == [] then [] else LeftBy(c, log[..|log| - 1]) + Left(c, log[|log| - 1])
  }

  predicate Possible(c: Codec, turn: Turn) {
    turn.written <= |Image(c, turn.frame)| && (turn.acked ==> Whole(c, turn))
  }

  /** The turn put its whole frame on the wire. */
  predicate Whole(c: Codec, turn: Turn) {
    Fits(c, turn.frame) && turn.written == |Image(c, turn.frame)|
  }

  /** The frames a thread has passed to `write`, oldest first. */
  function CallsOf(t: nat, issued: seq<(nat, Frame)>): seq<Frame> {
    if issued == [] then []
    else
      var n := |issued| - 1;
      CallsOf(t, issued[..n]) + if issued[n].0 == t then [issued[n].1] else []
  }

  function TurnsOf(t: nat, log: seq<Turn>): seq<Frame> {
    if log == [] then []
    else
      var n := |log| - 1;
      TurnsOf(t, log[..n]) + if log[n].thread == t then [log[n].frame] else []
  }

  /** The call a thread is in, if any. */
  function Underway(t: nat, s: State): seq<Frame> {
    if s.holder.Some? && s.holder.value.thread == t then [s.holder.value.frame]
    else if t in s.waiting then [s.waiting[t]]
    else []
  }

  /** The wire is what the finished turns left, in lock order, and then the holder's bytes;
      nobody else's. */
  ghost predicate WireIsTurns(c: Codec, s: State) {
    && s.wire == LeftBy(c, s.log) + (if s.holder.Some? then Left(c, s.holder.value) else [])
    && (forall k :: 0 <= k < |s.log| ==> Possible(c, s.log[k]))
    && (s.holder.Some? ==> Possible(c, s.holder.value) && !s.holder.value.acked)
  }

  /** A thread's turns come in the order of its calls. */
  ghost predicate InOrder(s: State) {
    && (s.holder.Some? ==> s.holder.value.thread !in s.waiting)
    && forall t: nat :: CallsOf(t, s.issued) == TurnsOf(t, s.log) + Underway(t, s)
  }

  lemma LeftBySnoc(c: Codec, log: seq<Turn>, turn: Turn)
    ensures LeftBy(c, log + [turn]) == LeftBy(c, log) + Left(c, turn)
  {
    assert (log + [turn])[..|log|] == log;
  }

  lemma OnePiece(before: seq<Byte>, image: seq<Byte>, i: nat, j: nat)
    requires i <= j <= |image|
    ensures before + image[..i] + image[i..j] == before + image[..j]
  {
    assert image[..i] + image[i..j] == image[..j];
  }

  lemma PutStep(c: Codec, s: State, k: nat)
    requires WireIsTurns(c, s) && Enabled(c, s, Put(k))
    ensures WireIsTurns(c, Next(c, s, Put(k)))
  {
    hide LeftBy;
    var turn := s.holder.value;
    OnePiece(LeftBy(c, s.log), Image(c, turn.frame), turn.written, turn.written + k);
    hide Image;
  }

  lemma EndStep(c: Codec, s: State, turn: Turn)
    requires WireIsTurns(c, s) && s.holder.Some? && turn == s.holder.value.(acked := turn.acked) && Possible(c, turn)
    ensures WireIsTurns(c, s.(log := s.log + [turn], holder := None))
  {
    hide Possible;
    LeftBySnoc(c, s.log, turn);
    assert Left(c, turn) == Left(c, s.holder.value);
    hide Left;
    hide LeftBy;
    hide Image;
  }

  lemma WireStep(c: Codec, s: State, step: Step)
    requires WireIsTurns(c, s) && Enabled(c, s, step)
    ensures WireIsTurns(c, Next(c, s, step))
  {
    hide Image;
    hide LeftBy;
    match step {
      case Call(_, _) =>
      case Acquire(_) =>
      case Refuse => EndStep(c, s, s.holder.value);
      case Put(k) => PutStep(c, s, k);
      case Fail => EndStep(c, s, s.holder.value);
      case Finish => EndStep(c, s, s.holder.value.(acked := true));
    }
  }

  lemma OneMoreCall(t: nat, issued: seq<(nat, Frame)>, call: (nat, Frame))
    ensures CallsOf(t, issued + [call]) == CallsOf(t, issued) + if call.0 == t then [call.1] else []
  {
    assert (issued + [call])[..|issued|] == issued;
  }

  lemma OneMoreTurn(t: nat, log: seq<Turn>, turn: Turn)
    ensures TurnsOf(t, log + [turn]) == TurnsOf(t, log) + if turn.thread == t then [turn.frame] else []
  {
    assert (log + [turn])[..|log|] == log;
  }

  lemma CallKeepsOrder(c: Codec, s: State, step: Step, t: nat)
    requires CallsOf(t, s.issued) == TurnsOf(t, s.log) + Underway(t, s) && Enabled(c, s, step) && step.Call?
    ensures var after := Next(c, s, step);
            CallsOf(t, after.issued) == TurnsOf(t, after.log) + Underway(t, after)
  {
    OneMoreCall(t, s.issued, (step.thread, step.frame));
    hide CallsOf;
    hide TurnsOf;
  }

  lemma EndKeepsOrder(s: State, turn: Turn, t: nat)
    requires s.holder.Some? && s.holder.value.thread == turn.thread && s.holder.value.frame == turn.frame
    requires turn.thread !in s.waiting
    requires CallsOf(t, s.issued) == TurnsOf(t, s.log) + Underway(t, s)
    ensures var after := s.(log := s.log + [turn], holder := None);
            CallsOf(t, after.issued) == TurnsOf(t, after.log) + Underway(t, after)
  {
    OneMoreTurn(t, s.log, turn);
    hide CallsOf;
    hide TurnsOf;
  }

  lemma OrderStepOf(c: Codec, s: State, step: Step, t: nat)
    requires s.holder.Some? ==> s.holder.value.thread !in s.waiting
    requires CallsOf(t, s.issued) == TurnsOf(t, s.log) + Underway(t, s) && Enabled(c, s, step)
    ensures var after := Next(c, s, step);
            CallsOf(t, after.issued) == TurnsOf(t, after.log) + Underway(t, after)
  {
    hide CallsOf;
    hide TurnsOf;
    hide Image;
    match step {
      case Call(_, _) => CallKeepsOrder(c, s, step, t);
      case Acquire(_) => assert Underway(t, Next(c, s, step)) == Underway(t, s);
      case Put(_) => assert Underway(t, Next(c, s, step)) == Underway(t, s);
      case Refuse => EndKeepsOrder(s, s.holder.value, t);
      case Fail => EndKeepsOrder(s, s.holder.value, t);
      case Finish => EndKeepsOrder(s, s.holder.value.(acked := true), t);
    }
  }

  lemma OrderStep(c: Codec, s: State, step: Step)
    requires InOrder(s) && Enabled(c, s, step)
    ensures InOrder(Next(c, s, step))
  {
    forall t: nat
      ensures CallsOf(t, Next(c, s, step).issued) == TurnsOf(t, Next(c, s, step).log) + Underway(t, Next(c, s, step))
    {
      OrderStepOf(c, s, step, t);
    }
    hide CallsOf;
    hide TurnsOf;
    hide Underway;
    hide Image;
  }

  /** In every reachable state, whatever the threads do and whatever fails. */
  lemma {:induction false} EveryRun(c: Codec, steps: seq<Step>, s: State)
    requires After(c, steps) == Some(s)
    ensures WireIsTurns(c, s) && InOrder(s)
  {
    if steps != [] {
      var init, step := steps[..|steps| - 1], steps[|steps| - 1];
      var before := After(c, init).value;
      EveryRun(c, init, before);
      WireStep(c, before, step);
      OrderStep(c, before, step);
    }
  }

  // ---- what a reader makes of the wire ----------------------------------------------------

  /** The bodies of the frames that went out whole. */
  function WholeBodies(c: Codec, log: seq<Turn>): (r: seq<seq<Byte>>)
    ensures Readable(r)
  {
    if log == [] then []
    else
      var last := log[|log| - 1];
      WholeBodies(c, log[..|log| - 1]) + if Whole(c, last) then [c.encode(last.frame).value] else []
  }

  /** The turn was cut off partway: some of its bytes are on the wire, not all. */
  predicate Cut(c: Codec, turn: Turn) {
    0 < turn.written < |Image(c, turn.frame)|
  }

  ghost predicate NoneCut(c: Codec, log: seq<Turn>) {
    forall k :: 0 <= k < |log| ==> !Cut(c, log[k])
  }

  lemma PackedSnoc(order: ByteOrder, bodies: seq<seq<Byte>>, body: seq<Byte>)
    requires Readable(bodies) && |body| <= MAX_READ_FRAME_BYTES
    ensures Packed(order, bodies + [body]) == Packed(order, bodies) + Framed(order, body)
  {
    PackedAppend(order, bodies, [body]);
    assert Packed(order, [body]) == Framed(order, body) + [];
  }

  /** What a turn leaves: its whole frame, nothing, or, when cut, something in between. */
  lemma LeftByTurn(c: Codec, turn: Turn)
    requires Possible(c, turn)
    ensures Whole(c, turn) ==> Left(c, turn) == Framed(c.order, c.encode(turn.frame).value)
    ensures !Whole(c, turn) && !Cut(c, turn) ==> Left(c, turn) == []
    ensures Cut(c, turn) ==> !Whole(c, turn) && |Left(c, turn)| > 0
  {
    assert Image(c, turn.frame)[..|Image(c, turn.frame)|] == Image(c, turn.frame);
  }

  lemma NoneCutSnoc(c: Codec, log: seq<Turn>)
    requires log != []
    ensures NoneCut(c, log) <==> NoneCut(c, log[..|log| - 1]) && !Cut(c, log[|log| - 1])
  {
    hide Cut;
    assert log == log[..|log| - 1] + [log[|log| - 1]];
  }

  lemma {:induction false} LogWithoutCuts(c: Codec, log: seq<Turn>)
    requires forall k :: 0 <= k < |log| ==> Possible(c, log[k])
    ensures |LeftBy(c, log)| >= |Packed(c.order, WholeBodies(c, log))|
    ensures NoneCut(c, log) ==> LeftBy(c, log) == Packed(c.order, WholeBodies(c, log))
    ensures !NoneCut(c, log) ==> |LeftBy(c, log)| > |Packed(c.order, WholeBodies(c, log))|
  {
    if log != [] {
      var init, last := log[..|log| - 1], log[|log| - 1];
      LogWithoutCuts(c, init);
      LeftByTurn(c, last);
      NoneCutSnoc(c, log);
      hide Image;
      hide Cut;
      hide NoneCut;
      hide Whole;
      hide Framed;
      hide Possible;
      hide Left;
      hide Fits;
      if Whole(c, last) {
        PackedSnoc(c.order, WholeBodies(c, init), c.encode(last.frame).value);
      } else {
        assert WholeBodies(c, log) == WholeBodies(c, init);
      }
    }
  }

  /** With the lock free, a reader gets exactly the frames that went out whole, in lock order and
      with nothing left over, if and only if no write was ever cut off partway. */
  lemma ReaderSeesWholeFramesIff(c: Codec, steps: seq<Step>, s: State)
    requires After(c, steps) == Some(s) && s.holder.None?
    ensures SplitOf(c.order, s.wire) == Split(WholeBodies(c, s.log), []) <==> NoneCut(c, s.log)
  {
    EveryRun(c, steps, s);
    LogWithoutCuts(c, s.log);
    hide NoneCut;
    var bodies := WholeBodies(c, s.log);
    assert s.wire == LeftBy(c, s.log);
    if s.wire == Packed(c.order, bodies) {
      assert s.wire == Packed(c.order, bodies) + [];
      SplitIsUnique(c.order, bodies, []);
    }
    if SplitOf(c.order, s.wire) == Split(bodies, []) {
      SplitKeepsBytes(c.order, s.wire);
      assert s.wire == Packed(c.order, bodies) + [] == Packed(c.order, bodies);
    }
  }

  /** Without failures every finished turn is a refusal or an acknowledged whole frame, and in
      every reachable state the wire is whole frames, in lock order, and then a prefix of the
      lock holder's frame. */
  lemma WithoutFailures(c: Codec, steps: seq<Step>, s: State)
    requires After(c, steps) == Some(s) && forall k :: 0 <= k < |steps| ==> !steps[k].Fail?
    ensures forall k :: 0 <= k < |s.log| ==> s.log[k].acked == Fits(c, s.log[k].frame)
    ensures s.wire == Packed(c.order, WholeBodies(c, s.log)) + if s.holder.Some? then Left(c, s.holder.value) else []
    ensures s.holder.Some? ==> Left(c, s.holder.value) <= Image(c, s.holder.value.frame)
  {
    EveryRun(c, steps, s);
    AllSettled(c, steps, s);
    LogWithoutCuts(c, s.log);
  }

  /** A frame that is not all there does not read as a chunk. */
  lemma PartIsNoChunk(order: ByteOrder, body: seq<Byte>, k: nat)
    requires |body| <= MAX_READ_FRAME_BYTES && k < 4 + |body|
    ensures !StartsWithChunk(order, Framed(order, body)[..k])
  {
    if k >= 4 {
      assert Framed(order, body)[..k][..4] == LengthBytes(order, |body|);
      LengthRoundTrip(order, |body|);
    }
  }

  /** Without failures a reader is never misled, at any moment: it finds exactly the whole frames,
      in lock order, and the rest is the part of the holder's frame written so far. */
  lemma ReaderIsNeverMisled(c: Codec, steps: seq<Step>, s: State)
    requires After(c, steps) == Some(s) && forall k :: 0 <= k < |steps| ==> !steps[k].Fail?
    ensures s.holder.Some? && Whole(c, s.holder.value) ==>
      SplitOf(c.order, s.wire) == Split(WholeBodies(c, s.log) + [c.encode(s.holder.value.frame).value], [])
    ensures !(s.holder.Some? && Whole(c, s.holder.value)) ==>
      SplitOf(c.order, s.wire) ==
      Split(WholeBodies(c, s.log), if s.holder.Some? then Left(c, s.holder.value) else [])
  {
    WithoutFailures(c, steps, s);
    EveryRun(c, steps, s);
    var bodies := WholeBodies(c, s.log);
    if s.holder.None? {
      SplitIsUnique(c.order, bodies, []);
    } else {
      MidWrite(c, bodies, s.holder.value);
    }
  }

  lemma MidWrite(c: Codec, bodies: seq<seq<Byte>>, turn: Turn)
    requires Readable(bodies) && Possible(c, turn)
    ensures SplitOf(c.order, Packed(c.order, bodies) + Left(c, turn)) ==
            if Whole(c, turn) then Split(bodies + [c.encode(turn.frame).value], []) else Split(bodies, Left(c, turn))
  {
    LeftByTurn(c, turn);
    if Whole(c, turn) {
      var body := c.encode(turn.frame).value;
      PackedSnoc(c.order, bodies, body);
      SplitIsUnique(c.order, bodies + [body], []);
      assert Packed(c.order, bodies) + Left(c, turn) == Packed(c.order, bodies + [body]) + [];
    } else {
      if Fits(c, turn.frame) {
        PartIsNoChunk(c.order, c.encode(turn.frame).value, turn.written);
      }
      SplitIsUnique(c.order, bodies, Left(c, turn));
    }
  }

  /** The turn was a refusal or put an acknowledged whole frame on the wire. */
  predicate Settled(c: Codec, turn: Turn) {
    turn.acked == Fits(c, turn.frame) && !Cut(c, turn)
  }

  lemma {:induction false} AllSettled(c: Codec, steps: seq<Step>, s: State)
    requires After(c, steps) == Some(s) && forall k :: 0 <= k < |steps| ==> !steps[k].Fail?
    ensures forall k :: 0 <= k < |s.log| ==> Settled(c, s.log[k])
  {
    if steps != [] {
      var init, step := steps[..|steps| - 1], steps[|steps| - 1];
      var before := After(c, init).value;
      EveryRun(c, init, before);
      AllSettled(c, init, before);
      assert !step.Fail?;
      SettledStep(c, before, step);
    }
  }

  lemma SettledStep(c: Codec, s: State, step: Step)
    requires WireIsTurns(c, s) && Enabled(c, s, step) && !step.Fail?
    requires forall k :: 0 <= k < |s.log| ==> Settled(c, s.log[k])
    ensures forall k :: 0 <= k < |Next(c, s, step).log| ==> Settled(c, Next(c, s, step).log[k])
  {
    if step.Refuse? || step.Finish? {
      var last := Next(c, s, step).log[|s.log|];
      assert Settled(c, last);
    }
    hide Settled;
    hide Image;
    hide LeftBy;
  }

  lemma Take(c: Codec, steps: seq<Step>, s: State, step: Step) returns (more: seq<Step>, after: State)
    requires After(c, steps) == Some(s) && Enabled(c, s, step)
    ensures after == Next(c, s, step) && After(c, more) == Some(after)
  {
    more, after := steps + [step], Next(c, s, step);
    assert more[..|more| - 1] == steps;
  }

  /** A thread calls `write` while the lock is free, `k` bytes go out, and the call ends. */
  lemma OneWrite(c: Codec, steps: seq<Step>, s: State, t: nat, frame: Frame, k: nat, end: Step)
    returns (more: seq<Step>, after: State)
    requires After(c, steps) == Some(s) && s.holder.None? && s.waiting == map[]
    requires k <= |Image(c, frame)| && Fits(c, frame)
    requires end.Fail? || (end.Finish? && k == |Image(c, frame)|)
    ensures After(c, more) == Some(after)
    ensures after.holder.None? && after.waiting == map[]
    ensures after.wire == s.wire + Image(c, frame)[..k] && after.log == s.log + [Turn(t, frame, k, end.Finish?)]
  {
    hide Image;
    hide After;
    more, after := Take(c, steps, s, Call(t, frame));
    more, after := Take(c, more, after, Acquire(t));
    assert after.waiting == map[];
    more, after := Take(c, more, after, Put(k));
    more, after := Take(c, more, after, end);
  }

  /** A panic or I/O error mid-write does corrupt what follows, for every codec, every frame
      and every cut: from any state with the lock free, the write is cut off after `k` bytes,
      the next caller's whole frame goes out and is acknowledged, and a reader no longer finds
      the whole frames. */
  lemma CutWriteCorruptsTheNextFrame(
      c: Codec, steps: seq<Step>, s: State, t: nat, frame: Frame, k: nat, u: nat, next: Frame)
    returns (more: seq<Step>, after: State)
    requires After(c, steps) == Some(s) && s.holder.None? && s.waiting == map[]
    requires Fits(c, frame) && 0 < k < |Image(c, frame)| && Fits(c, next)
    ensures After(c, more) == Some(after) && after.holder.None?
    ensures after.log == s.log + [Turn(t, frame, k, false), Turn(u, next, |Image(c, next)|, true)]
    ensures after.wire == s.wire + (Image(c, frame)[..k] + Image(c, next))
    ensures SplitOf(c.order, after.wire) != Split(WholeBodies(c, after.log), [])
  {
    hide After;
    hide Image;
    hide SplitOf;
    hide WholeBodies;
    hide Fits;
    var whole := Image(c, next);
    more, after := OneWrite(c, steps, s, t, frame, k, Fail);
    more, after := OneWrite(c, more, after, u, next, |whole|, Finish);
    assert after.log[|s.log|] == Turn(t, frame, k, false);
    ReaderSeesWholeFramesIff(c, more, after);
    Regroup(s.wire, Image(c, frame)[..k], whole);
  }

  lemma Regroup(a: seq<Byte>, b: seq<Byte>, whole: seq<Byte>)
    ensures a + b + whole[..|whole|] == a + (b + whole)
  {
  }

  /** A length prefix whose body never came takes the body from the next frame, prefix first,
      or, when that is too short, makes the reader wait on a frame it already has. */
  lemma PrefixTakesTheNextFrame(order: ByteOrder, n: nat, next: seq<Byte>)
    requires n <= MAX_READ_FRAME_BYTES && |next| <= MAX_READ_FRAME_BYTES
    ensures var wire := LengthBytes(order, n) + Framed(order, next);
            && (n <= 4 + |next| ==>
                  |SplitOf(order, wire).bodies| > 0 && SplitOf(order, wire).bodies[0] == Framed(order, next)[..n])
            && (n > 4 + |next| ==> SplitOf(order, wire) == Split([], wire))
  {
    var wire := LengthBytes(order, n) + Framed(order, next);
    LengthRoundTrip(order, n);
    assert wire[..4] == LengthBytes(order, n);
    hide Declared;
    hide LengthBytes;
    hide Framed;
    if n <= 4 + |next| {
      assert wire[4..4 + n] == Framed(order, next)[..n];
    }
  }

  /** So a write cut off right after its length prefix hides the acknowledged frame behind it:
      the reader takes that frame's bytes for the missing body. */
  lemma CutAfterThePrefix(c: Codec, frame: Frame, next: Frame) returns (steps: seq<Step>, s: State)
    requires Fits(c, frame) && c.encode(frame).value != [] && Fits(c, next)
    ensures After(c, steps) == Some(s) && s.holder.None?
    ensures s.log == [Turn(0, frame, 4, false), Turn(1, next, |Image(c, next)|, true)]
    ensures var n := |c.encode(frame).value|;
            && (n <= |Image(c, next)| ==>
                  |SplitOf(c.order, s.wire).bodies| > 0 && SplitOf(c.order, s.wire).bodies[0] == Image(c, next)[..n])
            && (n > |Image(c, next)| ==> SplitOf(c.order, s.wire).bodies == [])
  {
    var body, then_ := c.encode(frame).value, c.encode(next).value;
    steps, s := CutWriteCorruptsTheNextFrame(c, [], START, 0, frame, 4, 1, next);
    hide After;
    hide SplitOf;
    PrefixTakesTheNextFrame(c.order, |body|, then_);
    assert Image(c, frame)[..4] == LengthBytes(c.order, |body|);
    assert s.wire == LengthBytes(c.order, |body|) + Framed(c.order, then_);
  }
}
