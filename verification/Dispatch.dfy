/** Request dispatch and the host's run loop: read, dispatch, emit, until the peer hangs up. */
module Dispatch {
  import opened Common
  import opened Protocol
  import opened NativeStdio

  const SUPPORTED_PROTOCOL_VERSION: string := "1.0"

  function OkResponse(requestId: string, payload: Json): Frame {
    Response(SUPPORTED_PROTOCOL_VERSION, requestId, Succeeded, Some(payload), None)
  }

  function ErrorResponse(requestId: string, code: string, message: string, details: Option<Json>): Frame {
    Response(SUPPORTED_PROTOCOL_VERSION, requestId, Failed, None, Some(ProtocolError(code, message, details)))
  }

  /** The response to an inbound frame; only requests of the supported version are served. */
  function DispatchFrame(c: Codec, frame: Frame): Frame {
    match frame
    case Request(version, requestId, kind, body) =>
      if version != SUPPORTED_PROTOCOL_VERSION then
        ErrorResponse(requestId, "unsupported_protocol_version",
                      "unsupported protocol version " + c.quoted(version),
                      Some(Object(map["supported" := Text(SUPPORTED_PROTOCOL_VERSION), "received" := Text(version)])))
      else DispatchRequest(c, kind, requestId, body)
    case Response(_, requestId, _, _, _) =>
      ErrorResponse(requestId, "unexpected_kind", "host received a response frame; it only accepts requests", None)
    case Notification(_, notificationId, _, _) =>
      ErrorResponse(notificationId, "unexpected_kind",
                    "host received a notification frame; it only accepts requests", None)
  }

  function DispatchRequest(c: Codec, kind: string, requestId: string, body: Json): Frame {
    if kind == "ping" then
      var nonce := body.Get("nonce");
      OkResponse(requestId,
                 Object(map["pong" := Bool(true), "echo" := if nonce.Some? then nonce.value else Null]))
    else
      ErrorResponse(requestId, "unknown_request_type", "unknown request type " + c.quoted(kind),
                    Some(Object(map["type" := Text(kind)])))
  }

  /** The small error that stands in for a frame too large to send. */
  function OversizeError(original: Frame, size: nat): Frame {
    ErrorResponse(original.Id(), "frame_too_large",
                  "frame exceeded the " + Decimal(MAX_FRAME_BYTES) + "-byte native-messaging limit ("
                  + Decimal(size) + " bytes); withheld", None)
  }

  /** Every inbound frame is answered by a response with its own id, and the answer is a success
      exactly for a ping of the supported version, which gets its nonce back. */
  lemma AnswersInKind(c: Codec, frame: Frame)
    ensures var answer := DispatchFrame(c, frame);
            && answer.Response? && answer.Id() == frame.Id()
            && (answer.status.Succeeded? <==> frame.Request? && frame.version == "1.0" && frame.kind == "ping")
            && (answer.status.Succeeded? <==> answer.payload.Some?) && (answer.status.Failed? <==> answer.error.Some?)
            && (answer.status.Succeeded? ==>
                  answer.payload.value.Get("echo") ==
                  Some(match frame.body.Get("nonce") case Some(nonce) => nonce case None => Null))
  {
  }

  /** What refusals say: an unsupported version, an unknown type, a frame that is no request. */
  lemma UnsupportedVersion(c: Codec, version: string, id: string, kind: string, body: Json)
    requires version != "1.0"
    ensures DispatchFrame(c, Request(version, id, kind, body))
         == Response("1.0", id, Failed, None,
              Some(ProtocolError("unsupported_protocol_version", "unsupported protocol version " + c.quoted(version),
                                 Some(Object(map["supported" := Text("1.0"), "received" := Text(version)])))))
  {
  }

  lemma UnknownType(c: Codec, id: string, kind: string, body: Json)
    requires kind != "ping"
    ensures DispatchFrame(c, Request("1.0", id, kind, body))
         == Response("1.0", id, Failed, None,
              Some(ProtocolError("unknown_request_type", "unknown request type " + c.quoted(kind),
                                 Some(Object(map["type" := Text(kind)])))))
  {
  }

  lemma NotARequest(c: Codec, frame: Frame)
    requires !frame.Request?
    ensures DispatchFrame(c, frame)
         == Response("1.0", frame.Id(), Failed, None,
              Some(ProtocolError("unexpected_kind",
                                 if frame.Response? then "host received a response frame; it only accepts requests"
                                 else "host received a notification frame; it only accepts requests", None)))
  {
  }

  /** And an answer withheld for its size. */
  lemma OversizeSays(frame: Frame, size: nat)
    ensures OversizeError(frame, size)
         == Response("1.0", frame.Id(), Failed, None,
              Some(ProtocolError("frame_too_large",
                                 "frame exceeded the " + Decimal(1_048_576) + "-byte native-messaging limit ("
                                 + Decimal(size) + " bytes); withheld", None)))
  {
    hide Decimal;
  }

  // ---- emitting ---------------------------------------------------------------------------

  /** Writing a frame under the oversize guard. */
  function EmitTo(c: Codec, w: Wire, frame: Frame): Written {
    var first := Write(c, w, frame);
    if first.result.Err? && first.result.error.FrameTooLarge?
    then Write(c, first.wire, OversizeError(frame, first.result.error.size))
    else first
  }

  /** A frame the guard can get across: it fits, or it serializes and its replacement fits. */
  predicate Sendable(c: Codec, frame: Frame) {
    Fits(c, frame) || (c.encode(frame).Ok? && Fits(c, OversizeError(frame, |c.encode(frame).value|)))
  }

  /** What goes on the wire for a sendable frame. */
  function Sent(c: Codec, frame: Frame): (r: Frame)
    requires Sendable(c, frame)
    ensures Fits(c, r)
  {
    if Fits(c, frame) then frame else OversizeError(frame, |c.encode(frame).value|)
  }

  /** The replacement keeps the id and says why. */
  lemma SentKeepsId(c: Codec, frame: Frame)
    requires Sendable(c, frame)
    ensures Sent(c, frame).Id() == frame.Id()
    ensures Sent(c, frame) != frame ==>
      Sent(c, frame).Response? && Sent(c, frame).error.Some?
      && Sent(c, frame).error.value.code == "frame_too_large"
      && |c.encode(frame).value| > MAX_FRAME_BYTES
  {
  }

  /** An emission succeeds exactly for a sendable frame on an output with room for it; then the
      wire grows by that one whole frame. A frame that is not sendable leaves no byte behind. */
  lemma EmitOutcome(c: Codec, w: Wire, frame: Frame)
    ensures var r := EmitTo(c, w, frame);
            && (!Sendable(c, frame) ==> r.wire == w && r.result.Err? && !r.result.error.Io?)
            && (Sendable(c, frame) ==> r == Write(c, w, Sent(c, frame)))
            && (r.result.Ok? <==> Sendable(c, frame) && w.flushes > 0
                                  && 4 + |c.encode(Sent(c, frame)).value| <= w.room)
  {
  }

  /** The limit of the guard: when encoding a frame takes at least as many bytes as its id has
      characters, an id longer than the limit makes the replacement too large as well, and
      nothing is sent. */
  lemma LongIdDefeatsTheGuard(c: Codec, w: Wire, frame: Frame)
    requires forall f :: c.encode(f).Ok? && |c.encode(f).value| >= |f.Id()|
    requires |frame.Id()| > MAX_FRAME_BYTES
    ensures var r := EmitTo(c, w, frame);
            r.wire == w && r.result.Err? && r.result.error.FrameTooLarge?
  {
    assert c.encode(frame).Ok?;
    assert c.encode(OversizeError(frame, |c.encode(frame).value|)).Ok?;
  }

  /** The single writer: one output behind a lock. One call is one `WriteFrame`. */
  class FrameWriter {
    const inner: ByteSink

    constructor (writer: ByteSink)
      ensures inner == writer
    {
      inner := writer;
    }

    method Write(c: Codec, frame: Frame) returns (r: Result<(), TransportError>)
      modifies inner
      ensures Written(inner.wire, r) == NativeStdio.Write(c, old(inner.wire), frame)
    {
      r := WriteFrame(c, inner, frame);
    }
  }

  method Emit(c: Codec, writer: FrameWriter, frame: Frame) returns (r: Result<(), TransportError>)
    modifies writer.inner
    ensures Written(writer.inner.wire, r) == EmitTo(c, old(writer.inner.wire), frame)
  {
    r := writer.Write(c, frame);
    if r.Err? && r.error.FrameTooLarge? {
      r := writer.Write(c, OversizeError(frame, r.error.size));
    }
  }

  // ---- the loop ---------------------------------------------------------------------------

  /** The answer to one inbound body. */
  function Answer(c: Codec, body: seq<Byte>): Frame {
    match c.parse(body)
    case Ok(frame) => DispatchFrame(c, frame)
    case Err(message) => ErrorResponse("", "malformed_frame", message, None)
  }

  /** A body that is no frame is answered with the parser's message, under no id. */
  lemma MalformedBody(c: Codec, body: seq<Byte>, message: string)
    requires c.parse(body) == Err(message)
    ensures Answer(c, body)
         == Response("1.0", "", Failed, None, Some(ProtocolError("malformed_frame", message, None)))
  {
  }

  /** How the loop ends once no complete chunk is left. */
  function Hangup(order: ByteOrder, tail: seq<Byte>, broken: bool): Result<(), TransportError> {
    match Ending(order, tail, broken)
    case Ok(_) => Ok(())
    case Err(e) => Err(e)
  }

  function Answers(c: Codec, bodies: seq<seq<Byte>>): (r: seq<Frame>)
    ensures |r| == |bodies|
    ensures forall k :: 0 <= k < |r| ==> r[k] == Answer(c, bodies[k])
  {
    hide Answer;
    if bodies == [] then [] else [Answer(c, bodies[0])] + Answers(c, bodies[1..])
  }

  /** The loop as a function of the answers it owes and of how the input ends. */
  function Serve(c: Codec, answers: seq<Frame>, hangup: Result<(), TransportError>, w: Wire): Written
    decreases |answers|
  {
    if answers == [] then Written(w, hangup)
    else
      var first := EmitTo(c, w, answers[0]);
      if first.result.Err? then first else Serve(c, answers[1..], hangup, first.wire)
  }

  /** What serving an input does to an output. */
  function Outcome(c: Codec, s: seq<Byte>, broken: bool, w: Wire): Written {
    var split := SplitOf(c.order, s);
    Serve(c, Answers(c, split.bodies), Hangup(c.order, split.tail, broken), w)
  }

  /** Serving an input is answering its first chunk and serving what follows. */
  lemma OutcomeOfChunk(c: Codec, s: seq<Byte>, broken: bool, w: Wire)
    requires StartsWithChunk(c.order, s)
    ensures var n := Declared(c.order, s[..4]);
            var first := EmitTo(c, w, Answer(c, s[4..4 + n]));
            Outcome(c, s, broken, w) == if first.result.Err? then first else Outcome(c, s[4 + n..], broken, first.wire)
  {
    hide EmitTo;
    hide Answer;
    hide Hangup;
    hide Declared;
    hide StartsWithChunk;
    var split := SplitOf(c.order, s);
    assert Answers(c, split.bodies)[1..] == Answers(c, split.bodies[1..]);
  }

  method RunLoop(c: Codec, reader: ByteReader, writer: FrameWriter) returns (r: Result<(), TransportError>)
    requires reader.Valid()
    modifies reader, writer.inner
    ensures reader.Valid()
    ensures Written(writer.inner.wire, r) == Outcome(c, old(reader.Rest()), reader.broken, old(writer.inner.wire))
  {
    hide EmitTo;
    hide Serve;
    hide DispatchFrame;
    hide Declared;
    ghost var outcome := Outcome(c, reader.Rest(), reader.broken, writer.inner.wire);
    while true
      invariant reader.Valid()
      invariant Outcome(c, reader.Rest(), reader.broken, writer.inner.wire) == outcome
      decreases |reader.Rest()|
    {
      ghost var s, w := reader.Rest(), writer.inner.wire;
      if StartsWithChunk(c.order, s) {
        OutcomeOfChunk(c, s, reader.broken, w);
      } else {
        assert outcome == Written(w, Hangup(c.order, s, reader.broken)) by {
          NothingLeft(c, s, reader.broken, w);
        }
      }
      hide Outcome;
      var next := ReadFrame(c, reader);
      var emitted;
      match next {
        case Ok(None) => return Ok(());
        case Ok(Some(frame)) =>
          emitted := Emit(c, writer, DispatchFrame(c, frame));
        case Err(Codec(message)) =>
          emitted := Emit(c, writer, ErrorResponse("", "malformed_frame", message, None));
        case Err(e) => return Err(e);
      }
      if emitted.Err? {
        return emitted;
      }
    }
  }

  lemma NothingLeft(c: Codec, s: seq<Byte>, broken: bool, w: Wire)
    requires !StartsWithChunk(c.order, s)
    ensures Outcome(c, s, broken, w) == Written(w, Hangup(c.order, s, broken))
  {
    hide StartsWithChunk;
    hide Hangup;
  }

  // ---- what the loop guarantees -----------------------------------------------------------

  ghost predicate AllSendable(c: Codec, frames: seq<Frame>) {
    forall k :: 0 <= k < |frames| ==> Sendable(c, frames[k])
  }

  function AllSent(c: Codec, frames: seq<Frame>): (r: seq<Frame>)
    requires AllSendable(c, frames)
    ensures |r| == |frames| && AllFit(c, r)
    ensures forall k :: 0 <= k < |r| ==> r[k] == Sent(c, frames[k])
  {
    if frames == [] then [] else [Sent(c, frames[0])] + AllSent(c, frames[1..])
  }

  /** The bytes of one whole frame per answer. */
  function Output(c: Codec, answers: seq<Frame>): seq<Byte>
    requires AllSendable(c, answers)
  {
    Packed(c.order, Bodies(c, AllSent(c, answers)))
  }

  lemma OutputSplits(c: Codec, answers: seq<Frame>)
    requires answers != [] && AllSendable(c, answers)
    ensures Output(c, answers) ==
            Framed(c.order, c.encode(Sent(c, answers[0])).value) + Output(c, answers[1..])
  {
    var sent := AllSent(c, answers);
    assert sent[1..] == AllSent(c, answers[1..]);
    assert Bodies(c, sent)[1..] == Bodies(c, sent[1..]);
  }

  /** Whether the output takes an answer and every one after it. */
  ghost predicate Takes(c: Codec, w: Wire, answers: seq<Frame>) {
    AllSendable(c, answers) && |Output(c, answers)| <= w.room && |answers| <= w.flushes
  }

  /** One sendable answer on an output that takes it: the frame is appended whole and the rest of
      the answers still fit. */
  lemma TakesFirst(c: Codec, w: Wire, answers: seq<Frame>)
    requires answers != [] && Sendable(c, answers[0])
    requires EmitTo(c, w, answers[0]).result.Ok?
    ensures var first := EmitTo(c, w, answers[0]);
            && first.wire.bytes == w.bytes + Framed(c.order, c.encode(Sent(c, answers[0])).value)
            && (Takes(c, w, answers) <==> Takes(c, first.wire, answers[1..]))
  {
    EmitOutcome(c, w, answers[0]);
    hide Sent;
    if AllSendable(c, answers[1..]) {
      assert AllSendable(c, answers);
      OutputSplits(c, answers);
    }
    hide Sendable;
    hide Output;
    hide EmitTo;
    hide LengthBytes;
  }

  lemma TakesMeansEmitted(c: Codec, w: Wire, answers: seq<Frame>)
    requires answers != [] && Takes(c, w, answers)
    ensures EmitTo(c, w, answers[0]).result.Ok?
  {
    EmitOutcome(c, w, answers[0]);
    OutputSplits(c, answers);
    hide Sent;
    hide Output;
    hide EmitTo;
  }

  /** An output that takes every answer gets one whole frame per chunk, in order, and the loop
      ends as the input does. */
  lemma {:induction false} ServesEveryChunk(c: Codec, answers: seq<Frame>, hangup: Result<(), TransportError>, w: Wire)
    requires Takes(c, w, answers)
    ensures Serve(c, answers, hangup, w).result == hangup
    ensures Serve(c, answers, hangup, w).wire.bytes == w.bytes + Output(c, answers)
    decreases |answers|
  {
    hide EmitTo;
    hide Sendable;
    hide Sent;
    if answers == [] {
      assert w.bytes + [] == w.bytes;
    } else {
      hide Output;
      var first := EmitTo(c, w, answers[0]);
      TakesMeansEmitted(c, w, answers);
      TakesFirst(c, w, answers);
      ServesEveryChunk(c, answers[1..], hangup, first.wire);
      OutputSplits(c, answers);
      var bytes := Framed(c.order, c.encode(Sent(c, answers[0])).value);
      assert w.bytes + bytes + Output(c, answers[1..]) == w.bytes + (bytes + Output(c, answers[1..]));
    }
  }

  /** And the loop ends well in no other case. */
  lemma {:induction false} EndsWellOnlyIf(c: Codec, answers: seq<Frame>, hangup: Result<(), TransportError>, w: Wire)
    requires Serve(c, answers, hangup, w).result.Ok?
    ensures hangup.Ok? && Takes(c, w, answers)
    decreases |answers|
  {
    if answers != [] {
      var first := EmitTo(c, w, answers[0]);
      EmitOutcome(c, w, answers[0]);
      hide EmitTo;
      hide Sendable;
      hide Sent;
      hide Output;
      EndsWellOnlyIf(c, answers[1..], hangup, first.wire);
      TakesFirst(c, w, answers);
    }
  }

  /** Over any input, the loop ends well exactly when at most three bytes are left over at a
      clean end of stream and every answer got across. When every answer gets across but the
      input ends otherwise, the loop reports the over-long length, or an I/O error. */
  lemma LoopEndsWellIff(c: Codec, s: seq<Byte>, broken: bool, w: Wire)
    ensures var split := SplitOf(c.order, s);
            var answers := Answers(c, split.bodies);
            var r := Outcome(c, s, broken, w);
            && (r.result.Ok? <==> !broken && |split.tail| < 4 && Takes(c, w, answers))
            && (Takes(c, w, answers) ==> r.wire.bytes == w.bytes + Output(c, answers))
            && (Takes(c, w, answers) && |split.tail| >= 4 ==>
                  var n := Declared(c.order, split.tail[..4]);
                  r.result == if n > MAX_READ_FRAME_BYTES then Err(FrameTooLarge(n)) else Err(Io))
  {
    hide Takes;
    hide Serve;
    hide Output;
    hide Declared;
    hide SplitOf;
    var split := SplitOf(c.order, s);
    var answers, hangup := Answers(c, split.bodies), Hangup(c.order, split.tail, broken);
    if Takes(c, w, answers) {
      ServesEveryChunk(c, answers, hangup, w);
    }
    if Serve(c, answers, hangup, w).result.Ok? {
      EndsWellOnlyIf(c, answers, hangup, w);
    }
  }

  /** In general the wire holds whole answers to a first part of the chunks, in order, and then
      at most one cut-off answer, left by the I/O error that ended the loop. */
  ghost predicate ServedUpTo(
      c: Codec, answers: seq<Frame>, hangup: Result<(), TransportError>, w: Wire, r: Written, k: nat)
  {
    && k <= |answers|
    && AllSendable(c, answers[..k])
    && var whole := w.bytes + Output(c, answers[..k]);
       if k == |answers| then r.wire.bytes == whole && r.result == hangup
       else StoppedAt(c, answers[k], whole, r)
  }

  /** The loop stopped at this answer, with the earlier ones whole on the wire. */
  ghost predicate StoppedAt(c: Codec, answer: Frame, whole: seq<Byte>, r: Written) {
    if !Sendable(c, answer) then r.wire.bytes == whole && r.result.Err? && !r.result.error.Io?
    else
      var last := Framed(c.order, c.encode(Sent(c, answer)).value);
      r.result == Err(Io) && exists n | 0 <= n <= |last| :: r.wire.bytes == whole + last[..n]
  }

  lemma StopsWhereItFails(c: Codec, w: Wire, answer: Frame)
    requires EmitTo(c, w, answer).result.Err?
    ensures StoppedAt(c, answer, w.bytes, EmitTo(c, w, answer))
  {
    EmitOutcome(c, w, answer);
    if Sendable(c, answer) {
      WriteIsAllOrRefused(c, w, Sent(c, answer));
    }
  }

  lemma {:induction false} WholeAnswersThenAtMostOnePart(
      c: Codec, answers: seq<Frame>, hangup: Result<(), TransportError>, w: Wire)
    returns (k: nat)
    ensures ServedUpTo(c, answers, hangup, w, Serve(c, answers, hangup, w), k)
    decreases |answers|
  {
    hide StoppedAt;
    if answers == [] {
      k := 0;
      assert w.bytes + [] == w.bytes;
      return;
    }
    var first := EmitTo(c, w, answers[0]);
    EmitOutcome(c, w, answers[0]);
    if first.result.Err? {
      k := 0;
      StopsWhereItFails(c, w, answers[0]);
      assert w.bytes + Output(c, answers[..0]) == w.bytes;
    } else {
      var j := WholeAnswersThenAtMostOnePart(c, answers[1..], hangup, first.wire);
      k := j + 1;
      TakesFirst(c, w, answers);
      OneMoreServed(c, answers, hangup, w, first.wire, Serve(c, answers[1..], hangup, first.wire), j);
    }
  }

  lemma OneMoreServed(
      c: Codec, answers: seq<Frame>, hangup: Result<(), TransportError>, w: Wire, next: Wire, r: Written, j: nat)
    requires answers != [] && Sendable(c, answers[0])
    requires next.bytes == w.bytes + Framed(c.order, c.encode(Sent(c, answers[0])).value)
    requires ServedUpTo(c, answers[1..], hangup, next, r, j)
    ensures ServedUpTo(c, answers, hangup, w, r, j + 1)
  {
    hide StoppedAt;
    hide Sendable;
    hide Sent;
    var upTo := answers[..j + 1];
    assert upTo[0] == answers[0] && upTo[1..] == answers[1..][..j];
    assert AllSendable(c, upTo) by {
      forall k | 0 <= k < |upTo| ensures Sendable(c, upTo[k]) {
        assert k > 0 ==> upTo[k] == answers[1..][..j][k - 1];
      }
    }
    OutputSplits(c, upTo);
    hide Output;
    var bytes := Framed(c.order, c.encode(Sent(c, answers[0])).value);
    assert w.bytes + bytes + Output(c, upTo[1..]) == w.bytes + (bytes + Output(c, upTo[1..]));
  }

  /** The peer, reading what the host wrote to a healthy output, gets one response per chunk it
      sent, in order, each with the id of the request it answers, or the empty id for a body that
      was not a frame, and then the end of the stream. */
  lemma PeerReadsItsAnswers(c: Codec, bodies: seq<seq<Byte>>, hangup: Result<(), TransportError>, w: Wire)
    requires w.bytes == [] && Takes(c, w, Answers(c, bodies))
    requires ParsesBack(c, AllSent(c, Answers(c, bodies)))
    ensures var sent := AllSent(c, Answers(c, bodies));
            && |sent| == |bodies|
            && ReadEach(c, Serve(c, Answers(c, bodies), hangup, w).wire.bytes, false) == Delivered(sent)
            && forall k :: 0 <= k < |sent| ==> RepliesTo(c, sent[k], bodies[k])
  {
    var answers := Answers(c, bodies);
    var sent := AllSent(c, answers);
    ServesEveryChunk(c, answers, hangup, w);
    ReadOfPacked(c, sent);
    assert [] + Output(c, answers) == Output(c, answers);
    forall k | 0 <= k < |sent|
      ensures RepliesTo(c, sent[k], bodies[k])
    {
      SentKeepsId(c, answers[k]);
      if c.parse(bodies[k]).Ok? {
        AnswersInKind(c, c.parse(bodies[k]).value);
      }
    }
  }

  ghost predicate RepliesTo(c: Codec, reply: Frame, body: seq<Byte>) {
    reply.Response? && reply.Id() == match c.parse(body) case Ok(frame) => frame.Id() case Err(_) => ""
  }
}
