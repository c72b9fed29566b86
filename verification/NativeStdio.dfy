/** The frame codec: a 32-bit length in the machine's byte order, then that many bytes of JSON. */
module NativeStdio {
  import opened Common
  import opened Protocol

  /** The host-to-extension limit (1 MiB) and the cap on one inbound frame (16 MiB). */
  const MAX_FRAME_BYTES: nat := 1024 * 1024
  const MAX_READ_FRAME_BYTES: nat := 16 * 1024 * 1024

  const WORD: nat := 0x1_0000_0000

  // ---- the length prefix ------------------------------------------------------------------

  /** The four bytes of a length. */
  function LengthBytes(order: ByteOrder, n: nat): (r: seq<Byte>)
    requires n < WORD
    ensures |r| == 4
  {
    var b0, b1, b2, b3 := n % 256, n / 256 % 256, n / 65536 % 256, n / 16777216;
    if order.LittleEndian? then [b0, b1, b2, b3] else [b3, b2, b1, b0]
  }

  /** The length four bytes declare. */
  function Declared(order: ByteOrder, b: seq<Byte>): (n: nat)
    requires |b| == 4
    ensures n < WORD
  {
    if order.LittleEndian? then FromDigits(b[0], b[1], b[2], b[3]) else FromDigits(b[3], b[2], b[1], b[0])
  }

  function FromDigits(b0: Byte, b1: Byte, b2: Byte, b3: Byte): (n: nat)
    ensures n < WORD
  {
    var n: int := b0;
    var n := n + 256 * (b1 as int);
    var n := n + 65536 * (b2 as int);
    n + 16777216 * (b3 as int)
  }

  lemma Positional(n: nat)
    ensures n == n % 256 + 256 * (n / 256 % 256) + 65536 * (n / 65536 % 256) + 16777216 * (n / 16777216)
  {
    assert n / 65536 == n / 256 / 256;
    assert n / 16777216 == n / 65536 / 256;
  }

  /** Printing a length and reading it are inverse, in either byte order. */
  lemma LengthRoundTrip(order: ByteOrder, n: nat)
    requires n < WORD
    ensures Declared(order, LengthBytes(order, n)) == n
  {
    Positional(n);
  }

  lemma DeclaredRoundTrip(order: ByteOrder, b: seq<Byte>)
    requires |b| == 4
    ensures LengthBytes(order, Declared(order, b)) == b
  {
    if order.LittleEndian? {
      DigitsOf(b[0], b[1], b[2], b[3]);
    } else {
      DigitsOf(b[3], b[2], b[1], b[0]);
    }
  }

  lemma DigitsOf(b0: Byte, b1: Byte, b2: Byte, b3: Byte)
    ensures var n := FromDigits(b0, b1, b2, b3);
            n % 256 == b0 && n / 256 % 256 == b1 && n / 65536 % 256 == b2 && n / 16777216 == b3
  {
    var n := FromDigits(b0, b1, b2, b3);
    var high: int := b3;
    var upper: int := b2 + 256 * high;
    var most: int := b1 + 256 * upper;
    assert n == b0 + 256 * most;
    assert n / 256 == most;
    assert n / 65536 == n / 256 / 256 == upper;
    assert n / 16777216 == n / 65536 / 256 == b3;
  }

  /** A whole frame on the wire. */
  function Framed(order: ByteOrder, body: seq<Byte>): (r: seq<Byte>)
    requires |body| < WORD
    ensures |r| == 4 + |body|
  {
    LengthBytes(order, |body|) + body
  }

  // ---- splitting a stream -----------------------------------------------------------------

  /** Whether a stream starts with a chunk that can be read to its end. */
  predicate StartsWithChunk(order: ByteOrder, s: seq<Byte>) {
    |s| >= 4
    && Declared(order, s[..4]) <= MAX_READ_FRAME_BYTES
    && 4 + Declared(order, s[..4]) <= |s|
  }

  /** A stream as the bodies of its complete chunks and the bytes left after the last one. */
  datatype Split = Split(bodies: seq<seq<Byte>>, tail: seq<Byte>)

  function SplitOf(order: ByteOrder, s: seq<Byte>): Split
    decreases |s|
  {
    if StartsWithChunk(order, s) then
      var n := Declared(order, s[..4]);
      var rest := SplitOf(order, s[4 + n..]);
      Split([s[4..4 + n]] + rest.bodies, rest.tail)
    else Split([], s)
  }

  ghost predicate Readable(bodies: seq<seq<Byte>>) {
    forall k :: 0 <= k < |bodies| ==> |bodies[k]| <= MAX_READ_FRAME_BYTES
  }

  /** The bytes of a list of frames, one after the other. */
  function Packed(order: ByteOrder, bodies: seq<seq<Byte>>): seq<Byte>
    requires forall k :: 0 <= k < |bodies| ==> |bodies[k]| < WORD
  {
    if bodies == [] then [] else Framed(order, bodies[0]) + Packed(order, bodies[1..])
  }

  /** The first chunk and what follows it make up the stream. */
  lemma ChunkAndRest(order: ByteOrder, s: seq<Byte>)
    requires StartsWithChunk(order, s)
    ensures var n := Declared(order, s[..4]);
            n <= MAX_READ_FRAME_BYTES && Framed(order, s[4..4 + n]) + s[4 + n..] == s
  {
    var n := Declared(order, s[..4]);
    DeclaredRoundTrip(order, s[..4]);
    hide Declared;
    hide LengthBytes;
    assert s[..4] + s[4..4 + n] + s[4 + n..] == s;
  }

  /** The split puts every byte of the stream where it was: nothing lost, nothing moved. */
  lemma {:induction false} SplitKeepsBytes(order: ByteOrder, s: seq<Byte>)
    ensures var r := SplitOf(order, s);
            Readable(r.bodies) && !StartsWithChunk(order, r.tail) && Packed(order, r.bodies) + r.tail == s
    decreases |s|
  {
    hide Declared;
    hide LengthBytes;
    if StartsWithChunk(order, s) {
      var n := Declared(order, s[..4]);
      var body, after := s[4..4 + n], s[4 + n..];
      var rest := SplitOf(order, after);
      SplitKeepsBytes(order, after);
      ChunkAndRest(order, s);
      PackedFirst(order, body, rest.bodies, rest.tail);
    }
  }

  lemma PackedFirst(order: ByteOrder, body: seq<Byte>, bodies: seq<seq<Byte>>, tail: seq<Byte>)
    requires |body| <= MAX_READ_FRAME_BYTES && Readable(bodies)
    ensures Packed(order, [body] + bodies) + tail == Framed(order, body) + (Packed(order, bodies) + tail)
  {
    hide LengthBytes;
    hide Framed;
    assert ([body] + bodies)[1..] == bodies;
  }

  /** A readable frame in front of any bytes is the first chunk, and what follows is intact. */
  lemma FirstChunk(order: ByteOrder, body: seq<Byte>, rest: seq<Byte>)
    requires |body| <= MAX_READ_FRAME_BYTES
    ensures var s := Framed(order, body) + rest;
            StartsWithChunk(order, s) && Declared(order, s[..4]) == |body|
            && s[4..4 + |body|] == body && s[4 + |body|..] == rest
  {
    var s := Framed(order, body) + rest;
    assert s[..4] == LengthBytes(order, |body|);
    LengthRoundTrip(order, |body|);
  }

  lemma SplitTakesFirst(order: ByteOrder, body: seq<Byte>, rest: seq<Byte>)
    requires |body| <= MAX_READ_FRAME_BYTES
    ensures var r := SplitOf(order, rest);
            SplitOf(order, Framed(order, body) + rest) == Split([body] + r.bodies, r.tail)
  {
    FirstChunk(order, body, rest);
    hide Declared;
    hide Framed;
  }

  /** And there is no other way to cut it: any list of readable chunks followed by bytes that
      do not start one is the split. */
  lemma {:induction false} SplitIsUnique(order: ByteOrder, bodies: seq<seq<Byte>>, tail: seq<Byte>)
    requires Readable(bodies) && !StartsWithChunk(order, tail)
    ensures SplitOf(order, Packed(order, bodies) + tail) == Split(bodies, tail)
  {
    if bodies == [] {
      assert Packed(order, bodies) + tail == tail;
    } else {
      SplitIsUnique(order, bodies[1..], tail);
      assert bodies == [bodies[0]] + bodies[1..];
      hide SplitOf;
      hide StartsWithChunk;
      PackedFirst(order, bodies[0], bodies[1..], tail);
      SplitTakesFirst(order, bodies[0], Packed(order, bodies[1..]) + tail);
    }
  }

  lemma {:induction false} PackedAppend(order: ByteOrder, a: seq<seq<Byte>>, b: seq<seq<Byte>>)
    requires Readable(a) && Readable(b)
    ensures Readable(a + b) && Packed(order, a + b) == Packed(order, a) + Packed(order, b)
  {
    if a == [] {
      assert a + b == b;
    } else {
      PackedAppend(order, a[1..], b);
      assert (a + b)[0] == a[0] && (a + b)[1..] == a[1..] + b;
      assert Framed(order, a[0]) + (Packed(order, a[1..]) + Packed(order, b))
          == Framed(order, a[0]) + Packed(order, a[1..]) + Packed(order, b);
    }
  }

  // ---- reading ----------------------------------------------------------------------------

  datatype ReadOutcome = Filled(bytes: seq<Byte>) | HitEnd | Broke

  /** An input stream. After its last byte it ends, or, when `broken`, fails. */
  class ByteReader {
    const stream: seq<Byte>
    const broken: bool
    var pos: nat

    ghost predicate Valid()
      reads this
    {
      pos <= |stream|
    }

    ghost function Rest(): seq<Byte>
      requires Valid()
      reads this
    {
      stream[pos..]
    }

    constructor (stream: seq<Byte>, broken: bool)
      ensures Valid() && this.stream == stream && this.broken == broken && Rest() == stream
    {
      this.stream, this.broken := stream, broken;
      pos := 0;
    }

    /** Fills a buffer of `n` bytes, or consumes what is left and fails. */
    method ReadExact(n: nat) returns (r: ReadOutcome)
      requires Valid()
      modifies this
      ensures Valid()
      ensures n <= |old(Rest())| ==> r == Filled(old(Rest())[..n]) && Rest() == old(Rest())[n..]
      ensures n > |old(Rest())| ==> r == (if broken then Broke else HitEnd) && Rest() == []
    {
      if pos + n <= |stream| {
        r := Filled(stream[pos..pos + n]);
        pos := pos + n;
      } else {
        r := if broken then Broke else HitEnd;
        pos := |stream|;
      }
    }
  }

  /** What one read yields from the bytes left. */
  function ReadResult(c: Codec, s: seq<Byte>, broken: bool): Result<Option<Frame>, TransportError> {
    if StartsWithChunk(c.order, s) then
      match c.parse(s[4..4 + Declared(c.order, s[..4])])
      case Ok(frame) => Ok(Some(frame))
      case Err(message) => Err(TransportError.Codec(message))
    else Ending(c.order, s, broken)
  }

  /** How a stream that starts no complete chunk ends the reading: fewer than four bytes are an
      end of stream, an over-long declared length is refused, a short body is an I/O error. */
  function Ending(order: ByteOrder, s: seq<Byte>, broken: bool): Result<Option<Frame>, TransportError> {
    if |s| < 4 then (if broken then Err(Io) else Ok(None))
    else if Declared(order, s[..4]) > MAX_READ_FRAME_BYTES then Err(FrameTooLarge(Declared(order, s[..4])))
    else Err(Io)
  }

  /** Reads one frame. A complete chunk is consumed whatever its body holds, so the stream stays
      aligned; the body of an over-long declared length is left unread. */
  method ReadFrame(c: Codec, reader: ByteReader) returns (r: Result<Option<Frame>, TransportError>)
    requires reader.Valid()
    modifies reader
    ensures reader.Valid()
    ensures r == ReadResult(c, old(reader.Rest()), reader.broken)
    ensures StartsWithChunk(c.order, old(reader.Rest())) ==>
      reader.Rest() == old(reader.Rest())[4 + Declared(c.order, old(reader.Rest())[..4])..]
    ensures r.Err? && r.error.FrameTooLarge? ==> reader.Rest() == old(reader.Rest())[4..]
  {
    ghost var s := reader.Rest();
    var prefix := reader.ReadExact(4);
    match prefix {
      case HitEnd => return Ok(None);
      case Broke => return Err(Io);
      case Filled(lenBuf) =>
        var len := Declared(c.order, lenBuf);
        if len > MAX_READ_FRAME_BYTES {
          return Err(FrameTooLarge(len));
        }
        var body := reader.ReadExact(len);
        match body {
          case HitEnd => return Err(Io);
          case Broke => return Err(Io);
          case Filled(bytes) =>
            assert bytes == s[4..4 + len];
            match c.parse(bytes) {
              case Ok(frame) => return Ok(Some(frame));
              case Err(message) => return Err(TransportError.Codec(message));
            }
        }
    }
  }

  // ---- writing ----------------------------------------------------------------------------

  /** The state of an output: the bytes it has accepted, how many more it will accept before a
      write fails, and how many flushes succeed. */
  datatype Wire = Wire(bytes: seq<Byte>, room: nat, flushes: nat)

  datatype Written = Written(wire: Wire, result: Result<(), TransportError>)

  class ByteSink {
    var wire: Wire

    constructor (wire: Wire)
      ensures this.wire == wire
    {
      this.wire := wire;
    }

    /** Writes all the bytes, or as many as the output accepts and fails. */
    method WriteAll(bytes: seq<Byte>) returns (ok: bool)
      modifies this
      ensures ok == (|bytes| <= old(wire).room)
      ensures ok ==> wire == Wire(old(wire).bytes + bytes, old(wire).room - |bytes|, old(wire).flushes)
      ensures !ok ==> wire == Wire(old(wire).bytes + bytes[..old(wire).room], 0, old(wire).flushes)
    {
      ok := |bytes| <= wire.room;
      if ok {
        wire := Wire(wire.bytes + bytes, wire.room - |bytes|, wire.flushes);
      } else {
        wire := Wire(wire.bytes + bytes[..wire.room], 0, wire.flushes);
      }
    }

    method Flush() returns (ok: bool)
      modifies this
      ensures ok == (old(wire).flushes > 0)
      ensures wire == if ok then old(wire).(flushes := old(wire).flushes - 1) else old(wire)
    {
      ok := wire.flushes > 0;
      if ok {
        wire := wire.(flushes := wire.flushes - 1);
      }
    }
  }

  /** A frame that may go on the wire: it serializes, within the limit. */
  predicate Fits(c: Codec, frame: Frame) {
    c.encode(frame).Ok? && |c.encode(frame).value| <= MAX_FRAME_BYTES
  }

  /** The outcome of writing a frame: refused frames leave the wire alone; the others are
      appended whole, or cut short by an I/O error. */
  function Write(c: Codec, w: Wire, frame: Frame): Written {
    match c.encode(frame)
    case Err(message) => Written(w, Err(TransportError.Codec(message)))
    case Ok(body) =>
      if |body| > MAX_FRAME_BYTES then Written(w, Err(FrameTooLarge(|body|)))
      else
        var bytes := Framed(c.order, body);
        if |bytes| > w.room then Written(Wire(w.bytes + bytes[..w.room], 0, w.flushes), Err(Io))
        else
          var after := w.(bytes := w.bytes + bytes, room := w.room - |bytes|);
          if w.flushes == 0 then Written(after, Err(Io))
          else Written(after.(flushes := w.flushes - 1), Ok(()))
  }

  method WriteFrame(c: Codec, sink: ByteSink, frame: Frame) returns (r: Result<(), TransportError>)
    modifies sink
    ensures Written(sink.wire, r) == Write(c, old(sink.wire), frame)
  {
    var body;
    match c.encode(frame) {
      case Err(message) => return Err(TransportError.Codec(message));
      case Ok(bytes) => body := bytes;
    }
    if |body| > MAX_FRAME_BYTES {
      return Err(FrameTooLarge(|body|));
    }
    // The cast to 32 bits keeps the length: it is at most 1 MiB.
    var len := |body| % WORD;
    assert len == |body|;
    ghost var w := sink.wire;
    ghost var prefix := LengthBytes(c.order, len);
    assert Framed(c.order, body)[..4] == prefix;
    var ok := sink.WriteAll(LengthBytes(c.order, len));
    if !ok {
      assert Framed(c.order, body)[..w.room] == prefix[..w.room];
      return Err(Io);
    }
    ok := sink.WriteAll(body);
    if !ok {
      assert Framed(c.order, body)[..w.room] == prefix + body[..w.room - 4];
      assert w.bytes + (prefix + body[..w.room - 4]) == w.bytes + prefix + body[..w.room - 4];
      return Err(Io);
    }
    assert w.bytes + Framed(c.order, body) == w.bytes + prefix + body;
    ok := sink.Flush();
    if !ok {
      return Err(Io);
    }
    return Ok(());
  }

  /** What a write can do to the wire: it is refused without a trace exactly when the frame does
      not fit; otherwise the wire grows by a prefix of the frame, all of it on success. */
  lemma WriteIsAllOrRefused(c: Codec, w: Wire, frame: Frame)
    ensures var r := Write(c, w, frame);
            && (r.result.Err? && !r.result.error.Io? <==> !Fits(c, frame))
            && (!Fits(c, frame) ==> r.wire == w)
            && (Fits(c, frame) ==>
                  var bytes := Framed(c.order, c.encode(frame).value);
                  exists k | 0 <= k <= |bytes| :: r.wire.bytes == w.bytes + bytes[..k])
            && (r.result.Ok? && Fits(c, frame) ==>
                  r.wire.bytes == w.bytes + Framed(c.order, c.encode(frame).value))
  {
    var r := Write(c, w, frame);
    if Fits(c, frame) {
      var bytes := Framed(c.order, c.encode(frame).value);
      if |bytes| <= w.room {
        assert bytes[..|bytes|] == bytes;
      }
    }
  }

  /** The limits in bytes: a frame of more than 1 MiB is not written, a declared length of more than
      16 MiB not read; the size is reported. */
  lemma LimitsInBytes(c: Codec, w: Wire, frame: Frame, s: seq<Byte>, broken: bool, n: nat)
    ensures Write(c, w, frame).result == Err(FrameTooLarge(n)) <==>
            c.encode(frame).Ok? && n == |c.encode(frame).value| && n > 1_048_576
    ensures ReadResult(c, s, broken) == Err(FrameTooLarge(n)) <==>
            |s| >= 4 && n == Declared(c.order, s[..4]) && n > 16_777_216
  {
  }

  /** An output that has failed takes nothing more. */
  lemma NothingAfterACut(c: Codec, w: Wire, frame: Frame, next: Frame)
    requires Fits(c, frame) && |Framed(c.order, c.encode(frame).value)| > w.room
    ensures var r := Write(c, w, frame);
            r.result == Err(Io) && r.wire.bytes == w.bytes + Framed(c.order, c.encode(frame).value)[..w.room]
            && Write(c, r.wire, next).wire.bytes == r.wire.bytes
  {
    var r := Write(c, w, frame);
    assert r.wire.bytes + [] == r.wire.bytes;
  }

  // ---- round trip -------------------------------------------------------------------------

  /** Writing the frames in turn. */
  function WriteEach(c: Codec, w: Wire, frames: seq<Frame>): Written
    decreases |frames|
  {
    if frames == [] then Written(w, Ok(()))
    else
      var first := Write(c, w, frames[0]);
      if first.result.Err? then first else WriteEach(c, first.wire, frames[1..])
  }

  /** Everything read from a stream: a result for each complete chunk, then how it ends. */
  function ReadEach(c: Codec, s: seq<Byte>, broken: bool): (r: seq<Result<Option<Frame>, TransportError>>)
    decreases |s|
  {
    [ReadResult(c, s, broken)]
    + if StartsWithChunk(c.order, s) then ReadEach(c, s[4 + Declared(c.order, s[..4])..], broken) else []
  }

  ghost predicate AllFit(c: Codec, frames: seq<Frame>) {
    forall k :: 0 <= k < |frames| ==> Fits(c, frames[k])
  }

  function Bodies(c: Codec, frames: seq<Frame>): (r: seq<seq<Byte>>)
    requires AllFit(c, frames)
    ensures |r| == |frames| && Readable(r)
    ensures forall k :: 0 <= k < |r| ==> c.encode(frames[k]) == Ok(r[k])
  {
    if frames == [] then [] else [c.encode(frames[0]).value] + Bodies(c, frames[1..])
  }

  /** Frames that fit, on an output that does not fail, are appended whole and in order. */
  lemma {:induction false} WriteEachAppends(c: Codec, w: Wire, frames: seq<Frame>)
    requires AllFit(c, frames)
    requires |Packed(c.order, Bodies(c, frames))| <= w.room && |frames| <= w.flushes
    ensures WriteEach(c, w, frames).result == Ok(())
    ensures WriteEach(c, w, frames).wire.bytes == w.bytes + Packed(c.order, Bodies(c, frames))
    decreases |frames|
  {
    if frames == [] {
      assert w.bytes + [] == w.bytes;
    } else {
      var first := Write(c, w, frames[0]);
      var bodies := Bodies(c, frames);
      assert bodies[0] == c.encode(frames[0]).value && bodies[1..] == Bodies(c, frames[1..]);
      WriteEachAppends(c, first.wire, frames[1..]);
      assert w.bytes + Framed(c.order, bodies[0]) + Packed(c.order, bodies[1..])
          == w.bytes + (Framed(c.order, bodies[0]) + Packed(c.order, bodies[1..]));
    }
  }

  /** The results of reading exactly these frames and then the end of the stream. */
  function Delivered(frames: seq<Frame>): seq<Result<Option<Frame>, TransportError>> {
    if frames == [] then [Ok(None)] else [Ok(Some(frames[0]))] + Delivered(frames[1..])
  }

  ghost predicate ParsesBack(c: Codec, frames: seq<Frame>) {
    forall k :: 0 <= k < |frames| ==> c.encode(frames[k]).Ok? && c.parse(c.encode(frames[k]).value) == Ok(frames[k])
  }

  /** Reading packed frames gives back those frames and then the end of the stream. */
  lemma {:induction false} ReadOfPacked(c: Codec, frames: seq<Frame>)
    requires AllFit(c, frames) && ParsesBack(c, frames)
    ensures ReadEach(c, Packed(c.order, Bodies(c, frames)), false) == Delivered(frames)
  {
    if frames != [] {
      var bodies := Bodies(c, frames);
      assert bodies[1..] == Bodies(c, frames[1..]);
      ReadOfPacked(c, frames[1..]);
      FirstChunk(c.order, bodies[0], Packed(c.order, bodies[1..]));
    }
  }

  /** Written frames that fit are read back exactly, in order, and then the stream ends. */
  lemma ReadOfWrite(c: Codec, frames: seq<Frame>, room: nat, flushes: nat)
    requires AllFit(c, frames) && ParsesBack(c, frames)
    requires |Packed(c.order, Bodies(c, frames))| <= room && |frames| <= flushes
    ensures ReadEach(c, WriteEach(c, Wire([], room, flushes), frames).wire.bytes, false) == Delivered(frames)
  {
    WriteEachAppends(c, Wire([], room, flushes), frames);
    assert [] + Packed(c.order, Bodies(c, frames)) == Packed(c.order, Bodies(c, frames));
    ReadOfPacked(c, frames);
  }
}
