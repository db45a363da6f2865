/** The read side of the transport: a buffer that grows by reads and shrinks by frames, the
    partial API responses, and the messages handed to the application. */
module IoLoop {
  import opened Basics
  import opened Varint
  import opened Frames
  import Protobuf

  const RESPONSE_CODE_TOO_LARGE := 0xffff
  const ENVELOPE_CID_TAG: Byte := 0x08

  datatype Message = Message(cid: nat, code: nat, body: seq<Byte>)

  /** Schema decoding of an envelope is a parameter: Some(cid) or a decode error. */
  type EnvelopeCid = seq<Byte> -> Option<int>

  /** Chunks of every API response that has not seen its final frame. */
  type Streams = map<nat, seq<seq<Byte>>>

  datatype Core = Core(streams: Streams, out: seq<Message>)

  function AsI32(value: nat): int {
    var low := value % U32_LIMIT;
    if low < 0x8000_0000 then low else low - U32_LIMIT
  }

  function ScanRealtimeCid(payload: seq<Byte>): Option<int> {
    if payload != [] && payload[0] == ENVELOPE_CID_TAG then
      match ReadVarint(payload[1..])
      case None => None
      case Some((value, _)) => Some(AsI32(value))
    else Some(0)
  }

  /** The request id a realtime payload is delivered under; None drops it. */
  function RealtimeCid(decode: EnvelopeCid, payload: seq<Byte>): (r: Option<nat>)
    ensures r.Some? ==> r.value < U16_LIMIT
  {
    var scanned := ScanRealtimeCid(payload);
    match if scanned.Some? then scanned else decode(payload)
    case None => None
    case Some(cid) => if 0 <= cid < U16_LIMIT then Some(cid) else None
  }

  function ChunksOf(streams: Streams, cid: nat): seq<seq<Byte>> {
    if cid in streams then streams[cid] else []
  }

  function Buffered(chunks: seq<seq<Byte>>): nat {
    |Concat(chunks)|
  }

  /** The messages one frame gives rise to. */
  function Emitted(decode: EnvelopeCid, streams: Streams, frame: Frame): seq<Message> {
    match frame
    case Ping(cid) => [Message(cid, 0, [])]
    case Raw(cid, code, fin, payload) =>
      var chunks := ChunksOf(streams, cid);
      if fin then [Message(cid, code, Concat(chunks) + payload)]
      else if Buffered(chunks + [payload]) > MAX_API_RESPONSE_LEN then [Message(cid, RESPONSE_CODE_TOO_LARGE, [])]
      else []
    case Realtime(payload) =>
      match RealtimeCid(decode, payload)
      case None => []
      case Some(cid) => [Message(cid, 0, payload)]
  }

  function StreamsAfter(streams: Streams, frame: Frame): Streams {
    match frame
    case Raw(cid, _, fin, payload) =>
      var chunks := ChunksOf(streams, cid) + [payload];
      if fin || Buffered(chunks) > MAX_API_RESPONSE_LEN then streams - {cid} else streams[cid := chunks]
    case _ => streams
  }

  function ApplyFrame(decode: EnvelopeCid, core: Core, frame: Frame): Core {
    Core(StreamsAfter(core.streams, frame), core.out + Emitted(decode, core.streams, frame))
  }

  function ApplyAll(decode: EnvelopeCid, core: Core, frames: seq<Frame>): Core
    decreases |frames|
  {
    if frames == [] then core else ApplyAll(decode, ApplyFrame(decode, core, frames[0]), frames[1..])
  }

  /** Where a stretch of input leaves the connection. */
  datatype Outcome =
    | Running(core: Core, rest: seq<Byte>)
    | Dropped(out: seq<Message>)     // desynchronised: buffer and partial responses are gone

  function Drive(decode: EnvelopeCid, core: Core, buf: seq<Byte>): Outcome
    decreases |buf|
  {
    if buf == [] then Running(core, [])
    else match DecodeFrame(buf)
      case NeedMore => Running(core, buf)
      case Reset(_) => Dropped(core.out)
      case Whole(n, frame) => Drive(decode, ApplyFrame(decode, core, frame), buf[n..])
  }

  /** Nothing in the buffer can be processed yet. */
  predicate Settled(buf: seq<Byte>) {
    buf == [] || DecodeFrame(buf).NeedMore?
  }

  class IoLoopState {
    const decode: EnvelopeCid
    var streams: Streams
    var readBuffer: seq<Byte>
    var out: seq<Message>

    ghost predicate Valid()
      reads this
    {
      Settled(readBuffer)
    }

    function View(): Core
      reads this
    {
      Core(streams, out)
    }

    /** The state is what the pure run says. */
    ghost predicate Reached(o: Outcome, ok: bool)
      reads this
    {
      match o
      case Running(core, rest) => ok && View() == core && readBuffer == rest
      case Dropped(messages) => !ok && out == messages && readBuffer == [] && streams == map[]
    }

    constructor (decode: EnvelopeCid)
      ensures Valid() && this.decode == decode
      ensures streams == map[] && readBuffer == [] && out == []
    {
      this.decode := decode;
      streams := map[];
      readBuffer := [];
      out := [];
    }

    method HandleData(incoming: seq<Byte>) returns (ok: bool)
      requires Valid()
      modifies this
      ensures Valid()
      ensures Reached(Drive(decode, old(View()), old(readBuffer) + incoming), ok)
    {
      if incoming == [] {
        SettledIsFixed(decode, View(), readBuffer);
        assert readBuffer + incoming == readBuffer;
        return true;
      }
      readBuffer := readBuffer + incoming;
      ok := ProcessRawBuffer();
    }

    method ProcessRawBuffer() returns (ok: bool)
      modifies this
      ensures Valid()
      ensures Reached(Drive(decode, old(View()), old(readBuffer)), ok)
    {
      hide DecodeFrame, ApplyFrame;
      var start := 0;
      assert readBuffer[0..] == readBuffer;
      while true
        invariant 0 <= start <= |readBuffer| && readBuffer == old(readBuffer)
        invariant Drive(decode, old(View()), old(readBuffer)) == Drive(decode, View(), readBuffer[start..])
        decreases |readBuffer| - start
      {
        if start >= |readBuffer| {
          readBuffer := readBuffer[start..];
          return true;
        }
        var frame: Frame;
        match DecodeFrame(readBuffer[start..]) {
          case NeedMore =>
            readBuffer := readBuffer[start..];
            return true;
          case Reset(_) =>
            readBuffer := [];
            streams := map[];
            return false;
          case Whole(consumed, f) =>
            assert readBuffer[start..][consumed..] == readBuffer[start + consumed..];
            start := start + consumed;
            frame := f;
        }
        Dispatch(frame);
      }
    }

    method Dispatch(frame: Frame)
      modifies this`streams, this`out
      ensures View() == ApplyFrame(decode, old(View()), frame)
    {
      match frame
      case Ping(cid) =>
        out := out + [Message(cid, 0, [])];
      case Raw(cid, code, fin, payload) =>
        if fin {
          var body := payload;
          if cid in streams {
            body := Concat(streams[cid]) + payload;
          }
          out := out + [Message(cid, code, body)];
          streams := streams - {cid};
          assert body == Concat(ChunksOf(old(streams), cid)) + payload;
        } else {
          var chunks := ChunksOf(streams, cid) + [payload];
          streams := streams[cid := chunks];
          if Buffered(chunks) > MAX_API_RESPONSE_LEN {
            streams := streams - {cid};
            assert streams == old(streams) - {cid};
            out := out + [Message(cid, RESPONSE_CODE_TOO_LARGE, [])];
          }
        }
      case Realtime(payload) =>
        var cid := ScanRealtimeCid(payload);
        if cid.None? {
          cid := decode(payload);
          if cid.None? {
            return;
          }
        }
        if 0 <= cid.value < U16_LIMIT {
          out := out + [Message(cid.value, 0, payload)];
        }
    }

    /** The reads of one connection, up to the first that desynchronises: the state depends on
        the bytes received, not on where the reads cut them. */
    method ReadLoop(cuts: seq<seq<Byte>>) returns (ok: bool)
      requires Valid()
      modifies this
      ensures Valid()
      ensures Reached(Drive(decode, old(View()), old(readBuffer) + Concat(cuts)), ok)
    {
      ok := true;
      var i := 0;
      FragmentationIndependence(decode, View(), readBuffer, cuts);
      assert cuts[0..] == cuts;
      while i < |cuts|
        invariant 0 <= i <= |cuts| && Valid() && ok
        invariant Feed(decode, old(View()), old(readBuffer), cuts) == Feed(decode, View(), readBuffer, cuts[i..])
      {
        assert cuts[i..][1..] == cuts[i + 1..];
        ok := HandleData(cuts[i]);
        if !ok {
          return;
        }
        i := i + 1;
      }
    }
  }

  // ---- Fragmentation independence ----

  lemma SettledIsFixed(decode: EnvelopeCid, core: Core, buf: seq<Byte>)
    requires Settled(buf)
    ensures Drive(decode, core, buf) == Running(core, buf)
  {
  }

  function Resume(decode: EnvelopeCid, o: Outcome, more: seq<Byte>): Outcome {
    match o
    case Running(core, rest) => Drive(decode, core, rest + more)
    case Dropped(_) => o
  }

  /** Processing a prefix first and the rest later is processing the whole. */
  lemma {:induction false} DriveSplits(decode: EnvelopeCid, core: Core, a: seq<Byte>, b: seq<Byte>)
    ensures Drive(decode, core, a + b) == Resume(decode, Drive(decode, core, a), b)
    decreases |a|
  {
    hide DecodeFrame, ApplyFrame;
    if a == [] {
      assert a + b == b;
    } else {
      DecodeFrameStable(a, b);
      match DecodeFrame(a) {
        case Whole(n, frame) =>
          assert (a + b)[n..] == a[n..] + b;
          DriveSplits(decode, ApplyFrame(decode, core, frame), a[n..], b);
        case _ =>
      }
    }
  }

  /** One call of HandleData per read, stopping at a reset. */
  function Feed(decode: EnvelopeCid, core: Core, buf: seq<Byte>, cuts: seq<seq<Byte>>): Outcome
    decreases |cuts|
  {
    if cuts == [] then Running(core, buf)
    else match Drive(decode, core, buf + cuts[0])
      case Running(core', rest) => Feed(decode, core', rest, cuts[1..])
      case Dropped(out) => Dropped(out)
  }

  /** However the stream is cut into reads, the result is that of one read of everything. */
  lemma {:induction false} FragmentationIndependence(decode: EnvelopeCid, core: Core, buf: seq<Byte>,
                                                     cuts: seq<seq<Byte>>)
    requires Settled(buf)
    ensures Feed(decode, core, buf, cuts) == Drive(decode, core, buf + Concat(cuts))
    decreases |cuts|
  {
    if cuts == [] {
      SettledIsFixed(decode, core, buf);
      assert buf + [] == buf;
    } else {
      var first, later := buf + cuts[0], Concat(cuts[1..]);
      assert buf + Concat(cuts) == first + later;
      DriveSplits(decode, core, first, later);
      DriveSettles(decode, core, first);
      match Drive(decode, core, first) {
        case Running(core', rest) => FragmentationIndependence(decode, core', rest, cuts[1..]);
        case Dropped(_) =>
      }
    }
  }

  /** What is left over is one incomplete frame, shorter than the largest raw frame. */
  lemma {:induction false} DriveSettles(decode: EnvelopeCid, core: Core, buf: seq<Byte>)
    ensures var o := Drive(decode, core, buf);
            o.Running? ==> Settled(o.rest) && |o.rest| < RAW_HEADER_LENGTH + MAX_API_RESPONSE_LEN
    decreases |buf|
  {
    if buf != [] {
      match DecodeFrame(buf) {
        case NeedMore => NeedMoreIsBounded(buf);
        case Reset(_) =>
        case Whole(n, frame) => DriveSettles(decode, ApplyFrame(decode, core, frame), buf[n..]);
      }
    }
  }

  /** The loop is the frame decoder followed by a fold over the frames. */
  lemma {:induction false} DriveIsFold(decode: EnvelopeCid, core: Core, buf: seq<Byte>)
    ensures var d := DecodeAll(buf);
            var end := ApplyAll(decode, core, d.frames);
            Drive(decode, core, buf) == if d.reset.None? then Running(end, d.rest) else Dropped(end.out)
    decreases |buf|
  {
    hide ApplyFrame, DecodeFrame;
    if buf != [] && DecodeFrame(buf).Whole? {
      var n, frame := DecodeFrame(buf).consumed, DecodeFrame(buf).frame;
      DriveIsFold(decode, ApplyFrame(decode, core, frame), buf[n..]);
      assert DecodeAll(buf).frames[1..] == DecodeAll(buf[n..]).frames;
    }
  }

  /** Two ways of cutting the same bytes cannot be told apart. */
  lemma CutsDoNotMatter(decode: EnvelopeCid, core: Core, buf: seq<Byte>, a: seq<seq<Byte>>, b: seq<seq<Byte>>)
    requires Settled(buf) && Concat(a) == Concat(b)
    ensures Feed(decode, core, buf, a) == Feed(decode, core, buf, b)
  {
    hide Feed, Drive, Settled;
    FragmentationIndependence(decode, core, buf, a);
    FragmentationIndependence(decode, core, buf, b);
  }

  /** What one side writes, in whatever pieces it arrives, is what the other side processes: every
      ping and every message, in order, and nothing is left in the buffer. */
  lemma WrittenIsRead(decode: EnvelopeCid, core: Core, os: seq<Outgoing>, cuts: seq<seq<Byte>>)
    requires forall o :: o in os ==> Sendable(o) && (o.SendMessage? ==> Protobuf.WellFormed(o.body))
    requires Concat(cuts) == WireStream(os)
    ensures Feed(decode, core, [], cuts) == Running(ApplyAll(decode, core, Echoes(os)), [])
  {
    hide Feed, Drive, Sendable, ApplyAll, DecodeAll, Echoes, WireStream, Protobuf.WellFormed;
    FragmentationIndependence(decode, core, [], cuts);
    assert [] + Concat(cuts) == WireStream(os);
    StreamRoundTrip(os);
    DriveIsFold(decode, core, WireStream(os));
  }
}
