/** The abridged framing: five inbound frame shapes, and the packets the client sends. */
module Frames {
  import opened Basics
  import opened Protobuf

  const CODE_FIN := 0xff
  const PREFIX_RAW: Byte := 0xff
  const PREFIX_EXTENDED: Byte := 0x7f
  const RAW_HEADER_LENGTH := 11
  const MAX_CLIENT_WS_PAYLOAD := 4096
  const EXTENDED_HEADER_LEN := 4
  const MAX_REALTIME_FRAME_PAYLOAD := MAX_CLIENT_WS_PAYLOAD - EXTENDED_HEADER_LEN
  const MAX_INBOUND_REALTIME_FRAME_LEN := 0x10_0000
  const MAX_API_RESPONSE_LEN := 0x100_0000

  datatype ResetReason =
    | RealtimePayloadTooLarge
    | RawApiResponseTooLarge
    | MaskedWebsocketFrame
    | UnexpectedLeadByte

  datatype Frame =
    | Ping(cid: nat)
    | Raw(cid: nat, code: nat, fin: bool, payload: seq<Byte>)
    | Realtime(payload: seq<Byte>)

  datatype FrameStep =
    | NeedMore
    | Reset(reason: ResetReason)
    | Whole(consumed: nat, frame: Frame)

  function BE16(b: seq<Byte>, i: nat): (n: nat)
    requires i + 2 <= |b|
    ensures n < U16_LIMIT
  {
    b[i] as int * 256 + b[i + 1] as int
  }

  function BE32(b: seq<Byte>, i: nat): (n: nat)
    requires i + 4 <= |b|
    ensures n < U32_LIMIT
  {
    BE16(b, i) * U16_LIMIT + BE16(b, i + 2)
  }

  function BE64(b: seq<Byte>, i: nat): nat
    requires i + 8 <= |b|
  {
    BE32(b, i) * U32_LIMIT + BE32(b, i + 4)
  }

  function LE24(b: seq<Byte>, i: nat): nat
    requires i + 3 <= |b|
  {
    b[i] as int + b[i + 1] as int * 256 + b[i + 2] as int * 0x1_0000
  }

  function RealtimePayload(framed: seq<Byte>): (r: seq<Byte>)
    ensures r <= framed
  {
    framed[..MessageLen(framed).GetOr(|framed|)]
  }

  function DecodePing(buf: seq<Byte>): FrameStep {
    if |buf| < 3 then NeedMore else Whole(3, Ping(BE16(buf, 1)))
  }

  function DecodeRaw(buf: seq<Byte>): FrameStep {
    if |buf| < RAW_HEADER_LENGTH then NeedMore
    else
      var code, len := BE32(buf, 3), BE32(buf, 7);
      if len > MAX_API_RESPONSE_LEN then Reset(RawApiResponseTooLarge)
      else
        var total := RAW_HEADER_LENGTH + len;
        if |buf| < total then NeedMore
        else Whole(total, Raw(BE16(buf, 1), code / U16_LIMIT, code % U16_LIMIT == CODE_FIN,
                              buf[RAW_HEADER_LENGTH..total]))
  }

  function DecodeShort(buf: seq<Byte>): FrameStep
    requires buf != []
  {
    var total := 1 + buf[0] as int * 4;
    if |buf| < total then NeedMore
    else Whole(total, Realtime(RealtimePayload(buf[1..total])))
  }

  function DecodeExtended(buf: seq<Byte>): FrameStep {
    if |buf| < 4 then NeedMore
    else
      var len := LE24(buf, 1) * 4;
      if len > MAX_INBOUND_REALTIME_FRAME_LEN then Reset(RealtimePayloadTooLarge)
      else
        var total := 4 + len;
        if |buf| < total then NeedMore
        else Whole(total, Realtime(RealtimePayload(buf[4..total])))
  }

  /** Header length and payload length of a websocket frame, or None while the header is incomplete. */
  function WebsocketHeader(buf: seq<Byte>): Option<(nat, nat)>
    requires |buf| >= 2
  {
    if buf[1] < 126 then Some((2, buf[1]))
    else if buf[1] == 126 then
      if |buf| < 4 then None else Some((4, BE16(buf, 2)))
    else
      if |buf| < 10 then None else Some((10, BE64(buf, 2)))
  }

  function DecodeWebsocket(buf: seq<Byte>): FrameStep {
    if |buf| < 2 then NeedMore
    else if buf[1] >= 128 then Reset(MaskedWebsocketFrame)
    else match WebsocketHeader(buf)
      case None => NeedMore
      case Some((header, len)) =>
        if len > MAX_INBOUND_REALTIME_FRAME_LEN then Reset(RealtimePayloadTooLarge)
        else
          var total := header + len;
          if |buf| < total then NeedMore
          else Whole(total, Realtime(buf[header..total]))
  }

  function DecodeFrame(buf: seq<Byte>): (r: FrameStep)
    requires buf != []
    ensures r.Whole? ==> 0 < r.consumed <= |buf|
    ensures r.Whole? && r.frame.Raw? ==> |r.frame.payload| <= MAX_API_RESPONSE_LEN
  {
    var first := buf[0];
    if first == 0x00 then DecodePing(buf)
    else if first == PREFIX_RAW then DecodeRaw(buf)
    else if first < PREFIX_EXTENDED then DecodeShort(buf)
    else if first == PREFIX_EXTENDED then DecodeExtended(buf)
    else if first == 0x82 then DecodeWebsocket(buf)
    else Reset(UnexpectedLeadByte)
  }

  // ---- A verdict never depends on the bytes after the frame ----

  lemma SliceOfPrefix(a: seq<Byte>, b: seq<Byte>, i: nat, j: nat)
    requires i <= j <= |a|
    ensures (a + b)[i..j] == a[i..j]
  {
  }

  lemma DecodeRawStable(a: seq<Byte>, b: seq<Byte>)
    ensures DecodeRaw(a).NeedMore? || DecodeRaw(a + b) == DecodeRaw(a)
  {
    if !DecodeRaw(a).NeedMore? && !DecodeRaw(a).Reset? {
      SliceOfPrefix(a, b, RAW_HEADER_LENGTH, DecodeRaw(a).consumed);
    }
  }

  lemma DecodeShortStable(a: seq<Byte>, b: seq<Byte>)
    requires a != []
    ensures DecodeShort(a).NeedMore? || DecodeShort(a + b) == DecodeShort(a)
  {
    if DecodeShort(a).Whole? {
      SliceOfPrefix(a, b, 1, DecodeShort(a).consumed);
    }
  }

  lemma DecodeExtendedStable(a: seq<Byte>, b: seq<Byte>)
    ensures DecodeExtended(a).NeedMore? || DecodeExtended(a + b) == DecodeExtended(a)
  {
    hide RealtimePayload;
    if DecodeExtended(a).Whole? {
      SliceOfPrefix(a, b, 4, DecodeExtended(a).consumed);
    }
  }

  lemma DecodeWebsocketStable(a: seq<Byte>, b: seq<Byte>)
    ensures DecodeWebsocket(a).NeedMore? || DecodeWebsocket(a + b) == DecodeWebsocket(a)
  {
    if DecodeWebsocket(a).Whole? {
      SliceOfPrefix(a, b, WebsocketHeader(a).value.0, DecodeWebsocket(a).consumed);
    }
  }

  /** Once a prefix is enough for a frame or a reset, no further bytes change the verdict. */
  lemma DecodeFrameStable(a: seq<Byte>, b: seq<Byte>)
    requires a != []
    ensures DecodeFrame(a).NeedMore? || DecodeFrame(a + b) == DecodeFrame(a)
  {
    hide DecodeRaw, DecodeShort, DecodeExtended, DecodeWebsocket;
    DecodeRawStable(a, b);
    DecodeShortStable(a, b);
    DecodeExtendedStable(a, b);
    DecodeWebsocketStable(a, b);
  }

  /** A buffer that waits for more bytes is shorter than the largest raw frame. */
  lemma NeedMoreIsBounded(buf: seq<Byte>)
    requires buf != [] && DecodeFrame(buf).NeedMore?
    ensures |buf| < RAW_HEADER_LENGTH + MAX_API_RESPONSE_LEN
  {
  }

  // ---- Sending ----

  function PaddedLen(n: nat): (r: nat)
    ensures r % 4 == 0 && n <= r < n + 4
  {
    n + (4 - n % 4) % 4
  }

  function WirePacketLen(n: nat): nat {
    var padded := PaddedLen(n);
    if padded / 4 < 127 then 1 + padded else EXTENDED_HEADER_LEN + padded
  }

  predicate ExceedsCap(n: nat) {
    WirePacketLen(n) > MAX_CLIENT_WS_PAYLOAD
  }

  function PacketHeader(lenDiv4: nat): seq<Byte> {
    if lenDiv4 < 127 then [lenDiv4]
    else [PREFIX_EXTENDED, lenDiv4 % 256, lenDiv4 / 256 % 256, lenDiv4 / 0x1_0000 % 256]
  }

  function Padding(n: nat): nat {
    PaddedLen(n) - n
  }

  function Packet(message: seq<Byte>): seq<Byte> {
    PacketHeader(PaddedLen(|message|) / 4) + (message + Zeros(Padding(|message|)))
  }

  /** The packet `send` hands to the writer; None when the message is refused as too large. */
  method BuildPacket(message: seq<Byte>) returns (packet: Option<seq<Byte>>)
    ensures packet == if ExceedsCap(|message|) then None else Some(Packet(message))
  {
    if ExceedsCap(|message|) {
      return None;
    }
    var paddingNeeded := (4 - |message| % 4) % 4;
    var finalPayload := message;
    finalPayload := finalPayload + Zeros(paddingNeeded);
    var lenDiv4 := |finalPayload| / 4;
    var header: seq<Byte>;
    if lenDiv4 < 127 {
      header := [lenDiv4];
    } else {
      header := [PREFIX_EXTENDED, 0, 0, 0];
      header := header[1 := lenDiv4 % 256][2 := lenDiv4 / 256 % 256][3 := lenDiv4 / 0x1_0000 % 256];
    }
    assert header == PacketHeader(lenDiv4);
    packet := Some(header + finalPayload);
  }

  /** The advertised wire size is the packet's real size, and the cap is met exactly up to
      MAX_REALTIME_FRAME_PAYLOAD message bytes. */
  lemma WireLenIsTrue(message: seq<Byte>)
    ensures |Packet(message)| == WirePacketLen(|message|)
    ensures ExceedsCap(|message|) <==> |message| > MAX_REALTIME_FRAME_PAYLOAD
  {
  }

  /** What the decoder makes of a packet: the padded message through the delimiter. */
  lemma PacketDecodes(message: seq<Byte>, rest: seq<Byte>)
    requires message != [] && !ExceedsCap(|message|)
    ensures DecodeFrame(Packet(message) + rest)
         == Whole(|Packet(message)|, Realtime(RealtimePayload(message + Zeros(Padding(|message|)))))
  {
    hide RealtimePayload;
    var padded := message + Zeros(Padding(|message|));
    var buf := Packet(message) + rest;
    var lenDiv4 := |padded| / 4;
    WireLenIsTrue(message);
    if lenDiv4 < 127 {
      assert buf[1..1 + |padded|] == padded;
      assert lenDiv4 > 0;
    } else {
      assert buf[4..4 + |padded|] == padded;
      assert LE24(buf, 1) == lenDiv4;
    }
  }

  /** One packet round-trips exactly when its message is well formed, or needs no padding and
      ends inside a field. */
  lemma PacketRoundTripsExactly(message: seq<Byte>, rest: seq<Byte>)
    requires message != [] && !ExceedsCap(|message|)
    ensures DecodeFrame(Packet(message) + rest) == Whole(|Packet(message)|, Realtime(message))
       <==> WellFormed(message) || (|message| % 4 == 0 && MessageLen(message).None?)
  {
    hide WellFormed, MessageLen, DecodeFrame, Packet;
    var k := Padding(|message|);
    var padded := message + Zeros(k);
    PacketDecodes(message, rest);
    PaddingIsStripped(message, k);
    assert RealtimePayload(padded) == message <==> |RealtimePayload(padded)| == |message|;
    if k == 0 {
      assert padded == message;
    } else {
      assert |message| % 4 != 0;
    }
  }

  /** An empty message is the ping lead byte alone: with two more bytes it reads as a ping. */
  lemma EmptyMessageIsAPing(rest: seq<Byte>)
    ensures Packet([]) == [0]
    ensures DecodeFrame(Packet([]) + rest) == if |rest| < 2 then NeedMore else Whole(3, Ping(BE16(rest, 0)))
  {
    var buf := Packet([]) + rest;
    if |rest| >= 2 {
      assert buf[1] == rest[0] && buf[2] == rest[1];
    }
  }

  // ---- Whole streams ----

  /** Everything the client writes after the handshake. */
  datatype Outgoing =
    | SendPing(cid: nat)
    | SendMessage(body: seq<Byte>)

  predicate Sendable(o: Outgoing) {
    match o
    case SendPing(cid) => cid < U16_LIMIT
    case SendMessage(m) => m != [] && !ExceedsCap(|m|)
  }

  function WireBytes(o: Outgoing): seq<Byte> {
    match o
    case SendPing(cid) => [0x00, cid / 256 % 256, cid % 256]
    case SendMessage(m) => Packet(m)
  }

  function WireStream(os: seq<Outgoing>): seq<Byte> {
    if os == [] then [] else WireBytes(os[0]) + WireStream(os[1..])
  }

  function Echo(o: Outgoing): Frame {
    match o
    case SendPing(cid) => Ping(cid)
    case SendMessage(m) => Realtime(m)
  }

  function Echoes(os: seq<Outgoing>): seq<Frame> {
    if os == [] then [] else [Echo(os[0])] + Echoes(os[1..])
  }

  /** All frames of a buffer, and how the decoder leaves it. */
  datatype Decoded = Decoded(frames: seq<Frame>, rest: seq<Byte>, reset: Option<ResetReason>)

  function DecodeAll(buf: seq<Byte>): (r: Decoded)
    ensures |r.rest| <= |buf|
  {
    if buf == [] then Decoded([], [], None)
    else match DecodeFrame(buf)
      case NeedMore => Decoded([], buf, None)
      case Reset(reason) => Decoded([], [], Some(reason))
      case Whole(n, frame) =>
        var tail := DecodeAll(buf[n..]);
        Decoded([frame] + tail.frames, tail.rest, tail.reset)
  }

  lemma WireBytesDecode(o: Outgoing, rest: seq<Byte>)
    requires Sendable(o) && (o.SendMessage? ==> WellFormed(o.body))
    ensures DecodeFrame(WireBytes(o) + rest) == Whole(|WireBytes(o)|, Echo(o))
  {
    hide WellFormed, Packet;
    match o
    case SendPing(cid) =>
      assert cid / 256 % 256 == cid / 256;
    case SendMessage(m) => PacketRoundTripsExactly(m, rest);
  }

  /** The framing round trip: any mix of pings and well-formed messages comes back as sent,
      padding stripped, with nothing left over. */
  lemma {:induction false} StreamRoundTrip(os: seq<Outgoing>)
    requires forall o :: o in os ==> Sendable(o) && (o.SendMessage? ==> WellFormed(o.body))
    ensures DecodeAll(WireStream(os)) == Decoded(Echoes(os), [], None)
  {
    hide DecodeFrame, WireBytes, Sendable, WellFormed;
    if os != [] {
      var head, tail := WireBytes(os[0]), WireStream(os[1..]);
      WireBytesDecode(os[0], tail);
      assert (head + tail)[|head|..] == tail;
      StreamRoundTrip(os[1..]);
    }
  }
}
