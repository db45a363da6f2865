/** What the application is handed: whatever a server writes, in whatever pieces it arrives, every
    ping, realtime message and response is delivered once, in order, as it was sent. */
module Delivery {
  import opened Basics
  import opened Varint
  import opened Frames
  import opened IoLoop
  import opened ServerFrames
  import Protobuf

  // ---- What is sent ----

  /** A realtime message: with a request id in its first field, with another first field or none, or
      with a first field that breaks off. */
  datatype Body =
    | Addressed(cid: int, others: seq<Byte>)
    | Anonymous(bytes: seq<Byte>)
    | Broken(tail: seq<Byte>)

  /** How a realtime message travels. */
  datatype Carrier = Units | Socket(form: LengthForm)

  datatype Piece = Piece(code: nat, low: nat, payload: seq<Byte>)

  datatype Inbound =
    | Pong(cid: nat)
    | Push(carrier: Carrier, body: Body)
    | Response(cid: nat, pieces: seq<Piece>, code: nat, last: seq<Byte>)
    | Flood(cid: nat, pieces: seq<Piece>, over: Piece)   // more than a response may hold

  /** A 32-bit request id as a protobuf field: negative ones as 64-bit numbers. */
  function BodyBytes(body: Body): seq<Byte>
    requires body.Addressed? ==> -0x8000_0000 <= body.cid < 0x8000_0000
  {
    match body
    case Addressed(cid, others) => [0x08] + EncodeVarint(if cid < 0 then cid + 0x1_0000_0000_0000_0000 else cid) + others
    case Anonymous(bytes) => bytes
    case Broken(tail) => [0x08] + tail
  }

  predicate ValidBody(body: Body) {
    match body
    case Addressed(cid, _) => -0x8000_0000 <= cid < 0x8000_0000
    case Anonymous(bytes) => bytes == [] || bytes[0] != 0x08
    case Broken(tail) => ReadVarint(tail).None?
  }

  /** In units the message is padded to a multiple of four bytes. */
  function Padded(bytes: seq<Byte>): seq<Byte> {
    bytes + Zeros(Padding(|bytes|))
  }

  function Carried(carrier: Carrier, bytes: seq<Byte>): seq<Byte>
    requires carrier.Socket? ==> Fits(carrier.form, |bytes|)
  {
    match carrier
    case Socket(form) => WebsocketHead(form, |bytes|) + bytes
    case Units =>
      var padded := Padded(bytes);
      (if |padded| < 127 * 4 then [|padded| / 4] else ExtendedHead(|padded| / 4)) + padded
  }

  predicate ValidPiece(piece: Piece) {
    piece.code < 0x1_0000 && piece.low < 0x1_0000 && piece.low != 0xff && |piece.payload| <= 0x100_0000
  }

  function PieceBytes(cid: nat, piece: Piece): seq<Byte> {
    ResponseHeader(cid, piece.code, piece.low, |piece.payload|) + piece.payload
  }

  function PiecesBytes(cid: nat, pieces: seq<Piece>): seq<Byte> {
    if pieces == [] then [] else PieceBytes(cid, pieces[0]) + PiecesBytes(cid, pieces[1..])
  }

  function Payloads(pieces: seq<Piece>): seq<seq<Byte>> {
    if pieces == [] then [] else [pieces[0].payload] + Payloads(pieces[1..])
  }

  predicate ValidPieces(cid: nat, pieces: seq<Piece>) {
    cid < 0x1_0000 && (forall p :: p in pieces ==> ValidPiece(p)) && |Concat(Payloads(pieces))| <= 0x100_0000
  }

  ghost predicate Valid(item: Inbound) {
    match item
    case Pong(cid) => cid < 0x1_0000
    case Push(carrier, body) =>
      ValidBody(body) && |BodyBytes(body)| <= 0x10_0000 &&
      (match carrier
       case Socket(form) => Fits(form, |BodyBytes(body)|)
       case Units => BodyBytes(body) != [] && Protobuf.WellFormed(BodyBytes(body)))
    case Response(cid, pieces, code, last) => ValidPieces(cid, pieces) && code < 0x1_0000 && |last| <= 0x100_0000
    case Flood(cid, pieces, over) =>
      ValidPieces(cid, pieces) && ValidPiece(over) && |Concat(Payloads(pieces))| + |over.payload| > 0x100_0000
  }

  function Bytes(item: Inbound): seq<Byte>
    requires Valid(item)
  {
    match item
    case Pong(cid) => [0x00] + BigEndian(cid, 2)
    case Push(carrier, body) => Carried(carrier, BodyBytes(body))
    case Response(cid, pieces, code, last) => PiecesBytes(cid, pieces) + (ResponseHeader(cid, code, 0xff, |last|) + last)
    case Flood(cid, pieces, over) => PiecesBytes(cid, pieces) + PieceBytes(cid, over)
  }

  function AllBytes(items: seq<Inbound>): seq<Byte>
    requires forall i :: i in items ==> Valid(i)
  {
    if items == [] then [] else Bytes(items[0]) + AllBytes(items[1..])
  }

  // ---- What is due ----

  function DueBody(decode: EnvelopeCid, body: Body): seq<Message>
    requires ValidBody(body)
  {
    match body
    case Addressed(cid, _) => if 0 <= cid < 0x1_0000 then [Message(cid, 0, BodyBytes(body))] else []
    case Anonymous(bytes) => [Message(0, 0, bytes)]
    case Broken(tail) =>
      match decode([0x08] + tail)
      case None => []
      case Some(cid) => if 0 <= cid < 0x1_0000 then [Message(cid, 0, [0x08] + tail)] else []
  }

  function Due(decode: EnvelopeCid, item: Inbound): seq<Message>
    requires Valid(item)
  {
    match item
    case Pong(cid) => [Message(cid, 0, [])]
    case Push(_, body) => DueBody(decode, body)
    case Response(cid, pieces, code, last) => [Message(cid, code, Concat(Payloads(pieces)) + last)]
    case Flood(cid, _, _) => [Message(cid, 0xffff, [])]
  }

  function AllDue(decode: EnvelopeCid, items: seq<Inbound>): seq<Message>
    requires forall i :: i in items ==> Valid(i)
  {
    if items == [] then [] else Due(decode, items[0]) + AllDue(decode, items[1..])
  }

  // ---- One frame ----

  lemma DriveOne(decode: EnvelopeCid, core: Core, head: seq<Byte>, frame: Frame, rest: seq<Byte>)
    requires head != [] && DecodeFrame(head + rest) == Whole(|head|, frame)
    ensures Drive(decode, core, head + rest) == Drive(decode, ApplyFrame(decode, core, frame), rest)
  {
    hide DecodeFrame, ApplyFrame;
    assert (head + rest)[|head|..] == rest;
  }

  lemma PongDriven(decode: EnvelopeCid, core: Core, cid: nat, rest: seq<Byte>)
    requires cid < 0x1_0000
    ensures Drive(decode, core, [0x00] + BigEndian(cid, 2) + rest)
         == Drive(decode, Core(core.streams, core.out + [Message(cid, 0, [])]), rest)
  {
    hide BigEndian, Drive, BE16;
    var head := [0x00] + BigEndian(cid, 2);
    assert (head + rest)[1..3] == BigEndian(cid, 2);
    ReadTwo(head + rest, 1, cid);
    DriveOne(decode, core, head, Ping(cid), rest);
  }

  lemma CarriedDecodes(carrier: Carrier, bytes: seq<Byte>, rest: seq<Byte>)
    requires |bytes| <= 0x10_0000
    requires match carrier
             case Socket(form) => Fits(form, |bytes|)
             case Units => bytes != [] && Protobuf.WellFormed(bytes)
    ensures Carried(carrier, bytes) != []
    ensures DecodeFrame(Carried(carrier, bytes) + rest) == Whole(|Carried(carrier, bytes)|, Realtime(bytes))
  {
    hide DecodeFrame, WebsocketHead, ExtendedHead, Protobuf.WellFormed, Protobuf.MessageLen;
    match carrier
    case Socket(form) =>
      WebsocketDecodes(form, bytes, rest);
      WebsocketLength(form, |bytes|, []);
    case Units =>
      var padded := Padded(bytes);
      Protobuf.PaddingIsStripped(bytes, Padding(|bytes|));
      assert RealtimePayload(padded) == bytes;
      UnitsDecode(padded, rest);
      ExtendedLength(|padded| / 4, []);
  }

  lemma AddressIsRead(cid: int, others: seq<Byte>)
    requires -0x8000_0000 <= cid < 0x8000_0000
    ensures ScanRealtimeCid(BodyBytes(Addressed(cid, others))) == Some(cid)
  {
    hide EncodeVarint, ReadVarint;
    var v: nat := if cid < 0 then cid + 0x1_0000_0000_0000_0000 else cid;
    VarintRoundTrip(v, others);
    var bytes := BodyBytes(Addressed(cid, others));
    assert bytes == [0x08] + (EncodeVarint(v) + others);
    assert bytes[1..] == EncodeVarint(v) + others;
    assert AsI32(v) == cid;
  }

  /** A realtime message is delivered whole, under its request id, or not at all. */
  lemma BodyDelivered(decode: EnvelopeCid, core: Core, body: Body)
    requires ValidBody(body)
    ensures ApplyFrame(decode, core, Realtime(BodyBytes(body))) == Core(core.streams, core.out + DueBody(decode, body))
  {
    hide EncodeVarint, ReadVarint, AsI32;
    match body
    case Addressed(cid, others) => AddressIsRead(cid, others);
    case Anonymous(_) =>
    case Broken(tail) => assert ([0x08] + tail)[1..] == tail;
  }

  lemma PushDriven(decode: EnvelopeCid, core: Core, carrier: Carrier, body: Body, rest: seq<Byte>)
    requires Valid(Push(carrier, body))
    ensures Drive(decode, core, Bytes(Push(carrier, body)) + rest)
         == Drive(decode, Core(core.streams, core.out + DueBody(decode, body)), rest)
  {
    hide Carried, BodyBytes, DueBody, Drive, ApplyFrame, DecodeFrame, Protobuf.WellFormed;
    CarriedDecodes(carrier, BodyBytes(body), rest);
    DriveOne(decode, core, Carried(carrier, BodyBytes(body)), Realtime(BodyBytes(body)), rest);
    BodyDelivered(decode, core, body);
  }

  // ---- Responses in pieces ----

  /** A piece that fits is kept with those before it. */
  lemma PieceDriven(decode: EnvelopeCid, core: Core, cid: nat, piece: Piece, rest: seq<Byte>)
    requires cid < 0x1_0000 && ValidPiece(piece)
    requires |Concat(ChunksOf(core.streams, cid) + [piece.payload])| <= 0x100_0000
    ensures Drive(decode, core, PieceBytes(cid, piece) + rest)
         == Drive(decode, Core(core.streams[cid := ChunksOf(core.streams, cid) + [piece.payload]], core.out), rest)
  {
    hide ResponseHeader, Drive, DecodeFrame, Concat;
    ResponseDecodes(cid, piece.code, piece.low, piece.payload, rest);
    HeaderLength(cid, piece.code, piece.low, |piece.payload|);
    DriveOne(decode, core, PieceBytes(cid, piece), Raw(cid, piece.code, false, piece.payload), rest);
    assert core.out + [] == core.out;
  }

  lemma HeaderLength(cid: nat, code: nat, low: nat, len: nat)
    ensures |ResponseHeader(cid, code, low, len)| == 11
  {
  }

  /** The partial response of a request after more pieces. */
  function Kept(streams: Streams, cid: nat, pieces: seq<Piece>): Streams {
    if pieces == [] then streams else streams[cid := ChunksOf(streams, cid) + Payloads(pieces)]
  }

  lemma {:induction false} PiecesDriven(decode: EnvelopeCid, core: Core, cid: nat, pieces: seq<Piece>, rest: seq<Byte>)
    requires cid < 0x1_0000 && forall p :: p in pieces ==> ValidPiece(p)
    requires |Concat(ChunksOf(core.streams, cid))| + |Concat(Payloads(pieces))| <= 0x100_0000
    ensures Drive(decode, core, PiecesBytes(cid, pieces) + rest)
         == Drive(decode, Core(Kept(core.streams, cid, pieces), core.out), rest)
    decreases |pieces|
  {
    hide Drive, PieceBytes, Concat, ValidPiece;
    if pieces == [] {
      assert [] + rest == rest;
    } else {
      var first, later := pieces[0], pieces[1..];
      var before := ChunksOf(core.streams, cid);
      assert first in pieces;
      PayloadSplits(before, pieces);
      Associative(PieceBytes(cid, first), PiecesBytes(cid, later), rest);
      PieceDriven(decode, core, cid, first, PiecesBytes(cid, later) + rest);
      var after := core.streams[cid := before + [first.payload]];
      PiecesDriven(decode, Core(after, core.out), cid, later, rest);
      KeptMore(core.streams, cid, pieces);
    }
  }

  lemma KeptMore(streams: Streams, cid: nat, pieces: seq<Piece>)
    requires pieces != []
    ensures Kept(streams[cid := ChunksOf(streams, cid) + [pieces[0].payload]], cid, pieces[1..]) == Kept(streams, cid, pieces)
  {
    var before, first := ChunksOf(streams, cid), pieces[0].payload;
    Associative(before, [first], Payloads(pieces[1..]));
    if pieces[1..] == [] {
      assert Payloads(pieces) == [first];
    }
  }

  lemma PayloadSplits(before: seq<seq<Byte>>, pieces: seq<Piece>)
    requires pieces != []
    ensures Payloads(pieces) == [pieces[0].payload] + Payloads(pieces[1..])
    ensures |Concat(before + [pieces[0].payload])| == |Concat(before)| + |pieces[0].payload|
    ensures |Concat(Payloads(pieces))| == |pieces[0].payload| + |Concat(Payloads(pieces[1..]))|
  {
    hide Concat;
    ConcatSnoc(before, pieces[0].payload);
    FirstPart(pieces[0].payload, Payloads(pieces[1..]));
  }

  lemma FirstPart(x: seq<Byte>, others: seq<seq<Byte>>)
    ensures Concat([x] + others) == x + Concat(others)
  {
    assert ([x] + others)[1..] == others;
  }

  lemma ChunksKept(streams: Streams, cid: nat, pieces: seq<Piece>)
    requires cid !in streams
    ensures ChunksOf(Kept(streams, cid, pieces), cid) == Payloads(pieces)
    ensures Kept(streams, cid, pieces) - {cid} == streams
    ensures ChunksOf(streams, cid) == [] && |Concat(ChunksOf(streams, cid))| == 0
  {
    assert [] + Payloads(pieces) == Payloads(pieces);
  }

  /** A response in any number of pieces is delivered once and whole. */
  lemma ResponseDriven(decode: EnvelopeCid, core: Core, cid: nat, pieces: seq<Piece>, code: nat, last: seq<Byte>, rest: seq<Byte>)
    requires Valid(Response(cid, pieces, code, last)) && cid !in core.streams
    ensures Drive(decode, core, Bytes(Response(cid, pieces, code, last)) + rest)
         == Drive(decode, Core(core.streams, core.out + [Message(cid, code, Concat(Payloads(pieces)) + last)]), rest)
  {
    hide Drive, DecodeFrame, PiecesBytes, ResponseHeader, Concat, Kept, Payloads, ValidPiece;
    var final := ResponseHeader(cid, code, 0xff, |last|) + last;
    var kept := Core(Kept(core.streams, cid, pieces), core.out);
    ChunksKept(core.streams, cid, pieces);
    Associative(PiecesBytes(cid, pieces), final, rest);
    PiecesDriven(decode, core, cid, pieces, final + rest);
    ResponseDecodes(cid, code, 0xff, last, rest);
    HeaderLength(cid, code, 0xff, |last|);
    DriveOne(decode, kept, final, Raw(cid, code, true, last), rest);
  }

  /** A response that grows beyond its cap is answered with the failure code, and its pieces are gone. */
  lemma FloodDriven(decode: EnvelopeCid, core: Core, cid: nat, pieces: seq<Piece>, over: Piece, rest: seq<Byte>)
    requires Valid(Flood(cid, pieces, over)) && cid !in core.streams
    ensures Drive(decode, core, Bytes(Flood(cid, pieces, over)) + rest)
         == Drive(decode, Core(core.streams, core.out + [Message(cid, 0xffff, [])]), rest)
  {
    hide Drive, DecodeFrame, PiecesBytes, ResponseHeader, Concat, Kept, Payloads;
    var kept := Core(Kept(core.streams, cid, pieces), core.out);
    ChunksKept(core.streams, cid, pieces);
    Associative(PiecesBytes(cid, pieces), PieceBytes(cid, over), rest);
    PiecesDriven(decode, core, cid, pieces, PieceBytes(cid, over) + rest) by { hide ValidPiece; }
    ResponseDecodes(cid, over.code, over.low, over.payload, rest);
    HeaderLength(cid, over.code, over.low, |over.payload|);
    ConcatSnoc(Payloads(pieces), over.payload);
    DriveOne(decode, kept, PieceBytes(cid, over), Raw(cid, over.code, false, over.payload), rest);
  }

  // ---- Whole streams ----

  /** No part of the response has come before. */
  predicate StartsAfresh(streams: Streams, item: Inbound) {
    item.Response? || item.Flood? ==> item.cid !in streams
  }

  lemma ItemDriven(decode: EnvelopeCid, core: Core, item: Inbound, rest: seq<Byte>)
    requires Valid(item) && StartsAfresh(core.streams, item)
    ensures Drive(decode, core, Bytes(item) + rest)
         == Drive(decode, Core(core.streams, core.out + Due(decode, item)), rest)
  {
    hide Drive, Valid, Bytes, DueBody, Concat, Payloads;
    match item
    case Pong(cid) => PongIs(decode, core, item, rest);
    case Push(carrier, body) => PushDriven(decode, core, carrier, body, rest);
    case Response(cid, pieces, code, last) => ResponseDriven(decode, core, cid, pieces, code, last, rest);
    case Flood(cid, pieces, over) => FloodDriven(decode, core, cid, pieces, over, rest);
  }

  lemma PongIs(decode: EnvelopeCid, core: Core, item: Inbound, rest: seq<Byte>)
    requires item.Pong? && Valid(item)
    ensures Drive(decode, core, Bytes(item) + rest)
         == Drive(decode, Core(core.streams, core.out + [Message(item.cid, 0, [])]), rest)
  {
    hide Drive, BigEndian;
    PongDriven(decode, core, item.cid, rest);
  }

  lemma {:induction false} AllDriven(decode: EnvelopeCid, core: Core, items: seq<Inbound>)
    requires forall i :: i in items ==> Valid(i) && StartsAfresh(core.streams, i)
    ensures Drive(decode, core, AllBytes(items)) == Running(Core(core.streams, core.out + AllDue(decode, items)), [])
    decreases |items|
  {
    hide Valid, Bytes, Due, StartsAfresh;
    if items == [] {
      NothingAdded(core.out);
    } else {
      hide Drive;
      assert items[0] in items;
      ItemDriven(decode, core, items[0], AllBytes(items[1..]));
      AllDriven(decode, Core(core.streams, core.out + Due(decode, items[0])), items[1..]);
      Associative(core.out, Due(decode, items[0]), AllDue(decode, items[1..]));
    }
  }

  /** Whatever a server sends, in whatever pieces it arrives: the application is handed exactly what is
      due, item by item, partial responses of other requests stay as they are, and nothing is left
      over. */
  lemma SentIsDelivered(decode: EnvelopeCid, core: Core, items: seq<Inbound>, cuts: seq<seq<Byte>>)
    requires forall i :: i in items ==> Valid(i) && StartsAfresh(core.streams, i)
    requires Concat(cuts) == AllBytes(items)
    ensures Feed(decode, core, [], cuts) == Running(Core(core.streams, core.out + AllDue(decode, items)), [])
  {
    hide Feed, Drive, AllBytes, AllDue, Valid, StartsAfresh;
    FragmentationIndependence(decode, core, [], cuts);
    assert [] + Concat(cuts) == AllBytes(items);
    AllDriven(decode, core, items);
  }

  /** The packet that the client writes is the same as that of a server, and so is its ping. */
  lemma ClientWritesAlike(message: seq<Byte>, cid: nat)
    requires message != [] && !ExceedsCap(|message|)
    ensures Packet(message) == Carried(Units, message)
    ensures cid < 0x1_0000 ==> WireBytes(SendPing(cid)) == [0x00] + BigEndian(cid, 2)
  {
    hide BigEndian, LittleEndian;
    if cid < 0x1_0000 {
      TwoBytes(cid);
      assert cid / 256 % 256 == cid / 256;
    }
    var units := PaddedLen(|message|) / 4;
    ThreeBytes(units);
    assert units / 0x1_0000 % 256 == units / 0x1_0000;
    assert |Padded(message)| == PaddedLen(|message|);
  }
}
