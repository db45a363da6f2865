/** What a server writes, read back: every field of a response frame and of a websocket frame, and
    what the application is handed for pings, realtime messages and responses. */
module ServerFrames {
  import opened Basics
  import opened Varint
  import opened Frames
  import opened IoLoop
  import Protobuf

  // ---- Numbers on the wire ----

  /** n in k bytes, the most significant one first. */
  function BigEndian(n: nat, k: nat): (b: seq<Byte>)
    ensures |b| == k
  {
    if k == 0 then [] else BigEndian(n / 256, k - 1) + [n % 256]
  }

  lemma TwoBytes(n: nat)
    requires n < 0x1_0000
    ensures BigEndian(n, 2) == [n / 256, n % 256]
  {
    assert BigEndian(n / 256, 1) == [n / 256] by {
      assert BigEndian(n / 256 / 256, 0) == [];
      assert n / 256 % 256 == n / 256;
    }
  }

  lemma FourBytes(n: nat)
    requires n < 0x1_0000_0000
    ensures BigEndian(n, 4) == BigEndian(n / 0x1_0000, 2) + BigEndian(n % 0x1_0000, 2)
  {
    hide BigEndian, Power;
    Powers();
    BigEndianJoins(n / 0x1_0000, 2, n % 0x1_0000, 2);
  }

  lemma ReadTwo(buf: seq<Byte>, i: nat, n: nat)
    requires n < 0x1_0000 && i + 2 <= |buf| && buf[i..i + 2] == BigEndian(n, 2)
    ensures BE16(buf, i) == n
  {
    TwoBytes(n);
    assert buf[i] == buf[i..i + 2][0] && buf[i + 1] == buf[i..i + 2][1];
  }

  lemma ReadFour(buf: seq<Byte>, i: nat, n: nat)
    requires n < 0x1_0000_0000 && i + 4 <= |buf| && buf[i..i + 4] == BigEndian(n, 4)
    ensures BE32(buf, i) == n
  {
    FourBytes(n);
    assert buf[i..i + 2] == buf[i..i + 4][..2] && buf[i + 2..i + 4] == buf[i..i + 4][2..];
    ReadTwo(buf, i, n / 0x1_0000);
    ReadTwo(buf, i + 2, n % 0x1_0000);
  }

  function Power(k: nat): (p: nat)
    ensures p > 0
  {
    if k == 0 then 1 else 256 * Power(k - 1)
  }

  lemma LastByte(n: nat, k: nat)
    ensures BigEndian(n, k + 1) == BigEndian(n / 256, k) + [n % 256] && Power(k + 1) == 256 * Power(k)
    ensures BigEndian(n, 0) == [] && Power(0) == 1
  {
  }

  /** Two numbers side by side. */
  lemma {:induction false} BigEndianJoins(a: nat, j: nat, b: nat, k: nat)
    requires b < Power(k)
    ensures BigEndian(a * Power(k) + b, j + k) == BigEndian(a, j) + BigEndian(b, k)
    decreases k
  {
    hide BigEndian, Power;
    LastByte(b, 0);
    if k == 0 {
      assert BigEndian(a, j) + [] == BigEndian(a, j);
    } else {
      var p, n := Power(k - 1), a * Power(k) + b;
      LastByte(n, j + k - 1);
      LastByte(b, k - 1);
      FirstDigits(a, p, b);
      BigEndianJoins(a, j, b / 256, k - 1);
      Associative(BigEndian(a, j), BigEndian(b / 256, k - 1), [b % 256]);
    }
  }

  lemma FirstDigits(a: nat, p: nat, b: nat)
    ensures a * (256 * p) == 256 * (a * p)
    ensures (a * (256 * p) + b) / 256 == a * p + b / 256 && (a * (256 * p) + b) % 256 == b % 256
  {
  }

  lemma Powers()
    ensures Power(2) == 0x1_0000 && Power(4) == 0x1_0000_0000
  {
  }

  lemma EightBytes(n: nat)
    requires n < 0x1_0000_0000_0000_0000
    ensures BigEndian(n, 8) == BigEndian(n / 0x1_0000_0000, 4) + BigEndian(n % 0x1_0000_0000, 4)
  {
    hide BigEndian, Power;
    Powers();
    BigEndianJoins(n / 0x1_0000_0000, 4, n % 0x1_0000_0000, 4);
  }

  // ---- Responses ----

  /** The header of a response frame. */
  function ResponseHeader(cid: nat, code: nat, low: nat, len: nat): seq<Byte> {
    [0xff] + BigEndian(cid, 2) + BigEndian(code, 2) + BigEndian(low, 2) + BigEndian(len, 4)
  }

  lemma HeaderFields(cid: nat, code: nat, low: nat, len: nat, rest: seq<Byte>)
    requires cid < 0x1_0000 && code < 0x1_0000 && low < 0x1_0000 && len < 0x1_0000_0000
    ensures var buf := ResponseHeader(cid, code, low, len) + rest;
            && |buf| == 11 + |rest| && buf[0] == 0xff && buf[11..] == rest
            && BE16(buf, 1) == cid && BE32(buf, 3) == code * 0x1_0000 + low && BE32(buf, 7) == len
  {
    hide BigEndian, BE32;
    var buf := ResponseHeader(cid, code, low, len) + rest;
    ReadTwo(buf, 1, cid);
    ReadTwo(buf, 3, code);
    ReadTwo(buf, 5, low);
    ReadFour(buf, 7, len);
    JoinWords(buf, 3);
  }

  lemma JoinWords(buf: seq<Byte>, i: nat)
    requires i + 4 <= |buf|
    ensures BE32(buf, i) == BE16(buf, i) * 0x1_0000 + BE16(buf, i + 2)
  {
  }

  /** A response frame is read field by field: request, code, payload, and final exactly when the low
      half of the code word is 0xff. */
  lemma ResponseDecodes(cid: nat, code: nat, low: nat, payload: seq<Byte>, rest: seq<Byte>)
    requires cid < 0x1_0000 && code < 0x1_0000 && low < 0x1_0000 && |payload| <= 0x100_0000
    ensures DecodeFrame(ResponseHeader(cid, code, low, |payload|) + payload + rest)
         == Whole(11 + |payload|, Raw(cid, code, low == 0xff, payload))
  {
    hide BE16, BE32, ResponseHeader;
    var head := ResponseHeader(cid, code, low, |payload|);
    var buf := head + payload + rest;
    HeaderFields(cid, code, low, |payload|, payload + rest);
    assert buf == head + (payload + rest);
    assert buf[11..11 + |payload|] == buf[11..][..|payload|] == payload;
    assert (code * 0x1_0000 + low) / 0x1_0000 == code && (code * 0x1_0000 + low) % 0x1_0000 == low;
  }

  /** The connection is reset on a response header exactly when it announces more than 16 MiB. */
  lemma ResponseResetsExactly(cid: nat, code: nat, low: nat, len: nat, rest: seq<Byte>)
    requires cid < 0x1_0000 && code < 0x1_0000 && low < 0x1_0000 && len < 0x1_0000_0000
    ensures var step := DecodeFrame(ResponseHeader(cid, code, low, len) + rest);
            && (step.Reset? <==> len > 0x100_0000)
            && (step.Reset? ==> step.reason == RawApiResponseTooLarge)
            && (step.NeedMore? <==> |rest| < len <= 0x100_0000)
  {
    hide BE16, BE32, ResponseHeader;
    HeaderFields(cid, code, low, len, rest);
  }

  // ---- Websocket frames ----

  /** The three ways of writing a length. */
  datatype LengthForm = Seven | Sixteen | SixtyFour

  predicate Fits(form: LengthForm, len: nat) {
    match form
    case Seven => len < 126
    case Sixteen => len < 0x1_0000
    case SixtyFour => len < 0x1_0000_0000_0000_0000
  }

  function WebsocketHead(form: LengthForm, len: nat): seq<Byte>
    requires Fits(form, len)
  {
    match form
    case Seven => [0x82, len]
    case Sixteen => [0x82, 126] + BigEndian(len, 2)
    case SixtyFour => [0x82, 127] + BigEndian(len, 8)
  }

  lemma ReadEight(buf: seq<Byte>, i: nat, n: nat)
    requires n < 0x1_0000_0000_0000_0000 && i + 8 <= |buf| && buf[i..i + 8] == BigEndian(n, 8)
    ensures BE64(buf, i) == n
  {
    hide BigEndian, BE32;
    EightBytes(n);
    assert buf[i..i + 4] == buf[i..i + 8][..4] && buf[i + 4..i + 8] == buf[i..i + 8][4..];
    ReadFour(buf, i, n / 0x1_0000_0000);
    ReadFour(buf, i + 4, n % 0x1_0000_0000);
  }

  lemma WebsocketLength(form: LengthForm, len: nat, rest: seq<Byte>)
    requires Fits(form, len)
    ensures var head := WebsocketHead(form, len);
            && |head| >= 2 && (head + rest)[0] == 0x82 && (head + rest)[1] < 128 && (head + rest)[|head|..] == rest
            && WebsocketHeader(head + rest) == Some((|head|, len))
  {
    hide BigEndian, BE16, BE64;
    var head := WebsocketHead(form, len);
    var buf := head + rest;
    match form
    case Seven =>
    case Sixteen =>
      assert buf[2..4] == BigEndian(len, 2);
      ReadTwo(buf, 2, len);
    case SixtyFour =>
      assert buf[2..10] == BigEndian(len, 8);
      ReadEight(buf, 2, len);
  }

  /** A websocket frame of up to 1 MiB gives its payload whole, in all three forms. */
  lemma WebsocketDecodes(form: LengthForm, payload: seq<Byte>, rest: seq<Byte>)
    requires Fits(form, |payload|) && |payload| <= 0x10_0000
    ensures var head := WebsocketHead(form, |payload|);
            DecodeFrame(head + payload + rest) == Whole(|head| + |payload|, Realtime(payload))
  {
    hide WebsocketHead, WebsocketHeader;
    var head := WebsocketHead(form, |payload|);
    WebsocketLength(form, |payload|, payload + rest);
    var buf := head + payload + rest;
    assert buf == head + (payload + rest);
    assert buf[|head|..|head| + |payload|] == buf[|head|..][..|payload|] == payload;
  }

  /** The connection is reset on a websocket header exactly when it announces more than 1 MiB. */
  lemma WebsocketResetsExactly(form: LengthForm, len: nat, rest: seq<Byte>)
    requires Fits(form, len)
    ensures var step := DecodeFrame(WebsocketHead(form, len) + rest);
            && (step.Reset? <==> len > 0x10_0000)
            && (step.Reset? ==> step.reason == RealtimePayloadTooLarge)
            && (step.NeedMore? <==> |rest| < len <= 0x10_0000)
  {
    hide WebsocketHead, WebsocketHeader;
    WebsocketLength(form, len, rest);
  }

  // ---- Realtime frames in units of four bytes ----

  /** n in k bytes, the least significant one first. */
  function LittleEndian(n: nat, k: nat): (b: seq<Byte>)
    ensures |b| == k
  {
    if k == 0 then [] else [n % 256] + LittleEndian(n / 256, k - 1)
  }

  lemma ThreeBytes(n: nat)
    requires n < 0x100_0000
    ensures LittleEndian(n, 3) == [n % 256, n / 256 % 256, n / 0x1_0000]
  {
    assert n / 256 / 256 == n / 0x1_0000;
    assert LittleEndian(n / 0x1_0000, 1) == [n / 0x1_0000] + LittleEndian(n / 0x1_0000 / 256, 0);
  }

  /** The extended header: 0x7f and the number of four-byte units. */
  function ExtendedHead(units: nat): seq<Byte> {
    [0x7f] + LittleEndian(units, 3)
  }

  lemma ExtendedLength(units: nat, rest: seq<Byte>)
    requires units < 0x100_0000
    ensures var buf := ExtendedHead(units) + rest;
            |buf| == 4 + |rest| && buf[0] == 0x7f && buf[4..] == rest && LE24(buf, 1) == units
  {
    ThreeBytes(units);
    assert units == units % 256 + units / 256 % 256 * 256 + units / 0x1_0000 * 0x1_0000;
  }

  /** Short and extended frames give their payload up to the end of the last whole field. */
  lemma UnitsDecode(payload: seq<Byte>, rest: seq<Byte>)
    requires |payload| % 4 == 0
    ensures 0 < |payload| < 127 * 4 ==>
              DecodeFrame([|payload| / 4] + payload + rest) == Whole(1 + |payload|, Realtime(RealtimePayload(payload)))
    ensures |payload| <= 0x10_0000 ==>
              DecodeFrame(ExtendedHead(|payload| / 4) + payload + rest)
              == Whole(4 + |payload|, Realtime(RealtimePayload(payload)))
  {
    hide RealtimePayload, ExtendedHead;
    if 0 < |payload| < 127 * 4 {
      var buf := [|payload| / 4] + payload + rest;
      assert buf[1..1 + |payload|] == payload;
    }
    if |payload| <= 0x10_0000 {
      var head := ExtendedHead(|payload| / 4);
      ExtendedLength(|payload| / 4, payload + rest);
      var buf := head + payload + rest;
      assert buf == head + (payload + rest);
      assert buf[4..4 + |payload|] == buf[4..][..|payload|] == payload;
    }
  }

  /** The connection is reset on an extended header exactly when it announces more than 1 MiB. */
  lemma ExtendedResetsExactly(units: nat, rest: seq<Byte>)
    requires units < 0x100_0000
    ensures var step := DecodeFrame(ExtendedHead(units) + rest);
            && (step.Reset? <==> units * 4 > 0x10_0000)
            && (step.Reset? ==> step.reason == RealtimePayloadTooLarge)
  {
    hide ExtendedHead, RealtimePayload;
    ExtendedLength(units, rest);
  }

  /** Bytes that start no frame: any from 0x80 on but 0x82 and 0xff, and a masked websocket frame. */
  lemma OtherLeadsReset(buf: seq<Byte>)
    requires buf != []
    ensures DecodeFrame(buf) == Reset(UnexpectedLeadByte) <==> buf[0] >= 0x80 && buf[0] != 0x82 && buf[0] != 0xff
    ensures DecodeFrame(buf) == Reset(MaskedWebsocketFrame) <==> |buf| >= 2 && buf[0] == 0x82 && buf[1] >= 0x80
  {
    hide RealtimePayload;
  }
}
