/** The field walk that finds where a protobuf message ends inside a zero-padded frame.
    Fields are delimited, never interpreted. */
module Protobuf {
  import opened Basics
  import opened Varint

  const MAX_FIELD_LEN := 0x10_0000

  /** The grammar a message is made of, with the varint bytes kept as written. */
  datatype Field =
    | Scalar(tag: seq<Byte>, value: seq<Byte>)
    | Fixed64(tag: seq<Byte>, value: seq<Byte>)
    | Delimited(tag: seq<Byte>, len: seq<Byte>, value: seq<Byte>)
    | Fixed32(tag: seq<Byte>, value: seq<Byte>)

  function WireType(f: Field): nat {
    match f
    case Scalar(_, _) => 0
    case Fixed64(_, _) => 1
    case Delimited(_, _, _) => 2
    case Fixed32(_, _) => 5
  }

  predicate ValidField(f: Field) {
    && IsVarint(f.tag) && U64(f.tag) / 8 != 0 && U64(f.tag) % 8 == WireType(f)
    && match f
       case Scalar(_, v) => IsVarint(v)
       case Fixed64(_, v) => |v| == 8
       case Delimited(_, l, v) => IsVarint(l) && U64(l) == |v| <= MAX_FIELD_LEN
       case Fixed32(_, v) => |v| == 4
  }

  function FieldBytes(f: Field): seq<Byte> {
    match f
    case Delimited(t, l, v) => t + l + v
    case _ => f.tag + f.value
  }

  predicate ValidFields(fs: seq<Field>) {
    forall f :: f in fs ==> ValidField(f)
  }

  function MessageBytes(fs: seq<Field>): seq<Byte> {
    if fs == [] then [] else FieldBytes(fs[0]) + MessageBytes(fs[1..])
  }

  /** m is a message: a run of valid fields and nothing else. */
  ghost predicate WellFormed(m: seq<Byte>) {
    exists fs :: ValidFields(fs) && MessageBytes(fs) == m
  }

  /** What one turn of the walk does at the front of buf. */
  datatype FieldStep =
    | Stop                 // not a field: the message ends here
    | Incomplete           // the buffer ends inside a field
    | Next(n: nat)         // a field of n bytes

  function StepTo(n: nat, buf: seq<Byte>): FieldStep {
    if n > |buf| then Incomplete else Next(n)
  }

  function ParseField(buf: seq<Byte>): (r: FieldStep)
    ensures r.Next? ==> 0 < r.n <= |buf|
  {
    match ReadVarint(buf)
    case None => Incomplete
    case Some((tag, tagLen)) =>
      var wire := tag % 8;
      if tag / 8 == 0 || wire in {3, 4, 6, 7} then Stop
      else if wire == 0 then
        match ReadVarint(buf[tagLen..])
        case None => Incomplete
        case Some((_, n)) => StepTo(tagLen + n, buf)
      else if wire == 1 then StepTo(tagLen + 8, buf)
      else if wire == 5 then StepTo(tagLen + 4, buf)
      else
        match ReadVarint(buf[tagLen..])
        case None => Incomplete
        case Some((len, n)) =>
          if len > MAX_FIELD_LEN then Stop else StepTo(tagLen + n + len, buf)
  }

  /** Length of the message at the front of buf; None when buf ends inside a field. */
  function MessageLen(buf: seq<Byte>): (r: Option<nat>)
    ensures r.Some? ==> r.value <= |buf|
  {
    if buf == [] then Some(0)
    else match ParseField(buf)
      case Stop => Some(0)
      case Incomplete => None
      case Next(n) =>
        Plus(n, MessageLen(buf[n..]))
  }

  function Plus(n: nat, r: Option<nat>): Option<nat> {
    match r
    case None => None
    case Some(m) => Some(n + m)
  }

  /** The loop over pos. */
  method ProtobufMessageLen(buf: seq<Byte>) returns (r: Option<nat>)
    ensures r == MessageLen(buf)
  {
    hide MessageLen, ReadVarint;
    var pos := 0;
    assert buf[0..] == buf;
    while pos < |buf|
      invariant 0 <= pos <= |buf|
      invariant MessageLen(buf) == Plus(pos, MessageLen(buf[pos..]))
      decreases |buf| - pos
    {
      var here := buf[pos..];
      MessageLenUnfolds(here);
      var tag := ReadVarintLoop(here);
      if tag.None? {
        return None;
      }
      var wire := tag.value.0 % 8;
      if tag.value.0 / 8 == 0 || wire in {3, 4, 6, 7} {
        return Some(pos);
      }
      var valueStart := pos + tag.value.1;
      assert here[tag.value.1..] == buf[valueStart..];
      var valueEnd: nat;
      if wire == 1 {
        valueEnd := valueStart + 8;
      } else if wire == 5 {
        valueEnd := valueStart + 4;
      } else {
        var v := ReadVarintLoop(buf[valueStart..]);
        if v.None? {
          return None;
        }
        if wire == 0 {
          valueEnd := valueStart + v.value.1;
        } else {
          if v.value.0 > MAX_FIELD_LEN {
            return Some(pos);
          }
          valueEnd := valueStart + v.value.1 + v.value.0;
        }
      }
      assert ParseField(here) == StepTo(valueEnd - pos, here);
      if valueEnd > |buf| {
        return None;
      }
      assert here[valueEnd - pos..] == buf[valueEnd..];
      pos := valueEnd;
    }
    MessageLenUnfolds(buf[pos..]);
    return Some(pos);
  }

  lemma MessageLenUnfolds(buf: seq<Byte>)
    ensures buf == [] ==> MessageLen(buf) == Some(0)
    ensures buf != [] ==>
              match ParseField(buf)
              case Stop => MessageLen(buf) == Some(0)
              case Incomplete => MessageLen(buf) == None
              case Next(n) => MessageLen(buf) == Plus(n, MessageLen(buf[n..]))
  {
  }

  // ---- The walk against the grammar ----

  /** Every valid field is recognised whole, whatever follows it. */
  lemma FieldParses(f: Field, rest: seq<Byte>)
    requires ValidField(f)
    ensures ParseField(FieldBytes(f) + rest) == Next(|FieldBytes(f)|)
  {
    hide ReadVarint, IsVarint, Value;
    match f
    case Scalar(t, v) =>
      assert FieldBytes(f) + rest == t + (v + rest);
      VarintInFront(t, v + rest);
      VarintInFront(v, rest);
    case Delimited(t, l, v) =>
      DelimitedParses(t, l, v, rest);
    case _ =>
      assert FieldBytes(f) + rest == f.tag + (f.value + rest);
      VarintInFront(f.tag, f.value + rest);
  }

  lemma DelimitedParses(t: seq<Byte>, l: seq<Byte>, v: seq<Byte>, rest: seq<Byte>)
    requires ValidField(Delimited(t, l, v))
    ensures ParseField(t + l + v + rest) == Next(|t + l + v|)
  {
    assert t + l + v + rest == t + (l + (v + rest));
    VarintInFront(t, l + (v + rest));
    VarintInFront(l, v + rest);
  }

  /** Every step of the walk is a valid field. */
  lemma ParsedIsField(buf: seq<Byte>) returns (f: Field)
    requires ParseField(buf).Next?
    ensures ValidField(f) && FieldBytes(f) == buf[..ParseField(buf).n]
  {
    hide ReadVarint, IsVarint, Value;
    var n := ParseField(buf).n;
    var Some((tag, t)) := ReadVarint(buf);
    ReadVarintIsVarint(buf);
    ReadVarintExactly(buf, t);
    var after := buf[t..];
    if tag % 8 == 1 {
      f := Fixed64(buf[..t], buf[t..n]);
    } else if tag % 8 == 5 {
      f := Fixed32(buf[..t], buf[t..n]);
    } else {
      ReadVarintIsVarint(after);
      var k := ReadVarint(after).value.1;
      ReadVarintExactly(after, k);
      if tag % 8 == 0 {
        f := Scalar(buf[..t], after[..k]);
      } else {
        f := Delimited(buf[..t], after[..k], buf[t + k..n]);
      }
    }
  }

  lemma MessageLenStep(head: seq<Byte>, tail: seq<Byte>)
    requires ParseField(head + tail) == Next(|head|)
    ensures MessageLen(head + tail) == Plus(|head|, MessageLen(tail))
  {
    hide ParseField;
    assert (head + tail)[|head|..] == tail;
  }

  /** The walk consumes a run of valid fields and goes on with what follows. */
  lemma {:induction false} FieldsParse(fs: seq<Field>, rest: seq<Byte>)
    requires ValidFields(fs)
    ensures MessageLen(MessageBytes(fs) + rest) == Plus(|MessageBytes(fs)|, MessageLen(rest))
  {
    hide ParseField, MessageLen, ValidField, FieldBytes;
    if fs == [] {
      assert [] + rest == rest;
    } else {
      var head, tail := FieldBytes(fs[0]), MessageBytes(fs[1..]);
      assert MessageBytes(fs) + rest == head + (tail + rest);
      FieldParses(fs[0], tail + rest);
      MessageLenStep(head, tail + rest);
      assert ValidFields(fs[1..]);
      FieldsParse(fs[1..], rest);
    }
  }

  lemma {:induction false} WalkedIsFields(buf: seq<Byte>) returns (fs: seq<Field>)
    requires MessageLen(buf).Some?
    ensures var n := MessageLen(buf).value;
            ValidFields(fs) && MessageBytes(fs) == buf[..n] && (n == |buf| || ParseField(buf[n..]) == Stop)
    decreases |buf|
  {
    hide ParseField, ValidField, FieldBytes;
    if buf == [] || ParseField(buf).Stop? {
      fs := [];
      assert buf[0..] == buf;
    } else {
      var k := ParseField(buf).n;
      var f := ParsedIsField(buf);
      var rest := WalkedIsFields(buf[k..]);
      fs := [f] + rest;
      FieldsCons(f, rest);
      CutTwice(buf, k, MessageLen(buf).value);
    }
  }

  lemma FieldsCons(f: Field, rest: seq<Field>)
    ensures MessageBytes([f] + rest) == FieldBytes(f) + MessageBytes(rest)
    ensures ValidField(f) && ValidFields(rest) ==> ValidFields([f] + rest)
  {
    hide ValidField, FieldBytes;
    assert ([f] + rest)[1..] == rest;
  }

  lemma CutTwice(buf: seq<Byte>, k: nat, n: nat)
    requires k <= n <= |buf|
    ensures buf[..n] == buf[..k] + buf[k..][..n - k] && buf[k..][n - k..] == buf[n..]
  {
  }

  /** The walk answers n exactly when the first n bytes are a well-formed message and what
      follows is nothing, or is not a field. */
  lemma MessageLenExactly(buf: seq<Byte>, n: nat)
    requires n <= |buf|
    ensures MessageLen(buf) == Some(n) <==>
            WellFormed(buf[..n]) && (n == |buf| || ParseField(buf[n..]) == Stop)
  {
    hide ParseField, ValidFields, MessageBytes;
    if MessageLen(buf) == Some(n) {
      var fs := WalkedIsFields(buf);
    } else if WellFormed(buf[..n]) && (n == |buf| || ParseField(buf[n..]) == Stop) {
      var fs :| ValidFields(fs) && MessageBytes(fs) == buf[..n];
      assert buf == buf[..n] + buf[n..];
      FieldsParse(fs, buf[n..]);
    }
  }

  lemma ZeroTagStops(k: nat)
    requires k > 0
    ensures ParseField(Zeros(k)) == Stop
  {
    var z := Zeros(k);
    assert VarintEnd(z, 0) == Some(1);
    assert z[..1][1..] == [];
    assert Value(z[..1]) == 0;
  }

  /** Zero padding is cut off exactly when the padded message was well formed. */
  lemma PaddingIsStripped(m: seq<Byte>, k: nat)
    ensures MessageLen(m + Zeros(k)) == Some(|m|) <==> WellFormed(m)
  {
    var buf := m + Zeros(k);
    assert buf[..|m|] == m && buf[|m|..] == Zeros(k);
    MessageLenExactly(buf, |m|);
    if k > 0 {
      ZeroTagStops(k);
    }
  }

  /** Messages as an encoder writes them: shortest varints, exact lengths. */
  function EncodeScalar(field: nat, value: nat): Field {
    Scalar(EncodeVarint(field * 8), EncodeVarint(value))
  }

  function EncodeDelimited(field: nat, value: seq<Byte>): Field {
    Delimited(EncodeVarint(field * 8 + 2), EncodeVarint(|value|), value)
  }

  function EncodeFixed64(field: nat, value: seq<Byte>): Field {
    Fixed64(EncodeVarint(field * 8 + 1), value)
  }

  function EncodeFixed32(field: nat, value: seq<Byte>): Field {
    Fixed32(EncodeVarint(field * 8 + 5), value)
  }

  /** What a writer emits for field numbers of the protobuf range is a valid field, for all four wire
      types; a fixed-width value only in its own width. */
  lemma EncodersAreValid(field: nat, value: nat, body: seq<Byte>)
    requires 0 < field < 0x2000_0000 && value < U64_LIMIT
    ensures ValidField(EncodeScalar(field, value))
    ensures |body| <= MAX_FIELD_LEN ==> ValidField(EncodeDelimited(field, body))
    ensures ValidField(EncodeFixed64(field, body)) <==> |body| == 8
    ensures ValidField(EncodeFixed32(field, body)) <==> |body| == 4
  {
    hide Value, IsVarint, EncodeVarint;
    VarintRoundTrip(field * 8 + 1, []);
    VarintRoundTrip(field * 8 + 5, []);
    VarintRoundTrip(field * 8, []);
    VarintRoundTrip(value, []);
    VarintRoundTrip(field * 8 + 2, []);
    if |body| <= MAX_FIELD_LEN {
      VarintRoundTrip(|body|, []);
    }
  }
}
