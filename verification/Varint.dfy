/** Base-128 varints: the little-endian integers that protobuf tags, lengths and
    scalar values are made of. */
module Varint {
  import opened Basics

  const MAX_VARINT_BYTES := 10

  /** The grammar: up to nine bytes with the continuation bit, then one without. */
  predicate IsVarint(s: seq<Byte>) {
    && 0 < |s| <= MAX_VARINT_BYTES
    && s[|s| - 1] < 128
    && forall i :: 0 <= i < |s| - 1 ==> s[i] >= 128
  }

  /** The number a run of varint bytes denotes, before it is cut to 64 bits. */
  function Value(s: seq<Byte>): nat {
    if s == [] then 0 else s[0] % 128 + 128 * Value(s[1..])
  }

  function U64(s: seq<Byte>): nat {
    Value(s) % U64_LIMIT
  }

  /** Where the varint that starts at index 0 ends, looking from index i on. */
  function VarintEnd(buf: seq<Byte>, i: nat): (r: Option<nat>)
    ensures r.Some? ==> i < r.value <= |buf| && r.value <= MAX_VARINT_BYTES
    decreases |buf| - i
  {
    if i >= |buf| || i >= MAX_VARINT_BYTES then None
    else if buf[i] < 128 then Some(i + 1)
    else VarintEnd(buf, i + 1)
  }

  /** Value and length of the varint at the front of buf. */
  function ReadVarint(buf: seq<Byte>): (r: Option<(nat, nat)>)
    ensures r.Some? ==> 0 < r.value.1 <= |buf| && r.value.1 <= MAX_VARINT_BYTES && r.value.0 < U64_LIMIT
  {
    match VarintEnd(buf, 0)
    case None => None
    case Some(n) => Some((U64(buf[..n]), n))
  }

  lemma {:induction false} VarintEndIsFirst(buf: seq<Byte>, i: nat, n: nat)
    requires i < n <= |buf| && n <= MAX_VARINT_BYTES
    requires buf[n - 1] < 128 && forall k :: i <= k < n - 1 ==> buf[k] >= 128
    ensures VarintEnd(buf, i) == Some(n)
    decreases n - i
  {
    if i < n - 1 {
      VarintEndIsFirst(buf, i + 1, n);
    }
  }

  lemma {:induction false} VarintEndScans(buf: seq<Byte>, i: nat)
    ensures var r := VarintEnd(buf, i);
            r.Some? ==> buf[r.value - 1] < 128 && forall k :: i <= k < r.value - 1 ==> buf[k] >= 128
    decreases |buf| - i
  {
    if i < |buf| && i < MAX_VARINT_BYTES && buf[i] >= 128 {
      VarintEndScans(buf, i + 1);
    }
  }

  /** The reader succeeds with length n exactly when the first n bytes are a varint. */
  lemma ReadVarintExactly(buf: seq<Byte>, n: nat)
    requires n <= |buf|
    ensures IsVarint(buf[..n]) <==> ReadVarint(buf) == Some((U64(buf[..n]), n))
  {
    VarintEndScans(buf, 0);
    if IsVarint(buf[..n]) {
      assert forall i :: 0 <= i < n ==> buf[..n][i] == buf[i];
      assert forall i :: 0 <= i < n - 1 ==> buf[..n][i] >= 128;
      VarintEndIsFirst(buf, 0, n);
    }
  }

  lemma ReadVarintIsVarint(buf: seq<Byte>)
    ensures ReadVarint(buf).Some? ==> IsVarint(buf[..ReadVarint(buf).value.1])
  {
    VarintEndScans(buf, 0);
  }

  lemma VarintInFront(s: seq<Byte>, rest: seq<Byte>)
    requires IsVarint(s)
    ensures ReadVarint(s + rest) == Some((U64(s), |s|)) && (s + rest)[|s|..] == rest
  {
    assert (s + rest)[..|s|] == s;
    ReadVarintExactly(s + rest, |s|);
  }

  /** Bytes after the varint never change what is read. */
  lemma ReadVarintLocal(a: seq<Byte>, b: seq<Byte>)
    ensures ReadVarint(a).Some? ==> ReadVarint(a + b) == ReadVarint(a)
    ensures ReadVarint(a + b).Some? && ReadVarint(a + b).value.1 <= |a| ==> ReadVarint(a) == ReadVarint(a + b)
  {
    if ReadVarint(a).Some? {
      var n := ReadVarint(a).value.1;
      ReadVarintIsVarint(a);
      assert (a + b)[..n] == a[..n];
      ReadVarintExactly(a + b, n);
    }
    if ReadVarint(a + b).Some? && ReadVarint(a + b).value.1 <= |a| {
      var n := ReadVarint(a + b).value.1;
      ReadVarintIsVarint(a + b);
      assert (a + b)[..n] == a[..n];
      ReadVarintExactly(a, n);
    }
  }

  function Pow128(n: nat): (p: nat)
    ensures p > 0
  {
    if n == 0 then 1 else 128 * Pow128(n - 1)
  }

  lemma {:induction false} ValueSnoc(s: seq<Byte>, b: Byte)
    ensures Value(s + [b]) == Value(s) + (b % 128) * Pow128(|s|)
  {
    if s == [] {
      assert s + [b] == [b] && [b][1..] == [];
    } else {
      assert (s + [b])[1..] == s[1..] + [b];
      ValueSnoc(s[1..], b);
      var p := Pow128(|s| - 1);
      assert Pow128(|s|) == 128 * p;
      assert 128 * ((b % 128) * p) == (b % 128) * (128 * p);
    }
  }

  lemma {:induction false} ValueBound(s: seq<Byte>)
    ensures Value(s) < Pow128(|s|)
  {
    if s != [] {
      ValueBound(s[1..]);
    }
  }

  lemma Pow128Nine()
    ensures Pow128(9) == 0x8000_0000_0000_0000
  {
    assert Pow128(3) == 0x20_0000;
    assert Pow128(6) == 0x400_0000_0000;
  }

  lemma {:induction false} Pow128Monotone(a: nat, b: nat)
    requires a <= b
    ensures Pow128(a) <= Pow128(b)
  {
    if a < b {
      Pow128Monotone(a, b - 1);
    }
  }

  /** One digit shifted into place inside a 64-bit word; the bits pushed past the top are lost. */
  function ShiftedDigit(b: Byte, i: nat): nat {
    (b % 128) * Pow128(i) % U64_LIMIT
  }

  /** The byte loop: value, shift and the ten-byte limit. The digit is or-ed into bits that are
      still zero (value is below the shift), so the or is a sum. */
  method ReadVarintLoop(buf: seq<Byte>) returns (r: Option<(nat, nat)>)
    ensures r == ReadVarint(buf)
  {
    var value: nat := 0;
    var shift := 0;
    var i := 0;
    assert buf[..0] == [];
    while i < |buf|
      invariant 0 <= i <= |buf| && i <= MAX_VARINT_BYTES && shift == 7 * i
      invariant forall k :: 0 <= k < i ==> buf[k] >= 128
      invariant VarintEnd(buf, 0) == VarintEnd(buf, i)
      invariant value == U64(buf[..i]) && (i < MAX_VARINT_BYTES ==> value < Pow128(i))
    {
      if shift >= 64 {
        return None;
      }
      DigitAdds(buf, i);
      value := value + ShiftedDigit(buf[i], i);
      if buf[i] < 128 {
        return Some((value, i + 1));
      }
      shift := shift + 7;
      i := i + 1;
    }
    return None;
  }

  lemma DigitAdds(buf: seq<Byte>, i: nat)
    requires i < |buf| && i < MAX_VARINT_BYTES
    ensures U64(buf[..i + 1]) == U64(buf[..i]) + ShiftedDigit(buf[i], i)
    ensures i + 1 < MAX_VARINT_BYTES ==> U64(buf[..i + 1]) < Pow128(i + 1)
  {
    var s, d := buf[..i], buf[i] % 128;
    assert buf[..i + 1] == s + [buf[i]];
    ValueSnoc(s, buf[i]);
    ValueBound(s);
    ValueBound(buf[..i + 1]);
    Pow128Nine();
    Pow128Monotone(i, 9);
    SmallMod(Value(s));
    if i < 9 {
      Pow128Monotone(i + 1, 9);
      SmallMod(Value(buf[..i + 1]));
      DigitNonNegative(d, Pow128(i));
      SmallMod(d * Pow128(i));
    } else {
      TopDigit(d, Value(s));
      TopDigit(d, 0);
    }
  }

  lemma DigitNonNegative(d: nat, p: nat)
    ensures d * p >= 0
  {
  }

  lemma SmallMod(x: nat)
    requires x < U64_LIMIT
    ensures x % U64_LIMIT == x
  {
  }

  /** At the tenth byte only the lowest bit of the digit still fits. */
  lemma TopDigit(d: nat, v: nat)
    requires d < 128 && v < 0x8000_0000_0000_0000
    ensures (v + d * 0x8000_0000_0000_0000) % U64_LIMIT == v + d % 2 * 0x8000_0000_0000_0000
  {
    assert v + d * 0x8000_0000_0000_0000 == d / 2 * U64_LIMIT + (v + d % 2 * 0x8000_0000_0000_0000);
    ModPeel(d / 2, v + d % 2 * 0x8000_0000_0000_0000);
  }

  lemma ModPeel(k: nat, x: nat)
    requires x < U64_LIMIT
    ensures (k * U64_LIMIT + x) % U64_LIMIT == x
  {
  }

  /** The shortest encoding, the one a protobuf writer emits. */
  function EncodeVarint(v: nat): (s: seq<Byte>) {
    if v < 128 then [v] else [v % 128 + 128] + EncodeVarint(v / 128)
  }

  lemma {:induction false} EncodeVarintShape(v: nat, n: nat)
    requires v < Pow128(n) && n > 0
    ensures var s := EncodeVarint(v);
            && 0 < |s| <= n && Value(s) == v && s[|s| - 1] < 128
            && forall i :: 0 <= i < |s| - 1 ==> s[i] >= 128
    decreases n
  {
    var s := EncodeVarint(v);
    if v < 128 {
      assert s[1..] == [];
    } else {
      assert n > 1 by { assert Pow128(1) == 128; }
      EncodeVarintShape(v / 128, n - 1);
      assert s[1..] == EncodeVarint(v / 128);
    }
  }

  /** Reading back what was written, with anything after it. */
  lemma VarintRoundTrip(v: nat, rest: seq<Byte>)
    requires v < U64_LIMIT
    ensures IsVarint(EncodeVarint(v)) && U64(EncodeVarint(v)) == v
    ensures ReadVarint(EncodeVarint(v) + rest) == Some((v, |EncodeVarint(v)|))
  {
    Pow128Nine();
    assert Pow128(10) == 128 * Pow128(9);
    EncodeVarintShape(v, 10);
    var s := EncodeVarint(v);
    assert (s + rest)[..|s|] == s;
    ReadVarintExactly(s + rest, |s|);
  }
}
