/** Decoded audio shared between the decoder thread and the player: a growing list of chunks, a
    flag for its end, and a sample counter that trails the list by at most the chunk being pushed. */
module PcmStream {
  import opened Basics

  const CHUNK_FRAMES := 2048

  /** Index of the chunk that holds sample target, and the offset in it; for a complete stream the
      end of the last chunk when target is past all samples. cursor counts samples before chunk i. */
  function LocateFrom(chunks: seq<Samples>, complete: bool, target: nat, i: nat, cursor: nat): Option<(nat, nat)>
    requires i < |chunks|
    decreases |chunks| - i
  {
    var end := cursor + |chunks[i]|;
    if target < end then (if target >= cursor then Some((i, target - cursor)) else None)
    else if i == |chunks| - 1 then (if complete then Some((i, |chunks[i]|)) else None)
    else LocateFrom(chunks, complete, target, i + 1, end)
  }

  function Locate(chunks: seq<Samples>, complete: bool, target: nat): Option<(nat, nat)> {
    if chunks == [] then None else LocateFrom(chunks, complete, target, 0, 0)
  }

  function Prefix(chunks: seq<Samples>, i: nat): Samples
    requires i <= |chunks|
  {
    Concat(chunks[..i])
  }

  lemma PrefixStep(chunks: seq<Samples>, i: nat)
    requires i < |chunks|
    ensures Prefix(chunks, i + 1) == Prefix(chunks, i) + chunks[i]
  {
    assert chunks[..i + 1] == chunks[..i] + [chunks[i]];
    ConcatSnoc(chunks[..i], chunks[i]);
  }

  lemma PrefixOfAll(chunks: seq<Samples>, i: nat)
    requires i <= |chunks|
    ensures Concat(chunks) == Prefix(chunks, i) + Concat(chunks[i..])
    ensures i == |chunks| ==> Prefix(chunks, i) == Concat(chunks)
  {
    assert chunks == chunks[..i] + chunks[i..];
    ConcatAppend(chunks[..i], chunks[i..]);
  }

  /** (i, offset) is sample target of the concatenation, or its end. */
  ghost predicate PointsAt(chunks: seq<Samples>, target: nat, i: nat, offset: nat) {
    && i < |chunks| && offset <= |chunks[i]|
    && |Prefix(chunks, i)| + offset == Min(target, |Concat(chunks)|)
    && (offset < |chunks[i]| ==> target < |Concat(chunks)| && chunks[i][offset] == Concat(chunks)[target])
    && (offset == |chunks[i]| ==> target >= |Concat(chunks)|)
  }

  lemma {:induction false} LocateFromMeaning(chunks: seq<Samples>, complete: bool, target: nat, i: nat)
    requires i < |chunks| && |Prefix(chunks, i)| <= target
    ensures var r := LocateFrom(chunks, complete, target, i, |Prefix(chunks, i)|);
            && (r.Some? <==> target < |Concat(chunks)| || complete)
            && (r.Some? ==> PointsAt(chunks, target, r.value.0, r.value.1))
    decreases |chunks| - i
  {
    PrefixStep(chunks, i);
    PrefixOfAll(chunks, i + 1);
    var end := |Prefix(chunks, i)| + |chunks[i]|;
    if target >= end && i < |chunks| - 1 {
      LocateFromMeaning(chunks, complete, target, i + 1);
    }
  }

  /** On a non-empty stream the search succeeds exactly for buffered samples and past the end of a
      complete stream, and finds the sample at that index of the concatenation. */
  lemma LocateMeaning(chunks: seq<Samples>, complete: bool, target: nat)
    requires chunks != []
    ensures var r := Locate(chunks, complete, target);
            && (r.Some? <==> target < |Concat(chunks)| || complete)
            && (r.Some? ==> PointsAt(chunks, target, r.value.0, r.value.1))
  {
    hide LocateFrom, PointsAt;
    assert |Prefix(chunks, 0)| == 0 by { assert chunks[..0] == []; }
    LocateFromMeaning(chunks, complete, target, 0);
  }

  /** Only the end of a complete stream is found at the end of a chunk, and that is the last one. */
  lemma LocateEndIsLast(chunks: seq<Samples>, complete: bool, target: nat)
    requires chunks != []
    ensures var r := Locate(chunks, complete, target);
            r.Some? ==> r.value.0 < |chunks| &&
                        (r.value.1 == |chunks[r.value.0]| ==> complete && r.value.0 == |chunks| - 1)
  {
    LocateFromEnd(chunks, complete, target, 0, 0);
  }

  lemma {:induction false} LocateFromEnd(chunks: seq<Samples>, complete: bool, target: nat, i: nat, cursor: nat)
    requires i < |chunks|
    ensures var r := LocateFrom(chunks, complete, target, i, cursor);
            r.Some? ==> r.value.0 < |chunks| &&
                        (r.value.1 == |chunks[r.value.0]| ==> complete && r.value.0 == |chunks| - 1)
    decreases |chunks| - i
  {
    if i < |chunks| - 1 {
      LocateFromEnd(chunks, complete, target, i + 1, cursor + |chunks[i]|);
    }
  }

  datatype ChunkState = Ready(chunk: Samples) | Pending | Complete

  class Stream {
    const channels: nat
    var chunks: seq<Samples>
    var complete: bool
    var readySamples: nat

    constructor (channels: nat)
      ensures this.channels == Max(channels, 1) && chunks == [] && !complete && readySamples == 0
    {
      this.channels := Max(channels, 1);
      chunks, complete, readySamples := [], false, 0;
    }

    method LocateChunk(target: nat) returns (r: Option<(nat, nat)>)
      ensures r == Locate(chunks, complete, target)
    {
      if chunks == [] {
        return None;
      }
      var last := |chunks| - 1;
      var cursor := 0;
      var index := 0;
      while index < |chunks|
        invariant 0 <= index <= |chunks| && 0 <= cursor <= target
        invariant index < |chunks| && LocateFrom(chunks, complete, target, index, cursor) == Locate(chunks, complete, target)
        decreases |chunks| - index
      {
        var end := cursor + |chunks[index]|;
        if target < end {
          return Some((index, target - cursor));
        }
        if index == last {
          if complete && target >= end {
            return Some((index, |chunks[index]|));
          }
          return None;
        }
        cursor := end;
        index := index + 1;
      }
      return None;
    }

    method ChunkAt(index: nat) returns (r: ChunkState)
      ensures r == if index < |chunks| then Ready(chunks[index]) else if complete then Complete else Pending
    {
      if index < |chunks| {
        return Ready(chunks[index]);
      }
      return if complete then Complete else Pending;
    }

    method Push(samples: Samples)
      modifies this`chunks, this`readySamples
      ensures chunks == old(chunks) + [samples] && readySamples == old(readySamples) + |samples|
    {
      chunks := chunks + [samples];
      readySamples := readySamples + |samples|;
    }

    method Finish()
      modifies this`complete
      ensures complete
    {
      complete := true;
    }
  }

  /** What the player relies on: no empty chunk, and every chunk a whole number of frames. */
  predicate WellChunked(chunks: seq<Samples>, channels: nat)
    requires channels > 0
  {
    forall c :: c in chunks ==> c != [] && |c| % channels == 0
  }

  /** What the decoder hands over at a time. */
  datatype Packet = Packet(samples: Samples, channels: nat)

  /** One mean per whole frame; samples of a last partial frame are dropped. */
  function Means(samples: Samples, channels: nat): Samples
    requires channels > 0
    decreases |samples|
  {
    if |samples| < channels then []
    else [Sum(samples[..channels]) / channels as real] + Means(samples[channels..], channels)
  }

  /** A packet as the stream stores it: as it is when the channels agree, otherwise mixed to one. */
  function Mixed(p: Packet, channels: nat): Samples
    requires p.channels > 0
  {
    if p.channels == channels then p.samples else Means(p.samples, p.channels)
  }

  function MixedFirst(packets: seq<Packet>, n: nat, channels: nat): Samples
    requires n <= |packets| && forall p :: p in packets ==> p.channels > 0
  {
    if n == 0 then [] else MixedFirst(packets, n - 1, channels) + Mixed(packets[n - 1], channels)
  }

  method AppendDownmixed(pending: Samples, p: Packet, channels: nat) returns (out: Samples)
    requires p.channels > 0
    ensures out == pending + Mixed(p, channels)
  {
    if p.channels == channels {
      return pending + p.samples;
    }
    hide Sum;
    out := pending;
    var rest := p.samples;
    while |rest| >= p.channels
      invariant out + Means(rest, p.channels) == pending + Means(p.samples, p.channels)
      decreases |rest|
    {
      out := out + [Sum(rest[..p.channels]) / p.channels as real];
      rest := rest[p.channels..];
    }
  }

  /** Every stored packet is whole frames of the stream: its channels agree, or the stream is mono. */
  predicate Framed(packets: seq<Packet>, channels: nat)
    requires channels > 0
  {
    forall p :: p in packets ==> channels == 1 || (p.channels == channels && |p.samples| % channels == 0)
  }

  /** The decoder thread over the packets it decodes. Without any there is no stream, which is reported
      as an error. Otherwise packets are gathered into chunks of at least CHUNK_FRAMES frames, the rest
      is flushed at the end, and no stored sample is lost, repeated or moved; chunks are whole frames
      when the packets are. */
  method DecodeThread(packets: seq<Packet>) returns (result: Option<Stream>)
    requires forall p :: p in packets ==> p.channels > 0
    ensures result.None? <==> packets == []
    ensures result.Some? ==>
              var stream := result.value;
              && fresh(stream) && stream.channels == Min(packets[0].channels, 2) && stream.complete
              && Concat(stream.chunks) == MixedFirst(packets, |packets|, stream.channels)
              && stream.readySamples == |Concat(stream.chunks)|
              && (forall c :: c in stream.chunks ==> c != [])
              && (forall i :: 0 <= i < |stream.chunks| - 1 ==> |stream.chunks[i]| >= CHUNK_FRAMES * stream.channels)
              && (stream.channels in {1, 2} && Framed(packets, stream.channels) ==>
                    WellChunked(stream.chunks, stream.channels))
  {
    if packets == [] {
      return None;
    }
    assert packets[0] in packets;
    var stream := new Stream(Min(packets[0].channels, 2));
    var pending: Samples := [];
    NothingConcatenated<real>();
    for i := 0 to |packets|
      invariant fresh(stream) && stream.channels == Min(packets[0].channels, 2)
      invariant Gathered(stream.chunks, pending, packets, i, stream.channels)
      invariant stream.readySamples == |Concat(stream.chunks)|
      invariant forall k :: 0 <= k < |stream.chunks| ==> |stream.chunks[k]| >= CHUNK_FRAMES * stream.channels
    {
      hide Concat, Gathered, Mixed, Framed;
      assert packets[i] in packets;
      GatherPacket(stream.chunks, pending, packets, i, stream.channels);
      pending := AppendDownmixed(pending, packets[i], stream.channels);
      if |pending| >= CHUNK_FRAMES * stream.channels {
        FlushPending(stream.chunks, pending, packets, i + 1, stream.channels);
        stream.Push(pending);
        pending := [];
      }
    }
    if pending != [] {
      FlushPending(stream.chunks, pending, packets, |packets|, stream.channels);
      stream.Push(pending);
    }
    stream.Finish();
    return Some(stream);
  }

  /** The pushed chunks and the pending samples hold the first n packets. */
  ghost predicate Gathered(chunks: seq<Samples>, pending: Samples, packets: seq<Packet>, n: nat, channels: nat)
    requires n <= |packets| && channels in {1, 2} && forall p :: p in packets ==> p.channels > 0
  {
    && Concat(chunks) + pending == MixedFirst(packets, n, channels)
    && (forall c :: c in chunks ==> c != [])
    && (Framed(packets, channels) ==> |pending| % channels == 0 && WellChunked(chunks, channels))
  }

  lemma GatherPacket(chunks: seq<Samples>, pending: Samples, packets: seq<Packet>, i: nat, channels: nat)
    requires i < |packets| && channels in {1, 2} && forall p :: p in packets ==> p.channels > 0
    requires Gathered(chunks, pending, packets, i, channels)
    ensures Gathered(chunks, pending + Mixed(packets[i], channels), packets, i + 1, channels)
  {
    hide Concat, WellChunked, Means;
    assert packets[i] in packets;
    var own := Mixed(packets[i], channels);
    Associative(Concat(chunks), pending, own);
    if Framed(packets, channels) {
      AlignedSum(pending, own, channels);
    }
  }

  lemma FlushPending(chunks: seq<Samples>, pending: Samples, packets: seq<Packet>, n: nat, channels: nat)
    requires n <= |packets| && channels in {1, 2} && pending != [] && forall p :: p in packets ==> p.channels > 0
    requires Gathered(chunks, pending, packets, n, channels)
    ensures Gathered(chunks + [pending], [], packets, n, channels)
    ensures Concat(chunks + [pending]) == Concat(chunks) + pending
  {
    hide Concat, MixedFirst, Framed;
    ConcatSnoc(chunks, pending);
    NothingAdded(Concat(chunks + [pending]));
  }

  lemma AlignedSum(a: Samples, b: Samples, channels: nat)
    requires channels in {1, 2} && |a| % channels == 0 && |b| % channels == 0
    ensures |a + b| % channels == 0
  {
  }
}
