/** The voice recorder: a streaming resampler to 48 kHz feeding fixed frames to an encoder whose
    packets carry granule positions. Samples are exact reals; the cursor is counted in 1/48000ths
    of a source frame, so that one output sample advances it by the source rate. */
module VoiceEncoder {
  import opened Arithmetic
  import opened Basics

  const TARGET_RATE := 48000
  const FRAME_SAMPLES := 960
  const MAX_SOURCE_RATE := 2 * TARGET_RATE

  // ---- Downmixing ----

  /** One mono sample per frame of `channels`; a short last frame averages what it has. */
  function Mono(interleaved: Samples, channels: nat): Samples
    requires channels > 0
    decreases |interleaved|
  {
    if interleaved == [] then []
    else
      var n := Min(channels, |interleaved|);
      [Sum(interleaved[..n]) / n as real] + Mono(interleaved[n..], channels)
  }

  /** Whole frames may be split between pushes anywhere. */
  lemma {:induction false} MonoSplits(a: Samples, b: Samples, channels: nat)
    requires channels > 0 && |a| % channels == 0
    ensures Mono(a + b, channels) == Mono(a, channels) + Mono(b, channels)
    decreases |a|
  {
    if a == [] {
      assert a + b == b;
    } else {
      assert |a| >= channels by {
        if |a| < channels {
          SmallRemainder(|a|, channels);
        }
      }
      assert (a + b)[..channels] == a[..channels] && (a + b)[channels..] == a[channels..] + b;
      OneFewer(|a|, channels);
      MonoSplits(a[channels..], b, channels);
    }
  }

  // ---- The batch resampler ----

  /** Linear interpolation at position p / 48000. */
  function Interpolate(pcm: Samples, p: nat): real
    requires p / TARGET_RATE + 1 < |pcm|
  {
    var index, fraction := p / TARGET_RATE, (p % TARGET_RATE) as real / TARGET_RATE as real;
    pcm[index] * (1.0 - fraction) + pcm[index + 1] * fraction
  }

  /** Where output sample j lies, in 1/48000ths of a source frame. */
  function Position(j: nat, rate: nat): nat {
    j * rate
  }

  /** Output samples that n source frames give: ceil((n - 1) * 48000 / rate). */
  function OutputCount(n: nat, rate: nat): nat
    requires rate > 0
  {
    if n == 0 then 0 else ((n - 1) * TARGET_RATE + rate - 1) / rate
  }

  lemma OutputCountExact(n: nat, rate: nat, j: nat)
    requires rate > 0
    ensures j < OutputCount(n, rate) <==> n > 0 && j * rate < (n - 1) * TARGET_RATE
  {
    if n > 0 {
      var a, q := (n - 1) * TARGET_RATE, OutputCount(n, rate);
      assert a <= q * rate < a + rate by { CeilBounds(a, rate); }
      if j < q {
        Times(j, q - 1, rate);
        assert (q - 1) * rate == q * rate - rate;
      } else {
        Times(q, j, rate);
      }
    }
  }

  lemma CeilBounds(a: nat, d: nat)
    requires d > 0
    ensures a <= (a + d - 1) / d * d < a + d
  {
    var x := a + d - 1;
    assert x == d * (x / d) + x % d;
    assert (x / d) * d == d * (x / d);
  }

  lemma Times(a: nat, b: nat, c: nat)
    requires a <= b
    ensures a * c <= b * c
  {
  }

  lemma InsideInput(n: nat, rate: nat, j: nat)
    requires rate > 0 && j < OutputCount(n, rate)
    ensures Position(j, rate) / TARGET_RATE + 1 < n
  {
    OutputCountExact(n, rate, j);
  }

  function SampleAt(pcm: Samples, rate: nat, j: nat): real
    requires rate > 0 && j < OutputCount(|pcm|, rate)
  {
    InsideInput(|pcm|, rate, j);
    Interpolate(pcm, Position(j, rate))
  }

  /** Everything one push of all the input gives. */
  function Resampled(pcm: Samples, rate: nat): Samples
    requires rate > 0
  {
    if rate == TARGET_RATE then pcm
    else seq(OutputCount(|pcm|, rate), j requires 0 <= j < OutputCount(|pcm|, rate) => SampleAt(pcm, rate, j))
  }

  lemma OutputCountGrows(n: nat, m: nat, rate: nat)
    requires rate > 0 && n <= m
    ensures OutputCount(n, rate) <= OutputCount(m, rate)
  {
    var c := OutputCount(n, rate);
    if c > 0 {
      OutputCountExact(n, rate, c - 1);
      OutputCountExact(m, rate, c - 1);
    }
  }

  /** More input only adds output. */
  lemma ResampledGrows(a: Samples, b: Samples, rate: nat)
    requires rate > 0
    ensures Resampled(a, rate) <= Resampled(a + b, rate)
  {
    if rate != TARGET_RATE {
      hide OutputCount;
      OutputCountGrows(|a|, |a + b|, rate);
      forall j | 0 <= j < OutputCount(|a|, rate)
        ensures Resampled(a, rate)[j] == Resampled(a + b, rate)[j]
      {
        InsideInput(|a|, rate, j);
        InterpolateLocal(a, b, j * rate);
      }
    }
  }

  lemma InterpolateLocal(a: Samples, b: Samples, p: nat)
    requires p / TARGET_RATE + 1 < |a|
    ensures Interpolate(a, p) == Interpolate(a + b, p)
  {
    var index := p / TARGET_RATE;
    assert (a + b)[index] == a[index] && (a + b)[index + 1] == a[index + 1];
  }

  // ---- Packets ----

  datatype Packet = Packet(samples: Samples, granule: nat, endOfStream: bool)

  function PacketSamples(packets: seq<Packet>): Samples {
    if packets == [] then []
    else PacketSamples(packets[..|packets| - 1]) + packets[|packets| - 1].samples
  }

  /** Packets before the last: full frames whose granules rise by one frame from the pre-skip. */
  predicate Regular(packets: seq<Packet>, preskip: nat) {
    forall i :: 0 <= i < |packets| ==>
      && !packets[i].endOfStream && |packets[i].samples| == FRAME_SAMPLES
      && packets[i].granule == preskip + FRAME_SAMPLES * (i + 1)
  }

  lemma {:induction false} RegularLength(packets: seq<Packet>, preskip: nat)
    requires Regular(packets, preskip)
    ensures |PacketSamples(packets)| == FRAME_SAMPLES * |packets|
  {
    if packets != [] {
      RegularLength(packets[..|packets| - 1], preskip);
    }
  }

  function Silence(n: nat): (s: Samples)
    ensures |s| == n
  {
    seq(n, _ => 0.0)
  }

  /** A finished recording: the packets carry all samples in order and zeros to fill the last frame;
      granules rise by a frame each, and the last one says where the sound ends. */
  ghost predicate Finished(packets: seq<Packet>, produced: Samples, preskip: nat) {
    && packets != []
    && Regular(packets[..|packets| - 1], preskip)
    && var last := packets[|packets| - 1];
       var previous := preskip + FRAME_SAMPLES * (|packets| - 1);
       && last.endOfStream && |last.samples| == FRAME_SAMPLES
       && last.granule == preskip + |produced|
       && previous <= last.granule < previous + FRAME_SAMPLES
       && PacketSamples(packets) == produced + Silence(FRAME_SAMPLES * |packets| - |produced|)
  }

  // ---- When the drain is in range ----

  /** After n source frames the position of the next sample is before frame n + 1: otherwise the drain
      asks for more samples than are buffered, which stops the program. */
  predicate DrainInRange(n: nat, rate: nat)
    requires rate > 0
  {
    OutputCount(n, rate) * rate < (n + 1) * TARGET_RATE
  }

  /** Every push of a recording, n frames having come before, leaves a drain in range. */
  predicate DrainsFit(n: nat, parts: seq<Samples>, channels: nat, rate: nat)
    requires rate > 0 && channels > 0
    decreases |parts|
  {
    parts == [] ||
    var m := n + |Mono(parts[0], channels)|;
    DrainInRange(m, rate) && DrainsFit(m, parts[1..], channels, rate)
  }

  lemma SlowRateFits(n: nat, rate: nat)
    requires 0 < rate <= MAX_SOURCE_RATE
    ensures DrainInRange(n, rate)
  {
    var j := OutputCount(n, rate);
    if j > 0 {
      OutputCountExact(n, rate, j - 1);
      NextPosition(j - 1, rate);
    }
  }

  /** At any rate above 96 kHz the first second of sound, but for one frame, leaves the next position
      at the end of that second. */
  lemma FastRateOverruns(rate: nat)
    requires rate > MAX_SOURCE_RATE
    ensures OutputCount(rate - 1, rate) == TARGET_RATE && !DrainInRange(rate - 1, rate)
  {
    hide OutputCount;
    OutputCountExact(rate - 1, rate, TARGET_RATE - 1);
    OutputCountExact(rate - 1, rate, TARGET_RATE);
  }

  /** The drain is in range however many frames have come exactly up to 96 kHz. */
  lemma RateFitsExactly(rate: nat)
    requires rate > 0
    ensures (forall n: nat :: DrainInRange(n, rate)) <==> rate <= MAX_SOURCE_RATE
  {
    hide DrainInRange;
    if rate <= MAX_SOURCE_RATE {
      forall n: nat
        ensures DrainInRange(n, rate)
      {
        SlowRateFits(n, rate);
      }
    } else {
      FastRateOverruns(rate);
    }
  }

  lemma {:induction false} SlowRecordingFits(n: nat, parts: seq<Samples>, channels: nat, rate: nat)
    requires 0 < rate <= MAX_SOURCE_RATE && channels > 0
    ensures DrainsFit(n, parts, channels, rate)
    decreases |parts|
  {
    hide DrainInRange, Mono;
    if parts != [] {
      var m := n + |Mono(parts[0], channels)|;
      SlowRateFits(m, rate);
      SlowRecordingFits(m, parts[1..], channels, rate);
    }
  }

  /** How a recording ends: a file, an error, or a drain out of range. */
  datatype Outcome = Recorded | Refused | Overran

  class Recorder {
    const sourceRate: nat
    const channels: nat
    const preskip: nat
    var sourcePcm: Samples
    var sourceCursor: nat
    var frame: Samples
    var packets: seq<Packet>
    var totalSamples: nat
    var encodedSamples: nat

    ghost var fed: Samples        // every mono sample pushed
    ghost var produced: Samples   // every sample ever queued for encoding
    ghost var dropped: nat        // source samples already drained
    ghost var failures: nat       // codec and container calls that failed

    /** The resampler's state is the batch result so far and the position of the next sample. */
    ghost predicate InStep()
      reads this`sourcePcm, this`sourceCursor, this`fed, this`produced, this`dropped
    {
      && sourceRate > 0 && channels > 0
      && dropped <= |fed| && sourcePcm == fed[dropped..]
      && produced == Resampled(fed, sourceRate)
      && if sourceRate == TARGET_RATE then sourcePcm == [] && sourceCursor == 0
         else dropped * TARGET_RATE + sourceCursor == Position(|produced|, sourceRate)
    }

    /** The packet side, as long as no encoding has failed. */
    ghost predicate Encoding()
      reads this`packets, this`frame, this`produced, this`totalSamples, this`encodedSamples
    {
      && Regular(packets, preskip)
      && PacketSamples(packets) + frame == produced
      && totalSamples == encodedSamples == FRAME_SAMPLES * |packets|
    }

    constructor (sourceRate: nat, channels: nat, preskip: nat)
      ensures InStep() && Encoding() && fed == [] && packets == [] && failures == 0
      ensures this.sourceRate == Max(sourceRate, 1) && this.channels == Max(channels, 1) && this.preskip == preskip
    {
      this.sourceRate := Max(sourceRate, 1);
      this.channels := Max(channels, 1);
      this.preskip := preskip;
      sourcePcm, sourceCursor, frame, packets := [], 0, [], [];
      totalSamples, encodedSamples := 0, 0;
      fed, produced, dropped, failures := [], [], 0, 0;
    }

    /** However the input is divided, what has been queued is the batch result of all of it. The call
        comes back exactly when the drain is in range. */
    method Push(interleaved: Samples) returns (inRange: bool)
      requires InStep()
      modifies this`sourcePcm, this`sourceCursor, this`frame, this`fed, this`produced, this`dropped
      ensures inRange <==> DrainInRange(|fed|, sourceRate)
      ensures inRange ==> InStep()
      ensures fed == old(fed) + Mono(interleaved, channels)
      ensures produced == Resampled(fed, sourceRate) && old(produced) <= produced
      ensures frame == old(frame) + produced[|old(produced)|..]
      ensures old(Encoding()) ==> Encoding()
    {
      hide Mono, Resampled, Position, DrainInRange;
      ghost var before := produced;
      var added := Downmix(interleaved);
      ResampledGrows(fed, added, sourceRate);
      if sourceRate == TARGET_RATE {
        SameRate(fed);
        assert (fed + added)[..|fed|] == fed;
      }
      sourcePcm := sourcePcm + added;
      fed := fed + added;
      assert sourcePcm == fed[dropped..];
      inRange := Resample();
      assert produced == before + produced[|before|..];
    }

    method Downmix(interleaved: Samples) returns (added: Samples)
      requires channels > 0
      ensures added == Mono(interleaved, channels)
    {
      hide Mono, Sum;
      NothingIsMono(channels);
      var rest := interleaved;
      added := [];
      while rest != []
        invariant added + Mono(rest, channels) == Mono(interleaved, channels)
        decreases |rest|
      {
        MonoStep(rest, channels);
        var n := Min(channels, |rest|);
        var mean := SumLoop(rest[..n]);
        added := added + [mean / n as real];
        rest := rest[n..];
      }
    }

    method Resample() returns (inRange: bool)
      requires sourceRate > 0 && channels > 0
      requires dropped <= |fed| && sourcePcm == fed[dropped..] && produced <= Resampled(fed, sourceRate)
      requires if sourceRate == TARGET_RATE then sourceCursor == 0 && produced == fed[..dropped]
               else dropped * TARGET_RATE + sourceCursor == Position(|produced|, sourceRate)
      modifies this`sourcePcm, this`sourceCursor, this`frame, this`produced, this`dropped
      ensures inRange <==> DrainInRange(|fed|, sourceRate)
      ensures inRange ==> InStep()
      ensures produced == Resampled(fed, sourceRate) && old(produced) <= produced
      ensures frame == old(frame) + produced[|old(produced)|..]
    {
      hide OutputCount, SampleAt, Resampled, Interpolate, Position, DrainInRange;
      if sourceRate == TARGET_RATE {
        SameRate(fed);
        SlowRateFits(|fed|, sourceRate);
        inRange := true;
        frame := frame + sourcePcm;
        sourcePcm := [];
        produced, dropped := fed, |fed|;
      } else {
        InterpolateReady();
        inRange := DrainConsumed();
      }
    }

    /** Samples are put out as long as both of their neighbours are there: all of the batch result. */
    method InterpolateReady()
      requires sourceRate > 0 && sourceRate != TARGET_RATE
      requires dropped <= |fed| && sourcePcm == fed[dropped..] && produced <= Resampled(fed, sourceRate)
      requires dropped * TARGET_RATE + sourceCursor == Position(|produced|, sourceRate)
      modifies this`sourceCursor, this`frame, this`produced
      ensures dropped * TARGET_RATE + sourceCursor == Position(|produced|, sourceRate)
      ensures produced == Resampled(fed, sourceRate) && |produced| == OutputCount(|fed|, sourceRate)
      ensures old(produced) <= produced && frame == old(frame) + produced[|old(produced)|..]
    {
      hide OutputCount, SampleAt, Resampled, Interpolate, Position;
      ghost var before, all := produced, Resampled(fed, sourceRate);
      while sourceCursor + TARGET_RATE < |sourcePcm| * TARGET_RATE
        invariant dropped * TARGET_RATE + sourceCursor == Position(|produced|, sourceRate)
        invariant produced <= all && before <= produced
        invariant frame == old(frame) + produced[|before|..]
        decreases |sourcePcm| * TARGET_RATE - sourceCursor
      {
        NextSample(fed, dropped, sourceCursor, sourceRate, |produced|);
        var sample := Blend(sourcePcm, sourceCursor);
        NextPosition(|produced|, sourceRate);
        PutOut(old(frame), before, produced, all, sample);
        frame := frame + [sample];
        produced := produced + [sample];
        sourceCursor := sourceCursor + sourceRate;
      }
      AllProduced(fed, dropped, sourceCursor, sourceRate, produced);
    }

    /** Source samples before the cursor are not needed again. */
    method DrainConsumed() returns (inRange: bool)
      requires sourceRate > 0 && dropped <= |fed| && sourcePcm == fed[dropped..]
      requires dropped * TARGET_RATE + sourceCursor == Position(|produced|, sourceRate)
      requires |produced| == OutputCount(|fed|, sourceRate)
      modifies this`sourcePcm, this`sourceCursor, this`dropped
      ensures inRange <==> DrainInRange(|fed|, sourceRate)
      ensures dropped <= |fed| && sourcePcm == fed[dropped..]
      ensures dropped * TARGET_RATE + sourceCursor == Position(|produced|, sourceRate)
      ensures inRange ==> sourceCursor < TARGET_RATE
    {
      hide OutputCount, SampleAt, Resampled, Interpolate, Position, DrainInRange;
      DrainFitsExactly(|fed|, dropped, sourceCursor, sourceRate);
      var consumed := sourceCursor / TARGET_RATE;
      inRange := consumed <= |sourcePcm|;
      if inRange && consumed > 0 {
        DropTwice(fed, dropped, consumed);
        sourcePcm := sourcePcm[consumed..];
        sourceCursor := sourceCursor - consumed * TARGET_RATE;
        dropped := dropped + consumed;
      }
    }

    /** One frame into one packet. The codec and the container may fail; nothing else does. */
    method EncodeFrame(samples: Samples, last: bool) returns (ok: bool)
      modifies this`encodedSamples, this`packets, this`failures
      ensures failures == old(failures) + if ok then 0 else 1
      ensures ok ==> encodedSamples == old(encodedSamples) + FRAME_SAMPLES
      ensures ok ==> packets == old(packets)
                     + [Packet(samples, preskip + if last then totalSamples else encodedSamples, last)]
      ensures !ok ==> packets == old(packets)
    {
      var encoded: bool := *;
      if !encoded {
        failures := failures + 1;
        return false;
      }
      encodedSamples := encodedSamples + FRAME_SAMPLES;
      var granule := if last then preskip + totalSamples else preskip + encodedSamples;
      var written: bool := *;
      if !written {
        failures := failures + 1;
        return false;
      }
      packets := packets + [Packet(samples, granule, last)];
      return true;
    }

    method EncodeReadyFrames() returns (ok: bool)
      requires Encoding()
      modifies this`frame, this`totalSamples, this`encodedSamples, this`packets, this`failures
      ensures ok ==> Encoding() && |frame| < FRAME_SAMPLES
      ensures failures == old(failures) + if ok then 0 else 1
    {
      ok := true;
      while |frame| >= FRAME_SAMPLES
        invariant Encoding() && ok && failures == old(failures)
        decreases |frame|
      {
        ghost var was := packets;
        var rest := frame[FRAME_SAMPLES..];
        var ready := frame[..FRAME_SAMPLES];
        frame := rest;
        totalSamples := totalSamples + FRAME_SAMPLES;
        ok := EncodeFrame(ready, false);
        if !ok {
          return;
        }
        assert packets[..|packets| - 1] == was;
        assert PacketSamples(packets) + frame == produced by {
          assert PacketSamples(was) + (ready + rest) == PacketSamples(was) + ready + rest;
          assert ready + rest == ready + rest;
        }
      }
    }

    /** Closing the file: the samples left over fill a last frame, and the totals add up. */
    method Finish() returns (ok: bool)
      requires Encoding()
      modifies this`frame, this`totalSamples, this`encodedSamples, this`packets, this`failures
      ensures ok <==> failures == old(failures) && produced != []
      ensures ok ==> totalSamples == |produced| > 0 && Finished(packets, produced, preskip)
    {
      ok := EncodeReadyFrames();
      if !ok {
        return;
      }
      RegularLength(packets, preskip);
      var tail := |frame|;
      if tail > 0 {
        totalSamples := totalSamples + tail;
      }
      if totalSamples == 0 {
        return false;
      }
      ghost var was := packets;
      var last := frame + Silence(FRAME_SAMPLES - tail);
      frame := [];
      ok := EncodeFrame(last, true);
      if ok {
        assert packets[..|packets| - 1] == was;
        assert PacketSamples(packets) == PacketSamples(was) + last;
      }
    }

    /** A whole recording from pushes of whole frames, encoding as frames fill up. When nothing
        fails, the file holds the batch resampling of all the input. */
    method Record(parts: seq<Samples>) returns (outcome: Outcome)
      requires InStep() && Encoding() && fed == []
      requires forall p :: p in parts ==> |p| % channels == 0
      modifies this
      ensures outcome.Recorded? ==>
                var all := Resampled(Mono(Concat(parts), channels), sourceRate);
                totalSamples == |all| > 0 && Finished(packets, all, preskip)
      ensures outcome.Recorded? <==>
                && failures == old(failures) && DrainsFit(0, parts, channels, sourceRate)
                && Resampled(Mono(Concat(parts), channels), sourceRate) != []
      ensures outcome.Overran? ==> failures == old(failures) && !DrainsFit(0, parts, channels, sourceRate)
      ensures outcome.Refused? && failures == old(failures) ==> DrainsFit(0, parts, channels, sourceRate)
    {
      hide *;
      ProducedIsBatch();
      var i := 0;
      assert parts[0..] == parts;
      ghost var all := Mono(Concat(parts), channels);
      ghost var todo := all;
      assert fed + todo == all;
      while i < |parts|
        invariant 0 <= i <= |parts| && InStep() && Encoding()
        invariant produced == Resampled(fed, sourceRate) && failures == old(failures)
        invariant todo == Mono(Concat(parts[i..]), channels) && fed + todo == all
        invariant DrainsFit(0, parts, channels, sourceRate) <==> DrainsFit(|fed|, parts[i..], channels, sourceRate)
      {
        MonoOfRest(parts, i, channels);
        DrainsStep(|fed|, parts, i, channels, sourceRate);
        assert parts[i] in parts;
        ghost var before, own := fed, Mono(parts[i], channels);
        todo := Mono(Concat(parts[i + 1..]), channels);
        Associative(before, own, todo);
        var inRange := Push(parts[i]);
        if !inRange {
          return Overran;
        }
        var ok := EncodeReadyFrames();
        if !ok {
          return Refused;
        }
        i := i + 1;
      }
      assert parts[i..] == [];
      NothingIsMono(channels);
      NothingDrained(|fed|, channels, sourceRate);
      NothingAdded(fed);
      var ok := Finish();
      outcome := if ok then Recorded else Refused;
    }

    lemma ProducedIsBatch()
      requires InStep()
      ensures produced == Resampled(fed, sourceRate) && sourceRate > 0 && channels > 0
    {
      hide Resampled, Position;
    }
  }

  lemma MonoOfRest(parts: seq<Samples>, i: nat, channels: nat)
    requires channels > 0 && i < |parts| && |parts[i]| % channels == 0
    ensures Mono(Concat(parts[i..]), channels) == Mono(parts[i], channels) + Mono(Concat(parts[i + 1..]), channels)
  {
    hide Mono;
    assert parts[i..][1..] == parts[i + 1..];
    MonoSplits(parts[i], Concat(parts[i + 1..]), channels);
  }

  lemma NothingIsMono(channels: nat)
    requires channels > 0
    ensures Mono([], channels) == [] && Mono(Concat([]), channels) == []
  {
  }

  lemma MonoStep(rest: Samples, channels: nat)
    requires channels > 0 && rest != []
    ensures var n := Min(channels, |rest|);
            n > 0 && Mono(rest, channels) == [Sum(rest[..n]) / n as real] + Mono(rest[n..], channels)
  {
  }

  /** Linear interpolation between the two frames around the cursor. */
  method Blend(pcm: Samples, cursor: nat) returns (sample: real)
    requires cursor / TARGET_RATE + 1 < |pcm|
    ensures sample == Interpolate(pcm, cursor)
  {
    var index, fraction := cursor / TARGET_RATE, (cursor % TARGET_RATE) as real / TARGET_RATE as real;
    sample := pcm[index] * (1.0 - fraction) + pcm[index + 1] * fraction;
  }

  method SumLoop(s: Samples) returns (sum: real)
    ensures sum == Sum(s)
  {
    sum := 0.0;
    for i := 0 to |s|
      invariant sum == Sum(s[..i])
    {
      assert s[..i + 1][..i] == s[..i];
      sum := sum + s[i];
    }
    assert s[..|s|] == s;
  }

  lemma PutOut(frame: Samples, before: Samples, produced: Samples, all: Samples, sample: real)
    requires before <= produced <= all && |produced| < |all| && all[|produced|] == sample
    ensures before <= produced + [sample] <= all
    ensures frame + produced[|before|..] + [sample] == frame + (produced + [sample])[|before|..]
  {
    assert (produced + [sample])[|before|..] == produced[|before|..] + [sample];
  }

  lemma DropTwice(s: Samples, a: nat, b: nat)
    requires a + b <= |s|
    ensures s[a..][b..] == s[a + b..]
  {
  }

  lemma SameRate(fed: Samples)
    ensures Resampled(fed, TARGET_RATE) == fed
  {
  }

  lemma NextPosition(j: nat, rate: nat)
    ensures Position(j + 1, rate) == Position(j, rate) + rate && Position(0, rate) == 0
  {
  }

  /** The sample under the cursor is sample number j of the batch. */
  lemma NextSample(fed: Samples, dropped: nat, cursor: nat, rate: nat, j: nat)
    requires rate > 0 && rate != TARGET_RATE && dropped <= |fed|
    requires dropped * TARGET_RATE + cursor == Position(j, rate)
    requires cursor + TARGET_RATE < (|fed| - dropped) * TARGET_RATE
    ensures j < |Resampled(fed, rate)|
    ensures cursor / TARGET_RATE + 1 < |fed| - dropped
    ensures Resampled(fed, rate)[j] == Interpolate(fed[dropped..], cursor)
  {
    hide OutputCount, Interpolate, Resampled, SampleAt;
    OutputCountExact(|fed|, rate, j);
    SampleNumber(fed, rate, j);
    hide Position;
    InterpolateAfter(fed, dropped, cursor);
  }

  lemma SampleNumber(fed: Samples, rate: nat, j: nat)
    requires rate > 0 && rate != TARGET_RATE && j < OutputCount(|fed|, rate)
    ensures Position(j, rate) / TARGET_RATE + 1 < |fed|
    ensures j < |Resampled(fed, rate)| && Resampled(fed, rate)[j] == Interpolate(fed, Position(j, rate))
  {
    hide OutputCount, Position;
    InsideInput(|fed|, rate, j);
  }

  /** Dropping whole source samples moves the position by as many. */
  lemma InterpolateAfter(fed: Samples, dropped: nat, cursor: nat)
    requires dropped <= |fed| && cursor / TARGET_RATE + 1 < |fed| - dropped
    ensures (dropped * TARGET_RATE + cursor) / TARGET_RATE + 1 < |fed|
    ensures Interpolate(fed, dropped * TARGET_RATE + cursor) == Interpolate(fed[dropped..], cursor)
  {
    var p := dropped * TARGET_RATE + cursor;
    assert p / TARGET_RATE == dropped + cursor / TARGET_RATE && p % TARGET_RATE == cursor % TARGET_RATE;
  }

  /** When the loop stops, every sample of the batch is out. */
  lemma AllProduced(fed: Samples, dropped: nat, cursor: nat, rate: nat, produced: Samples)
    requires rate > 0 && rate != TARGET_RATE && dropped <= |fed|
    requires dropped * TARGET_RATE + cursor == Position(|produced|, rate)
    requires cursor + TARGET_RATE >= (|fed| - dropped) * TARGET_RATE
    requires produced <= Resampled(fed, rate)
    ensures produced == Resampled(fed, rate) && |produced| == OutputCount(|fed|, rate)
  {
    hide OutputCount;
    OutputCountExact(|fed|, rate, |produced|);
  }

  lemma DrainsStep(n: nat, parts: seq<Samples>, i: nat, channels: nat, rate: nat)
    requires i < |parts| && channels > 0 && rate > 0
    ensures var m := n + |Mono(parts[i], channels)|;
            DrainsFit(n, parts[i..], channels, rate) <==> DrainInRange(m, rate) && DrainsFit(m, parts[i + 1..], channels, rate)
  {
    hide Mono, DrainInRange;
    TailOfDrop(parts, i);
  }

  lemma NothingDrained(n: nat, channels: nat, rate: nat)
    requires channels > 0 && rate > 0
    ensures DrainsFit(n, [], channels, rate)
  {
  }

  /** The drain after n source frames takes no more than is buffered exactly when the next position is
      before frame n + 1, however much was drained already. */
  lemma DrainFitsExactly(n: nat, dropped: nat, cursor: nat, rate: nat)
    requires rate > 0 && dropped <= n
    requires dropped * TARGET_RATE + cursor == Position(OutputCount(n, rate), rate)
    ensures cursor / TARGET_RATE <= n - dropped <==> DrainInRange(n, rate)
  {
    hide OutputCount;
  }

  /** At 144 kHz two source frames in the first push are enough: three would be drained. */
  lemma DrainOverruns()
    ensures var n, dropped, cursor, rate := 2, 0, 144000, 144000;
            && dropped * TARGET_RATE + cursor == Position(OutputCount(n, rate), rate)
            && !(cursor / TARGET_RATE <= n - dropped)
  {
    OutputCountExact(2, 144000, 0);
    OutputCountExact(2, 144000, 1);
  }
}
