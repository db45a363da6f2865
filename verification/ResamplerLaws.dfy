/** Laws of the recorder's signal path, stated on what goes in and what comes out: the resampler is
    linear, exact on samples and on ramps, and local; the downmix is the mean of each frame. */
module ResamplerLaws {
  import opened Arithmetic
  import opened Basics
  import opened VoiceEncoder
  import PcmStream

  // ---- Linearity ----

  function Scaled(x: Samples, k: real): (r: Samples)
    ensures |r| == |x| && forall i :: 0 <= i < |x| ==> r[i] == k * x[i]
  {
    seq(|x|, i requires 0 <= i < |x| => k * x[i])
  }

  function Added(x: Samples, y: Samples): (r: Samples)
    requires |x| == |y|
    ensures |r| == |x| && forall i :: 0 <= i < |x| ==> r[i] == x[i] + y[i]
  {
    seq(|x|, i requires 0 <= i < |x| => x[i] + y[i])
  }

  /** The two frames around sample j, and how far it lies past the first one. */
  lemma Around(pcm: Samples, rate: nat, j: nat)
    requires rate > 0 && j < |Resampled(pcm, rate)|
    ensures rate != 48000 ==> j * rate / 48000 + 1 < |pcm|
    ensures rate == 48000 ==> j < |pcm| && Resampled(pcm, rate)[j] == pcm[j]
    ensures rate != 48000 ==>
              var i, f := j * rate / 48000, (j * rate % 48000) as real / 48000.0;
              Resampled(pcm, rate)[j] == pcm[i] * (1.0 - f) + pcm[i + 1] * f
  {
    hide OutputCount, SampleAt, Interpolate;
    if rate != 48000 {
      SampleNumber(pcm, rate, j);
      InterpolateIs(pcm, j * rate);
    }
  }

  lemma InterpolateIs(pcm: Samples, p: nat)
    requires p / 48000 + 1 < |pcm|
    ensures var i, f := p / 48000, (p % 48000) as real / 48000.0;
            Interpolate(pcm, p) == pcm[i] * (1.0 - f) + pcm[i + 1] * f
  {
  }

  lemma SameLength(x: Samples, y: Samples, rate: nat)
    requires rate > 0 && |x| == |y|
    ensures |Resampled(x, rate)| == |Resampled(y, rate)|
  {
    hide OutputCount, SampleAt;
  }

  lemma ScaledBlend(k: real, a: real, b: real, f: real)
    ensures k * a * (1.0 - f) + k * b * f == k * (a * (1.0 - f) + b * f)
  {
  }

  lemma AddedBlend(a: real, b: real, c: real, d: real, f: real)
    ensures (a + c) * (1.0 - f) + (b + d) * f == (a * (1.0 - f) + b * f) + (c * (1.0 - f) + d * f)
  {
  }

  /** Louder input gives louder output. */
  lemma ResamplingScales(x: Samples, k: real, rate: nat)
    requires rate > 0
    ensures Resampled(Scaled(x, k), rate) == Scaled(Resampled(x, rate), k)
  {
    hide Resampled;
    SameLength(x, Scaled(x, k), rate);
    forall j | 0 <= j < |Resampled(x, rate)|
      ensures Resampled(Scaled(x, k), rate)[j] == k * Resampled(x, rate)[j]
    {
      Around(x, rate, j);
      Around(Scaled(x, k), rate, j);
      if rate != 48000 {
        var i, f := j * rate / 48000, (j * rate % 48000) as real / 48000.0;
        ScaledBlend(k, x[i], x[i + 1], f);
      }
    }
  }

  /** Two sounds resampled together are the two resampled apart. */
  lemma ResamplingAdds(x: Samples, y: Samples, rate: nat)
    requires rate > 0 && |x| == |y|
    ensures |Resampled(x, rate)| == |Resampled(y, rate)|
    ensures Resampled(Added(x, y), rate) == Added(Resampled(x, rate), Resampled(y, rate))
  {
    hide Resampled;
    SameLength(x, y, rate);
    SameLength(x, Added(x, y), rate);
    forall j | 0 <= j < |Resampled(x, rate)|
      ensures Resampled(Added(x, y), rate)[j] == Resampled(x, rate)[j] + Resampled(y, rate)[j]
    {
      Around(x, rate, j);
      Around(y, rate, j);
      Around(Added(x, y), rate, j);
      if rate != 48000 {
        var i, f := j * rate / 48000, (j * rate % 48000) as real / 48000.0;
        AddedBlend(x[i], x[i + 1], y[i], y[i + 1], f);
      }
    }
  }

  // ---- Values ----

  /** Where the position is a whole number of frames, the output is that very input sample. */
  lemma WholePositionIsSample(pcm: Samples, rate: nat, j: nat, i: nat)
    requires rate > 0 && j < |Resampled(pcm, rate)| && j * rate == i * 48000
    ensures i < |pcm| && Resampled(pcm, rate)[j] == pcm[i]
  {
    hide Resampled;
    Around(pcm, rate, j);
    if rate != 48000 {
      assert j * rate / 48000 == i && j * rate % 48000 == 0;
    }
  }

  predicate IsRamp(pcm: Samples, a: real, b: real) {
    forall i :: 0 <= i < |pcm| ==> pcm[i] == a + b * i as real
  }

  /** A ramp stays the same ramp over time. */
  lemma RampIsKept(pcm: Samples, a: real, b: real, rate: nat, j: nat)
    requires rate > 0 && j < |Resampled(pcm, rate)| && IsRamp(pcm, a, b)
    ensures Resampled(pcm, rate)[j] == a + b * ((j * rate) as real / 48000.0)
  {
    hide Resampled;
    Around(pcm, rate, j);
    var p := j * rate;
    if rate == 48000 {
      assert (j * 48000) as real / 48000.0 == j as real;
    } else {
      var i, f := p / 48000, (p % 48000) as real / 48000.0;
      WholeAndPart(p);
      OnRamp(a, b, i as real, f);
    }
  }

  lemma WholeAndPart(p: nat)
    ensures (p / 48000) as real + (p % 48000) as real / 48000.0 == p as real / 48000.0
  {
    assert p == p / 48000 * 48000 + p % 48000;
    assert p as real == (p / 48000) as real * 48000.0 + (p % 48000) as real;
  }

  lemma OnRamp(a: real, b: real, i: real, f: real)
    ensures (a + b * i) * (1.0 - f) + (a + b * (i + 1.0)) * f == a + b * (i + f)
  {
  }

  /** A sample depends on its two neighbouring frames only. */
  lemma ResamplingIsLocal(x: Samples, y: Samples, rate: nat, j: nat)
    requires rate > 0 && |x| == |y| && j < |Resampled(x, rate)|
    requires forall i :: 0 <= i < |x| && j * rate / 48000 <= i <= j * rate / 48000 + 1 ==> x[i] == y[i]
    ensures j < |Resampled(y, rate)| && Resampled(x, rate)[j] == Resampled(y, rate)[j]
  {
    hide Resampled;
    SameLength(x, y, rate);
    Around(x, rate, j);
    Around(y, rate, j);
  }

  // ---- Downmixing ----

  lemma {:induction false} MonoLength(s: Samples, channels: nat, frames: nat)
    requires channels > 0 && |s| == frames * channels
    ensures |Mono(s, channels)| == frames
    decreases frames
  {
    if frames > 0 {
      assert |s| == (frames - 1) * channels + channels;
      MonoLength(s[channels..], channels, frames - 1);
    } else {
      assert s == [];
    }
  }

  /** Sample i of the downmix, times the channels, is the sum of frame i. */
  lemma {:induction false} MonoIsMean(s: Samples, channels: nat, frames: nat, i: nat)
    requires channels > 0 && |s| == frames * channels && i < frames
    ensures i < |Mono(s, channels)| && i * channels + channels <= |s|
    ensures Mono(s, channels)[i] * channels as real == Sum(s[i * channels..i * channels + channels])
    decreases frames
  {
    hide Sum, Mono;
    MonoLength(s, channels, frames);
    FrameInside(i, frames, channels);
    FrameInside(0, frames, channels);
    MonoStep(s, channels);
    if i == 0 {
      Undivided(Sum(s[..channels]), channels as real);
    } else {
      OneFrameOn(s, channels, frames, i);
      MonoIsMean(s[channels..], channels, frames - 1, i - 1);
    }
  }

  lemma Undivided(x: real, c: real)
    requires c > 0.0
    ensures x / c * c == x
  {
  }

  lemma OneFrameOn(s: Samples, channels: nat, frames: nat, i: nat)
    requires channels > 0 && |s| == frames * channels && 0 < i < frames && i * channels + channels <= |s|
    ensures channels <= |s| && |s[channels..]| == (frames - 1) * channels && (i - 1) * channels + channels == i * channels
    ensures s[channels..][(i - 1) * channels..i * channels] == s[i * channels..i * channels + channels]
  {
    assert frames * channels == (frames - 1) * channels + channels;
    assert i * channels == (i - 1) * channels + channels;
  }

  lemma FrameInside(i: nat, frames: nat, channels: nat)
    requires i < frames
    ensures i * channels + channels <= frames * channels
  {
    var more := frames - i - 1;
    assert frames * channels == i * channels + channels + more * channels;
  }

  /** A short last frame is averaged over what it has. */
  lemma MonoOfShortFrame(s: Samples, channels: nat)
    requires 0 < |s| < channels
    ensures |Mono(s, channels)| == 1 && Mono(s, channels)[0] * |s| as real == Sum(s)
  {
    hide Sum, Mono;
    MonoStep(s, channels);
    assert s[..|s|] == s && s[|s|..] == [];
    NothingIsMono(channels);
    Undivided(Sum(s), |s| as real);
  }

  /** Sums of short frames, written out. */
  lemma SmallSums(a: real, b: real)
    ensures Sum([]) == 0.0 && Sum([a]) == a && Sum([a, b]) == a + b
  {
    assert [a][..0] == [] && [a, b][..1] == [a];
    assert [a][1..] == [] && [a, b][1..] == [b];
  }

  /** The player's downmix is the recorder's, on whole frames. */
  lemma {:induction false} MeansAreMono(s: Samples, channels: nat, frames: nat)
    requires channels > 0 && |s| == frames * channels
    ensures PcmStream.Means(s, channels) == Mono(s, channels)
    decreases frames
  {
    if frames > 0 {
      assert |s| == (frames - 1) * channels + channels;
      MeansAreMono(s[channels..], channels, frames - 1);
    } else {
      assert s == [];
    }
  }

  /** Samples of a last partial frame are dropped by the player. */
  lemma {:induction false} MeansDropRest(s: Samples, rest: Samples, channels: nat, frames: nat)
    requires channels > 0 && |s| == frames * channels && |rest| < channels
    ensures PcmStream.Means(s + rest, channels) == PcmStream.Means(s, channels)
    decreases frames
  {
    if frames > 0 {
      assert |s| == (frames - 1) * channels + channels;
      assert (s + rest)[..channels] == s[..channels] && (s + rest)[channels..] == s[channels..] + rest;
      MeansDropRest(s[channels..], rest, channels, frames - 1);
    } else {
      assert s == [];
    }
  }
}
