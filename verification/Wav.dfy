/** Cutting a sound down to a mono file: windowed downsampling, the file writer, and the reader
    that takes the duration back out of the chunks. */
module Wav {
  import opened Arithmetic
  import opened Basics

  datatype Result<+T> = Ok(value: T) | InvalidPcm | EmptySelection | TooLarge

  // ---- Downsampling ----

  /** Where window i starts: floor(i * rate / outputRate). */
  function WindowStart(i: nat, rate: nat, outputRate: nat): nat
    requires outputRate > 0
  {
    i * rate / outputRate
  }

  function OutputLen(n: nat, rate: nat, outputRate: nat): nat
    requires rate > 0
  {
    n * outputRate / rate
  }

  function Average(window: Samples): real
    requires window != []
  {
    Sum(window) / |window| as real
  }

  lemma DivTimes(a: nat, d: nat)
    requires d > 0
    ensures d * (a / d) <= a < d * (a / d) + d
  {
    assert a == d * (a / d) + a % d;
  }

  lemma MulLess(d: nat, a: int, b: int)
    requires d > 0 && d * a < d * b
    ensures a < b
  {
    if a >= b {
      if a > b {
        MultipleGap(d, a, b);
      }
    }
  }

  /** Window i starts at the last sample that is not after time i / outputRate, and the number of windows
      is the last one whose end is not after the end of the input. */
  lemma WindowStartExactly(i: nat, rate: nat, outputRate: nat, s: nat)
    requires outputRate > 0
    ensures s == WindowStart(i, rate, outputRate) <==> s * outputRate <= i * rate < s * outputRate + outputRate
  {
    DivTimes(i * rate, outputRate);
    var start := WindowStart(i, rate, outputRate);
    assert outputRate * start == start * outputRate && outputRate * s == s * outputRate;
    if s * outputRate <= i * rate < s * outputRate + outputRate {
      RemainderUnique(i * rate, outputRate, s, i * rate - s * outputRate);
    }
  }

  lemma OutputLenExactly(k: nat, n: nat, rate: nat, outputRate: nat)
    requires rate > 0
    ensures k <= OutputLen(n, rate, outputRate) <==> k * rate <= n * outputRate
  {
    var len := OutputLen(n, rate, outputRate);
    DivTimes(n * outputRate, rate);
    assert rate * k == k * rate;
    if k <= len {
      MulMono(rate, k, len);
    } else {
      MultipleGap(rate, k, len);
    }
  }

  /** Windows are never empty when the rate goes down. */
  lemma WindowsGrow(i: nat, rate: nat, outputRate: nat)
    requires 0 < outputRate < rate
    ensures WindowStart(i, rate, outputRate) < WindowStart(i + 1, rate, outputRate)
  {
    var a, b := WindowStart(i, rate, outputRate), WindowStart(i + 1, rate, outputRate);
    DivTimes(i * rate, outputRate);
    DivTimes((i + 1) * rate, outputRate);
    assert (i + 1) * rate == i * rate + rate;
    assert outputRate * (b + 1) == outputRate * b + outputRate;
    MulLess(outputRate, a, b) by {
      assert outputRate * a <= i * rate;
      assert i * rate + rate < outputRate * b + outputRate;
      assert outputRate * a < outputRate * b + outputRate - rate;
      assert outputRate * a < outputRate * b;
    }
  }

  /** The last window ends inside the input. */
  lemma WindowsFit(i: nat, n: nat, rate: nat, outputRate: nat)
    requires 0 < outputRate < rate && i <= OutputLen(n, rate, outputRate)
    ensures WindowStart(i, rate, outputRate) <= n
  {
    var len := OutputLen(n, rate, outputRate);
    DivTimes(n * outputRate, rate);
    DivTimes(i * rate, outputRate);
    var start := WindowStart(i, rate, outputRate);
    assert i * rate <= n * outputRate by {
      assert rate * i <= rate * len by { MulMono(rate, i, len); }
      assert i * rate == rate * i;
    }
    assert n * outputRate == outputRate * n;
    if start > n {
      MultipleGap(outputRate, start, n);
    }
  }

  lemma MulMono(d: nat, a: nat, b: nat)
    requires a <= b
    ensures d * a <= d * b
  {
    if a < b {
      MultipleGap(d, b, a);
    }
  }

  /** Samples of the windows before window k, put back together. */
  function Downsampled(samples: Samples, rate: nat, outputRate: nat, k: nat): Samples
    requires 0 < outputRate < rate && k <= OutputLen(|samples|, rate, outputRate)
  {
    if k == 0 then []
    else
      WindowsGrow(k - 1, rate, outputRate);
      WindowsFit(k, |samples|, rate, outputRate);
      Downsampled(samples, rate, outputRate, k - 1)
      + [Average(samples[WindowStart(k - 1, rate, outputRate)..WindowStart(k, rate, outputRate)])]
  }

  /** Weighted by window length, the averages add up to the prefix the windows tile: no sample is
      counted twice or left out. */
  function Weighted(averages: Samples, rate: nat, outputRate: nat): real
    requires 0 < outputRate
  {
    if averages == [] then 0.0
    else
      var k := |averages|;
      Weighted(averages[..k - 1], rate, outputRate)
      + averages[k - 1] * (WindowStart(k, rate, outputRate) - WindowStart(k - 1, rate, outputRate)) as real
  }

  lemma {:induction false} WindowsTile(samples: Samples, rate: nat, outputRate: nat, k: nat)
    requires 0 < outputRate < rate && k <= OutputLen(|samples|, rate, outputRate)
    ensures WindowStart(k, rate, outputRate) <= |samples|
    ensures |Downsampled(samples, rate, outputRate, k)| == k
    ensures Weighted(Downsampled(samples, rate, outputRate, k), rate, outputRate)
         == Sum(samples[..WindowStart(k, rate, outputRate)])
    decreases k
  {
    hide Sum, Weighted, Average, WindowStart, OutputLen;
    WindowsFit(k, |samples|, rate, outputRate);
    if k == 0 {
      TileNothing(samples, rate, outputRate);
    } else {
      WindowsTile(samples, rate, outputRate, k - 1);
      WindowsGrow(k - 1, rate, outputRate);
      var a, b := WindowStart(k - 1, rate, outputRate), WindowStart(k, rate, outputRate);
      WeightedStep(Downsampled(samples, rate, outputRate, k - 1), Average(samples[a..b]), rate, outputRate);
      TileStep(samples, a, b);
    }
  }

  lemma TileNothing(samples: Samples, rate: nat, outputRate: nat)
    requires outputRate > 0
    ensures WindowStart(0, rate, outputRate) == 0
    ensures Weighted([], rate, outputRate) == Sum(samples[..0])
  {
  }

  lemma WeightedStep(averages: Samples, average: real, rate: nat, outputRate: nat)
    requires 0 < outputRate
    ensures var k := |averages| + 1;
            Weighted(averages + [average], rate, outputRate) == Weighted(averages, rate, outputRate)
            + average * (WindowStart(k, rate, outputRate) - WindowStart(k - 1, rate, outputRate)) as real
  {
    hide WindowStart;
    assert (averages + [average])[..|averages|] == averages;
  }

  lemma TileStep(samples: Samples, a: nat, b: nat)
    requires a < b <= |samples|
    ensures Sum(samples[..b]) == Sum(samples[..a]) + Average(samples[a..b]) * (b - a) as real
  {
    hide Sum;
    assert samples[..b] == samples[..a] + samples[a..b];
    SumAppend(samples[..a], samples[a..b]);
    Restored(Sum(samples[a..b]), (b - a) as real);
  }

  lemma Restored(sum: real, n: real)
    requires n != 0.0
    ensures sum / n * n == sum
  {
  }

  /** The loop over windows, with its guards on both ends of each. */
  method DownsampleMono(samples: Samples, channels: nat, rate: nat, outputRate: nat) returns (r: Result<(Samples, nat)>)
    ensures channels != 1 || rate == 0 || outputRate == 0 ==> r == InvalidPcm
    ensures channels == 1 && 0 < rate <= outputRate ==> r == Ok((samples, rate))
    ensures channels == 1 && 0 < outputRate < rate ==>
              var len := OutputLen(|samples|, rate, outputRate);
              r == if len == 0 then EmptySelection else Ok((Downsampled(samples, rate, outputRate, len), outputRate))
  {
    if channels != 1 || rate == 0 || outputRate == 0 {
      return InvalidPcm;
    }
    if rate <= outputRate {
      return Ok((samples, rate));
    }
    var outputLen := OutputLen(|samples|, rate, outputRate);
    if outputLen == 0 {
      return EmptySelection;
    }
    var out: Samples := [];
    hide OutputLen, WindowStart, Average;
    for index := 0 to outputLen
      invariant out == Downsampled(samples, rate, outputRate, index)
    {
      WindowsGrow(index, rate, outputRate);
      WindowsFit(index + 1, |samples|, rate, outputRate);
      var start := WindowStart(index, rate, outputRate);
      var end := Min(Max(WindowStart(index + 1, rate, outputRate), start + 1), |samples|);
      out := out + [Average(samples[start..end])];
    }
    return Ok((out, outputRate));
  }

  // ---- The file ----

  function LE16(n: nat): (b: seq<Byte>)
    ensures |b| == 2
  {
    [n % 256, n / 256 % 256]
  }

  function LE32(n: nat): (b: seq<Byte>)
    ensures |b| == 4
  {
    [n % 256, n / 256 % 256, n / 0x1_0000 % 256, n / 0x100_0000 % 256]
  }

  function ReadLE32(b: seq<Byte>, i: nat): nat
    requires i + 4 <= |b|
  {
    b[i] as int + b[i + 1] as int * 256 + b[i + 2] as int * 0x1_0000 + b[i + 3] as int * 0x100_0000
  }

  lemma LE32RoundTrip(n: nat)
    requires n < U32_LIMIT
    ensures ReadLE32(LE32(n), 0) == n
  {
    var a := n / 256;
    var b := a / 256;
    assert n / 0x1_0000 == b && n / 0x100_0000 == b / 256;
  }

  /** ASCII of a four-character tag. */
  const RIFF: seq<Byte> := [0x52, 0x49, 0x46, 0x46]
  const WAVE: seq<Byte> := [0x57, 0x41, 0x56, 0x45]
  const FMT: seq<Byte> := [0x66, 0x6d, 0x74, 0x20]
  const DATA: seq<Byte> := [0x64, 0x61, 0x74, 0x61]

  /** A sample as a 16-bit integer: scaled, rounded half away from zero, and saturated. */
  function Quantize(sample: real): (q: int)
    ensures -0x8000 <= q < 0x8000
  {
    var x := sample * 32767.0;
    var rounded := if x >= 0.0 then (x + 0.5).Floor else -((0.5 - x).Floor);
    Max(Min(rounded, 0x7fff), -0x8000)
  }

  function SampleBytes(samples: Samples): (b: seq<Byte>)
    ensures |b| == 2 * |samples|
  {
    if samples == [] then []
    else SampleBytes(samples[..|samples| - 1]) + LE16(Quantize(samples[|samples| - 1]) % U16_LIMIT)
  }

  function Header(rate: nat, dataLen: nat): (b: seq<Byte>)
    ensures |b| == 44
  {
    RIFF + LE32(36 + dataLen) + WAVE + FMT + LE32(16) + LE16(1) + LE16(1)
    + LE32(rate) + LE32(rate * 2) + LE16(2) + LE16(16) + DATA + LE32(dataLen)
  }

  method EncodeMonoWav(samples: Samples, rate: nat) returns (r: Result<seq<Byte>>)
    ensures r == if 2 * |samples| >= U32_LIMIT then TooLarge
                 else Ok(Header(rate, 2 * |samples|) + SampleBytes(samples))
  {
    if 2 * |samples| >= U32_LIMIT {
      return TooLarge;
    }
    var dataLen := 2 * |samples|;
    var wav := RIFF + LE32(36 + dataLen) + WAVE + FMT + LE32(16) + LE16(1) + LE16(1);
    wav := wav + LE32(rate) + LE32(rate * 2) + LE16(2) + LE16(16) + DATA + LE32(dataLen);
    assert wav == Header(rate, dataLen);
    for i := 0 to |samples|
      invariant wav == Header(rate, dataLen) + SampleBytes(samples[..i])
    {
      hide Header, LE16, Quantize;
      assert samples[..i + 1][..i] == samples[..i];
      wav := wav + LE16(Quantize(samples[i]) % U16_LIMIT);
    }
    assert samples[..|samples|] == samples;
    return Ok(wav);
  }

  /** A duration as a fraction: bytes of sound over bytes per second. */
  datatype Duration = Duration(dataLen: nat, byteRate: nat)

  function Tag(b: seq<Byte>, i: nat): seq<Byte>
    requires i + 4 <= |b|
  {
    b[i..i + 4]
  }

  /** The chunk walk from index on; byteRate is what the last fmt chunk said. */
  function Walk(b: seq<Byte>, totalLen: nat, index: nat, byteRate: Option<nat>): (r: Option<Duration>)
    ensures r.Some? ==> r.value.dataLen > 0
    decreases |b| - index
  {
    if index + 8 > |b| then None
    else
      var size, body := ReadLE32(b, index + 4), index + 8;
      var next := body + size + size % 2;
      if Tag(b, index) == FMT && size >= 16 && body + 12 <= |b| then
        var rate := ReadLE32(b, body + 8);
        Walk(b, totalLen, next, if rate > 0 then Some(rate) else byteRate)
      else if Tag(b, index) == DATA then
        if byteRate.None? then None
        else
          var dataLen := if |b| == totalLen then Min(size, |b| - body) else size;
          if dataLen > 0 then Some(Duration(dataLen, byteRate.value)) else None
      else Walk(b, totalLen, next, byteRate)
  }

  function WavDuration(b: seq<Byte>, totalLen: nat): Option<Duration> {
    if |b| < 44 || Tag(b, 0) != RIFF || Tag(b, 8) != WAVE then None else Walk(b, totalLen, 12, None)
  }

  /** The loop: every byte string is walked in bounds and to an end. */
  method WavDurationLoop(b: seq<Byte>, totalLen: nat) returns (r: Option<Duration>)
    ensures r == WavDuration(b, totalLen)
  {
    hide ReadLE32;
    if |b| < 44 || b[0..4] != RIFF || b[8..12] != WAVE {
      return None;
    }
    var index := 12;
    var byteRate: Option<nat> := None;
    while index + 8 <= |b|
      invariant Walk(b, totalLen, 12, None) == Walk(b, totalLen, index, byteRate)
      invariant index >= 0
      decreases |b| - index
    {
      var id := b[index..index + 4];
      var size := ReadLE32(b, index + 4);
      var body := index + 8;
      if id == FMT && size >= 16 && body + 12 <= |b| {
        var rate := ReadLE32(b, body + 8);
        if rate > 0 {
          byteRate := Some(rate);
        }
      } else if id == DATA {
        if byteRate.None? {
          return None;
        }
        var dataLen := size;
        if |b| == totalLen {
          dataLen := Min(size, |b| - body);
        }
        return if dataLen > 0 then Some(Duration(dataLen, byteRate.value)) else None;
      }
      var padded := size + size % 2;
      index := body + padded;
    }
    return None;
  }

  lemma FieldAt(b: seq<Byte>, i: nat, n: nat)
    requires i + 4 <= |b| && n < U32_LIMIT && b[i..i + 4] == LE32(n)
    ensures ReadLE32(b, i) == n
  {
    LE32RoundTrip(n);
    var field := b[i..i + 4];
    assert b[i] == field[0] && b[i + 1] == field[1] && b[i + 2] == field[2] && b[i + 3] == field[3];
  }

  lemma HeaderFields(rate: nat, dataLen: nat, data: seq<Byte>)
    ensures var b := Header(rate, dataLen) + data;
            && b[0..4] == RIFF && b[8..12] == WAVE && b[12..16] == FMT && b[16..20] == LE32(16)
            && b[28..32] == LE32(rate * 2) && b[36..40] == DATA && b[40..44] == LE32(dataLen)
  {
    hide LE32;
  }

  function ReadLE16(b: seq<Byte>, i: nat): nat
    requires i + 2 <= |b|
  {
    b[i] as int + b[i + 1] as int * 256
  }

  /** A sample of a file, as the signed 16-bit number that it is. */
  function SampleOf(b: seq<Byte>, i: nat): int
    requires 44 + 2 * i + 2 <= |b|
  {
    var n := ReadLE16(b, 44 + 2 * i);
    if n < 0x8000 then n else n - 0x1_0000
  }

  lemma {:induction false} SampleBytesAt(samples: Samples, i: nat)
    requires i < |samples|
    ensures SampleBytes(samples)[2 * i..2 * i + 2] == LE16(Quantize(samples[i]) % 0x1_0000)
    decreases |samples|
  {
    hide LE16, Quantize;
    var n := |samples| - 1;
    if i < n {
      SampleBytesAt(samples[..n], i);
      assert SampleBytes(samples)[2 * i..2 * i + 2] == SampleBytes(samples[..n])[2 * i..2 * i + 2];
    }
  }

  lemma LE16RoundTrip(b: seq<Byte>, i: nat, n: nat)
    requires n < 0x1_0000 && i + 2 <= |b| && b[i..i + 2] == LE16(n)
    ensures ReadLE16(b, i) == n
  {
    assert b[i] == b[i..i + 2][0] && b[i + 1] == b[i..i + 2][1];
  }

  /** Every sample of a written file is the quantised one, sign and byte order included. */
  lemma SamplesAreWritten(samples: Samples, rate: nat, i: nat)
    requires i < |samples|
    ensures SampleOf(Header(rate, 2 * |samples|) + SampleBytes(samples), i) == Quantize(samples[i])
  {
    hide Header, Quantize, LE16, SampleBytes;
    var file := Header(rate, 2 * |samples|) + SampleBytes(samples);
    SampleBytesAt(samples, i);
    assert file[44 + 2 * i..44 + 2 * i + 2] == SampleBytes(samples)[2 * i..2 * i + 2];
    LE16RoundTrip(file, 44 + 2 * i, Quantize(samples[i]) % 0x1_0000);
  }

  /** Samples in range become the nearest step of 1/32767, halves away from zero; louder ones are cut. */
  lemma QuantizeIsNearest(x: real)
    ensures -1.0 <= x <= 1.0 ==> -1.0 <= 2.0 * (Quantize(x) as real - x * 32767.0) <= 1.0
    ensures 0.0 <= x <= 1.0 ==> 2.0 * (Quantize(x) as real - x * 32767.0) > -1.0 && Quantize(-x) == -Quantize(x)
    ensures x > 1.0 ==> Quantize(x) == 32767
    ensures x < -2.0 ==> Quantize(x) == -32768
  {
  }

  lemma MoreFields(rate: nat, dataLen: nat, data: seq<Byte>)
    ensures var b := Header(rate, dataLen) + data;
            && b[4..8] == LE32(36 + dataLen) && b[24..28] == LE32(rate)
            && b[20..22] == LE16(1) && b[22..24] == LE16(1) && b[32..34] == LE16(2) && b[34..36] == LE16(16)
  {
    hide LE32, LE16;
  }

  /** The header, field by field: the length of the rest, one channel of 16-bit samples at the rate, and
      the length of the data. */
  lemma HeaderIsStandard(rate: nat, dataLen: nat, data: seq<Byte>)
    requires 2 * rate < 0x1_0000_0000 && 36 + dataLen < 0x1_0000_0000
    ensures var b := Header(rate, dataLen) + data;
            && b[0..4] == [0x52, 0x49, 0x46, 0x46] && ReadLE32(b, 4) == 36 + dataLen
            && b[8..16] == [0x57, 0x41, 0x56, 0x45, 0x66, 0x6d, 0x74, 0x20] && ReadLE32(b, 16) == 16
            && ReadLE16(b, 20) == 1 && ReadLE16(b, 22) == 1 && ReadLE32(b, 24) == rate && ReadLE32(b, 28) == 2 * rate
            && ReadLE16(b, 32) == 2 && ReadLE16(b, 34) == 16
            && b[36..40] == [0x64, 0x61, 0x74, 0x61] && ReadLE32(b, 40) == dataLen
  {
    hide LE32, ReadLE32, LE16, ReadLE16, Header;
    var b := Header(rate, dataLen) + data;
    HeaderFields(rate, dataLen, data);
    MoreFields(rate, dataLen, data);
    assert b[8..16] == b[8..12] + b[12..16];
    FieldAt(b, 4, 36 + dataLen);
    FieldAt(b, 16, 16);
    FieldAt(b, 24, rate);
    FieldAt(b, 28, rate * 2);
    FieldAt(b, 40, dataLen);
    LE16RoundTrip(b, 20, 1);
    LE16RoundTrip(b, 22, 1);
    LE16RoundTrip(b, 32, 2);
    LE16RoundTrip(b, 34, 16);
  }

  /** What was written is read back: the duration of the file is the sample count over the rate. */
  lemma DurationRoundTrip(samples: Samples, rate: nat)
    requires samples != [] && 0 < rate && 2 * rate < U32_LIMIT && 36 + 2 * |samples| < U32_LIMIT
    ensures var file := Header(rate, 2 * |samples|) + SampleBytes(samples);
            var d := WavDuration(file, |file|);
            && d == Some(Duration(2 * |samples|, 2 * rate))
            && d.value.dataLen as real / d.value.byteRate as real == |samples| as real / rate as real
  {
    hide ReadLE32, Header, SampleBytes, LE32, Walk;
    var dataLen := 2 * |samples|;
    var data := SampleBytes(samples);
    var file := Header(rate, dataLen) + data;
    HeaderFields(rate, dataLen, data);
    FieldAt(file, 16, 16);
    FieldAt(file, 28, rate * 2);
    FieldAt(file, 40, dataLen);
    FormatStep(file, rate * 2);
    DataStep(file, rate * 2, dataLen);
    Halve(|samples| as real, rate as real);
  }

  lemma FormatStep(file: seq<Byte>, byteRate: nat)
    requires |file| >= 44 && Tag(file, 12) == FMT && ReadLE32(file, 16) == 16 && ReadLE32(file, 28) == byteRate > 0
    ensures Walk(file, |file|, 12, None) == Walk(file, |file|, 36, Some(byteRate))
  {
    hide ReadLE32;
  }

  lemma DataStep(file: seq<Byte>, byteRate: nat, dataLen: nat)
    requires |file| == 44 + dataLen && dataLen > 0 && Tag(file, 36) == DATA && ReadLE32(file, 40) == dataLen
    ensures Walk(file, |file|, 36, Some(byteRate)) == Some(Duration(dataLen, byteRate))
  {
    hide ReadLE32;
    assert DATA[0] != FMT[0];
  }

  lemma Halve(a: real, b: real)
    requires b != 0.0
    ensures (2.0 * a) / (2.0 * b) == a / b
  {
  }
}
