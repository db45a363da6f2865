/** The duration of any WAV file: whatever other chunks it holds, of whatever length, the walk finds the
    format and the data. */
module WavChunks {
  import opened Basics
  import opened Wav

  /** A chunk that says nothing about the sound. */
  datatype Chunk = Chunk(id: seq<Byte>, body: seq<Byte>)

  predicate Foreign(c: Chunk) {
    |c.id| == 4 && c.id != [0x66, 0x6d, 0x74, 0x20] && c.id != [0x64, 0x61, 0x74, 0x61] && |c.body| < 0x1_0000_0000
  }

  /** Id, length, body, and a byte more when the length is odd. */
  function ChunkBytes(c: Chunk): seq<Byte> {
    c.id + LE32(|c.body|) + c.body + Zeros(|c.body| % 2)
  }

  function AllChunks(cs: seq<Chunk>): seq<Byte> {
    if cs == [] then [] else ChunkBytes(cs[0]) + AllChunks(cs[1..])
  }

  lemma ChunkAt(pre: seq<Byte>, c: Chunk, post: seq<Byte>)
    requires |c.id| == 4 && |c.body| < 0x1_0000_0000
    ensures var b, i := pre + (ChunkBytes(c) + post), |pre|;
            && |ChunkBytes(c)| == 8 + |c.body| + |c.body| % 2 && i + |ChunkBytes(c)| <= |b|
            && b[i..i + 4] == c.id && ReadLE32(b, i + 4) == |c.body|
            && b[i + 8..i + 8 + |c.body|] == c.body
  {
    hide LE32, ReadLE32;
    var b, i := pre + (ChunkBytes(c) + post), |pre|;
    assert b[i + 4..i + 8] == LE32(|c.body|);
    FieldAt(b, i + 4, |c.body|);
  }

  lemma ForeignIsPassed(pre: seq<Byte>, c: Chunk, post: seq<Byte>, totalLen: nat, byteRate: Option<nat>)
    requires Foreign(c)
    ensures var b := pre + (ChunkBytes(c) + post);
            Walk(b, totalLen, |pre|, byteRate) == Walk(b, totalLen, |pre| + |ChunkBytes(c)|, byteRate)
  {
    hide LE32, ReadLE32, ChunkBytes;
    ChunkAt(pre, c, post);
  }

  lemma {:induction false} ForeignArePassed(pre: seq<Byte>, cs: seq<Chunk>, post: seq<Byte>, totalLen: nat, byteRate: Option<nat>)
    requires forall c :: c in cs ==> Foreign(c)
    ensures var b := pre + (AllChunks(cs) + post);
            Walk(b, totalLen, |pre|, byteRate) == Walk(b, totalLen, |pre| + |AllChunks(cs)|, byteRate)
    decreases |cs|
  {
    hide Walk, ChunkBytes, Foreign;
    if cs != [] {
      var first, later := ChunkBytes(cs[0]), AllChunks(cs[1..]);
      assert cs[0] in cs;
      Associative(first, later, post);
      ForeignIsPassed(pre, cs[0], later + post, totalLen, byteRate);
      Associative(pre, first, later + post);
      ForeignArePassed(pre + first, cs[1..], post, totalLen, byteRate);
    }
  }

  /** A format chunk that gives the bytes per second. */
  predicate Format(c: Chunk, rate: nat) {
    c.id == [0x66, 0x6d, 0x74, 0x20] && 16 <= |c.body| < 0x1_0000_0000 && 0 < rate < 0x1_0000_0000
    && c.body[8..12] == LE32(rate)
  }

  lemma SliceOfSlice(b: seq<Byte>, x: nat, y: nat, i: nat, j: nat)
    requires i <= j && x + j <= y <= |b|
    ensures b[x..y][i..j] == b[x + i..x + j]
  {
    var part := b[x..y];
    assert forall k :: i <= k < j ==> part[k] == b[x + k];
    assert |part[i..j]| == |b[x + i..x + j]|;
    assert forall k :: 0 <= k < j - i ==> part[i..j][k] == part[i + k] == b[x + i + k] == b[x + i..x + j][k];
  }

  lemma FormatIsRead(pre: seq<Byte>, c: Chunk, rate: nat, post: seq<Byte>, totalLen: nat, byteRate: Option<nat>)
    requires Format(c, rate)
    ensures var b := pre + (ChunkBytes(c) + post);
            Walk(b, totalLen, |pre|, byteRate) == Walk(b, totalLen, |pre| + |ChunkBytes(c)|, Some(rate))
  {
    hide LE32, ReadLE32, ChunkBytes;
    ChunkAt(pre, c, post);
    var b, i := pre + (ChunkBytes(c) + post), |pre|;
    SliceOfSlice(b, i + 8, i + 8 + |c.body|, 8, 12);
    FieldAt(b, i + 16, rate);
  }

  /** What the data chunk gives: its length, or what is there of it when the whole file is. */
  lemma DataIsRead(pre: seq<Byte>, size: nat, data: seq<Byte>, totalLen: nat, byteRate: Option<nat>)
    requires size < 0x1_0000_0000
    ensures var b := pre + ([0x64, 0x61, 0x74, 0x61] + LE32(size) + data);
            var len := if |b| == totalLen && |data| < size then |data| else size;
            Walk(b, totalLen, |pre|, byteRate) ==
            if byteRate.Some? && len > 0 then Some(Duration(len, byteRate.value)) else None
  {
    hide LE32, ReadLE32;
    var b, i := pre + ([0x64, 0x61, 0x74, 0x61] + LE32(size) + data), |pre|;
    assert b[i..i + 4] == DATA && b[i + 4..i + 8] == LE32(size);
    FieldAt(b, i + 4, size);
    assert DATA[0] != FMT[0];
  }

  /** A file: the outer header with any length, other chunks, the format, other chunks, and the data. */
  function File(outer: seq<Byte>, a: seq<Chunk>, format: Chunk, b: seq<Chunk>, size: nat, data: seq<Byte>): seq<Byte> {
    [0x52, 0x49, 0x46, 0x46] + outer + [0x57, 0x41, 0x56, 0x45]
    + (AllChunks(a) + (ChunkBytes(format) + (AllChunks(b) + ([0x64, 0x61, 0x74, 0x61] + LE32(size) + data))))
  }

  lemma DurationOfAnyFile(outer: seq<Byte>, a: seq<Chunk>, format: Chunk, rate: nat, b: seq<Chunk>, size: nat,
                          data: seq<Byte>, totalLen: nat)
    requires |outer| == 4 && (forall c :: c in a || c in b ==> Foreign(c)) && Format(format, rate) && size < 0x1_0000_0000
    ensures var file := File(outer, a, format, b, size, data);
            var len := if |file| == totalLen && |data| < size then |data| else size;
            WavDuration(file, totalLen) == if len > 0 then Some(Duration(len, rate)) else None
  {
    hide Walk, AllChunks, ChunkBytes, Format, Foreign, LE32;
    var head := [0x52, 0x49, 0x46, 0x46] + outer + [0x57, 0x41, 0x56, 0x45];
    var last := [0x64, 0x61, 0x74, 0x61] + LE32(size) + data;
    var third := AllChunks(b) + last;
    var second := ChunkBytes(format) + third;
    var file := head + (AllChunks(a) + second);
    assert file[0..4] == RIFF && file[8..12] == WAVE;
    FormatLength(format, rate);
    ForeignArePassed(head, a, second, totalLen, None);
    var p := head + AllChunks(a);
    Associative(head, AllChunks(a), second);
    FormatIsRead(p, format, rate, third, totalLen, None);
    var q := p + ChunkBytes(format);
    Associative(p, ChunkBytes(format), third);
    ForeignArePassed(q, b, last, totalLen, Some(rate));
    var r := q + AllChunks(b);
    Associative(q, AllChunks(b), last);
    DataIsRead(r, size, data, totalLen, Some(rate));
  }

  lemma FormatLength(c: Chunk, rate: nat)
    requires Format(c, rate)
    ensures |ChunkBytes(c)| >= 24
  {
    hide LE32;
  }

  /** Data ahead of any format, and a file without data, have no duration. */
  lemma NoFormatNoDuration(outer: seq<Byte>, a: seq<Chunk>, size: nat, data: seq<Byte>, totalLen: nat)
    requires |outer| == 4 && (forall c :: c in a ==> Foreign(c)) && size < 0x1_0000_0000
    ensures var head := [0x52, 0x49, 0x46, 0x46] + outer + [0x57, 0x41, 0x56, 0x45];
            && WavDuration(head + (AllChunks(a) + ([0x64, 0x61, 0x74, 0x61] + LE32(size) + data)), totalLen) == None
            && WavDuration(head + (AllChunks(a) + []), totalLen) == None
  {
    hide AllChunks, Foreign, LE32;
    var head := [0x52, 0x49, 0x46, 0x46] + outer + [0x57, 0x41, 0x56, 0x45];
    var last := [0x64, 0x61, 0x74, 0x61] + LE32(size) + data;
    ForeignArePassed(head, a, last, totalLen, None);
    ForeignArePassed(head, a, [], totalLen, None);
    Associative(head, AllChunks(a), last);
    DataIsRead(head + AllChunks(a), size, data, totalLen, None);
  }
}
