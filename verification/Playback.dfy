/** The player of a stream: a class that reads chunk by chunk and refines the function in Player. */
module Playback {
  import opened Basics
  import opened PcmStream
  import opened Player
  import Seeking = Seek

  /** The player stands between two samples: offset into chunk next - 1, or before everything. Past the
      end of a complete stream at may be any number a seek left there. */
  ghost predicate Standing(chunks: seq<Samples>, complete: bool, chunk: Option<Samples>, next: nat, offset: nat, at: nat) {
    && next <= |chunks|
    && match chunk
       case None => next == 0 && offset == 0 && at == 0
       case Some(c) =>
         && next > 0 && c == chunks[next - 1] && offset <= |c|
         && (at == |Prefix(chunks, next - 1)| + offset
             || (complete && next == |chunks| && offset == |c| && at >= |Concat(chunks)|))
  }

  class Source {
    const stream: Stream
    const looping: bool
    var cursor: nat
    var chunk: Option<Samples>
    var nextChunk: nat
    var offset: nat
    var at: nat
    var silenceDebt: nat
    var exhausted: bool

    ghost predicate Valid()
      reads this, stream
    {
      && stream.channels in {1, 2} && WellChunked(stream.chunks, stream.channels)
      && Standing(stream.chunks, stream.complete, chunk, nextChunk, offset, at)
      && (silenceDebt > 0 ==> NoneLeft())
    }

    /** The current chunk is used up. */
    predicate NoneLeft()
      reads this
    {
      chunk.None? || offset >= |chunk.value|
    }

    /** What the function sees: chunks do not matter, only the samples in them. */
    ghost function View(): Player
      reads this, stream
    {
      Player(Concat(stream.chunks), stream.complete, at, silenceDebt, cursor)
    }

    constructor (stream: Stream, looping: bool)
      requires stream.channels in {1, 2} && WellChunked(stream.chunks, stream.channels)
      ensures Valid() && View() == Player(Concat(stream.chunks), stream.complete, 0, 0, 0) && !exhausted
      ensures this.stream == stream && this.looping == looping
    {
      this.stream := stream;
      this.looping := looping;
      cursor, chunk, nextChunk, offset, at, silenceDebt, exhausted := 0, None, 0, 0, 0, 0, false;
    }

    /** Move to a buffered sample, or to the end of a complete stream. */
    method JumpTo(target: nat) returns (ok: bool)
      requires Valid()
      modifies this`chunk, this`nextChunk, this`offset, this`silenceDebt, this`exhausted
      ensures ok <==> stream.chunks != [] && (target < |Concat(stream.chunks)| || stream.complete)
      ensures ok ==> Standing(stream.chunks, stream.complete, chunk, nextChunk, offset, target)
      ensures ok ==> silenceDebt == 0 && !exhausted
      ensures !ok ==> unchanged(this)
    {
      hide Concat, LocateFrom, Locate, WellChunked;
      if stream.chunks != [] {
        LocateMeaning(stream.chunks, stream.complete, target);
        LocateEndIsLast(stream.chunks, stream.complete, target);
      }
      NoChunks(stream.chunks, stream.complete, target);
      var found := stream.LocateChunk(target);
      if found.None? {
        return false;
      }
      var (index, off) := found.value;
      chunk := Some(stream.chunks[index]);
      offset := off;
      nextChunk := index + 1;
      silenceDebt := 0;
      exhausted := false;
      return true;
    }

    /** Take up a seek that another thread left in the cursor. */
    method FollowCursor() returns (jumped: bool)
      requires Valid()
      modifies this`chunk, this`nextChunk, this`offset, this`silenceDebt, this`exhausted, this`at
      ensures Valid() && View() == Followed(old(View())) && (jumped <==> Jumps(old(View())))
      ensures exhausted <==> old(exhausted) && !jumped
    {
      hide Concat, WellChunked;
      SomethingThere(stream.chunks, stream.channels);
      NothingThere(stream.chunks);
      jumped := false;
      if cursor != at {
        jumped := JumpTo(cursor);
        if jumped {
          at := cursor;
        }
      }
    }

    /** What another thread may do between two steps of a call. */
    method Interfere(store: Option<nat>)
      modifies this`cursor
      ensures cursor == store.GetOr(old(cursor))
    {
      if store.Some? {
        cursor := store.value;
      }
    }

    /** One sample from where playback stands. Other threads' stores to the cursor land early, before a
        return to the first sample, or late, after it. Looping returns at most once. */
    method Fetch(early: Option<nat>, late: Option<nat>) returns (out: Out)
      requires Valid()
      modifies this
      ensures Valid() && (View(), out) == Fetched(old(View()), looping, stream.channels, early, late)
      ensures exhausted <==> old(exhausted) || out.End?
    {
      hide Concat, Fetched, Taken, Whole, WellChunked, Standing;
      ghost var start, ch := View(), stream.channels;
      WholeFacts(silenceDebt, ch);
      SomethingThere(stream.chunks, ch);
      NothingThere(stream.chunks);
      StoreComesFirst(start, looping, ch, early, late);
      Interfere(early);
      ghost var returned := false;
      while true
        invariant Valid() && exhausted == old(exhausted)
        invariant Fetched(start, looping, ch, early, late) == Fetched(View(), looping, ch, None, late)
        invariant returned ==> stream.chunks != [] && (nextChunk == 0 || !NoneLeft())
        decreases !returned, |stream.chunks| - nextChunk
      {
        FetchSteps(View(), looping, ch, late);
        if chunk.Some? && offset < |chunk.value| {
          out := TakeSample(late);
          return;
        }
        if !Whole(silenceDebt, stream.channels) {
          Interfere(late);
          out := Silence();
          return;
        }
        AtChunkEnd(stream.chunks, stream.complete, chunk, nextChunk, offset, at);
        var state := stream.ChunkAt(nextChunk);
        match state
        case Ready(c) =>
          SomethingHere(stream.chunks, nextChunk, ch);
          LoadChunk(c);
        case Pending =>
          Interfere(late);
          out := Silence();
          return;
        case Complete =>
          if looping && nextChunk > 0 {
            nextChunk := 0;
            offset := 0;
            chunk := None;
            at := 0;
            cursor := 0;
            silenceDebt := 0;
            StandingNowhere(stream.chunks, stream.complete);
            returned := true;
          } else {
            Interfere(late);
            exhausted := true;
            return End;
          }
      }
    }

    /** The iterator: follow the cursor, then one sample. */
    method Next(early: Option<nat>, late: Option<nat>) returns (out: Out)
      requires Valid()
      modifies this
      ensures Valid() && (View(), out) == Nexted(old(View()), looping, stream.channels, early, late)
      ensures exhausted <==> out.End? || (old(exhausted) && !Jumps(old(View())))
    {
      hide Concat, Fetched, Followed, Jumps;
      var jumped := FollowCursor();
      out := Fetch(early, late);
    }

    method TakeSample(late: Option<nat>) returns (out: Out)
      requires Valid() && !NoneLeft()
      modifies this`offset, this`at, this`cursor
      ensures Valid() && old(at) < |Concat(stream.chunks)| && out.Sample?
      ensures (View(), out) == Taken(old(View()), late)
    {
      hide Concat, WellChunked;
      SampleThere(stream.chunks, stream.complete, chunk.value, nextChunk, offset, at);
      out := Sample(chunk.value[offset]);
      offset := offset + 1;
      var played := at;
      at := at + 1;
      Interfere(late);
      if cursor == played {
        cursor := at;
      }
    }

    method LoadChunk(c: Samples)
      requires Valid() && NoneLeft() && nextChunk < |stream.chunks| && c == stream.chunks[nextChunk]
      modifies this`chunk, this`nextChunk, this`offset, this`silenceDebt
      ensures Valid() && !NoneLeft() && silenceDebt == 0 && nextChunk == old(nextChunk) + 1
    {
      hide Concat;
      AtChunkEnd(stream.chunks, stream.complete, chunk, nextChunk, offset, at);
      assert c in stream.chunks;
      chunk := Some(c);
      nextChunk := nextChunk + 1;
      offset := 0;
      silenceDebt := 0;
    }

    method Silence() returns (out: Out)
      modifies this`silenceDebt
      ensures out == Padding && silenceDebt == old(silenceDebt) + 1
    {
      silenceDebt := silenceDebt + 1;
      out := Padding;
    }

    /** A seek from the user interface: checked against the samples counted, located, and stored. */
    method Retarget(index: nat) returns (ok: bool)
      requires Valid() && stream.readySamples == |Concat(stream.chunks)|
      modifies this`cursor
      ensures Valid() && View() == Sought(old(View()), index, stream.channels)
      ensures ok <==> Accepts(old(View()), index)
      ensures !ok ==> cursor == old(cursor)
      ensures ok ==> cursor <= |Concat(stream.chunks)|
    {
      hide Concat, LocateFrom, Locate, WellChunked, Standing, Seeking.AlignPhase;
      SomethingThere(stream.chunks, stream.channels);
      NothingThere(stream.chunks);
      var len := stream.readySamples;
      if !stream.complete && index >= len {
        return false;
      }
      var limit := Seeking.RetargetLimit(len, stream.complete);
      var aligned := Seeking.AlignPhase(cursor, index, stream.channels, limit);
      NoChunks(stream.chunks, stream.complete, aligned);
      if stream.chunks != [] {
        LocateMeaning(stream.chunks, stream.complete, aligned);
      }
      var found := stream.LocateChunk(aligned);
      if found.None? {
        return false;
      }
      cursor := Seeking.AlignPhase(cursor, aligned, stream.channels, limit);
      return true;
    }
  }

  lemma StoreComesFirst(p: Player, looping: bool, channels: nat, early: Option<nat>, late: Option<nat>)
    requires channels in {1, 2}
    ensures Fetched(p, looping, channels, early, late)
         == Fetched(p.(cursor := early.GetOr(p.cursor)), looping, channels, None, late)
  {
  }

  /** What each branch of the loop leaves to do. */
  lemma FetchSteps(p: Player, looping: bool, channels: nat, late: Option<nat>)
    requires channels in {1, 2}
    ensures var rest := Fetched(p, looping, channels, None, late);
            var stored := p.(cursor := late.GetOr(p.cursor));
            && Whole(0, channels)
            && (!Whole(p.debt, channels) ==> rest == (stored.(debt := p.debt + 1), Padding))
            && (Whole(p.debt, channels) && p.at < |p.all| ==>
                  rest == Taken(p, late) == Fetched(p.(debt := 0), looping, channels, None, late))
            && (Whole(p.debt, channels) && p.at >= |p.all| ==>
                  if !p.complete then rest == (stored.(debt := p.debt + 1), Padding)
                  else if looping && p.all != []
                  then rest == Fetched(p.(at := 0, debt := 0, cursor := 0), looping, channels, None, late)
                  else rest == (stored, End))
  {
  }

  lemma StandingNowhere(chunks: seq<Samples>, complete: bool)
    ensures Standing(chunks, complete, None, 0, 0, 0)
  {
  }

  lemma SomethingHere(chunks: seq<Samples>, i: nat, channels: nat)
    requires channels > 0 && WellChunked(chunks, channels) && i < |chunks|
    ensures chunks[i] != []
  {
  }

  lemma WholeFacts(n: nat, channels: nat)
    requires channels in {1, 2}
    ensures Whole(0, channels) && (Whole(n, channels) <==> n % channels == 0)
  {
  }

  lemma NoChunks(chunks: seq<Samples>, complete: bool, target: nat)
    ensures chunks == [] ==> Locate(chunks, complete, target) == None && Concat(chunks) == []
  {
  }

  /** Standing after a used-up chunk, or before everything, is standing before chunk next. */
  lemma AtChunkEnd(chunks: seq<Samples>, complete: bool, chunk: Option<Samples>, next: nat, offset: nat, at: nat)
    requires Standing(chunks, complete, chunk, next, offset, at) && (chunk.None? || offset >= |chunk.value|)
    ensures next <= |chunks| && (next < |chunks| ==> at == |Prefix(chunks, next)| && at + |chunks[next]| <= |Concat(chunks)|)
    ensures next == |chunks| ==> at == |Concat(chunks)| || (complete && at > |Concat(chunks)|)
  {
    PrefixOfAll(chunks, next);
    if next > 0 {
      PrefixStep(chunks, next - 1);
    } else {
      assert chunks[..0] == [];
    }
    if next < |chunks| {
      PrefixStep(chunks, next);
      PrefixOfAll(chunks, next + 1);
    }
  }

  lemma SampleThere(chunks: seq<Samples>, complete: bool, c: Samples, next: nat, offset: nat, at: nat)
    requires Standing(chunks, complete, Some(c), next, offset, at) && offset < |c|
    ensures at < |Concat(chunks)| && Concat(chunks)[at] == c[offset]
    ensures Standing(chunks, complete, Some(c), next, offset + 1, at + 1)
  {
    PrefixStep(chunks, next - 1);
    PrefixOfAll(chunks, next);
  }

  lemma SomethingThere(chunks: seq<Samples>, channels: nat)
    requires channels > 0 && WellChunked(chunks, channels)
    ensures chunks != [] ==> Concat(chunks) != []
  {
  }

  lemma NothingThere(chunks: seq<Samples>)
    ensures chunks == [] ==> Concat(chunks) == []
  {
  }

  // ---- Every interleaving ----

  /** Any interleaving of pushes, the end of the stream, seeks and reads puts out exactly what the
      function says. */
  method Play(channels: nat, looping: bool, events: seq<Event>) returns (outs: seq<Out>)
    requires channels in {1, 2} && WellPushed(events, channels)
    ensures outs == Played(events, looping, channels).outs
  {
    hide Concat, Nexted, Sought, Played, WellPushed, Standing, WellChunked;
    var stream, source := Open(channels, looping);
    outs := [];
    assert events[..0] == [] && Played([], looping, channels) == Run(START, []) by { PlayedNothing(looping, channels); }
    for i := 0 to |events|
      invariant fresh(stream) && fresh(source) && source.stream == stream && stream.channels == channels
      invariant source.Valid() && source.looping == looping && stream.readySamples == |Concat(stream.chunks)|
      invariant Played(events[..i], looping, channels) == Run(source.View(), outs)
    {
      PlayedSnoc(events, i, looping, channels);
      match events[i]
      case Push(samples) =>
        StillOpen(events, i, looping, channels);
        Feed(stream, source, samples);
      case Finish =>
        stream.Finish();
        StandingCloses(stream.chunks, source.chunk, source.nextChunk, source.offset, source.at);
      case SeekTo(index) =>
        var _ := source.Retarget(index);
      case Next(early, late) =>
        var out := source.Next(early, late);
        outs := outs + [out];
    }
    assert events[..|events|] == events;
  }

  method Open(channels: nat, looping: bool) returns (stream: Stream, source: Source)
    requires channels in {1, 2}
    ensures fresh(stream) && fresh(source) && source.stream == stream && stream.channels == channels
    ensures source.Valid() && source.looping == looping && source.View() == START
    ensures !stream.complete && stream.readySamples == |Concat(stream.chunks)|
  {
    stream := new Stream(channels);
    source := new Source(stream, looping);
  }

  lemma PlayedNothing(looping: bool, channels: nat)
    requires channels in {1, 2}
    ensures Played([], looping, channels) == Run(START, [])
  {
  }

  /** A chunk that is pushed is a whole number of frames, and the stream is not finished yet. */
  lemma StillOpen(events: seq<Event>, i: nat, looping: bool, channels: nat)
    requires channels in {1, 2} && WellPushed(events, channels) && i < |events| && events[i].Push?
    ensures events[i].samples != [] && |events[i].samples| % channels == 0
    ensures !Played(events[..i], looping, channels).player.complete
  {
    hide Played;
    assert events[i] in events;
    StreamIsPushed(events[..i], looping, channels);
  }

  method Feed(stream: Stream, source: Source, samples: Samples)
    requires source.stream == stream && source.Valid() && !stream.complete
    requires stream.readySamples == |Concat(stream.chunks)|
    requires samples != [] && |samples| % stream.channels == 0
    modifies stream`chunks, stream`readySamples
    ensures source.Valid() && stream.readySamples == |Concat(stream.chunks)|
    ensures source.View() == old(source.View()).(all := old(source.View()).all + samples)
  {
    hide Concat, Standing;
    ConcatSnoc(stream.chunks, samples);
    StandingGrows(stream.chunks, samples, source.chunk, source.nextChunk, source.offset, source.at);
    stream.Push(samples);
  }

  lemma StandingCloses(chunks: seq<Samples>, chunk: Option<Samples>, next: nat, offset: nat, at: nat)
    ensures Standing(chunks, false, chunk, next, offset, at) ==> Standing(chunks, true, chunk, next, offset, at)
  {
  }

  lemma StandingGrows(chunks: seq<Samples>, more: Samples, chunk: Option<Samples>, next: nat, offset: nat, at: nat)
    requires Standing(chunks, false, chunk, next, offset, at)
    ensures Standing(chunks + [more], false, chunk, next, offset, at)
  {
    if next > 0 {
      assert (chunks + [more])[..next - 1] == chunks[..next - 1];
    }
  }
}
