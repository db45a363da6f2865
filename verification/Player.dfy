/** What the player of a stream puts out, as a function: samples in order, silence in whole frames
    while the decoder is behind, and seeks through a cursor that other threads store to. */
module Player {
  import opened Basics
  import Seeking = Seek

  /** One call of `next`: a sample, a padding zero, or the end. */
  datatype Out = Sample(x: real) | Padding | End

  /** The stream so far, the playhead, the padding since the last sample, and the shared cursor. */
  datatype Player = Player(all: Samples, complete: bool, at: nat, debt: nat, cursor: nat)

  const START := Player([], false, 0, 0, 0)

  /** n samples are a whole number of frames. */
  predicate Whole(n: int, channels: nat)
    requires channels in {1, 2}
  {
    n % channels == 0
  }

  // ---- One call ----

  /** The stored cursor can be jumped to: it is elsewhere, and buffered or past the end of a complete stream. */
  predicate Jumps(p: Player) {
    p.cursor != p.at && p.all != [] && (p.cursor < |p.all| || p.complete)
  }

  function Followed(p: Player): Player {
    if Jumps(p) then p.(at := p.cursor, debt := 0) else p
  }

  /** Fetching from here starts over at the first sample. */
  predicate Wraps(p: Player, looping: bool, channels: nat)
    requires channels in {1, 2}
  {
    looping && p.complete && p.all != [] && p.at >= |p.all| && Whole(p.debt, channels)
  }

  /** The sample under the playhead; the cursor moves along unless a store has moved it elsewhere. */
  function Taken(p: Player, late: Option<nat>): (Player, Out)
    requires p.at < |p.all|
  {
    var seen := late.GetOr(p.cursor);
    (p.(at := p.at + 1, debt := 0, cursor := if seen == p.at then p.at + 1 else seen), Sample(p.all[p.at]))
  }

  /** The rest of a call. Other threads may store to the cursor at any moment: early lands before a
      return to the first sample, late after it and before the cursor moves along. */
  function Fetched(p: Player, looping: bool, channels: nat, early: Option<nat>, late: Option<nat>): (Player, Out)
    requires channels in {1, 2}
  {
    var q := p.(cursor := early.GetOr(p.cursor));
    if Wraps(p, looping, channels) then Taken(q.(at := 0, debt := 0, cursor := 0), late)
    else if Whole(p.debt, channels) && p.at < |p.all| then Taken(q, late)
    else
      var r := q.(cursor := late.GetOr(q.cursor));
      if Whole(p.debt, channels) && p.complete then (r, End) else (r.(debt := p.debt + 1), Padding)
  }

  function Nexted(p: Player, looping: bool, channels: nat, early: Option<nat>, late: Option<nat>): (Player, Out)
    requires channels in {1, 2}
  {
    Fetched(Followed(p), looping, channels, early, late)
  }

  /** Silence is put out exactly to complete a frame of silence, or when nothing is buffered and more
      may come. */
  lemma PaddingExactly(p: Player, looping: bool, channels: nat, early: Option<nat>, late: Option<nat>)
    requires channels in {1, 2}
    ensures var f := Followed(p);
            Nexted(p, looping, channels, early, late).1.Padding? <==>
            !Whole(f.debt, channels) || (f.at >= |f.all| && !f.complete)
  {
  }

  /** A buffered sample is heard at once, or after the one zero that completes a frame. */
  lemma BufferedIsHeard(p: Player, looping: bool, channels: nat)
    requires channels in {1, 2} && p.cursor == p.at < |p.all|
    ensures var first := Nexted(p, looping, channels, None, None);
            var second := Nexted(first.0, looping, channels, None, None);
            if Whole(p.debt, channels) then first.1 == Sample(p.all[p.at])
            else first.1 == Padding && second.1 == Sample(p.all[p.at])
  {
  }

  // ---- What becomes of a store by another thread ----

  /** A store before a possible return to the first sample is still there after the call exactly when
      there is no such return and it does not name the sample being played; after a return the
      cursor is 1, whatever was stored. */
  lemma EarlyStoreExactly(p: Player, looping: bool, channels: nat, value: nat)
    requires channels in {1, 2}
    ensures var f := Followed(p);
            var (after, out) := Nexted(p, looping, channels, Some(value), None);
            && (Wraps(f, looping, channels) ==> after.cursor == 1)
            && (!Wraps(f, looping, channels) ==> (after.cursor == value <==> !(out.Sample? && value == f.at)))
  {
  }

  /** A later store is lost exactly when it names the sample being played. */
  lemma LateStoreExactly(p: Player, looping: bool, channels: nat, early: Option<nat>, value: nat)
    requires channels in {1, 2}
    ensures var (after, out) := Nexted(p, looping, channels, early, Some(value));
            after.cursor == value <==> !(out.Sample? && value == after.at - 1)
  {
  }

  // ---- Whole runs ----

  /** Push and Finish come from the decoder, SeekTo from the user interface. */
  datatype Event =
    | Push(samples: Samples)
    | Finish
    | SeekTo(index: nat)
    | Next(early: Option<nat>, late: Option<nat>)

  const NEXT := Next(None, None)

  /** A seek from the user interface: checked, aligned, and stored in the cursor. */
  function Sought(p: Player, index: nat, channels: nat): Player {
    match Seeking.RetargetTarget(p.cursor, index, channels, |p.all|, p.complete, p.complete)
    case None => p
    case Some(aligned) =>
      if p.all == [] then p
      else p.(cursor := Seeking.AlignPhase(p.cursor, aligned, channels, Seeking.RetargetLimit(|p.all|, p.complete)))
  }

  /** A seek is stored exactly when its target is buffered, or the stream is complete and not empty. */
  predicate Accepts(p: Player, index: nat) {
    p.all != [] && (index < |p.all| || p.complete)
  }

  datatype Run = Run(player: Player, outs: seq<Out>)

  function Do(run: Run, event: Event, looping: bool, channels: nat): Run
    requires channels in {1, 2}
  {
    match event
    case Push(samples) => run.(player := run.player.(all := run.player.all + samples))
    case Finish => run.(player := run.player.(complete := true))
    case SeekTo(index) => run.(player := Sought(run.player, index, channels))
    case Next(early, late) =>
      var (player, out) := Nexted(run.player, looping, channels, early, late);
      Run(player, run.outs + [out])
  }

  function Played(events: seq<Event>, looping: bool, channels: nat): Run
    requires channels in {1, 2}
  {
    if events == [] then Run(START, [])
    else Do(Played(events[..|events| - 1], looping, channels), events[|events| - 1], looping, channels)
  }

  lemma PlayedSnoc(events: seq<Event>, i: nat, looping: bool, channels: nat)
    requires channels in {1, 2} && i < |events|
    ensures Played(events[..i + 1], looping, channels) == Do(Played(events[..i], looping, channels), events[i], looping, channels)
  {
    hide Do;
    assert events[..i + 1][..i] == events[..i];
  }

  /** What the decoder guarantees: chunks of whole frames, none empty, and nothing after the end. */
  predicate WellPushed(events: seq<Event>, channels: nat)
    requires channels in {1, 2}
  {
    && (forall e :: e in events && e.Push? ==> e.samples != [] && Whole(|e.samples|, channels))
    && (forall i, j :: 0 <= i < j < |events| && events[i] == Finish ==> !events[j].Push?)
  }

  function Pushed(events: seq<Event>): Samples {
    if events == [] then []
    else
      var last := events[|events| - 1];
      Pushed(events[..|events| - 1]) + if last.Push? then last.samples else []
  }

  lemma {:induction false} StreamIsPushed(events: seq<Event>, looping: bool, channels: nat)
    requires channels in {1, 2}
    ensures Played(events, looping, channels).player.all == Pushed(events)
    ensures Played(events, looping, channels).player.complete <==> Finish in events
  {
    hide Do;
    if events != [] {
      var n := |events| - 1;
      StreamIsPushed(events[..n], looping, channels);
      StreamStep(Played(events[..n], looping, channels), events[n], looping, channels);
      assert events == events[..n] + [events[n]];
    }
  }

  lemma StreamStep(run: Run, event: Event, looping: bool, channels: nat)
    requires channels in {1, 2}
    ensures var next := Do(run, event, looping, channels).player;
            && next.all == run.player.all + (if event.Push? then event.samples else [])
            && (next.complete <==> run.player.complete || event == Finish)
  {
    hide Seeking.AlignPhase, Seeking.RetargetTarget;
  }

  // ---- Without seeks ----

  /** No seeks and no stores. */
  predicate Undisturbed(events: seq<Event>) {
    forall e :: e in events ==> !e.SeekTo? && (e.Next? ==> e == NEXT)
  }

  /** Samples returned, padding left out. */
  function Audible(outs: seq<Out>): Samples {
    if outs == [] then []
    else
      var last := outs[|outs| - 1];
      Audible(outs[..|outs| - 1]) + if last.Sample? then [last.x] else []
  }

  /** Length of the padding run at the end. */
  function TrailingPads(outs: seq<Out>): nat {
    if outs == [] || !outs[|outs| - 1].Padding? then 0 else 1 + TrailingPads(outs[..|outs| - 1])
  }

  /** Every padding run that something follows is a whole number of frames. */
  predicate WholePads(outs: seq<Out>, channels: nat)
    requires channels in {1, 2}
  {
    forall i :: 0 <= i < |outs| && !outs[i].Padding? ==> Whole(TrailingPads(outs[..i]), channels)
  }

  lemma OutsSnoc(outs: seq<Out>, out: Out, channels: nat)
    requires channels in {1, 2} && WholePads(outs, channels)
    requires !out.Padding? ==> Whole(TrailingPads(outs), channels)
    ensures WholePads(outs + [out], channels)
    ensures TrailingPads(outs + [out]) == if out.Padding? then TrailingPads(outs) + 1 else 0
    ensures Audible(outs + [out]) == Audible(outs) + if out.Sample? then [out.x] else []
  {
    hide Whole;
    var more := outs + [out];
    assert more[..|outs|] == outs;
    forall i | 0 <= i < |more| && !more[i].Padding?
      ensures Whole(TrailingPads(more[..i]), channels)
    {
      if i < |outs| {
        assert more[..i] == outs[..i];
      } else {
        assert more[..i] == outs;
      }
    }
  }

  /** A stream played k times over. */
  function Repeated(s: Samples, k: nat): Samples {
    if k == 0 then [] else Repeated(s, k - 1) + s
  }

  /** Calls that started over at the first sample. */
  function Returns(events: seq<Event>, looping: bool, channels: nat): nat
    requires channels in {1, 2}
  {
    if events == [] then 0
    else
      var before, last := events[..|events| - 1], events[|events| - 1];
      var player := Followed(Played(before, looping, channels).player);
      Returns(before, looping, channels) + if last.Next? && Wraps(player, looping, channels) then 1 else 0
  }

  /** What has been heard is the whole stream k times and then the stream up to the playhead, in whole
      frames of silence. */
  ghost predicate Heard(run: Run, looping: bool, k: nat, channels: nat)
    requires channels in {1, 2}
  {
    var p := run.player;
    && p.cursor == p.at <= |p.all| && Audible(run.outs) == Repeated(p.all, k) + p.all[..p.at]
    && (k > 0 ==> looping && p.complete)
    && WholePads(run.outs, channels) && Whole(TrailingPads(run.outs) - p.debt, channels)
    && (End in run.outs ==> p.complete && p.at == |p.all| && (looping ==> p.all == []))
  }

  lemma HeardNext(run: Run, looping: bool, k: nat, channels: nat)
    requires channels in {1, 2} && Heard(run, looping, k, channels)
    ensures Heard(Do(run, NEXT, looping, channels), looping,
                  k + if Wraps(Followed(run.player), looping, channels) then 1 else 0, channels)
  {
    hide WholePads, Audible, TrailingPads, Repeated;
    var p := run.player;
    OutsSnoc(run.outs, Nexted(p, looping, channels, None, None).1, channels)
      by { HeardStep(p, TrailingPads(run.outs), looping, channels); }
    TakeOneMore(p.all, p.at);
    TakeOneMore(p.all, 0);
    OnceMore(p.all, k);
  }

  lemma HeardPush(run: Run, samples: Samples, looping: bool, channels: nat)
    requires channels in {1, 2} && Heard(run, looping, 0, channels) && !run.player.complete
    ensures Heard(Do(run, Push(samples), looping, channels), looping, 0, channels)
  {
    hide WholePads, Audible, TrailingPads;
    PushedPrefix(run.player.all, samples, run.player.at);
  }

  lemma HeardFinish(run: Run, looping: bool, k: nat, channels: nat)
    requires channels in {1, 2} && Heard(run, looping, k, channels)
    ensures Heard(Do(run, Finish, looping, channels), looping, k, channels)
  {
    hide WholePads, Audible, TrailingPads, Repeated;
  }

  lemma {:induction false} RunIsHeard(events: seq<Event>, looping: bool, channels: nat)
    requires channels in {1, 2} && WellPushed(events, channels) && Undisturbed(events)
    ensures Heard(Played(events, looping, channels), looping, Returns(events, looping, channels), channels)
  {
    hide Heard, Do, Wraps, Followed;
    if events == [] {
      NothingPlayed(looping, channels);
    } else {
      var n := |events| - 1;
      var before, event := events[..n], events[n];
      assert event in events;
      RunIsHeard(before, looping, channels);
      StreamIsPushed(before, looping, channels);
      var run, k := Played(before, looping, channels), Returns(before, looping, channels);
      match event {
        case Push(samples) =>
          NoReturnYet(run, looping, k, channels);
          HeardPush(run, samples, looping, channels);
        case Finish => HeardFinish(run, looping, k, channels);
        case Next(_, _) => HeardNext(run, looping, k, channels);
        case SeekTo(_) =>
      }
    }
  }

  lemma NoReturnYet(run: Run, looping: bool, k: nat, channels: nat)
    requires channels in {1, 2} && Heard(run, looping, k, channels)
    ensures (!run.player.complete || !looping) ==> k == 0
  {
  }

  /** Without seeks, looping or not: what is heard is the whole stream once for every return, then the
      stream up to the playhead; only a finished stream is started over; silence comes in whole frames;
      and the end is reported only after everything was heard, or, looping, for an empty stream. */
  lemma HeardIsRepeated(events: seq<Event>, looping: bool, channels: nat)
    requires channels in {1, 2} && WellPushed(events, channels) && Undisturbed(events)
    ensures var run, k := Played(events, looping, channels), Returns(events, looping, channels);
            && run.player.at <= |Pushed(events)|
            && Audible(run.outs) == Repeated(Pushed(events), k) + Pushed(events)[..run.player.at]
            && (k > 0 ==> looping && Finish in events)
            && WholePads(run.outs, channels)
            && (End in run.outs ==> Finish in events && run.player.at == |Pushed(events)|)
            && (End in run.outs && looping ==> Pushed(events) == [])
  {
    hide Played, Returns, Repeated, WholePads, Audible, TrailingPads;
    RunIsHeard(events, looping, channels);
    StreamIsPushed(events, looping, channels);
  }

  /** Without seeks and looping: what is heard is a prefix of what was pushed, silence comes in whole
      frames, and the end is reported only after the stream is finished and everything was heard. */
  lemma HeardIsPrefix(events: seq<Event>, channels: nat)
    requires channels in {1, 2} && WellPushed(events, channels) && Undisturbed(events)
    ensures var run := Played(events, false, channels);
            && Audible(run.outs) <= Pushed(events)
            && Audible(run.outs) == Pushed(events)[..|Audible(run.outs)|] && run.player.at == |Audible(run.outs)|
            && WholePads(run.outs, channels)
            && (End in run.outs ==> Finish in events && Audible(run.outs) == Pushed(events))
  {
    hide Played, Returns, WholePads, Audible, TrailingPads;
    HeardIsRepeated(events, false, channels);
    var heard := Pushed(events)[..Played(events, false, channels).player.at];
    assert [] + heard == heard;
  }

  lemma HeardStep(p: Player, pads: nat, looping: bool, channels: nat)
    requires channels in {1, 2} && p.cursor == p.at && Whole(pads - p.debt, channels)
    ensures !Nexted(p, looping, channels, None, None).1.Padding? ==> Whole(pads, channels)
  {
  }

  lemma NothingPlayed(looping: bool, channels: nat)
    requires channels in {1, 2}
    ensures Played([], looping, channels) == Run(START, []) && Heard(Played([], looping, channels), looping, 0, channels)
  {
  }

  lemma OnceMore(s: Samples, k: nat)
    ensures Repeated(s, k + 1) == Repeated(s, k) + s[..|s|] && Repeated(s, k + 1) + [] == Repeated(s, k + 1)
  {
    assert s[..|s|] == s;
  }

  lemma PushedPrefix(all: Samples, more: Samples, at: nat)
    requires at <= |all|
    ensures (all + more)[..at] == all[..at]
  {
  }

  lemma TakeOneMore(all: Samples, at: nat)
    ensures at < |all| ==> all[..at + 1] == all[..at] + [all[at]]
  {
  }

  // ---- Which channel a sample leaves on ----

  /** Values put out; the end is none. */
  function Emitted(outs: seq<Out>): nat {
    if outs == [] then 0
    else Emitted(outs[..|outs| - 1]) + if outs[|outs| - 1].End? then 0 else 1
  }

  /** How far a call moves the playhead against the output: by a jump, and by a return to the start. */
  function Slip(p: Player, looping: bool, channels: nat): int
    requires channels in {1, 2}
  {
    var f := Followed(p);
    (if Jumps(p) then f.at - p.at - p.debt else 0) - (if Wraps(f, looping, channels) then f.at else 0)
  }

  /** The slips of all calls so far. */
  function Drift(events: seq<Event>, looping: bool, channels: nat): int
    requires channels in {1, 2}
  {
    if events == [] then 0
    else
      var before := events[..|events| - 1];
      Drift(before, looping, channels)
      + if events[|events| - 1].Next? then Slip(Played(before, looping, channels).player, looping, channels) else 0
  }

  lemma {:induction false} DriftExactly(events: seq<Event>, looping: bool, channels: nat)
    requires channels in {1, 2}
    ensures var run := Played(events, looping, channels);
            Whole(Emitted(run.outs) - run.player.at - run.player.debt + Drift(events, looping, channels), channels)
  {
    hide Slip, Nexted, Sought;
    if events != [] {
      var n := |events| - 1;
      var before, event := events[..n], events[n];
      DriftExactly(before, looping, channels);
      var run, drift := Played(before, looping, channels), Drift(before, looping, channels);
      match event {
        case Next(early, late) =>
          var (player, out) := Nexted(run.player, looping, channels, early, late);
          EmittedSnoc(run.outs, out);
          SlipFrom(run.player, Emitted(run.outs), drift, looping, channels, early, late);
        case SeekTo(index) =>
          SoughtKeeps(run.player, index, channels);
        case _ =>
      }
    }
  }

  lemma EmittedSnoc(outs: seq<Out>, out: Out)
    ensures Emitted(outs + [out]) == Emitted(outs) + if out.End? then 0 else 1
  {
    assert (outs + [out])[..|outs|] == outs;
  }

  lemma SoughtKeeps(p: Player, index: nat, channels: nat)
    ensures Sought(p, index, channels) == p.(cursor := Sought(p, index, channels).cursor)
  {
    hide Seeking.AlignPhase, Seeking.RetargetTarget;
  }

  lemma SlipFrom(p: Player, emitted: nat, drift: int, looping: bool, channels: nat,
                 early: Option<nat>, late: Option<nat>)
    requires channels in {1, 2} && Whole(emitted - p.at - p.debt + drift, channels)
    ensures var (q, out) := Nexted(p, looping, channels, early, late);
            Whole(emitted + (if out.End? then 0 else 1) - q.at - q.debt + drift + Slip(p, looping, channels), channels)
  {
  }

  /** In any run, with any seeks and stores, a sample leaves on its own channel exactly when the slips
      up to it add up to whole frames. */
  lemma SampleChannelExactly(events: seq<Event>, n: nat, looping: bool, channels: nat)
    requires channels in {1, 2} && n < |events|
    requires Delivers(events, n, looping, channels)
    ensures OnItsChannel(events, n, looping, channels) <==> Whole(Drift(events[..n + 1], looping, channels), channels)
  {
    hide Slip, Sought, Nexted, Drift, Played;
    DriftExactly(events[..n + 1], looping, channels);
    PlayedSnoc(events, n, looping, channels);
    var run := Played(events[..n], looping, channels);
    var (q, out) := Nexted(run.player, looping, channels, events[n].early, events[n].late);
    EmittedSnoc(run.outs, out);
    SampleLeavesNoDebt(run.player, looping, channels, events[n].early, events[n].late);
  }

  lemma SampleLeavesNoDebt(p: Player, looping: bool, channels: nat, early: Option<nat>, late: Option<nat>)
    requires channels in {1, 2}
    ensures var (q, out) := Nexted(p, looping, channels, early, late);
            out.Sample? ==> q.debt == 0 && q.at > 0 && q.at <= |q.all| && out.x == q.all[q.at - 1]
  {
  }

  /** Event n is a call that returns a sample. */
  predicate Delivers(events: seq<Event>, n: nat, looping: bool, channels: nat)
    requires channels in {1, 2} && n < |events|
  {
    events[n].Next? &&
    Nexted(Played(events[..n], looping, channels).player, looping, channels, events[n].early, events[n].late).1.Sample?
  }

  /** The sample returned, number at - 1 of the stream, is at that place of a frame in the output. */
  predicate OnItsChannel(events: seq<Event>, n: nat, looping: bool, channels: nat)
    requires channels in {1, 2} && n < |events| && events[n].Next?
  {
    var run := Played(events[..n], looping, channels);
    var (q, _) := Nexted(run.player, looping, channels, events[n].early, events[n].late);
    Whole(Emitted(run.outs) - (q.at - 1), channels)
  }

  /** Where a seek from the user interface points, and when it keeps the phase of the old cursor. */
  lemma SoughtExactly(p: Player, index: nat, channels: nat)
    requires channels in {1, 2} && p.cursor <= |p.all| && Whole(|p.all|, channels)
    ensures var cursor := Sought(p, index, channels).cursor;
            if index < |p.all| then cursor <= index && (Whole(cursor - p.cursor, channels) <==> index >= p.cursor % channels)
            else cursor == if p.complete && p.all != [] then |p.all| else p.cursor
  {
    hide Seeking.AlignPhase;
    AlignedExactly(p.cursor, index, channels, |p.all|);
  }

  /** Aligning twice to the same cursor is aligning once. */
  lemma AlignedExactly(cursor: nat, index: nat, channels: nat, len: nat)
    requires channels in {1, 2} && cursor <= len && Whole(len, channels)
    ensures var once := Seeking.AlignPhase(cursor, index, channels, len);
            && Seeking.AlignPhase(cursor, once, channels, len) == once
            && if index < len then once <= index && (Whole(once - cursor, channels) <==> index >= cursor % channels)
               else once == len
  {
    if channels == 1 {
      assert Seeking.AlignPhase(cursor, index, 1, len) == if index < len then index else len;
    } else {
      assert channels == 2;
    }
  }

  /** A seek can be taken up without leaving the channel: no half frame of silence is out, and the
      target is not below the phase. */
  predicate CleanSeek(p: Player, index: nat, channels: nat)
    requires channels in {1, 2}
  {
    && Whole(p.debt, channels)
    && if index < |p.all| then index >= p.cursor % channels else p.complete ==> Whole(p.cursor, channels)
  }

  /** A store that is there after a call, which without it leaves q, keeps the phase: it names the
      sample just played or the next one, or a place of the same phase with no half frame of silence out. */
  predicate StoreFits(q: Player, out: Out, value: nat, channels: nat)
    requires channels in {1, 2}
  {
    || (out.Sample? && value + 1 == q.at) || value == q.at
    || (Whole(value - q.at, channels) && Whole(q.debt, channels)
        && (value < |q.all| || (q.complete && value == |q.all|)))
  }

  /** The last store of a call fits; one that a return to the first sample overwrites need not. */
  predicate CleanStores(p: Player, looping: bool, channels: nat, early: Option<nat>, late: Option<nat>)
    requires channels in {1, 2}
  {
    var (q, out) := Nexted(p, looping, channels, None, None);
    if late.Some? then StoreFits(q, out, late.value, channels)
    else early.Some? && !Wraps(Followed(p), looping, channels) ==> StoreFits(q, out, early.value, channels)
  }

  /** Every seek and every store of the run is clean where it comes. */
  predicate CleanSeeks(events: seq<Event>, looping: bool, channels: nat)
    requires channels in {1, 2}
  {
    forall i :: 0 <= i < |events| ==> CleanEvent(Played(events[..i], looping, channels), events[i], looping, channels)
  }

  /** A seek to a buffered sample is heard at the next call: that very sample, or, in stereo, the one
      before it in its frame; in mono always that very sample. */
  lemma SeekIsHeard(p: Player, index: nat, looping: bool, channels: nat)
    requires channels in {1, 2} && p.cursor == p.at <= |p.all| && Whole(|p.all|, channels) && Whole(p.debt, channels)
    requires index < |p.all|
    ensures var (after, out) := Nexted(Sought(p, index, channels), looping, channels, None, None);
            && 0 < after.at <= |p.all| && out == Sample(p.all[after.at - 1])
            && after.at - 1 <= index < after.at - 1 + channels
            && after.cursor == after.at
  {
    hide Seeking.AlignPhase, Seeking.RetargetTarget;
    SoughtNear(p, index, channels);
    SoughtKeeps(p, index, channels);
  }

  lemma SoughtNear(p: Player, index: nat, channels: nat)
    requires channels in {1, 2} && p.cursor <= |p.all| && Whole(|p.all|, channels) && index < |p.all|
    ensures var cursor := Sought(p, index, channels).cursor;
            cursor <= index < cursor + channels
  {
  }

  /** When the playhead is where the cursor was, a seek elsewhere slips whole frames exactly when both
      or neither of: the padding is whole frames, and the target keeps the phase. */
  lemma SeekSlipExactly(p: Player, index: nat, channels: nat)
    requires channels in {1, 2} && p.cursor == p.at <= |p.all| && Whole(|p.all|, channels) && index < |p.all|
    ensures var cursor := Sought(p, index, channels).cursor;
            Whole(cursor - p.at - p.debt, channels) <==> (Whole(p.debt, channels) <==> index >= p.at % channels)
  {
    hide Sought;
    SoughtExactly(p, index, channels);
  }

  /** What a run of clean seeks keeps. */
  ghost predicate InStep(p: Player, drift: int, channels: nat)
    requires channels in {1, 2}
  {
    && p.at <= |p.all| && p.cursor <= |p.all| && Whole(|p.all|, channels)
    && Whole(p.cursor - p.at, channels)
    && (p.cursor == p.at || (Whole(p.debt, channels) && (p.cursor < |p.all| || p.complete)))
    && Whole(drift, channels)
  }

  lemma InStepNext(p: Player, drift: int, looping: bool, channels: nat)
    requires channels in {1, 2} && InStep(p, drift, channels)
    ensures InStep(Nexted(p, looping, channels, None, None).0, drift + Slip(p, looping, channels), channels)
  {
  }

  /** What stores change of a call: the cursor, unless a return or the sample played takes them. */
  lemma StoresMoveCursor(p: Player, looping: bool, channels: nat, early: Option<nat>, late: Option<nat>)
    requires channels in {1, 2}
    ensures var (q, out) := Nexted(p, looping, channels, None, None);
            var store := if late.None? && Wraps(Followed(p), looping, channels) then None else if late.Some? then late else early;
            Nexted(p, looping, channels, early, late).0 ==
            if store.None? then q
            else if out.Sample? && store.value + 1 == q.at then q.(cursor := q.at)
            else q.(cursor := store.value)
  {
  }

  lemma InStepStores(p: Player, drift: int, looping: bool, channels: nat, early: Option<nat>, late: Option<nat>)
    requires channels in {1, 2} && InStep(p, drift, channels) && CleanStores(p, looping, channels, early, late)
    ensures InStep(Nexted(p, looping, channels, early, late).0, drift + Slip(p, looping, channels), channels)
  {
    hide Nexted, Slip, Wraps, Followed;
    InStepNext(p, drift, looping, channels);
    StoresMoveCursor(p, looping, channels, early, late);
  }

  lemma InStepSeek(p: Player, drift: int, index: nat, channels: nat)
    requires channels in {1, 2} && InStep(p, drift, channels) && CleanSeek(p, index, channels)
    ensures InStep(Sought(p, index, channels), drift, channels)
  {
    hide Sought;
    SoughtExactly(p, index, channels);
    SoughtKeeps(p, index, channels);
  }

  predicate CleanEvent(run: Run, event: Event, looping: bool, channels: nat)
    requires channels in {1, 2}
  {
    match event
    case SeekTo(index) => CleanSeek(run.player, index, channels)
    case Next(early, late) => CleanStores(run.player, looping, channels, early, late)
    case _ => true
  }

  lemma InStepEvent(run: Run, drift: int, event: Event, looping: bool, channels: nat)
    requires channels in {1, 2} && InStep(run.player, drift, channels) && CleanEvent(run, event, looping, channels)
    requires event.Push? ==> Whole(|event.samples|, channels)
    ensures InStep(Do(run, event, looping, channels).player,
                   drift + if event.Next? then Slip(run.player, looping, channels) else 0, channels)
  {
    hide Slip, Nexted, Sought, CleanSeek, CleanStores;
    match event {
      case Next(early, late) =>
        hide InStep;
        InStepStores(run.player, drift, looping, channels, early, late);
      case SeekTo(index) =>
        hide InStep;
        InStepSeek(run.player, drift, index, channels);
      case _ =>
    }
  }

  lemma LastIsClean(events: seq<Event>, looping: bool, channels: nat)
    requires channels in {1, 2} && WellPushed(events, channels) && CleanSeeks(events, looping, channels) && events != []
    ensures var n := |events| - 1;
            var run := Played(events[..n], looping, channels);
            && CleanEvent(run, events[n], looping, channels)
            && (events[n].Push? ==> Whole(|events[n].samples|, channels))
            && Played(events, looping, channels) == Do(run, events[n], looping, channels)
            && Drift(events, looping, channels) == Drift(events[..n], looping, channels)
               + if events[n].Next? then Slip(run.player, looping, channels) else 0
  {
    hide CleanEvent, Do, Slip;
    assert events[|events| - 1] in events;
  }

  lemma {:induction false} CleanSeeksStayInStep(events: seq<Event>, looping: bool, channels: nat)
    requires channels in {1, 2} && WellPushed(events, channels) && CleanSeeks(events, looping, channels)
    ensures InStep(Played(events, looping, channels).player, Drift(events, looping, channels), channels)
  {
    hide *;
    if events == [] {
      StartsInStep(looping, channels);
    } else {
      var n := |events| - 1;
      CleanBefore(events, n, looping, channels);
      CleanSeeksStayInStep(events[..n], looping, channels);
      LastIsClean(events, looping, channels);
      var run, drift := Played(events[..n], looping, channels), Drift(events[..n], looping, channels);
      InStepEvent(run, drift, events[n], looping, channels);
    }
  }

  lemma StartsInStep(looping: bool, channels: nat)
    requires channels in {1, 2}
    ensures InStep(Played([], looping, channels).player, Drift([], looping, channels), channels)
  {
  }

  lemma CleanBefore(events: seq<Event>, n: nat, looping: bool, channels: nat)
    requires channels in {1, 2} && n <= |events|
    requires WellPushed(events, channels) && CleanSeeks(events, looping, channels)
    ensures WellPushed(events[..n], channels) && CleanSeeks(events[..n], looping, channels)
  {
    hide CleanEvent, Whole;
    forall i | 0 <= i < n
      ensures CleanEvent(Played(events[..n][..i], looping, channels), events[..n][i], looping, channels)
    {
      assert events[..n][..i] == events[..i];
    }
  }

  /** With clean seeks and stores only, every sample of the run leaves on its own channel, looping or not. */
  lemma CleanSeeksKeepChannels(events: seq<Event>, n: nat, looping: bool, channels: nat)
    requires channels in {1, 2} && WellPushed(events, channels) && CleanSeeks(events, looping, channels)
    requires n < |events| && Delivers(events, n, looping, channels)
    ensures OnItsChannel(events, n, looping, channels)
  {
    hide Played, Drift, Delivers, OnItsChannel, CleanSeeks, WellPushed;
    CleanBefore(events, n + 1, looping, channels);
    CleanSeeksStayInStep(events[..n + 1], looping, channels);
    SampleChannelExactly(events, n, looping, channels);
  }

  // ---- Runs that go wrong ----

  lemma PlayedAppend(events: seq<Event>, event: Event, looping: bool, channels: nat)
    requires channels in {1, 2}
    ensures Played(events + [event], looping, channels) == Do(Played(events, looping, channels), event, looping, channels)
  {
    hide Do;
    assert (events + [event])[..|events|] == events;
  }

  /** Stereo: a seek that comes while a padding frame is half out. The first sample of the stream is
      then the fourth value put out, on the other channel. */
  lemma SeekMidFrameSwapsChannels()
    ensures var events := [Push([1.0, 2.0]), NEXT, NEXT, NEXT, SeekTo(0), NEXT];
            && Played(events, false, 2).outs == [Sample(1.0), Sample(2.0), Padding, Sample(1.0)]
            && !OnItsChannel(events, 5, false, 2)
  {
    var e1 := [] + [Push([1.0, 2.0])];
    var e2 := e1 + [NEXT];
    var e3 := e2 + [NEXT];
    var e4 := e3 + [NEXT];
    var e5 := e4 + [SeekTo(0)];
    PlayedAppend([], Push([1.0, 2.0]), false, 2);
    PlayedAppend(e1, NEXT, false, 2);
    PlayedAppend(e2, NEXT, false, 2);
    PlayedAppend(e3, NEXT, false, 2);
    PlayedAppend(e4, SeekTo(0), false, 2);
    PlayedAppend(e5, NEXT, false, 2);
    assert Played(e5, false, 2) == Run(Player([1.0, 2.0], false, 2, 1, 0), [Sample(1.0), Sample(2.0), Padding]);
    var events := [Push([1.0, 2.0]), NEXT, NEXT, NEXT, SeekTo(0), NEXT];
    assert events == e5 + [NEXT] && events[..5] == e5;
    assert Emitted([Sample(1.0), Sample(2.0), Padding]) == 3 by { ThreeEmitted(); }
  }

  lemma ThreeEmitted()
    ensures Emitted([Sample(1.0), Sample(2.0), Padding]) == 3
  {
    EmittedSnoc([], Sample(1.0));
    EmittedSnoc([Sample(1.0)], Sample(2.0));
    EmittedSnoc([Sample(1.0), Sample(2.0)], Padding);
    assert [] + [Sample(1.0)] == [Sample(1.0)] && [Sample(1.0)] + [Sample(2.0)] == [Sample(1.0), Sample(2.0)];
    assert [Sample(1.0), Sample(2.0)] + [Padding] == [Sample(1.0), Sample(2.0), Padding];
  }

  /** Stereo: a seek below the channel phase. The first sample of the stream is then the second value
      put out, on the other channel. */
  lemma SeekBelowPhaseSwapsChannels()
    ensures var events := [Push([1.0, 2.0]), NEXT, SeekTo(0), NEXT];
            && Played(events, false, 2).outs == [Sample(1.0), Sample(1.0)]
            && !OnItsChannel(events, 3, false, 2)
  {
    var e1 := [] + [Push([1.0, 2.0])];
    var e2 := e1 + [NEXT];
    var e3 := e2 + [SeekTo(0)];
    PlayedAppend([], Push([1.0, 2.0]), false, 2);
    PlayedAppend(e1, NEXT, false, 2);
    PlayedAppend(e2, SeekTo(0), false, 2);
    PlayedAppend(e3, NEXT, false, 2);
    assert Played(e3, false, 2) == Run(Player([1.0, 2.0], false, 1, 0, 0), [Sample(1.0)]);
    var events := [Push([1.0, 2.0]), NEXT, SeekTo(0), NEXT];
    assert events == e3 + [NEXT] && events[..3] == e3;
    assert Emitted([Sample(1.0)]) == 1 by {
      EmittedSnoc([], Sample(1.0));
      assert [] + [Sample(1.0)] == [Sample(1.0)];
    }
  }

  /** Looping: a seek to sample 2, stored during the call that returns to the start, is lost. */
  lemma SeekBeforeReturnIsLost()
    ensures var events := [Push([1.0, 2.0, 3.0]), Finish, NEXT, NEXT, NEXT, Next(Some(2), None)];
            var run := Played(events, true, 1);
            run.outs == [Sample(1.0), Sample(2.0), Sample(3.0), Sample(1.0)] && run.player.cursor == run.player.at == 1
  {
    var e1 := [] + [Push([1.0, 2.0, 3.0])];
    var e2 := e1 + [Finish];
    var e3 := e2 + [NEXT];
    var e4 := e3 + [NEXT];
    var e5 := e4 + [NEXT];
    PlayedAppend([], Push([1.0, 2.0, 3.0]), true, 1);
    PlayedAppend(e1, Finish, true, 1);
    PlayedAppend(e2, NEXT, true, 1);
    PlayedAppend(e3, NEXT, true, 1);
    PlayedAppend(e4, NEXT, true, 1);
    PlayedAppend(e5, Next(Some(2), None), true, 1);
    assert Played(e5, true, 1) == Run(Player([1.0, 2.0, 3.0], true, 3, 0, 3), [Sample(1.0), Sample(2.0), Sample(3.0)]);
    assert e5 + [Next(Some(2), None)] == [Push([1.0, 2.0, 3.0]), Finish, NEXT, NEXT, NEXT, Next(Some(2), None)];
  }
}
