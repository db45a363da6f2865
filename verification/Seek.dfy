/** Seeking while the decoder is still pushing, and the cursor that several threads store to. */
module Seek {
  import opened Arithmetic
  import opened Basics
  import opened PcmStream

  // ---- Keeping the channel phase ----

  /** Sample number a seek lands on: target, moved back to the channel phase of current; len past the end. */
  function AlignPhase(current: nat, target: nat, channels: nat, len: nat): (r: nat)
    ensures r <= len && (target < len ==> r <= target)
  {
    if target >= len then len
    else if channels <= 1 then target
    else
      var phase := if current < len then current % channels else 0;
      var back := (target % channels + channels - phase) % channels;
      Max(target - back, 0)
  }

  /** The phase survives a seek inside the samples exactly when the target is not below the phase;
      the move is then shorter than a frame. */
  lemma AlignPhaseExactly(current: nat, target: nat, channels: nat, len: nat)
    requires channels > 0 && current < len && target < len
    ensures var r := AlignPhase(current, target, channels, len);
            && (r % channels == current % channels <==> target >= current % channels)
            && (target >= channels - 1 ==> r % channels == current % channels && target - r < channels)
  {
    var phase := current % channels;
    if channels == 1 {
      RemainderUnique(current, 1, current, 0);
      RemainderUnique(target, 1, target, 0);
    } else if target % channels >= phase {
      StepBackInFrame(target, channels, phase);
    } else {
      StepBackAcrossFrame(target, channels, phase);
    }
  }

  /** The phase is reached inside the frame that holds target. */
  lemma StepBackInFrame(target: nat, channels: nat, phase: nat)
    requires channels > 0 && phase <= target % channels
    ensures var back := (target % channels + channels - phase) % channels;
            back == target % channels - phase && back <= target && target >= phase && (target - back) % channels == phase
  {
    var q, m := target / channels, target % channels;
    assert target == channels * q + m;
    RemainderUnique(m + channels - phase, channels, 1, m - phase);
    RemainderUnique(target - (m - phase), channels, q, phase);
  }

  /** The phase is reached in the frame before, when there is one. */
  lemma StepBackAcrossFrame(target: nat, channels: nat, phase: nat)
    requires 0 < channels && target % channels < phase < channels
    ensures var back := (target % channels + channels - phase) % channels;
            && back == target % channels + channels - phase && back < channels
            && (back <= target <==> target >= channels) && (target >= phase <==> target >= channels)
            && (target >= channels ==> (target - back) % channels == phase)
            && 0 % channels == 0
  {
    var q, m := target / channels, target % channels;
    var back := m + channels - phase;
    RemainderUnique(back, channels, 0, back);
    RemainderUnique(0, channels, 0, 0);
    if q > 0 {
      FrameBefore(target, channels, q, m, phase);
    } else {
      assert target == m;
    }
  }

  lemma FrameBefore(target: nat, channels: nat, q: nat, m: nat, phase: nat)
    requires 0 < q && target == channels * q + m && m < phase < channels
    ensures target >= channels && (target - (m + channels - phase)) % channels == phase
  {
    var before := channels * (q - 1);
    assert channels * q == before + channels;
    RemainderUnique(before + phase, channels, q - 1, phase);
  }

  /** A shared position; loads, stores and compare-exchanges are single steps. */
  class AtomicCursor {
    var value: nat

    constructor (value: nat)
      ensures this.value == value
    {
      this.value := value;
    }

    method CompareExchangeWeak(current: nat, next: nat, spurious: bool) returns (ok: bool, observed: nat)
      modifies this
      ensures observed == old(value)
      ensures ok <==> old(value) == current && !spurious
      ensures value == if ok then next else old(value)
    {
      observed := value;
      ok := value == current && !spurious;
      if ok {
        value := next;
      }
    }

    /** What another thread does between two steps of ours: store a value, or make the next
        exchange fail for no reason. */
    method Interfere(store: Option<nat>)
      modifies this
      ensures value == store.GetOr(old(value))
    {
      if store.Some? {
        value := store.value;
      }
    }
  }

  datatype Interference = Interference(store: Option<nat>, spurious: bool)

  /** The retry loop. However many stores come in between, the position stored in the end is
      aligned to the very value it replaced. */
  method StoreAligned(cursor: AtomicCursor, target: nat, channels: nat, len: nat, others: seq<Interference>)
    returns (replaced: nat)
    modifies cursor
    ensures cursor.value == AlignPhase(replaced, target, channels, len)
    ensures replaced == old(cursor.value) || exists o :: o in others && o.store == Some(replaced)
    ensures cursor.value <= len
    ensures channels > 0 && replaced < len && target < len && target >= channels - 1
            ==> cursor.value % channels == replaced % channels
  {
    var current := cursor.value;
    var i := 0;
    while true
      invariant 0 <= i <= |others|
      invariant cursor.value == old(cursor.value) || exists o :: o in others && o.store == Some(cursor.value)
      decreases |others| - i, if current == cursor.value then 0 else 1
    {
      var aligned := AlignPhase(current, target, channels, len);
      var spurious := false;
      if i < |others| {
        assert others[i] in others;
        cursor.Interfere(others[i].store);
        spurious := others[i].spurious;
        i := i + 1;
      }
      replaced := cursor.value;
      var ok, observed := cursor.CompareExchangeWeak(current, aligned, spurious);
      if ok {
        if channels > 0 && replaced < len && target < len {
          AlignPhaseExactly(replaced, target, channels, len);
        }
        return;
      }
      current := observed;
    }
  }

  // ---- Seeking beside a pushing decoder ----

  /** Everything a seek may observe; inflight is a chunk appended but not yet counted. */
  datatype Shared = Shared(chunks: seq<Samples>, complete: bool, ready: nat, inflight: Option<nat>)

  datatype Step = Append(samples: Samples) | Count | Finish

  /** One step of the decoder thread; a step that is not its turn does nothing. */
  function Do(s: Shared, step: Step): Shared {
    match step
    case Append(x) =>
      if s.inflight.None? && !s.complete then s.(chunks := s.chunks + [x], inflight := Some(|x|)) else s
    case Count =>
      if s.inflight.Some? then s.(ready := s.ready + s.inflight.value, inflight := None) else s
    case Finish =>
      if s.inflight.None? then s.(complete := true) else s
  }

  function Run(s: Shared, steps: seq<Step>): Shared
    decreases |steps|
  {
    if steps == [] then s else Run(Do(s, steps[0]), steps[1..])
  }

  /** The counter and the chunk in flight add up to the stored samples. */
  predicate Counted(s: Shared) {
    s.ready + s.inflight.GetOr(0) == |Concat(s.chunks)|
  }

  /** a is an earlier state of the same stream. */
  predicate Earlier(a: Shared, b: Shared) {
    a.chunks <= b.chunks && (a.complete ==> b.complete) && a.ready <= b.ready
  }

  lemma DoKeeps(s: Shared, step: Step)
    requires Counted(s)
    ensures Counted(Do(s, step)) && Earlier(s, Do(s, step))
  {
    hide Concat;
    if step.Append? {
      ConcatSnoc(s.chunks, step.samples);
    }
  }

  /** In every interleaving the counter never runs ahead of the stored samples, and nothing the
      decoder did is undone. */
  lemma {:induction false} RunKeeps(s: Shared, steps: seq<Step>)
    requires Counted(s)
    ensures Counted(Run(s, steps)) && Earlier(s, Run(s, steps))
    ensures Run(s, steps).ready <= |Concat(Run(s, steps).chunks)|
    decreases |steps|
  {
    hide Do, Concat;
    if steps != [] {
      DoKeeps(s, steps[0]);
      RunKeeps(Do(s, steps[0]), steps[1..]);
    }
  }

  lemma StoredGrows(a: seq<Samples>, b: seq<Samples>)
    requires a <= b
    ensures Concat(a) <= Concat(b)
  {
    assert b == a + b[|a|..];
    ConcatAppend(a, b[|a|..]);
  }

  /** Target of the player's own seek after its two reads: the counter, then the end flag. */
  function TrySeekTarget(at: nat, target: nat, channels: nat, len: nat, complete: bool): Option<nat> {
    var limit := if complete then len else len + 1;
    var aligned := AlignPhase(at, Min(target, limit), channels, limit);
    if !complete && aligned >= len then None else Some(aligned)
  }

  /** A target that is buffered is reached but for less than a frame, on the channel that played last
      unless it is below that channel; beyond the end only a complete stream is sought, to its end. */
  lemma TrySeekTargetExactly(at: nat, target: nat, channels: nat, len: nat, complete: bool)
    requires channels > 0 && at < len
    ensures var seek := TrySeekTarget(at, target, channels, len, complete);
            && (target < len ==>
                  && seek.Some? && seek.value <= target
                  && (seek.value % channels == at % channels <==> target >= at % channels)
                  && (target >= channels - 1 ==> target - seek.value < channels))
            && (target > len || (target == len && complete) ==> seek == if complete then Some(len) else None)
  {
    hide AlignPhase;
    var limit := if complete then len else len + 1;
    AlignEnd(at, channels, limit);
    if target < len {
      AlignPhaseExactly(at, target, channels, limit);
    }
  }

  lemma AlignEnd(at: nat, channels: nat, limit: nat)
    ensures AlignPhase(at, limit, channels, limit) == limit
  {
  }

  function RetargetLimit(len: nat, complete2: bool): nat {
    if complete2 then len else Max(len, 1)
  }

  /** Target of a seek from the user interface: the end flag is read twice. */
  function RetargetTarget(cursor: nat, index: nat, channels: nat, len: nat, complete1: bool, complete2: bool): Option<nat> {
    if !complete1 && index >= len then None
    else Some(AlignPhase(cursor, index, channels, RetargetLimit(len, complete2)))
  }

  /** A seek that passes its check finds the sample it asked for, or the end of a complete stream,
      whatever the decoder does between its reads and the search. */
  lemma Located(s1: Shared, s4: Shared, aligned: nat)
    requires Counted(s1) && Earlier(s1, s4) && s1.chunks != []
    requires aligned < s1.ready || s4.complete
    ensures var r := Locate(s4.chunks, s4.complete, aligned);
            r.Some? && PointsAt(s4.chunks, aligned, r.value.0, r.value.1)
  {
    hide Concat, Locate, PointsAt;
    StoredGrows(s1.chunks, s4.chunks);
    LocateMeaning(s4.chunks, s4.complete, aligned);
  }

  /** The player's own seek, with the decoder stepping between its reads. */
  lemma TrySeekIsSound(s0: Shared, before: seq<Step>, a: seq<Step>, b: seq<Step>, at: nat, target: nat, channels: nat)
    requires Counted(s0) && Run(s0, before).chunks != []
    ensures var s1 := Run(s0, before);
            var s2 := Run(s1, a);
            var s3 := Run(s2, b);
            var seek := TrySeekTarget(at, target, channels, s1.ready, s2.complete);
            seek.Some? ==>
              var r := Locate(s3.chunks, s3.complete, seek.value);
              r.Some? && PointsAt(s3.chunks, seek.value, r.value.0, r.value.1)
  {
    hide Concat, Locate, PointsAt, Run, AlignPhase;
    var s1 := Run(s0, before);
    var s2 := Run(s1, a);
    RunKeeps(s0, before);
    RunKeeps(s1, a);
    RunKeeps(s2, b);
    var seek := TrySeekTarget(at, target, channels, s1.ready, s2.complete);
    if seek.Some? {
      Located(s1, Run(s2, b), seek.value);
    }
  }

  /** The same for a seek from the user interface; whatever value its store replaces, the cursor
      stays inside the stored samples. */
  lemma RetargetIsSound(s0: Shared, before: seq<Step>, a: seq<Step>, b: seq<Step>, c: seq<Step>,
                        cursor: nat, index: nat, channels: nat)
    requires Counted(s0) && Run(s0, before).chunks != []
    ensures var s1 := Run(s0, before);
            var s2 := Run(s1, a);
            var s3 := Run(s2, b);
            var s4 := Run(s3, c);
            var seek := RetargetTarget(cursor, index, channels, s1.ready, s2.complete, s3.complete);
            seek.Some? ==>
              var r := Locate(s4.chunks, s4.complete, seek.value);
              && r.Some? && PointsAt(s4.chunks, seek.value, r.value.0, r.value.1)
              && seek.value <= |Concat(s4.chunks)|
              && forall replaced: nat ::
                   AlignPhase(replaced, seek.value, channels, RetargetLimit(s1.ready, s3.complete)) <= |Concat(s4.chunks)|
  {
    hide Concat, Locate, PointsAt, Run;
    var s1 := Run(s0, before);
    var s2 := Run(s1, a);
    var s3 := Run(s2, b);
    RunKeeps(s0, before);
    RunKeeps(s1, a);
    RunKeeps(s2, b);
    RunKeeps(s3, c);
    var seek := RetargetTarget(cursor, index, channels, s1.ready, s2.complete, s3.complete);
    if seek.Some? {
      Located(s1, Run(s3, c), seek.value);
    }
  }
}
