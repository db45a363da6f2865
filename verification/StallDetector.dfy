/** The watchdog on audio output: it reports a stall when the playhead has not moved for a while,
    and then keeps quiet for longer. Times are in milliseconds. */
module StallDetector {
  import opened Basics

  const PLAYBACK_STALL_INTERVAL := 3000
  const STALL_RECOVERY_INTERVAL := 15000

  datatype Observation = Observation(now: nat, playing: bool, sample: nat, playable: bool)

  datatype Progress = Progress(lastSample: Option<(nat, nat)>, lastRecovery: Option<nat>)

  const START := Progress(None, None)

  /** Time since an earlier instant; zero when the clock seems to run back. */
  function Elapsed(now: nat, earlier: nat): nat {
    Max(now - earlier, 0)
  }

  function Observed(p: Progress, o: Observation): (Progress, bool) {
    if !o.playing || !o.playable then (p.(lastSample := None), false)
    else if p.lastSample.Some? && p.lastSample.value.0 == o.sample then
      var retryAllowed := p.lastRecovery.None? || Elapsed(o.now, p.lastRecovery.value) >= STALL_RECOVERY_INTERVAL;
      if retryAllowed && Elapsed(o.now, p.lastSample.value.1) >= PLAYBACK_STALL_INTERVAL
      then (Progress(None, Some(o.now)), true)
      else (p, false)
    else (p.(lastSample := Some((o.sample, o.now))), false)
  }

  class OutputProgress {
    var lastSample: Option<(nat, nat)>
    var lastRecovery: Option<nat>

    function View(): Progress
      reads this
    {
      Progress(lastSample, lastRecovery)
    }

    constructor ()
      ensures View() == START
    {
      lastSample, lastRecovery := None, None;
    }

    method Reset()
      modifies this`lastSample
      ensures lastSample == None
    {
      lastSample := None;
    }

    method Observe(o: Observation) returns (stalled: bool)
      modifies this
      ensures (View(), stalled) == Observed(old(View()), o)
    {
      if !o.playing || !o.playable {
        Reset();
        return false;
      }
      if lastSample.Some? && lastSample.value.0 == o.sample {
        var since := lastSample.value.1;
        var retryAllowed := lastRecovery.None? || Elapsed(o.now, lastRecovery.value) >= STALL_RECOVERY_INTERVAL;
        if retryAllowed && Elapsed(o.now, since) >= PLAYBACK_STALL_INTERVAL {
          lastRecovery := Some(o.now);
          Reset();
          return true;
        }
        return false;
      }
      lastSample := Some((o.sample, o.now));
      return false;
    }
  }

  // ---- Whole observation sequences ----

  function After(os: seq<Observation>, n: nat): Progress
    requires n <= |os|
  {
    if n == 0 then START else Observed(After(os, n - 1), os[n - 1]).0
  }

  predicate Fires(os: seq<Observation>, n: nat)
    requires n < |os|
  {
    Observed(After(os, n), os[n]).1
  }

  predicate Ordered(os: seq<Observation>) {
    forall i, j :: 0 <= i < j < |os| ==> os[i].now <= os[j].now
  }

  /** From k to n - 1 output was wanted and possible and stood at sample s, without a report. */
  predicate Still(os: seq<Observation>, k: nat, n: nat, s: nat)
    requires n <= |os|
  {
    k < n && forall m :: k <= m < n ==> os[m].playing && os[m].playable && os[m].sample == s && !Fires(os, m)
  }

  /** The remembered sample was first seen at some k and has stood still since. */
  lemma {:induction false} RememberedIsStill(os: seq<Observation>, n: nat) returns (k: nat)
    requires n <= |os| && After(os, n).lastSample.Some?
    ensures k < n && os[k].now == After(os, n).lastSample.value.1
    ensures Still(os, k, n, After(os, n).lastSample.value.0)
    decreases n
  {
    var before := After(os, n - 1);
    if before.lastSample.Some? && before.lastSample.value.0 == os[n - 1].sample {
      k := RememberedIsStill(os, n - 1);
    } else {
      k := n - 1;
    }
  }

  /** The remembered recovery is the last report. */
  lemma {:induction false} RecoveryIsLastReport(os: seq<Observation>, n: nat, i: nat)
    requires n <= |os| && Ordered(os) && i < n && Fires(os, i)
    ensures After(os, n).lastRecovery.Some? && os[i].now <= After(os, n).lastRecovery.value <= os[n - 1].now
    decreases n
  {
    if i < n - 1 {
      RecoveryIsLastReport(os, n - 1, i);
    }
  }

  /** Two reports are at least the recovery interval apart. */
  lemma ReportsAreFarApart(os: seq<Observation>, i: nat, j: nat)
    requires Ordered(os) && i < j < |os| && Fires(os, i) && Fires(os, j)
    ensures os[j].now - os[i].now >= STALL_RECOVERY_INTERVAL
  {
    RecoveryIsLastReport(os, j, i);
  }

  /** A report closes a stretch of at least the stall interval in which every observation, the
      reporting one included, was playing, playable and at the same sample; and it comes exactly
      when such a stretch is complete and no report is recent. */
  lemma ReportsCloseStalls(os: seq<Observation>, j: nat) returns (k: nat)
    requires Ordered(os) && j < |os| && Fires(os, j)
    ensures k < j && os[j].now - os[k].now >= PLAYBACK_STALL_INTERVAL
    ensures Still(os, k, j, os[j].sample) && os[j].playing && os[j].playable
  {
    k := RememberedIsStill(os, j);
  }

  /** Nothing in os[..n] has been reported within the recovery interval before now. */
  predicate QuietBefore(os: seq<Observation>, n: nat, now: nat)
    requires n <= |os|
  {
    forall i :: 0 <= i < n && Fires(os, i) ==> now - os[i].now >= STALL_RECOVERY_INTERVAL
  }

  lemma {:induction false} RecoveryWasReport(os: seq<Observation>, n: nat) returns (i: nat)
    requires n <= |os| && After(os, n).lastRecovery.Some?
    ensures i < n && Fires(os, i) && os[i].now == After(os, n).lastRecovery.value
    decreases n
  {
    if Fires(os, n - 1) {
      i := n - 1;
    } else {
      i := RecoveryWasReport(os, n - 1);
    }
  }

  lemma {:induction false} StretchIsRemembered(os: seq<Observation>, k: nat, n: nat, s: nat)
    requires Ordered(os) && n <= |os| && Still(os, k, n, s)
    ensures After(os, n).lastSample.Some?
    ensures After(os, n).lastSample.value.0 == s && After(os, n).lastSample.value.1 <= os[k].now
    decreases n
  {
    if k < n - 1 {
      StretchIsRemembered(os, k, n - 1, s);
    } else {
      var before := After(os, k);
      if before.lastSample.Some? {
        var first := RememberedIsStill(os, k);
      }
    }
  }

  /** A stall is never missed: a long enough stretch at one sample is reported as soon as the quiet
      time after the last report is over. */
  lemma StallsAreReported(os: seq<Observation>, k: nat, j: nat)
    requires Ordered(os) && k < j < |os| && Still(os, k, j, os[j].sample) && os[j].playing && os[j].playable
    requires os[j].now - os[k].now >= PLAYBACK_STALL_INTERVAL && QuietBefore(os, j, os[j].now)
    ensures Fires(os, j)
  {
    StretchIsRemembered(os, k, j, os[j].sample);
    if After(os, j).lastRecovery.Some? {
      var i := RecoveryWasReport(os, j);
    }
  }
}
