/**
 * The drift-skip rule of the audio callback. The callback compares the time
 * that really passed since the previous callback with the time the buffer
 * covers; accumulated lateness beyond three buffer periods is collapsed into
 * one skip of queued output. Times are milliseconds, as reals.
 */
module Drift {
  /** The sample rate the rule assumes: 48 samples per millisecond. */
  const SamplesPerMs: real := 48.0

  /** How long a buffer of frameCount frames plays (samplesMs). */
  function SamplesMs(frameCount: nat): real
  {
    frameCount as real / SamplesPerMs
  }

  /** The result of one callback's bookkeeping: what to skip, and the new accumulated drift. */
  datatype DriftOutcome = DriftOutcome(msToSkip: real, timeDeltaMs: real)

  /**
   * One callback. The threshold is checked against the drift accumulated
   * before this period; a skip leaves exactly one period of drift, to which
   * this period's lateness is then added.
   */
  function DriftStep(timeDeltaMs: real, samplesMs: real, actualMs: real): (o: DriftOutcome)
    requires samplesMs >= 0.0
    ensures o.msToSkip >= 0.0
    ensures o.msToSkip > 0.0 <==> timeDeltaMs > 3.0 * samplesMs
    ensures o.msToSkip > 0.0 ==> o.msToSkip > 2.0 * samplesMs && o.msToSkip == timeDeltaMs - samplesMs
    ensures o.msToSkip > 0.0 ==> o.timeDeltaMs == actualMs
    ensures o.msToSkip == 0.0 ==> o.timeDeltaMs == timeDeltaMs + actualMs - samplesMs
    ensures o.timeDeltaMs <= 2.0 * samplesMs + actualMs
    ensures o.timeDeltaMs + o.msToSkip == timeDeltaMs + (actualMs - samplesMs)
  {
    var skip := if timeDeltaMs > samplesMs * 3.0 then timeDeltaMs - samplesMs else 0.0;
    DriftOutcome(skip, timeDeltaMs - skip + (actualMs - samplesMs))
  }

  /** One callback period: the buffer's length and the time that really passed. */
  datatype Period = Period(samplesMs: real, actualMs: real)

  ghost predicate WellFormed(ps: seq<Period>)
  {
    forall i :: 0 <= i < |ps| ==> ps[i].samplesMs >= 0.0
  }

  /** A run of callbacks: the total skipped and the final drift. */
  function Replay(timeDeltaMs: real, ps: seq<Period>): DriftOutcome
    requires WellFormed(ps)
    decreases ps
  {
    if ps == [] then DriftOutcome(0.0, timeDeltaMs)
    else
      var o := DriftStep(timeDeltaMs, ps[0].samplesMs, ps[0].actualMs);
      var rest := Replay(o.timeDeltaMs, ps[1..]);
      DriftOutcome(o.msToSkip + rest.msToSkip, rest.timeDeltaMs)
  }

  /** The net lateness of a run of callbacks. */
  function Lateness(ps: seq<Period>): real
  {
    if ps == [] then 0.0 else (ps[0].actualMs - ps[0].samplesMs) + Lateness(ps[1..])
  }

  /** No drift is lost: every millisecond of lateness is either skipped or still pending. */
  lemma {:induction false} ReplayConserves(timeDeltaMs: real, ps: seq<Period>)
    requires WellFormed(ps)
    ensures Replay(timeDeltaMs, ps).msToSkip + Replay(timeDeltaMs, ps).timeDeltaMs == timeDeltaMs + Lateness(ps)
    ensures Replay(timeDeltaMs, ps).msToSkip >= 0.0
    decreases ps
  {
    if ps != [] {
      var o := DriftStep(timeDeltaMs, ps[0].samplesMs, ps[0].actualMs);
      ReplayConserves(o.timeDeltaMs, ps[1..]);
    }
  }

  /**
   * The drift stays bounded: after any nonempty run of callbacks whose
   * periods are at most maxSamplesMs long and which come at most maxActualMs
   * apart, the drift is at most 2 * maxSamplesMs + maxActualMs.
   */
  lemma {:induction false} ReplayBounded(timeDeltaMs: real, ps: seq<Period>, maxSamplesMs: real, maxActualMs: real)
    requires WellFormed(ps) && ps != []
    requires forall i :: 0 <= i < |ps| ==> ps[i].samplesMs <= maxSamplesMs && ps[i].actualMs <= maxActualMs
    ensures Replay(timeDeltaMs, ps).timeDeltaMs <= 2.0 * maxSamplesMs + maxActualMs
    decreases ps
  {
    var o := DriftStep(timeDeltaMs, ps[0].samplesMs, ps[0].actualMs);
    if |ps| > 1 {
      ReplayBounded(o.timeDeltaMs, ps[1..], maxSamplesMs, maxActualMs);
    }
  }

  /** The two globals the callback updates: accumulated drift and the previous callback's time. */
  class CallbackClock {
    /** timeDeltaMs */
    var timeDeltaMs: real
    /** prevTime, in seconds of stream time */
    var prevTime: real

    constructor ()
      ensures timeDeltaMs == 0.0 && prevTime == 0.0
    {
      timeDeltaMs := 0.0;
      prevTime := 0.0;
    }

    /** What a callback at stream time currentTime for frameCount frames would do now. */
    function Next(currentTime: real, frameCount: nat): DriftOutcome
      reads this
    {
      DriftStep(timeDeltaMs, SamplesMs(frameCount), (currentTime - prevTime) * 1000.0)
    }

    /** The drift bookkeeping of one callback at stream time currentTime; returns msToSkip. */
    method Tick(currentTime: real, frameCount: nat) returns (msToSkip: real)
      modifies this
      ensures DriftOutcome(msToSkip, timeDeltaMs)
        == DriftStep(old(timeDeltaMs), SamplesMs(frameCount), (currentTime - old(prevTime)) * 1000.0)
      ensures prevTime == currentTime
    {
      var samplesMs := SamplesMs(frameCount);
      var actualMs := (currentTime - prevTime) * 1000.0;
      msToSkip := 0.0;
      if timeDeltaMs > samplesMs * 3.0 {
        msToSkip := timeDeltaMs - samplesMs;
        timeDeltaMs := timeDeltaMs - msToSkip;
      }
      timeDeltaMs := timeDeltaMs + (actualMs - samplesMs);
      prevTime := currentTime;
    }
  }
}
