/** The frame-rate window counter of `framerate` (display.cpp, lines
    109-128): two static integers, the start of the current window `t0`
    (-1 until the first call) and the number of `frames` drawn in it. Every
    call counts one frame; once the window has lasted 5 seconds the counts
    are reported and a new window starts at the current time.

    The current time (whole seconds from `current_time`) is a parameter; the
    report carries the frame count and window length that the source prints,
    without the floating-point frames-per-second quotient. */
module FrameRate {
  import opened Wrappers

  /** Length of a counting window, in seconds. */
  const WINDOW_SECONDS: int := 5

  /** The two static counters. */
  datatype Counter = Counter(t0: int, frames: int)

  /** Their values before the first call. */
  const INITIAL: Counter := Counter(-1, 0)

  /** What a window reset prints: frames counted and seconds elapsed. */
  datatype Report = Report(frames: int, seconds: int)

  /** Start of the window a call at time `t` measures against: a counter
      that was never started (negative `t0`) starts at `t`. */
  function WindowStart(c: Counter, t: int): int
  {
    if c.t0 < 0 then t else c.t0
  }

  /** Whether a call at time `t` closes the window. */
  predicate Resets(c: Counter, t: int)
  {
    t - WindowStart(c, t) >= WINDOW_SECONDS
  }

  /** One call of `framerate` at time `t`: the new counters, and the report
      printed when the window closes. */
  function Step(c: Counter, t: int): (r: (Counter, Option<Report>))
    ensures r.1.Some? <==> Resets(c, t)
    ensures Resets(c, t) ==> r.0 == Counter(t, 0)
    ensures !Resets(c, t) ==> r.0 == Counter(WindowStart(c, t), c.frames + 1)
    ensures r.1.Some? ==> r.1.value.seconds >= WINDOW_SECONDS && r.1.value.frames == c.frames + 1
    ensures r.1.Some? ==> r.1.value.seconds == t - WindowStart(c, t)
  {
    var t0 := WindowStart(c, t);
    var frames := c.frames + 1;
    if t - t0 >= WINDOW_SECONDS then (Counter(t, 0), Some(Report(frames, t - t0)))
    else (Counter(t0, frames), None)
  }

  /** The counters after a run of calls at the times `ts`, from the start. */
  function Run(ts: seq<int>): Counter
  {
    if |ts| == 0 then INITIAL else Step(Run(ts[..|ts| - 1]), ts[|ts| - 1]).0
  }

  /** Whether the call at index `i` of the run `ts` closed the window. */
  predicate ResetAt(ts: seq<int>, i: nat)
    requires i < |ts|
  {
    Resets(Run(ts[..i]), ts[i])
  }

  /** Index of the last call of the run that closed the window, if any. */
  function LastReset(ts: seq<int>): (r: Option<nat>)
    ensures r.Some? ==> r.value < |ts| && ResetAt(ts, r.value)
    ensures r.Some? ==> forall j :: r.value < j < |ts| ==> !ResetAt(ts, j)
    ensures r.None? ==> forall j :: 0 <= j < |ts| ==> !ResetAt(ts, j)
  {
    if |ts| == 0 then None
    else if ResetAt(ts, |ts| - 1) then Some(|ts| - 1)
    else
      var prefix := ts[..|ts| - 1];
      PrefixResets(ts, |ts| - 1);
      LastReset(prefix)
  }

  /** Whether the call at index `i` reset depends only on the calls up to
      it, so it reads the same in any longer run. */
  lemma PrefixResets(ts: seq<int>, n: nat)
    requires n <= |ts|
    ensures forall i :: 0 <= i < n ==> (ResetAt(ts[..n], i) <==> ResetAt(ts, i))
  {
    forall i | 0 <= i < n
      ensures ResetAt(ts[..n], i) <==> ResetAt(ts, i)
    {
      assert ts[..n][..i] == ts[..i];
    }
  }

  // ---------------------------------------------------------------------
  // Properties
  // ---------------------------------------------------------------------

  /** The first call opens the window at its own time and counts itself. */
  lemma FirstCall(t: int)
    ensures Run([t]) == Counter(t, 1) && !ResetAt([t], 0)
  {
    assert [t][..0] == [];
  }

  /** `frames` counts exactly the calls made since the last reset (all of
      them when there was none). */
  lemma {:induction false} FramesSinceLastReset(ts: seq<int>)
    ensures Run(ts).frames == |ts| - (match LastReset(ts) case None => 0 case Some(k) => k + 1)
  {
    if |ts| > 0 {
      var prefix := ts[..|ts| - 1];
      FramesSinceLastReset(prefix);
      if !ResetAt(ts, |ts| - 1) {
        PrefixResets(ts, |ts| - 1);
        assert LastReset(ts) == LastReset(prefix);
      }
    }
  }

  /** Times that never go backwards. */
  ghost predicate NonDecreasing(ts: seq<int>)
  {
    forall i, j :: 0 <= i <= j < |ts| ==> ts[i] <= ts[j]
  }

  /** With a clock that never goes backwards the window, measured at the
      latest call, has lasted under 5 seconds: a window that reaches 5 seconds
      is closed by that same call. */
  lemma {:induction false} WindowStaysShort(ts: seq<int>)
    requires |ts| > 0 && NonDecreasing(ts)
    ensures 0 <= ts[|ts| - 1] - Run(ts).t0 < WINDOW_SECONDS
  {
    var prefix := ts[..|ts| - 1];
    if |prefix| > 0 {
      assert NonDecreasing(prefix);
      WindowStaysShort(prefix);
      assert prefix[|prefix| - 1] <= ts[|ts| - 1];
    }
  }

  /** The counters as the static variables of `framerate`. */
  class FrameCounter {
    var t0: int
    var frames: int

    /** The two counters as a `Counter`. */
    function Value(): Counter
      reads this
    {
      Counter(t0, frames)
    }

    constructor ()
      ensures Value() == INITIAL
    {
      t0 := -1;
      frames := 0;
    }

    /** `framerate` called at time `t`. */
    method Tick(t: int) returns (report: Option<Report>)
      modifies this
      ensures (Value(), report) == Step(old(Value()), t)
    {
      if t0 < 0 {
        t0 := t;
      }
      frames := frames + 1;
      if t - t0 >= WINDOW_SECONDS {
        report := Some(Report(frames, t - t0));
        t0 := t;
        frames := 0;
      } else {
        report := None;
      }
    }
  }
}
