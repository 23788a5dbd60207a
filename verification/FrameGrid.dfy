/** Frame pacing: `on_frame_grid` of main/task/task_video.cpp.  Times are microseconds. */
module FrameGrid {

  /** The interval for a target rate, VIDEO_FRAME_INTERVAL_US. */
  function IntervalUs(fps: int): int
    requires fps > 0
  {
    1000000 / fps
  }

  /** It is the longest interval that does not fall behind the rate, in whole microseconds. */
  lemma IntervalIsLongest(fps: int, interval: int)
    requires fps > 0
    ensures interval == IntervalUs(fps) <==> interval * fps <= 1000000 < (interval + 1) * fps
  {
    var q := IntervalUs(fps);
    assert q * fps <= 1000000 < (q + 1) * fps;
    if interval < q {
      assert (interval + 1) * fps <= q * fps;
    } else if interval > q {
      assert (q + 1) * fps <= interval * fps;
    }
  }

  /** One decision: whether a frame at `now` is on the grid, and the next grid point. */
  function GridNext(next: int, interval: int, now: int): int {
    if now < next then next
    else if next + interval <= now then now + interval
    else next + interval
  }

  predicate Accepts(next: int, now: int) {
    now >= next
  }

  /** The grid was restarted from `now`, abandoning the old grid. */
  predicate Restarts(next: int, interval: int, now: int) {
    Accepts(next, now) && next + interval <= now
  }

  class Grid {
    const interval: int
    var nextUs: int

    constructor (interval: int)
      ensures this.interval == interval && nextUs == 0
    {
      this.interval, nextUs := interval, 0;
    }

    method OnFrameGrid(now: int) returns (accept: bool)
      modifies this
      ensures accept <==> Accepts(old(nextUs), now)
      ensures nextUs == GridNext(old(nextUs), interval, now)
      ensures accept && interval > 0 ==> now < nextUs <= now + interval
      ensures accept && now >= old(nextUs) + interval ==> nextUs == now + interval
    {
      if now < nextUs {
        return false;
      }
      nextUs := nextUs + interval;
      if nextUs <= now {
        nextUs := now + interval;
      }
      return true;
    }
  }

  /** The grid point after a whole run of timestamps. */
  function GridAfter(next: int, interval: int, times: seq<int>): int {
    if times == [] then next
    else GridNext(GridAfter(next, interval, times[..|times| - 1]), interval, times[|times| - 1])
  }

  /** The timestamps that were accepted, in order. */
  function Accepted(next: int, interval: int, times: seq<int>): seq<int> {
    if times == [] then []
    else
      var before, now := times[..|times| - 1], times[|times| - 1];
      Accepted(next, interval, before) + if Accepts(GridAfter(next, interval, before), now) then [now] else []
  }

  // ----- bursts: any run of timestamps at all -----

  /** A whole number of intervals. */
  function Span(n: int, interval: int): int {
    n * interval
  }

  lemma SpanNext(n: int, interval: int)
    ensures Span(n + 1, interval) == Span(n, interval) + interval && Span(0, interval) == 0
  {
  }

  /** Where the grid stands after a run: ahead of the last accepted frame by at most one interval,
    * and ahead of every earlier one by an interval more for each frame since. */
  ghost predicate Ahead(next: int, interval: int, acc: seq<int>, g: int) {
    && (acc == [] ==> g == next)
    && (acc != [] ==> acc[|acc| - 1] < g <= acc[|acc| - 1] + interval)
    && (forall j :: 0 <= j < |acc| ==> g > acc[j] + Span(|acc| - 1 - j, interval))
    && (forall j, k :: 0 <= j < k < |acc| ==> acc[k] > acc[j] + Span(k - j - 1, interval))
  }

  lemma AheadNext(next: int, interval: int, acc: seq<int>, g: int, now: int, g': int)
    requires interval > 0 && Ahead(next, interval, acc, g)
    requires g <= now < g' <= now + interval && g + interval <= g'
    ensures Ahead(next, interval, acc + [now], g')
  {
    var acc' := acc + [now];
    hide Span;
    forall j | 0 <= j < |acc'|
      ensures g' > acc'[j] + Span(|acc'| - 1 - j, interval)
    {
      SpanNext(|acc| - 1 - j, interval);
      if j == |acc| {
        SpanNext(0, interval);
      }
    }
    forall j, k | 0 <= j < k < |acc'|
      ensures acc'[k] > acc'[j] + Span(k - j - 1, interval)
    {
      if k == |acc| {
        assert now >= g > acc[j] + Span(|acc| - 1 - j, interval);
      }
    }
  }

  lemma {:induction false} GridAdvances(next: int, interval: int, times: seq<int>)
    requires interval > 0
    ensures Ahead(next, interval, Accepted(next, interval, times), GridAfter(next, interval, times))
  {
    if times != [] {
      var before, now := times[..|times| - 1], times[|times| - 1];
      GridAdvances(next, interval, before);
      var g := GridAfter(next, interval, before);
      if Accepts(g, now) {
        AheadNext(next, interval, Accepted(next, interval, before), g, now, GridNext(g, interval, now));
      }
      hide Ahead;
      assert !Accepts(g, now) ==> Accepted(next, interval, times) == Accepted(next, interval, before);
    }
  }

  /** However irregular the timestamps, m + 1 consecutive accepted frames span more than (m - 1)
    * intervals: a stall never lets a burst through. */
  lemma NoBurst(next: int, interval: int, times: seq<int>, first: nat, m: nat)
    requires interval > 0 && m >= 1 && first + m < |Accepted(next, interval, times)|
    ensures var acc := Accepted(next, interval, times);
            acc[first + m] - acc[first] > (m - 1) * interval
  {
    GridAdvances(next, interval, times);
  }

  /** The bound is the best possible for every number of frames: a run that meets it to the
    * microsecond, one late frame followed by frames on the grid. */
  function TightRun(interval: int, m: nat): seq<int>
    requires m >= 1
  {
    [interval - 1] + seq(m, i requires 0 <= i < m => (i + 1) * interval)
  }

  lemma TightFrame(interval: int, m: nat, k: nat)
    requires m >= 1 && k <= m
    ensures |TightRun(interval, m)| == m + 1
    ensures TightRun(interval, m)[k] == if k == 0 then interval - 1 else Span(k, interval)
  {
  }

  /** One more frame, on the grid point it was due. */
  lemma OnTime(next: int, interval: int, times: seq<int>, now: int)
    requires interval > 0 && GridAfter(next, interval, times) <= now < GridAfter(next, interval, times) + interval
    ensures Accepted(next, interval, times + [now]) == Accepted(next, interval, times) + [now]
    ensures GridAfter(next, interval, times + [now]) == GridAfter(next, interval, times) + interval
  {
    assert (times + [now])[..|times|] == times;
  }

  lemma NoFrames(next: int, interval: int)
    ensures Accepted(next, interval, []) == [] && GridAfter(next, interval, []) == next
  {
  }

  lemma {:induction false} TightPrefix(interval: int, m: nat, k: nat)
    requires interval > 0 && m >= 1 && k <= m + 1 && |TightRun(interval, m)| == m + 1
    ensures Accepted(0, interval, TightRun(interval, m)[..k]) == TightRun(interval, m)[..k]
    ensures GridAfter(0, interval, TightRun(interval, m)[..k]) == Span(k, interval)
  {
    hide *;
    var run := TightRun(interval, m);
    if k == 0 {
      assert run[..0] == [];
      NoFrames(0, interval);
      SpanNext(0, interval);
    } else {
      TightPrefix(interval, m, k - 1);
      TightFrame(interval, m, k - 1);
      SpanNext(k - 1, interval);
      assert run[..k] == run[..k - 1] + [run[k - 1]];
      OnTime(0, interval, run[..k - 1], run[k - 1]);
    }
  }

  lemma NoBurstIsTight(interval: int, m: nat)
    requires interval > 0 && m >= 1
    ensures var acc := Accepted(0, interval, TightRun(interval, m));
            |acc| == m + 1 && acc[m] - acc[0] == (m - 1) * interval + 1
  {
    hide Accepted, TightRun;
    var run := TightRun(interval, m);
    TightFrame(interval, m, 0);
    TightFrame(interval, m, m);
    TightPrefix(interval, m, m + 1);
    assert run[..m + 1] == run;
    SpanNext(m - 1, interval);
  }

  // ----- the first frame, and frames after a stall -----

  /** Frames that are all rejected leave the grid where it is. */
  lemma {:induction false} RejectedMoveNothing(next: int, interval: int, times: seq<int>)
    requires Accepted(next, interval, times) == []
    ensures GridAfter(next, interval, times) == next
  {
    if times != [] {
      RejectedMoveNothing(next, interval, times[..|times| - 1]);
    }
  }

  /** A frame that comes a whole interval or more after its grid point - every first frame, and every
    * first frame after a stall - restarts the grid from itself: whatever is rejected in between, the
    * next frame to be accepted is the first that comes at least a whole interval later. */
  lemma {:induction false} RestartHoldsOff(next: int, interval: int, times: seq<int>, late: int, rejected: seq<int>, now: int)
    requires interval > 0 && late >= GridAfter(next, interval, times) + interval
    requires var grid := GridAfter(next, interval, times + [late]); Accepted(grid, interval, rejected) == []
    ensures var grid := GridAfter(next, interval, times + [late]);
            Accepts(GridAfter(grid, interval, rejected), now) <==> now >= late + interval
    ensures Accepted(next, interval, times + [late]) == Accepted(next, interval, times) + [late]
  {
    assert (times + [late])[..|times|] == times;
    RejectedMoveNothing(GridAfter(next, interval, times + [late]), interval, rejected);
  }

  /** Otherwise the grid goes on from its own point: the next frame to be accepted is the first that
    * comes at least an interval after that point, however late this one was. */
  lemma {:induction false} OnGridHoldsOff(next: int, interval: int, times: seq<int>, late: int, rejected: seq<int>, now: int)
    requires interval > 0
    requires GridAfter(next, interval, times) <= late < GridAfter(next, interval, times) + interval
    requires var grid := GridAfter(next, interval, times + [late]); Accepted(grid, interval, rejected) == []
    ensures var grid := GridAfter(next, interval, times + [late]);
            Accepts(GridAfter(grid, interval, rejected), now) <==> now >= GridAfter(next, interval, times) + interval
    ensures Accepted(next, interval, times + [late]) == Accepted(next, interval, times) + [late]
  {
    assert (times + [late])[..|times|] == times;
    RejectedMoveNothing(GridAfter(next, interval, times + [late]), interval, rejected);
  }

  // ----- drift: timestamps with bounded gaps -----

  /** Times move forward by at most `gap`. */
  ghost predicate Steady(times: seq<int>, gap: int) {
    forall i :: 0 < i < |times| ==> times[i - 1] <= times[i] <= times[i - 1] + gap
  }

  /** The state of pacing after a run whose first timestamp `t0` was accepted and set the grid
    * point to n0: how far the grid has got, and that the latest frame is less than one gap past
    * the grid point it was measured against. */
  ghost predicate OnGrid(n0: int, interval: int, gap: int, times: seq<int>) {
    var acc := Accepted(n0, interval, times);
    && GridAfter(n0, interval, times) == n0 + |acc| * interval
    && (forall k :: 0 <= k < |acc| ==> n0 + k * interval <= acc[k] < n0 + k * interval + gap)
    && (times != [] ==> times[|times| - 1] < n0 + |acc| * interval)
  }

  /** With gaps of at most g <= I after an accepted frame at t0, the later accepted frames 0, 1, ...
    * fall in [n0 + k I, n0 + k I + g): no drift accumulates. */
  lemma {:induction false} NoDrift(t0: int, n0: int, interval: int, gap: int, times: seq<int>)
    requires 0 < gap <= interval && t0 < n0 <= t0 + interval
    requires Steady([t0] + times, gap)
    ensures OnGrid(n0, interval, gap, times)
  {
    if times != [] {
      var before, now := times[..|times| - 1], times[|times| - 1];
      assert ([t0] + times)[..|times|] == [t0] + before;
      assert Steady([t0] + before, gap);
      NoDrift(t0, n0, interval, gap, before);
      var acc := Accepted(n0, interval, before);
      var last := if before == [] then t0 else before[|before| - 1];
      assert last == ([t0] + times)[|times| - 1] && now == ([t0] + times)[|times|];
      assert last <= now <= last + gap;
      assert last < n0 + |acc| * interval;
      if Accepts(GridAfter(n0, interval, before), now) {
        assert Accepted(n0, interval, times) == acc + [now];
        assert (|acc| + 1) * interval == |acc| * interval + interval;
      } else {
        assert Accepted(n0, interval, times) == acc;
      }
    }
  }

  /** The first accepted frame of a run sets up exactly what `NoDrift` asks for, and the grid is not
    * restarted at any later frame. */
  lemma NeverRestarts(next: int, interval: int, gap: int, t0: int, times: seq<int>, now: int)
    requires 0 < gap <= interval && Accepts(next, t0)
    requires Steady([t0] + times + [now], gap)
    ensures var n0 := GridNext(next, interval, t0);
            !Restarts(GridAfter(n0, interval, times), interval, now)
  {
    var n0 := GridNext(next, interval, t0);
    var all := [t0] + times + [now];
    assert ([t0] + times) == all[..|times| + 1];
    assert Steady([t0] + times, gap);
    NoDrift(t0, n0, interval, gap, times);
    assert all[|times|] <= all[|times| + 1] <= all[|times|] + gap;
    assert all[|times|] == if times == [] then t0 else times[|times| - 1];
  }

  /** The hypothesis on the gap is exact: for any longer gap some run does restart the grid. */
  lemma LongerGapCanRestart(t0: int, interval: int, gap: int)
    requires 0 < interval < gap
    ensures var times, now := [t0 + interval - 1], t0 + 2 * interval;
            && Steady([t0] + times + [now], gap)
            && Restarts(GridAfter(t0 + interval, interval, times), interval, now)
  {
    var times := [t0 + interval - 1];
    assert times[..0] == [];
    assert GridAfter(t0 + interval, interval, times) == t0 + interval;
  }

  // ----- the RTP clock -----

  const RTP_CLOCK := 90000

  /** At 12 frames a second the RTP step is exact, and k steps of it exceed k intervals by only k/3
    * microseconds. */
  lemma RtpDrift(k: nat)
    ensures RTP_CLOCK / 12 * 12 == RTP_CLOCK
    ensures (k * (RTP_CLOCK / 12)) as real * 1000000.0 / RTP_CLOCK as real - (k * IntervalUs(12)) as real
         == k as real / 3.0
  {
    assert RTP_CLOCK / 12 == 7500;
    assert IntervalUs(12) == 83333;
  }

  /** Together: at 12 frames a second, with no frame dropped later, the RTP time of a later accepted
    * frame stays within one sensor gap of its capture time, once the k/3 microseconds are allowed
    * for; both are counted from the first of them. */
  lemma PacingMatchesRtp(t0: int, n0: int, gap: int, times: seq<int>, k: nat)
    requires 0 < gap <= IntervalUs(12) && t0 < n0 <= t0 + IntervalUs(12)
    requires Steady([t0] + times, gap)
    requires k < |Accepted(n0, IntervalUs(12), times)|
    ensures var acc := Accepted(n0, IntervalUs(12), times);
            var capture := (acc[k] - acc[0]) as real;
            var rtp := (k * (RTP_CLOCK / 12)) as real * 1000000.0 / RTP_CLOCK as real;
            -(gap as real) < capture - rtp + k as real / 3.0 < gap as real
  {
    NoDrift(t0, n0, IntervalUs(12), gap, times);
    RtpDrift(k);
    var acc := Accepted(n0, IntervalUs(12), times);
    assert n0 <= acc[0] < n0 + gap;
    assert -gap < acc[k] - acc[0] - k * IntervalUs(12) < gap;
  }
}
