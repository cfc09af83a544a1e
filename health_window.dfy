/** The windowed stream-health statistics shared by the two monitors,
    film_scanner/frame_health_monitor.py and
    film_scanner/util/performance_monitor.py. Times are seconds as exact
    reals; both monitors compute the same metrics, classify them with the
    same thresholds and pick the same message cause. */
module HealthWindow {
  import BoundedQueue

  /** The least spacing between two recorded samples (60 per second). */
  const Debounce: real := 0.016
  const FrameCapacity: nat := 100
  const ErrorCapacity: nat := 20

  /** Strictly increasing timestamps. */
  predicate Increasing(ts: seq<real>) {
    forall i, j :: 0 <= i < j < |ts| ==> ts[i] < ts[j]
  }

  /** Non-decreasing, as `sorted` leaves a list. */
  predicate Sorted(ts: seq<real>) {
    forall i, j :: 0 <= i < j < |ts| ==> ts[i] <= ts[j]
  }

  lemma {:induction false} SuffixIncreasing(ts: seq<real>, k: nat)
    requires Increasing(ts) && k <= |ts|
    ensures Increasing(ts[k..])
  {
    forall i, j | 0 <= i < j < |ts[k..]| ensures ts[k..][i] < ts[k..][j] {
      assert ts[k..][i] == ts[k + i] && ts[k..][j] == ts[k + j];
    }
  }

  lemma {:induction false} AppendIncreasing(q: seq<real>, t: real)
    requires Increasing(q) && forall s :: s in q ==> s < t
    ensures Increasing(q + [t])
  {
    var r := q + [t];
    forall i, j | 0 <= i < j < |r| ensures r[i] < r[j] {
      assert r[i] == q[i];
      if j == |q| {
        assert q[i] in q;
      } else {
        assert r[j] == q[j];
      }
    }
  }

  /** A deque append of a time later than every stored one keeps the buffer
      increasing, and brings no other value in. */
  lemma {:induction false} PushKeepsIncreasing(q: seq<real>, cap: nat, t: real)
    requires 1 <= cap && |q| <= cap && Increasing(q)
    requires forall s :: s in q ==> s < t
    ensures Increasing(BoundedQueue.Push(q, cap, t))
    ensures forall s :: s in BoundedQueue.Push(q, cap, t) ==> s in q || s == t
  {
    AppendIncreasing(q, t);
    var r := BoundedQueue.Push(q, cap, t);
    if |q| >= cap {
      assert r == (q + [t])[1..];
      SuffixIncreasing(q + [t], 1);
      assert forall s :: s in r ==> s in q + [t];
    }
  }

  // ------------------------------------------------------------- the window

  /** `[t for t in times if t >= window_start]`, in order. */
  function InWindow(ts: seq<real>, start: real): (r: seq<real>)
    ensures |r| <= |ts|
    ensures forall t :: t in r <==> t in ts && t >= start
  {
    if ts == [] then []
    else
      assert forall t :: t in ts <==> t == ts[0] || t in ts[1..];
      (if ts[0] >= start then [ts[0]] else []) + InWindow(ts[1..], start)
  }

  /** `sum(1 for t in times if t >= window_start)`. */
  function CountInWindow(ts: seq<real>, start: real): (n: nat)
    ensures n == |InWindow(ts, start)|
  {
    if ts == [] then 0
    else (if ts[0] >= start then 1 else 0) + CountInWindow(ts[1..], start)
  }

  /** For increasing times the window is a suffix, all the samples from the
      first one inside it on, and so is itself increasing. */
  lemma {:induction false} WindowIsSuffix(ts: seq<real>, start: real)
    requires Increasing(ts)
    ensures exists k :: 0 <= k <= |ts| && InWindow(ts, start) == ts[k..]
    ensures Increasing(InWindow(ts, start))
    decreases |ts|
  {
    if ts == [] {
      assert InWindow(ts, start) == ts[0..];
    } else if ts[0] >= start {
      forall t | t in ts ensures t >= start {
        var k :| 0 <= k < |ts| && ts[k] == t;
        assert ts[0] <= ts[k];
      }
      WindowIsSuffixAll(ts, start);
      assert InWindow(ts, start) == ts[0..];
    } else {
      SuffixIncreasing(ts, 1);
      WindowIsSuffix(ts[1..], start);
      var k :| 0 <= k <= |ts[1..]| && InWindow(ts[1..], start) == ts[1..][k..];
      assert ts[1..][k..] == ts[k + 1..];
      assert InWindow(ts, start) == [] + ts[k + 1..];
      SuffixIncreasing(ts, k + 1);
    }
  }

  /** A window that contains every sample keeps them all. */
  lemma {:induction false} WindowIsSuffixAll(ts: seq<real>, start: real)
    requires forall t :: t in ts ==> t >= start
    ensures InWindow(ts, start) == ts
    decreases |ts|
  {
    if ts != [] {
      assert forall t :: t in ts[1..] ==> t in ts;
      assert ts[0] in ts;
      WindowIsSuffixAll(ts[1..], start);
      assert InWindow(ts, start) == [ts[0]] + InWindow(ts[1..], start);
      assert [ts[0]] + ts[1..] == ts;
    }
  }

  // ------------------------------------------------------------- sorting

  lemma {:induction false} SortedTail(ts: seq<real>)
    requires ts != [] && Sorted(ts)
    ensures Sorted(ts[1..]) && forall t :: t in ts[1..] ==> ts[0] <= t
  {
    forall i, j | 0 <= i < j < |ts[1..]| ensures ts[1..][i] <= ts[1..][j] {
      assert ts[1..][i] == ts[i + 1] && ts[1..][j] == ts[j + 1];
    }
    forall t | t in ts[1..] ensures ts[0] <= t {
      var k :| 0 <= k < |ts[1..]| && ts[1..][k] == t;
      assert ts[1..][k] == ts[k + 1];
    }
  }

  lemma {:induction false} PrependSorted(x: real, ts: seq<real>)
    requires Sorted(ts) && forall t :: t in ts ==> x <= t
    ensures Sorted([x] + ts)
  {
    var r := [x] + ts;
    forall i, j | 0 <= i < j < |r| ensures r[i] <= r[j] {
      assert r[j] == ts[j - 1];
      if i == 0 {
        assert ts[j - 1] in ts;
      } else {
        assert r[i] == ts[i - 1];
      }
    }
  }

  function Insert(t: real, ts: seq<real>): (r: seq<real>)
    ensures multiset(r) == multiset(ts) + multiset{t}
    ensures Sorted(ts) ==> Sorted(r)
  {
    if ts == [] || t <= ts[0] then
      assert Sorted(ts) ==> Sorted([t] + ts) by {
        if Sorted(ts) && ts != [] {
          SortedTail(ts);
          assert forall s :: s in ts ==> s == ts[0] || s in ts[1..];
          PrependSorted(t, ts);
        } else if ts == [] {
          PrependSorted(t, ts);
        }
      }
      [t] + ts
    else
      var rest := Insert(t, ts[1..]);
      assert ts == [ts[0]] + ts[1..];
      assert Sorted(ts) ==> Sorted([ts[0]] + rest) by {
        if Sorted(ts) {
          SortedTail(ts);
          forall s | s in rest ensures ts[0] <= s {
            assert s in multiset(rest);
            assert s in ts[1..] || s == t;
          }
          PrependSorted(ts[0], rest);
        }
      }
      [ts[0]] + rest
  }

  /** `sorted(...)`: an insertion sort, a permutation of its input in order. */
  function Sort(ts: seq<real>): (r: seq<real>)
    ensures multiset(r) == multiset(ts) && Sorted(r)
  {
    if ts == [] then []
    else
      assert ts == [ts[0]] + ts[1..];
      Insert(ts[0], Sort(ts[1..]))
  }

  /** Sorting a sorted list changes nothing. */
  lemma {:induction false} SortSorted(ts: seq<real>)
    requires Sorted(ts)
    ensures Sort(ts) == ts
    decreases |ts|
  {
    if ts != [] {
      SortedTail(ts);
      SortSorted(ts[1..]);
      assert Sort(ts) == Insert(ts[0], ts[1..]);
      if ts[1..] != [] {
        assert ts[1..][0] in ts[1..];
      }
      assert Insert(ts[0], ts[1..]) == [ts[0]] + ts[1..];
      assert [ts[0]] + ts[1..] == ts;
    }
  }

  // ------------------------------------------------------------- the metrics

  /** The time between sample i - 1 and sample i. */
  function Gap(ts: seq<real>, i: nat): real
    requires 1 <= i < |ts|
  {
    ts[i] - ts[i - 1]
  }

  /** The largest difference between neighbours, or 0 with fewer than two. */
  function MaxGap(ts: seq<real>): (r: real)
    ensures |ts| < 2 ==> r == 0.0
    ensures forall i :: 1 <= i < |ts| ==> Gap(ts, i) <= r
    ensures |ts| >= 2 ==> exists i :: 1 <= i < |ts| && r == Gap(ts, i)
    ensures Sorted(ts) ==> r >= 0.0
  {
    if |ts| < 2 then 0.0
    else if |ts| == 2 then Gap(ts, 1)
    else
      var rest := MaxGap(ts[1..]);
      assert forall i :: 2 <= i < |ts| ==> Gap(ts, i) == Gap(ts[1..], i - 1);
      var k :| 1 <= k < |ts[1..]| && rest == Gap(ts[1..], k);
      assert rest == Gap(ts, k + 1);
      assert Sorted(ts) ==> Gap(ts, 1) >= 0.0;
      if ts[1] - ts[0] >= rest then ts[1] - ts[0] else rest
  }

  datatype Status = Ok | Warning | Critical

  /** The result of `get_health_status`. */
  datatype Health = Health(status: Status, fps: real, errorRate: real, maxGap: real)

  /** The warning and critical bounds on fps (below), error rate and gap (above). */
  datatype Thresholds = Thresholds(fpsWarning: real, fpsCritical: real, errorRateWarning: real,
                                   errorRateCritical: real, gapWarning: real, gapCritical: real)

  /** 10 / 0.2 / 0.5 for warning, 5 / 0.5 / 1.0 for critical. */
  const DefaultThresholds: Thresholds := Thresholds(10.0, 5.0, 0.2, 0.5, 0.5, 1.0)

  predicate IsCritical(fps: real, errorRate: real, gap: real, th: Thresholds) {
    fps < th.fpsCritical || errorRate > th.errorRateCritical || gap > th.gapCritical
  }

  predicate IsDegraded(fps: real, errorRate: real, gap: real, th: Thresholds) {
    fps < th.fpsWarning || errorRate > th.errorRateWarning || gap > th.gapWarning
  }

  /** Start from ok, raise to warning, then to critical: critical wins. */
  function Classify(fps: real, errorRate: real, gap: real, th: Thresholds): (s: Status)
    ensures s == Critical <==> IsCritical(fps, errorRate, gap, th)
    ensures s == Warning <==> !IsCritical(fps, errorRate, gap, th) && IsDegraded(fps, errorRate, gap, th)
    ensures s == Ok <==> !IsCritical(fps, errorRate, gap, th) && !IsDegraded(fps, errorRate, gap, th)
  {
    var status := if IsDegraded(fps, errorRate, gap, th) then Warning else Ok;
    if IsCritical(fps, errorRate, gap, th) then Critical else status
  }

  /** `current_time - window_size`: the oldest time the window still counts. */
  function WindowStart(now: real, windowSize: nat): real {
    now - windowSize as real
  }

  /** `get_health_status` over the stored frame and error times, at `now`. */
  function Measure(frameTimes: seq<real>, errorTimes: seq<real>, now: real, windowSize: nat, th: Thresholds): (h: Health)
    requires windowSize > 0
    ensures var frames := InWindow(frameTimes, WindowStart(now, windowSize));
      && h.fps == |frames| as real / windowSize as real
      && h.errorRate == (if frames == [] then 0.0 else |InWindow(errorTimes, WindowStart(now, windowSize))| as real / |frames| as real)
      && h.maxGap == MaxGap(Sort(frames))
    ensures h.status == Classify(h.fps, h.errorRate, h.maxGap, th)
  {
    var start := WindowStart(now, windowSize);
    var framesInWindow := CountInWindow(frameTimes, start);
    var errorsInWindow := CountInWindow(errorTimes, start);
    var fps := if framesInWindow > 0 then framesInWindow as real / windowSize as real else 0.0;
    var errorRate := if framesInWindow > 0 then errorsInWindow as real / framesInWindow as real else 0.0;
    var sortedTimes := Sort(InWindow(frameTimes, start));
    var maxGap := if |sortedTimes| >= 2 then MaxGap(sortedTimes) else 0.0;
    assert framesInWindow == 0 ==> fps == 0.0 / windowSize as real;
    Health(Classify(fps, errorRate, maxGap, th), fps, errorRate, maxGap)
  }

  /** The metrics are never negative, and the error rate is a fraction of
      the frames whenever there are at least as many frames as errors in
      the window. */
  lemma {:induction false} MetricsNonNegative(frameTimes: seq<real>, errorTimes: seq<real>, now: real, windowSize: nat, th: Thresholds)
    requires windowSize > 0
    ensures var h := Measure(frameTimes, errorTimes, now, windowSize, th);
      h.fps >= 0.0 && h.errorRate >= 0.0 && h.maxGap >= 0.0
  {
    var start := WindowStart(now, windowSize);
    var frames := InWindow(frameTimes, start);
    NonNegativeRatio(|frames| as real, windowSize as real);
    if frames != [] {
      NonNegativeRatio(|InWindow(errorTimes, start)| as real, |frames| as real);
    }
  }

  lemma {:induction false} NonNegativeRatio(a: real, b: real)
    requires a >= 0.0 && b > 0.0
    ensures a / b >= 0.0
  {
  }

  /** For increasing frame times the sort in `get_health_status` is the
      identity: the gap is taken over the window as stored. */
  lemma {:induction false} SortIsIdentityOnWindow(frameTimes: seq<real>, start: real)
    requires Increasing(frameTimes)
    ensures Sort(InWindow(frameTimes, start)) == InWindow(frameTimes, start)
  {
    var window := InWindow(frameTimes, start);
    WindowIsSuffix(frameTimes, start);
    assert Sorted(window) by {
      forall i, j | 0 <= i < j < |window| ensures window[i] <= window[j] {
        assert window[i] < window[j];
      }
    }
    SortSorted(window);
  }

  // ------------------------------------------------------------- the message

  /** What the message names, with the number it shows (fps, error rate in
      percent, gap in seconds). */
  datatype Cause = LowFrameRate(fps: real) | HighErrorRate(percent: real) | FrameGaps(gap: real) | PerformanceIssues

  /** `get_status_message`: the empty string, or a prefix and a cause. */
  datatype Report = Silent | Report(prefix: string, cause: Cause)

  /** The message for a health result: nothing when ok; otherwise
      `Warning:`/`Critical:` and the first cause that meets a critical
      threshold, in the order fps, error rate, gap. */
  function StatusReport(h: Health, th: Thresholds): (r: Report)
    ensures r == Silent <==> h.status == Ok
    ensures r.Report? ==> r.prefix == (if h.status == Warning then "Warning:" else "Critical:")
    ensures r.Report? ==>
      && (r.cause.LowFrameRate? <==> h.fps < th.fpsCritical)
      && (r.cause.HighErrorRate? <==> !(h.fps < th.fpsCritical) && h.errorRate > th.errorRateCritical)
      && (r.cause.FrameGaps? <==> !(h.fps < th.fpsCritical) && !(h.errorRate > th.errorRateCritical) && h.maxGap > th.gapCritical)
  {
    if h.status == Ok then Silent
    else
      var prefix := if h.status == Warning then "Warning:" else "Critical:";
      var cause :=
        if h.fps < th.fpsCritical then LowFrameRate(h.fps)
        else if h.errorRate > th.errorRateCritical then HighErrorRate(h.errorRate * 100.0)
        else if h.maxGap > th.gapCritical then FrameGaps(h.maxGap)
        else PerformanceIssues;
      Report(prefix, cause)
  }

  /** Because causes are chosen by the critical thresholds, a warning never
      names its cause: it is always the generic text. A critical status
      always names one. */
  lemma {:induction false} WarningsAreGeneric(frameTimes: seq<real>, errorTimes: seq<real>, now: real, windowSize: nat)
    requires windowSize > 0
    ensures var h := Measure(frameTimes, errorTimes, now, windowSize, DefaultThresholds);
      h.status == Warning ==> StatusReport(h, DefaultThresholds) == Report("Warning:", PerformanceIssues)
    ensures var h := Measure(frameTimes, errorTimes, now, windowSize, DefaultThresholds);
      h.status == Critical ==> !StatusReport(h, DefaultThresholds).cause.PerformanceIssues?
  {
  }

  /** An empty window is critical and reports the frame rate: no frames in
      the window means zero fps. */
  lemma {:induction false} EmptyWindowIsCritical(frameTimes: seq<real>, errorTimes: seq<real>, now: real, windowSize: nat)
    requires windowSize > 0
    requires forall t :: t in frameTimes ==> t < WindowStart(now, windowSize)
    ensures Measure(frameTimes, errorTimes, now, windowSize, DefaultThresholds).status == Critical
    ensures StatusReport(Measure(frameTimes, errorTimes, now, windowSize, DefaultThresholds), DefaultThresholds)
         == Report("Critical:", LowFrameRate(0.0))
  {
    var start := WindowStart(now, windowSize);
    WindowEmpty(frameTimes, start);
    var h := Measure(frameTimes, errorTimes, now, windowSize, DefaultThresholds);
    assert h.fps == 0.0 by {
      assert |InWindow(frameTimes, start)| as real == 0.0;
    }
  }

  /** A window that every sample precedes is empty. */
  lemma {:induction false} WindowEmpty(ts: seq<real>, start: real)
    requires forall t :: t in ts ==> t < start
    ensures InWindow(ts, start) == []
    decreases |ts|
  {
    if ts != [] {
      assert ts[0] in ts;
      assert forall t :: t in ts[1..] ==> t in ts;
      WindowEmpty(ts[1..], start);
    }
  }

  // ------------------------------------------------------------- summary statistics

  function Sum(ts: seq<real>): real {
    if ts == [] then 0.0 else ts[0] + Sum(ts[1..])
  }

  /** `sum(times) / len(times)`. */
  function Mean(ts: seq<real>): real
    requires ts != []
  {
    Sum(ts) / |ts| as real
  }

  function Min(ts: seq<real>): (m: real)
    requires ts != []
    ensures m in ts && forall t :: t in ts ==> m <= t
  {
    if |ts| == 1 then ts[0]
    else
      var rest := Min(ts[1..]);
      assert forall t :: t in ts ==> t == ts[0] || t in ts[1..];
      if ts[0] <= rest then ts[0] else rest
  }

  function Max(ts: seq<real>): (m: real)
    requires ts != []
    ensures m in ts && forall t :: t in ts ==> t <= m
  {
    if |ts| == 1 then ts[0]
    else
      var rest := Max(ts[1..]);
      assert forall t :: t in ts ==> t == ts[0] || t in ts[1..];
      if ts[0] >= rest then ts[0] else rest
  }

  /** The sum lies between |ts| times the least and |ts| times the greatest. */
  lemma {:induction false} SumBounds(ts: seq<real>, lo: real, hi: real)
    requires forall t :: t in ts ==> lo <= t <= hi
    ensures |ts| as real * lo <= Sum(ts) <= |ts| as real * hi
    decreases |ts|
  {
    if ts != [] {
      assert forall t :: t in ts[1..] ==> t in ts;
      assert ts[0] in ts;
      SumBounds(ts[1..], lo, hi);
      var n := (|ts| - 1) as real;
      assert |ts| as real * lo == n * lo + lo;
      assert |ts| as real * hi == n * hi + hi;
    }
  }

  lemma {:induction false} ScaleBelow(a: real, b: real, n: real)
    requires n > 0.0 && n * a <= b
    ensures a <= b / n
  {
    var q := b / n;
    assert n * q == b;
    assert n * (q - a) >= 0.0;
  }

  lemma {:induction false} ScaleAbove(a: real, b: real, n: real)
    requires n > 0.0 && b <= n * a
    ensures b / n <= a
  {
    var q := b / n;
    assert n * q == b;
    assert n * (a - q) >= 0.0;
  }

  /** The mean lies between the minimum and the maximum. */
  lemma {:induction false} MeanBetweenMinAndMax(ts: seq<real>)
    requires ts != []
    ensures Min(ts) <= Mean(ts) <= Max(ts)
  {
    SumBounds(ts, Min(ts), Max(ts));
    ScaleBelow(Min(ts), Sum(ts), |ts| as real);
    ScaleAbove(Max(ts), Sum(ts), |ts| as real);
  }

  // ------------------------------------------------------------- the recorded samples

  /** Every stored error time is also a stored frame time, unless the frame
      buffer is full and has already moved past it: an error is only ever
      recorded together with its frame, and the frame buffer is the larger. */
  ghost predicate ErrorsCovered(frames: seq<real>, errors: seq<real>) {
    forall e :: e in errors ==> e in frames || (|frames| == FrameCapacity && e < frames[0])
  }

  /** Consecutive recorded frames are at least the debounce interval apart. */
  predicate Spaced(ts: seq<real>) {
    forall i :: 1 <= i < |ts| ==> Gap(ts, i) >= Debounce
  }

  /** What both monitors keep true of their frame and error buffers and of
      the time of the last accepted frame. */
  ghost predicate Samples(frames: seq<real>, errors: seq<real>, last: real) {
    && |frames| <= FrameCapacity && |errors| <= ErrorCapacity
    && Increasing(frames) && Increasing(errors) && Spaced(frames)
    && (forall t :: t in frames ==> t <= last)
    && (forall t :: t in errors ==> t <= last)
    && ErrorsCovered(frames, errors)
  }

  /** Whether `record_frame` at `now` records anything. */
  predicate Accepts(last: real, now: real) {
    now - last >= Debounce
  }

  /** The frame buffer after an accepted frame. */
  function RecordedFrames(frames: seq<real>, now: real): seq<real>
    requires |frames| <= FrameCapacity
  {
    BoundedQueue.Push(frames, FrameCapacity, now)
  }

  /** The error buffer after an accepted frame. */
  function RecordedErrors(errors: seq<real>, now: real, hadError: bool): seq<real>
    requires |errors| <= ErrorCapacity
  {
    if hadError then BoundedQueue.Push(errors, ErrorCapacity, now) else errors
  }

  /** An accepted frame keeps the buffers increasing, spaced, within their
      capacities and consistent with each other. */
  lemma {:induction false} RecordKeepsSamples(frames: seq<real>, errors: seq<real>, last: real, now: real, hadError: bool)
    requires Samples(frames, errors, last) && Accepts(last, now)
    ensures Samples(RecordedFrames(frames, now), RecordedErrors(errors, now, hadError), now)
  {
    var frames' := RecordedFrames(frames, now);
    var errors' := RecordedErrors(errors, now, hadError);
    PushKeepsIncreasing(frames, FrameCapacity, now);
    if hadError {
      PushKeepsIncreasing(errors, ErrorCapacity, now);
    }
    PushKeepsSpaced(frames, last, now);
    forall e | e in errors' ensures e in frames' || (|frames'| == FrameCapacity && e < frames'[0]) {
      if e != now {
        EvictionKeepsCovered(frames, now, e);
      }
    }
  }

  lemma {:induction false} PushKeepsSpaced(frames: seq<real>, last: real, now: real)
    requires |frames| <= FrameCapacity && Spaced(frames) && (forall t :: t in frames ==> t <= last)
    requires Accepts(last, now)
    ensures Spaced(RecordedFrames(frames, now))
  {
    var r := RecordedFrames(frames, now);
    var grown := frames + [now];
    forall i | 1 <= i < |grown| ensures Gap(grown, i) >= Debounce {
      if i == |frames| {
        assert frames[i - 1] in frames;
      } else {
        assert Gap(grown, i) == Gap(frames, i);
      }
    }
    if |frames| == FrameCapacity {
      forall i | 1 <= i < |r| ensures Gap(r, i) >= Debounce {
        assert Gap(r, i) == Gap(grown, i + 1);
      }
    }
  }

  /** A stored time that was covered before a push is still covered after it:
      if the push evicted it, the buffer is full and starts later. */
  lemma {:induction false} EvictionKeepsCovered(frames: seq<real>, now: real, e: real)
    requires |frames| <= FrameCapacity && Increasing(frames)
    requires e in frames || (|frames| == FrameCapacity && e < frames[0])
    ensures var r := RecordedFrames(frames, now);
      e in r || (|r| == FrameCapacity && e < r[0])
  {
    var r := RecordedFrames(frames, now);
    if |frames| == FrameCapacity {
      assert r == frames[1..] + [now];
      assert r[0] == frames[1];
      if e in frames && e !in r {
        assert e !in frames[1..];
        assert forall t :: t in frames ==> t == frames[0] || t in frames[1..];
        assert e == frames[0];
      }
    } else {
      assert r == frames + [now];
    }
  }

  /** The error rate never exceeds one: there are never more errors than
      frames in the window. */
  lemma {:induction false} ErrorRateAtMostOne(frames: seq<real>, errors: seq<real>, last: real, now: real, windowSize: nat, th: Thresholds)
    requires windowSize > 0 && Samples(frames, errors, last)
    ensures Measure(frames, errors, now, windowSize, th).errorRate <= 1.0
  {
    var start := WindowStart(now, windowSize);
    var inFrames := InWindow(frames, start);
    var inErrors := InWindow(errors, start);
    if inFrames != [] {
      if forall e :: e in inErrors ==> e in frames {
        WindowIsSuffix(errors, start);
        ElementsWithin(inErrors, inFrames);
      } else {
        var e :| e in inErrors && e !in frames;
        forall t | t in frames ensures t >= start {
          var k :| 0 <= k < |frames| && frames[k] == t;
          assert frames[0] <= frames[k];
        }
        WindowIsSuffixAll(frames, start);
      }
      RatioAtMostOne(|inErrors| as real, |inFrames| as real);
    }
  }

  /** The health of buffers that both monitors keep: no metric is negative,
      the error rate is a fraction, and the gap is taken over the window as
      stored, since the sort in `get_health_status` leaves it unchanged. */
  lemma {:induction false} HealthOfSamples(frames: seq<real>, errors: seq<real>, last: real, now: real, windowSize: nat, th: Thresholds)
    requires windowSize > 0 && Samples(frames, errors, last)
    ensures var h := Measure(frames, errors, now, windowSize, th);
      && h.fps >= 0.0 && 0.0 <= h.errorRate <= 1.0 && h.maxGap >= 0.0
      && h.maxGap == MaxGap(InWindow(frames, WindowStart(now, windowSize)))
  {
    GapOfIncreasingWindow(frames, WindowStart(now, windowSize));
    MetricsNonNegative(frames, errors, now, windowSize, th);
    ErrorRateAtMostOne(frames, errors, last, now, windowSize, th);
  }

  lemma {:induction false} GapOfIncreasingWindow(frames: seq<real>, start: real)
    requires Increasing(frames)
    ensures MaxGap(Sort(InWindow(frames, start))) == MaxGap(InWindow(frames, start))
  {
    SortIsIdentityOnWindow(frames, start);
  }

  lemma {:induction false} RatioAtMostOne(a: real, b: real)
    requires 0.0 <= a <= b && b > 0.0
    ensures a / b <= 1.0
  {
    ScaleAbove(1.0, a, b);
  }

  /** An increasing sequence whose items all occur in another sequence is no
      longer than it. */
  lemma {:induction false} ElementsWithin(xs: seq<real>, ys: seq<real>)
    requires Increasing(xs) && forall x :: x in xs ==> x in ys
    ensures |xs| <= |ys|
    decreases |xs|
  {
    if xs != [] {
      assert xs[0] in xs;
      var k :| 0 <= k < |ys| && ys[k] == xs[0];
      var rest := ys[..k] + ys[k + 1..];
      SuffixIncreasing(xs, 1);
      forall x | x in xs[1..] ensures x in rest {
        var j :| 0 <= j < |xs[1..]| && xs[1..][j] == x;
        assert xs[0] < xs[j + 1] == x;
        assert x in ys;
        var m :| 0 <= m < |ys| && ys[m] == x;
        if m < k {
          assert rest[m] == x;
        } else {
          assert rest[m - 1] == x;
        }
      }
      ElementsWithin(xs[1..], rest);
    }
  }
}
