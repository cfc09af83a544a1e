/** film_scanner/util/performance_monitor.py: the frame-health bookkeeping of
    the frame health monitor, plus processing times and a frame rate sampled
    about once a second. The clock is the `now` argument. */
module Performance {
  import opened HealthWindow
  import opened Optional
  import BoundedQueue

  const ProcessingCapacity: nat := 50
  const FpsCapacity: nat := 10

  /** `get_processing_time_stats`: the "min", "max" and "avg" entries. */
  datatype TimeStats = TimeStats(min: real, max: real, avg: real)

  /** A frame-rate sample: `frame_count / elapsed` once at least a second
      has passed. It is positive and never more than the frames counted. */
  lemma {:induction false} FpsSampleBounds(count: nat, elapsed: real)
    requires count >= 1 && elapsed >= 1.0
    ensures 0.0 < count as real / elapsed <= count as real
  {
    NonNegativeRatio(count as real, elapsed);
    ScaleAbove(count as real, count as real, elapsed);
    PositiveRatio(count as real, elapsed);
  }

  lemma {:induction false} PositiveRatio(a: real, b: real)
    requires a > 0.0 && b > 0.0
    ensures a / b > 0.0
  {
    var q := a / b;
    assert b * q == a;
  }

  class PerformanceMonitor {
    const windowSize: nat
    /** The warning and critical levels, fixed when the monitor is made. */
    const thresholds: Thresholds
    var frameTimes: seq<real>
    var errorTimes: seq<real>
    /** The processing times passed with recorded frames, at most 50. */
    var processingTimes: seq<real>
    var lastFrameTime: real
    var lastStatusMessage: Report
    /** The last ten frame-rate samples. */
    var fpsValues: seq<real>
    /** Frames recorded since the last frame-rate sample. */
    var frameCount: nat
    var lastFpsTime: real
    var currentFps: real

    ghost predicate SamplesValid()
      reads this`frameTimes, this`errorTimes, this`lastFrameTime
    {
      windowSize > 0 && Samples(frameTimes, errorTimes, lastFrameTime)
    }

    /** Every frame-rate sample is positive, and the current rate is the
        newest sample (or zero before the first one). */
    ghost predicate RateValid()
      reads this`fpsValues, this`currentFps
    {
      && |fpsValues| <= FpsCapacity
      && (forall v :: v in fpsValues ==> v > 0.0)
      && (if fpsValues == [] then currentFps == 0.0 else currentFps == fpsValues[|fpsValues| - 1])
    }

    ghost predicate Valid()
      reads this`frameTimes, this`errorTimes, this`lastFrameTime, this`processingTimes,
            this`fpsValues, this`currentFps
    {
      SamplesValid() && RateValid() && |processingTimes| <= ProcessingCapacity
    }

    constructor (windowSize: nat, now: real)
      requires windowSize > 0
      ensures Valid() && this.windowSize == windowSize && thresholds == DefaultThresholds
      ensures frameTimes == [] && errorTimes == [] && processingTimes == [] && fpsValues == []
      ensures lastFrameTime == 0.0 && lastStatusMessage == Silent
      ensures frameCount == 0 && lastFpsTime == now && currentFps == 0.0
    {
      this.windowSize := windowSize;
      thresholds := DefaultThresholds;
      frameTimes := [];
      errorTimes := [];
      processingTimes := [];
      lastFrameTime := 0.0;
      lastStatusMessage := Silent;
      fpsValues := [];
      frameCount := 0;
      lastFpsTime := now;
      currentFps := 0.0;
    }

    /** A frame at least 16 ms after the last recorded one is recorded with
        its error flag and processing time, and counted towards the frame
        rate; a frame sooner than that changes nothing. */
    method RecordFrame(now: real, hadError: bool, processingTime: Option<real>)
      requires Valid()
      modifies this`frameTimes, this`errorTimes, this`lastFrameTime, this`processingTimes,
               this`frameCount, this`lastFpsTime, this`currentFps, this`fpsValues
      ensures Valid()
      ensures if Accepts(old(lastFrameTime), now) then
                && frameTimes == RecordedFrames(old(frameTimes), now)
                && errorTimes == RecordedErrors(old(errorTimes), now, hadError)
                && lastFrameTime == now
                && processingTimes == (if processingTime.Some?
                                       then BoundedQueue.Push(old(processingTimes), ProcessingCapacity, processingTime.value)
                                       else old(processingTimes))
                && (if now - old(lastFpsTime) >= 1.0 then
                      && currentFps == (old(frameCount) + 1) as real / (now - old(lastFpsTime))
                      && fpsValues == BoundedQueue.Push(old(fpsValues), FpsCapacity, currentFps)
                      && frameCount == 0 && lastFpsTime == now
                    else
                      && frameCount == old(frameCount) + 1 && lastFpsTime == old(lastFpsTime)
                      && currentFps == old(currentFps) && fpsValues == old(fpsValues))
              else
                && frameTimes == old(frameTimes) && errorTimes == old(errorTimes)
                && lastFrameTime == old(lastFrameTime) && processingTimes == old(processingTimes)
                && frameCount == old(frameCount) && lastFpsTime == old(lastFpsTime)
                && currentFps == old(currentFps) && fpsValues == old(fpsValues)
    {
      if now - lastFrameTime >= Debounce {
        RecordKeepsSamples(frameTimes, errorTimes, lastFrameTime, now, hadError);
        frameTimes := BoundedQueue.Push(frameTimes, FrameCapacity, now);
        lastFrameTime := now;
        if hadError {
          errorTimes := BoundedQueue.Push(errorTimes, ErrorCapacity, now);
        }
        if processingTime.Some? {
          processingTimes := BoundedQueue.Push(processingTimes, ProcessingCapacity, processingTime.value);
        }
        frameCount := frameCount + 1;
        CountFrame(now);
      }
    }

    /** The once-a-second frame-rate sample: when a second or more has passed
        since the last sample, the frames counted over the time elapsed
        become the current rate and a new sample, and counting restarts. */
    method CountFrame(now: real)
      requires RateValid() && frameCount >= 1
      modifies this`frameCount, this`lastFpsTime, this`currentFps, this`fpsValues
      ensures RateValid()
      ensures if now - old(lastFpsTime) >= 1.0 then
                && currentFps == old(frameCount) as real / (now - old(lastFpsTime))
                && fpsValues == BoundedQueue.Push(old(fpsValues), FpsCapacity, currentFps)
                && frameCount == 0 && lastFpsTime == now
              else
                && frameCount == old(frameCount) && lastFpsTime == old(lastFpsTime)
                && currentFps == old(currentFps) && fpsValues == old(fpsValues)
    {
      var elapsed := now - lastFpsTime;
      if elapsed >= 1.0 {
        FpsSampleBounds(frameCount, elapsed);
        currentFps := frameCount as real / elapsed;
        fpsValues := BoundedQueue.Push(fpsValues, FpsCapacity, currentFps);
        frameCount := 0;
        lastFpsTime := now;
      }
    }

    /** `get_fps`: the mean of the recent samples, or the current rate before
        there is any. It is never negative and lies between the least and the
        greatest sample. */
    function GetFps(): (fps: real)
      requires RateValid()
      reads this`fpsValues, this`currentFps
      ensures fps >= 0.0
      ensures fpsValues == [] ==> fps == currentFps
      ensures fpsValues != [] ==> fps == Mean(fpsValues)
      ensures fpsValues != [] ==> Min(fpsValues) <= fps <= Max(fpsValues)
    {
      if |fpsValues| > 0 then
        MeanBetweenMinAndMax(fpsValues);
        Mean(fpsValues)
      else currentFps
    }

    /** `get_health_status` at `now`, with this monitor's thresholds. */
    function HealthStatus(now: real): (h: Health)
      requires SamplesValid()
      reads this`frameTimes, this`errorTimes, this`lastFrameTime
      ensures h.fps >= 0.0 && 0.0 <= h.errorRate <= 1.0 && h.maxGap >= 0.0
      ensures h.maxGap == MaxGap(InWindow(frameTimes, WindowStart(now, windowSize)))
      ensures h.status == Classify(h.fps, h.errorRate, h.maxGap, thresholds)
    {
      HealthOfSamples(frameTimes, errorTimes, lastFrameTime, now, windowSize, thresholds);
      Measure(frameTimes, errorTimes, now, windowSize, thresholds)
    }

    /** `get_processing_time_stats`: zeros when nothing was recorded;
        otherwise the least and the greatest recorded time and their mean,
        which lies between them. */
    function ProcessingTimeStats(): (r: TimeStats)
      reads this`processingTimes
      ensures processingTimes == [] ==> r == TimeStats(0.0, 0.0, 0.0)
      ensures processingTimes != [] ==>
        && r.min in processingTimes && r.max in processingTimes
        && (forall t :: t in processingTimes ==> r.min <= t <= r.max)
        && r.avg == Mean(processingTimes)
        && r.min <= r.avg <= r.max
    {
      if processingTimes == [] then TimeStats(0.0, 0.0, 0.0)
      else
        MeanBetweenMinAndMax(processingTimes);
        TimeStats(Min(processingTimes), Max(processingTimes), Mean(processingTimes))
    }

    /** The message for the health at `now`; a message other than the empty
        one is also kept as the last message. */
    method GetStatusMessage(now: real) returns (message: Report)
      requires SamplesValid()
      modifies this`lastStatusMessage
      ensures message == StatusReport(HealthStatus(now), thresholds)
      ensures message == Silent <==> HealthStatus(now).status == Ok
      ensures lastStatusMessage == if message == Silent then old(lastStatusMessage) else message
    {
      var health := HealthStatus(now);
      message := StatusReport(health, thresholds);
      if message != Silent {
        lastStatusMessage := message;
      }
    }

    /** Empties every buffer and restarts the frame-rate count at `now`; the
        last status message is kept. With the last frame time back at zero,
        the next frame at any clock reading of 16 ms or more is recorded. */
    method Reset(now: real)
      requires Valid()
      modifies this`frameTimes, this`errorTimes, this`processingTimes, this`fpsValues,
               this`frameCount, this`lastFpsTime, this`currentFps, this`lastFrameTime
      ensures Valid()
      ensures frameTimes == [] && errorTimes == [] && processingTimes == [] && fpsValues == []
      ensures frameCount == 0 && lastFpsTime == now && currentFps == 0.0 && lastFrameTime == 0.0
      ensures forall t :: t >= Debounce ==> Accepts(lastFrameTime, t)
    {
      frameTimes := [];
      errorTimes := [];
      processingTimes := [];
      fpsValues := [];
      frameCount := 0;
      lastFpsTime := now;
      currentFps := 0.0;
      lastFrameTime := 0.0;
    }
  }
}
