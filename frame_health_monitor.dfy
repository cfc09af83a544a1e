/** film_scanner/frame_health_monitor.py: records the arrival of live-view
    frames (and whether each one failed) and reports the stream's health over
    the last `window_size` seconds. The clock is the `now` argument. */
module FrameHealth {
  import opened HealthWindow
  import BoundedQueue

  class FrameHealthMonitor {
    /** Seconds of history the health metrics look at. */
    const windowSize: nat
    /** Times of recorded frames, oldest first, at most 100. */
    var frameTimes: seq<real>
    /** Times of recorded frames that had an error, oldest first, at most 20. */
    var errorTimes: seq<real>
    var lastFrameTime: real
    /** The last message other than the empty one. */
    var lastStatusMessage: Report

    ghost predicate Valid()
      reads this`frameTimes, this`errorTimes, this`lastFrameTime
    {
      windowSize > 0 && Samples(frameTimes, errorTimes, lastFrameTime)
    }

    constructor (windowSize: nat)
      requires windowSize > 0
      ensures Valid() && this.windowSize == windowSize
      ensures frameTimes == [] && errorTimes == [] && lastFrameTime == 0.0 && lastStatusMessage == Silent
    {
      this.windowSize := windowSize;
      frameTimes := [];
      errorTimes := [];
      lastFrameTime := 0.0;
      lastStatusMessage := Silent;
    }

    /** A frame at least 16 ms after the last recorded one is appended to the
        frame buffer, and to the error buffer when it failed; a frame sooner
        than that is ignored altogether. */
    method RecordFrame(now: real, hadError: bool)
      requires Valid()
      modifies this`frameTimes, this`errorTimes, this`lastFrameTime
      ensures Valid()
      ensures if Accepts(old(lastFrameTime), now) then
                && frameTimes == RecordedFrames(old(frameTimes), now)
                && errorTimes == RecordedErrors(old(errorTimes), now, hadError)
                && lastFrameTime == now
              else
                && frameTimes == old(frameTimes) && errorTimes == old(errorTimes)
                && lastFrameTime == old(lastFrameTime)
    {
      if now - lastFrameTime >= Debounce {
        RecordKeepsSamples(frameTimes, errorTimes, lastFrameTime, now, hadError);
        frameTimes := BoundedQueue.Push(frameTimes, FrameCapacity, now);
        lastFrameTime := now;
        if hadError {
          errorTimes := BoundedQueue.Push(errorTimes, ErrorCapacity, now);
        }
      }
    }

    /** `get_health_status` at `now`: the metrics of the window, classified
        by the fixed thresholds. No metric is negative, the error rate is a
        fraction, and the gap is taken over the window as stored. */
    function HealthStatus(now: real): (h: Health)
      requires Valid()
      reads this`frameTimes, this`errorTimes, this`lastFrameTime
      ensures h.fps >= 0.0 && 0.0 <= h.errorRate <= 1.0 && h.maxGap >= 0.0
      ensures h.maxGap == MaxGap(InWindow(frameTimes, WindowStart(now, windowSize)))
      ensures h.status == Classify(h.fps, h.errorRate, h.maxGap, DefaultThresholds)
    {
      HealthOfSamples(frameTimes, errorTimes, lastFrameTime, now, windowSize, DefaultThresholds);
      Measure(frameTimes, errorTimes, now, windowSize, DefaultThresholds)
    }

    /** The message for the health at `now`; a message other than the empty
        one is also kept as the last message. */
    method GetStatusMessage(now: real) returns (message: Report)
      requires Valid()
      modifies this`lastStatusMessage
      ensures message == StatusReport(HealthStatus(now), DefaultThresholds)
      ensures message == Silent <==> HealthStatus(now).status == Ok
      ensures lastStatusMessage == if message == Silent then old(lastStatusMessage) else message
    {
      var health := HealthStatus(now);
      message := StatusReport(health, DefaultThresholds);
      if message != Silent {
        lastStatusMessage := message;
      }
    }
  }
}
