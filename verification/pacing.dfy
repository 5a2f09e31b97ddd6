/**
 * The software-trigger pacing step at the end of each frame: the frame time
 * `ftime` is measured in nanoseconds, and the lane sleeps for the rest of the
 * frame period `1 / framerate`, which is in seconds.
 */
module Pacing {
  import opened Outcomes

  datatype Pace = NoSleep | Sleep(seconds: real)

  /** `1 / framerate` raises `ZeroDivisionError` when the configured rate is 0. */
  datatype PaceError = ZeroFrameRate

  /**
   * The decision as the lane makes it: the nanosecond count is compared with,
   * and subtracted from, the period in seconds.
   */
  function PaceAsWritten(frameTimeNs: int, framerate: real): (r: Result<Pace, PaceError>)
    ensures r.Failure? <==> framerate == 0.0
    ensures r.Success? ==> (r.value.Sleep? <==> (frameTimeNs as real) < 1.0 / framerate)
    ensures r.Success? && r.value.Sleep? ==>
              r.value.seconds > 0.0 && frameTimeNs as real + r.value.seconds == 1.0 / framerate
  {
    if framerate == 0.0 then Failure(ZeroFrameRate)
    else
      var period := 1.0 / framerate;
      if (frameTimeNs as real) < period then Success(Sleep(period - frameTimeNs as real))
      else Success(NoSleep)
  }

  /**
   * At any rate of at least one frame per second, a frame that took at least
   * one nanosecond never sleeps: the lane does no pacing at all.
   */
  lemma NoPacingAtUsualRates(frameTimeNs: int, framerate: real)
    requires framerate >= 1.0 && frameTimeNs >= 1
    ensures PaceAsWritten(frameTimeNs, framerate) == Success(NoSleep)
  {
    assert 1.0 / framerate <= 1.0 by {
      assert framerate * (1.0 / framerate) == 1.0;
    }
  }

  /**
   * The same decision with the frame time converted to seconds first: the
   * reference the as-written step is compared against.
   */
  function PaceInSeconds(frameTimeNs: int, framerate: real): (r: Result<Pace, PaceError>)
    ensures r.Failure? <==> framerate == 0.0
    ensures r.Success? ==> (r.value.Sleep? <==> (frameTimeNs as real) / 1000000000.0 < 1.0 / framerate)
    ensures r.Success? && r.value.Sleep? ==>
              r.value.seconds > 0.0 && (frameTimeNs as real) / 1000000000.0 + r.value.seconds == 1.0 / framerate
  {
    if framerate == 0.0 then Failure(ZeroFrameRate)
    else
      var period := 1.0 / framerate;
      var elapsed := (frameTimeNs as real) / 1000000000.0;
      if elapsed < period then Success(Sleep(period - elapsed))
      else Success(NoSleep)
  }

  /**
   * A 3 ms frame at 100 Hz: in seconds it leaves 7 ms of the period to sleep,
   * but as written 3000000 is not below 0.01, so the lane does not sleep.
   */
  lemma PacingDiffers()
    ensures PaceAsWritten(3000000, 100.0) == Success(NoSleep)
    ensures PaceInSeconds(3000000, 100.0) == Success(Sleep(0.007))
  {
  }

  /**
   * For a frame time that is not negative, the as-written step sleeps only
   * when the seconds-based one does, and never for longer.
   */
  lemma AsWrittenSleepsLess(frameTimeNs: int, framerate: real)
    requires frameTimeNs >= 0
    requires PaceAsWritten(frameTimeNs, framerate).Success?
    ensures PaceInSeconds(frameTimeNs, framerate).Success?
    ensures PaceAsWritten(frameTimeNs, framerate).value.Sleep? ==>
              && PaceInSeconds(frameTimeNs, framerate).value.Sleep?
              && PaceAsWritten(frameTimeNs, framerate).value.seconds <= PaceInSeconds(frameTimeNs, framerate).value.seconds
  {
    assert (frameTimeNs as real) / 1000000000.0 <= frameTimeNs as real;
  }
}
