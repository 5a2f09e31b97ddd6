/**
 * One camera's capture lane of the Multicam script (`ThreadCapture.run`):
 * for each frame, trigger (in software mode), grab, record the timestamp,
 * dispatch the image write and pace; then end the acquisition, analyse the
 * timestamps on the primary camera, and append the timestamp log.
 *
 * The driver is a sequence of per-frame outcomes; a lane that asks for more
 * frames than the sequence holds waits for ever.
 */
module MulticamLane {
  import opened Outcomes
  import opened Decimal
  import opened Naming
  import opened Timing
  import opened Pacing
  import opened Logs
  import opened LaneTrace

  /** `framerate == 'hardware'`, or a software-triggered rate in frames per second. */
  datatype Trigger = Hardware | Software(framerate: real)

  /** `GetNextImage` either returns an image, stamped by the nanosecond clock, or raises. */
  datatype Grab =
    | Frame(stamp: int, frameTimeNs: int)  // `times.append(perf_counter_ns())`, and `ftime` for pacing
    | GrabFailed                           // `PySpin.SpinnakerException`

  /** What the driver does for one frame. */
  datatype Step = Step(triggerWritable: bool, grab: Grab)

  datatype Config = Config(numImages: int, trigger: Trigger, fileName: string)

  type Trace = seq<Event<int>>

  /** The events of one or more frames, and whether the lane stopped there. */
  datatype Capture = Capture(events: Trace, stop: Option<Status>)

  /** A frame after which the loop carries on. */
  predicate Completes(c: Config, step: Step)
  {
    && step.grab.Frame?
    && (c.trigger.Software? ==> step.triggerWritable && c.trigger.framerate != 0.0)
  }

  /** Frame outcomes that record a stamp and dispatch the image before anything can stop the lane. */
  predicate Saves(c: Config, step: Step)
  {
    step.grab.Frame? && (c.trigger.Software? ==> step.triggerWritable)
  }

  /** How the lane stops at a frame that does not complete. */
  function StopOf(c: Config, step: Step): Status
  {
    if c.trigger.Software? && !step.triggerWritable then ReturnedFalse(TriggerNodeUnavailable)
    else if step.grab.GrabFailed? then ReturnedFalse(SpinnakerError)
    else Raised(ZeroDivision)
  }

  /**
   * The body of the loop for frame `i` (0-based). It carries on exactly when
   * the frame completes; a grabbed frame's stamp is recorded and its file
   * name dispatched even when the pacing then divides by zero.
   */
  function CaptureFrame(c: Config, camnum: nat, step: Step, i: nat): (r: Capture)
    ensures r.stop.None? <==> Completes(c, step)
    ensures r.stop.Some? ==> r.stop.value == StopOf(c, step)
    ensures Stamps(r.events) == if Saves(c, step) then [step.grab.stamp] else []
    ensures Dispatches(r.events) ==
              if Saves(c, step) then [FrameFileName(c.fileName, i, c.numImages, camnum)] else []
    ensures EndCount(r.events) == 0 && Appends(r.events) == []
    ensures !(c.trigger.Software? && Completes(c, step)) ==> Sleeps(r.events) == []
    ensures c.trigger.Software? && Completes(c, step) ==>
              match PaceAsWritten(step.grab.frameTimeNs, c.trigger.framerate)
              case Success(Sleep(s)) => Sleeps(r.events) == [s]
              case _ => Sleeps(r.events) == []
  {
    if c.trigger.Software? && !step.triggerWritable then Capture([], Some(ReturnedFalse(TriggerNodeUnavailable)))
    else
      match step.grab
      case GrabFailed => Capture([], Some(ReturnedFalse(SpinnakerError)))
      case Frame(stamp, frameTimeNs) =>
        var saved: Trace := [Recorded(stamp), Dispatched(FrameFileName(c.fileName, i, c.numImages, camnum))];
        SavedFrame(stamp, FrameFileName(c.fileName, i, c.numImages, camnum));
        match c.trigger
        case Hardware => Capture(saved, None)
        case Software(rate) =>
          match PaceAsWritten(frameTimeNs, rate)
          case Failure(_) => Capture(saved, Some(Raised(ZeroDivision)))
          case Success(NoSleep) => Capture(saved, None)
          case Success(Sleep(sec)) =>
            var slept: Event<int> := Slept(sec);
            SelectAppend(saved, [slept], StampOf);
            SelectAppend(saved, [slept], DispatchOf);
            SelectAppend(saved, [slept], EndOf);
            SelectAppend(saved, [slept], AppendOf);
            SelectAppend(saved, [slept], SleepOf);
            SelectSingle(slept, SleepOf);
            SelectSingle(slept, StampOf);
            SelectSingle(slept, DispatchOf);
            SelectSingle(slept, EndOf);
            SelectSingle(slept, AppendOf);
            Capture(saved + [Slept(sec)], None)
  }

  /** A saved frame's events: one stamp, one dispatch, nothing else of note. */
  lemma SavedFrame(stamp: int, file: string)
    ensures var saved: Trace := [Recorded(stamp), Dispatched(file)];
            && Stamps(saved) == [stamp]
            && Dispatches(saved) == [file]
            && EndCount(saved) == 0
            && Appends(saved) == []
            && Sleeps(saved) == []
  {
    var r: Event<int> := Recorded(stamp);
    var d: Event<int> := Dispatched(file);
    assert [r, d] == [r] + [d];
    SelectAppend([r], [d], StampOf);
    SelectAppend([r], [d], DispatchOf);
    SelectAppend([r], [d], EndOf);
    SelectAppend([r], [d], AppendOf);
    SelectAppend([r], [d], SleepOf);
    SelectSingle(r, SleepOf);
    SelectSingle(d, SleepOf);
    SelectSingle(r, StampOf);
    SelectSingle(r, DispatchOf);
    SelectSingle(r, EndOf);
    SelectSingle(r, AppendOf);
    SelectSingle(d, StampOf);
    SelectSingle(d, DispatchOf);
    SelectSingle(d, EndOf);
    SelectSingle(d, AppendOf);
  }

  /** The first frame from `i` on after which the loop would not carry on; `numImages` if none. */
  function FirstIncomplete(c: Config, steps: seq<Step>, i: nat): (k: nat)
    ensures i < c.numImages ==> i <= k <= c.numImages
    ensures i >= c.numImages ==> k == i
    ensures AllComplete(c, steps, i, k - i)
    ensures k < c.numImages ==> k >= |steps| || !Completes(c, steps[k])
    decreases c.numImages - i
  {
    if i >= c.numImages || i >= |steps| || !Completes(c, steps[i]) then i
    else FirstIncomplete(c, steps, i + 1)
  }

  /** How the loop ends when frame `k` is the first that does not complete. */
  function StopAt(c: Config, steps: seq<Step>, k: nat): Option<Status>
  {
    if k >= c.numImages then None
    else if k >= |steps| then Some(Blocked)
    else Some(StopOf(c, steps[k]))
  }

  /** A stop that still recorded and dispatched its frame: only the division by a zero rate. */
  function FramesAtStop(stop: Option<Status>): nat
  {
    if stop == Some(Raised(ZeroDivision)) then 1 else 0
  }

  /** Each of the `n` frames from `i` on completes. */
  predicate AllComplete(c: Config, steps: seq<Step>, i: nat, n: nat)
  {
    n == 0 || (i + n <= |steps| && forall j :: i <= j < i + n ==> Completes(c, steps[j]))
  }

  /** The driver returns an image for each of the `n` frames from `i` on. */
  predicate AllGrabbed(steps: seq<Step>, i: nat, n: nat)
  {
    n == 0 || (i + n <= |steps| && forall j :: i <= j < i + n ==> steps[j].grab.Frame?)
  }

  /** The stamps of the `n` frames from `i` on that the driver returned, in order. */
  function StampColumn(steps: seq<Step>, i: nat, n: nat): (r: seq<int>)
    ensures |r| <= n
    ensures AllGrabbed(steps, i, n) ==> |r| == n
    decreases n
  {
    if n == 0 || i >= |steps| then []
    else (if steps[i].grab.Frame? then [steps[i].grab.stamp] else []) + StampColumn(steps, i + 1, n - 1)
  }

  /** The file name of each frame, by frame number. */
  function Names(c: Config, camnum: nat): nat -> string
  {
    j => FrameFileName(c.fileName, j, c.numImages, camnum)
  }

  /** When every frame is returned, the stamp column holds each frame's stamp at its place. */
  lemma {:induction false} StampColumnAt(steps: seq<Step>, i: nat, n: nat)
    requires AllGrabbed(steps, i, n)
    ensures forall j :: i <= j < i + n ==> StampColumn(steps, i, n)[j - i] == steps[j].grab.stamp
    decreases n
  {
    if n > 0 {
      StampColumnAt(steps, i + 1, n - 1);
      var col, rest := StampColumn(steps, i, n), StampColumn(steps, i + 1, n - 1);
      assert col == [steps[i].grab.stamp] + rest;
      forall j | i < j < i + n
        ensures col[j - i] == steps[j].grab.stamp
      {
        assert col[j - i] == rest[j - (i + 1)];
      }
    }
  }

  /** Frame `j` of the name column is frame `j`'s file name. */
  lemma NameColumnAt(c: Config, camnum: nat, i: nat, n: nat, j: nat)
    requires i <= j < i + n
    ensures Tabulate(Names(c, camnum), i, n)[j - i] == FrameFileName(c.fileName, j, c.numImages, camnum)
  {
    TabulateAt(Names(c, camnum), i, n, j);
  }

  /** How many frames the loop from `i` on records, when it ends with `stop`. */
  function Span(c: Config, steps: seq<Step>, i: nat, stop: Option<Status>): nat
  {
    if i < c.numImages then FirstIncomplete(c, steps, i) - i + FramesAtStop(stop) else 0
  }

  /** A frame that completes adds one to the frames recorded after it. */
  lemma SpanStep(c: Config, steps: seq<Step>, i: nat, stop: Option<Status>)
    requires i < c.numImages && i < |steps| && Completes(c, steps[i])
    requires stop == StopAt(c, steps, FirstIncomplete(c, steps, i + 1))
    ensures FirstIncomplete(c, steps, i) == FirstIncomplete(c, steps, i + 1)
    ensures Span(c, steps, i, stop) == Span(c, steps, i + 1, stop) + 1
  {
    StepFirstIncomplete(c, steps, i);
    if i + 1 >= c.numImages {
      assert FirstIncomplete(c, steps, i + 1) == i + 1;
      assert stop.None?;
    }
  }

  /**
   * What the loop from frame `i` on does, in terms of the first frame `k`
   * that does not complete: it stops there with the status that frame calls
   * for; it records the stamp and dispatches the file name of every frame
   * before `k`, in frame order, and of frame `k` too when that frame's pacing
   * divides by zero; it never ends the acquisition and never writes a log.
   */
  predicate Describes(c: Config, camnum: nat, steps: seq<Step>, i: nat, r: Capture)
  {
    var k := FirstIncomplete(c, steps, i);
    var n := Span(c, steps, i, r.stop);
    && r.stop == StopAt(c, steps, k)
    && AllGrabbed(steps, i, n)
    && Stamps(r.events) == StampColumn(steps, i, n)
    && Dispatches(r.events) == Tabulate(Names(c, camnum), i, n)
    && EndCount(r.events) == 0
    && Appends(r.events) == []
  }

  /** The loop from frame `i` on. */
  function CaptureFrom(c: Config, camnum: nat, steps: seq<Step>, i: nat): (r: Capture)
    ensures Describes(c, camnum, steps, i, r)
    decreases c.numImages - i
  {
    if i >= c.numImages then Capture([], None)
    else if i >= |steps| then Capture([], Some(Blocked))
    else
      var f := CaptureFrame(c, camnum, steps[i], i);
      if f.stop.Some? then
        StoppingFrame(c, camnum, steps, i, f);
        f
      else
        var rest := CaptureFrom(c, camnum, steps, i + 1);
        NextFrame(c, camnum, steps, i, f.events, rest);
        Capture(f.events + rest.events, rest.stop)
  }

  /** A frame that does not complete ends the loop with its own events only. */
  lemma StoppingFrame(c: Config, camnum: nat, steps: seq<Step>, i: nat, f: Capture)
    requires i < c.numImages && i < |steps| && !Completes(c, steps[i])
    requires f.stop == Some(StopOf(c, steps[i]))
    requires Stamps(f.events) == if Saves(c, steps[i]) then [steps[i].grab.stamp] else []
    requires Dispatches(f.events) ==
               if Saves(c, steps[i]) then [FrameFileName(c.fileName, i, c.numImages, camnum)] else []
    requires EndCount(f.events) == 0 && Appends(f.events) == []
    ensures Describes(c, camnum, steps, i, f)
  {
    assert FirstIncomplete(c, steps, i) == i;
    if Saves(c, steps[i]) {
      assert f.stop == Some(Raised(ZeroDivision));
      assert Span(c, steps, i, f.stop) == 1;
      ColumnHead(steps, i, 1);
      NameHead(c, camnum, i, 1);
    } else {
      assert Span(c, steps, i, f.stop) == 0;
    }
  }

  /** A frame that completes does not change where the loop from it on stops. */
  lemma StepFirstIncomplete(c: Config, steps: seq<Step>, i: nat)
    requires i < c.numImages && i < |steps| && Completes(c, steps[i])
    ensures FirstIncomplete(c, steps, i) == FirstIncomplete(c, steps, i + 1) >= i + 1
  {
  }

  lemma NameHead(c: Config, camnum: nat, i: nat, n: nat)
    requires n >= 1
    ensures Tabulate(Names(c, camnum), i, n) ==
              [FrameFileName(c.fileName, i, c.numImages, camnum)] + Tabulate(Names(c, camnum), i + 1, n - 1)
  {
    TabulateHead(Names(c, camnum), i, n);
  }

  lemma ColumnHead(steps: seq<Step>, i: nat, n: nat)
    requires n >= 1 && i < |steps| && steps[i].grab.Frame?
    ensures StampColumn(steps, i, n) == [steps[i].grab.stamp] + StampColumn(steps, i + 1, n - 1)
  {
  }

  /** Prefixing a returned frame keeps every frame returned. */
  lemma GrabbedStep(steps: seq<Step>, i: nat, n: nat)
    requires n >= 1 && i < |steps| && steps[i].grab.Frame? && AllGrabbed(steps, i + 1, n - 1)
    ensures AllGrabbed(steps, i, n)
  {
  }

  /** A frame that completes puts its stamp and dispatch in front of the rest of the loop. */
  lemma NextFrame(c: Config, camnum: nat, steps: seq<Step>, i: nat, frame: Trace, rest: Capture)
    requires i < c.numImages && i < |steps| && Completes(c, steps[i])
    requires Stamps(frame) == [steps[i].grab.stamp]
    requires Dispatches(frame) == [FrameFileName(c.fileName, i, c.numImages, camnum)]
    requires EndCount(frame) == 0 && Appends(frame) == []
    requires Describes(c, camnum, steps, i + 1, rest)
    ensures Describes(c, camnum, steps, i, Capture(frame + rest.events, rest.stop))
  {
    var es := frame + rest.events;
    SpanStep(c, steps, i, rest.stop);
    var n := Span(c, steps, i, rest.stop);
    ColumnHead(steps, i, n);
    NameHead(c, camnum, i, n);
    GrabbedStep(steps, i, n);
    SilentAppend(frame, rest.events);
    assert Stamps(es) == Stamps(frame) + Stamps(rest.events) by {
      SelectAppend(frame, rest.events, StampOf);
    }
    assert Dispatches(es) == Dispatches(frame) + Dispatches(rest.events) by {
      SelectAppend(frame, rest.events, DispatchOf);
    }
  }

  /** `filename + '_t' + str(camnum) + '.txt'`. */
  function TimesLogName(fileName: string, camnum: nat): string
  {
    fileName + "_t" + IntToStr(camnum) + ".txt"
  }

  /** `str(item)` for each recorded timestamp. */
  function StampTexts(ts: seq<int>): (r: seq<string>)
    ensures |r| == |ts|
    ensures forall i :: 0 <= i < |ts| ==> ParseInt(r[i]) == Some(ts[i])
  {
    if |ts| == 0 then []
    else
      IntToStrReadsBack(ts[0]);
      [IntToStr(ts[0])] + StampTexts(ts[1..])
  }

  /**
   * After the loop: a lane that stopped inside it has nothing more to do;
   * otherwise it ends the acquisition, the primary camera reports the
   * analysis of the timestamps (or raises when there is none), and the lane
   * appends its timestamps to its times log.
   */
  function Finish(fileName: string, camnum: nat, cap: Capture, analysis: Result<TimingReport, AnalysisError>): LaneRun<int>
  {
    if cap.stop.Some? then LaneRun(cap.events, cap.stop.value)
    else
      var log := Appended(TimesLogName(fileName, camnum), Serialise(StampTexts(Stamps(cap.events))));
      if camnum == 0 then
        match analysis
        case Failure(_) => LaneRun(cap.events + [EndedAcquisition], Raised(NaNMean))
        case Success(rep) => LaneRun(cap.events + ([EndedAcquisition] + [Analysed(rep)] + [log]), Finished)
      else LaneRun(cap.events + ([EndedAcquisition] + [log]), Finished)
  }

  /** The whole lane. */
  function RunLane(c: Config, camnum: nat, steps: seq<Step>): LaneRun<int>
  {
    var cap := CaptureFrom(c, camnum, steps, 0);
    Finish(c.fileName, camnum, cap, Analyse(Stamps(cap.events)))
  }

  /** Events after the capture loop that record, dispatch and sleep nothing. */
  predicate Quiet(tail: Trace)
  {
    forall i :: 0 <= i < |tail| ==> !tail[i].Recorded? && !tail[i].Dispatched? && !tail[i].Slept?
  }

  /** What the lane does after the loop leaves the loop's stamps, dispatches and sleeps alone. */
  lemma Epilogue(cap: Trace, tail: Trace)
    requires Quiet(tail)
    ensures Stamps(cap + tail) == Stamps(cap)
    ensures Dispatches(cap + tail) == Dispatches(cap)
    ensures Sleeps(cap + tail) == Sleeps(cap)
    ensures EndCount(cap + tail) == EndCount(cap) + EndCount(tail)
    ensures Appends(cap + tail) == Appends(cap) + Appends(tail)
  {
    SelectAppend(cap, tail, StampOf);
    SelectAppend(cap, tail, DispatchOf);
    SelectAppend(cap, tail, SleepOf);
    SelectAppend(cap, tail, EndOf);
    SelectAppend(cap, tail, AppendOf);
    SelectNone(tail, StampOf);
    SelectNone(tail, DispatchOf);
    SelectNone(tail, SleepOf);
  }

  /** The tail of a lane that ends the acquisition and then, possibly, reports and logs. */
  lemma TailCounts(extra: Trace, log: Event<int>)
    requires extra == [] || (|extra| == 1 && extra[0].Analysed?)
    requires log.Appended?
    ensures var tail := [EndedAcquisition] + extra + [log];
            && Quiet(tail)
            && EndCount(tail) == 1
            && Appends(tail) == [(log.file, log.text)]
    ensures var ended: Trace := [EndedAcquisition];
            Quiet(ended) && EndCount(ended) == 1 && Appends(ended) == []
  {
    var e: Event<int> := EndedAcquisition;
    SelectSingle(e, EndOf);
    SelectSingle(e, AppendOf);
    SelectSingle(log, EndOf);
    SelectSingle(log, AppendOf);
    SelectAppend([e], extra, EndOf);
    SelectAppend([e], extra, AppendOf);
    SelectAppend([e] + extra, [log], EndOf);
    SelectAppend([e] + extra, [log], AppendOf);
    if |extra| == 1 {
      SelectSingle(extra[0], EndOf);
      SelectSingle(extra[0], AppendOf);
      assert [extra[0]] == extra;
    }
  }

  /** Every recorded timestamp written as a decimal integer: no line breaks. */
  lemma StampTextsOneLine(ts: seq<int>)
    ensures NoNewlines(StampTexts(ts))
  {
    var texts := StampTexts(ts);
    forall i | 0 <= i < |texts|
      ensures '\n' !in texts[i]
    {
      var t := texts[i];
      assert t == IntToStr(ts[i]) by {
        StampTextAt(ts, i);
      }
      assert forall j :: 0 <= j < |t| ==> t[j] != '\n';
    }
  }

  lemma {:induction false} StampTextAt(ts: seq<int>, i: nat)
    requires i < |ts|
    ensures StampTexts(ts)[i] == IntToStr(ts[i])
  {
    if i > 0 {
      StampTextAt(ts[1..], i - 1);
    }
  }

  /** The log of `ts` reads back, line by line, to the recorded timestamps. */
  lemma TimesLogReadsBack(ts: seq<int>)
    ensures var items := ParseLog(Serialise(StampTexts(ts)));
            && items.Some?
            && |items.value| == |ts|
            && forall i :: 0 <= i < |ts| ==> ParseInt(items.value[i]) == Some(ts[i])
  {
    StampTextsOneLine(ts);
    ParseSerialise(StampTexts(ts));
  }

  /**
   * A lane that gets past the loop ends the acquisition once and, when it
   * finishes, appends the loop's timestamps to its times log as its last
   * event; the primary camera reports its analysis just before. It records,
   * dispatches and sleeps nothing after the loop.
   */
  lemma FinishEvents(fileName: string, camnum: nat, cap: Capture, analysis: Result<TimingReport, AnalysisError>)
    requires cap.stop.None?
    ensures var r := Finish(fileName, camnum, cap, analysis);
            var log := (TimesLogName(fileName, camnum), Serialise(StampTexts(Stamps(cap.events))));
            && (r.status == Finished <==> camnum != 0 || analysis.Success?)
            && (r.status != Finished ==> r.status == Raised(NaNMean))
            && Stamps(r.events) == Stamps(cap.events)
            && Dispatches(r.events) == Dispatches(cap.events)
            && Sleeps(r.events) == Sleeps(cap.events)
            && EndCount(r.events) == EndCount(cap.events) + 1
            && Appends(r.events) == Appends(cap.events) + (if r.status == Finished then [log] else [])
            && (r.status == Finished ==> |r.events| >= 2 && r.events[|r.events| - 1] == Appended(log.0, log.1))
            && (r.status == Finished && camnum == 0 ==> r.events[|r.events| - 2] == Analysed(analysis.value))
  {
    var log: Event<int> := Appended(TimesLogName(fileName, camnum), Serialise(StampTexts(Stamps(cap.events))));
    var ended: Trace := [EndedAcquisition];
    if camnum == 0 && analysis.Success? {
      var extra: Trace := [Analysed(analysis.value)];
      TailCounts(extra, log);
      Epilogue(cap.events, ended + extra + [log]);
    } else if camnum == 0 {
      TailCounts([], log);
      Epilogue(cap.events, ended);
    } else {
      TailCounts([], log);
      assert ended + [] == ended;
      Epilogue(cap.events, ended + [log]);
    }
  }

  /** Every frame completes: the loop records and dispatches each frame, in order, and carries on. */
  lemma LoopCompletes(c: Config, camnum: nat, steps: seq<Step>)
    requires FirstIncomplete(c, steps, 0) >= c.numImages
    ensures var cap := CaptureFrom(c, camnum, steps, 0);
            && cap.stop.None?
            && AllComplete(c, steps, 0, FrameCount(c.numImages))
            && AllGrabbed(steps, 0, FrameCount(c.numImages))
            && Stamps(cap.events) == StampColumn(steps, 0, FrameCount(c.numImages))
            && |Stamps(cap.events)| == FrameCount(c.numImages)
            && Dispatches(cap.events) == Tabulate(Names(c, camnum), 0, FrameCount(c.numImages))
            && EndCount(cap.events) == 0 && Appends(cap.events) == []
  {
    LoopFacts(c, camnum, steps, CaptureFrom(c, camnum, steps, 0));
  }

  /** `LoopCompletes` for any capture the loop's description fits. */
  lemma LoopFacts(c: Config, camnum: nat, steps: seq<Step>, cap: Capture)
    requires Describes(c, camnum, steps, 0, cap)
    requires FirstIncomplete(c, steps, 0) >= c.numImages
    ensures && cap.stop.None?
            && AllComplete(c, steps, 0, FrameCount(c.numImages))
            && AllGrabbed(steps, 0, FrameCount(c.numImages))
            && Stamps(cap.events) == StampColumn(steps, 0, FrameCount(c.numImages))
            && |Stamps(cap.events)| == FrameCount(c.numImages)
            && Dispatches(cap.events) == Tabulate(Names(c, camnum), 0, FrameCount(c.numImages))
            && EndCount(cap.events) == 0 && Appends(cap.events) == []
  {
    var k := FirstIncomplete(c, steps, 0);
    assert k == FrameCount(c.numImages);
    assert cap.stop.None?;
    assert Span(c, steps, 0, cap.stop) == k;
    CompleteGrabbed(c, steps, k);
  }

  /** A frame that completes was returned by the driver. */
  lemma CompleteGrabbed(c: Config, steps: seq<Step>, n: nat)
    requires AllComplete(c, steps, 0, n)
    ensures AllGrabbed(steps, 0, n)
  {
  }

  /**
   * A lane finishes exactly when every frame it asks for completes and, on
   * the primary camera, there are at least two timestamps to analyse.
   */
  lemma LaneFinishes(c: Config, camnum: nat, steps: seq<Step>)
    ensures RunLane(c, camnum, steps).status == Finished <==>
              FirstIncomplete(c, steps, 0) >= c.numImages && (camnum != 0 || c.numImages >= 2)
  {
    var cap := CaptureFrom(c, camnum, steps, 0);
    assert RunLane(c, camnum, steps) == Finish(c.fileName, camnum, cap, Analyse(Stamps(cap.events)));
    FinishStatus(c, camnum, steps, cap);
  }

  /** `LaneFinishes` for any capture the loop's description fits. */
  lemma FinishStatus(c: Config, camnum: nat, steps: seq<Step>, cap: Capture)
    requires Describes(c, camnum, steps, 0, cap)
    ensures Finish(c.fileName, camnum, cap, Analyse(Stamps(cap.events))).status == Finished <==>
              FirstIncomplete(c, steps, 0) >= c.numImages && (camnum != 0 || c.numImages >= 2)
  {
    if FirstIncomplete(c, steps, 0) >= c.numImages {
      LoopFacts(c, camnum, steps, cap);
      FinishEvents(c.fileName, camnum, cap, Analyse(Stamps(cap.events)));
    }
  }

  /**
   * A finished lane had every frame it asked for complete, and it recorded
   * their timestamps and dispatched their images, in frame order.
   */
  lemma LaneFrames(c: Config, camnum: nat, steps: seq<Step>)
    requires RunLane(c, camnum, steps).status == Finished
    ensures var r := RunLane(c, camnum, steps);
            && AllComplete(c, steps, 0, FrameCount(c.numImages))
            && Stamps(r.events) == StampColumn(steps, 0, FrameCount(c.numImages))
            && |Stamps(r.events)| == FrameCount(c.numImages)
            && Dispatches(r.events) == Tabulate(Names(c, camnum), 0, FrameCount(c.numImages))
  {
    LaneFinishes(c, camnum, steps);
    LoopCompletes(c, camnum, steps);
    var cap := CaptureFrom(c, camnum, steps, 0);
    FinishEvents(c.fileName, camnum, cap, Analyse(Stamps(cap.events)));
  }

  /**
   * Frame `m` of a finished lane: it completed, and the lane's `m`-th stamp
   * is its timestamp and its `m`-th dispatch its padded file name.
   */
  lemma LaneFrameAt(c: Config, camnum: nat, steps: seq<Step>, m: nat)
    requires RunLane(c, camnum, steps).status == Finished
    requires m < FrameCount(c.numImages)
    ensures var r := RunLane(c, camnum, steps);
            && m < |steps| && Completes(c, steps[m])
            && m < |Stamps(r.events)| && Stamps(r.events)[m] == steps[m].grab.stamp
            && m < |Dispatches(r.events)| && Dispatches(r.events)[m] == FrameFileName(c.fileName, m, c.numImages, camnum)
  {
    var r := RunLane(c, camnum, steps);
    LaneFrames(c, camnum, steps);
    FrameAt(c, camnum, steps, FrameCount(c.numImages), m, Stamps(r.events), Dispatches(r.events));
  }

  lemma FrameAt(c: Config, camnum: nat, steps: seq<Step>, n: nat, m: nat, stamps: seq<int>, names: seq<string>)
    requires AllComplete(c, steps, 0, n) && m < n
    requires stamps == StampColumn(steps, 0, n) && names == Tabulate(Names(c, camnum), 0, n)
    ensures m < |steps| && Completes(c, steps[m])
    ensures m < |stamps| && stamps[m] == steps[m].grab.stamp
    ensures m < |names| && names[m] == FrameFileName(c.fileName, m, c.numImages, camnum)
  {
    assert Completes(c, steps[m]);
    assert AllGrabbed(steps, 0, n);
    StampAt(steps, n, m);
    NameAt(c, camnum, n, m);
  }

  lemma StampAt(steps: seq<Step>, n: nat, m: nat)
    requires AllGrabbed(steps, 0, n) && m < n
    ensures m < |StampColumn(steps, 0, n)| && StampColumn(steps, 0, n)[m] == steps[m].grab.stamp
  {
    StampColumnAt(steps, 0, n);
    assert StampColumn(steps, 0, n)[m - 0] == steps[m].grab.stamp;
  }

  lemma NameAt(c: Config, camnum: nat, n: nat, m: nat)
    requires m < n
    ensures Tabulate(Names(c, camnum), 0, n)[m] == FrameFileName(c.fileName, m, c.numImages, camnum)
  {
    NameColumnAt(c, camnum, 0, n, m);
  }

  /**
   * A finished lane ended the acquisition once; on the primary camera it
   * then reported the analysis of its timestamps; and its last event, and
   * only log write, appends those timestamps to the camera's times log.
   */
  lemma LaneLogs(c: Config, camnum: nat, steps: seq<Step>)
    requires RunLane(c, camnum, steps).status == Finished
    ensures var r := RunLane(c, camnum, steps);
            var ts := Stamps(r.events);
            var log := (TimesLogName(c.fileName, camnum), Serialise(StampTexts(ts)));
            && EndCount(r.events) == 1
            && Appends(r.events) == [log]
            && |r.events| >= 2
            && r.events[|r.events| - 1] == Appended(log.0, log.1)
            && (camnum == 0 ==> Analyse(ts).Success? && r.events[|r.events| - 2] == Analysed(Analyse(ts).value))
  {
    var cap := CaptureFrom(c, camnum, steps, 0);
    var analysis := Analyse(Stamps(cap.events));
    assert RunLane(c, camnum, steps) == Finish(c.fileName, camnum, cap, analysis);
    LoopStops(c, camnum, steps, cap);
    FinishLogs(c.fileName, camnum, cap, analysis);
  }

  /** The loop itself never finishes the lane, nor fails the analysis. */
  lemma LoopStops(c: Config, camnum: nat, steps: seq<Step>, cap: Capture)
    requires Describes(c, camnum, steps, 0, cap)
    ensures cap.stop.Some? ==> cap.stop.value != Finished && cap.stop.value != Raised(NaNMean)
  {
  }

  /** `LaneLogs` for any loop outcome that writes no log itself and any analysis. */
  lemma FinishLogs(fileName: string, camnum: nat, cap: Capture, analysis: Result<TimingReport, AnalysisError>)
    requires cap.stop.None? && Finish(fileName, camnum, cap, analysis).status == Finished
    requires EndCount(cap.events) == 0 && Appends(cap.events) == []
    ensures var r := Finish(fileName, camnum, cap, analysis);
            var log := (TimesLogName(fileName, camnum), Serialise(StampTexts(Stamps(cap.events))));
            && Stamps(r.events) == Stamps(cap.events)
            && EndCount(r.events) == 1
            && Appends(r.events) == [log]
            && |r.events| >= 2
            && r.events[|r.events| - 1] == Appended(log.0, log.1)
            && (camnum == 0 ==> analysis.Success? && r.events[|r.events| - 2] == Analysed(analysis.value))
  {
    FinishEvents(fileName, camnum, cap, analysis);
  }

  /**
   * A lane with a frame that does not complete (trigger node unavailable,
   * driver error, zero frame rate, or a driver that never delivers) stops at
   * the first such frame, never ends the acquisition and never writes a log;
   * it keeps the stamps and dispatches of the frames before.
   */
  lemma LaneAbort(c: Config, camnum: nat, steps: seq<Step>)
    requires FirstIncomplete(c, steps, 0) < c.numImages
    ensures var r := RunLane(c, camnum, steps);
            var k := FirstIncomplete(c, steps, 0);
            && k < c.numImages
            && Some(r.status) == StopAt(c, steps, k)
            && |Stamps(r.events)| == |Dispatches(r.events)| == k + FramesAtStop(Some(r.status))
            && Stamps(r.events) == StampColumn(steps, 0, k + FramesAtStop(Some(r.status)))
            && Dispatches(r.events) == Tabulate(Names(c, camnum), 0, k + FramesAtStop(Some(r.status)))
            && EndCount(r.events) == 0
            && Appends(r.events) == []
  {
    var cap := CaptureFrom(c, camnum, steps, 0);
    AbortedCapture(c, camnum, steps, cap);
    assert RunLane(c, camnum, steps) == LaneRun(cap.events, cap.stop.value);
  }

  /** `LaneAbort` for any capture the loop's description fits. */
  lemma AbortedCapture(c: Config, camnum: nat, steps: seq<Step>, cap: Capture)
    requires FirstIncomplete(c, steps, 0) < c.numImages
    requires Describes(c, camnum, steps, 0, cap)
    ensures var k := FirstIncomplete(c, steps, 0);
            && cap.stop.Some? && cap.stop == StopAt(c, steps, k)
            && Stamps(cap.events) == StampColumn(steps, 0, k + FramesAtStop(cap.stop))
            && Dispatches(cap.events) == Tabulate(Names(c, camnum), 0, k + FramesAtStop(cap.stop))
            && |Stamps(cap.events)| == |Dispatches(cap.events)| == k + FramesAtStop(cap.stop)
            && EndCount(cap.events) == 0
            && Appends(cap.events) == []
  {
    var k := FirstIncomplete(c, steps, 0);
    assert Span(c, steps, 0, cap.stop) == k + FramesAtStop(cap.stop);
  }

  /**
   * `1 / framerate` with a software frame rate of 0: the first frame's
   * stamp is recorded and its image dispatched, then the lane raises.
   */
  lemma ZeroRateCrash(c: Config, camnum: nat, steps: seq<Step>)
    requires c.trigger == Software(0.0) && c.numImages >= 1
    requires |steps| >= 1 && steps[0].triggerWritable && steps[0].grab.Frame?
    ensures var r := RunLane(c, camnum, steps);
            && r.status == Raised(ZeroDivision)
            && Stamps(r.events) == [steps[0].grab.stamp]
            && Dispatches(r.events) == [FrameFileName(c.fileName, 0, c.numImages, camnum)]
            && EndCount(r.events) == 0
            && Appends(r.events) == []
  {
    var cap := CaptureFrom(c, camnum, steps, 0);
    assert Describes(c, camnum, steps, 0, cap);
    assert FirstIncomplete(c, steps, 0) == 0;
  }

  /**
   * The primary camera with fewer than two frames: the mean of no
   * intervals cannot be rounded, after the acquisition has ended and before
   * the times log is written.
   */
  lemma PrimaryTooFewFrames(c: Config, steps: seq<Step>)
    requires c.numImages < 2 && FirstIncomplete(c, steps, 0) >= c.numImages
    ensures var r := RunLane(c, 0, steps);
            && r.status == Raised(NaNMean)
            && EndCount(r.events) == 1
            && Appends(r.events) == []
  {
    LoopCompletes(c, 0, steps);
    var cap := CaptureFrom(c, 0, steps, 0);
    FinishEvents(c.fileName, 0, cap, Analyse(Stamps(cap.events)));
  }

  /** Frame rates of at least 1 Hz with frame times of at least 1 ns. */
  predicate UsualPacing(c: Config, steps: seq<Step>)
  {
    && (c.trigger.Software? ==> c.trigger.framerate >= 1.0)
    && forall j :: 0 <= j < |steps| && steps[j].grab.Frame? ==> steps[j].grab.frameTimeNs >= 1
  }

  lemma {:induction false} NoSleepsFrom(c: Config, camnum: nat, steps: seq<Step>, i: nat)
    requires UsualPacing(c, steps)
    ensures Sleeps(CaptureFrom(c, camnum, steps, i).events) == []
    decreases c.numImages - i
  {
    if i < c.numImages && i < |steps| {
      var f := CaptureFrame(c, camnum, steps[i], i);
      if c.trigger.Software? && Completes(c, steps[i]) {
        NoPacingAtUsualRates(steps[i].grab.frameTimeNs, c.trigger.framerate);
      }
      if f.stop.None? {
        var rest := CaptureFrom(c, camnum, steps, i + 1);
        NoSleepsFrom(c, camnum, steps, i + 1);
        SelectAppend(f.events, rest.events, SleepOf);
      }
    }
  }

  /**
   * Since the frame time is in nanoseconds and the period in seconds, a
   * lane at a frame rate of 1 Hz or more never sleeps.
   */
  lemma LaneNeverSleeps(c: Config, camnum: nat, steps: seq<Step>)
    requires UsualPacing(c, steps)
    ensures Sleeps(RunLane(c, camnum, steps).events) == []
  {
    var cap := CaptureFrom(c, camnum, steps, 0);
    NoSleepsFrom(c, camnum, steps, 0);
    if cap.stop.None? {
      FinishEvents(c.fileName, camnum, cap, Analyse(Stamps(cap.events)));
    }
  }
}
