/**
 * One camera's capture lane of the SPRA script (`ThreadCapture.run`): for
 * each frame, grab, record the wall-clock time as text, on the primary
 * camera start the DAQ tasks at the first frame and sample the serial port
 * and the CPU load, and dispatch the image write; then end the acquisition
 * and append the timestamp log and, on the primary camera, the rotary and
 * CPU logs.
 *
 * The driver is a sequence of per-frame deliveries; a lane that asks for
 * more frames than the sequence holds waits for ever.
 */
module SpraLane {
  import opened Outcomes
  import opened Decimal
  import opened Naming
  import opened Logs
  import opened Rotary
  import opened LaneTrace

  /**
   * What `GetNextImage` gives for one frame, together with what the lane
   * reads right after it: the text of `time.time()`, the next line from the
   * serial port and the text of the CPU load.
   */
  datatype Delivery =
    | Image(stamp: string, serialLine: seq<Byte>, cpuPercent: string)
    | GrabFailed  // `PySpin.SpinnakerException`

  /** The script-level settings a lane reads. */
  datatype Setup = Setup(
    numImages: int,
    fileName: string,
    auxPath: string,
    daqOnline: bool,
    serialAvailable: bool,
    decode: seq<Byte> -> Decoded)

  type Trace = seq<Event<string>>

  /** The events of one or more frames, and whether the lane stopped there. */
  datatype Capture = Capture(events: Trace, stop: Option<Status>)

  function Optional(b: bool, e: Event<string>): Trace
  {
    if b then [e] else []
  }

  /** The events of a delivered frame `i` (0-based). */
  function FrameEvents(s: Setup, camnum: nat, i: nat, image: Delivery): Trace
    requires image.Image?
  {
    [Recorded(image.stamp)]
    + Optional(camnum == 0 && i == 0 && s.daqOnline, DaqStarted)
    + Optional(camnum == 0 && s.serialAvailable, SerialRead(image.serialLine))
    + Optional(camnum == 0, CpuSampled(image.cpuPercent))
    + [Dispatched(SpraFrameFileName(s.fileName, i, camnum))]
  }

  lemma SelectOptional<T>(b: bool, e: Event<string>, pick: Event<string> -> Option<T>)
    ensures Select(Optional(b, e), pick) == if b then Picked(e, pick) else []
  {
    if b {
      SelectSingle(e, pick);
    }
  }

  /** What `pick` selects from a frame: the picks of its events, in order. */
  lemma FramePicks<T>(s: Setup, camnum: nat, i: nat, image: Delivery, pick: Event<string> -> Option<T>)
    requires image.Image?
    ensures Select(FrameEvents(s, camnum, i, image), pick) ==
              Picked(Recorded(image.stamp), pick)
              + (if camnum == 0 && i == 0 && s.daqOnline then Picked(DaqStarted, pick) else [])
              + (if camnum == 0 && s.serialAvailable then Picked(SerialRead(image.serialLine), pick) else [])
              + (if camnum == 0 then Picked(CpuSampled(image.cpuPercent), pick) else [])
              + Picked(Dispatched(SpraFrameFileName(s.fileName, i, camnum)), pick)
  {
    var a: Trace := [Recorded(image.stamp)];
    var b := Optional(camnum == 0 && i == 0 && s.daqOnline, DaqStarted);
    var c := Optional(camnum == 0 && s.serialAvailable, SerialRead(image.serialLine));
    var d := Optional(camnum == 0, CpuSampled(image.cpuPercent));
    var e: Trace := [Dispatched(SpraFrameFileName(s.fileName, i, camnum))];
    SelectAppend(a + b + c + d, e, pick);
    SelectAppend(a + b + c, d, pick);
    SelectAppend(a + b, c, pick);
    SelectAppend(a, b, pick);
    SelectSingle(a[0], pick);
    SelectSingle(e[0], pick);
    SelectOptional(camnum == 0 && i == 0 && s.daqOnline, DaqStarted, pick);
    SelectOptional(camnum == 0 && s.serialAvailable, SerialRead(image.serialLine), pick);
    SelectOptional(camnum == 0, CpuSampled(image.cpuPercent), pick);
  }

  /** A delivered frame records its stamp and dispatches its image once, and writes no log. */
  lemma FrameCoreFacts(s: Setup, camnum: nat, i: nat, image: Delivery)
    requires image.Image?
    ensures var t := FrameEvents(s, camnum, i, image);
            && Stamps(t) == [image.stamp]
            && Dispatches(t) == [SpraFrameFileName(s.fileName, i, camnum)]
            && EndCount(t) == 0
            && Appends(t) == []
  {
    FramePicks(s, camnum, i, image, StampOf);
    FramePicks(s, camnum, i, image, DispatchOf);
    FramePicks(s, camnum, i, image, EndOf);
    FramePicks(s, camnum, i, image, AppendOf);
  }

  /**
   * Only the primary camera samples the CPU, reads the serial port (when it
   * is available) and, at the first frame, starts the DAQ (when it is online).
   */
  lemma FramePrimaryFacts(s: Setup, camnum: nat, i: nat, image: Delivery)
    requires image.Image?
    ensures var t := FrameEvents(s, camnum, i, image);
            && CpuSamples(t) == (if camnum == 0 then [image.cpuPercent] else [])
            && SerialReads(t) == (if camnum == 0 && s.serialAvailable then [image.serialLine] else [])
            && DaqStarts(t) == (if camnum == 0 && i == 0 && s.daqOnline then 1 else 0)
  {
    FramePicks(s, camnum, i, image, CpuOf);
    FramePicks(s, camnum, i, image, SerialOf);
    FramePicks(s, camnum, i, image, DaqOf);
  }

  /** The first frame from `i` on that the driver does not deliver; `numImages` if none. */
  function FirstFailed(s: Setup, steps: seq<Delivery>, i: nat): (k: nat)
    ensures i < s.numImages ==> i <= k <= s.numImages
    ensures i >= s.numImages ==> k == i
    ensures AllDelivered(steps, i, k - i)
    ensures k < s.numImages ==> k >= |steps| || steps[k].GrabFailed?
    decreases s.numImages - i
  {
    if i >= s.numImages || i >= |steps| || steps[i].GrabFailed? then i
    else FirstFailed(s, steps, i + 1)
  }

  /** How the loop ends when frame `k` is the first that is not delivered. */
  function StopAt(s: Setup, steps: seq<Delivery>, k: nat): Option<Status>
  {
    if k >= s.numImages then None
    else if k >= |steps| then Some(Blocked)
    else Some(ReturnedFalse(SpinnakerError))
  }

  /** The number of frames the loop from `i` on delivers. */
  function Delivered(s: Setup, steps: seq<Delivery>, i: nat): nat
  {
    if i < s.numImages then FirstFailed(s, steps, i) - i else 0
  }

  /**
   * The loop from frame `i` on stops at the first frame not delivered, with
   * the status that calls for; it records the stamp and dispatches the file
   * name of every frame before, in frame order; it never ends the
   * acquisition and never writes a log.
   */
  predicate LoopCore(s: Setup, camnum: nat, steps: seq<Delivery>, i: nat, r: Capture)
  {
    var n := Delivered(s, steps, i);
    && r.stop == StopAt(s, steps, FirstFailed(s, steps, i))
    && Stamps(r.events) == StampColumn(steps, i, n)
    && Dispatches(r.events) == Tabulate(Names(s.fileName, camnum), i, n)
    && EndCount(r.events) == 0
    && Appends(r.events) == []
  }

  /** The driver delivers each of the `n` frames from `i` on. */
  predicate AllDelivered(steps: seq<Delivery>, i: nat, n: nat)
  {
    n == 0 || (i + n <= |steps| && forall j :: i <= j < i + n ==> steps[j].Image?)
  }

  /** The file name of each frame, by frame number. */
  function Names(fileName: string, camnum: nat): nat -> string
  {
    j => SpraFrameFileName(fileName, j, camnum)
  }

  /** The stamps of the `n` frames from `i` on that were delivered, in order. */
  function StampColumn(steps: seq<Delivery>, i: nat, n: nat): (r: seq<string>)
    ensures |r| <= n
    ensures AllDelivered(steps, i, n) ==> |r| == n
    decreases n
  {
    if n == 0 || i >= |steps| then []
    else (if steps[i].Image? then [steps[i].stamp] else []) + StampColumn(steps, i + 1, n - 1)
  }

  /** The CPU readings of the `n` frames from `i` on that were delivered, in order. */
  function CpuColumn(steps: seq<Delivery>, i: nat, n: nat): (r: seq<string>)
    ensures |r| <= n
    ensures AllDelivered(steps, i, n) ==> |r| == n
    decreases n
  {
    if n == 0 || i >= |steps| then []
    else (if steps[i].Image? then [steps[i].cpuPercent] else []) + CpuColumn(steps, i + 1, n - 1)
  }

  /** The serial lines of the `n` frames from `i` on that were delivered, in order. */
  function SerialColumn(steps: seq<Delivery>, i: nat, n: nat): (r: seq<seq<Byte>>)
    ensures |r| <= n
    ensures AllDelivered(steps, i, n) ==> |r| == n
    decreases n
  {
    if n == 0 || i >= |steps| then []
    else (if steps[i].Image? then [steps[i].serialLine] else []) + SerialColumn(steps, i + 1, n - 1)
  }

  /** When every frame is delivered, the columns hold each frame's reading at its place. */
  lemma {:induction false} ColumnsAt(steps: seq<Delivery>, i: nat, n: nat)
    requires AllDelivered(steps, i, n)
    ensures forall j :: i <= j < i + n ==>
              && StampColumn(steps, i, n)[j - i] == steps[j].stamp
              && CpuColumn(steps, i, n)[j - i] == steps[j].cpuPercent
              && SerialColumn(steps, i, n)[j - i] == steps[j].serialLine
    decreases n
  {
    if n > 0 {
      ColumnsAt(steps, i + 1, n - 1);
      var st, stRest := StampColumn(steps, i, n), StampColumn(steps, i + 1, n - 1);
      var cpu, rest := CpuColumn(steps, i, n), CpuColumn(steps, i + 1, n - 1);
      var ser, serRest := SerialColumn(steps, i, n), SerialColumn(steps, i + 1, n - 1);
      assert st == [steps[i].stamp] + stRest;
      assert cpu == [steps[i].cpuPercent] + rest;
      assert ser == [steps[i].serialLine] + serRest;
      forall j | i <= j < i + n
        ensures st[j - i] == steps[j].stamp && cpu[j - i] == steps[j].cpuPercent && ser[j - i] == steps[j].serialLine
      {
        if j == i {
          assert st[0] == steps[i].stamp;
          assert cpu[0] == steps[i].cpuPercent;
          assert ser[0] == steps[i].serialLine;
        } else {
          assert st[j - i] == stRest[j - (i + 1)];
          assert cpu[j - i] == rest[j - (i + 1)];
          assert ser[j - i] == serRest[j - (i + 1)];
        }
      }
    }
  }

  /** Frame `j` of the name column is frame `j`'s file name. */
  lemma NameColumnAt(fileName: string, camnum: nat, i: nat, n: nat, j: nat)
    requires i <= j < i + n
    ensures Tabulate(Names(fileName, camnum), i, n)[j - i] == SpraFrameFileName(fileName, j, camnum)
  {
    TabulateAt(Names(fileName, camnum), i, n, j);
  }

  /**
   * On the primary camera the loop from frame `i` on samples the CPU once per
   * delivered frame and the serial port once per delivered frame when it is
   * available, in frame order, and starts the DAQ once when it runs frame 0
   * and the DAQ is online; other cameras do none of these.
   */
  predicate LoopPrimary(s: Setup, camnum: nat, steps: seq<Delivery>, i: nat, r: Capture)
  {
    var n := Delivered(s, steps, i);
    && CpuSamples(r.events) == (if camnum == 0 then CpuColumn(steps, i, n) else [])
    && SerialReads(r.events) == (if camnum == 0 && s.serialAvailable then SerialColumn(steps, i, n) else [])
    && DaqStarts(r.events) == (if camnum == 0 && s.daqOnline && i == 0 && n > 0 then 1 else 0)
  }

  /** The loop from frame `i` on. */
  function CaptureFrom(s: Setup, camnum: nat, steps: seq<Delivery>, i: nat): (r: Capture)
    ensures LoopCore(s, camnum, steps, i, r)
    ensures LoopPrimary(s, camnum, steps, i, r)
    decreases s.numImages - i
  {
    if i >= s.numImages then Capture([], None)
    else if i >= |steps| then Capture([], Some(Blocked))
    else if steps[i].GrabFailed? then Capture([], Some(ReturnedFalse(SpinnakerError)))
    else
      var frame := FrameEvents(s, camnum, i, steps[i]);
      FrameCoreFacts(s, camnum, i, steps[i]);
      FramePrimaryFacts(s, camnum, i, steps[i]);
      var rest := CaptureFrom(s, camnum, steps, i + 1);
      NextCore(s, camnum, steps, i, frame, rest);
      NextPrimary(s, camnum, steps, i, frame, rest);
      Capture(frame + rest.events, rest.stop)
  }

  /** A delivered frame `i` heads every column of the loop from `i` on. */
  lemma StepColumns(s: Setup, camnum: nat, steps: seq<Delivery>, i: nat)
    requires i < s.numImages && i < |steps| && steps[i].Image?
    ensures FirstFailed(s, steps, i) == FirstFailed(s, steps, i + 1)
    ensures var n := Delivered(s, steps, i);
            && n == Delivered(s, steps, i + 1) + 1
            && StampColumn(steps, i, n) == [steps[i].stamp] + StampColumn(steps, i + 1, n - 1)
            && Tabulate(Names(s.fileName, camnum), i, n) ==
                 [SpraFrameFileName(s.fileName, i, camnum)] + Tabulate(Names(s.fileName, camnum), i + 1, n - 1)
            && CpuColumn(steps, i, n) == [steps[i].cpuPercent] + CpuColumn(steps, i + 1, n - 1)
            && SerialColumn(steps, i, n) == [steps[i].serialLine] + SerialColumn(steps, i + 1, n - 1)
  {
    assert FirstFailed(s, steps, i) == FirstFailed(s, steps, i + 1);
    TabulateHead(Names(s.fileName, camnum), i, Delivered(s, steps, i));
  }

  /** A delivered frame puts its stamp and dispatch in front of the rest of the loop. */
  lemma NextCore(s: Setup, camnum: nat, steps: seq<Delivery>, i: nat, frame: Trace, rest: Capture)
    requires i < s.numImages && i < |steps| && steps[i].Image?
    requires Stamps(frame) == [steps[i].stamp]
    requires Dispatches(frame) == [SpraFrameFileName(s.fileName, i, camnum)]
    requires EndCount(frame) == 0 && Appends(frame) == []
    requires LoopCore(s, camnum, steps, i + 1, rest)
    ensures LoopCore(s, camnum, steps, i, Capture(frame + rest.events, rest.stop))
  {
    var es := frame + rest.events;
    StepColumns(s, camnum, steps, i);
    SilentAppend(frame, rest.events);
    assert Stamps(es) == Stamps(frame) + Stamps(rest.events) by {
      SelectAppend(frame, rest.events, StampOf);
    }
    assert Dispatches(es) == Dispatches(frame) + Dispatches(rest.events) by {
      SelectAppend(frame, rest.events, DispatchOf);
    }
  }

  /** A delivered frame puts its primary-camera samples in front of the rest of the loop. */
  lemma NextPrimary(s: Setup, camnum: nat, steps: seq<Delivery>, i: nat, frame: Trace, rest: Capture)
    requires i < s.numImages && i < |steps| && steps[i].Image?
    requires CpuSamples(frame) == (if camnum == 0 then [steps[i].cpuPercent] else [])
    requires SerialReads(frame) == (if camnum == 0 && s.serialAvailable then [steps[i].serialLine] else [])
    requires DaqStarts(frame) == (if camnum == 0 && i == 0 && s.daqOnline then 1 else 0)
    requires LoopPrimary(s, camnum, steps, i + 1, rest)
    ensures LoopPrimary(s, camnum, steps, i, Capture(frame + rest.events, rest.stop))
  {
    var es := frame + rest.events;
    StepColumns(s, camnum, steps, i);
    assert CpuSamples(es) == CpuSamples(frame) + CpuSamples(rest.events) by {
      SelectAppend(frame, rest.events, CpuOf);
    }
    assert SerialReads(es) == SerialReads(frame) + SerialReads(rest.events) by {
      SelectAppend(frame, rest.events, SerialOf);
    }
    assert DaqStarts(es) == DaqStarts(frame) + DaqStarts(rest.events) by {
      SelectAppend(frame, rest.events, DaqOf);
    }
  }

  // ---------------------------------------------------------------------------
  // After the loop

  /** `aux_savepath + filename + '_t' + str(camnum) + '.txt'`. */
  function TimesLogName(s: Setup, camnum: nat): string
  {
    s.auxPath + s.fileName + "_t" + IntToStr(camnum) + ".txt"
  }

  function RotaryLogName(s: Setup): string
  {
    s.auxPath + s.fileName + "_r.txt"
  }

  function CpuLogName(s: Setup): string
  {
    s.auxPath + s.fileName + "_cpu.txt"
  }

  /** The log writes after the acquisition, in order, from the loop's events. */
  function LogWrites(s: Setup, camnum: nat, events: Trace): Trace
  {
    [Appended(TimesLogName(s, camnum), Serialise(Stamps(events)))]
    + (if camnum == 0 then
         Optional(s.serialAvailable, Appended(RotaryLogName(s), RotaryLog(SerialReads(events), s.decode)))
         + [Appended(CpuLogName(s), Serialise(CpuSamples(events)))]
       else [])
  }

  /**
   * After the loop: a lane that stopped inside it has nothing more to do;
   * otherwise it ends the acquisition; the primary camera then computes the
   * frame rate from the times of frame 0 and of the end, which raises when
   * no frame was asked for; and the lane writes its logs.
   */
  function Finish(s: Setup, camnum: nat, cap: Capture): LaneRun<string>
  {
    if cap.stop.Some? then LaneRun(cap.events, cap.stop.value)
    else if camnum == 0 && s.numImages <= 0 then LaneRun(cap.events + [EndedAcquisition], Raised(NoStartTime))
    else LaneRun(cap.events + ([EndedAcquisition] + LogWrites(s, camnum, cap.events)), Finished)
  }

  /** The whole lane. */
  function RunLane(s: Setup, camnum: nat, steps: seq<Delivery>): LaneRun<string>
  {
    Finish(s, camnum, CaptureFrom(s, camnum, steps, 0))
  }

  /** Events after the loop that record, dispatch and sample nothing. */
  predicate Quiet(tail: Trace)
  {
    forall i :: 0 <= i < |tail| ==>
      !tail[i].Recorded? && !tail[i].Dispatched? && !tail[i].CpuSampled? && !tail[i].SerialRead? && !tail[i].DaqStarted?
  }

  /** What the lane does after the loop leaves the loop's samples alone. */
  lemma Epilogue(cap: Trace, tail: Trace)
    requires Quiet(tail)
    ensures Stamps(cap + tail) == Stamps(cap)
    ensures Dispatches(cap + tail) == Dispatches(cap)
    ensures CpuSamples(cap + tail) == CpuSamples(cap)
    ensures SerialReads(cap + tail) == SerialReads(cap)
    ensures DaqStarts(cap + tail) == DaqStarts(cap)
    ensures EndCount(cap + tail) == EndCount(cap) + EndCount(tail)
    ensures Appends(cap + tail) == Appends(cap) + Appends(tail)
  {
    SelectAppend(cap, tail, StampOf);
    SelectAppend(cap, tail, DispatchOf);
    SelectAppend(cap, tail, CpuOf);
    SelectAppend(cap, tail, SerialOf);
    SelectAppend(cap, tail, DaqOf);
    SelectAppend(cap, tail, EndOf);
    SelectAppend(cap, tail, AppendOf);
    SelectNone(tail, StampOf);
    SelectNone(tail, DispatchOf);
    SelectNone(tail, CpuOf);
    SelectNone(tail, SerialOf);
    SelectNone(tail, DaqOf);
  }

  lemma {:induction false} QuietAppend(a: Trace, b: Trace)
    requires Quiet(a) && Quiet(b)
    ensures Quiet(a + b)
  {
    forall i | 0 <= i < |a + b|
      ensures var e := (a + b)[i];
              !e.Recorded? && !e.Dispatched? && !e.CpuSampled? && !e.SerialRead? && !e.DaqStarted?
    {
      if i < |a| {
        assert (a + b)[i] == a[i];
      } else {
        assert (a + b)[i] == b[i - |a|];
      }
    }
  }

  /** The log writes neither sample nor end the acquisition. */
  lemma LogWritesQuiet(s: Setup, camnum: nat, events: Trace)
    ensures Quiet(LogWrites(s, camnum, events))
    ensures EndCount(LogWrites(s, camnum, events)) == 0
  {
    var times: Event<string> := Appended(TimesLogName(s, camnum), Serialise(Stamps(events)));
    var rot: Event<string> := Appended(RotaryLogName(s), RotaryLog(SerialReads(events), s.decode));
    var cpu: Event<string> := Appended(CpuLogName(s), Serialise(CpuSamples(events)));
    WritesQuiet(times, rot, cpu, camnum == 0, s.serialAvailable);
  }

  lemma WritesQuiet(times: Event<string>, rot: Event<string>, cpu: Event<string>, primary: bool, serial: bool)
    requires times.Appended? && rot.Appended? && cpu.Appended?
    ensures var w := [times] + (if primary then Optional(serial, rot) + [cpu] else []);
            Quiet(w) && EndCount(w) == 0
  {
    var w := [times] + (if primary then Optional(serial, rot) + [cpu] else []);
    assert forall i :: 0 <= i < |w| ==> w[i].Appended?;
    SelectNone(w, EndOf);
  }

  /**
   * The log writes: the times log, then on the primary camera the rotary log
   * (when the serial port is available) and the CPU log.
   */
  lemma LogWriteAppends(s: Setup, camnum: nat, events: Trace)
    ensures Appends(LogWrites(s, camnum, events)) ==
              [(TimesLogName(s, camnum), Serialise(Stamps(events)))]
              + (if camnum == 0 then
                   (if s.serialAvailable then [(RotaryLogName(s), RotaryLog(SerialReads(events), s.decode))] else [])
                   + [(CpuLogName(s), Serialise(CpuSamples(events)))]
                 else [])
  {
    var times: Event<string> := Appended(TimesLogName(s, camnum), Serialise(Stamps(events)));
    var rot: Event<string> := Appended(RotaryLogName(s), RotaryLog(SerialReads(events), s.decode));
    var cpu: Event<string> := Appended(CpuLogName(s), Serialise(CpuSamples(events)));
    SelectSingle(times, AppendOf);
    if camnum == 0 {
      var opt := Optional(s.serialAvailable, rot);
      SelectOptional(s.serialAvailable, rot, AppendOf);
      SelectSingle(cpu, AppendOf);
      SelectAppend(opt, [cpu], AppendOf);
      SelectAppend([times], opt + [cpu], AppendOf);
    } else {
      assert LogWrites(s, camnum, events) == [times];
    }
  }

  /**
   * A lane that gets past the loop ends the acquisition once, keeps the
   * loop's samples, and when it finishes writes its logs after them.
   */
  lemma FinishEvents(s: Setup, camnum: nat, cap: Capture)
    requires cap.stop.None?
    ensures var r := Finish(s, camnum, cap);
            && (r.status == Finished <==> camnum != 0 || s.numImages > 0)
            && (r.status != Finished ==> r.status == Raised(NoStartTime))
            && Stamps(r.events) == Stamps(cap.events)
            && Dispatches(r.events) == Dispatches(cap.events)
            && CpuSamples(r.events) == CpuSamples(cap.events)
            && SerialReads(r.events) == SerialReads(cap.events)
            && DaqStarts(r.events) == DaqStarts(cap.events)
            && EndCount(r.events) == EndCount(cap.events) + 1
            && Appends(r.events) ==
                 Appends(cap.events) + (if r.status == Finished then Appends(LogWrites(s, camnum, cap.events)) else [])
  {
    var ended: Trace := [EndedAcquisition];
    SelectSingle(ended[0], EndOf);
    SelectSingle(ended[0], AppendOf);
    assert Quiet(ended);
    if camnum == 0 && s.numImages <= 0 {
      Epilogue(cap.events, ended);
    } else {
      var w := LogWrites(s, camnum, cap.events);
      LogWritesQuiet(s, camnum, cap.events);
      QuietAppend(ended, w);
      assert EndCount(ended + w) == 1 by {
        SelectAppend(ended, w, EndOf);
      }
      assert Appends(ended + w) == Appends(w) by {
        SelectAppend(ended, w, AppendOf);
      }
      Epilogue(cap.events, ended + w);
    }
  }

  // ---------------------------------------------------------------------------
  // The lane

  /**
   * A lane finishes exactly when the driver delivers every frame it asks
   * for and, on the primary camera, it asks for at least one.
   */
  lemma LaneFinishes(s: Setup, camnum: nat, steps: seq<Delivery>)
    ensures RunLane(s, camnum, steps).status == Finished <==>
              FirstFailed(s, steps, 0) >= s.numImages && (camnum != 0 || s.numImages > 0)
  {
    var cap := CaptureFrom(s, camnum, steps, 0);
    if cap.stop.None? {
      FinishEvents(s, camnum, cap);
    }
  }

  /**
   * A finished lane was delivered every frame it asked for, and it recorded
   * their stamps and dispatched their images, in frame order.
   */
  lemma LaneFrames(s: Setup, camnum: nat, steps: seq<Delivery>)
    requires RunLane(s, camnum, steps).status == Finished
    ensures var r := RunLane(s, camnum, steps);
            && AllDelivered(steps, 0, FrameCount(s.numImages))
            && Stamps(r.events) == StampColumn(steps, 0, FrameCount(s.numImages))
            && Dispatches(r.events) == Tabulate(Names(s.fileName, camnum), 0, FrameCount(s.numImages))
  {
    var cap := CaptureFrom(s, camnum, steps, 0);
    assert RunLane(s, camnum, steps) == Finish(s, camnum, cap);
    assert cap.stop.None?;
    assert Delivered(s, steps, 0) == FrameCount(s.numImages);
    assert LoopCore(s, camnum, steps, 0, cap);
    FinishEvents(s, camnum, cap);
  }

  /**
   * Frame `m` of a finished lane: the driver delivered it, and the lane's
   * `m`-th stamp is its time and its `m`-th dispatch its unpadded file name.
   */
  lemma LaneFrameAt(s: Setup, camnum: nat, steps: seq<Delivery>, m: nat)
    requires RunLane(s, camnum, steps).status == Finished
    requires m < FrameCount(s.numImages)
    ensures var r := RunLane(s, camnum, steps);
            && m < |steps| && steps[m].Image?
            && m < |Stamps(r.events)| && Stamps(r.events)[m] == steps[m].stamp
            && m < |Dispatches(r.events)| && Dispatches(r.events)[m] == SpraFrameFileName(s.fileName, m, camnum)
  {
    var r := RunLane(s, camnum, steps);
    LaneFrames(s, camnum, steps);
    FrameAt(steps, s.fileName, camnum, FrameCount(s.numImages), m, Stamps(r.events), Dispatches(r.events));
  }

  lemma FrameAt(steps: seq<Delivery>, fileName: string, camnum: nat, n: nat, m: nat, stamps: seq<string>, names: seq<string>)
    requires AllDelivered(steps, 0, n) && m < n
    requires stamps == StampColumn(steps, 0, n) && names == Tabulate(Names(fileName, camnum), 0, n)
    ensures m < |steps| && steps[m].Image?
    ensures m < |stamps| && stamps[m] == steps[m].stamp
    ensures m < |names| && names[m] == SpraFrameFileName(fileName, m, camnum)
  {
    ColumnsAt(steps, 0, n);
    NameColumnAt(fileName, camnum, 0, n, m);
    assert steps[m].Image?;
    assert stamps[m - 0] == steps[m].stamp;
  }

  /**
   * A finished primary lane sampled the CPU at every frame and the serial
   * port at every frame when it is available, in frame order, and started
   * the DAQ once when it is online; other cameras did none of these.
   */
  lemma LaneSamples(s: Setup, camnum: nat, steps: seq<Delivery>)
    requires RunLane(s, camnum, steps).status == Finished
    ensures var r := RunLane(s, camnum, steps);
            && AllDelivered(steps, 0, FrameCount(s.numImages))
            && CpuSamples(r.events) == (if camnum == 0 then CpuColumn(steps, 0, FrameCount(s.numImages)) else [])
            && SerialReads(r.events) ==
                 (if camnum == 0 && s.serialAvailable then SerialColumn(steps, 0, FrameCount(s.numImages)) else [])
            && DaqStarts(r.events) == (if camnum == 0 && s.daqOnline then 1 else 0)
  {
    var cap := CaptureFrom(s, camnum, steps, 0);
    var r := Finish(s, camnum, cap);
    assert RunLane(s, camnum, steps) == r;
    LaneFinishes(s, camnum, steps);
    assert cap.stop.None?;
    assert Delivered(s, steps, 0) == FrameCount(s.numImages);
    assert LoopPrimary(s, camnum, steps, 0, cap);
    FinishEvents(s, camnum, cap);
  }

  /**
   * A finished lane ended the acquisition once and its only log writes are
   * its timestamps to its times log, then on the primary camera its rotary
   * entries (when the serial port is available) and its CPU readings.
   */
  lemma LaneLogs(s: Setup, camnum: nat, steps: seq<Delivery>)
    requires RunLane(s, camnum, steps).status == Finished
    ensures var r := RunLane(s, camnum, steps);
            && EndCount(r.events) == 1
            && Appends(r.events) ==
                 [(TimesLogName(s, camnum), Serialise(Stamps(r.events)))]
                 + (if camnum == 0 then
                      (if s.serialAvailable then [(RotaryLogName(s), RotaryLog(SerialReads(r.events), s.decode))] else [])
                      + [(CpuLogName(s), Serialise(CpuSamples(r.events)))]
                    else [])
  {
    var cap := CaptureFrom(s, camnum, steps, 0);
    assert RunLane(s, camnum, steps) == Finish(s, camnum, cap);
    assert cap.stop.None?;
    FinishLogs(s, camnum, cap);
  }

  /** `LaneLogs` for any loop outcome that writes no log itself. */
  lemma FinishLogs(s: Setup, camnum: nat, cap: Capture)
    requires cap.stop.None? && Finish(s, camnum, cap).status == Finished
    requires EndCount(cap.events) == 0 && Appends(cap.events) == []
    ensures var r := Finish(s, camnum, cap);
            && EndCount(r.events) == 1
            && Appends(r.events) ==
                 [(TimesLogName(s, camnum), Serialise(Stamps(r.events)))]
                 + (if camnum == 0 then
                      (if s.serialAvailable then [(RotaryLogName(s), RotaryLog(SerialReads(r.events), s.decode))] else [])
                      + [(CpuLogName(s), Serialise(CpuSamples(r.events)))]
                    else [])
  {
    FinishEvents(s, camnum, cap);
    LogWriteAppends(s, camnum, cap.events);
  }

  /**
   * Every log a finished lane writes reads back, line by line, to what it
   * recorded: the times log to its stamps and, on the primary camera, the
   * rotary log to the parsed serial lines and the CPU log to its samples
   * (stamps and CPU readings, being printed numbers, hold no line break).
   */
  lemma LogsReadBack(s: Setup, camnum: nat, steps: seq<Delivery>)
    requires RunLane(s, camnum, steps).status == Finished
    requires NoNewlines(Stamps(RunLane(s, camnum, steps).events))
    requires NoNewlines(CpuSamples(RunLane(s, camnum, steps).events))
    ensures var r := RunLane(s, camnum, steps);
            var logs := Appends(r.events);
            && |logs| >= 1
            && ParseLog(logs[0].1) == Some(Stamps(r.events))
            && (camnum == 0 ==>
                  && ParseLog(logs[|logs| - 1].1) == Some(CpuSamples(r.events))
                  && (s.serialAvailable ==>
                        |logs| == 3 && ParseLog(logs[1].1) == Some(RotaryItems(SerialReads(r.events), s.decode))))
  {
    LaneLogs(s, camnum, steps);
    LogsOfTrace(s, camnum, RunLane(s, camnum, steps).events);
  }

  /** `LogsReadBack` for any trace whose appends are a finished lane's. */
  lemma LogsOfTrace(s: Setup, camnum: nat, events: Trace)
    requires NoNewlines(Stamps(events)) && NoNewlines(CpuSamples(events))
    requires Appends(events) ==
               [(TimesLogName(s, camnum), Serialise(Stamps(events)))]
               + (if camnum == 0 then
                    (if s.serialAvailable then [(RotaryLogName(s), RotaryLog(SerialReads(events), s.decode))] else [])
                    + [(CpuLogName(s), Serialise(CpuSamples(events)))]
                  else [])
    ensures var logs := Appends(events);
            && |logs| >= 1
            && ParseLog(logs[0].1) == Some(Stamps(events))
            && (camnum == 0 ==>
                  && ParseLog(logs[|logs| - 1].1) == Some(CpuSamples(events))
                  && (s.serialAvailable ==>
                        |logs| == 3 && ParseLog(logs[1].1) == Some(RotaryItems(SerialReads(events), s.decode))))
  {
    ParseSerialise(Stamps(events));
    ParseSerialise(CpuSamples(events));
    RotaryLogReadsBack(SerialReads(events), s.decode);
  }

  /**
   * A driver error returns False at once and a driver that stops delivering
   * blocks: either way the lane never ends the acquisition and writes no
   * log, and it keeps the stamps of the frames delivered before.
   */
  lemma LaneAbort(s: Setup, camnum: nat, steps: seq<Delivery>)
    requires RunLane(s, camnum, steps).status !in {Finished, Raised(NoStartTime)}
    ensures var r := RunLane(s, camnum, steps);
            var k := FirstFailed(s, steps, 0);
            && k < s.numImages
            && Some(r.status) == StopAt(s, steps, k)
            && |Stamps(r.events)| == |Dispatches(r.events)| == k
            && Stamps(r.events) == StampColumn(steps, 0, k)
            && Dispatches(r.events) == Tabulate(Names(s.fileName, camnum), 0, k)
            && EndCount(r.events) == 0
            && Appends(r.events) == []
  {
    var cap := CaptureFrom(s, camnum, steps, 0);
    if cap.stop.None? {
      FinishEvents(s, camnum, cap);
    }
  }

  /**
   * The primary camera asked for no frame: the start time was never taken,
   * so the frame-rate computation raises right after the acquisition ends,
   * before any log is written.
   */
  lemma PrimaryWithoutFrames(s: Setup, steps: seq<Delivery>)
    requires s.numImages <= 0
    ensures RunLane(s, 0, steps) == LaneRun([EndedAcquisition], Raised(NoStartTime))
  {
  }
}
