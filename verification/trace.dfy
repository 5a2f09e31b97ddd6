/**
 * What a capture lane (one camera's `ThreadCapture.run`) does that can be
 * observed from outside: the events it produces in order and how it ends.
 * The camera driver, clocks and peripherals are inputs; write-behind image
 * saving appears only as the dispatch of a file name.
 */
module LaneTrace {
  import opened Outcomes
  import Timing
  import Rotary

  /** One observable step of a lane; `S` is how a timestamp is kept. */
  datatype Event<S> =
    | Recorded(stamp: S)                  // `times.append(...)`
    | Dispatched(file: string)            // a `ThreadWrite` started for this file name
    | Slept(seconds: real)                // `time.sleep(...)`
    | DaqStarted                          // the DAQ output and input tasks started
    | SerialRead(line: seq<Rotary.Byte>)  // `rotary_data.append(ser.readline())`
    | CpuSampled(percent: string)         // `cpu_data.append(str(psutil.cpu_percent()))`
    | EndedAcquisition                    // `self.cam.EndAcquisition()`
    | Analysed(report: Timing.TimingReport) // the interframe statistics printed
    | Appended(file: string, text: string)  // text appended to a log file

  /** Why a lane stopped early. */
  datatype Cause =
    | TriggerNodeUnavailable  // the software-trigger node is not available or not writable
    | SpinnakerError          // the driver raised `PySpin.SpinnakerException`
    | ZeroDivision            // `1 / framerate` with a frame rate of 0
    | NaNMean                 // `int(round(mean([])))` with fewer than two timestamps
    | NoStartTime             // `t2 - t1` while `t1` is still the empty list

  /** How `run` ends: normally, by returning False, by an uncaught exception, or never. */
  datatype Status =
    | Finished
    | ReturnedFalse(cause: Cause)
    | Raised(cause: Cause)
    | Blocked  // the driver had no outcome for the next frame: `GetNextImage` does not return

  datatype LaneRun<S> = LaneRun(events: seq<Event<S>>, status: Status)

  /** What `pick` selects from one event: nothing or one element. */
  function Picked<S, T>(e: Event<S>, pick: Event<S> -> Option<T>): seq<T>
  {
    match pick(e) case Some(x) => [x] case None => []
  }

  /** The elements `pick` selects from a trace, in order. */
  function Select<S, T>(es: seq<Event<S>>, pick: Event<S> -> Option<T>): (r: seq<T>)
    ensures |r| <= |es|
  {
    if |es| == 0 then []
    else
      var head := match pick(es[0]) case Some(x) => [x] case None => [];
      head + Select(es[1..], pick)
  }

  lemma {:induction false} SelectAppend<S, T>(a: seq<Event<S>>, b: seq<Event<S>>, pick: Event<S> -> Option<T>)
    ensures Select(a + b, pick) == Select(a, pick) + Select(b, pick)
  {
    if |a| == 0 {
      assert a + b == b;
    } else {
      assert (a + b)[0] == a[0];
      assert (a + b)[1..] == a[1..] + b;
      SelectAppend(a[1..], b, pick);
    }
  }

  lemma SelectSingle<S, T>(e: Event<S>, pick: Event<S> -> Option<T>)
    ensures Select([e], pick) == Picked(e, pick)
  {
    assert [e][1..] == [];
  }

  /** A trace none of whose events `pick` selects yields nothing. */
  lemma {:induction false} SelectNone<S, T>(es: seq<Event<S>>, pick: Event<S> -> Option<T>)
    requires forall i :: 0 <= i < |es| ==> pick(es[i]).None?
    ensures Select(es, pick) == []
  {
    if |es| > 0 {
      assert pick(es[0]).None?;
      SelectNone(es[1..], pick);
    }
  }

  /** The number of frames `range(num_images)` asks for: none when `num_images` is not positive. */
  function FrameCount(numImages: int): nat
  {
    if numImages > 0 then numImages else 0
  }

  /** `[f(i), f(i + 1), ..., f(i + n - 1)]`. */
  function Tabulate<T>(f: nat -> T, i: nat, n: nat): (r: seq<T>)
    ensures |r| == n
    decreases n
  {
    if n == 0 then [] else [f(i)] + Tabulate(f, i + 1, n - 1)
  }

  lemma TabulateHead<T>(f: nat -> T, i: nat, n: nat)
    requires n >= 1
    ensures Tabulate(f, i, n) == [f(i)] + Tabulate(f, i + 1, n - 1)
  {
  }

  /** Element `j - i` of a tabulation from `i` is `f(j)`. */
  lemma {:induction false} TabulateAt<T>(f: nat -> T, i: nat, n: nat, j: nat)
    requires i <= j < i + n
    ensures Tabulate(f, i, n)[j - i] == f(j)
    decreases n
  {
    TabulateHead(f, i, n);
    if j > i {
      TabulateAt(f, i + 1, n - 1, j);
      assert Tabulate(f, i, n)[j - i] == Tabulate(f, i + 1, n - 1)[j - (i + 1)];
    }
  }

  function StampOf<S>(e: Event<S>): Option<S>
  {
    if e.Recorded? then Some(e.stamp) else None
  }

  function DispatchOf<S>(e: Event<S>): Option<string>
  {
    if e.Dispatched? then Some(e.file) else None
  }

  function EndOf<S>(e: Event<S>): Option<()>
  {
    if e.EndedAcquisition? then Some(()) else None
  }

  function AppendOf<S>(e: Event<S>): Option<(string, string)>
  {
    if e.Appended? then Some((e.file, e.text)) else None
  }

  function SleepOf<S>(e: Event<S>): Option<real>
  {
    if e.Slept? then Some(e.seconds) else None
  }

  function SerialOf<S>(e: Event<S>): Option<seq<Rotary.Byte>>
  {
    if e.SerialRead? then Some(e.line) else None
  }

  function CpuOf<S>(e: Event<S>): Option<string>
  {
    if e.CpuSampled? then Some(e.percent) else None
  }

  function DaqOf<S>(e: Event<S>): Option<()>
  {
    if e.DaqStarted? then Some(()) else None
  }

  function Stamps<S>(es: seq<Event<S>>): seq<S> { Select(es, StampOf) }
  function Dispatches<S>(es: seq<Event<S>>): seq<string> { Select(es, DispatchOf) }
  function EndCount<S>(es: seq<Event<S>>): nat { |Select(es, EndOf)| }
  function Appends<S>(es: seq<Event<S>>): seq<(string, string)> { Select(es, AppendOf) }
  function Sleeps<S>(es: seq<Event<S>>): seq<real> { Select(es, SleepOf) }
  function SerialReads<S>(es: seq<Event<S>>): seq<seq<Rotary.Byte>> { Select(es, SerialOf) }
  function CpuSamples<S>(es: seq<Event<S>>): seq<string> { Select(es, CpuOf) }
  function DaqStarts<S>(es: seq<Event<S>>): nat { |Select(es, DaqOf)| }

  /** Two stretches that neither end the acquisition nor write a log make one. */
  lemma SilentAppend<S>(a: seq<Event<S>>, b: seq<Event<S>>)
    requires EndCount(a) == 0 && Appends(a) == []
    requires EndCount(b) == 0 && Appends(b) == []
    ensures EndCount(a + b) == 0 && Appends(a + b) == []
  {
    SelectAppend(a, b, EndOf);
    SelectAppend(a, b, AppendOf);
  }
}
