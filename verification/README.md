# FLIR Multicam and SPRA capture lanes in Dafny

This project models the parts of two FLIR camera acquisition scripts whose
behaviour can be stated exactly. One is the Multicam script
(`FLIR_Multicam.py`); the other is the SPRA behaviour-rig script
(`FLIR_SPRA.py`). The modelled parts are:

- **Interframe timing analysis** (module `Timing`). After acquisition, the
  primary camera's nanosecond timestamps are turned into intervals in
  milliseconds. The script then computes:
  - their mean, rounded half-to-even to `R`;
  - the deviations `interval - R`;
  - the first deviation of largest magnitude and its index;
  - the one-sided counts of deviations above 0.1, 0.5 and 1 ms;
  - the "dropped frame" count `#{dev >= R - 1}`;
  - the good/weird verdict.

  The arithmetic is exact (Dafny `real`).
- **Output naming** (modules `Decimal`, `Strings`, `Naming`):
  - `str`, `int` and `zfill` on ASCII digits;
  - the zero-padded Multicam frame file names and the unpadded,
    primary-flag-tagged SPRA names;
  - the date stamp;
  - the scan of the folder listing for the next run number;
  - insertion of that number at the first `_` of the file name.
- **Software-trigger pacing** (module `Pacing`), as written. The frame time
  is measured in nanoseconds but compared with, and subtracted from, the
  period `1 / framerate` in seconds. A reference decision in seconds is kept
  for comparison.
- **Logs and the rotary-encoder parser** (modules `Logs`, `Rotary`). Each log
  line is `item + ",\n"`. A rotary line loses its last two bytes and is
  decoded; a failed decode reads as `"0 0 0"`. The numbers in it are then
  extracted with `re.findall(r'([\d.]*\d+)', ...)` and joined with spaces.
- **Capture lanes** (modules `LaneTrace`, `MulticamLane`, `SpraLane`). One
  camera's `ThreadCapture.run` is modelled as a function from the driver's
  per-frame outcomes to a trace of observable events, plus how the lane
  ends. The events are:
  - timestamps recorded;
  - image writes dispatched, with their file names;
  - sleeps;
  - DAQ start, serial and CPU samples;
  - `EndAcquisition`;
  - the analysis report;
  - text appended to log files.

  The lane ends in one of four ways:
  - it finishes;
  - it returns False: the trigger node is unavailable, or the driver raises
    a Spinnaker exception;
  - it raises: division by a zero frame rate, rounding the NaN mean of no
    intervals, or `t2 - t1` before `t1` was set;
  - it blocks, when the driver delivers no further frame.

Behaviour worth noting:

- **The 21 ms gap is not a dropped frame.** With stamps 0, 10, 20, 41 and
  51 ms, the dropped-frame threshold is `dev >= R - 1`, that is
  `interval >= 2R - 1 = 25` ms. So the 21 ms gap is a large deviation but
  not a dropped frame, and the verdict is good (`Timing.LongGapExample`).
- **Fewer than two timestamps.** The analysis raises at
  `int(round(mean([])))` (`FLIR_Multicam.py:146`), since the mean of no
  intervals is NaN. This happens after `EndAcquisition` and before the times
  log is written.
- **The SPRA primary camera with `num_images <= 0`.** It never sets `t1`, so
  `t2 - t1` on line 158 raises right after `EndAcquisition`.
- **An unset run number.** On the `file_path != 0` path, line 60 reads
  `largest_recording_number`, which was never assigned. The model reports
  this as the error `RunNumberUndefined`.

## Model

| member | source | states |
|---|---|---|
| Timing.Analyse | FLIR_Multicam.py:143-149 | Fails exactly when there are fewer than two stamps. Otherwise: one interval per consecutive pair, each `(t[i+1] - t[i]) / 10^6` ms, with statistics consistent with those intervals. |
| Timing.IntervalsNonNegative | FLIR_Multicam.py:144 | Stamps that never go backwards give no negative interval. |
| Timing.IntervalsSum | FLIR_Multicam.py:144 | The intervals add up to the span from the first stamp to the last. |
| Timing.RoundHalfEven | FLIR_Multicam.py:146 | The rounded mean is the nearest integer, and the even one at a tie. |
| Timing.RoundHalfEvenUnique | FLIR_Multicam.py:146 | No other integer meets that description. |
| Timing.Deviations | FLIR_Multicam.py:147 | One deviation per interval, and together they add up to the intervals' sum minus `N-1` times `R`. |
| Timing.DeviationsCentred | FLIR_Multicam.py:146-147 | The mean deviation is the rounding error `mean - R`: it lies in [-0.5, 0.5], and reaches either end only when `R` is even. |
| Timing.ArgMaxAbs | FLIR_Multicam.py:148 | The reported index has a magnitude no deviation exceeds, and every earlier one is strictly smaller: it is the first maximum. |
| Timing.CountAboveIsCardinality | FLIR_Multicam.py:158-160 | A threshold count is the number of indices whose deviation is strictly above the threshold. |
| Timing.CountAtLeastIsCardinality | FLIR_Multicam.py:149 | The dropped count is the number of indices whose deviation is at least `R - 1`. |
| Timing.CountAtLeastShift | FLIR_Multicam.py:149 | `dev >= R - 1` holds exactly for the intervals `>= 2R - 1`. |
| Timing.CountAboveMonotone | FLIR_Multicam.py:158-160 | A higher threshold never counts more. |
| Timing.Summarise | FLIR_Multicam.py:145-170 | The report keeps the intervals. Its mean is their mean and its `R` the rounding of it. Each deviation is interval minus `R`. The largest deviation is the first of greatest magnitude. |
| Timing.CountsHold | FLIR_Multicam.py:149-170 | Counts are nested: `over1 <= over05 <= over01 <= N-1`. The dropped count equals the count of intervals `>= 2R - 1` and is at most `N-1`. The verdict is good exactly when nothing is dropped. |
| Timing.ConstantIntervals | FLIR_Multicam.py:145-149 | With every interval `p` ms: `R = p` and all deviations are 0. Nothing is dropped when `p >= 2`; every interval is dropped when `p <= 1`. |
| Timing.UniformRun | FLIR_Multicam.py:143-149 | The same statement for stamps taken every `p` ms. |
| Timing.ExampleThresholds | FLIR_Multicam.py:158-160 | Deviations -3, -3, 8, -3 exceed any threshold in [0, 8) exactly once. |
| Timing.ExampleStatistics | FLIR_Multicam.py:145-170 | Intervals 10, 10, 21, 10 give `R = 13`, deviations -3, -3, 8, -3, the largest at index 2, one deviation over each threshold, none dropped, a good verdict. |
| Timing.LongGapIntervals | FLIR_Multicam.py:144 | Stamps 0, 10, 20, 41, 51 ms (in ns) give intervals 10, 10, 21, 10 ms. |
| Timing.LongGapExample | FLIR_Multicam.py:143-170 | The full analysis of those stamps: the 21 ms gap is the largest deviation but not a dropped frame. |
| Decimal.IntToStrReadsBack | FLIR_Multicam.py:174 | `int(str(n)) == n` for every integer. |
| Decimal.ZFill | FLIR_Multicam.py:129 | `zfill` gives text of length `max(width, len(s))`, and text already that wide comes back unchanged. Unsigned text becomes zeros followed by the text. Signed text keeps its sign first, with the zeros between the sign and the rest. |
| Decimal.ZFillNat | FLIR_Multicam.py:129 | Zero-filling `str(n)` to a width it fits in gives exactly that many digits, still denoting `n`. |
| Decimal.LexLessIsNumericOrder | FLIR_Multicam.py:124-129 | On digit strings of equal length, string order is numeric order. |
| Naming.PaddedIndexDenotes | FLIR_Multicam.py:129 | For each frame `i < num_images`, the padded index has the width of `str(num_images)`, is all digits, and denotes `i + 1`. |
| Naming.PaddedIndexOrder | FLIR_Multicam.py:124-129 | Padded indices sort as strings exactly in frame order. |
| Naming.UnpaddedIndexMisorders | FLIR_SPRA.py:147 | The unpadded SPRA index of frame 10 sorts before that of frame 2. |
| Naming.FrameFileNamesDistinct | FLIR_Multicam.py:129 | Within a run, equal Multicam names mean the same frame and the same camera. |
| Naming.SpraFileNamesDistinctByFrame | FLIR_SPRA.py:147 | One SPRA camera never writes the same name for two frames. |
| Naming.SpraCameraTags | FLIR_SPRA.py:121-147 | Camera 0's names never meet another camera's. Any two other cameras write the same name for the same frame. |
| Naming.DateStampDecodes | FLIR_Multicam.py:47-48 | A four-digit year and a calendar month and day give eight digits that read back as year, month and day. |
| Naming.LastField | FLIR_Multicam.py:54 | `split('-')[-1]` is a suffix without '-'; when shorter than the name, a '-' precedes it. |
| Naming.LastFieldAfterDash | FLIR_Multicam.py:54-56 | The last field of `base + "-" + y` is `y` when `y` has no '-'. |
| Naming.RunSuffixNonNegative | FLIR_Multicam.py:54 | A suffix after the last '-' is never negative. |
| Naming.ScanListing | FLIR_Multicam.py:50-55 | The scan succeeds exactly when every run folder's suffix is an integer. It returns at least the start value and at least every suffix, and is either the start value or one of the suffixes. Otherwise it names the first folder whose suffix is not an integer. |
| Naming.NextRunNumberSpec | FLIR_Multicam.py:50-56 | The next run number exceeds every matching folder's suffix. It is 0 exactly when no folder matches, and otherwise one past some folder's suffix. It fails exactly when a matching folder's suffix is not an integer. |
| Naming.NextRunAfterCreate | FLIR_Multicam.py:50-56 | Once this run's folder `base-n` is listed, the next scan yields `n + 1`. |
| Naming.ConsecutiveRunsGetFreshFolders | FLIR_Multicam.py:45-60 | A second run on the same day that sees the first run's folder never reuses it. |
| Naming.ReplaceFirstUnderscore | FLIR_Multicam.py:60 | With no '_', the name is unchanged. Otherwise only the first '_' is replaced, and the text around it is kept. |
| Naming.OutputNames | FLIR_Multicam.py:45-60 | On a given path the run number is undefined and the script fails. Auto-numbered, it succeeds exactly when the scan does, with folder `base-n` and the file name with `-n_` at its first '_'. |
| Pacing.PaceAsWritten | FLIR_Multicam.py:133-136 | Fails exactly at a zero rate. Sleeps exactly when the nanosecond count is below `1 / framerate`, and then for the positive `1 / framerate - ftime`. |
| Pacing.NoPacingAtUsualRates | FLIR_Multicam.py:102-136 | At 1 Hz or more, a frame time of at least 1 ns never sleeps. |
| Pacing.PaceInSeconds | FLIR_Multicam.py:133-136 | The reference decision with the frame time in seconds. |
| Pacing.PacingDiffers | FLIR_Multicam.py:133-136 | A 3 ms frame at 100 Hz: as written no sleep; in seconds a 7 ms sleep. |
| Pacing.AsWrittenSleepsLess | FLIR_Multicam.py:133-136 | The as-written step sleeps only when the seconds-based one does, and never for longer. |
| Logs.SerialiseAppend | FLIR_SPRA.py:160-162 | The log of `a + b` is the log of `a` followed by that of `b`, as append mode needs. |
| Logs.ParseSerialise | FLIR_SPRA.py:160-162 | A log of items without line breaks reads back to exactly those items. |
| Logs.SerialiseLineCount | FLIR_SPRA.py:174-177 | A log holds as many line breaks as items. |
| Rotary.StripLineEnd | FLIR_SPRA.py:169 | `item[0:len(item) - 2]` is empty for lines of at most two bytes and drops the last two bytes otherwise. |
| Rotary.FindAllFrom | FLIR_SPRA.py:172 | Every match is nonempty, digits and dots only, and ends in a digit. |
| Rotary.FindAllIsNumberRuns | FLIR_SPRA.py:172 | The matches are exactly the maximal digit/dot runs that contain a digit, with trailing dots removed, in order. |
| Rotary.FindAllKeepsDigits | FLIR_SPRA.py:172 | The matches run together hold exactly the digits of the text, in order. |
| Rotary.RotaryItemDigits | FLIR_SPRA.py:168-173 | A rotary entry carries exactly the digits of its decoded text. |
| Rotary.UndecodableLine | FLIR_SPRA.py:168-173 | A line that fails to decode is logged as `0 0 0`. |
| Rotary.RotaryItemOneLine | FLIR_SPRA.py:172-173 | A rotary entry never holds a line break. |
| Rotary.RotaryLogReadsBack | FLIR_SPRA.py:164-173 | The rotary log has one line per reading and reads back to the entries. |
| MulticamLane.CaptureFrame | FLIR_Multicam.py:101-140 | One frame carries on exactly when it completes, and otherwise stops with its cause. A grabbed frame's stamp and file name are recorded even when pacing then divides by zero. The frame sleeps exactly as the pacing decides. |
| MulticamLane.StampTexts | FLIR_Multicam.py:173-174 | One text per stamp, each reading back as its stamp. |
| MulticamLane.TimesLogReadsBack | FLIR_Multicam.py:171-174 | The times log reads back, line by line, to the recorded stamps. |
| MulticamLane.FinishEvents | FLIR_Multicam.py:142-174 | After the loop the lane ends the acquisition once. It finishes unless the primary camera has no analysis. It adds no stamp, dispatch or sleep. When finished, its last event is the times log, preceded on the primary camera by the analysis. |
| MulticamLane.LaneFinishes | FLIR_Multicam.py:101-174 | A lane finishes exactly when every frame it asks for completes and, on the primary camera, it asks for at least two. |
| MulticamLane.LaneFrames | FLIR_Multicam.py:101-132 | A finished lane completed every frame and recorded their stamps and padded file names in frame order. |
| MulticamLane.LaneFrameAt | FLIR_Multicam.py:116-131 | In a finished lane, the `m`-th stamp is frame `m`'s stamp and the `m`-th dispatch is its padded name. |
| MulticamLane.LaneLogs | FLIR_Multicam.py:142-174 | A finished lane ended the acquisition once. Its only log write, and last event, appends its stamps to `<file>_t<cam>.txt`. On the primary camera the analysis of those stamps comes just before. |
| MulticamLane.LaneAbort | FLIR_Multicam.py:101-142 | When some frame does not complete, the lane stops at the first such frame, with that frame's cause. It never ends the acquisition or writes a log. Its stamps and dispatched names are exactly those of the frames before, in frame order, plus the stopping frame's own when it is the zero-rate division. |
| MulticamLane.ZeroRateCrash | FLIR_Multicam.py:129-136 | At a software rate of 0, the first frame's stamp and image are saved, then the lane raises. |
| MulticamLane.PrimaryTooFewFrames | FLIR_Multicam.py:142-146 | The primary camera with fewer than two frames raises after ending the acquisition and before writing the log. |
| MulticamLane.LaneNeverSleeps | FLIR_Multicam.py:133-136 | At 1 Hz or more, with frame times of at least 1 ns, a lane never sleeps. |
| SpraLane.FinishEvents | FLIR_SPRA.py:155-177 | After the loop the lane ends the acquisition once. It finishes unless it is the primary camera with no frames. It keeps the loop's samples, and when finished appends its log writes after them. |
| SpraLane.LaneFinishes | FLIR_SPRA.py:118-177 | A lane finishes exactly when every frame it asks for is delivered and, on the primary camera, it asks for at least one. |
| SpraLane.LaneFrames | FLIR_SPRA.py:128-150 | A finished lane was delivered every frame and recorded their time texts and unpadded file names in frame order. |
| SpraLane.LaneFrameAt | FLIR_SPRA.py:131-147 | In a finished lane, the `m`-th stamp is frame `m`'s time text and the `m`-th dispatch is its file name. |
| SpraLane.LaneSamples | FLIR_SPRA.py:133-143 | The finished primary lane sampled the CPU every frame, the serial port every frame when available, and started the DAQ once when online. Other cameras did none of these. |
| SpraLane.LaneLogs | FLIR_SPRA.py:155-177 | A finished lane ended the acquisition once. Its only log writes are its times log, then on the primary camera the rotary log (when serial is available) and the CPU log. |
| SpraLane.LogsReadBack | FLIR_SPRA.py:160-177 | In a finished lane, the times log reads back to the lane's stamps. On the primary camera, the CPU log reads back to its samples, and the rotary log (when the serial port is open) to the parsed serial lines. |
| SpraLane.LaneAbort | FLIR_SPRA.py:128-154 | A lane stopped in the loop stops at the first undelivered frame. It never ends the acquisition or writes a log. Its stamps and dispatched names are exactly those of the frames before, in frame order. |
| SpraLane.PrimaryWithoutFrames | FLIR_SPRA.py:120-158 | The primary camera asking for no frame ends the acquisition, then raises at `t2 - t1`. |

## Left out

- **Standard deviation, frame rate and histogram.** The standard deviation
  (`FLIR_Multicam.py:150`), the software frame rate (`FLIR_Multicam.py:154`,
  `FLIR_SPRA.py:158`) and the histogram (`FLIR_Multicam.py:162-165`) are
  float and square-root numerics or presentation. One exception: the SPRA
  primary camera's `t2 - t1` with `t1` unset raises, and that is modelled.
- **Frame-rate division by zero.** Dividing by `t2 - t1` when the two clock
  readings are equal is not modelled, because clock readings are inputs
  that are not tracked.
- **Printed progress and messages.** These are console output only.
- Timing.Analyse: intervals are exact rationals, not
  float64 products with `1e-6`. A threshold comparison or a rounding tie
  that float rounding would tip is therefore not modelled.
- **Threads.** `ThreadWrite` and the image `Release` that races with
  `Save` (`FLIR_Multicam.py:130-132`) are concurrent. A write is modelled as
  the dispatch of its file name, and lanes are modelled one at a time.
- **SDK and file-system glue.** This covers `configure_cam`,
  `reset_trigger`, `config_and_acquire`/`config_and_return`, `main` and
  `read_config`:
  - PySpin node-graph setup and YAML loading are glue over code this model
    does not contain;
  - `os.listdir` enters only as the list of folder names;
  - `makedirs` and `chdir` are left out.
- **Peripheral setup.** DAQ and serial setup at module level are reduced to
  the flags `daqOnline` and `serialAvailable`. Exceptions raised by
  `ser.readline`, the DAQ tasks or `psutil` are not modelled.
- MulticamLane.LaneAbort: a `PySpin.SpinnakerException` is modelled only
  where the driver fails to deliver the frame (`GetNextImage`, or the
  trigger before it), so before the frame's stamp. `image_result.Release()`
  (`FLIR_Multicam.py:132`) sits in the same `try`. If it raised, the lane
  would return False after that frame's stamp and dispatch, and that path
  is not modelled. An exception from `self.cam.EndAcquisition()`
  (`FLIR_Multicam.py:142`) is outside the `try` and would escape uncaught;
  that is not modelled either.
- SpraLane.LaneAbort: likewise, an exception from `image_result.Release()`
  (`FLIR_SPRA.py:150`) would return False after that frame's stamp,
  dispatch and samples. An exception from `self.cam.EndAcquisition()`
  (`FLIR_SPRA.py:156`) would escape uncaught. Neither path is modelled.
- Pacing.PaceAsWritten: the period `1 / framerate` and the sleep
  `1 / framerate - ftime` (`FLIR_Multicam.py:135-136`) are exact reals, not
  float64. A comparison that float rounding would tip is not modelled. For
  example, `framerate = 0.3333333333333333` with `ftime = 3` gives
  `1 / framerate == 3.0` in float64, so Python does not sleep, while the
  exact quotient is just above 3. The sleep amount is likewise exact.
  `Pacing.PaceInSeconds` uses the same exact arithmetic.
- **Opaque readings.** The text of `time.time()`, the CPU percentage and
  the serial line are opaque inputs of each delivered frame.
- Rotary.RotaryItem: UTF-8 decoding is a parameter
  (text or failure), and `\d` matches ASCII digits only. Unicode digits are
  not modelled. This limits `Rotary.FindAllIsNumberRuns`,
  `Rotary.FindAllKeepsDigits` and `Rotary.RotaryItemDigits`: their digits
  are ASCII digits.
- Naming.RunSuffix: only an optional sign followed by
  ASCII digits is accepted. Python's `int()` also accepts surrounding
  whitespace, underscores between digits and non-ASCII digits. This limits
  `Naming.ScanListing` and `Naming.NextRunNumberSpec`: a folder suffix such
  as ` 7` or `1_0` counts as unparsable there, where the script would
  accept it.
- **Blocking.** A driver that never returns from `GetNextImage` is
  modelled as the status `Blocked` when the outcome sequence runs out.
- **Configuration types.** A `framerate` that is neither `'hardware'` nor
  a number, and a non-integer `num_images`, raise in Python and are not
  modelled. The trigger mode is a datatype and the frame count an integer.
