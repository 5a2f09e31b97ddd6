/**
 * Output names of the capture scripts: per-frame image file names, the date
 * stamp of an auto-numbered run folder, the next run number found by scanning
 * the folder listing, and the insertion of that number into the file name.
 */
module Naming {
  import opened Outcomes
  import opened Strings
  import opened Decimal

  // ---------------------------------------------------------------------------
  // Frame file names

  /** `str(i + 1).zfill(len(str(num_images)))`: the 1-based frame index padded to the width of the frame count. */
  function PaddedIndex(i: int, numImages: int): string
  {
    ZFill(IntToStr(i + 1), |IntToStr(numImages)|)
  }

  /** Multicam image name of frame `i` (0-based) of camera `camnum`. */
  function FrameFileName(fileName: string, i: int, numImages: int, camnum: nat): string
  {
    fileName + "_" + PaddedIndex(i, numImages) + "_cam" + IntToStr(camnum) + ".jpg"
  }

  /** The camera tag of the SPRA script: `str(primary)`, 1 for camera 0 and 0 for all others. */
  function PrimaryFlag(camnum: nat): nat
  {
    if camnum == 0 then 1 else 0
  }

  /** SPRA image name of frame `i`: the index is not padded and the tag is the primary flag. */
  function SpraFrameFileName(fileName: string, i: int, camnum: nat): string
  {
    fileName + "_" + IntToStr(i + 1) + "_cam" + IntToStr(PrimaryFlag(camnum)) + ".jpg"
  }

  /** For every frame of the run the padded index has the width of `str(num_images)` and denotes `i + 1`. */
  lemma PaddedIndexDenotes(i: int, numImages: int)
    requires 0 <= i < numImages
    ensures |PaddedIndex(i, numImages)| == |IntToStr(numImages)|
    ensures AllDigits(PaddedIndex(i, numImages))
    ensures Value(PaddedIndex(i, numImages)) == i + 1
  {
    NatToStrLengthMonotone(i + 1, numImages);
    ZFillNat(i + 1, |IntToStr(numImages)|);
  }

  /** Padded indices sort as strings in frame order, which is why the script pads them. */
  lemma PaddedIndexOrder(i: int, j: int, numImages: int)
    requires 0 <= i < numImages && 0 <= j < numImages
    ensures LexLess(PaddedIndex(i, numImages), PaddedIndex(j, numImages)) <==> i < j
  {
    PaddedIndexDenotes(i, numImages);
    PaddedIndexDenotes(j, numImages);
    LexLessIsNumericOrder(PaddedIndex(i, numImages), PaddedIndex(j, numImages));
  }

  /** Unpadded indices (the SPRA names) do not sort in frame order: frame 10 sorts before frame 2. */
  lemma UnpaddedIndexMisorders()
    ensures LexLess(IntToStr(10), IntToStr(2))
    ensures !LexLess(IntToStr(2), IntToStr(10))
  {
    assert NatToStr(1) == "1";
    assert NatToStr(10) == NatToStr(1) + [DigitChar(0)] == "10";
    assert NatToStr(2) == "2";
  }

  /** Within one run no two (frame, camera) pairs share a Multicam file name. */
  lemma FrameFileNamesDistinct(fileName: string, i: int, j: int, numImages: int, c: nat, d: nat)
    requires 0 <= i < numImages && 0 <= j < numImages
    requires FrameFileName(fileName, i, numImages, c) == FrameFileName(fileName, j, numImages, d)
    ensures i == j && c == d
  {
    var pi, pj := PaddedIndex(i, numImages), PaddedIndex(j, numImages);
    PaddedIndexDenotes(i, numImages);
    PaddedIndexDenotes(j, numImages);
    var ci, cj := IntToStr(c), IntToStr(d);
    var ti, tj := "_cam" + ci + ".jpg", "_cam" + cj + ".jpg";
    NameShape(fileName, pi, ci);
    NameShape(fileName, pj, cj);
    SplitEqual(fileName + "_", pi, ti, pj, tj);
    FramedEqual("_cam", ci, cj, ".jpg");
  }

  /** Both scripts build names as base, '_', index, '_cam', tag, '.jpg'. */
  lemma NameShape(fileName: string, index: string, tag: string)
    ensures fileName + "_" + index + "_cam" + tag + ".jpg" == (fileName + "_") + index + ("_cam" + tag + ".jpg")
  {
  }

  /** SPRA names of one camera are distinct across frames. */
  lemma SpraFileNamesDistinctByFrame(fileName: string, i: nat, j: nat, c: nat)
    requires SpraFrameFileName(fileName, i, c) == SpraFrameFileName(fileName, j, c)
    ensures i == j
  {
    var tail := "_cam" + IntToStr(PrimaryFlag(c)) + ".jpg";
    var si, sj := IntToStr(i + 1), IntToStr(j + 1);
    NameShape(fileName, si, IntToStr(PrimaryFlag(c)));
    NameShape(fileName, sj, IntToStr(PrimaryFlag(c)));
    FramedEqual(fileName + "_", si, sj, tail);
  }

  /**
   * SPRA tags cameras by the primary flag, not the camera number: camera 0's
   * names never meet another camera's, but any two other cameras write the
   * same name for the same frame.
   */
  lemma SpraCameraTags(fileName: string, i: int, j: int, c: nat, d: nat)
    requires c != 0 && d != 0
    ensures SpraFrameFileName(fileName, i, 0) != SpraFrameFileName(fileName, j, c)
    ensures SpraFrameFileName(fileName, i, c) == SpraFrameFileName(fileName, i, d)
  {
    var x := SpraFrameFileName(fileName, i, 0);
    var y := SpraFrameFileName(fileName, j, c);
    assert IntToStr(1) == "1" && IntToStr(0) == "0";
    assert x[|x| - 5] == '1';
    assert y[|y| - 5] == '0';
  }

  // ---------------------------------------------------------------------------
  // Date stamp

  /** `str(year) + str(month).zfill(2) + str(day).zfill(2)` from `time.localtime()`. */
  function DateStamp(year: int, month: int, day: int): string
  {
    IntToStr(year) + ZFill(IntToStr(month), 2) + ZFill(IntToStr(day), 2)
  }

  /** Eight digits whose first four, next two and last two read as the year, month and day. */
  predicate ReadsAsDate(s: string, year: int, month: int, day: int)
  {
    && |s| == 8 && AllDigits(s)
    && Value(s[..4]) == year && Value(s[4..6]) == month && Value(s[6..]) == day
  }

  /** A four-digit year and a calendar month and day give eight digits that read back as the date. */
  lemma DateStampDecodes(year: int, month: int, day: int)
    requires 1000 <= year <= 9999 && 1 <= month <= 12 && 1 <= day <= 31
    ensures ReadsAsDate(DateStamp(year, month, day), year, month, day)
  {
    var y, m, d := IntToStr(year), ZFill(IntToStr(month), 2), ZFill(IntToStr(day), 2);
    assert |m| == 2 && AllDigits(m) && Value(m) == month by {
      TwoDigitField(month);
    }
    assert |d| == 2 && AllDigits(d) && Value(d) == day by {
      TwoDigitField(day);
    }
    assert |y| == 4 && AllDigits(y) && Value(y) == year by {
      FourDigitYear(year);
    }
    StampPieces(y, m, d);
    assert DateStamp(year, month, day) == y + m + d;
  }

  lemma FourDigitYear(year: int)
    requires 1000 <= year <= 9999
    ensures |IntToStr(year)| == 4 && AllDigits(IntToStr(year)) && Value(IntToStr(year)) == year
  {
    assert Pow10(3) == 1000 && Pow10(4) == 10000 by {
      assert Pow10(1) == 10;
      assert Pow10(2) == 100;
    }
    NatToStrLength(year, 3);
  }

  lemma StampPieces(y: string, m: string, d: string)
    requires |y| == 4 && |m| == 2 && |d| == 2
    requires AllDigits(y) && AllDigits(m) && AllDigits(d)
    ensures |y + m + d| == 8 && AllDigits(y + m + d)
    ensures (y + m + d)[..4] == y && (y + m + d)[4..6] == m && (y + m + d)[6..] == d
  {
  }

  /** A number below 100, zero-filled to two places. */
  lemma TwoDigitField(n: nat)
    requires n < 100
    ensures |ZFill(IntToStr(n), 2)| == 2
    ensures AllDigits(ZFill(IntToStr(n), 2))
    ensures Value(ZFill(IntToStr(n), 2)) == n
  {
    NatToStrLengthMonotone(n, 99);
    assert Pow10(1) == 10 && Pow10(2) == 100;
    NatToStrLength(99, 1);
    ZFillNat(n, 2);
  }

  // ---------------------------------------------------------------------------
  // Run numbers

  datatype NamingError =
    | RunSuffixNotInteger(folder: string)  // `int(folder.split('-')[-1])` raised ValueError
    | RunNumberUndefined                   // `largest_recording_number` read but never assigned

  /** Where the field ending at `q` starts: just past the last '-' before `q`, or 0. */
  function FieldStart(s: string, q: nat): (k: nat)
    requires q <= |s|
    ensures k <= q
    ensures forall i :: k <= i < q ==> s[i] != '-'
    ensures k > 0 ==> s[k - 1] == '-'
    decreases q
  {
    if q == 0 || s[q - 1] == '-' then q else FieldStart(s, q - 1)
  }

  /** `s.split('-')[-1]`: the text after the last '-', or all of `s` when it has none. */
  function LastField(s: string): (r: string)
    ensures |r| <= |s| && r == s[|s| - |r|..]
    ensures '-' !in r
    ensures |r| < |s| ==> s[|s| - |r| - 1] == '-'
  {
    var k := FieldStart(s, |s|);
    assert forall i :: 0 <= i < |s| - k ==> s[k..][i] == s[k + i];
    s[k..]
  }

  /** The run number a folder name carries, when its last field is an integer. */
  function RunSuffix(folder: string): Option<int>
  {
    ParseInt(LastField(folder))
  }

  /** A folder whose name matches the run base of the day: `new_base_folder_name in folder`. */
  predicate IsRunFolder(base: string, folder: string)
  {
    Contains(folder, base)
  }

  /** How the scan sees one entry of the folder listing. */
  datatype Listing = Unrelated | RunFolder(name: string, suffix: Option<int>)

  function Classify(base: string, folder: string): Listing
  {
    if IsRunFolder(base, folder) then RunFolder(folder, RunSuffix(folder)) else Unrelated
  }

  /** The listing as the scan classifies it, entry by entry. */
  function Listings(base: string, folders: seq<string>): (ls: seq<Listing>)
    ensures |ls| == |folders|
  {
    if |folders| == 0 then []
    else Listings(base, folders[..|folders| - 1]) + [Classify(base, folders[|folders| - 1])]
  }

  /** Entry `k` of the classified listing is the classification of folder `k`. */
  lemma {:induction false} ListingsAt(base: string, folders: seq<string>)
    ensures forall k :: 0 <= k < |folders| ==> Listings(base, folders)[k] == Classify(base, folders[k])
  {
    if |folders| > 0 {
      var init := folders[..|folders| - 1];
      var last := Classify(base, folders[|folders| - 1]);
      ListingsAt(base, init);
      assert Listings(base, folders) == Listings(base, init) + [last];
      forall k | 0 <= k < |folders|
        ensures Listings(base, folders)[k] == Classify(base, folders[k])
      {
        if k < |init| {
          assert init[k] == folders[k];
          assert Listings(base, folders)[k] == Listings(base, init)[k];
        }
      }
    }
  }

  /** Listing one more folder adds its classification at the end. */
  lemma ListingsSnoc(base: string, folders: seq<string>, f: string)
    ensures Listings(base, folders + [f]) == Listings(base, folders) + [Classify(base, f)]
  {
    assert (folders + [f])[..|folders|] == folders;
  }

  /**
   * The loop over the folder listing: starting from `largest`, raise it to the
   * suffix of every run folder, failing on the first whose suffix is not an
   * integer.
   */
  function ScanListing(ls: seq<Listing>, largest: int): (r: Result<int, NamingError>)
    ensures r.Success? <==> forall k :: 0 <= k < |ls| && ls[k].RunFolder? ==> ls[k].suffix.Some?
    ensures r.Success? ==> r.value >= largest
    ensures r.Success? ==>
              forall k :: 0 <= k < |ls| && ls[k].RunFolder? ==> ls[k].suffix.Some? && ls[k].suffix.value <= r.value
    ensures r.Success? ==>
              r.value == largest || exists k :: 0 <= k < |ls| && ls[k].RunFolder? && ls[k].suffix == Some(r.value)
    ensures r.Failure? ==>
              exists k :: 0 <= k < |ls| && ls[k].RunFolder? && ls[k].suffix.None? &&
                r.error == RunSuffixNotInteger(ls[k].name) &&
                forall j :: 0 <= j < k && ls[j].RunFolder? ==> ls[j].suffix.Some?
    decreases |ls|
  {
    if |ls| == 0 then Success(largest)
    else
      var rest := ls[1..];
      assert forall k :: 1 <= k < |ls| ==> ls[k] == rest[k - 1];
      match ls[0]
      case Unrelated => ScanListing(rest, largest)
      case RunFolder(name, None) => Failure(RunSuffixNotInteger(name))
      case RunFolder(_, Some(v)) => ScanListing(rest, if v > largest then v else largest)
  }

  /** One past the largest run suffix the scan finds; 0 when there is none. */
  function NextRun(ls: seq<Listing>): Result<nat, NamingError>
  {
    var largest :- ScanListing(ls, -1);
    Success(largest + 1)
  }

  /** `largest_recording_number + 1` after the scan of the folder listing. */
  function NextRunNumber(base: string, folders: seq<string>): Result<nat, NamingError>
  {
    NextRun(Listings(base, folders))
  }

  /**
   * On a listing whose suffixes are never negative: the next run number is
   * one past the largest suffix and 0 when no entry is a run folder; the scan
   * fails exactly when some run folder's suffix is not an integer, and names
   * such a folder.
   */
  lemma NextRunSpec(ls: seq<Listing>)
    requires forall k :: 0 <= k < |ls| && ls[k].RunFolder? && ls[k].suffix.Some? ==> ls[k].suffix.value >= 0
    ensures var r := NextRun(ls);
            && (r.Success? <==> forall k :: 0 <= k < |ls| && ls[k].RunFolder? ==> ls[k].suffix.Some?)
            && (r.Success? ==>
                  forall k :: 0 <= k < |ls| && ls[k].RunFolder? ==> ls[k].suffix.Some? && ls[k].suffix.value < r.value)
            && (r.Success? ==> (r.value == 0 <==> forall k :: 0 <= k < |ls| ==> ls[k].Unrelated?))
            && (r.Success? && r.value > 0 ==>
                  exists k :: 0 <= k < |ls| && ls[k].RunFolder? && ls[k].suffix == Some(r.value - 1))
            && (r.Failure? ==>
                  exists k :: 0 <= k < |ls| && ls[k].RunFolder? && ls[k].suffix.None? &&
                    r.error == RunSuffixNotInteger(ls[k].name))
  {
  }

  /**
   * The next run number is one past the largest run suffix among the folders
   * and 0 when no folder matches; the scan fails exactly when some matching
   * folder has a suffix that is not an integer, and names such a folder.
   */
  lemma NextRunNumberSpec(base: string, folders: seq<string>)
    ensures var r := NextRunNumber(base, folders);
            && (r.Success? <==>
                  forall k :: 0 <= k < |folders| && Classify(base, folders[k]).RunFolder? ==>
                    Classify(base, folders[k]).suffix.Some?)
            && (r.Success? ==>
                  forall k :: 0 <= k < |folders| && Classify(base, folders[k]).RunFolder? ==>
                    Classify(base, folders[k]).suffix.Some? && Classify(base, folders[k]).suffix.value < r.value)
            && (r.Success? ==>
                  (r.value == 0 <==> forall k :: 0 <= k < |folders| ==> Classify(base, folders[k]).Unrelated?))
            && (r.Success? && r.value > 0 ==>
                  exists k :: 0 <= k < |folders| && Classify(base, folders[k]) == RunFolder(folders[k], Some(r.value - 1)))
            && (r.Failure? ==>
                  exists k :: 0 <= k < |folders| && Classify(base, folders[k]) == RunFolder(folders[k], None) &&
                    r.error == RunSuffixNotInteger(folders[k]))
  {
    var ls := Listings(base, folders);
    ListingsAt(base, folders);
    forall k | 0 <= k < |ls| && ls[k].RunFolder? && ls[k].suffix.Some?
      ensures ls[k].suffix.value >= 0
    {
      RunSuffixNonNegative(folders[k]);
    }
    NextRunSpec(ls);
  }

  /** A suffix after the last '-' has no minus sign, so it is never negative. */
  lemma RunSuffixNonNegative(folder: string)
    requires RunSuffix(folder).Some?
    ensures RunSuffix(folder).value >= 0
  {
    assert '-' !in LastField(folder);
  }

  /** Splitting `x + "-" + y` on '-' ends with `y` when `y` has no '-'. */
  lemma LastFieldAfterDash(x: string, y: string)
    requires '-' !in y
    ensures LastField(x + "-" + y) == y
  {
    var s := x + "-" + y;
    var r := LastField(s);
    assert s[|x|] == '-';
    assert s[|x| + 1..] == y;
  }

  /** The folder this run creates: `new_base_folder_name + "-" + str(n)`. */
  function RunFolderName(base: string, n: nat): string
  {
    base + "-" + IntToStr(n)
  }

  /** A run folder carrying the next run number advances the next run number by one. */
  lemma {:induction false} NextRunAfterListing(ls: seq<Listing>, n: nat, name: string)
    requires NextRun(ls) == Success(n)
    ensures NextRun(ls + [RunFolder(name, Some(n))]) == Success(n + 1)
  {
    var m := n - 1;
    assert ScanListing(ls, -1) == Success(m);
    var e := RunFolder(name, Some(n));
    var ls' := ls + [e];
    assert ls'[|ls|] == e;
    forall k | 0 <= k < |ls'| && ls'[k].RunFolder?
      ensures ls'[k].suffix.Some? && ls'[k].suffix.value <= n
    {
      if k < |ls| {
        assert ls'[k] == ls[k];
      }
    }
    var r := ScanListing(ls', -1);
    assert r.Success?;
    assert n <= r.value;
    var k :| 0 <= k < |ls'| && ls'[k].RunFolder? && ls'[k].suffix == Some(r.value);
  }

  /** The folder this run creates matches the base and carries the run number. */
  lemma RunFolderClassified(base: string, n: nat)
    ensures Classify(base, RunFolderName(base, n)) == RunFolder(RunFolderName(base, n), Some(n))
  {
    var f := RunFolderName(base, n);
    assert f[..|base|] == base;
    LastFieldAfterDash(base, IntToStr(n));
    IntToStrReadsBack(n);
  }

  /** Listing a folder that carries the next run number advances the run number by one. */
  lemma NextRunAfterFolder(base: string, folders: seq<string>, f: string, n: nat)
    requires NextRunNumber(base, folders) == Success(n)
    requires Classify(base, f) == RunFolder(f, Some(n))
    ensures NextRunNumber(base, folders + [f]) == Success(n + 1)
  {
    ListingsSnoc(base, folders, f);
    NextRunAfterListing(Listings(base, folders), n, f);
  }

  /** Once this run's folder exists, the next run's scan yields the next number. */
  lemma NextRunAfterCreate(base: string, folders: seq<string>, n: nat)
    requires NextRunNumber(base, folders) == Success(n)
    ensures NextRunNumber(base, folders + [RunFolderName(base, n)]) == Success(n + 1)
  {
    RunFolderClassified(base, n);
    NextRunAfterFolder(base, folders, RunFolderName(base, n), n);
  }

  /** `re.sub('_', rep, s, count=1)`: replace only the first '_' of `s`. */
  function ReplaceFirstUnderscore(s: string, rep: string): (r: string)
    ensures FirstIndexOf(s, '_').None? ==> r == s
    ensures FirstIndexOf(s, '_').Some? ==>
              var k := FirstIndexOf(s, '_').value;
              r == s[..k] + rep + s[k + 1..]
    decreases |s|
  {
    if |s| == 0 then s
    else if s[0] == '_' then rep + s[1..]
    else
      var r := [s[0]] + ReplaceFirstUnderscore(s[1..], rep);
      if FirstIndexOf(s[1..], '_').Some? then
        var k := FirstIndexOf(s[1..], '_').value;
        assert FirstIndexOf(s, '_') == Some(k + 1);
        assert s[..k + 1] == [s[0]] + s[1..][..k];
        assert s[k + 2..] == s[1..][k + 1..];
        r
      else
        assert FirstIndexOf(s, '_').None?;
        assert ReplaceFirstUnderscore(s[1..], rep) == s[1..];
        r
  }

  /** `re.sub('_', f'-{n}_', file_name, count=1)`. */
  function InsertRunNumber(fileName: string, n: nat): string
  {
    ReplaceFirstUnderscore(fileName, "-" + IntToStr(n) + "_")
  }

  /** cfg['file_path']: 0 selects an auto-numbered folder; otherwise it is the folder. */
  datatype FilePath = AutoNumbered | Given(path: string)

  /** The run folder (last path component) and the base file name of the run. */
  datatype RunNames = RunNames(folder: string, fileName: string)

  /**
   * The module-level naming of the Multicam script: date-stamped base, next run
   * number, folder name and file name. On a given path the file name still
   * reads the run number, which was never assigned, so the script stops there.
   */
  function OutputNames(filePath: FilePath, fileName: string, folders: seq<string>,
                       year: int, month: int, day: int): (r: Result<RunNames, NamingError>)
    ensures filePath.Given? ==> r == Failure(RunNumberUndefined)
    ensures filePath.AutoNumbered? ==>
              (r.Success? <==> NextRunNumber("images" + DateStamp(year, month, day), folders).Success?)
    ensures r.Success? ==>
              var base := "images" + DateStamp(year, month, day);
              var n := NextRunNumber(base, folders).value;
              && r.value.folder == RunFolderName(base, n)
              && r.value.fileName == InsertRunNumber(fileName, n)
  {
    match filePath
    case Given(_) => Failure(RunNumberUndefined)
    case AutoNumbered =>
      var base := "images" + DateStamp(year, month, day);
      var n :- NextRunNumber(base, folders);
      Success(RunNames(RunFolderName(base, n), InsertRunNumber(fileName, n)))
  }

  /** Two runs on the same day, the second seeing the first's folder, never share a folder. */
  lemma ConsecutiveRunsGetFreshFolders(fileName: string, folders: seq<string>, year: int, month: int, day: int)
    requires OutputNames(AutoNumbered, fileName, folders, year, month, day).Success?
    ensures var first := OutputNames(AutoNumbered, fileName, folders, year, month, day).value;
            var second := OutputNames(AutoNumbered, fileName, folders + [first.folder], year, month, day);
            second.Success? && second.value.folder != first.folder
  {
    var base := "images" + DateStamp(year, month, day);
    var n := NextRunNumber(base, folders).value;
    NextRunAfterCreate(base, folders, n);
    LastFieldAfterDash(base, IntToStr(n));
    LastFieldAfterDash(base, IntToStr(n + 1));
    IntToStrReadsBack(n);
    IntToStrReadsBack(n + 1);
  }
}
