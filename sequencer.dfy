/** `rename_image_files` (Photo_import.py:80-117): one pass over the sorted
    records for one camera id, numbering the shots of each capture day and
    renaming each file into the destination directory. */
module Sequencer {
  import opened Options
  import opened Text
  import opened ExifTime
  import opened Photos
  import opened Naming

  /** One `os.rename(source, destination)` that succeeded. */
  datatype Rename = Rename(source: string, destination: string)

  /** The local variables of the pass that carry over from file to file.
      `prev_capture_time` and `prev_sequence_number` are never read and are
      left out. */
  datatype PassState = PassState(sequenceNumber: int, prevCaptureDate: Option<Date>, prevShootSequence: Option<string>)

  /** The values at Photo_import.py:82-86. */
  const START := PassState(1, None, None)

  datatype PassResult = PassResult(state: PassState, plan: seq<Rename>)

  /** The number a record of the pass's camera is named with
      (Photo_import.py:95-106): 1 on the first file of a capture day,
      otherwise the running counter, and one less when the original shot
      number repeats the previous file's. */
  function AssignedNumber(st: PassState, r: PhotoRecord): int
  {
    var n := if st.prevCaptureDate != Some(r.captureDate) then 1 else st.sequenceNumber;
    if st.prevShootSequence == Some(r.token) then n - 1 else n
  }

  /** The destination of a record renamed with number `n`. */
  function Target(r: PhotoRecord, n: int): string
  {
    DestinationPath(NewFilename(r.captureTime, r.cameraId, n, r.extension))
  }

  /** One iteration of the loop at Photo_import.py:88-117. `renames` says
      whether `os.rename` succeeds for a source and a destination; when it
      raises, the `except` at line 116 skips the increment at line 113. */
  function Step(st: PassState, r: PhotoRecord, cameraIdString: string,
                renames: (string, string) -> bool): PassResult
  {
    if cameraIdString != r.cameraId then PassResult(st, [])
    else
      var n := AssignedNumber(st, r);
      var target := Target(r, n);
      var next := PassState(n, Some(r.captureDate), Some(r.token));
      if renames(r.path, target) then PassResult(next.(sequenceNumber := n + 1), [Rename(r.path, target)])
      else PassResult(next, [])
  }

  /** A record of the pass's camera whose rename succeeds is renamed with
      its assigned number, and the counter moves past that number. */
  lemma StepSucceeds(st: PassState, r: PhotoRecord, cameraIdString: string,
                     renames: (string, string) -> bool, n: int)
    requires r.cameraId == cameraIdString && AssignedNumber(st, r) == n && renames(r.path, Target(r, n))
    ensures Step(st, r, cameraIdString, renames)
         == PassResult(PassState(n + 1, Some(r.captureDate), Some(r.token)), [Rename(r.path, Target(r, n))])
  {
  }

  /** A record of the pass's camera whose rename fails is not renamed, and
      the counter stays at its assigned number. */
  lemma StepFails(st: PassState, r: PhotoRecord, cameraIdString: string,
                  renames: (string, string) -> bool)
    requires r.cameraId == cameraIdString && !renames(r.path, Target(r, AssignedNumber(st, r)))
    ensures Step(st, r, cameraIdString, renames)
         == PassResult(PassState(AssignedNumber(st, r), Some(r.captureDate), Some(r.token)), [])
  {
  }

  /** The state and the renames after the loop has seen `files`. */
  function Pass(files: seq<PhotoRecord>, cameraIdString: string,
                renames: (string, string) -> bool): PassResult
  {
    if |files| == 0 then PassResult(START, [])
    else
      var before := Pass(files[..|files| - 1], cameraIdString, renames);
      var step := Step(before.state, files[|files| - 1], cameraIdString, renames);
      PassResult(step.state, before.plan + step.plan)
  }

  lemma PassExtend(files: seq<PhotoRecord>, k: nat, cameraIdString: string, renames: (string, string) -> bool)
    requires k < |files|
    ensures var before := Pass(files[..k], cameraIdString, renames);
            var step := Step(before.state, files[k], cameraIdString, renames);
            Pass(files[..k + 1], cameraIdString, renames) == PassResult(step.state, before.plan + step.plan)
  {
    assert files[..k + 1][..k] == files[..k];
  }

  /** `rename_image_files(image_files, camera_id_string)`. */
  method RenameImageFiles(imageFiles: seq<PhotoRecord>, cameraIdString: string,
                          renames: (string, string) -> bool) returns (renamed: seq<Rename>)
    ensures renamed == Pass(imageFiles, cameraIdString, renames).plan
  {
    var sequenceNumber := 1;
    var prevCaptureDate: Option<Date> := None;
    var prevShootSequence: Option<string> := None;
    renamed := [];
    for k := 0 to |imageFiles|
      invariant Pass(imageFiles[..k], cameraIdString, renames)
             == PassResult(PassState(sequenceNumber, prevCaptureDate, prevShootSequence), renamed)
    {
      PassExtend(imageFiles, k, cameraIdString, renames);
      var done;
      sequenceNumber, prevCaptureDate, prevShootSequence, done :=
        RenameImageFile(sequenceNumber, prevCaptureDate, prevShootSequence, imageFiles[k], cameraIdString, renames);
      renamed := renamed + done;
    }
    assert imageFiles[..|imageFiles|] == imageFiles;
  }

  /** The body of the loop at Photo_import.py:88-117 for one record: the
      updated locals and the rename it performed, if any. */
  method RenameImageFile(sequenceNumber0: int, prevCaptureDate0: Option<Date>, prevShootSequence0: Option<string>,
                         r: PhotoRecord, cameraIdString: string, renames: (string, string) -> bool)
    returns (sequenceNumber: int, prevCaptureDate: Option<Date>, prevShootSequence: Option<string>, renamed: seq<Rename>)
    ensures Step(PassState(sequenceNumber0, prevCaptureDate0, prevShootSequence0), r, cameraIdString, renames)
         == PassResult(PassState(sequenceNumber, prevCaptureDate, prevShootSequence), renamed)
  {
    sequenceNumber, prevCaptureDate, prevShootSequence, renamed := sequenceNumber0, prevCaptureDate0, prevShootSequence0, [];
    if cameraIdString != r.cameraId {
      return;
    }
    if prevCaptureDate != Some(r.captureDate) {
      prevCaptureDate := Some(r.captureDate);
      sequenceNumber := 1;
    }
    if prevShootSequence == Some(r.token) {
      sequenceNumber := sequenceNumber - 1;
    }
    prevShootSequence := Some(r.token);
    var newFilename := NewFilename(r.captureTime, r.cameraId, sequenceNumber, r.extension);
    var destination := DestinationPath(newFilename);
    ghost var st := PassState(sequenceNumber0, prevCaptureDate0, prevShootSequence0);
    assert sequenceNumber == AssignedNumber(st, r);
    assert destination == Target(r, AssignedNumber(st, r));
    if renames(r.path, destination) {
      renamed := [Rename(r.path, destination)];
      sequenceNumber := sequenceNumber + 1;
      StepSucceeds(st, r, cameraIdString, renames, AssignedNumber(st, r));
    } else {
      StepFails(st, r, cameraIdString, renames);
    }
  }

  // ---------------------------------------------------------------------------
  // Which records a pass renames

  /** The records of `files` whose camera id is `cameraIdString`, in order. */
  function OnlyCamera(files: seq<PhotoRecord>, cameraIdString: string): (only: seq<PhotoRecord>)
    ensures |only| <= |files|
    ensures forall k | 0 <= k < |only| :: only[k].cameraId == cameraIdString
  {
    if |files| == 0 then []
    else
      var front := OnlyCamera(files[..|files| - 1], cameraIdString);
      if files[|files| - 1].cameraId == cameraIdString then front + [files[|files| - 1]] else front
  }

  /** A record of another camera is skipped with the state as it was. */
  lemma OtherCameraSkipped(st: PassState, r: PhotoRecord, cameraIdString: string,
                           renames: (string, string) -> bool)
    requires r.cameraId != cameraIdString
    ensures Step(st, r, cameraIdString, renames) == PassResult(st, [])
  {
  }

  /** Records of other cameras neither get renamed nor disturb the numbering:
      the `continue` at Photo_import.py:91-92 comes before any state
      changes. */
  lemma {:induction false} PassIgnoresOtherCameras(files: seq<PhotoRecord>, cameraIdString: string,
                                                   renames: (string, string) -> bool)
    ensures Pass(files, cameraIdString, renames) == Pass(OnlyCamera(files, cameraIdString), cameraIdString, renames)
  {
    if |files| > 0 {
      var n := |files| - 1;
      PassIgnoresOtherCameras(files[..n], cameraIdString, renames);
      var front := OnlyCamera(files[..n], cameraIdString);
      if files[n].cameraId == cameraIdString {
        assert (front + [files[n]])[..|front|] == front;
      } else {
        assert Pass(files[..n], cameraIdString, renames).plan + [] == Pass(files[..n], cameraIdString, renames).plan;
      }
    }
  }

  /** A rename the pass performed on record `r`: its source is the record's
      path, its destination a name for the record under some number, and
      `os.rename` succeeded for the pair. */
  ghost predicate RenamedFrom(x: Rename, r: PhotoRecord, cameraIdString: string, renames: (string, string) -> bool)
  {
    && r.cameraId == cameraIdString && x.source == r.path
    && renames(x.source, x.destination)
    && exists n :: x.destination == Target(r, n)
  }

  /** Every rename of a pass comes from a record of the pass's camera. */
  lemma {:induction false} PassRenamesOnlyMatching(files: seq<PhotoRecord>, cameraIdString: string,
                                                   renames: (string, string) -> bool, m: nat)
    requires m < |Pass(files, cameraIdString, renames).plan|
    ensures exists k | 0 <= k < |files| :: RenamedFrom(Pass(files, cameraIdString, renames).plan[m], files[k], cameraIdString, renames)
  {
    var n := |files| - 1;
    var before := Pass(files[..n], cameraIdString, renames);
    if m < |before.plan| {
      PassRenamesOnlyMatching(files[..n], cameraIdString, renames, m);
      var k :| 0 <= k < n && RenamedFrom(before.plan[m], files[..n][k], cameraIdString, renames);
      assert files[..n][k] == files[k];
    } else {
      var step := Step(before.state, files[n], cameraIdString, renames);
      var x := Pass(files, cameraIdString, renames).plan[m];
      assert x == step.plan[m - |before.plan|];
      StepRenamesFrom(before.state, files[n], cameraIdString, renames, x);
    }
  }

  /** The rename a step performs comes from its record. */
  lemma StepRenamesFrom(st: PassState, r: PhotoRecord, cameraIdString: string,
                        renames: (string, string) -> bool, x: Rename)
    requires x in Step(st, r, cameraIdString, renames).plan
    ensures RenamedFrom(x, r, cameraIdString, renames)
  {
    var target := Target(r, AssignedNumber(st, r));
    assert r.cameraId == cameraIdString && renames(r.path, target);
    StepSucceeds(st, r, cameraIdString, renames, AssignedNumber(st, r));
  }

  /** When every rename succeeds, each record of the camera is renamed once,
      in order. */
  lemma {:induction false} PassRenamesEveryMatching(files: seq<PhotoRecord>, cameraIdString: string,
                                                    renames: (string, string) -> bool)
    requires forall source, destination :: renames(source, destination)
    ensures |Pass(files, cameraIdString, renames).plan| == |OnlyCamera(files, cameraIdString)|
    ensures forall m | 0 <= m < |OnlyCamera(files, cameraIdString)| ::
              Pass(files, cameraIdString, renames).plan[m].source == OnlyCamera(files, cameraIdString)[m].path
  {
    if |files| > 0 {
      PassRenamesEveryMatching(files[..|files| - 1], cameraIdString, renames);
    }
  }

  // ---------------------------------------------------------------------------
  // How the numbers run

  /** On the first file of a capture day the number is 1, or 0 when its
      original shot number repeats the previous file's. */
  lemma NewDayNumber(st: PassState, r: PhotoRecord)
    requires st.prevCaptureDate != Some(r.captureDate)
    ensures AssignedNumber(st, r) == (if st.prevShootSequence == Some(r.token) then 0 else 1)
  {
  }

  /** Two files of one shot (the same original shot number, such as the raw
      and the JPEG of one exposure) taken on the same day get the same
      number, once the first was renamed. */
  lemma PairSharesNumber(st: PassState, a: PhotoRecord, b: PhotoRecord, cameraIdString: string,
                         renames: (string, string) -> bool)
    requires a.cameraId == cameraIdString && b.cameraId == cameraIdString
    requires b.captureDate == a.captureDate && b.token == a.token
    requires renames(a.path, Target(a, AssignedNumber(st, a)))
    ensures AssignedNumber(Step(st, a, cameraIdString, renames).state, b) == AssignedNumber(st, a)
    ensures var after := Step(st, a, cameraIdString, renames).state;
            renames(b.path, Target(b, AssignedNumber(st, a))) ==>
              Step(after, b, cameraIdString, renames).state.sequenceNumber == after.sequenceNumber
  {
  }

  /** The next shot of the same day gets the next number, once the previous
      file was renamed. */
  lemma NextShotCountsOn(st: PassState, a: PhotoRecord, b: PhotoRecord, cameraIdString: string,
                         renames: (string, string) -> bool)
    requires a.cameraId == cameraIdString && b.cameraId == cameraIdString
    requires b.captureDate == a.captureDate && b.token != a.token
    requires renames(a.path, Target(a, AssignedNumber(st, a)))
    ensures AssignedNumber(Step(st, a, cameraIdString, renames).state, b) == AssignedNumber(st, a) + 1
  {
  }

  /** A failed rename hands its number on to the next shot of the day, and a
      file of the same shot after it gets one less. */
  lemma FailedRenameFreesNumber(st: PassState, a: PhotoRecord, b: PhotoRecord, cameraIdString: string,
                                renames: (string, string) -> bool)
    requires a.cameraId == cameraIdString && b.cameraId == cameraIdString
    requires b.captureDate == a.captureDate
    requires !renames(a.path, Target(a, AssignedNumber(st, a)))
    ensures Step(st, a, cameraIdString, renames)
         == PassResult(PassState(AssignedNumber(st, a), Some(a.captureDate), Some(a.token)), [])
    ensures AssignedNumber(Step(st, a, cameraIdString, renames).state, b)
         == if b.token == a.token then AssignedNumber(st, a) - 1 else AssignedNumber(st, a)
  {
    StepFails(st, a, cameraIdString, renames);
  }

  /** While every rename succeeds the counter stays at 1 or more, so no
      number is negative. */
  lemma {:induction false} CounterPositive(files: seq<PhotoRecord>, cameraIdString: string,
                                           renames: (string, string) -> bool)
    requires forall source, destination :: renames(source, destination)
    ensures Pass(files, cameraIdString, renames).state.sequenceNumber >= 1
  {
    if |files| > 0 {
      CounterPositive(files[..|files| - 1], cameraIdString, renames);
    }
  }

  lemma NumbersNotNegative(files: seq<PhotoRecord>, cameraIdString: string,
                           renames: (string, string) -> bool, k: nat)
    requires forall source, destination :: renames(source, destination)
    requires k < |files|
    ensures AssignedNumber(Pass(files[..k], cameraIdString, renames).state, files[k]) >= 0
  {
    CounterPositive(files[..k], cameraIdString, renames);
  }

  /** Files of one shot whose renames all fail count down from 1: 1, 0, -1,
      and so on, which `zfill` writes "0001", "0000", "-001". */
  lemma {:induction false} FailingShotCountsDown(files: seq<PhotoRecord>, cameraIdString: string,
                                                 renames: (string, string) -> bool, k: nat)
    requires forall source, destination :: !renames(source, destination)
    requires forall i | 0 <= i < |files| ::
               && files[i].cameraId == cameraIdString
               && files[i].captureDate == files[0].captureDate
               && files[i].token == files[0].token
    requires 1 <= k <= |files|
    ensures Pass(files[..k], cameraIdString, renames).state
         == PassState(2 - k, Some(files[0].captureDate), Some(files[0].token))
  {
    if k > 1 {
      FailingShotCountsDown(files, cameraIdString, renames, k - 1);
      PassExtend(files, k - 1, cameraIdString, renames);
      StepFails(Pass(files[..k - 1], cameraIdString, renames).state, files[k - 1], cameraIdString, renames);
    } else {
      PassExtend(files, 0, cameraIdString, renames);
      StepFails(Pass(files[..0], cameraIdString, renames).state, files[0], cameraIdString, renames);
    }
  }

  /** The records are sorted by original shot number, not by time, so the
      capture days can interleave. Each return to a day starts it again at 1:
      of three consecutive files of days D, E, D, the third is renamed onto
      the name the first was given (which `os.rename` replaces on POSIX). */
  lemma InterleavedDaysCollide(st: PassState, a: PhotoRecord, b: PhotoRecord, c: PhotoRecord,
                               cameraIdString: string, renames: (string, string) -> bool)
    requires a.cameraId == cameraIdString && b.cameraId == cameraIdString && c.cameraId == cameraIdString
    requires st.prevCaptureDate != Some(a.captureDate) && st.prevShootSequence != Some(a.token)
    requires a.captureDate == c.captureDate && b.captureDate != a.captureDate
    requires a.captureTime.date == c.captureTime.date && a.extension == c.extension
    requires a.token != b.token && b.token != c.token
    requires forall source, destination :: renames(source, destination)
    ensures var first := Step(st, a, cameraIdString, renames);
            var second := Step(first.state, b, cameraIdString, renames);
            var third := Step(second.state, c, cameraIdString, renames);
            && first.plan == [Rename(a.path, Target(a, 1))]
            && third.plan == [Rename(c.path, Target(a, 1))]
  {
    StepSucceeds(st, a, cameraIdString, renames, 1);
    var first := PassState(2, Some(a.captureDate), Some(a.token));
    StepSucceeds(first, b, cameraIdString, renames, 1);
    var second := PassState(2, Some(b.captureDate), Some(b.token));
    StepSucceeds(second, c, cameraIdString, renames, 1);
    SameDayTarget(a, c, 1);
  }

  /** The destination depends on the record only through its capture day,
      camera id and extension. */
  lemma SameDayTarget(a: PhotoRecord, c: PhotoRecord, n: int)
    requires a.captureTime.date == c.captureTime.date
    requires a.cameraId == c.cameraId && a.extension == c.extension
    ensures Target(a, n) == Target(c, n)
  {
  }
}
