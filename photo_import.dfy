/** The script's top level (Photo_import.py:44-122): collect the records,
    sort them by original shot number, then run one renaming pass per
    configured camera id, in the order of `camera_id_map`. */
module PhotoImport {
  import opened Text
  import opened Photos
  import opened Sorting
  import opened Sequencer

  /** The renames of the passes for `ids`, one pass after the other. */
  function RenamesFor(files: seq<PhotoRecord>, ids: seq<string>, renames: (string, string) -> bool): seq<Rename>
  {
    if |ids| == 0 then []
    else RenamesFor(files, ids[..|ids| - 1], renames) + Pass(files, ids[|ids| - 1], renames).plan
  }

  /** Everything the loop at Photo_import.py:121-122 renames. */
  function RenameAll(files: seq<PhotoRecord>, renames: (string, string) -> bool): seq<Rename>
  {
    RenamesFor(files, CameraIds(), renames)
  }

  /** The loop at Photo_import.py:121-122. */
  method RenameAllCameras(files: seq<PhotoRecord>, renames: (string, string) -> bool) returns (renamed: seq<Rename>)
    ensures renamed == RenameAll(files, renames)
  {
    var ids := CameraIds();
    renamed := [];
    for i := 0 to |ids|
      invariant renamed == RenamesFor(files, ids[..i], renames)
    {
      assert ids[..i + 1][..i] == ids[..i];
      var pass := RenameImageFiles(files, ids[i], renames);
      renamed := renamed + pass;
    }
    assert ids[..|ids|] == ids;
  }

  /** Every rename comes from a record whose camera id is one of `ids`. */
  lemma {:induction false} RenamesForSources(files: seq<PhotoRecord>, ids: seq<string>,
                                             renames: (string, string) -> bool, m: nat)
    requires m < |RenamesFor(files, ids, renames)|
    ensures exists i, k | 0 <= i < |ids| && 0 <= k < |files| ::
              RenamedFrom(RenamesFor(files, ids, renames)[m], files[k], ids[i], renames)
  {
    var n := |ids| - 1;
    var front := RenamesFor(files, ids[..n], renames);
    var all := RenamesFor(files, ids, renames);
    if m < |front| {
      RenamesForSources(files, ids[..n], renames, m);
      var i, k :| 0 <= i < n && 0 <= k < |files| && RenamedFrom(front[m], files[k], ids[..n][i], renames);
      assert ids[..n][i] == ids[i] && all[m] == front[m];
    } else {
      var plan := Pass(files, ids[n], renames).plan;
      PassRenamesOnlyMatching(files, ids[n], renames, m - |front|);
      assert all[m] == plan[m - |front|];
    }
  }

  /** Only records of a configured camera are renamed: a record whose make
      is not in `camera_id_map` (camera id "Unknown") stays where it is. */
  lemma RenameAllOnlyKnownCameras(files: seq<PhotoRecord>, renames: (string, string) -> bool, m: nat)
    requires m < |RenameAll(files, renames)|
    ensures exists k | 0 <= k < |files| ::
              && files[k].cameraId in CameraIds() && files[k].cameraId != UNKNOWN
              && RenameAll(files, renames)[m].source == files[k].path
  {
    RenamesForSources(files, CameraIds(), renames, m);
    CameraIdLookup(UNKNOWN);
  }

  /** The whole script: the listing of the source directory and the outcome
      of each `os.rename` come in, the sorted records and the renames that
      succeeded come out. */
  method ImportPhotos(listing: seq<DirEntry>, renames: (string, string) -> bool)
    returns (files: seq<PhotoRecord>, renamed: seq<Rename>)
    ensures files == InsertionSort(Collected(listing))
    ensures multiset(files) == multiset(Collected(listing))
    ensures SortedByToken(files)
    ensures renamed == RenameAll(files, renames)
  {
    var collected := CollectImageFiles(listing);
    var a := new PhotoRecord[|collected|](i requires 0 <= i < |collected| => collected[i]);
    assert a[..] == collected;
    SortByToken(a);
    files := a[..];
    renamed := RenameAllCameras(files, renames);
  }
}
