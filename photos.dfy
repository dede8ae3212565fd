/** The importer's configuration and the Metadata Collector: the loop of
    Photo_import.py:45-73 that turns directory entries into photo records. */
module Photos {
  import opened Options
  import opened Text
  import opened ExifTime

  // ---------------------------------------------------------------------------
  // Configuration (Photo_import.py:10-19)

  const SOURCE_DIR := "/Users/tmj/Pictures/Import"
  const DESTINATION_DIR := "/Users/tmj/Pictures/Import/Organize_Photos"
  const PREFIX := "TMJ"

  /** `camera_id_map`: camera make to the code used in file names, in
      declaration order. */
  const CAMERA_ID_MAP: seq<(string, string)> := [("Canon", "CANON"), ("FUJIFILM", "FUJI"), ("SONY", "IR")]

  /** The default of `camera_id_map.get`. */
  const UNKNOWN := "Unknown"

  /** The suffixes of `filename.lower().endswith((...))`. */
  const IMAGE_SUFFIXES: seq<string> := [".jpg", ".jpeg", ".cr2", ".cr3", ".raf", ".arw"]

  /** `camera_id_map.values()`, in declaration order. */
  function CameraIds(): seq<string>
  {
    seq(|CAMERA_ID_MAP|, i requires 0 <= i < |CAMERA_ID_MAP| => CAMERA_ID_MAP[i].1)
  }

  // ---------------------------------------------------------------------------
  // The records (Photo_import.py:71)

  /** One directory entry and what exiftool prints for it. An output is `None`
      when `subprocess.check_output` raises or its bytes do not decode. */
  datatype DirEntry = DirEntry(name: string, createDateOutput: Option<string>, makeOutput: Option<string>)

  /** The 7-tuple appended to `image_files`. */
  datatype PhotoRecord = PhotoRecord(
    filename: string,
    path: string,
    captureTime: CaptureTime,
    captureDate: Date,
    extension: string,
    cameraId: string,
    token: string)

  /** What every record the collector builds satisfies. */
  predicate WellFormedRecord(r: PhotoRecord)
  {
    && r.path == JoinPath(SOURCE_DIR, r.filename)
    && r.captureDate == r.captureTime.date
    && HasImageExtension(r.filename)
    && r.extension == FileExtension(r.filename)
    && (r.cameraId == UNKNOWN || r.cameraId in CameraIds())
    && FirstDigitRun(r.filename) == Some(r.token)
  }

  // ---------------------------------------------------------------------------
  // Paths

  /** `os.path.join(dir, name)` on POSIX, for two components. */
  function JoinPath(dir: string, name: string): (p: string)
    ensures EndsWith(p, name)
    ensures |name| > 0 && name[0] == '/' ==> p == name
    ensures !(|name| > 0 && name[0] == '/') && (|dir| == 0 || dir[|dir| - 1] == '/') ==> p == dir + name
    ensures !(|name| > 0 && name[0] == '/') && !(|dir| == 0 || dir[|dir| - 1] == '/') ==> p == dir + "/" + name
  {
    if |name| > 0 && name[0] == '/' then name
    else if |dir| == 0 || dir[|dir| - 1] == '/' then dir + name
    else dir + "/" + name
  }

  /** The extension filter of Photo_import.py:47, case-insensitive. */
  predicate HasImageExtension(name: string)
  {
    exists k | 0 <= k < |IMAGE_SUFFIXES| :: EndsWith(Lower(name), IMAGE_SUFFIXES[k])
  }

  /** `os.path.splitext(name)[1]` on POSIX: from the last '.' of the last path
      component to the end, unless that component is only dots up to there. */
  function FileExtension(name: string): (ext: string)
    ensures ext == [] || (ext[0] == '.' && EndsWith(name, ext) && '.' !in ext[1..] && '/' !in ext)
  {
    match FindLast(name, '.')
    case None => []
    case Some(dot) =>
      var start := match FindLast(name, '/') case None => 0 case Some(sep) => sep + 1;
      if exists k | start <= k < dot :: name[k] != '.' then name[dot..] else []
  }

  predicate SuffixShape(x: string)
  {
    |x| >= 2 && x[0] == '.' && forall j | 1 <= j < |x| :: x[j] != '.' && ToLower(x[j]) == x[j]
  }

  lemma SuffixesShaped()
    ensures forall k | 0 <= k < |IMAGE_SUFFIXES| :: SuffixShape(IMAGE_SUFFIXES[k])
  {
    assert SuffixShape(".jpg") && SuffixShape(".jpeg") && SuffixShape(".cr2");
    assert SuffixShape(".cr3") && SuffixShape(".raf") && SuffixShape(".arw");
  }

  /** A file that passes the filter keeps, as its extension, one of the six
      suffixes up to case, or no extension at all (a name such as ".jpg"). */
  lemma ImageExtensionKept(name: string)
    requires HasImageExtension(name)
    ensures FileExtension(name) == [] || Lower(FileExtension(name)) in IMAGE_SUFFIXES
  {
    var k :| 0 <= k < |IMAGE_SUFFIXES| && EndsWith(Lower(name), IMAGE_SUFFIXES[k]);
    var suf := IMAGE_SUFFIXES[k];
    SuffixesShaped();
    var p := |name| - |suf|;
    LowerSuffix(name, p);
    LastDotOfSuffix(name, p, suf);
    var ext := FileExtension(name);
    assert ext == [] || ext == name[p..];
  }

  /** A name whose lowered tail is a suffix of that shape has its last '.'
      where the tail starts. */
  lemma LastDotOfSuffix(name: string, p: nat, suf: string)
    requires p <= |name| && SuffixShape(suf) && Lower(name[p..]) == suf
    ensures FindLast(name, '.') == Some(p)
  {
    assert ToLower(name[p]) == '.';
    forall q | p < q < |name|
      ensures name[q] != '.'
    {
      assert ToLower(name[q]) == suf[q - p];
    }
    FindLastAt(name, '.', p);
  }

  /** A name with no '/' made of a stem that is not all dots and a suffix
      of the form ".xyz" has that suffix as its extension. */
  lemma SplitExtension(stem: string, suffix: string)
    requires '/' !in stem && '/' !in suffix
    requires |suffix| >= 1 && suffix[0] == '.' && '.' !in suffix[1..]
    requires exists k | 0 <= k < |stem| :: stem[k] != '.'
    ensures FileExtension(stem + suffix) == suffix
  {
    var name := stem + suffix;
    assert name[|stem| + 1..] == suffix[1..];
    FindLastAt(name, '.', |stem|);
    var k :| 0 <= k < |stem| && stem[k] != '.';
    assert name[k] == stem[k];
    assert name[|stem|..] == suffix;
  }

  /** A name that is only dots before its suffix, such as ".jpg", has no
      extension on POSIX. */
  lemma DotsOnlyHaveNoExtension(stem: string, suffix: string)
    requires '/' !in stem && '/' !in suffix
    requires |suffix| >= 1 && suffix[0] == '.' && '.' !in suffix[1..]
    requires forall k | 0 <= k < |stem| :: stem[k] == '.'
    ensures FileExtension(stem + suffix) == []
  {
    var name := stem + suffix;
    assert name[|stem| + 1..] == suffix[1..];
    FindLastAt(name, '.', |stem|);
    assert forall k | 0 <= k < |stem| :: name[k] == stem[k];
  }

  // ---------------------------------------------------------------------------
  // Reading exiftool's output (Photo_import.py:52-54, 60-61)

  /** `output.strip().split(":", 1)[1].strip()`: the value of a "Tag: value"
      line; `None` where Python raises `IndexError`, when there is no ':'. */
  function FieldValue(output: string): (v: Option<string>)
    ensures v.Some? <==> ':' in Strip(output)
    ensures v.Some? ==> IsStripped(v.value)
    ensures v.Some? ==> exists i :: 0 <= i < |Strip(output)| && Strip(output)[i] == ':' && ':' !in Strip(output)[..i]
                                    && v.value == Strip(Strip(output)[i + 1..])
  {
    var line := Strip(output);
    match AfterFirst(line, ':')
    case None => None
    case Some(rest) =>
      var i :| 0 <= i < |line| && line[i] == ':' && ':' !in line[..i] && rest == line[i + 1..];
      Some(Strip(rest))
  }

  /** The line exiftool prints for a tag gives back the tag's value. */
  lemma FieldValueOfTagLine(tag: string, value: string)
    requires |tag| > 0 && !IsSpace(tag[0]) && ':' !in tag
    requires |value| > 0 && IsStripped(value)
    ensures FieldValue(tag + ": " + value) == Some(value)
  {
    var line := tag + ": " + value;
    assert IsStripped(line);
    StripOfStripped(line);
    assert line == tag + [':'] + (" " + value);
    FindFirstPastFree(tag, ':', " " + value);
    assert line[|tag| + 1..] == " " + value;
    StripLeadingSpace(" ", value);
  }

  /** The capture time of Photo_import.py:53-54: the tag value up to its
      first '-', stripped, then parsed. */
  function CaptureTimeOf(output: string): Option<CaptureTime>
  {
    match FieldValue(output)
    case None => None
    case Some(v) => ParseExifTime(Strip(BeforeFirst(v, '-')))
  }

  lemma NoDashInTime(t: CaptureTime)
    ensures '-' !in FormatExifTime(t)
  {
    var s := FormatExifTime(t);
    forall i | 0 <= i < |s|
      ensures s[i] != '-'
    {
      var y := Digits(t.date.year, 4);
      var mo := Digits(t.date.month, 2);
      var d := Digits(t.date.day, 2);
      var h := Digits(t.hour, 2);
      var mi := Digits(t.minute, 2);
      var sec := Digits(t.second, 2);
      assert s == y + ":" + mo + ":" + d + " " + h + ":" + mi + ":" + sec;
      if i < 4 { assert s[i] == y[i]; }
      else if 5 <= i < 7 { assert s[i] == mo[i - 5]; }
      else if 8 <= i < 10 { assert s[i] == d[i - 8]; }
      else if 11 <= i < 13 { assert s[i] == h[i - 11]; }
      else if 14 <= i < 16 { assert s[i] == mi[i - 14]; }
      else if 17 <= i { assert s[i] == sec[i - 17]; }
    }
  }

  lemma FormattedStripped(t: CaptureTime)
    ensures |FormatExifTime(t)| == 19 && IsStripped(FormatExifTime(t))
  {
    var f := FormatExifTime(t);
    assert f[0] == Digits(t.date.year, 4)[0] && f[18] == Digits(t.second, 2)[1];
  }

  /** A `CreateDate` line gives back its capture time, also when a suffix
      starting with '-' (a time-zone offset) follows it. */
  lemma CaptureTimeOfTagLine(tag: string, t: CaptureTime, zone: string)
    requires |tag| > 0 && !IsSpace(tag[0]) && ':' !in tag
    requires zone == [] || (zone[0] == '-' && !IsSpace(zone[|zone| - 1]))
    ensures CaptureTimeOf(tag + ": " + FormatExifTime(t) + zone) == Some(t)
  {
    var f := FormatExifTime(t);
    var value := f + zone;
    FormattedStripped(t);
    assert value[0] == f[0];
    assert IsStripped(value);
    assert tag + ": " + f + zone == tag + ": " + value;
    FieldValueOfTagLine(tag, value);
    NoDashInTime(t);
    BeforeFirstOfFree(f, '-', zone);
    StripOfStripped(f);
    ParseFormatted(t);
  }

  // ---------------------------------------------------------------------------
  // The original shot number (Photo_import.py:65-66)

  /** `tok`, found at index `i` of `s`, is the first maximal run of digits. */
  predicate IsFirstDigitRun(s: string, i: int, tok: string)
  {
    && 0 <= i && i + |tok| <= |s| && |tok| >= 1
    && s[i..i + |tok|] == tok && AllDigits(tok)
    && (forall k | 0 <= k < i :: !IsDigit(s[k]))
    && (i + |tok| == |s| || !IsDigit(s[i + |tok|]))
  }

  /** The longest prefix of digits. */
  function DigitPrefix(s: string): (r: string)
    ensures AllDigits(r) && |r| <= |s| && r == s[..|r|]
    ensures |r| == |s| || !IsDigit(s[|r|])
  {
    if |s| > 0 && IsDigit(s[0]) then
      var rest := DigitPrefix(s[1..]);
      assert [s[0]] + rest == s[..|rest| + 1];
      [s[0]] + rest
    else []
  }

  lemma DigitPrefixOfConcat(d: string, e: string)
    requires AllDigits(d) && (e == [] || !IsDigit(e[0]))
    ensures DigitPrefix(d + e) == d
  {
    if |d| > 0 {
      assert (d + e)[1..] == d[1..] + e;
      DigitPrefixOfConcat(d[1..], e);
    } else {
      assert d + e == e;
    }
  }

  /** `re.search(r'\d+', s).group()`; `None` where `re.search` finds nothing
      and `.group()` raises `AttributeError`. */
  function FirstDigitRun(s: string): (r: Option<string>)
    ensures r.None? <==> forall k | 0 <= k < |s| :: !IsDigit(s[k])
    ensures r.Some? ==> exists i :: IsFirstDigitRun(s, i, r.value)
  {
    if |s| == 0 then None
    else if IsDigit(s[0]) then
      var tok := DigitPrefix(s);
      assert IsFirstDigitRun(s, 0, tok);
      Some(tok)
    else
      match FirstDigitRun(s[1..])
      case None => None
      case Some(tok) =>
        assert forall i | IsFirstDigitRun(s[1..], i, tok) :: IsFirstDigitRun(s, i + 1, tok) by {
          forall i | IsFirstDigitRun(s[1..], i, tok)
            ensures IsFirstDigitRun(s, i + 1, tok)
          {
            assert s[i + 1..i + 1 + |tok|] == s[1..][i..i + |tok|];
            assert forall k | 1 <= k < i + 1 :: s[k] == s[1..][k - 1];
          }
        }
        Some(tok)
  }

  /** There is only one first maximal run of digits. */
  lemma FirstDigitRunUnique(s: string, i: int, a: string, j: int, b: string)
    requires IsFirstDigitRun(s, i, a) && IsFirstDigitRun(s, j, b)
    ensures i == j && a == b
  {
    assert s[i] == a[0] && s[j] == b[0];
    assert i == j;
    RunIsDigitPrefix(s, i, a);
    RunIsDigitPrefix(s, j, b);
  }

  /** A maximal run of digits at `i` is the digit prefix of the rest. */
  lemma RunIsDigitPrefix(s: string, i: int, tok: string)
    requires IsFirstDigitRun(s, i, tok)
    ensures DigitPrefix(s[i..]) == tok
  {
    assert s[i..] == tok + s[i + |tok|..];
    DigitPrefixOfConcat(tok, s[i + |tok|..]);
  }

  // ---------------------------------------------------------------------------
  // Camera ids (Photo_import.py:69)

  /** `dict.get(key, default)` on a dictionary given as its items, in order. */
  function Get(m: seq<(string, string)>, key: string, default: string): (r: string)
    ensures (forall i | 0 <= i < |m| :: m[i].0 != key) ==> r == default
    ensures (exists i | 0 <= i < |m| :: m[i].0 == key) ==> exists i | 0 <= i < |m| :: m[i] == (key, r)
  {
    if |m| == 0 then default
    else if m[0].0 == key then m[0].1
    else
      var r := Get(m[1..], key, default);
      assert forall i | 0 <= i < |m| - 1 :: m[1..][i] == m[i + 1];
      r
  }

  /** `camera_id_map.get(camera_make, "Unknown")`. */
  function CameraId(make: string): (id: string)
    ensures id == UNKNOWN || id in CameraIds()
    ensures id == UNKNOWN <==> forall i | 0 <= i < |CAMERA_ID_MAP| :: CAMERA_ID_MAP[i].0 != make
    ensures id != UNKNOWN ==> exists i | 0 <= i < |CAMERA_ID_MAP| :: CAMERA_ID_MAP[i] == (make, id)
  {
    assert CameraIds() == ["CANON", "FUJI", "IR"];
    Get(CAMERA_ID_MAP, make, UNKNOWN)
  }

  /** The three configured makes map to their codes; any other make,
      including a different spelling of a configured one, is "Unknown",
      which is none of the codes. */
  lemma CameraIdLookup(make: string)
    ensures CameraIds() == ["CANON", "FUJI", "IR"] && UNKNOWN !in CameraIds()
    ensures CameraId("Canon") == "CANON" && CameraId("FUJIFILM") == "FUJI" && CameraId("SONY") == "IR"
    ensures make != "Canon" && make != "FUJIFILM" && make != "SONY" ==> CameraId(make) == UNKNOWN
    ensures CameraId("canon") == UNKNOWN && CameraId("Nikon") == UNKNOWN
  {
    assert CameraIds() == ["CANON", "FUJI", "IR"];
  }

  // ---------------------------------------------------------------------------
  // Building one record (Photo_import.py:47-73)

  /** The conditions under which the body of the `try` at Photo_import.py:48-71
      runs to the end for an entry. */
  predicate Collectable(e: DirEntry)
  {
    && HasImageExtension(e.name)
    && e.createDateOutput.Some? && CaptureTimeOf(e.createDateOutput.value).Some?
    && e.makeOutput.Some? && FieldValue(e.makeOutput.value).Some?
    && exists k | 0 <= k < |e.name| :: IsDigit(e.name[k])
  }

  /** The record for one directory entry, or `None` when the entry is not
      an image or one of the steps raises (the `except` at line 72). */
  function BuildRecord(e: DirEntry): Option<PhotoRecord>
  {
    if !Collectable(e) then None
    else
      var t := CaptureTimeOf(e.createDateOutput.value).value;
      var make := FieldValue(e.makeOutput.value).value;
      var token := FirstDigitRun(e.name).value;
      Some(PhotoRecord(e.name, JoinPath(SOURCE_DIR, e.name), t, t.date, FileExtension(e.name), CameraId(make), token))
  }

  /** An entry gives a record exactly when it passes the filter and every
      step of the `try` succeeds, and that record is well formed and carries
      the entry's capture time and camera id. */
  lemma BuildRecordSound(e: DirEntry)
    ensures BuildRecord(e).Some? <==> Collectable(e)
    ensures BuildRecord(e).Some? ==>
              && WellFormedRecord(BuildRecord(e).value)
              && BuildRecord(e).value.filename == e.name
              && Some(BuildRecord(e).value.captureTime) == CaptureTimeOf(e.createDateOutput.value)
              && BuildRecord(e).value.cameraId == CameraId(FieldValue(e.makeOutput.value).value)
  {
  }

  /** The records that `build` makes of the entries of a listing, in the
      order of the listing: the filter of Photo_import.py:46-73 for any
      per-entry outcome. */
  function Kept(build: DirEntry -> Option<PhotoRecord>, listing: seq<DirEntry>): (files: seq<PhotoRecord>)
    ensures |files| <= |listing|
  {
    if |listing| == 0 then []
    else
      var front := Kept(build, listing[..|listing| - 1]);
      match build(listing[|listing| - 1])
      case None => front
      case Some(r) => front + [r]
  }

  lemma {:induction false} KeptFromListing(build: DirEntry -> Option<PhotoRecord>, listing: seq<DirEntry>, k: nat)
    requires k < |Kept(build, listing)|
    ensures exists j | 0 <= j < |listing| :: build(listing[j]) == Some(Kept(build, listing)[k])
  {
    var n := |listing| - 1;
    var front := Kept(build, listing[..n]);
    if k < |front| {
      KeptFromListing(build, listing[..n], k);
      var j :| 0 <= j < n && build(listing[..n][j]) == Some(front[k]);
      assert listing[..n][j] == listing[j];
    } else {
      assert build(listing[n]) == Some(Kept(build, listing)[k]);
    }
  }

  lemma {:induction false} KeptGoodEntry(build: DirEntry -> Option<PhotoRecord>, listing: seq<DirEntry>, j: nat)
    requires j < |listing| && build(listing[j]).Some?
    ensures build(listing[j]).value in Kept(build, listing)
  {
    var n := |listing| - 1;
    if j < n {
      KeptGoodEntry(build, listing[..n], j);
      assert listing[..n][j] == listing[j];
    }
  }

  lemma {:induction false} KeptConcat(build: DirEntry -> Option<PhotoRecord>, a: seq<DirEntry>, b: seq<DirEntry>)
    ensures Kept(build, a + b) == Kept(build, a) + Kept(build, b)
  {
    if |b| == 0 {
      assert a + b == a;
    } else {
      var n := |b| - 1;
      assert (a + b)[..|a + b| - 1] == a + b[..n];
      assert (a + b)[|a + b| - 1] == b[n];
      KeptConcat(build, a, b[..n]);
    }
  }

  lemma KeptStep(build: DirEntry -> Option<PhotoRecord>, listing: seq<DirEntry>, k: nat)
    requires k < |listing|
    ensures Kept(build, listing[..k + 1])
         == Kept(build, listing[..k]) + (if build(listing[k]).Some? then [build(listing[k]).value] else [])
  {
    assert listing[..k + 1][..k] == listing[..k];
  }

  /** `image_files` after the loop of Photo_import.py:45-73. */
  function Collected(listing: seq<DirEntry>): (files: seq<PhotoRecord>)
    ensures |files| <= |listing|
  {
    Kept(BuildRecord, listing)
  }

  /** Every collected record was built from some entry of the listing. */
  lemma CollectedFromListing(listing: seq<DirEntry>, k: nat)
    requires k < |Collected(listing)|
    ensures exists j | 0 <= j < |listing| :: BuildRecord(listing[j]) == Some(Collected(listing)[k])
  {
    KeptFromListing(BuildRecord, listing, k);
  }

  /** Every entry that builds a record has that record collected. */
  lemma CollectedKeepsGoodFiles(listing: seq<DirEntry>, j: nat)
    requires j < |listing| && BuildRecord(listing[j]).Some?
    ensures BuildRecord(listing[j]).value in Collected(listing)
  {
    KeptGoodEntry(BuildRecord, listing, j);
  }

  /** Every collected record is well formed. */
  lemma CollectedWellFormed(listing: seq<DirEntry>)
    ensures forall k | 0 <= k < |Collected(listing)| :: WellFormedRecord(Collected(listing)[k])
  {
    forall k | 0 <= k < |Collected(listing)|
      ensures WellFormedRecord(Collected(listing)[k])
    {
      CollectedFromListing(listing, k);
      var j :| 0 <= j < |listing| && BuildRecord(listing[j]) == Some(Collected(listing)[k]);
      BuildRecordSound(listing[j]);
    }
  }

  /** The collected records keep the order of the directory listing. */
  lemma CollectedKeepsOrder(a: seq<DirEntry>, b: seq<DirEntry>)
    ensures Collected(a + b) == Collected(a) + Collected(b)
  {
    KeptConcat(BuildRecord, a, b);
  }

  /** The loop of Photo_import.py:45-73. */
  method CollectImageFiles(listing: seq<DirEntry>) returns (files: seq<PhotoRecord>)
    ensures files == Collected(listing)
  {
    files := [];
    for k := 0 to |listing|
      invariant files == Kept(BuildRecord, listing[..k])
    {
      var r := BuildRecord(listing[k]);
      KeptStep(BuildRecord, listing, k);
      if r.Some? {
        files := files + [r.value];
      }
    }
    assert listing[..|listing|] == listing;
  }
}
