# Photo_import in Dafny

A model of `Photo_import.py`, a script that renames photos from a camera
import folder. The model covers the parts of the script that decide things:

- **Collector** (`Photos`). It turns each directory entry into a photo
  record, or drops the entry. It keeps files whose lower-cased name ends in
  one of six image suffixes. It reads the capture time from the `CreateDate`
  line exiftool prints, cutting it at the first `:` and the first `-` and
  parsing it as `YYYY:MM:DD HH:MM:SS`. It reads the make from the `Make` line
  and maps it to a camera id (`"Unknown"` when the make is not in the map).
  It takes the first run of digits in the file name as the original shot
  number. Any step that raises in Python drops the entry.
- **Ordering** (`Sorting`). The records are sorted in place by the shot
  number, compared as strings. The model sorts by insertion, where Python
  uses Timsort. Both are stable sorts with the same key, and a stable sort's
  output is fixed by the key and the input order. So the model's order is
  the script's order, records with equal tokens included
  (`Sorting.InsertionSortStable`).
- **Naming** (`Naming`). A new name is
  `TMJ_<yymmdd>_<camera id>_<str(number).zfill(4)><extension>` inside the
  destination directory.
- **Sequencer** (`Sequencer`). This is one pass of `rename_image_files` for
  one camera id. It carries the counter, the previous capture date and the
  previous shot number from file to file. The counter resets to 1 on a new
  day, steps back one for a repeated shot number, and advances after each
  rename that succeeds. The loop body is its own method,
  `RenameImageFile`, which takes the loop's locals and the record and
  returns the updated locals and the rename it performed.
- **Driver** (`PhotoImport`). It runs one pass per camera id, in the order of
  `camera_id_map`. `ImportPhotos` chains the whole script.

Python's library pieces are modelled where the script depends on them
(module `Text`, plus `ExifTime` for dates and times):

- `str(int)`, `zfill`, `lower`, `strip` and `split` with one separator;
- `re.search(r'\d+')`, `os.path.join` and `os.path.splitext`;
- string `<`, `strptime` and `strftime('%y%m%d')`.

The outside world comes in as parameters:

- The listing of the source directory is a sequence of `DirEntry` values.
- Each entry carries the text exiftool prints for its two tags, or `None`
  when the subprocess or the decoding raises.
- Whether an `os.rename(source, destination)` succeeds is a function
  `renames` of the two paths.
- A pass yields the renames that succeeded, in order.

### Where the code differs from its comments

The model follows the code.

- The records are sorted by the original shot number as a string
  (`key=lambda x: x[6]`), not by capture time. The comment on that line is
  wrong. `Text.LessIsNotNumeric` shows that "10" sorts before "9".
- A file whose `Make` tag cannot be read is dropped; it does not fall back
  to `"Unknown"`. When exiftool fails, `check_output` raises
  `CalledProcessError`, and bad bytes make `decode` raise
  `UnicodeDecodeError`. When the output has no `:`, `split(":", 1)[1]`
  raises `IndexError`. The `try` catches all three.
- Records whose camera id is `"Unknown"` are never renamed. `"Unknown"` is
  not among `camera_id_map.values()`, and the driver runs passes only for
  those values.
- The counter advances only after a rename that succeeds. When `os.rename`
  raises, line 113 is skipped. The previous date and previous shot number
  are already updated at that point.
- Because of that, a shot whose renames all fail counts down: 1, 0, -1, and
  so on (`Sequencer.FailingShotCountsDown`). `zfill` writes -1 as "-001".
- Because the sort is not by time, capture days can interleave. Each return
  to a day starts it again at 1. `Sequencer.InterleavedDaysCollide` shows
  this for three consecutive files of days D, E, D: the third is renamed
  onto the name the first already got.

## Model

| member | source | states |
|---|---|---|
| Text.NatToString | Photo_import.py:110 | `str(n)` of a natural number is a digit string of value `n`, with no leading zero unless it is "0" |
| Text.IntToString | Photo_import.py:110 | `str(n)` is the digits of `n` with no leading zero unless it is "0", or '-' followed by the digits of `-n`, which do not start with '0' |
| Text.ZFill | Photo_import.py:110 | `zfill(w)` has length `max(len, w)` and keeps the text as its tail; the padding is zeros, after a sign when there is one |
| Text.Lower | Photo_import.py:47 | `lower()` keeps the length and lower-cases each character |
| Text.Strip | Photo_import.py:52-54 | `strip()` yields a slice of the input with only whitespace around it, and the slice neither starts nor ends with whitespace |
| Text.StripOfStripped | Photo_import.py:52-54 | stripping text that neither starts nor ends with whitespace changes nothing |
| Text.StripLeadingSpace | Photo_import.py:53 | stripping whitespace followed by stripped text gives that text |
| Text.AfterFirst | Photo_import.py:53 | `split(c, 1)[1]` raises exactly when `c` does not occur; otherwise it is the text after the first `c` |
| Text.BeforeFirst | Photo_import.py:54 | `split(c)[0]` contains no `c`; it is the whole text, or the prefix that ends right before a `c` |
| Text.BeforeFirstOfFree | Photo_import.py:54 | text free of `c`, followed by nothing or by `c` and more, is what `split(c)[0]` gives back |
| Text.FindFirstPastFree | Photo_import.py:53-54 | the first `c` of `a + c + b` is at `len(a)` when `a` has no `c` |
| Text.LessIrreflexive | Photo_import.py:77 | no string sorts before itself |
| Text.LessTransitive | Photo_import.py:77 | string order is transitive |
| Text.LessTrichotomy | Photo_import.py:77 | any two strings are equal or ordered one way |
| Text.LessAsymmetric | Photo_import.py:77 | string order is asymmetric |
| Text.NotLessTransitive | Photo_import.py:77 | "not after" is transitive, so the sort key is a total preorder |
| Text.LessIsNotNumeric | Photo_import.py:77 | the sort key compares text, not numbers: "10" < "9" and "0042" < "042" |
| Text.DigitsOfValue | Photo_import.py:54 | a digit string is the fixed-width numeral of its own value |
| Text.LeadingZerosValue | Photo_import.py:110 | leading zeros do not change a numeral's value |
| Text.NatToStringLength | Photo_import.py:110 | numbers below 10^k are written with at most k digits |
| ExifTime.ParseFormatted | Photo_import.py:54 | every capture time, written as exiftool writes it, parses back to itself |
| ExifTime.FormatParsed | Photo_import.py:54 | a string that parses is exactly the text of the time it parses to |
| ExifTime.Yymmdd | Photo_import.py:110 | `strftime('%y%m%d')` is six digits: the year within its century, the month, the day |
| Photos.JoinPath | Photo_import.py:49 | `os.path.join(dir, name)` is `name` when it is absolute, `dir + name` when `dir` is empty or ends in '/', and `dir + "/" + name` otherwise; it always ends with `name` |
| Photos.FileExtension | Photo_import.py:56 | `splitext(name)[1]` is empty, or a tail of the name that starts with '.', has no other '.' and has no '/' |
| Photos.ImageExtensionKept | Photo_import.py:47-56 | a file that passes the suffix filter has as its extension one of the six suffixes up to case, or none |
| Photos.SplitExtension | Photo_import.py:56 | a name with no '/' whose stem is not all dots has its last ".xyz" tail as extension |
| Photos.DotsOnlyHaveNoExtension | Photo_import.py:56 | a name made only of dots before its ".xyz" tail, such as ".jpg", has no extension |
| Photos.FieldValue | Photo_import.py:53-61 | the value of a tag line exists exactly when the stripped line has a ':', and it is the stripped text after the first ':' |
| Photos.FieldValueOfTagLine | Photo_import.py:53-61 | the line "Tag: value" gives back `value` |
| Photos.CaptureTimeOfTagLine | Photo_import.py:52-54 | a `CreateDate` line gives back its capture time, also with a '-' time-zone suffix |
| Photos.NoDashInTime | Photo_import.py:54 | the written form of a time has no '-', so the cut at '-' keeps all of it |
| Photos.DigitPrefix | Photo_import.py:65 | the longest prefix of digits: all digits, followed by the end or a non-digit |
| Photos.FirstDigitRun | Photo_import.py:65-66 | the token is absent exactly when the name has no digit; otherwise it is the first maximal run of digits |
| Photos.FirstDigitRunUnique | Photo_import.py:65-66 | the first maximal run of digits is unique |
| Photos.CameraId | Photo_import.py:69 | the id is "Unknown" exactly when no key of the map is the make; otherwise it is the value of that key |
| Photos.CameraIdLookup | Photo_import.py:15-19 | "Canon", "FUJIFILM" and "SONY" map to "CANON", "FUJI" and "IR"; every other make, "canon" included, maps to "Unknown", which is none of the ids |
| Photos.BuildRecordSound | Photo_import.py:47-73 | an entry yields a record exactly when it passes the filter and every step of the `try` succeeds; the record is well formed and carries the entry's name, capture time and camera id |
| Photos.CollectedFromListing | Photo_import.py:45-73 | every collected record was built from an entry of the listing |
| Photos.CollectedKeepsGoodFiles | Photo_import.py:45-73 | every entry that yields a record has it collected |
| Photos.CollectedWellFormed | Photo_import.py:45-73 | every collected record is well formed |
| Photos.CollectedKeepsOrder | Photo_import.py:45-73 | collecting a concatenated listing concatenates the results, so the listing order is kept |
| Photos.CollectImageFiles | Photo_import.py:45-73 | the loop returns the records of the entries that yield one, in listing order |
| Naming.SequenceFieldOfNatural | Photo_import.py:110 | for `n >= 0` the field is the digits of `n`, padded to 4 and never truncated |
| Naming.SequenceFieldOfNegative | Photo_import.py:110 | for `n < 0` the field is '-' followed by the zero-padded digits of `-n`, of length `max(4, len(str(n)))` |
| Naming.SequenceFieldInjective | Photo_import.py:110 | different numbers get different fields |
| Naming.SequenceFieldExamples | Photo_import.py:110 | 1 is "0001", 42 is "0042", 0 is "0000" |
| Naming.SequenceFieldWideExamples | Photo_import.py:110 | 12345 keeps all five digits, and -1 is "-001" |
| Naming.DestinationPath | Photo_import.py:111 | the target is the destination directory, '/', and the new name |
| Naming.ReadSequenceField | Photo_import.py:110 | the number field followed by an extension reads back as the number and the extension |
| Naming.ParseNewFilenameRoundTrip | Photo_import.py:110 | a new name gives back its date digits, camera id, number and extension |
| Naming.NewFilenameInjective | Photo_import.py:110 | two new names are equal only when date, camera id, number and extension are all equal |
| Naming.CameraIdsHaveNoUnderscore | Photo_import.py:15-19 | the configured ids contain no '_', so every name the script gives reads back |
| Sorting.InsertionSortSorted | Photo_import.py:77 | the stable sort puts the records in ascending order of token string |
| Sorting.InsertionSortMultiset | Photo_import.py:77 | the stable sort is a permutation of its input |
| Sorting.InsertionSortStable | Photo_import.py:77 | records with any one token come out in the order they went in, as `list.sort` guarantees |
| Sorting.InsertWithToken | Photo_import.py:77 | inserting a record keeps the order of the records of each token |
| Sorting.InsertSorted | Photo_import.py:77 | inserting a record into a sorted sequence keeps it sorted |
| Sorting.InsertAt | Photo_import.py:77 | a record lands right after the last record whose token is not larger than its own |
| Sorting.SortByToken | Photo_import.py:77 | the array ends up as the stable sort of what it held, hence sorted by token string and a permutation |
| Sorting.InsertLast | Photo_import.py:77 | moving the next record into the sorted front gives the stable insertion into the front, and the rest of the array is unchanged |
| Sequencer.StepSucceeds | Photo_import.py:95-113 | a record of the camera whose rename succeeds is renamed to the name with its assigned number, and the counter moves one past it |
| Sequencer.StepFails | Photo_import.py:95-117 | a record of the camera whose rename fails is not renamed; the counter stays at its assigned number while the previous date and token move on |
| Sequencer.RenameImageFiles | Photo_import.py:80-117 | the loop performs exactly the renames of the pass over the records |
| Sequencer.RenameImageFile | Photo_import.py:89-117 | one turn of the loop leaves the locals and the renames as one step of the pass does |
| Sequencer.OtherCameraSkipped | Photo_import.py:91-92 | a record of another camera gets no name and leaves the state unchanged |
| Sequencer.PassIgnoresOtherCameras | Photo_import.py:88-92 | a pass over all records equals the pass over the records of its camera only |
| Sequencer.StepRenamesFrom | Photo_import.py:91-111 | the rename a step performs has the record's path as source and a name for the record as destination, and it succeeded |
| Sequencer.PassRenamesOnlyMatching | Photo_import.py:91-111 | every rename of a pass comes from a record of its camera, with a name for that record as destination |
| Sequencer.PassRenamesEveryMatching | Photo_import.py:88-113 | when all renames succeed, each record of the camera is renamed once, in order |
| Sequencer.NewDayNumber | Photo_import.py:95-105 | the first file of a new day is numbered 1, or 0 when its token repeats the previous file's |
| Sequencer.PairSharesNumber | Photo_import.py:104-113 | a repeated token on the same day gets its predecessor's number, and the counter's net change is zero |
| Sequencer.NextShotCountsOn | Photo_import.py:110-113 | with a successful rename, the next distinct shot of the same day gets the next number |
| Sequencer.FailedRenameFreesNumber | Photo_import.py:95-117 | a failed rename keeps the counter, but the previous date and token are updated; the next file reuses the number or, for the same shot, gets one less |
| Sequencer.CounterPositive | Photo_import.py:82-113 | while every rename succeeds the counter stays at 1 or more |
| Sequencer.NumbersNotNegative | Photo_import.py:95-113 | while every rename succeeds no number is negative |
| Sequencer.FailingShotCountsDown | Photo_import.py:95-117 | files of one shot whose renames all fail are numbered 1, 0, -1, and so on |
| Sequencer.InterleavedDaysCollide | Photo_import.py:95-113 | of three consecutive files of days D, E, D, the first is renamed with number 1 and the third is renamed onto that same destination |
| PhotoImport.RenameAllCameras | Photo_import.py:121-122 | the driver performs the passes for the configured camera ids, in map order |
| PhotoImport.RenamesForSources | Photo_import.py:121-122 | every rename of the driver comes from a record whose camera id is one of the ids run |
| PhotoImport.RenameAllOnlyKnownCameras | Photo_import.py:121-122 | only records of a configured camera are renamed; "Unknown" ones never are |
| PhotoImport.ImportPhotos | Photo_import.py:44-122 | the script's records are the stable sort by token of the collected ones, and its renames are those of the driver over them |

## Left out

- `check_dependencies` (Photo_import.py:28-41) runs `exiftool -ver`. It is
  an external process call. It also calls `sys.exit`, but `sys` is never
  imported.
- The exiftool calls (Photo_import.py:51-52, 59-60) are not modelled. Their
  decoded output lines are inputs of `DirEntry`, and `None` stands for a
  call or decode that raises.
- `os.listdir` (Photo_import.py:46) is not modelled. The listing is an input
  sequence, in whatever order the OS returns.
- `os.rename` (Photo_import.py:111) is a function of source and destination
  that says whether the call succeeds. The model does not track the file
  system. In particular, it does not model that a rename onto an existing
  name replaces that file; `Sequencer.InterleavedDaysCollide` only shows
  that the two destinations are equal.
- Logging (Photo_import.py:22-25, 62, 70, 73, 75, 99-101, 112, 117, 125) is
  left out. It is diagnostics only.
- `prev_capture_time` and `prev_sequence_number` (Photo_import.py:84-85) are
  left out. Neither is assigned after its initialisation, and
  `prev_capture_time` is read only by the debug log at line 100.
- ExifTime.ParseExifTime: accepts only two-digit month, day, hour, minute and
  second fields and a four-digit year. `strptime` also accepts one-digit
  fields and a few other spellings.
- Text.Lower: lower-cases ASCII letters only. Python's `str.lower` works on
  all of Unicode.
- Photos.FirstDigitRun: treats only ASCII '0'-'9' as digits. In Python 3,
  `\d` on a `str` matches every Unicode decimal digit.
- An ordering by capture time, which the comment at Photo_import.py:76
  announces, is left out. The code sorts by token only.
