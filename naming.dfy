/** The names the importer gives renamed files (Photo_import.py:110-111):
    "<prefix>_<yymmdd>_<camera id>_<number, zero-filled to 4><extension>",
    placed in the destination directory. */
module Naming {
  import opened Options
  import opened Text
  import opened ExifTime
  import opened Photos

  /** `str(sequence_number).zfill(4)`. */
  function SequenceField(n: int): (f: string)
  {
    ZFill(IntToString(n), 4)
  }

  /** A natural number is written with its decimal digits, at least four of
      them, and exactly four below 10000. */
  lemma SequenceFieldOfNatural(n: nat)
    ensures AllDigits(SequenceField(n)) && DigitsValue(SequenceField(n)) == n
    ensures |SequenceField(n)| == Max(4, |NatToString(n)|)
    ensures n < 10000 ==> |SequenceField(n)| == 4
  {
    var s := IntToString(n);
    var f := SequenceField(n);
    if |s| < 4 {
      assert f == Zeros(4 - |s|) + s;
      LeadingZerosValue(Zeros(4 - |s|), s);
    }
    if n < 10000 {
      assert Pow10(4) == 10000;
      NatToStringLength(n, 4);
    }
  }

  /** A negative number keeps its minus sign in front, followed by the
      zero-filled digits of its magnitude, four characters in all when the
      magnitude is below 1000. */
  lemma SequenceFieldOfNegative(n: int)
    requires n < 0
    ensures |SequenceField(n)| >= 4 && SequenceField(n)[0] == '-'
    ensures AllDigits(SequenceField(n)[1..]) && DigitsValue(SequenceField(n)[1..]) == -n
    ensures |SequenceField(n)| == Max(4, |IntToString(n)|)
    ensures -n < 1000 ==> |SequenceField(n)| == 4
  {
    var m := NatToString(-n);
    assert IntToString(n) == "-" + m;
    if |m| < 3 {
      ZFillNegative(m, 4);
      DropFirst('-', Zeros(3 - |m|) + m);
      LeadingZerosValue(Zeros(3 - |m|), m);
    } else {
      DropFirst('-', m);
    }
    if -n < 1000 {
      assert Pow10(3) == 1000;
      NatToStringLength(-n, 3);
    }
  }

  /** Padding a negative numeral puts the zeros between the sign and the digits. */
  lemma ZFillNegative(m: string, width: nat)
    requires 1 + |m| < width
    ensures ZFill("-" + m, width) == "-" + (Zeros(width - 1 - |m|) + m)
  {
    var s := "-" + m;
    assert s[0] == '-' && s[1..] == m;
  }

  /** Different numbers get different fields. */
  lemma SequenceFieldInjective(m: int, n: int)
    requires SequenceField(m) == SequenceField(n)
    ensures m == n
  {
    if m >= 0 { SequenceFieldOfNatural(m); } else { SequenceFieldOfNegative(m); }
    if n >= 0 { SequenceFieldOfNatural(n); } else { SequenceFieldOfNegative(n); }
  }

  lemma SequenceFieldExamples()
    ensures SequenceField(1) == "0001" && SequenceField(42) == "0042" && SequenceField(0) == "0000"
  {
    assert IntToString(1) == "1" && IntToString(42) == "42" && IntToString(0) == "0";
  }

  /** Numbers of five digits keep all of them, and a minus sign counts
      towards the width. */
  lemma SequenceFieldWideExamples()
    ensures SequenceField(12345) == "12345" && SequenceField(-1) == "-001"
  {
    assert NatToString(1234) == "1234";
    assert IntToString(12345) == "12345";
    assert IntToString(-1) == "-1";
  }

  /** `new_filename` of Photo_import.py:110. */
  function NewFilename(t: CaptureTime, cameraId: string, n: int, ext: string): string
  {
    PREFIX + "_" + Yymmdd(t) + "_" + cameraId + "_" + SequenceField(n) + ext
  }

  /** The target of `os.rename`: `os.path.join(destination_dir, new_filename)`. */
  function DestinationPath(name: string): (p: string)
    ensures |name| > 0 && name[0] != '/' ==> p == DESTINATION_DIR + "/" + name
  {
    JoinPath(DESTINATION_DIR, name)
  }

  /** The fields a new file name is made of. */
  datatype NameParts = NameParts(yymmdd: string, cameraId: string, number: int, extension: string)

  /** Reads a decimal numeral off the front of `s`, returning its value and
      what follows it. */
  function ReadDigits(s: string): Option<(nat, string)>
  {
    var digits := DigitPrefix(s);
    if |digits| == 0 then None else Some((DigitsValue(digits), s[|digits|..]))
  }

  /** Reads an optionally signed decimal numeral off the front of `s`. */
  function ReadNumber(s: string): Option<(int, string)>
  {
    if |s| > 0 && s[0] == '-' then
      match ReadDigits(s[1..])
      case None => None
      case Some((v, rest)) => Some((-(v as int), rest))
    else
      match ReadDigits(s)
      case None => None
      case Some((v, rest)) => Some((v as int, rest))
  }

  /** Reads a new file name back into its fields: the prefix, six date
      digits, the camera id up to the next '_', an optionally signed numeral
      and whatever follows it. */
  function ParseNewFilename(name: string): Option<NameParts>
  {
    var head := PREFIX + "_";
    if |name| < |head| + 7 || name[..|head|] != head then None
    else
      var date := name[|head|..|head| + 6];
      if !AllDigits(date) || name[|head| + 6] != '_' then None
      else
        var rest := name[|head| + 7..];
        match FindFirst(rest, '_')
        case None => None
        case Some(u) =>
          match ReadNumber(rest[u + 1..])
          case None => None
          case Some((n, ext)) => Some(NameParts(date, rest[..u], n, ext))
  }

  lemma ReadDigitsOfConcat(d: string, ext: string)
    requires |d| > 0 && AllDigits(d) && (ext == [] || !IsDigit(ext[0]))
    ensures ReadDigits(d + ext) == Some((DigitsValue(d), ext))
  {
    DigitPrefixOfConcat(d, ext);
    assert (d + ext)[|d|..] == ext;
  }

  lemma ReadUnsigned(s: string, v: nat, rest: string)
    requires (|s| == 0 || s[0] != '-') && ReadDigits(s) == Some((v, rest))
    ensures ReadNumber(s) == Some((v as int, rest))
  {
  }

  lemma ReadSigned(t: string, v: nat, rest: string)
    requires ReadDigits(t) == Some((v, rest))
    ensures ReadNumber("-" + t) == Some((-(v as int), rest))
  {
    DropFirst('-', t);
  }

  lemma SplitFirst(s: string, t: string)
    requires |s| > 0
    ensures s + t == [s[0]] + (s[1..] + t)
  {
  }

  lemma DropFirst(c: char, t: string)
    ensures ([c] + t)[0] == c && ([c] + t)[1..] == t
  {
  }

  /** The sequence field followed by an extension reads back as the number
      and the extension. */
  lemma ReadSequenceField(n: int, ext: string)
    requires ext == [] || !IsDigit(ext[0])
    ensures ReadNumber(SequenceField(n) + ext) == Some((n, ext))
  {
    if n >= 0 { ReadNaturalField(n, ext); } else { ReadNegativeField(n, ext); }
  }

  lemma ReadNaturalField(n: nat, ext: string)
    requires ext == [] || !IsDigit(ext[0])
    ensures ReadNumber(SequenceField(n) + ext) == Some((n as int, ext))
  {
    var f := SequenceField(n);
    SequenceFieldOfNatural(n);
    ReadDigitsOfConcat(f, ext);
    assert (f + ext)[0] == f[0];
    ReadUnsigned(f + ext, n, ext);
  }

  lemma ReadNegativeField(n: int, ext: string)
    requires n < 0 && (ext == [] || !IsDigit(ext[0]))
    ensures ReadNumber(SequenceField(n) + ext) == Some((n, ext))
  {
    var f := SequenceField(n);
    SequenceFieldOfNegative(n);
    var tail := f[1..] + ext;
    SplitFirst(f, ext);
    assert f + ext == "-" + tail;
    ReadDigitsOfConcat(f[1..], ext);
    ReadSigned(tail, -n, ext);
  }

  /** A new file name gives back its date, camera id, number and extension
      whenever the camera id has no '_' and the extension does not start with
      a digit. */
  lemma ParseNewFilenameRoundTrip(t: CaptureTime, cameraId: string, n: int, ext: string)
    requires '_' !in cameraId
    requires ext == [] || !IsDigit(ext[0])
    ensures ParseNewFilename(NewFilename(t, cameraId, n, ext)) == Some(NameParts(Yymmdd(t), cameraId, n, ext))
  {
    var tail := SequenceField(n) + ext;
    NameSlices(PREFIX + "_", Yymmdd(t), cameraId, SequenceField(n), ext);
    FindFirstPastFree(cameraId, '_', tail);
    ReadSequenceField(n, ext);
  }

  /** Where the pieces of a name sit in it. */
  lemma NameSlices(head: string, date: string, id: string, field: string, ext: string)
    requires |date| == 6
    ensures var name := head + date + "_" + id + "_" + field + ext;
            var rest := id + ['_'] + (field + ext);
            && |name| >= |head| + 7
            && name[..|head|] == head && name[|head|..|head| + 6] == date
            && name[|head| + 6] == '_' && name[|head| + 7..] == rest
            && rest[..|id|] == id && rest[|id| + 1..] == field + ext
  {
  }

  /** Two renames land on the same name only when they agree on the date,
      the camera id, the number and the extension. */
  lemma NewFilenameInjective(t1: CaptureTime, id1: string, n1: int, ext1: string,
                             t2: CaptureTime, id2: string, n2: int, ext2: string)
    requires '_' !in id1 && '_' !in id2
    requires ext1 == [] || !IsDigit(ext1[0])
    requires ext2 == [] || !IsDigit(ext2[0])
    requires NewFilename(t1, id1, n1, ext1) == NewFilename(t2, id2, n2, ext2)
    ensures Yymmdd(t1) == Yymmdd(t2) && id1 == id2 && n1 == n2 && ext1 == ext2
  {
    ParseNewFilenameRoundTrip(t1, id1, n1, ext1);
    ParseNewFilenameRoundTrip(t2, id2, n2, ext2);
  }

  /** The configured camera ids contain no '_', so the round trip holds for
      every file the importer renames. */
  lemma CameraIdsHaveNoUnderscore()
    ensures forall k | 0 <= k < |CameraIds()| :: '_' !in CameraIds()[k]
  {
    assert CameraIds() == ["CANON", "FUJI", "IR"];
  }
}
