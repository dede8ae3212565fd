/** Capture times as the importer reads them from the exiftool `CreateDate`
    tag (`datetime.strptime(..., "%Y:%m:%d %H:%M:%S")`, Photo_import.py:54)
    and writes them into new names (`strftime('%y%m%d')`, Photo_import.py:110). */
module ExifTime {
  import opened Options
  import opened Text

  datatype Date = Date(year: int, month: int, day: int)

  datatype DateTime = DateTime(date: Date, hour: int, minute: int, second: int)

  predicate IsLeapYear(y: int)
  {
    y % 4 == 0 && (y % 100 != 0 || y % 400 == 0)
  }

  function DaysInMonth(y: int, m: int): int
    requires 1 <= m <= 12
  {
    if m == 2 then (if IsLeapYear(y) then 29 else 28)
    else if m == 4 || m == 6 || m == 9 || m == 11 then 30
    else 31
  }

  /** The dates Python's `datetime.date` can represent. */
  predicate ValidDate(d: Date)
  {
    1 <= d.year <= 9999 && 1 <= d.month <= 12 && 1 <= d.day <= DaysInMonth(d.year, d.month)
  }

  /** The whole-second times Python's `datetime.datetime` can represent. */
  predicate ValidDateTime(t: DateTime)
  {
    ValidDate(t.date) && 0 <= t.hour < 24 && 0 <= t.minute < 60 && 0 <= t.second < 60
  }

  /** A parsed capture time; `capture_time.date()` is its `date` field. */
  type CaptureTime = t: DateTime | ValidDateTime(t) witness DateTime(Date(1, 1, 1), 0, 0, 0)

  /** The shape "YYYY:MM:DD HH:MM:SS": digits, with ':' and ' ' at fixed places. */
  predicate IsExifPattern(s: string)
  {
    && |s| == 19
    && s[4] == ':' && s[7] == ':' && s[10] == ' ' && s[13] == ':' && s[16] == ':'
    && AllDigits(s[0..4]) && AllDigits(s[5..7]) && AllDigits(s[8..10])
    && AllDigits(s[11..13]) && AllDigits(s[14..16]) && AllDigits(s[17..19])
  }

  function Field(s: string, start: nat, len: nat): nat
    requires start + len <= |s| && AllDigits(s[start..start + len])
  {
    DigitsValue(s[start..start + len])
  }

  /** `datetime.strptime(s, "%Y:%m:%d %H:%M:%S")`: `None` where Python raises
      `ValueError`, that is when the shape is wrong or the fields name no
      existing time. */
  function ParseExifTime(s: string): (r: Option<CaptureTime>)
  {
    if !IsExifPattern(s) then None
    else
      var t := DateTime(Date(Field(s, 0, 4), Field(s, 5, 2), Field(s, 8, 2)),
                        Field(s, 11, 2), Field(s, 14, 2), Field(s, 17, 2));
      if ValidDateTime(t) then Some(t) else None
  }

  /** The text exiftool writes for a capture time: the inverse of ParseExifTime. */
  function FormatExifTime(t: CaptureTime): (s: string)
  {
    Assemble(Digits(t.date.year, 4), Digits(t.date.month, 2), Digits(t.date.day, 2),
             Digits(t.hour, 2), Digits(t.minute, 2), Digits(t.second, 2))
  }

  /** Every capture time survives being written and parsed back. */
  lemma ParseFormatted(t: CaptureTime)
    ensures ParseExifTime(FormatExifTime(t)) == Some(t)
  {
    var s := FormatExifTime(t);
    assert Pow10(4) == 10000 && Pow10(2) == 100;
    AssembledSlices(Digits(t.date.year, 4), Digits(t.date.month, 2), Digits(t.date.day, 2),
                    Digits(t.hour, 2), Digits(t.minute, 2), Digits(t.second, 2));
    assert IsExifPattern(s);
  }

  /** The six numerals of an "YYYY:MM:DD HH:MM:SS" string, put back together. */
  function Assemble(y: string, mo: string, d: string, h: string, mi: string, sec: string): string
  {
    y + ":" + mo + ":" + d + " " + h + ":" + mi + ":" + sec
  }

  /** Where the six numerals sit in the assembled string. */
  lemma AssembledSlices(y: string, mo: string, d: string, h: string, mi: string, sec: string)
    requires |y| == 4 && |mo| == 2 && |d| == 2 && |h| == 2 && |mi| == 2 && |sec| == 2
    ensures var s := Assemble(y, mo, d, h, mi, sec);
            && |s| == 19 && s[4] == ':' && s[7] == ':' && s[10] == ' ' && s[13] == ':' && s[16] == ':'
            && s[0..4] == y && s[5..7] == mo && s[8..10] == d
            && s[11..13] == h && s[14..16] == mi && s[17..19] == sec
  {
  }

  lemma PatternAssembles(s: string)
    requires |s| == 19 && s[4] == ':' && s[7] == ':' && s[10] == ' ' && s[13] == ':' && s[16] == ':'
    ensures s == Assemble(s[0..4], s[5..7], s[8..10], s[11..13], s[14..16], s[17..19])
  {
    var a := Assemble(s[0..4], s[5..7], s[8..10], s[11..13], s[14..16], s[17..19]);
    assert |a| == 19;
    forall i | 0 <= i < 19 ensures a[i] == s[i] {
      if i < 4 {} else if i < 7 {} else if i < 10 {} else if i < 13 {} else if i < 16 {} else {}
    }
  }

  /** A string that parses is exactly the text of the time it parses to, so
      the parser accepts one spelling per capture time. */
  lemma FormatParsed(s: string)
    requires ParseExifTime(s).Some?
    ensures FormatExifTime(ParseExifTime(s).value) == s
  {
    var t := ParseExifTime(s).value;
    assert t.date.year == DigitsValue(s[0..4]) && t.date.month == DigitsValue(s[5..7])
        && t.date.day == DigitsValue(s[8..10]) && t.hour == DigitsValue(s[11..13])
        && t.minute == DigitsValue(s[14..16]) && t.second == DigitsValue(s[17..19]);
    DigitsOfValue(s[0..4]);
    DigitsOfValue(s[5..7]);
    DigitsOfValue(s[8..10]);
    DigitsOfValue(s[11..13]);
    DigitsOfValue(s[14..16]);
    DigitsOfValue(s[17..19]);
    PatternAssembles(s);
  }

  /** `capture_time.strftime('%y%m%d')`: two digits each of the year within
      its century, the month and the day. */
  function Yymmdd(t: CaptureTime): (r: string)
    ensures |r| == 6 && AllDigits(r)
    ensures DigitsValue(r[..2]) == t.date.year % 100
    ensures DigitsValue(r[2..4]) == t.date.month
    ensures DigitsValue(r[4..]) == t.date.day
  {
    assert Pow10(2) == 100;
    var yy := Digits(t.date.year % 100, 2);
    var mm := Digits(t.date.month, 2);
    var dd := Digits(t.date.day, 2);
    assert (yy + mm + dd)[..2] == yy && (yy + mm + dd)[2..4] == mm && (yy + mm + dd)[4..] == dd;
    yy + mm + dd
  }
}
