/** The conventional optional value, used for Python's `None` and for
    operations that raise on bad input. */
module Options {
  datatype Option<+T> = None | Some(value: T)
}

/** The pieces of Python's `str` that the importer relies on: decimal digits,
    `str(int)`, `str.zfill`, `str.lower`, `str.strip`, `str.split` with one
    separator, `str.endswith` and the ordering `<` on strings. */
module Text {
  import opened Options

  // ---------------------------------------------------------------------------
  // Decimal digits

  predicate IsDigit(c: char) { '0' <= c <= '9' }

  predicate AllDigits(s: string) { forall i | 0 <= i < |s| :: IsDigit(s[i]) }

  predicate AllZeros(s: string) { forall i | 0 <= i < |s| :: s[i] == '0' }

  function DigitValue(c: char): (d: nat)
    requires IsDigit(c)
    ensures d < 10
  {
    (c as int) - ('0' as int)
  }

  function DigitChar(d: nat): (c: char)
    requires d < 10
    ensures IsDigit(c) && DigitValue(c) == d
  {
    (('0' as int) + d) as char
  }

  /** The number a string of decimal digits denotes (leading zeros allowed). */
  function DigitsValue(s: string): nat
    requires AllDigits(s)
  {
    if |s| == 0 then 0 else 10 * DigitsValue(s[..|s| - 1]) + DigitValue(s[|s| - 1])
  }

  function Pow10(k: nat): (p: nat)
    ensures p >= 1
  {
    if k == 0 then 1 else 10 * Pow10(k - 1)
  }

  function Zeros(k: nat): (z: string)
    ensures |z| == k && AllZeros(z) && AllDigits(z)
  {
    seq(k, _ => '0')
  }

  function Max(a: int, b: int): int { if a >= b then a else b }

  /** `str(n)` for a non-negative integer: the shortest decimal numeral. */
  function NatToString(n: nat): (r: string)
    ensures 1 <= |r| && AllDigits(r) && DigitsValue(r) == n
    ensures |r| == 1 || r[0] != '0'
  {
    if n < 10 then [DigitChar(n)]
    else
      var p := NatToString(n / 10);
      assert (p + [DigitChar(n % 10)])[..|p|] == p;
      p + [DigitChar(n % 10)]
  }

  /** `str(n)` for any integer: a minus sign in front of the magnitude's numeral. */
  function IntToString(n: int): (r: string)
    ensures 1 <= |r|
    ensures n >= 0 ==> AllDigits(r) && DigitsValue(r) == n && (|r| == 1 || r[0] != '0')
    ensures n < 0 ==> 2 <= |r| && r[0] == '-' && AllDigits(r[1..]) && DigitsValue(r[1..]) == -n && r[1] != '0'
  {
    if n < 0 then
      var m := NatToString(-n);
      assert ("-" + m)[1..] == m;
      assert m[0] != '0' by {
        if |m| == 1 { assert m == [m[0]]; }
      }
      "-" + m
    else NatToString(n)
  }

  /** A fixed-width, zero-padded numeral of `w` digits (the `%02d`-style
      fields of `strftime`); it keeps the low `w` digits of `n`. */
  function Digits(n: nat, w: nat): (r: string)
    ensures |r| == w && AllDigits(r)
    ensures n < Pow10(w) ==> DigitsValue(r) == n
  {
    if w == 0 then []
    else
      var p := Digits(n / 10, w - 1);
      assert (p + [DigitChar(n % 10)])[..|p|] == p;
      p + [DigitChar(n % 10)]
  }

  lemma {:induction false} DigitsOfValue(s: string)
    requires AllDigits(s)
    ensures Digits(DigitsValue(s), |s|) == s
  {
    if |s| > 0 {
      var p := s[..|s| - 1];
      DigitsOfValue(p);
      assert s == p + [s[|s| - 1]];
    }
  }

  /** Leading zeros do not change the value of a numeral. */
  lemma {:induction false} LeadingZerosValue(z: string, s: string)
    requires AllZeros(z) && AllDigits(s)
    ensures AllDigits(z + s) && DigitsValue(z + s) == DigitsValue(s)
  {
    if |s| == 0 {
      assert z + s == z;
      ZerosValue(z);
    } else {
      var p := s[..|s| - 1];
      LeadingZerosValue(z, p);
      assert (z + s)[..|z + s| - 1] == z + p;
    }
  }

  lemma {:induction false} ZerosValue(z: string)
    requires AllZeros(z)
    ensures AllDigits(z) && DigitsValue(z) == 0
  {
    if |z| > 0 {
      ZerosValue(z[..|z| - 1]);
    }
  }

  /** Numbers below 10^k are written with at most k digits. */
  lemma {:induction false} NatToStringLength(n: nat, k: nat)
    requires 1 <= k && n < Pow10(k)
    ensures |NatToString(n)| <= k
  {
    if n >= 10 {
      NatToStringLength(n / 10, k - 1);
    }
  }

  // ---------------------------------------------------------------------------
  // str.zfill

  predicate HasSign(s: string) { |s| > 0 && (s[0] == '+' || s[0] == '-') }

  predicate EndsWith(s: string, suffix: string)
  {
    |suffix| <= |s| && s[|s| - |suffix|..] == suffix
  }

  /** Python's `s.zfill(width)`: pad with '0' on the left up to `width`
      characters, after a leading sign if there is one; never shorten. */
  function ZFill(s: string, width: nat): (r: string)
    ensures |r| == Max(|s|, width)
    ensures HasSign(s) ==> r[0] == s[0] && EndsWith(r, s[1..]) && AllZeros(r[1..|r| - |s| + 1])
    ensures !HasSign(s) ==> EndsWith(r, s) && AllZeros(r[..|r| - |s|])
  {
    if |s| >= width then s
    else if HasSign(s) then
      var r := [s[0]] + Zeros(width - |s|) + s[1..];
      assert r[1..|r| - |s| + 1] == Zeros(width - |s|);
      r
    else Zeros(width - |s|) + s
  }

  // ---------------------------------------------------------------------------
  // str.lower (ASCII letters)

  function ToLower(c: char): char
  {
    if 'A' <= c <= 'Z' then ((c as int) + 32) as char else c
  }

  function Lower(s: string): (r: string)
    ensures |r| == |s| && forall i | 0 <= i < |s| :: r[i] == ToLower(s[i])
  {
    seq(|s|, i requires 0 <= i < |s| => ToLower(s[i]))
  }

  /** Lowering commutes with taking a suffix. */
  lemma LowerSuffix(s: string, p: nat)
    requires p <= |s|
    ensures Lower(s[p..]) == Lower(s)[p..]
  {
  }

  // ---------------------------------------------------------------------------
  // str.strip with no argument

  /** The characters Python's `str.isspace` accepts. */
  predicate IsSpace(c: char)
  {
    || '\U{9}' <= c <= '\U{D}'
    || '\U{1C}' <= c <= '\U{20}'
    || c == '\U{85}' || c == '\U{A0}' || c == '\U{1680}'
    || '\U{2000}' <= c <= '\U{200A}'
    || c == '\U{2028}' || c == '\U{2029}' || c == '\U{202F}' || c == '\U{205F}' || c == '\U{3000}'
  }

  predicate IsStripped(s: string)
  {
    |s| == 0 || (!IsSpace(s[0]) && !IsSpace(s[|s| - 1]))
  }

  /** The first index at or after `i` that is not whitespace, or `|s|`. */
  function SkipSpaces(s: string, i: nat): (j: nat)
    requires i <= |s|
    ensures i <= j <= |s| && (j == |s| || !IsSpace(s[j]))
    ensures forall k | i <= k < j :: IsSpace(s[k])
    decreases |s| - i
  {
    if i < |s| && IsSpace(s[i]) then SkipSpaces(s, i + 1) else i
  }

  /** The index just past the last character before `j` and not before `i`
      that is not whitespace, or `i`. */
  function SkipSpacesBack(s: string, i: nat, j: nat): (e: nat)
    requires i <= j <= |s|
    ensures i <= e <= j && (e == i || !IsSpace(s[e - 1]))
    ensures forall k | e <= k < j :: IsSpace(s[k])
    decreases j
  {
    if i < j && IsSpace(s[j - 1]) then SkipSpacesBack(s, i, j - 1) else j
  }

  /** `r` is the slice of `s` at `i`, and everything around it is whitespace. */
  predicate SliceBetweenSpaces(s: string, i: int, r: string)
  {
    && 0 <= i <= |s| - |r| && s[i..i + |r|] == r
    && (forall k | 0 <= k < i :: IsSpace(s[k]))
    && (forall k | i + |r| <= k < |s| :: IsSpace(s[k]))
  }

  /** Python's `s.strip()`: the slice of `s` left once the whitespace at both
      ends is removed. */
  function Strip(s: string): (r: string)
    ensures IsStripped(r)
    ensures exists i :: SliceBetweenSpaces(s, i, r)
  {
    var i := SkipSpaces(s, 0);
    var e := SkipSpacesBack(s, i, |s|);
    assert SliceBetweenSpaces(s, i, s[i..e]);
    s[i..e]
  }

  lemma StripOfStripped(s: string)
    requires IsStripped(s)
    ensures Strip(s) == s
  {
    assert s[0..|s|] == s;
  }

  /** Spaces before index `|w|` of `w + s` are skipped up to the start of `s`. */
  lemma {:induction false} SkipLeadingSpace(w: string, s: string, i: nat)
    requires i <= |w| && forall k | 0 <= k < |w| :: IsSpace(w[k])
    requires IsStripped(s)
    ensures SkipSpaces(w + s, i) == |w|
    decreases |w| - i
  {
    if i < |w| {
      assert (w + s)[i] == w[i];
      SkipLeadingSpace(w, s, i + 1);
    } else if |s| > 0 {
      assert (w + s)[i] == s[0];
    }
  }

  /** Stripping a string that is one run of whitespace away from a stripped
      one gives that stripped string back. */
  lemma StripLeadingSpace(w: string, s: string)
    requires forall k | 0 <= k < |w| :: IsSpace(w[k])
    requires IsStripped(s)
    ensures Strip(w + s) == s
  {
    var x := w + s;
    SkipLeadingSpace(w, s, 0);
    if |s| > 0 {
      assert x[|x| - 1] == s[|s| - 1];
    }
    assert x[|w|..|x|] == s;
  }

  // ---------------------------------------------------------------------------
  // Searching and splitting on one character

  function FindFirst(s: string, c: char): (r: Option<nat>)
    ensures r.None? ==> c !in s
    ensures r.Some? ==> r.value < |s| && s[r.value] == c && c !in s[..r.value]
  {
    if |s| == 0 then None
    else if s[0] == c then Some(0)
    else match FindFirst(s[1..], c)
      case None => None
      case Some(i) =>
        assert s[..i + 1] == [s[0]] + s[1..][..i];
        Some(i + 1)
  }

  function FindLast(s: string, c: char): (r: Option<nat>)
    ensures r.None? ==> c !in s
    ensures r.Some? ==> r.value < |s| && s[r.value] == c && c !in s[r.value + 1..]
  {
    if |s| == 0 then None
    else if s[|s| - 1] == c then Some(|s| - 1)
    else
      var p := s[..|s| - 1];
      match FindLast(p, c)
      case None =>
        assert s == p + [s[|s| - 1]];
        None
      case Some(i) =>
        assert s[i + 1..] == p[i + 1..] + [s[|s| - 1]];
        Some(i)
  }

  /** The last occurrence is the one with no other after it. */
  lemma FindLastAt(s: string, c: char, p: nat)
    requires p < |s| && s[p] == c && c !in s[p + 1..]
    ensures FindLast(s, c) == Some(p)
  {
  }

  lemma {:induction false} FindFirstPastFree(a: string, c: char, b: string)
    requires c !in a
    ensures FindFirst(a + [c] + b, c) == Some(|a|)
  {
    if |a| > 0 {
      assert (a + [c] + b)[1..] == a[1..] + [c] + b;
      FindFirstPastFree(a[1..], c, b);
    }
  }

  /** `s.split(c)[0]`: everything before the first `c`, or all of `s`. */
  function BeforeFirst(s: string, c: char): (r: string)
    ensures c !in r
    ensures r == s || (|r| < |s| && r == s[..|r|] && s[|r|] == c)
  {
    match FindFirst(s, c)
    case None => s
    case Some(i) => s[..i]
  }

  /** Text free of `c` followed by nothing, or by `c` and more, is what comes
      before the first `c`. */
  lemma BeforeFirstOfFree(a: string, c: char, b: string)
    requires c !in a && (b == [] || b[0] == c)
    ensures BeforeFirst(a + b, c) == a
  {
    if b == [] {
      assert a + b == a;
    } else {
      assert a + b == a + [c] + b[1..];
      FindFirstPastFree(a, c, b[1..]);
      assert (a + b)[..|a|] == a;
    }
  }

  /** `s.split(c, 1)[1]`: everything after the first `c`; Python raises
      `IndexError` when `c` does not occur, which is `None` here. */
  function AfterFirst(s: string, c: char): (r: Option<string>)
    ensures r.None? <==> c !in s
    ensures r.Some? ==> exists i :: 0 <= i < |s| && s[i] == c && c !in s[..i] && r.value == s[i + 1..]
  {
    match FindFirst(s, c)
    case None => None
    case Some(i) => Some(s[i + 1..])
  }

  // ---------------------------------------------------------------------------
  // The order `<` on Python strings: code point by code point, and a proper
  // prefix comes first.

  predicate Less(a: string, b: string)
  {
    if |a| == 0 then |b| > 0
    else if |b| == 0 then false
    else if a[0] != b[0] then a[0] < b[0]
    else Less(a[1..], b[1..])
  }

  lemma {:induction false} LessIrreflexive(a: string)
    ensures !Less(a, a)
  {
    if |a| > 0 {
      LessIrreflexive(a[1..]);
    }
  }

  lemma {:induction false} LessTransitive(a: string, b: string, c: string)
    requires Less(a, b) && Less(b, c)
    ensures Less(a, c)
  {
    if |a| > 0 && |b| > 0 && |c| > 0 && a[0] == b[0] == c[0] {
      LessTransitive(a[1..], b[1..], c[1..]);
    }
  }

  lemma {:induction false} LessTrichotomy(a: string, b: string)
    ensures Less(a, b) || a == b || Less(b, a)
  {
    if |a| > 0 && |b| > 0 && a[0] == b[0] {
      LessTrichotomy(a[1..], b[1..]);
      if a[1..] == b[1..] {
        assert a == [a[0]] + a[1..] && b == [b[0]] + b[1..];
      }
    }
  }

  lemma LessAsymmetric(a: string, b: string)
    requires Less(a, b)
    ensures !Less(b, a)
  {
    if Less(b, a) {
      LessTransitive(a, b, a);
      LessIrreflexive(a);
    }
  }

  /** "Not after" is transitive too, so sorting by `<` is well defined. */
  lemma NotLessTransitive(a: string, b: string, c: string)
    requires !Less(b, a) && !Less(c, b)
    ensures !Less(c, a)
  {
    LessTrichotomy(a, b);
    if a != b && Less(c, a) {
      LessTransitive(c, a, b);
    }
  }

  /** The order is the string order, not the numeric one: "10" sorts before
      "9", and "0042" before "042". */
  lemma LessIsNotNumeric()
    ensures Less("10", "9") && Less("0042", "042")
  {
    assert "10"[1..] == "0";
  }
}
