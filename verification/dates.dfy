/**
 Wall-clock date-times as the editor sees them through a JavaScript `Date`:
 the six components its local getters return, the canonical
 `YYYY-MM-DDTHH:MM:SS` rendering, the prefix pattern used to read user input
 back, and the strict ISO pattern used when a file is parsed.
 */
module Dates {
  import opened Wrappers
  import opened Text

  /** The components `getFullYear`, `getMonth() + 1`, `getDate`, `getHours`,
      `getMinutes` and `getSeconds` of a date (month and day are 1-based). */
  datatype DateTime = DateTime(year: nat, month: nat, day: nat, hour: nat, minute: nat, second: nat)

  predicate IsLeapYear(y: nat)
  {
    (y % 4 == 0 && y % 100 != 0) || y % 400 == 0
  }

  function DaysInMonth(y: nat, m: nat): nat
  {
    if m == 2 then (if IsLeapYear(y) then 29 else 28)
    else if m == 4 || m == 6 || m == 9 || m == 11 then 30
    else 31
  }

  /** Every component lies in the range of a real calendar date and time of
      day; a JavaScript `Date` always reports components in these ranges. */
  predicate InRange(d: DateTime)
  {
    && 1 <= d.month <= 12
    && 1 <= d.day <= DaysInMonth(d.year, d.month)
    && d.hour <= 23 && d.minute <= 59 && d.second <= 59
  }

  /** `formatDateForInput`: the year unpadded, every other component padded
      to two digits. */
  function Render(d: DateTime): string
  {
    NatToString(d.year) + "-" + Pad2(d.month) + "-" + Pad2(d.day) + "T"
    + Pad2(d.hour) + ":" + Pad2(d.minute) + ":" + Pad2(d.second)
  }

  /** Positions 0..4, 5..7, 8..10, 11..13, 14..16 of `s` are digits and the
      separators `-`, `-`, `T`, `:` sit between them. */
  predicate Shape16(s: string)
  {
    && |s| >= 16
    && AllDigits(s[0..4]) && s[4] == '-' && AllDigits(s[5..7]) && s[7] == '-'
    && AllDigits(s[8..10]) && s[10] == 'T' && AllDigits(s[11..13]) && s[13] == ':'
    && AllDigits(s[14..16])
  }

  /** The regular expression `^\d{4}-\d{2}-\d{2}T\d{2}:\d{2}(:\d{2})?`
      matches `s`; the optional seconds group never decides the match. */
  predicate IsDatePrefix(s: string)
  {
    Shape16(s)
  }

  /** The regular expression `^\d{4}-\d{2}-\d{2}T` matches `s`. */
  predicate IsDayPrefix(s: string)
  {
    && |s| >= 11
    && AllDigits(s[0..4]) && s[4] == '-' && AllDigits(s[5..7]) && s[7] == '-'
    && AllDigits(s[8..10]) && s[10] == 'T'
  }

  /** The optional group `(?::(\d{2}))` matches at position 16. */
  predicate HasSeconds(s: string)
  {
    |s| >= 19 && s[16] == ':' && AllDigits(s[17..19])
  }

  /** The `Date` constructor reads a year argument 0..99 as 1900..1999. */
  function FullYear(y: nat): nat
  {
    if y <= 99 then 1900 + y else y
  }

  /** `new Date(y, mo - 1, d, h, mi, s)` of the captured groups of the prefix
      pattern, seconds defaulting to 0. */
  function PrefixFields(s: string): (d: DateTime)
    requires IsDatePrefix(s)
  {
    DateTime(
      FullYear(DigitsValue(s[0..4])), DigitsValue(s[5..7]), DigitsValue(s[8..10]),
      DigitsValue(s[11..13]), DigitsValue(s[14..16]),
      if HasSeconds(s) then DigitsValue(s[17..19]) else 0)
  }

  /** The date read from the prefix of `s`, or `None` when the prefix
      pattern does not match; anything after the prefix is ignored. */
  function ParsePrefix(s: string): (r: Option<DateTime>)
    ensures r.Some? <==> IsDatePrefix(s)
    ensures r.Some? ==> r.value.month == DigitsValue(s[5..7]) && r.value.minute == DigitsValue(s[14..16])
    ensures r.Some? ==> (r.value.second == 0 <==> !HasSeconds(s) || DigitsValue(s[17..19]) == 0)
    ensures r.Some? ==> r.value.year >= 100
  {
    if IsDatePrefix(s) then Some(PrefixFields(s)) else None
  }

  /** The regular expression `^\d{4}-\d{2}-\d{2}T\d{2}:\d{2}:\d{2}(\.\d{3})?Z?$`
      matches all of `s`. */
  predicate IsIsoInstant(s: string)
  {
    && Shape16(s) && HasSeconds(s)
    && (|s| == 19
        || (|s| == 20 && s[19] == 'Z')
        || (|s| >= 23 && s[19] == '.' && AllDigits(s[20..23]) && (|s| == 23 || (|s| == 24 && s[23] == 'Z'))))
  }

  /** The wall-clock components `new Date(s)` gives to a strict ISO string;
      milliseconds are dropped and the time zone is taken to be UTC, so a
      trailing `Z` changes nothing. */
  function IsoFields(s: string): DateTime
    requires IsIsoInstant(s)
  {
    DateTime(
      DigitsValue(s[0..4]), DigitsValue(s[5..7]), DigitsValue(s[8..10]),
      DigitsValue(s[11..13]), DigitsValue(s[14..16]), DigitsValue(s[17..19]))
  }

  /** A user-typed date text in the form a `datetime-local` control produces:
      the prefix pattern and nothing else (16 characters, or 19 with seconds),
      a year of four significant digits and components in calendar range. */
  predicate IsCanonicalText(s: string)
  {
    && IsDatePrefix(s)
    && (|s| == 16 || (|s| == 19 && HasSeconds(s)))
    && s[0] != '0'
    && InRange(PrefixFields(s))
  }

  lemma RenderShape(d: DateTime)
    requires InRange(d) && 1000 <= d.year <= 9999
    ensures |Render(d)| == 19
    ensures Render(d)[0..4] == NatToString(d.year)
    ensures Render(d)[5..7] == Pad2(d.month) && Render(d)[8..10] == Pad2(d.day)
    ensures Render(d)[11..13] == Pad2(d.hour) && Render(d)[14..16] == Pad2(d.minute)
    ensures Render(d)[17..19] == Pad2(d.second)
    ensures Render(d)[4] == '-' && Render(d)[7] == '-' && Render(d)[10] == 'T'
    ensures Render(d)[13] == ':' && Render(d)[16] == ':'
  {
    var y, mo, da := NatToString(d.year), Pad2(d.month), Pad2(d.day);
    var h, mi, se := Pad2(d.hour), Pad2(d.minute), Pad2(d.second);
    var a := y + "-" + mo + "-" + da;
    var b := "T" + h + ":" + mi + ":" + se;
    DayPartShape(y, mo, da);
    TimePartShape(h, mi, se);
    assert Render(d) == a + b;
    SliceOfConcat(a, b, 0, 4);
    SliceOfConcat(a, b, 5, 7);
    SliceOfConcat(a, b, 8, 10);
    SliceOfConcat(a, b, 11, 13);
    SliceOfConcat(a, b, 14, 16);
    SliceOfConcat(a, b, 17, 19);
  }

  lemma DayPartShape(y: string, mo: string, da: string)
    requires |y| == 4 && |mo| == 2 && |da| == 2
    ensures var a := y + "-" + mo + "-" + da;
            |a| == 10 && a[0..4] == y && a[5..7] == mo && a[8..10] == da && a[4] == '-' && a[7] == '-'
  {
  }

  lemma TimePartShape(h: string, mi: string, se: string)
    requires |h| == 2 && |mi| == 2 && |se| == 2
    ensures var b := "T" + h + ":" + mi + ":" + se;
            |b| == 9 && b[1..3] == h && b[4..6] == mi && b[7..9] == se && b[0] == 'T' && b[3] == ':' && b[6] == ':'
  {
  }

  lemma SliceOfConcat(a: string, b: string, i: nat, j: nat)
    requires i <= j <= |a| + |b|
    requires j <= |a| || |a| <= i
    ensures j <= |a| ==> (a + b)[i..j] == a[i..j]
    ensures |a| <= i ==> (a + b)[i..j] == b[i - |a|..j - |a|]
  {
  }

  /** Reading back a rendered date gives the same date, for every date whose
      year has four digits. */
  lemma ParseRender(d: DateTime)
    requires InRange(d) && 1000 <= d.year <= 9999
    ensures ParsePrefix(Render(d)) == Some(d)
  {
    var s := Render(d);
    RenderShape(d);
    assert IsDatePrefix(s);
    assert HasSeconds(s);
  }

  /** Rendering the date read from a canonical text gives the text back,
      completed with `:00` when it has no seconds. */
  lemma RenderParse(s: string)
    requires IsCanonicalText(s)
    ensures Render(PrefixFields(s)) == if |s| == 16 then s + ":00" else s
  {
    var d := PrefixFields(s);
    NatToStringOfDigits(s[0..4]);
    FourDigitsValue(s[0..4]);
    Pad2OfDigits(s[5..7]);
    Pad2OfDigits(s[8..10]);
    Pad2OfDigits(s[11..13]);
    Pad2OfDigits(s[14..16]);
    if |s| == 19 {
      Pad2OfDigits(s[17..19]);
      assert s == s[0..4] + "-" + s[5..7] + "-" + s[8..10] + "T" + s[11..13] + ":" + s[14..16] + ":" + s[17..19];
    } else {
      assert !HasSeconds(s);
      assert Pad2(0) == "00";
      assert s == s[0..4] + "-" + s[5..7] + "-" + s[8..10] + "T" + s[11..13] + ":" + s[14..16];
    }
  }

  /** A run of digits followed by `-` that fills exactly positions 0..4 has
      four characters. */
  lemma DigitRunLength(n: string, t: string)
    requires AllDigits(n) && |n| < |t| && t[|n|] == '-'
    requires forall i :: 0 <= i < |n| ==> t[i] == n[i]
    requires |t| > 4 && AllDigits(t[0..4]) && t[4] == '-'
    ensures |n| == 4
  {
  }

  /** A rendering whose first five characters are four digits and `-`
      belongs to a year of four digits. */
  lemma FourDigitYear(d: DateTime)
    requires |Render(d)| > 4 && AllDigits(Render(d)[0..4]) && Render(d)[4] == '-'
    ensures 1000 <= d.year <= 9999
  {
    var n := NatToString(d.year);
    var h := n + "-";
    var t := Render(d);
    assert forall i :: 0 <= i < |h| ==> t[i] == h[i];
    DigitRunLength(n, t);
    if d.year >= 10000 {
      NatToStringWide(d.year);
    }
  }

  /** A date-prefix text that `normalizeValueForComparison` completes to
      the rendering of an in-range date reads back as that very date, so
      rendering what it reads gives the same text. */
  lemma PrefixOfRendering(s: string, d: DateTime)
    requires IsDatePrefix(s) && InRange(d)
    requires Render(d) == if |s| == 16 then s + ":00" else s
    ensures PrefixFields(s) == d
    ensures Render(PrefixFields(s)) == Render(d)
  {
    var t := Render(d);
    assert t[0..4] == s[0..4] && t[4] == s[4];
    FourDigitYear(d);
    ParseRender(d);
    if |s| == 16 {
      SecondsOfPadded(s, d);
    }
  }

  /** The 16-character case: the text is the rendering without `:00`. */
  lemma SecondsOfPadded(s: string, d: DateTime)
    requires IsDatePrefix(s) && |s| == 16 && InRange(d) && 1000 <= d.year <= 9999
    requires Render(d) == s + ":00"
    requires ParsePrefix(Render(d)) == Some(d)
    ensures PrefixFields(s) == d
  {
    var t := Render(d);
    RenderShape(d);
    assert t[17..19] == "00";
    assert DigitsValue("00") == 0;
    assert s[0..4] == t[0..4] && s[5..7] == t[5..7] && s[8..10] == t[8..10];
    assert s[11..13] == t[11..13] && s[14..16] == t[14..16];
  }

  /** A valid date taken from a strict ISO string renders as the first 19
      characters of that string, when the year has four significant digits. */
  lemma IsoRender(s: string)
    requires IsIsoInstant(s) && s[0] != '0' && InRange(IsoFields(s))
    ensures Render(IsoFields(s)) == s[..19]
  {
    var p := s[..19];
    assert p[0..4] == s[0..4];
    assert p[5..7] == s[5..7];
    assert p[8..10] == s[8..10];
    assert p[11..13] == s[11..13];
    assert p[14..16] == s[14..16];
    assert p[17..19] == s[17..19];
    assert IsDatePrefix(p) && HasSeconds(p);
    FourDigitsValue(s[0..4]);
    assert PrefixFields(p) == IsoFields(s);
    RenderParse(p);
  }
}
