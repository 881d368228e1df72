/**
 The value helpers of the file parser: type inference applied to every
 parsed leaf, reading a date back from text, rendering a field's value for
 its input control, and the conversions used when committed values are
 exported in the file's original format.
 */
module Coercion {
  import opened Wrappers
  import opened Text
  import opened Dates
  import opened Values

  /** The value a strict ISO string stands for, if it is a valid instant. */
  predicate IsIsoDate(j: Json)
  {
    j.JStr? && IsIsoInstant(j.s) && InRange(IsoFields(j.s))
  }

  /** `convertValue`: `1`/`"1"` become true, `0`/`"0"` become false, a valid
      strict ISO string becomes a date, anything else is kept. */
  function ConvertValue(j: Json): (r: Value)
    ensures (j == JNum(1) || j == JStr("1")) ==> r == Bool(true)
    ensures (j == JNum(0) || j == JStr("0")) ==> r == Bool(false)
    ensures r.Date? <==> IsIsoDate(j)
    ensures r.Date? ==> r.dt == IsoFields(j.s)
    ensures j !in {JNum(0), JNum(1), JStr("0"), JStr("1")} && !IsIsoDate(j) ==> r == FromJson(j)
    ensures r != Undefined
  {
    if j == JNum(1) || j == JStr("1") then Bool(true)
    else if j == JNum(0) || j == JStr("0") then Bool(false)
    else if j.JStr? && IsIsoInstant(j.s) && InRange(IsoFields(j.s)) then Date(IsoFields(j.s))
    else FromJson(j)
  }

  /** `createLocalDateFromString` of the parser: nothing for a value that is
      not a string or is blank, otherwise the date of the matched prefix. */
  function ParseLocalDate(v: Value): (r: Option<DateTime>)
    ensures r.Some? <==> v.Str? && Trim(v.s) != "" && IsDatePrefix(v.s)
    ensures r.Some? ==> r.value == PrefixFields(v.s)
  {
    if !v.Str? || Trim(v.s) == "" then None else ParsePrefix(v.s)
  }

  /** `formatDateForInput`: the canonical rendering of a date, `''` for any
      other value. */
  function FormatDateForInput(v: Value): (r: string)
    ensures v.Date? ==> r == Render(v.dt)
    ensures !v.Date? ==> r == ""
  {
    if v.Date? then Render(v.dt) else ""
  }

  /** `formatValueForInput(originalValue, currentValue)`: what the input
      control of a field shows. */
  function FormatValueForInput(original: Value, current: Value): (r: string)
    ensures original.Date? && current.Date? ==> r == Render(current.dt)
    ensures original.Date? && current.Str? && current.s != "" ==>
              r == match ParseLocalDate(current) { case Some(d) => Render(d) case None => current.s }
    ensures original.Date? && !current.Date? && !(current.Str? && current.s != "") ==> r == Render(original.dt)
    ensures !original.Date? ==> r == if current in {Undefined, Null} then "" else JsString(current)
  {
    if original.Date? then
      if current.Date? then FormatDateForInput(current)
      else if current.Str? && current.s != "" then
        match ParseLocalDate(current)
        case Some(d) => FormatDateForInput(Date(d))
        case None => current.s
      else FormatDateForInput(original)
    else if current == Undefined || current == Null then JsString(Str(""))
    else JsString(current)
  }

  /** `convertBooleanToNumber`. */
  function ConvertBooleanToNumber(v: Value): (r: Value)
    ensures v.Bool? ==> r == Num(if v.b then 1 else 0)
    ensures !v.Bool? ==> r == v
  {
    if v.Bool? then (if v.b then Num(1) else Num(0)) else v
  }

  /** `convertDateToString`; `toIso` stands for `Date.prototype.toISOString`,
      which depends on the time zone. */
  function ConvertDateToString(v: Value, toIso: DateTime -> string): (r: Value)
    ensures v.Date? ==> r == Str(toIso(v.dt))
    ensures !v.Date? ==> r == v
  {
    if v.Date? then Str(toIso(v.dt)) else v
  }

  /** Coercing a numeric 0/1 and converting the resulting boolean back to a
      number are inverse to each other. */
  lemma BooleanNumberRoundTrip(b: bool, n: int)
    ensures ConvertValue(JNum(ConvertBooleanToNumber(Bool(b)).n)) == Bool(b)
    ensures n == 0 || n == 1 ==> ConvertBooleanToNumber(ConvertValue(JNum(n))) == Num(n)
  {
  }

  /** A date inferred from a strict ISO string displays as the first 19
      characters of that string, when its year has four significant digits. */
  lemma IsoCoercionRenders(s: string)
    requires IsIsoDate(JStr(s)) && s[0] != '0'
    ensures ConvertValue(JStr(s)).Date?
    ensures FormatDateForInput(ConvertValue(JStr(s))) == s[..19]
  {
    IsoRender(s);
  }

  /** `"2021-05-01T00:00:00"` is inferred to be the date 2021-05-01 00:00:00. */
  lemma IsoCoercionExample(s: string)
    requires s == "2021-05-01T00:00:00"
    ensures ConvertValue(JStr(s)) == Date(DateTime(2021, 5, 1, 0, 0, 0))
  {
    ExampleSlices(s);
    IsoExampleOf(s);
  }

  lemma ExampleSlices(s: string)
    requires s == "2021-05-01T00:00:00"
    ensures |s| == 19 && s[0..4] == "2021" && s[4] == '-' && s[5..7] == "05" && s[7] == '-'
    ensures s[8..10] == "01" && s[10] == 'T' && s[11..13] == "00" && s[13] == ':'
    ensures s[14..16] == "00" && s[16] == ':' && s[17..19] == "00"
  {
  }

  /** A text laid out like the example is the instant it spells. */
  lemma IsoExampleOf(s: string)
    requires |s| == 19 && s[0..4] == "2021" && s[4] == '-' && s[5..7] == "05" && s[7] == '-'
    requires s[8..10] == "01" && s[10] == 'T' && s[11..13] == "00" && s[13] == ':'
    requires s[14..16] == "00" && s[16] == ':' && s[17..19] == "00"
    ensures ConvertValue(JStr(s)) == Date(DateTime(2021, 5, 1, 0, 0, 0))
  {
    DigitsExamples();
    assert IsIsoInstant(s);
    assert IsoFields(s) == DateTime(2021, 5, 1, 0, 0, 0);
  }

  lemma DigitsExamples()
    ensures DigitsValue("2021") == 2021 && DigitsValue("05") == 5 && DigitsValue("01") == 1
    ensures DigitsValue("00") == 0 && DigitsValue("13") == 13
  {
    assert "2021"[..3] == "202" && "202"[..2] == "20" && "20"[..1] == "2" && "2"[..0] == "";
    assert "05"[..1] == "0" && "0"[..0] == "";
    assert "01"[..1] == "0";
    assert "00"[..1] == "0";
    assert "13"[..1] == "1" && "1"[..0] == "";
  }

  /** An ISO-shaped string naming month 13 is not a valid instant and stays
      a string. */
  lemma InvalidIsoExample()
    ensures ConvertValue(JStr("2021-13-01T00:00:00")) == Str("2021-13-01T00:00:00")
  {
    var t := "2021-13-01T00:00:00";
    assert t[5..7] == "13";
    DigitsExamples();
  }
}
