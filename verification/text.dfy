/**
 String primitives of the JavaScript runtime the editor relies on: the `\s`
 white-space class and `String.prototype.trim`, decimal digits for `parseInt`
 and `String(n)`, `padStart(2, '0')`, `split('\n')`, `toLowerCase` and
 `includes`.
 */
module Text {

  /** The characters JavaScript's `\s` and `trim` treat as white space
      (WhiteSpace and LineTerminator of ECMA-262). */
  predicate IsSpace(c: char)
  {
    || c == ' ' || c == '\t' || c == '\n' || c == '\r' || c == '\U{000B}' || c == '\U{000C}'
    || c == '\U{00A0}' || c == '\U{1680}' || ('\U{2000}' <= c <= '\U{200A}')
    || c == '\U{2028}' || c == '\U{2029}' || c == '\U{202F}' || c == '\U{205F}'
    || c == '\U{3000}' || c == '\U{FEFF}'
  }

  /** The characters a regular-expression `.` does not match. */
  predicate IsLineTerminator(c: char)
  {
    c == '\n' || c == '\r' || c == '\U{2028}' || c == '\U{2029}'
  }

  predicate AllSpace(s: string)
  {
    forall k :: 0 <= k < |s| ==> IsSpace(s[k])
  }

  /** The regular-expression class `\d`: ASCII digits only. */
  predicate IsDigit(c: char)
  {
    '0' <= c <= '9'
  }

  predicate AllDigits(s: string)
  {
    forall k :: 0 <= k < |s| ==> IsDigit(s[k])
  }

  /** `[a-zA-Z_]` */
  predicate IsIdentStart(c: char)
  {
    ('a' <= c <= 'z') || ('A' <= c <= 'Z') || c == '_'
  }

  /** `[a-zA-Z0-9_]` */
  predicate IsIdentChar(c: char)
  {
    IsIdentStart(c) || IsDigit(c)
  }

  /** The first position at or after `i` that does not hold white space. */
  function SkipSpaces(s: string, i: nat): (j: nat)
    requires i <= |s|
    ensures i <= j <= |s|
    ensures AllSpace(s[i..j])
    ensures j < |s| ==> !IsSpace(s[j])
    decreases |s| - i
  {
    if i == |s| || !IsSpace(s[i]) then i else SkipSpaces(s, i + 1)
  }

  /** The position just after the last non-white-space character (0 if none). */
  function TrimEnd(s: string): (j: nat)
    ensures j <= |s|
    ensures AllSpace(s[j..])
    ensures j > 0 ==> !IsSpace(s[j - 1])
  {
    if s == [] || !IsSpace(s[|s| - 1]) then |s|
    else
      var j := TrimEnd(s[..|s| - 1]);
      assert s[j..] == s[..|s| - 1][j..] + [s[|s| - 1]];
      j
  }

  /** `String.prototype.trim`: the text between the leading and the trailing
      white space. */
  function Trim(s: string): (r: string)
    ensures r == "" <==> AllSpace(s)
    ensures r != "" ==> !IsSpace(r[0]) && !IsSpace(r[|r| - 1])
    ensures SkipSpaces(s, 0) + |r| <= |s|
    ensures r == s[SkipSpaces(s, 0)..SkipSpaces(s, 0) + |r|]
    ensures AllSpace(s[SkipSpaces(s, 0) + |r|..])
  {
    var i := SkipSpaces(s, 0);
    var j := TrimEnd(s);
    if i == |s| then
      assert s[..i] == s[0..i];
      ""
    else
      assert forall k :: j <= k < |s| ==> IsSpace(s[k]) by {
        forall k | j <= k < |s| ensures IsSpace(s[k]) { assert s[k] == s[j..][k - j]; }
      }
      assert !AllSpace(s) by { assert !IsSpace(s[i]); }
      s[i..j]
  }

  lemma {:induction false} SkipSpacesAt(s: string, i: nat, p: nat)
    requires i <= p < |s|
    requires forall k :: i <= k < p ==> IsSpace(s[k])
    requires !IsSpace(s[p])
    ensures SkipSpaces(s, i) == p
    decreases p - i
  {
    if i < p {
      SkipSpacesAt(s, i + 1, p);
    }
  }

  lemma {:induction false} TrimEndAt(s: string, q: nat)
    requires 0 < q <= |s|
    requires forall k :: q <= k < |s| ==> IsSpace(s[k])
    requires !IsSpace(s[q - 1])
    ensures TrimEnd(s) == q
    decreases |s|
  {
    if q < |s| {
      var s' := s[..|s| - 1];
      assert s'[q - 1] == s[q - 1];
      TrimEndAt(s', q);
    }
  }

  /** Trimming a text framed by white space gives back the text, when the
      text itself starts and ends with a non-space character. */
  lemma TrimUnique(x: string, r: string, y: string)
    requires AllSpace(x) && AllSpace(y)
    requires r != "" && !IsSpace(r[0]) && !IsSpace(r[|r| - 1])
    ensures Trim(x + r + y) == r
  {
    var s := x + r + y;
    var p, q := |x|, |x| + |r|;
    assert s[p] == r[0] && s[q - 1] == r[|r| - 1];
    assert forall k :: 0 <= k < p ==> IsSpace(s[k]) by {
      forall k | 0 <= k < p ensures IsSpace(s[k]) { assert s[k] == x[k]; }
    }
    assert forall k :: q <= k < |s| ==> IsSpace(s[k]) by {
      forall k | q <= k < |s| ensures IsSpace(s[k]) { assert s[k] == y[k - q]; }
    }
    SkipSpacesAt(s, 0, p);
    TrimEndAt(s, q);
    assert s[p..q] == r;
  }

  lemma AllSpaceConcat(a: string, b: string)
    requires AllSpace(a) && AllSpace(b)
    ensures AllSpace(a + b)
  {
    forall k | 0 <= k < |a + b| ensures IsSpace((a + b)[k]) {
      if k >= |a| { assert (a + b)[k] == b[k - |a|]; }
    }
  }

  /** White space around a text does not survive trimming. */
  lemma TrimPadded(a: string, v: string, b: string)
    requires AllSpace(a) && AllSpace(b)
    ensures Trim(a + v + b) == Trim(v)
  {
    var t := Trim(v);
    if t == "" {
      AllSpaceConcat(a, v);
      AllSpaceConcat(a + v, b);
    } else {
      var l, r := TrimParts(v);
      AllSpaceConcat(a, l);
      AllSpaceConcat(r, b);
      Regroup(a, l, t, r, b);
      TrimUnique(a + l, t, r + b);
    }
  }

  lemma Regroup(a: string, l: string, t: string, r: string, b: string)
    ensures a + (l + t + r) + b == (a + l) + t + (r + b)
  {
  }

  /** A text with some non-space character is its trimmed text framed by
      white space. */
  lemma TrimParts(v: string) returns (l: string, r: string)
    requires Trim(v) != ""
    ensures v == l + Trim(v) + r && AllSpace(l) && AllSpace(r)
  {
    var i := SkipSpaces(v, 0);
    var t := Trim(v);
    l, r := v[..i], v[i + |t|..];
    assert l == v[0..i];
    assert v == l + v[i..i + |t|] + r;
  }

  /** Value of the decimal digit `c`. */
  function DigitValue(c: char): nat
    requires IsDigit(c)
  {
    (c as int - '0' as int) as nat
  }

  function DigitChar(d: nat): (c: char)
    requires d < 10
    ensures IsDigit(c) && DigitValue(c) == d
  {
    (d + '0' as int) as char
  }

  /** `parseInt(s, 10)` of a string made only of digits. */
  function DigitsValue(s: string): nat
    requires AllDigits(s)
  {
    if s == [] then 0 else 10 * DigitsValue(s[..|s| - 1]) + DigitValue(s[|s| - 1])
  }

  /** `String(n)` of a non-negative integer: decimal, no leading zeros. */
  function NatToString(n: nat): (r: string)
    ensures |r| >= 1 && AllDigits(r)
    ensures DigitsValue(r) == n
    ensures n < 10 ==> |r| == 1
    ensures 10 <= n < 100 ==> |r| == 2
    ensures 100 <= n < 1000 ==> |r| == 3
    ensures 1000 <= n < 10000 ==> |r| == 4
  {
    if n < 10 then [DigitChar(n)]
    else
      var r := NatToString(n / 10) + [DigitChar(n % 10)];
      assert r[..|r| - 1] == NatToString(n / 10);
      r
  }

  /** `String(n)` of an integer. */
  function IntToString(n: int): (r: string)
    ensures r != ""
    ensures n >= 0 ==> AllDigits(r)
    ensures n < 0 ==> r[0] == '-' && AllDigits(r[1..])
  {
    if n < 0 then "-" + NatToString(-n) else NatToString(n)
  }

  /** `String(n).padStart(2, '0')`. */
  function Pad2(n: nat): (r: string)
    ensures AllDigits(r)
    ensures n < 100 ==> |r| == 2 && DigitsValue(r) == n
  {
    if n < 10 then "0" + NatToString(n) else NatToString(n)
  }

  lemma {:induction false} DigitsValuePositive(s: string)
    requires AllDigits(s) && s != [] && s[0] != '0'
    ensures DigitsValue(s) >= 1
    decreases |s|
  {
    if |s| > 1 {
      DigitsValuePositive(s[..|s| - 1]);
    }
  }

  /** A digit string without a leading zero is the decimal rendering of its
      value. */
  lemma {:induction false} NatToStringOfDigits(s: string)
    requires AllDigits(s) && s != [] && s[0] != '0'
    ensures NatToString(DigitsValue(s)) == s
    decreases |s|
  {
    if |s| > 1 {
      var s' := s[..|s| - 1];
      NatToStringOfDigits(s');
      DigitsValuePositive(s');
      assert s == s' + [s[|s| - 1]];
    }
  }

  /** A number of five or more digits renders with five or more
      characters. */
  lemma {:induction false} NatToStringWide(n: nat)
    requires n >= 10000
    ensures |NatToString(n)| >= 5
    decreases n
  {
    if n / 10 >= 10000 {
      NatToStringWide(n / 10);
    }
  }

  /** Four digits without a leading zero denote a number of at least 1000. */
  lemma FourDigitsValue(s: string)
    requires AllDigits(s) && |s| == 4 && s[0] != '0'
    ensures 1000 <= DigitsValue(s) <= 9999
  {
    var s3, s2, s1 := s[..3], s[..2], s[..1];
    assert s3[..2] == s2 && s2[..1] == s1 && s1[..0] == [];
    assert s3[2] == s[2] && s2[1] == s[1] && s1[0] == s[0];
    assert DigitsValue(s1) == DigitValue(s[0]);
    assert DigitsValue(s2) == 10 * DigitValue(s[0]) + DigitValue(s[1]);
    assert DigitsValue(s3) == 100 * DigitValue(s[0]) + 10 * DigitValue(s[1]) + DigitValue(s[2]);
  }

  /** Two digits are the zero-padded rendering of their value. */
  lemma Pad2OfDigits(s: string)
    requires AllDigits(s) && |s| == 2
    ensures Pad2(DigitsValue(s)) == s
  {
    var s0 := s[..1];
    assert s0[..0] == [] && s0[0] == s[0];
    assert DigitsValue(s0) == DigitValue(s[0]);
    assert DigitsValue(s) == 10 * DigitValue(s[0]) + DigitValue(s[1]);
    if s[0] == '0' {
      assert s == "0" + [s[1]];
    } else {
      NatToStringOfDigits(s);
    }
  }

  /** `s.startsWith(p)`. */
  predicate StartsWith(s: string, p: string)
  {
    |p| <= |s| && s[..|p|] == p
  }

  /** `s.includes(t)`. */
  predicate Contains(s: string, t: string)
    decreases |s|
  {
    StartsWith(s, t) || (s != [] && Contains(s[1..], t))
  }

  /** `toLowerCase`, restricted to the ASCII letters. */
  function Lower(s: string): (r: string)
    ensures |r| == |s|
    ensures forall k :: 0 <= k < |s| ==> r[k] == if 'A' <= s[k] <= 'Z' then (s[k] as int + 32) as char else s[k]
  {
    if s == [] then []
    else [if 'A' <= s[0] <= 'Z' then (s[0] as int + 32) as char else s[0]] + Lower(s[1..])
  }

  /** The parts joined back with line breaks. */
  function JoinLines(parts: seq<string>): string
    requires |parts| >= 1
  {
    if |parts| == 1 then parts[0] else parts[0] + "\n" + JoinLines(parts[1..])
  }

  /** Position of the first line break at or after `i`. */
  function FirstLineBreak(s: string, i: nat): (j: nat)
    requires i <= |s| && '\n' in s[i..]
    ensures i <= j < |s| && s[j] == '\n'
    ensures '\n' !in s[i..j]
    decreases |s| - i
  {
    if s[i] == '\n' then i
    else
      assert s[i + 1..] == s[i..][1..];
      var j := FirstLineBreak(s, i + 1);
      assert s[i..j] == [s[i]] + s[i + 1..j];
      j
  }

  /** `s.split('\n')`: the pieces between line breaks, at least one. */
  function SplitLines(s: string): (parts: seq<string>)
    ensures |parts| >= 1
    ensures forall p :: p in parts ==> '\n' !in p
    ensures JoinLines(parts) == s
    decreases |s|
  {
    if '\n' !in s then [s]
    else
      var i := FirstLineBreak(s, 0);
      var rest := SplitLines(s[i + 1..]);
      assert s == s[..i] + "\n" + s[i + 1..];
      [s[..i]] + rest
  }
}
