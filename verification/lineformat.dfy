/**
 The line format read when a file is not JSON: one assignment per line,
 matched by the regular expression

   ^\s*([a-zA-Z_][a-zA-Z0-9_]*)\s*:\s*(['"]?)([^'";\n#]*)\2\s*([;#].*)?$

 The expression never needs to backtrack into a different match, so it is
 modelled by a left-to-right scanner (`MatchLine`) and compared with a
 declarative description of the lines it accepts (`LineShape`).
 */
module LineFormat {
  import opened Wrappers
  import opened Text

  /** The value class `[^'";\n#]`. */
  predicate IsValueChar(c: char)
  {
    c != '\'' && c != '"' && c != ';' && c != '\n' && c != '#'
  }

  predicate AllValueChars(s: string)
  {
    forall k :: 0 <= k < |s| ==> IsValueChar(s[k])
  }

  predicate IsQuote(c: char)
  {
    c == '\'' || c == '"'
  }

  /** A name `[a-zA-Z_][a-zA-Z0-9_]*`. */
  predicate IsIdentifier(s: string)
  {
    |s| >= 1 && IsIdentStart(s[0]) && forall k :: 1 <= k < |s| ==> IsIdentChar(s[k])
  }

  /** What the optional group `([;#].*)` can match when it has to reach the
      end of the line: nothing, or `;`/`#` followed by no line terminator. */
  predicate IsComment(c: string)
  {
    c == "" || ((c[0] == ';' || c[0] == '#') && forall k :: 1 <= k < |c| ==> !IsLineTerminator(c[k]))
  }

  /** The groups of a successful match: the name, the raw value (group 3,
      before trimming) and the comment (group 4, empty when absent). */
  datatype LineMatch = LineMatch(name: string, value: string, comment: string)

  /** The text after the colon: white space, an optional quote, a value,
      the same quote again, white space and a comment. */
  function RestText(w3: string, q: string, v: string, w4: string, c: string): string
  {
    w3 + (q + (v + (q + (w4 + c))))
  }

  /** The pieces of `RestText` are of the kinds the expression allows. */
  predicate RestShape(w3: string, q: string, v: string, w4: string, c: string)
  {
    && AllSpace(w3) && (q == "" || q == "'" || q == "\"")
    && AllValueChars(v) && AllSpace(w4) && IsComment(c)
  }

  /** The declarative reading of the expression: `line` is white space, a
      name, white space, a colon and the text after it. */
  predicate LineShape(line: string, w1: string, name: string, w2: string, w3: string, q: string,
                      v: string, w4: string, c: string)
  {
    && line == w1 + (name + (w2 + (":" + RestText(w3, q, v, w4, c))))
    && AllSpace(w1) && IsIdentifier(name) && AllSpace(w2)
    && RestShape(w3, q, v, w4, c)
  }

  /** End of the run of name characters starting at `i`. */
  function IdentEnd(s: string, i: nat): (e: nat)
    requires i <= |s|
    ensures i <= e <= |s|
    ensures forall k :: i <= k < e ==> IsIdentChar(s[k])
    ensures e < |s| ==> !IsIdentChar(s[e])
    decreases |s| - i
  {
    if i == |s| || !IsIdentChar(s[i]) then i else IdentEnd(s, i + 1)
  }

  /** End of the run of value characters starting at `i`. */
  function ValueEnd(s: string, i: nat): (e: nat)
    requires i <= |s|
    ensures i <= e <= |s|
    ensures forall k :: i <= k < e ==> IsValueChar(s[k])
    ensures e < |s| ==> !IsValueChar(s[e])
    decreases |s| - i
  {
    if i == |s| || !IsValueChar(s[i]) then i else ValueEnd(s, i + 1)
  }

  predicate NoLineTerminator(s: string)
  {
    forall k :: 0 <= k < |s| ==> !IsLineTerminator(s[k])
  }

  /** `\s*([;#].*)?$` against the text after the value (and closing quote):
      the comment, or `None` when the rest of the line does not fit. */
  function Tail(t: string): (r: Option<string>)
    ensures r.Some? ==> |r.value| <= |t| && t[|t| - |r.value|..] == r.value
    ensures r.Some? ==> AllSpace(t[..|t| - |r.value|]) && IsComment(r.value)
  {
    var j := SkipSpaces(t, 0);
    if j == |t| then Some("")
    else if (t[j] == ';' || t[j] == '#') && NoLineTerminator(t[j + 1..]) then
      assert forall k :: 1 <= k < |t[j..]| ==> t[j..][k] == t[j + 1..][k - 1];
      Some(t[j..])
    else None
  }

  /** `\s*(['"]?)([^'";\n#]*)\2\s*([;#].*)?$` against the text after the
      colon: the raw value and the comment. */
  function MatchRest(r: string): Option<(string, string)>
  {
    var m := SkipSpaces(r, 0);
    if m < |r| && IsQuote(r[m]) then
      var e := ValueEnd(r, m + 1);
      if e < |r| && r[e] == r[m] then
        match Tail(r[e + 1..])
        case None => None
        case Some(c) => Some((r[m + 1..e], c))
      else None
    else
      var e := ValueEnd(r, m);
      match Tail(r[e..])
      case None => None
      case Some(c) => Some((r[m..e], c))
  }

  /** `^\s*([a-zA-Z_][a-zA-Z0-9_]*)\s*:` against the start of the line:
      the name and the position just after the colon. */
  function MatchHead(line: string): (r: Option<(string, nat)>)
    ensures r.Some? ==> r.value.1 <= |line|
  {
    var a := SkipSpaces(line, 0);
    if a == |line| || !IsIdentStart(line[a]) then None
    else
      var b := IdentEnd(line, a + 1);
      var c := SkipSpaces(line, b);
      if c == |line| || line[c] != ':' then None
      else Some((line[a..b], c + 1))
  }

  /** `line.match(...)` of the line format. */
  function MatchLine(line: string): Option<LineMatch>
  {
    match MatchHead(line)
    case None => None
    case Some((name, i)) =>
      match MatchRest(line[i..])
      case None => None
      case Some((v, cm)) => Some(LineMatch(name, v, cm))
  }

  // ---------------------------------------------------------------------
  // Completeness: every line of the declared shape is matched, with the
  // shape's name and comment and, up to white space, its value.

  lemma TailComplete(w: string, c: string)
    requires AllSpace(w) && IsComment(c)
    ensures Tail(w + c) == Some(c)
  {
    var t := w + c;
    if c == "" {
      assert t == w;
    } else {
      SkipSpacesAt(t, 0, |w|);
      assert t[|w|..] == c;
      assert t[|w| + 1..] == c[1..];
    }
  }

  lemma IdentEndAt(s: string, i: nat, e: nat)
    requires i <= e <= |s|
    requires forall k :: i <= k < e ==> IsIdentChar(s[k])
    requires e < |s| ==> !IsIdentChar(s[e])
    ensures IdentEnd(s, i) == e
    decreases e - i
  {
    if i < e {
      IdentEndAt(s, i + 1, e);
    }
  }

  lemma ValueEndAt(s: string, i: nat, e: nat)
    requires i <= e <= |s|
    requires forall k :: i <= k < e ==> IsValueChar(s[k])
    requires e < |s| ==> !IsValueChar(s[e])
    ensures ValueEnd(s, i) == e
    decreases e - i
  {
    if i < e {
      ValueEndAt(s, i + 1, e);
    }
  }

  /** The quoted path, stated on positions: spaces up to `m`, the quote at
      `m`, value characters up to `e`, the same quote at `e`, then a tail. */
  lemma QuotedRestAt(r: string, m: nat, e: nat)
    requires m < e < |r|
    requires forall k :: 0 <= k < m ==> IsSpace(r[k])
    requires IsQuote(r[m]) && r[e] == r[m]
    requires forall k :: m < k < e ==> IsValueChar(r[k])
    requires Tail(r[e + 1..]).Some?
    ensures MatchRest(r) == Some((r[m + 1..e], Tail(r[e + 1..]).value))
  {
    SkipSpacesAt(r, 0, m);
    ValueEndAt(r, m + 1, e);
    QuotedMatch(r, m, e, Tail(r[e + 1..]).value);
  }

  /** The quoted path of `MatchRest`, once the scanner positions are known. */
  lemma QuotedMatch(r: string, m: nat, e: nat, c: string)
    requires m == SkipSpaces(r, 0) && m < |r| && IsQuote(r[m])
    requires m < e < |r| && e == ValueEnd(r, m + 1) && r[e] == r[m]
    requires Tail(r[e + 1..]) == Some(c)
    ensures MatchRest(r) == Some((r[m + 1..e], c))
  {
  }

  lemma QuotedMatchOf(r: string, m: nat, e: nat, v: string, c: string)
    requires m == SkipSpaces(r, 0) && m < |r| && IsQuote(r[m])
    requires m < e < |r| && e == ValueEnd(r, m + 1) && r[e] == r[m]
    requires r[m + 1..e] == v && Tail(r[e + 1..]) == Some(c)
    ensures MatchRest(r) == Some((v, c))
  {
    QuotedMatch(r, m, e, c);
  }

  lemma {:induction false} QuotedRestComplete(w3: string, q: char, v: string, w4: string, c: string)
    requires IsQuote(q) && RestShape(w3, [q], v, w4, c)
    ensures MatchRest(RestText(w3, [q], v, w4, c)) == Some((v, c))
  {
    QuotedPieces(w3, q, v, w4, c);
    QuotedLaidOut(RestText(w3, [q], v, w4, c), w3, q, v, w4, c);
  }

  /** A text with white space, a quote, value characters, the same quote
      and a tail at known places is matched on the quoted path. */
  lemma QuotedLaidOut(r: string, w3: string, q: char, v: string, w4: string, c: string)
    requires IsQuote(q) && AllSpace(w3) && AllValueChars(v) && AllSpace(w4) && IsComment(c)
    requires |r| == |w3| + |v| + 2 + |w4| + |c|
    requires r[0..|w3|] == w3 && r[|w3|] == q
    requires r[|w3| + 1..|w3| + 1 + |v|] == v && r[|w3| + 1 + |v|] == q
    requires r[|w3| + 2 + |v|..] == w4 + c
    ensures MatchRest(r) == Some((v, c))
  {
    var m, e := |w3|, |w3| + 1 + |v|;
    SliceAll(r, 0, m, w3);
    SliceAll(r, m + 1, e, v);
    TailComplete(w4, c);
    SkipSpacesAt(r, 0, m);
    ValueEndAt(r, m + 1, e);
    QuotedMatchOf(r, m, e, v, c);
  }

  /** Where the pieces of a quoted rest sit in its text. */
  lemma QuotedPieces(w3: string, q: char, v: string, w4: string, c: string)
    ensures var r := RestText(w3, [q], v, w4, c);
            && |r| == |w3| + |v| + 2 + |w4| + |c|
            && r[0..|w3|] == w3 && r[|w3|] == q
            && r[|w3| + 1..|w3| + 1 + |v|] == v && r[|w3| + 1 + |v|] == q
            && r[|w3| + 2 + |v|..] == w4 + c
  {
    var r := RestText(w3, [q], v, w4, c);
    var m := |w3|;
    assert r == w3 + ([q] + (v + ([q] + (w4 + c))));
    assert r[m..] == [q] + (v + ([q] + (w4 + c)));
    assert r[m + 1..] == v + ([q] + (w4 + c));
    assert r[m + 1 + |v|..] == [q] + (w4 + c);
  }

  /** The characters of a slice, one by one. */
  lemma SliceAll(r: string, i: nat, j: nat, w: string)
    requires i <= j <= |r| && r[i..j] == w
    ensures forall k :: i <= k < j ==> r[k] == w[k - i]
  {
    forall k | i <= k < j
      ensures r[k] == w[k - i]
    {
      assert r[i..j][k - i] == r[k];
    }
  }

  /** Where the unquoted path of the scanner stops on a text laid out as
      spaces up to `p1`, value characters up to `p2`, spaces up to `t`. */
  lemma PlainScan(r: string, p1: nat, p2: nat, t: nat)
    requires p1 <= p2 <= t <= |r|
    requires forall k :: 0 <= k < p1 ==> IsSpace(r[k])
    requires forall k :: p1 <= k < p2 ==> IsValueChar(r[k])
    requires forall k :: p2 <= k < t ==> IsSpace(r[k])
    requires t < |r| ==> r[t] == ';' || r[t] == '#'
    ensures p1 <= SkipSpaces(r, 0) <= t
    ensures SkipSpaces(r, 0) < |r| ==> !IsQuote(r[SkipSpaces(r, 0)])
    ensures ValueEnd(r, SkipSpaces(r, 0)) <= t
    ensures forall k :: ValueEnd(r, SkipSpaces(r, 0)) <= k < t ==> IsSpace(r[k])
  {
    var m := SkipSpaces(r, 0);
    assert m >= p1;
    assert forall k :: 0 <= k < m ==> IsSpace(r[k]) by {
      forall k | 0 <= k < m ensures IsSpace(r[k]) { assert r[0..m][k] == r[k]; }
    }
    assert m <= t;
    var e := ValueEnd(r, m);
    assert e <= t;
    assert e >= p2 || e == |r|;
  }

  /** The unquoted path, stated on positions: spaces up to `p1`, value
      characters up to `p2`, spaces up to `t`, and a comment from `t`. */
  lemma PlainRestAt(r: string, p1: nat, p2: nat, t: nat)
    requires p1 <= p2 <= t <= |r|
    requires forall k :: 0 <= k < p1 ==> IsSpace(r[k])
    requires forall k :: p1 <= k < p2 ==> IsValueChar(r[k])
    requires forall k :: p2 <= k < t ==> IsSpace(r[k])
    requires IsComment(r[t..])
    ensures MatchRest(r).Some?
    ensures MatchRest(r).value.1 == r[t..]
    ensures Trim(MatchRest(r).value.0) == Trim(r[p1..p2])
  {
    var m, e := PlainPieces(r, p1, p2, t);
    PlainMatch(r, m, e, r[t..]);
  }

  /** Where the scanner stops on such a text, and what it finds there. */
  lemma PlainPieces(r: string, p1: nat, p2: nat, t: nat) returns (m: nat, e: nat)
    requires p1 <= p2 <= t <= |r|
    requires forall k :: 0 <= k < p1 ==> IsSpace(r[k])
    requires forall k :: p1 <= k < p2 ==> IsValueChar(r[k])
    requires forall k :: p2 <= k < t ==> IsSpace(r[k])
    requires IsComment(r[t..])
    ensures m == SkipSpaces(r, 0) && m <= |r| && e == ValueEnd(r, m)
    ensures m < |r| ==> !IsQuote(r[m])
    ensures Tail(r[e..]) == Some(r[t..])
    ensures m <= e && Trim(r[m..e]) == Trim(r[p1..p2])
  {
    assert t < |r| ==> r[t] == r[t..][0];
    PlainScan(r, p1, p2, t);
    m := SkipSpaces(r, 0);
    e := ValueEnd(r, m);
    SpaceRun(r, e, t);
    assert r[e..] == r[e..t] + r[t..];
    TailComplete(r[e..t], r[t..]);
    SpacePrefix(r, m);
    TrimAround(r, p1, p2, t, m, e);
  }

  /** The unquoted path of `MatchRest`, once the scanner positions are known. */
  lemma PlainMatch(r: string, m: nat, e: nat, c: string)
    requires m == SkipSpaces(r, 0) && m <= |r| && e == ValueEnd(r, m)
    requires m < |r| ==> !IsQuote(r[m])
    requires Tail(r[e..]) == Some(c)
    ensures MatchRest(r) == Some((r[m..e], c))
  {
  }

  /** The stretch the scanner skips from the start is white space. */
  lemma SpacePrefix(r: string, m: nat)
    requires m == SkipSpaces(r, 0)
    ensures AllSpace(r[0..m])
  {
  }

  /** A run of white space, seen as a text of its own. */
  lemma SpaceRun(r: string, i: nat, j: nat)
    requires i <= j <= |r|
    requires forall k :: i <= k < j ==> IsSpace(r[k])
    ensures AllSpace(r[i..j])
  {
    forall k | 0 <= k < j - i
      ensures IsSpace(r[i..j][k])
    {
      assert r[i..j][k] == r[i + k];
    }
  }

  lemma SliceSplit(r: string, i: nat, j: nat, l: nat)
    requires i <= j <= l <= |r|
    ensures r[i..l] == r[i..j] + r[j..l]
  {
  }

  /** Trimming a stretch gives the same text whichever of its surrounding
      white space is left on. */
  lemma TrimAround(r: string, p1: nat, p2: nat, t: nat, m: nat, e: nat)
    requires p1 <= p2 <= t <= |r| && m <= e <= t
    requires forall k :: 0 <= k < p1 ==> IsSpace(r[k])
    requires forall k :: p2 <= k < t ==> IsSpace(r[k])
    requires AllSpace(r[0..m]) && forall k :: e <= k < t ==> IsSpace(r[k])
    ensures Trim(r[m..e]) == Trim(r[p1..p2])
  {
    var x := r[0..t];
    SpaceRun(r, e, t);
    SliceSplit(r, 0, m, e);
    SliceSplit(r, 0, e, t);
    assert x == r[0..m] + r[m..e] + r[e..t];
    TrimPadded(r[0..m], r[m..e], r[e..t]);
    SpaceRun(r, 0, p1);
    SpaceRun(r, p2, t);
    SliceSplit(r, 0, p1, p2);
    SliceSplit(r, 0, p2, t);
    assert x == r[0..p1] + r[p1..p2] + r[p2..t];
    TrimPadded(r[0..p1], r[p1..p2], r[p2..t]);
  }

  lemma {:induction false} PlainRestComplete(w3: string, v: string, w4: string, c: string)
    requires RestShape(w3, "", v, w4, c)
    ensures MatchRest(RestText(w3, "", v, w4, c)).Some?
    ensures MatchRest(RestText(w3, "", v, w4, c)).value.1 == c
    ensures Trim(MatchRest(RestText(w3, "", v, w4, c)).value.0) == Trim(v)
  {
    var r := RestText(w3, "", v, w4, c);
    var p1, p2 := |w3|, |w3| + |v|;
    var t := p2 + |w4|;
    PlainPiecesOf(w3, v, w4, c);
    SliceAll(r, 0, p1, w3);
    SliceAll(r, p1, p2, v);
    SliceAll(r, p2, t, w4);
    PlainRestAt(r, p1, p2, t);
  }

  /** Where the pieces of an unquoted rest sit in its text. */
  lemma PlainPiecesOf(w3: string, v: string, w4: string, c: string)
    ensures var r := RestText(w3, "", v, w4, c);
            && |r| == |w3| + |v| + |w4| + |c|
            && r[0..|w3|] == w3 && r[|w3|..|w3| + |v|] == v
            && r[|w3| + |v|..|w3| + |v| + |w4|] == w4 && r[|w3| + |v| + |w4|..] == c
  {
    var r := RestText(w3, "", v, w4, c);
    assert r == w3 + (v + (w4 + c));
    assert r[|w3|..] == v + (w4 + c);
    assert r[|w3| + |v|..] == w4 + c;
  }

  /** Every line of the declared shape is matched; the match has the shape's
      name and comment and, once trimmed, its value. */
  lemma MatchLineComplete(line: string, w1: string, name: string, w2: string, w3: string, q: string,
                          v: string, w4: string, c: string)
    requires LineShape(line, w1, name, w2, w3, q, v, w4, c)
    ensures MatchLine(line).Some?
    ensures MatchLine(line).value.name == name
    ensures MatchLine(line).value.comment == c
    ensures Trim(MatchLine(line).value.value) == Trim(v)
  {
    var rest := RestText(w3, q, v, w4, c);
    RestComplete(w3, q, v, w4, c);
    HeadThenRest(line, w1, name, w2, rest);
  }

  /** A line made of a well-formed head and a text the rest matcher accepts
      is matched with that head's name. */
  lemma HeadThenRest(line: string, w1: string, name: string, w2: string, rest: string)
    requires line == w1 + (name + (w2 + (":" + rest)))
    requires AllSpace(w1) && IsIdentifier(name) && AllSpace(w2)
    requires MatchRest(rest).Some?
    ensures MatchLine(line) == Some(LineMatch(name, MatchRest(rest).value.0, MatchRest(rest).value.1))
  {
    HeadComplete(line, w1, name, w2, rest);
    MatchLineOfParts(line, name, |w1| + |name| + |w2| + 1, rest);
  }

  lemma MatchLineOfParts(line: string, name: string, i: nat, rest: string)
    requires i <= |line| && MatchHead(line) == Some((name, i)) && line[i..] == rest
    requires MatchRest(rest).Some?
    ensures MatchLine(line) == Some(LineMatch(name, MatchRest(rest).value.0, MatchRest(rest).value.1))
  {
  }

  lemma RestComplete(w3: string, q: string, v: string, w4: string, c: string)
    requires RestShape(w3, q, v, w4, c)
    ensures MatchRest(RestText(w3, q, v, w4, c)).Some?
    ensures MatchRest(RestText(w3, q, v, w4, c)).value.1 == c
    ensures Trim(MatchRest(RestText(w3, q, v, w4, c)).value.0) == Trim(v)
  {
    if q == "" {
      PlainRestComplete(w3, v, w4, c);
    } else {
      assert q == [q[0]];
      QuotedRestComplete(w3, q[0], v, w4, c);
    }
  }

  /** The part before the colon is scanned as the shape lays it out. */
  lemma HeadComplete(line: string, w1: string, name: string, w2: string, rest: string)
    requires line == w1 + (name + (w2 + (":" + rest)))
    requires AllSpace(w1) && IsIdentifier(name) && AllSpace(w2)
    ensures MatchHead(line) == Some((name, |w1| + |name| + |w2| + 1))
    ensures line[|w1| + |name| + |w2| + 1..] == rest
  {
    var a := |w1|;
    var b := a + |name|;
    var cl := b + |w2|;
    HeadPieces(w1, name, w2, rest);
    SliceAll(line, 0, a, w1);
    SliceAll(line, a, b, name);
    SliceAll(line, b, cl, w2);
    SkipSpacesAt(line, 0, a);
    IdentEndAt(line, a + 1, b);
    SkipSpacesAt(line, b, cl);
    HeadMatch(line, a, b, cl, name);
  }

  /** Where the pieces of a head sit in the line. */
  lemma HeadPieces(w1: string, name: string, w2: string, rest: string)
    ensures var line := w1 + (name + (w2 + (":" + rest)));
            var a, b := |w1|, |w1| + |name|;
            var cl := b + |w2|;
            && |line| == cl + 1 + |rest|
            && line[0..a] == w1 && line[a..b] == name && line[b..cl] == w2
            && line[cl] == ':' && line[cl + 1..] == rest
  {
    var line := w1 + (name + (w2 + (":" + rest)));
    assert line[|w1|..] == name + (w2 + (":" + rest));
    assert line[|w1| + |name|..] == w2 + (":" + rest);
  }

  /** `MatchHead`, once the scanner positions are known. */
  lemma HeadMatch(line: string, a: nat, b: nat, cl: nat, name: string)
    requires a < b <= cl < |line| && line[cl] == ':' && line[a..b] == name
    requires SkipSpaces(line, 0) == a && IsIdentStart(line[a])
    requires IdentEnd(line, a + 1) == b && SkipSpaces(line, b) == cl
    ensures MatchHead(line) == Some((name, cl + 1))
  {
  }

  // ---------------------------------------------------------------------
  // Soundness: whatever is matched has the declared shape, with exactly the
  // returned name, value and comment.

  /** The text after a value is white space followed by the comment the
      tail returns. */
  lemma TailSplit(t: string, c: string)
    requires Tail(t) == Some(c)
    ensures t == t[..|t| - |c|] + c
    ensures AllSpace(t[..|t| - |c|])
  {
    assert t == t[..|t| - |c|] + t[|t| - |c|..];
  }

  lemma QuotedRestSound(r: string, m: nat, e: nat, w4: string, c: string)
    requires m < e < |r| && AllSpace(r[..m]) && IsQuote(r[m]) && r[e] == r[m]
    requires AllValueChars(r[m + 1..e]) && r[e + 1..] == w4 + c && AllSpace(w4) && IsComment(c)
    ensures r == RestText(r[..m], [r[m]], r[m + 1..e], w4, c)
    ensures RestShape(r[..m], [r[m]], r[m + 1..e], w4, c)
  {
    var v := r[m + 1..e];
    assert r == r[..m] + r[m..];
    assert r[m..] == [r[m]] + r[m + 1..];
    assert r[m + 1..] == v + r[e..];
    assert r[e..] == [r[m]] + (w4 + c);
    assert [r[m]] == "'" || [r[m]] == "\"";
  }

  lemma PlainRestSound(r: string, m: nat, e: nat, w4: string, c: string)
    requires m <= e <= |r| && AllSpace(r[..m])
    requires AllValueChars(r[m..e]) && r[e..] == w4 + c && AllSpace(w4) && IsComment(c)
    ensures r == RestText(r[..m], "", r[m..e], w4, c)
    ensures RestShape(r[..m], "", r[m..e], w4, c)
  {
    assert r == r[..m] + r[m..];
    assert r[m..] == r[m..e] + r[e..];
  }

  lemma {:induction false} MatchRestSound(r: string) returns (w3: string, q: string, w4: string)
    requires MatchRest(r).Some?
    ensures r == RestText(w3, q, MatchRest(r).value.0, w4, MatchRest(r).value.1)
    ensures RestShape(w3, q, MatchRest(r).value.0, w4, MatchRest(r).value.1)
  {
    var m := SkipSpaces(r, 0);
    var c := MatchRest(r).value.1;
    if m < |r| && IsQuote(r[m]) {
      var e := QuotedParts(r);
      ValueRun(r, m + 1, e);
      var t := r[e + 1..];
      TailSplit(t, c);
      w3, q, w4 := r[..m], [r[m]], t[..|t| - |c|];
      QuotedRestSound(r, m, e, w4, c);
    } else {
      var e := PlainParts(r);
      ValueRun(r, m, e);
      var t := r[e..];
      TailSplit(t, c);
      w3, q, w4 := r[..m], "", t[..|t| - |c|];
      PlainRestSound(r, m, e, w4, c);
    }
  }

  /** What the quoted path of `MatchRest` found: the value ends at the
      closing quote `e`. */
  lemma QuotedParts(r: string) returns (e: nat)
    requires MatchRest(r).Some?
    requires SkipSpaces(r, 0) < |r| && IsQuote(r[SkipSpaces(r, 0)])
    ensures var m := SkipSpaces(r, 0);
            && m < e < |r| && r[e] == r[m] && AllSpace(r[..m])
            && (forall k :: m + 1 <= k < e ==> IsValueChar(r[k]))
            && Tail(r[e + 1..]) == Some(MatchRest(r).value.1)
            && MatchRest(r).value.0 == r[m + 1..e]
  {
    var m := SkipSpaces(r, 0);
    e := ValueEnd(r, m + 1);
    assert r[..m] == r[0..m];
  }

  /** What the unquoted path of `MatchRest` found: the value ends at `e`. */
  lemma PlainParts(r: string) returns (e: nat)
    requires MatchRest(r).Some?
    requires !(SkipSpaces(r, 0) < |r| && IsQuote(r[SkipSpaces(r, 0)]))
    ensures var m := SkipSpaces(r, 0);
            && m <= e <= |r| && AllSpace(r[..m])
            && (forall k :: m <= k < e ==> IsValueChar(r[k]))
            && Tail(r[e..]) == Some(MatchRest(r).value.1)
            && MatchRest(r).value.0 == r[m..e]
  {
    var m := SkipSpaces(r, 0);
    e := ValueEnd(r, m);
    assert r[..m] == r[0..m];
  }

  /** A run of value characters, seen as a text of its own. */
  lemma ValueRun(r: string, i: nat, j: nat)
    requires i <= j <= |r|
    requires forall k :: i <= k < j ==> IsValueChar(r[k])
    ensures AllValueChars(r[i..j])
  {
    forall k | 0 <= k < j - i
      ensures IsValueChar(r[i..j][k])
    {
      assert r[i..j][k] == r[i + k];
    }
  }

  /** What `MatchHead` accepts is white space, a name, white space and a
      colon. */
  lemma HeadSound(line: string) returns (w1: string, w2: string)
    requires MatchHead(line).Some?
    ensures line == w1 + (MatchHead(line).value.0 + (w2 + (":" + line[MatchHead(line).value.1..])))
    ensures AllSpace(w1) && IsIdentifier(MatchHead(line).value.0) && AllSpace(w2)
  {
    var a, b, cl := HeadParts(line);
    IdentSlice(line, a, b);
    HeadSoundAt(line, a, b, cl);
    w1, w2 := line[..a], line[b..cl];
  }

  /** The positions `MatchHead` finds: the name from `a` to `b` and the colon
      at `cl`, white space before and between. */
  lemma HeadParts(line: string) returns (a: nat, b: nat, cl: nat)
    requires MatchHead(line).Some?
    ensures a < b <= cl < |line| && line[cl] == ':'
    ensures MatchHead(line) == Some((line[a..b], cl + 1))
    ensures AllSpace(line[..a]) && AllSpace(line[b..cl])
    ensures IsIdentStart(line[a]) && forall k :: a < k < b ==> IsIdentChar(line[k])
  {
    a := SkipSpaces(line, 0);
    b := IdentEnd(line, a + 1);
    cl := SkipSpaces(line, b);
    assert line[..a] == line[0..a];
  }

  /** A stretch that starts with a name-start character and goes on with
      name characters is a name. */
  lemma IdentSlice(line: string, a: nat, b: nat)
    requires a < b <= |line|
    requires IsIdentStart(line[a]) && forall k :: a < k < b ==> IsIdentChar(line[k])
    ensures IsIdentifier(line[a..b])
  {
    forall k | 1 <= k < b - a
      ensures IsIdentChar(line[a..b][k])
    {
      assert line[a..b][k] == line[a + k];
    }
  }

  lemma HeadSoundAt(line: string, a: nat, b: nat, cl: nat)
    requires a <= b <= cl < |line| && line[cl] == ':'
    ensures line == line[..a] + (line[a..b] + (line[b..cl] + (":" + line[cl + 1..])))
  {
    assert line == line[..a] + line[a..];
    assert line[a..] == line[a..b] + line[b..];
    assert line[b..] == line[b..cl] + line[cl..];
    assert line[cl..] == ":" + line[cl + 1..];
  }

  /** Whatever `MatchLine` accepts has the declared shape, with exactly the
      returned name, raw value and comment; the other pieces are returned. */
  lemma MatchLineSound(line: string) returns (w1: string, w2: string, w3: string, q: string, w4: string)
    requires MatchLine(line).Some?
    ensures LineShape(line, w1, MatchLine(line).value.name, w2, w3, q, MatchLine(line).value.value, w4,
                      MatchLine(line).value.comment)
  {
    var i := MatchHead(line).value.1;
    w1, w2 := HeadSound(line);
    w3, q, w4 := MatchRestSound(line[i..]);
  }

  /** A line that is blank or whose trimmed text starts with `#`, `;`, `//`
      or `--` never matches: the parser's explicit skip of comment lines
      agrees with the expression. */
  lemma CommentLinesNeverMatch(line: string)
    requires var t := Trim(line);
             t == "" || StartsWith(t, "#") || StartsWith(t, ";") || StartsWith(t, "//") || StartsWith(t, "--")
    ensures MatchLine(line).None?
  {
    var t := Trim(line);
    var a := SkipSpaces(line, 0);
    if t != "" {
      assert t[0] == line[a];
      assert t[0] == '#' || t[0] == ';' || t[0] == '/' || t[0] == '-';
    }
    HeadNeedsName(line);
  }

  /** The head is rejected when the first non-blank character cannot start
      a name. */
  lemma HeadNeedsName(line: string)
    requires SkipSpaces(line, 0) == |line| || !IsIdentStart(line[SkipSpaces(line, 0)])
    ensures MatchLine(line).None?
  {
  }
}
