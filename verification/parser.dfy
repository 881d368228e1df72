/**
 `parseVariables`: the text of a task file becomes an object of fields, one
 per variable. A text that `JSON.parse` accepts as an object is flattened
 and every leaf becomes a field; any other text is read line by line in the
 `name: value # comment` format, later lines overriding earlier ones.
 */
module Parser {
  import opened Wrappers
  import opened Text
  import opened OrderedMaps
  import opened Values
  import opened Coercion
  import opened Flattening
  import opened LineFormat

  /** One variable as the parser records it. `originalValue` is the value as
      read from the file (a JSON leaf, or the trimmed text of a line). */
  datatype Field = Field(value: Value, originalValue: Json, lineIndex: nat, originalLine: string, comment: string)

  // ---------------------------------------------------------------------
  // JSON mode

  /** The field recorded for the `index`-th key of the flattened object. */
  function JsonField(key: string, leaf: Json, index: nat): (f: Field)
    ensures f.value == ConvertValue(leaf) && f.originalValue == leaf && f.lineIndex == index
    ensures f.comment == ""
  {
    Field(ConvertValue(leaf), leaf, index, "\"" + key + "\": " + Stringify(leaf), "")
  }

  /** The assignments of the `forEach` over the keys of the flattened
      object: each key with the field made from its leaf and position. */
  function JsonEntries(flat: OMap<Json>): (r: seq<(string, Field)>)
    ensures |r| == |flat|
    ensures forall i :: 0 <= i < |flat| ==> r[i] == (flat[i].0, JsonField(flat[i].0, flat[i].1, i))
  {
    seq(|flat|, i requires 0 <= i < |flat| => (flat[i].0, JsonField(flat[i].0, flat[i].1, i)))
  }

  /** Since the flattened object has no duplicate key, the fields are the
      flattened entries in the same order, each made from its own leaf. */
  lemma JsonFieldsAt(flat: OMap<Json>)
    requires Distinct(flat)
    ensures FromPairs(JsonEntries(flat)) == JsonEntries(flat)
  {
    DistinctKeys(JsonEntries(flat), flat);
    FromPairsDistinct(JsonEntries(flat));
  }

  /** JSON mode of `parseVariables` on an object with the given members. */
  function ParseJson(members: seq<(string, Json)>): OMap<Field>
  {
    FromPairs(JsonEntries(Flatten(JObj(members), "")))
  }

  /** In JSON mode there is exactly one field per dotted path that reaches a
      leaf. Each field's position is its `lineIndex`, its original value is
      the last leaf reached under that path and its value is that leaf after
      type inference. */
  lemma ParseJsonFields(members: seq<(string, Json)>)
    ensures Distinct(ParseJson(members))
    ensures forall k :: k in Keys(ParseJson(members)) <==> Last(Leaves(JObj(members), ""), k).Some?
    ensures forall i :: 0 <= i < |ParseJson(members)| ==>
              && ParseJson(members)[i].1.lineIndex == i
              && Some(ParseJson(members)[i].1.originalValue) == Last(Leaves(JObj(members), ""), ParseJson(members)[i].0)
              && ParseJson(members)[i].1.value == ConvertValue(ParseJson(members)[i].1.originalValue)
              && ParseJson(members)[i].1.originalLine
                   == "\"" + ParseJson(members)[i].0 + "\": " + Stringify(ParseJson(members)[i].1.originalValue)
  {
    var flat := Flatten(JObj(members), "");
    var r := ParseJson(members);
    FlattenLookup(JObj(members), "", "");
    JsonFieldsAt(flat);
    forall i | 0 <= i < |r|
      ensures Some(r[i].1.originalValue) == Last(Leaves(JObj(members), ""), r[i].0)
    {
      FlattenLookup(JObj(members), "", flat[i].0);
      DistinctGet(flat, i);
    }
    DistinctKeys(r, flat);
    forall k
      ensures k in Keys(r) <==> Last(Leaves(JObj(members), ""), k).Some?
    {
      ParseJsonKeys(members, k);
    }
  }

  /** A name is a field of JSON mode exactly when some leaf sits under that
      path. */
  lemma ParseJsonKeys(members: seq<(string, Json)>, k: string)
    ensures k in Keys(ParseJson(members)) <==> Last(Leaves(JObj(members), ""), k).Some?
  {
    var flat := Flatten(JObj(members), "");
    FlattenLookup(JObj(members), "", k);
    JsonFieldsAt(flat);
    assert Keys(ParseJson(members)) == Keys(flat);
  }

  /** A JSON file whose object has no nested object yields one field per
      member, in the member order, with the member's value. */
  lemma ParseFlatJson(members: seq<(string, Json)>)
    requires Distinct(members)
    requires forall i :: 0 <= i < |members| ==> IsLeaf(members[i].1)
    ensures |ParseJson(members)| == |members|
    ensures forall i :: 0 <= i < |members| ==>
              ParseJson(members)[i] == (members[i].0, JsonField(members[i].0, members[i].1, i))
  {
    FlattenFlat(JObj(members));
    JsonFieldsAt(members);
  }

  // ---------------------------------------------------------------------
  // Line mode

  /** The explicit skip of blank and comment lines. */
  predicate IsSkipped(line: string)
  {
    var t := Trim(line);
    t == "" || StartsWith(t, "#") || StartsWith(t, ";") || StartsWith(t, "//") || StartsWith(t, "--")
  }

  /** The field a matched line records: the trimmed value, its inferred
      value, the line itself and its comment. */
  function LineField(line: string, index: nat, m: LineMatch): (f: Field)
    ensures f.originalValue == JStr(Trim(m.value)) && f.value == ConvertValue(JStr(Trim(m.value)))
    ensures f.lineIndex == index && f.originalLine == line && f.comment == m.comment
  {
    Field(ConvertValue(JStr(Trim(m.value))), JStr(Trim(m.value)), index, line, m.comment)
  }

  /** The assignment the `index`-th line makes, if any. */
  function ParseLine(line: string, index: nat): Option<(string, Field)>
  {
    if IsSkipped(line) then None
    else match MatchLine(line)
      case None => None
      case Some(m) => Some((m.name, LineField(line, index, m)))
  }

  /** The skip of comment lines never changes the outcome: those lines do
      not match the line expression anyway. */
  lemma SkipIsRedundant(line: string, index: nat)
    ensures ParseLine(line, index) == match MatchLine(line)
                                      case None => None
                                      case Some(m) => Some((m.name, LineField(line, index, m)))
  {
    if IsSkipped(line) {
      CommentLinesNeverMatch(line);
    }
  }

  /** A line of the declared shape assigns its name the trimmed value, its
      comment and its own text. */
  lemma ParseLineOfShape(line: string, index: nat, w1: string, name: string, w2: string, w3: string, q: string,
                         v: string, w4: string, c: string)
    requires LineShape(line, w1, name, w2, w3, q, v, w4, c)
    ensures ParseLine(line, index).Some?
    ensures ParseLine(line, index).value.0 == name
    ensures ParseLine(line, index).value.1 == Field(ConvertValue(JStr(Trim(v))), JStr(Trim(v)), index, line, c)
  {
    MatchLineComplete(line, w1, name, w2, w3, q, v, w4, c);
    SkipIsRedundant(line, index);
  }

  /** `retries: 3 ; max attempts` assigns `retries` the text `"3"`, which
      stays a string, with the comment `; max attempts`. */
  lemma RetriesExample(line: string)
    requires line == "retries: 3 ; max attempts"
    ensures ParseLine(line, 4) == Some(("retries", Field(Str("3"), JStr("3"), 4, line, "; max attempts")))
  {
    RetriesShape(line);
    ParseLineOfShape(line, 4, "", "retries", "", " ", "", "3 ", "", "; max attempts");
    RetriesField(line, ParseLine(line, 4).value.1);
  }

  lemma RetriesField(line: string, f: Field)
    requires f == Field(ConvertValue(JStr(Trim("3 "))), JStr(Trim("3 ")), 4, line, "; max attempts")
    ensures f == Field(Str("3"), JStr("3"), 4, line, "; max attempts")
  {
    TrimThree();
  }

  lemma TrimThree()
    ensures Trim("3 ") == "3"
  {
    var s := "3 ";
    assert !IsSpace(s[0]) && IsSpace(s[1]);
    assert SkipSpaces(s, 0) == 0;
    var r := Trim(s);
    assert |r| == 1;
  }

  lemma RetriesShape(line: string)
    requires line == "retries: 3 ; max attempts"
    ensures LineShape(line, "", "retries", "", " ", "", "3 ", "", "; max attempts")
  {
    var c := "; max attempts";
    assert IsComment(c) by {
      forall k | 1 <= k < |c|
        ensures !IsLineTerminator(c[k])
      {
      }
    }
    assert AllValueChars("3 ");
    assert IsIdentifier("retries");
    assert RestText(" ", "", "3 ", "", c) == " 3 ; max attempts";
  }

  /** A line that assigns something has the declared shape. */
  lemma ParseLineShape(line: string, index: nat) returns (w1: string, w2: string, w3: string, q: string, v: string, w4: string)
    requires ParseLine(line, index).Some?
    ensures LineShape(line, w1, ParseLine(line, index).value.0, w2, w3, q, v, w4,
                      ParseLine(line, index).value.1.comment)
    ensures ParseLine(line, index).value.1.originalValue == JStr(Trim(v))
  {
    SkipIsRedundant(line, index);
    v := MatchLine(line).value.value;
    w1, w2, w3, q, w4 := MatchLineSound(line);
  }

  /** A line that assigns something records its own text and index. */
  lemma ParseLineRecordsLine(line: string, index: nat)
    requires ParseLine(line, index).Some?
    ensures ParseLine(line, index).value.1.lineIndex == index
    ensures ParseLine(line, index).value.1.originalLine == line
  {
  }

  /** What each line assigns, if anything, in line order. */
  function LineResults(lines: seq<string>): (r: seq<Option<(string, Field)>>)
    ensures |r| == |lines|
    ensures forall i :: 0 <= i < |lines| ==> r[i] == ParseLine(lines[i], i)
  {
    seq(|lines|, i requires 0 <= i < |lines| => ParseLine(lines[i], i))
  }

  /** The assignments of the lines, in order. */
  function Assignments(lines: seq<string>): seq<(string, Field)>
  {
    Present(LineResults(lines))
  }

  /** Every assignment is what the line at its `lineIndex` assigns, and that
      line is its `originalLine`. */
  lemma AssignmentsOrigin(lines: seq<string>, a: (string, Field))
    requires a in Assignments(lines)
    ensures a.1.lineIndex < |lines| && lines[a.1.lineIndex] == a.1.originalLine
    ensures ParseLine(lines[a.1.lineIndex], a.1.lineIndex) == Some(a)
  {
    var rs := LineResults(lines);
    PresentFrom(rs, a);
    var i :| 0 <= i < |rs| && rs[i] == Some(a);
    ParseLineRecordsLine(lines[i], i);
  }

  /** Line mode of `parseVariables`: the `forEach` over the lines, assigning
      the field of each line that matches. */
  function ParseText(text: string): OMap<Field>
  {
    PutPresent([], LineResults(SplitLines(text)))
  }

  /** Every field of line mode comes from the last line that assigns its
      name: that line is the field's `originalLine`, sits at its
      `lineIndex`, and has the declared line shape. */
  lemma ParseTextFields(text: string, k: string)
    ensures Distinct(ParseText(text))
    ensures Get(ParseText(text), k) == Last(Assignments(SplitLines(text)), k)
    ensures Get(ParseText(text), k).Some? ==>
              var f := Get(ParseText(text), k).value;
              && f.lineIndex < |SplitLines(text)|
              && f.originalLine == SplitLines(text)[f.lineIndex]
              && ParseLine(f.originalLine, f.lineIndex) == Some((k, f))
  {
    var lines := SplitLines(text);
    var asg := Assignments(lines);
    PutPresentIsPutAll([], LineResults(lines));
    DistinctFromPairs(asg);
    GetPutAll([], asg, k);
    if Last(asg, k).Some? {
      AssignmentsOrigin(lines, (k, Last(asg, k).value));
    }
  }

  /** `parseVariables(text)`. `json` is the outcome of `JSON.parse(text)`:
      the members of the object it returned, or `None` when it threw. */
  function ParseVariables(text: string, json: Option<seq<(string, Json)>>): OMap<Field>
  {
    match json
    case Some(members) => ParseJson(members)
    case None => ParseText(text)
  }

  /** The parsed variables never repeat a name, in either mode. */
  lemma ParseVariablesDistinct(text: string, json: Option<seq<(string, Json)>>)
    ensures Distinct(ParseVariables(text, json))
  {
    match json
    case Some(members) => ParseJsonFields(members);
    case None => ParseTextFields(text, "");
  }
}
