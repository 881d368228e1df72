/**
 The values the editor handles. `Json` is the tree `JSON.parse` produces;
 `Value` is a JavaScript runtime value as it sits in a field or in the
 editor's state: a JSON value, a `Date`, or `undefined` (a property that is
 not there).
 */
module Values {
  import opened Text
  import opened Dates

  /** A parsed JSON value. Numbers are integers; an object keeps its members
      in order. */
  datatype Json =
    | JNull
    | JBool(b: bool)
    | JNum(n: int)
    | JStr(s: string)
    | JArr(items: seq<Json>)
    | JObj(members: seq<(string, Json)>)

  /** A JavaScript runtime value. */
  datatype Value =
    | Undefined
    | Null
    | Bool(b: bool)
    | Num(n: int)
    | Str(s: string)
    | Date(dt: DateTime)
    | Arr(items: seq<Json>)
    | Obj(members: seq<(string, Json)>)

  /** The runtime value of a parsed JSON value. */
  function FromJson(j: Json): (v: Value)
    ensures v != Undefined && !v.Date?
  {
    match j
    case JNull => Null
    case JBool(b) => Bool(b)
    case JNum(n) => Num(n)
    case JStr(s) => Str(s)
    case JArr(items) => Arr(items)
    case JObj(members) => Obj(members)
  }

  /** `String(v)`. A `Date` is shown in its canonical local form; the
      time-zone dependent `Date.prototype.toString` is not modelled. */
  function JsString(v: Value): string
  {
    match v
    case Undefined => "undefined"
    case Null => "null"
    case Bool(b) => if b then "true" else "false"
    case Num(n) => IntToString(n)
    case Str(s) => s
    case Date(d) => Render(d)
    case Arr(items) => JoinElements(JArr(items), |items|)
    case Obj(_) => "[object Object]"
  }

  /** An array element as `Array.prototype.join` writes it: `null` becomes
      the empty string and nested arrays are joined in turn. */
  function ElementString(e: Json): string
    decreases e, 1, 0
  {
    match e
    case JNull => ""
    case JBool(b) => if b then "true" else "false"
    case JNum(n) => IntToString(n)
    case JStr(s) => s
    case JArr(items) => JoinElements(e, |items|)
    case JObj(_) => "[object Object]"
  }

  /** The first `n` elements of an array joined with commas. */
  function JoinElements(a: Json, n: nat): string
    requires a.JArr? && n <= |a.items|
    decreases a, 0, n
  {
    if n == 0 then ""
    else if n == 1 then ElementString(a.items[0])
    else JoinElements(a, n - 1) + "," + ElementString(a.items[n - 1])
  }

  /** `Boolean(v)`. */
  predicate Truthy(v: Value)
  {
    match v
    case Undefined => false
    case Null => false
    case Bool(b) => b
    case Num(n) => n != 0
    case Str(s) => s != ""
    case Date(_) => true
    case Arr(_) => true
    case Obj(_) => true
  }

  function HexDigit(d: nat): char
    requires d < 16
  {
    if d < 10 then DigitChar(d) else (d - 10 + 'a' as int) as char
  }

  /** One character of a string literal as `JSON.stringify` escapes it. */
  function EscapeChar(c: char): string
  {
    if c == '"' then "\\\""
    else if c == '\\' then "\\\\"
    else if c == '\U{0008}' then "\\b"
    else if c == '\U{000C}' then "\\f"
    else if c == '\n' then "\\n"
    else if c == '\r' then "\\r"
    else if c == '\t' then "\\t"
    else if (c as int) < 0x20 then "\\u00" + [HexDigit(c as int / 16), HexDigit(c as int % 16)]
    else [c]
  }

  function Escape(s: string): string
  {
    if s == [] then [] else EscapeChar(s[0]) + Escape(s[1..])
  }

  /** A JSON string literal. */
  function Quote(s: string): string
  {
    "\"" + Escape(s) + "\""
  }

  /** `JSON.stringify(j)` without indentation. */
  function Stringify(j: Json): string
    decreases j, 1, 0
  {
    match j
    case JNull => "null"
    case JBool(b) => if b then "true" else "false"
    case JNum(n) => IntToString(n)
    case JStr(s) => Quote(s)
    case JArr(items) => "[" + StringifyItems(j, |items|) + "]"
    case JObj(members) => "{" + StringifyMembers(j, |members|) + "}"
  }

  function StringifyItems(a: Json, n: nat): string
    requires a.JArr? && n <= |a.items|
    decreases a, 0, n
  {
    if n == 0 then ""
    else if n == 1 then Stringify(a.items[0])
    else StringifyItems(a, n - 1) + "," + Stringify(a.items[n - 1])
  }

  function StringifyMember(o: Json, i: nat): string
    requires o.JObj? && i < |o.members|
    decreases o, 0, 0
  {
    Quote(o.members[i].0) + ":" + Stringify(o.members[i].1)
  }

  function StringifyMembers(o: Json, n: nat): string
    requires o.JObj? && n <= |o.members|
    decreases o, 0, n + 1
  {
    if n == 0 then ""
    else if n == 1 then StringifyMember(o, 0)
    else StringifyMembers(o, n - 1) + "," + StringifyMember(o, n - 1)
  }
}
