/**
 The variable editor: the parsed fields of the loaded file, the values the
 inputs currently hold (`inputValues`), the values committed by the last
 "Update All" (`updatedFields`) and whether a commit has happened. A field
 counts as changed when its input, normalized, differs from its baseline:
 the committed value if there is one, the parsed value otherwise.
 */
module Editor {
  import opened Wrappers
  import opened Text
  import opened Dates
  import opened OrderedMaps
  import opened Values
  import opened Coercion
  import opened Parser

  /** `content` is the `fileContent` the load effect last ran for: the
      effect depends on it alone, so it runs again only when it changes. */
  datatype State = State(variables: OMap<Field>, working: OMap<Value>, committed: OMap<Value>, hasUpdated: bool,
                         content: string)

  /** `obj[k]`: `undefined` when the property is absent. */
  function Lookup(m: OMap<Value>, k: string): (v: Value)
    ensures Get(m, k).None? ==> v == Undefined
    ensures Get(m, k).Some? ==> v == Get(m, k).value
  {
    match Get(m, k)
    case None => Undefined
    case Some(v) => v
  }

  /** `variables[k].value`. */
  function FieldValue(e: State, k: string): Value
  {
    match Get(e.variables, k)
    case None => Undefined
    case Some(f) => f.value
  }

  /** The editor before any file is loaded. */
  function Empty(): (e: State)
    ensures e.variables == [] && e.working == [] && e.committed == [] && !e.hasUpdated && e.content == ""
  {
    State([], [], [], false, "")
  }

  /** The initial input values: every field's parsed value under its name. */
  function InitialInputs(vars: OMap<Field>): (r: OMap<Value>)
    ensures Keys(r) == Keys(vars)
    ensures forall k :: Get(r, k) == match Get(vars, k) { case None => None case Some(f) => Some(f.value) }
  {
    if vars == [] then [] else [(vars[0].0, vars[0].1.value)] + InitialInputs(vars[1..])
  }

  /** The load effect, run when `fileContent` differs from the content it
      last ran for: a non-empty file replaces the fields, resets every input
      to its parsed value and forgets all commits; an empty file leaves the
      editor as it is. The same content again changes nothing. */
  function Load(e: State, fileContent: string, json: Option<seq<(string, Json)>>): (r: State)
    ensures r.content == fileContent
    ensures fileContent == "" || fileContent == e.content ==> r == e.(content := fileContent)
    ensures fileContent != "" && fileContent != e.content ==>
              r.variables == ParseVariables(fileContent, json) && r.committed == [] && !r.hasUpdated
    ensures fileContent != "" && fileContent != e.content ==> forall k :: Lookup(r.working, k) == FieldValue(r, k)
  {
    if fileContent == e.content then e
    else if fileContent == "" then e.(content := fileContent)
    else
      var parsed := ParseVariables(fileContent, json);
      State(parsed, InitialInputs(parsed), [], false, fileContent)
  }

  /** Loading the text the editor already shows, as when the same task is
      fetched again, keeps every input, commit and `hasUpdated`. */
  lemma ReloadKeepsEdits(e: State, toIso: DateTime -> string, k: string, v: Value, json: Option<seq<(string, Json)>>)
    ensures var e' := Commit(Edit(e, k, v), toIso).0;
            Load(e', e.content, json) == e'
  {
    var e' := Commit(Edit(e, k, v), toIso).0;
    assert e'.content == e.content;
  }

  /** `handleInputChange(name, v)`: only that input changes. */
  function Edit(e: State, name: string, v: Value): (r: State)
    ensures r.variables == e.variables && r.committed == e.committed && r.hasUpdated == e.hasUpdated
    ensures r.content == e.content
    ensures Lookup(r.working, name) == v
    ensures forall k :: k != name ==> Lookup(r.working, k) == Lookup(e.working, k)
  {
    e.(working := Put(e.working, name, v))
  }

  /** The editor's own `createLocalDateFromString`: unlike the parser's it
      has no check for blank text. */
  function EditorParseLocalDate(v: Value): (r: Option<DateTime>)
    ensures r.Some? <==> v.Str? && IsDatePrefix(v.s)
  {
    if !v.Str? then None else ParsePrefix(v.s)
  }

  /** The missing blank check makes no difference: a text the date pattern
      matches starts with a digit, so it is never blank. */
  lemma EditorParseAgrees(v: Value)
    ensures EditorParseLocalDate(v) == ParseLocalDate(v)
  {
    if v.Str? && IsDatePrefix(v.s) {
      assert !IsSpace(v.s[0]);
      assert Trim(v.s) != "";
    }
  }

  /** `normalizeValueForComparison`: a date by its canonical rendering, a
      text that starts like a date completed with seconds when it has
      exactly 16 characters, anything else by `String(v)`. */
  function Normalize(v: Value): string
  {
    if v.Date? then Render(v.dt)
    else if v.Str? && IsDatePrefix(v.s) then (if |v.s| == 16 then v.s + ":00" else v.s)
    else JsString(v)
  }

  /** A date text in the form a date input produces normalizes exactly as
      the date it denotes. */
  lemma NormalizeCanonicalDate(s: string)
    requires IsCanonicalText(s)
    ensures Normalize(Str(s)) == Normalize(Date(PrefixFields(s)))
  {
    RenderParse(s);
  }

  /** Two dates normalize alike exactly when they are the same date, for
      years of four digits. */
  lemma NormalizeDatesInjective(d1: DateTime, d2: DateTime)
    requires InRange(d1) && 1000 <= d1.year <= 9999
    requires InRange(d2) && 1000 <= d2.year <= 9999
    ensures Normalize(Date(d1)) == Normalize(Date(d2)) <==> d1 == d2
  {
    ParseRender(d1);
    ParseRender(d2);
  }

  /** The value the change of `k` is measured against. */
  function Baseline(e: State, k: string): (v: Value)
    ensures Lookup(e.committed, k) != Undefined ==> v == Lookup(e.committed, k)
    ensures Lookup(e.committed, k) == Undefined ==> v == FieldValue(e, k)
  {
    if Lookup(e.committed, k) != Undefined then Lookup(e.committed, k) else FieldValue(e, k)
  }

  predicate Changed(e: State, k: string)
  {
    Normalize(Lookup(e.working, k)) != Normalize(Baseline(e, k))
  }

  /** The value a changed input is committed as: a date field's text is
      read back as a date when it parses, anything else is kept. */
  function FinalValue(e: State, k: string): (v: Value)
    ensures v == Lookup(e.working, k) || (FieldValue(e, k).Date? && v.Date?)
    ensures v.Date? && !Lookup(e.working, k).Date? ==>
              Lookup(e.working, k).Str? && IsDatePrefix(Lookup(e.working, k).s)
              && v.dt == PrefixFields(Lookup(e.working, k).s)
    ensures FieldValue(e, k).Date? && Lookup(e.working, k).Str? && IsDatePrefix(Lookup(e.working, k).s) ==>
              v == Date(PrefixFields(Lookup(e.working, k).s))
    ensures !(FieldValue(e, k).Date? && Lookup(e.working, k).Str? && IsDatePrefix(Lookup(e.working, k).s)) ==>
              v == Lookup(e.working, k)
  {
    var current := Lookup(e.working, k);
    if FieldValue(e, k).Date? && current.Str? && current.s != "" then
      match EditorParseLocalDate(current)
      case Some(d) => Date(d)
      case None => current
    else current
  }

  /** The change `getAllChanges` records for `k`, if any. */
  function ChangeOf(e: State, k: string): Option<Value>
  {
    if Changed(e, k) then Some(FinalValue(e, k)) else None
  }

  /** `getAllChanges()`: the final value of every changed field, in field
      order. */
  function Changes(e: State): OMap<Value>
  {
    PutWhere(Keys(e.variables), k => ChangeOf(e, k))
  }

  /** Exactly the changed fields appear among the changes, each with its
      final value. */
  lemma ChangesGet(e: State, k: string)
    ensures Get(Changes(e), k) == if k in Keys(e.variables) && Changed(e, k) then Some(FinalValue(e, k)) else None
    ensures Distinct(Changes(e))
  {
    PutWhereGet(Keys(e.variables), k => ChangeOf(e, k), k);
  }

  /** A field is reverted when its input, before the commit, normalizes as
      its parsed value; "Update All" then drops its commit. */
  predicate Reverted(e: State, k: string)
  {
    Normalize(Lookup(e.working, k)) == Normalize(FieldValue(e, k))
  }

  /** The pruning loop of `handleUpdateAll`: the commit of every reverted
      field is deleted, when it has one. */
  function Pruned(e: State, acc: OMap<Value>): OMap<Value>
  {
    RemoveWhere(acc, Keys(e.variables), (k, v) => Reverted(e, k) && v != Undefined)
  }

  /** Pruning drops exactly the commits of reverted fields and keeps every
      other entry. */
  lemma PruneLookup(e: State, acc: OMap<Value>, k: string)
    ensures Lookup(Pruned(e, acc), k) == if k in Keys(e.variables) && Reverted(e, k) then Undefined else Lookup(acc, k)
    ensures forall k' :: k' in Keys(Pruned(e, acc)) ==> k' in Keys(acc)
    ensures Distinct(acc) ==> Distinct(Pruned(e, acc))
  {
    RemoveWhereGet(acc, Keys(e.variables), (k, v) => Reverted(e, k) && v != Undefined, k);
    RemoveWhereKeys(acc, Keys(e.variables), (k, v) => Reverted(e, k) && v != Undefined);
  }

  /** `convertBooleanToNumber`/`convertDateToString` as the export applies
      them: a boolean read from a JSON `0`/`1` goes back to a number, a date
      read from a text starting like a date goes back to text. */
  function ExportValue(original: Json, v: Value, toIso: DateTime -> string): (r: Value)
    ensures (original == JNum(0) || original == JNum(1)) && v.Bool? ==> r == Num(if v.b then 1 else 0)
    ensures original.JStr? && IsDayPrefix(original.s) && v.Date? ==> r == Str(toIso(v.dt))
    ensures (!((original == JNum(0) || original == JNum(1)) && v.Bool?)
             && !(original.JStr? && IsDayPrefix(original.s) && v.Date?)) ==> r == v
  {
    if (original == JNum(0) || original == JNum(1)) && v.Bool? then ConvertBooleanToNumber(v)
    else if original.JStr? && IsDayPrefix(original.s) && v.Date? then ConvertDateToString(v, toIso)
    else v
  }

  /** The "original format" object built from the committed values. A key
      without a field cannot occur (`CommitKeepsInvariant`); it is passed
      through unchanged. */
  function Export(vars: OMap<Field>, committed: OMap<Value>, toIso: DateTime -> string): (r: OMap<Value>)
    ensures Keys(r) == Keys(committed)
  {
    if committed == [] then []
    else
      var (k, v) := committed[0];
      var x := match Get(vars, k) { case None => v case Some(f) => ExportValue(f.originalValue, v, toIso) };
      [(k, x)] + Export(vars, committed[1..], toIso)
  }

  lemma {:induction false} ExportGet(vars: OMap<Field>, committed: OMap<Value>, toIso: DateTime -> string, k: string)
    requires Get(vars, k).Some?
    ensures Get(Export(vars, committed, toIso), k)
            == match Get(committed, k) { case None => None case Some(v) => Some(ExportValue(Get(vars, k).value.originalValue, v, toIso)) }
  {
    if committed != [] {
      ExportGet(vars, committed[1..], toIso, k);
    }
  }

  datatype CommitResult = NothingToUpdate | Updated(exported: OMap<Value>)

  /** `handleUpdateAll`. With no change it only reports so. Otherwise the
      changes are merged into the committed and the input values, the
      commits of reverted fields are dropped, `hasUpdated` is set and the
      committed values are exported in their original format. */
  function Commit(e: State, toIso: DateTime -> string): (r: (State, CommitResult))
    ensures r.0.variables == e.variables && r.0.content == e.content
    ensures r.1.NothingToUpdate? <==> Changes(e) == []
    ensures r.1.NothingToUpdate? ==> r.0 == e
    ensures r.1.Updated? ==> r.0.hasUpdated && r.1.exported == Export(e.variables, r.0.committed, toIso)
  {
    var changes := Changes(e);
    if changes == [] then (e, NothingToUpdate)
    else
      var committed := Pruned(e, PutAll(e.committed, changes));
      var e' := e.(working := PutAll(e.working, changes), committed := committed, hasUpdated := true);
      (e', Updated(Export(e.variables, committed, toIso)))
  }

  /** The change set is empty exactly when no field is changed. */
  lemma NoChanges(e: State)
    ensures Changes(e) == [] <==> forall k :: k in Keys(e.variables) ==> !Changed(e, k)
  {
    if Changes(e) == [] {
      forall k | k in Keys(e.variables)
        ensures !Changed(e, k)
      {
        ChangesGet(e, k);
      }
    } else {
      var k := Changes(e)[0].0;
      ChangesGet(e, k);
    }
  }

  /** After an update every changed input holds its final value, and every
      other input is untouched. */
  lemma CommitWorking(e: State, toIso: DateTime -> string, k: string)
    requires Commit(e, toIso).1.Updated?
    ensures Lookup(Commit(e, toIso).0.working, k)
            == if k in Keys(e.variables) && Changed(e, k) then FinalValue(e, k) else Lookup(e.working, k)
  {
    ChangesGet(e, k);
    GetPutAll(e.working, Changes(e), k);
    DistinctLast(Changes(e), k);
  }

  /** After an update a reverted field has no commit; any other field holds
      its final value if it changed and its previous commit otherwise. */
  lemma CommitCommitted(e: State, toIso: DateTime -> string, k: string)
    requires Commit(e, toIso).1.Updated?
    ensures Lookup(Commit(e, toIso).0.committed, k)
            == if k in Keys(e.variables) && Reverted(e, k) then Undefined
               else if k in Keys(e.variables) && Changed(e, k) then FinalValue(e, k)
               else Lookup(e.committed, k)
  {
    var changes := Changes(e);
    ChangesGet(e, k);
    GetPutAll(e.committed, changes, k);
    DistinctLast(changes, k);
    PruneLookup(e, PutAll(e.committed, changes), k);
  }

  // ---------------------------------------------------------------------
  // The invariant of a loaded editor

  /** No object repeats a key, every commit belongs to a field, every
      field has a defined value and a defined input, and a field's date is
      one a JavaScript `Date` can report. */
  predicate WellFormed(e: State)
  {
    && Distinct(e.variables) && Distinct(e.working) && Distinct(e.committed)
    && (forall k :: k in Keys(e.committed) ==> k in Keys(e.variables))
    && (forall k :: k in Keys(e.variables) ==> FieldValue(e, k) != Undefined && Lookup(e.working, k) != Undefined)
    && (forall k :: k in Keys(e.variables) && FieldValue(e, k).Date? ==> InRange(FieldValue(e, k).dt))
  }

  lemma LoadWellFormed(e: State, fileContent: string, json: Option<seq<(string, Json)>>)
    requires WellFormed(e)
    ensures WellFormed(Load(e, fileContent, json))
  {
    if fileContent != "" && fileContent != e.content {
      var r := Load(e, fileContent, json);
      ParseVariablesDistinct(fileContent, json);
      forall i | 0 <= i < |r.working|
        ensures r.working[i].0 == r.variables[i].0
      {
        assert Keys(r.working)[i] == Keys(r.variables)[i];
      }
      DistinctKeys(r.working, r.variables);
      forall k | k in Keys(r.variables)
        ensures FieldValue(r, k) != Undefined
        ensures FieldValue(r, k).Date? ==> InRange(FieldValue(r, k).dt)
      {
        ParsedValueDefined(fileContent, json, k);
      }
    }
  }

  /** The fields `parseVariables` produces hold coerced values, never
      `undefined`, and a date among them is in calendar range. */
  lemma ParsedValueDefined(text: string, json: Option<seq<(string, Json)>>, k: string)
    requires Get(ParseVariables(text, json), k).Some?
    ensures Get(ParseVariables(text, json), k).value.value != Undefined
    ensures Get(ParseVariables(text, json), k).value.value.Date? ==> InRange(Get(ParseVariables(text, json), k).value.value.dt)
  {
    var vars := ParseVariables(text, json);
    var i :| 0 <= i < |vars| && vars[i].0 == k;
    ParseVariablesDistinct(text, json);
    DistinctGet(vars, i);
    match json
    case Some(members) =>
      ParseJsonFields(members);
    case None =>
      ParseTextFields(text, k);
  }

  /** A freshly loaded file shows no change, so "Update All" has nothing
      to do. */
  lemma LoadHasNoChanges(e: State, fileContent: string, json: Option<seq<(string, Json)>>)
    requires fileContent != ""
    ensures fileContent != e.content ==> Changes(Load(e, fileContent, json)) == []
  {
    if fileContent != e.content {
      LoadedHasNoChanges(e, fileContent, json);
    }
  }

  lemma LoadedHasNoChanges(e: State, fileContent: string, json: Option<seq<(string, Json)>>)
    requires fileContent != "" && fileContent != e.content
    ensures Changes(Load(e, fileContent, json)) == []
  {
    var r := Load(e, fileContent, json);
    forall k | k in Keys(r.variables)
      ensures !Changed(r, k)
    {
      assert Lookup(r.committed, k) == Undefined;
    }
    NoChanges(r);
  }

  lemma EditWellFormed(e: State, name: string, v: Value)
    requires WellFormed(e) && v != Undefined
    ensures WellFormed(Edit(e, name, v))
  {
  }

  /** Every changed field is a field. */
  lemma ChangesWithin(e: State)
    ensures forall k :: k in Keys(Changes(e)) ==> k in Keys(e.variables)
  {
    forall k | k in Keys(Changes(e))
      ensures k in Keys(e.variables)
    {
      ChangesGet(e, k);
    }
  }

  lemma CommitKeepsInvariant(e: State, toIso: DateTime -> string)
    requires WellFormed(e)
    ensures WellFormed(Commit(e, toIso).0)
  {
    var (e', res) := Commit(e, toIso);
    if res.Updated? {
      CommitCommittedKeys(e, toIso);
      CommitWorkingKeys(e, toIso);
    }
  }

  lemma CommitCommittedKeys(e: State, toIso: DateTime -> string)
    requires WellFormed(e) && Commit(e, toIso).1.Updated?
    ensures Distinct(Commit(e, toIso).0.committed)
    ensures forall k :: k in Keys(Commit(e, toIso).0.committed) ==> k in Keys(e.variables)
  {
    var changes := Changes(e);
    ChangesWithin(e);
    PutAllKeysWithin(e.committed, changes, e.variables);
    PutAllKeys(e.committed, changes);
    PruneLookup(e, PutAll(e.committed, changes), "");
  }

  lemma CommitWorkingKeys(e: State, toIso: DateTime -> string)
    requires WellFormed(e) && Commit(e, toIso).1.Updated?
    ensures Distinct(Commit(e, toIso).0.working)
    ensures forall k :: k in Keys(e.variables) ==> Lookup(Commit(e, toIso).0.working, k) != Undefined
  {
    PutAllKeys(e.working, Changes(e));
    forall k | k in Keys(e.variables)
      ensures Lookup(Commit(e, toIso).0.working, k) != Undefined
    {
      CommitWorking(e, toIso, k);
    }
  }

  /** Assigning pairs whose keys belong to `vars` keeps all keys in `vars`. */
  lemma {:induction false} PutAllKeysWithin<V, U>(m: OMap<V>, s: seq<(string, V)>, vars: OMap<U>)
    requires forall k :: k in Keys(m) ==> k in Keys(vars)
    requires forall k :: k in Keys(s) ==> k in Keys(vars)
    ensures forall k :: k in Keys(PutAll(m, s)) ==> k in Keys(vars)
    decreases |s|
  {
    if s != [] {
      var s' := s[..|s| - 1];
      assert forall k :: k in Keys(s') ==> k in Keys(s);
      PutAllKeysWithin(m, s', vars);
      assert s[|s| - 1].0 in Keys(s);
    }
  }

  // ---------------------------------------------------------------------
  // Settling: a second "Update All" right after a first finds nothing

  /** Every date field whose input holds a text the date pattern reads
      holds it in the form a date input produces. */
  predicate DateInputsCanonical(e: State)
  {
    forall k :: (k in Keys(e.variables) && FieldValue(e, k).Date? && Lookup(e.working, k).Str?
                 && IsDatePrefix(Lookup(e.working, k).s)) ==> IsCanonicalText(Lookup(e.working, k).s)
  }

  /** The committed form of an input normalizes as the input itself. */
  lemma FinalValueNormalizes(e: State, k: string)
    requires DateInputsCanonical(e) && k in Keys(e.variables)
    ensures Normalize(FinalValue(e, k)) == Normalize(Lookup(e.working, k))
  {
    var current := Lookup(e.working, k);
    if FinalValue(e, k) != current {
      NormalizeCanonicalDate(current.s);
    }
  }

  /** After an update that found changes, every field of a well-formed
      editor is unchanged: the commit settles, and a second "Update All"
      reports nothing to update. */
  lemma CommitSettles(e: State, toIso: DateTime -> string)
    requires WellFormed(e)
    ensures Changes(Commit(e, toIso).0) == []
  {
    var e' := Commit(e, toIso).0;
    if Commit(e, toIso).1.Updated? {
      forall k | k in Keys(e'.variables)
        ensures !Changed(e', k)
      {
        SettledField(e, toIso, k);
      }
      NoChanges(e');
    }
  }

  lemma SettledField(e: State, toIso: DateTime -> string, k: string)
    requires WellFormed(e)
    requires Commit(e, toIso).1.Updated? && k in Keys(e.variables)
    ensures !Changed(Commit(e, toIso).0, k)
  {
    var e' := Commit(e, toIso).0;
    CommitWorking(e, toIso, k);
    CommitCommitted(e, toIso, k);
    SettledAt(e, e', k);
  }

  /** One field after an update. A changed field has its final value as
      both input and commit. An unchanged one keeps its input and its
      baseline. A reverted one loses its commit, and a date text read into a
      date on the way still renders as the field's own date. */
  lemma SettledAt(e: State, e': State, k: string)
    requires k in Keys(e.variables) && FieldValue(e', k) == FieldValue(e, k)
    requires Lookup(e.working, k) != Undefined
    requires FieldValue(e, k).Date? ==> InRange(FieldValue(e, k).dt)
    requires Lookup(e'.working, k) == if k in Keys(e.variables) && Changed(e, k) then FinalValue(e, k) else Lookup(e.working, k)
    requires Lookup(e'.committed, k)
             == if k in Keys(e.variables) && Reverted(e, k) then Undefined
                else if k in Keys(e.variables) && Changed(e, k) then FinalValue(e, k)
                else Lookup(e.committed, k)
    ensures !Changed(e', k)
  {
    var current := Lookup(e.working, k);
    if Reverted(e, k) {
      assert Baseline(e', k) == FieldValue(e, k);
      if Changed(e, k) && FinalValue(e, k) != current {
        PrefixOfRendering(current.s, FieldValue(e, k).dt);
      }
    } else if Changed(e, k) {
      assert Lookup(e'.committed, k) == FinalValue(e, k) != Undefined;
    } else {
      assert Baseline(e', k) == Baseline(e, k);
    }
  }

  /** Editing a committed field back to its parsed value and updating
      drops its commit. */
  lemma RevertDropsCommit(e: State, toIso: DateTime -> string, k: string)
    requires k in Keys(e.variables) && Lookup(e.committed, k) != Undefined
    requires Lookup(e.working, k) == FieldValue(e, k)
    requires Normalize(FieldValue(e, k)) != Normalize(Lookup(e.committed, k))
    ensures Commit(e, toIso).1.Updated?
    ensures Lookup(Commit(e, toIso).0.committed, k) == Undefined
  {
    ChangesGet(e, k);
    CommitCommitted(e, toIso, k);
  }

  // ---------------------------------------------------------------------
  // The per-field view

  /** `hasChanges` of a rendered field: the input (falling back to the
      parsed value when it is `undefined` or `null`) against the baseline. */
  predicate FieldHasChanges(e: State, k: string)
  {
    var w := Lookup(e.working, k);
    var current := if w == Undefined || w == Null then FieldValue(e, k) else w;
    Normalize(current) != Normalize(Baseline(e, k))
  }

  /** The change marker of a field agrees with "Update All" whenever the
      input is neither `undefined` nor `null`. */
  lemma FieldHasChangesAgrees(e: State, k: string)
    requires k in Keys(e.variables)
    requires Lookup(e.working, k) != Undefined && Lookup(e.working, k) != Null
    ensures FieldHasChanges(e, k) <==> k in Keys(Changes(e))
  {
    ChangesGet(e, k);
  }

  /** `isUpdated` of a rendered field. */
  predicate IsUpdated(e: State, k: string)
  {
    Lookup(e.committed, k) != Undefined
  }

  /** After an update a row is marked as updated exactly when its field was
      not reverted and either changed or was already marked. */
  lemma CommitIsUpdated(e: State, toIso: DateTime -> string, k: string)
    requires WellFormed(e) && Commit(e, toIso).1.Updated?
    ensures IsUpdated(Commit(e, toIso).0, k)
            <==> k in Keys(e.variables) && !Reverted(e, k) && (Changed(e, k) || IsUpdated(e, k))
  {
    CommitCommitted(e, toIso, k);
  }

  /** A boolean read from a JSON `0` or `1` is exported as that number;
      read from a line it stays a boolean, since the line's original value
      is the text `"0"`/`"1"` and not a number. */
  lemma ExportRestoresJsonBooleans(n: int, b: bool, toIso: DateTime -> string)
    requires n == 0 || n == 1
    ensures ExportValue(JNum(n), Bool(b), toIso) == Num(if b then 1 else 0)
    ensures ConvertValue(JNum(ExportValue(JNum(n), Bool(b), toIso).n)) == Bool(b)
    ensures ExportValue(JStr(IntToString(n)), Bool(b), toIso) == Bool(b)
  {
  }
}
