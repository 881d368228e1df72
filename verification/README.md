# sql_generator task editor — a Dafny model

The SQL generator is a browser page for editing task configuration files.
The user picks a job type, which selects a settings file on the server.
The page fetches the job names that file holds and suggests names as the user types.
Loading a job fetches its task text.

The editor parses that text into variables. The text is either a JSON object, flattened to dotted keys, or `name: value ; comment` lines.
Each value's type is inferred: `0`/`1` become booleans and ISO strings become dates.
One input control is shown per variable. The editor tracks which inputs differ from their baseline, and "Update All" commits the changes.
A commit also drops fields that were edited back to their original value and derives an export in the file's original format.

This project models that core as pure functions over immutable data and proves its contracts with Dafny.

| file | module | models |
|---|---|---|
| `wrappers.dfy` | `Wrappers` | `Option` |
| `omap.dfy` | `OrderedMaps` | JavaScript plain objects as insertion-ordered key/value lists: read, assign, `delete`, `Object.assign` |
| `text.dfy` | `Text` | `trim`, `split('\n')`, `startsWith`, `includes`, `toLowerCase`, decimal rendering |
| `dates.dfy` | `Dates` | date components, the canonical `YYYY-MM-DDTHH:MM:SS` rendering, the date-prefix and ISO-instant patterns |
| `values.dfy` | `Values` | the JSON tree, JavaScript runtime values, `String(v)`, `Boolean(v)`, `JSON.stringify` |
| `coercion.dfy` | `Coercion` | `convertValue`, `createLocalDateFromString`, `formatDateForInput`, `formatValueForInput`, `convertBooleanToNumber`, `convertDateToString` |
| `flatten.dfy` | `Flattening` | `flattenObject` |
| `lineformat.dfy` | `LineFormat` | the line regular expression of the fallback parser, as a scanner proved equal to a declarative line shape |
| `parser.dfy` | `Parser` | `parseVariables`: JSON mode and line mode |
| `editor.dfy` | `Editor` | `VariableEditor`: load, input change, `normalizeValueForComparison`, `getAllChanges`, `handleUpdateAll` (merge, prune, export), the per-row change marker |
| `item.dfy` | `Item` | `VariableItem`: control type, row class, displayed value, change-event payloads |
| `app.dfy` | `App` | `App`: job type to settings file, name fetch outcome, suggestion filter, job-name handlers, `handleLoadTask` |

The editor's state is the record `Editor.State`. It has five parts:
- `variables`: the parsed fields;
- `working`: the input values;
- `committed`: the values committed by the last "Update All";
- `hasUpdated`;
- `content`: the file content the load effect last ran for.

"Update All" is `Editor.Commit`, a function from a state to a new state and a result. The result is either "nothing to update" or the exported object.

Network exchanges are parameters of the App functions. Each one is an `Outcome`: an `ok` response with its body, a response that is not `ok` with its status text, or a connection error.

## Model

| member | source | states |
|---|---|---|
| Coercion.ConvertValue | src/utils/fileParser.js:1-23 | `1`/`"1"` become true and `0`/`"0"` false. A strict ISO instant becomes a date carrying its components when they name a real calendar day and a time of day with the hour at most 23. Every other value is kept as it is. The result is never `undefined`. |
| Coercion.IsoCoercionExample | src/utils/fileParser.js:10-19 | `"2021-05-01T00:00:00"` is inferred to be the date 2021-05-01 00:00:00 |
| Coercion.InvalidIsoExample | src/utils/fileParser.js:12-22 | an ISO-shaped text naming month 13 is not a valid instant and stays a string |
| Coercion.IsoCoercionRenders | src/utils/fileParser.js:113-126 | a date inferred from an ISO string with a four-digit year displays as the first 19 characters of that string |
| Coercion.BooleanNumberRoundTrip | src/utils/fileParser.js:106-111 | inferring a boolean from a numeric 0/1 and converting the boolean back to a number are inverse to each other |
| Coercion.ConvertBooleanToNumber | src/utils/fileParser.js:106-111 | a boolean becomes 1 or 0; any other value is unchanged |
| Coercion.ConvertDateToString | src/utils/fileParser.js:99-104 | a date becomes its ISO text; any other value is unchanged |
| Coercion.FormatDateForInput | src/utils/fileParser.js:113-126 | a date renders canonically; anything else renders as the empty text |
| Coercion.ParseLocalDate | src/utils/fileParser.js:128-146 | a date results exactly when the value is a non-blank text that matches the date-prefix pattern. The date is built from the matched digits, with the seconds defaulting to 0. |
| Coercion.FormatValueForInput | src/utils/fileParser.js:148-174 | A date field shows a date input canonically, and a text that parses as the date it denotes. It shows a text that does not parse verbatim, and an empty or absent input as the original date. Any other field shows `String(current ?? '')`. |
| Dates.ParseRender | src/utils/fileParser.js:113-146 | reading back the rendering of an in-range date with a four-digit year gives the same date |
| Dates.RenderParse | src/utils/fileParser.js:113-146 | rendering the date read from a canonical date text gives the text back, completed with `:00` when it has no seconds |
| Dates.IsoRender | src/utils/fileParser.js:12-17 | a valid date taken from a strict ISO string renders as that string's first 19 characters |
| Text.SplitLines | src/utils/fileParser.js:70 | the lines contain no line break and joined with line breaks give the text back |
| Text.Trim | src/utils/fileParser.js:73 | the trimmed text is blank exactly when the text is all white space. Otherwise it is the slice between the leading and the trailing white space, and neither of its ends is white space. |
| Text.TrimPadded | src/utils/fileParser.js:82 | white space added around a text does not survive trimming |
| Flattening.FullKey | src/utils/fileParser.js:30 | the key is the bare key without a prefix; otherwise it is the prefix, a dot and the key |
| Flattening.FlattenIsLeaves | src/utils/fileParser.js:25-42 | the recursive fold with `Object.assign` builds exactly the object obtained by assigning the depth-first leaves in order |
| Flattening.FlattenLookup | src/utils/fileParser.js:25-42 | the flat object repeats no key and holds no nested object. A dotted path reads the value of the last leaf reached under it. |
| Flattening.FlattenFlat | src/utils/fileParser.js:25-42 | an object without nested objects flattens to its own members |
| Flattening.FlattenIdempotent | src/utils/fileParser.js:25-42 | flattening a flattened object changes nothing |
| Parser.JsonField | src/utils/fileParser.js:57-63 | a JSON field holds the inferred value, the leaf as its original value, its position as its line index, and an empty comment |
| Parser.ParseJsonFields | src/utils/fileParser.js:48-64 | JSON mode repeats no name, and a name is a field exactly when some leaf sits under that dotted path. Each field sits at its own `lineIndex`, and its original value is the last leaf under its path. Its value is that leaf after inference. Its `originalLine` is `"key": ` followed by the stringified leaf. |
| Parser.ParseFlatJson | src/utils/fileParser.js:53-63 | an object without nested objects gives one field per member, in member order |
| Parser.JsonFieldsAt | src/utils/fileParser.js:53-63 | the JSON-mode `forEach` assigns every flattened key once, so the fields come out in the flattened order, each made from its own leaf at its own position |
| LineFormat.MatchLineComplete | src/utils/fileParser.js:78 | every line of the declared shape matches the expression. The match carries the shape's name and comment, and a value equal to the shape's value once trimmed. |
| LineFormat.MatchLineSound | src/utils/fileParser.js:78 | every line the expression matches has the declared shape, with exactly the captured name, value and comment |
| LineFormat.CommentLinesNeverMatch | src/utils/fileParser.js:73-78 | a blank line, or one whose trimmed text starts with `#`, `;`, `//` or `--`, never matches the expression |
| Parser.SkipIsRedundant | src/utils/fileParser.js:73-80 | the explicit skip of comment lines never changes what a line assigns |
| Parser.LineField | src/utils/fileParser.js:81-91 | A line field's original value is the trimmed captured text, always a string. Its value is that text after inference. It records the line's index, its raw text and the comment. |
| Parser.ParseLineOfShape | src/utils/fileParser.js:78-91 | a line of the declared shape assigns its name a field built from the trimmed value, its index, its raw text and its comment |
| Parser.ParseLineShape | src/utils/fileParser.js:78-91 | a line that assigns something has the declared shape, and its original value is the trimmed value piece |
| Parser.RetriesExample | src/utils/fileParser.js:78-91 | `retries: 3 ; max attempts` assigns `retries` the string `"3"` with the comment `; max attempts` |
| OrderedMaps.PutPresentIsPutAll | src/utils/fileParser.js:72-93 | the line-mode `forEach`, which assigns only on the lines that match, builds the object obtained by making the line assignments in order: a repeated name is overwritten by its later line |
| Parser.AssignmentsOrigin | src/utils/fileParser.js:72-91 | every assignment is the one made by the line at its `lineIndex`, and that line is its `originalLine` |
| Parser.ParseLineRecordsLine | src/utils/fileParser.js:81-91 | a line that assigns records its own index and raw text |
| Parser.ParseTextFields | src/utils/fileParser.js:68-94 | line mode repeats no name. Every field comes from the last line assigning its name, and that line is the field's `originalLine` at its `lineIndex`. |
| Parser.ParseVariablesDistinct | src/utils/fileParser.js:44-97 | the parsed variables never repeat a name, in either mode |
| Editor.ParsedValueDefined | src/utils/fileParser.js:44-97 | every parsed field holds a defined value |
| Editor.Load | src/components/VariableEditor.jsx:13-27 | The load effect runs only when the content differs from the one it last ran for; the same content again changes nothing. An empty content leaves the fields, inputs and commits as they are. Any other new content replaces the fields by the parsed ones, sets every input to its field's parsed value, forgets all commits and clears `hasUpdated`. |
| Editor.ReloadKeepsEdits | src/components/VariableEditor.jsx:13-27 | edits and commits survive a load of the text the editor already shows, as when the same task is fetched again |
| Editor.LoadWellFormed | src/components/VariableEditor.jsx:13-27 | loading keeps the editor invariant: no repeated keys, every commit belongs to a field, every field has a defined value and input, and a field's date is in calendar range |
| Editor.LoadHasNoChanges | src/components/VariableEditor.jsx:13-27 | right after a load of new, non-empty content no field is changed |
| Editor.Edit | src/components/VariableEditor.jsx:29-34 | an input change sets that one input and leaves every other input, the fields and the commits untouched |
| Editor.EditWellFormed | src/components/VariableEditor.jsx:29-34 | an input change to a defined value keeps the editor invariant |
| Editor.EditorParseLocalDate | src/components/VariableEditor.jsx:37-56 | the editor's own date reader yields a date exactly for a text matching the date-prefix pattern |
| Editor.EditorParseAgrees | src/components/VariableEditor.jsx:37-56 | the editor's date reader agrees with the parser's on every value, despite lacking its blank check |
| Editor.NormalizeCanonicalDate | src/components/VariableEditor.jsx:75-91 | a canonical date text normalizes exactly as the date it denotes |
| Editor.NormalizeDatesInjective | src/components/VariableEditor.jsx:75-91 | two in-range dates with four-digit years normalize alike exactly when they are equal |
| Editor.Baseline | src/components/VariableEditor.jsx:99-101 | the baseline is the committed value when one is defined, otherwise the parsed value |
| Editor.FinalValue | src/components/VariableEditor.jsx:119-142 | A change is recorded as the input itself, except for one case. For a date field whose input is a text matching the date-prefix pattern, it is the date read from that text. |
| Editor.ChangesGet | src/components/VariableEditor.jsx:93-147 | the change set holds exactly the fields whose normalized input differs from their normalized baseline, each with its final value, and repeats no key |
| OrderedMaps.PutWhereGet | src/components/VariableEditor.jsx:97-145 | the `forEach` over the field names that assigns only the names with a result holds exactly those names, each with its result, and repeats none |
| Editor.NoChanges | src/components/VariableEditor.jsx:93-155 | the change set is empty exactly when no field is changed |
| Editor.Commit | src/components/VariableEditor.jsx:149-226 | "Update All" reports nothing to update exactly when the change set is empty, and then changes no state. Otherwise it sets `hasUpdated` and exports the new commits. |
| Editor.CommitWorking | src/components/VariableEditor.jsx:157-166 | after an update every changed input holds its final value and every other input is untouched |
| Editor.PruneLookup | src/components/VariableEditor.jsx:168-182 | pruning drops exactly the commits of reverted fields, keeps every other entry, adds no key and keeps keys distinct |
| OrderedMaps.RemoveWhereGet | src/components/VariableEditor.jsx:168-182 | the `forEach` that deletes a key when its entry meets the condition removes exactly the listed keys whose entry meets it and leaves every other lookup as it was |
| Editor.CommitCommitted | src/components/VariableEditor.jsx:157-182 | After an update a reverted field has no commit. A changed field holds its final value. Every other commit is untouched. |
| Editor.RevertDropsCommit | src/components/VariableEditor.jsx:168-182 | editing a committed field back to its parsed value and updating drops its commit |
| Editor.CommitKeepsInvariant | src/components/VariableEditor.jsx:149-186 | an update keeps the editor invariant |
| Editor.FinalValueNormalizes | src/components/VariableEditor.jsx:119-142 | when date inputs are canonical, the recorded form of an input normalizes as the input |
| Editor.CommitSettles | src/components/VariableEditor.jsx:157-186 | after an update on a well-formed editor no field is changed any more, whatever text a date input holds |
| Dates.PrefixOfRendering | src/components/VariableEditor.jsx:37-91 | a date-prefix text that normalizes to the rendering of an in-range date is read back as exactly that date |
| Editor.ExportValue | src/components/VariableEditor.jsx:213-221 | A boolean whose original value is the number 0 or 1 goes back to a number. A date whose original value is a text with a date prefix goes back to ISO text. Every other value passes through. |
| Editor.Export | src/components/VariableEditor.jsx:209-223 | the export has exactly the keys of the commits, in their order |
| Editor.ExportGet | src/components/VariableEditor.jsx:209-223 | every exported value is its commit converted according to its field's original value |
| Editor.ExportRestoresJsonBooleans | src/components/VariableEditor.jsx:215-216 | a boolean read from a JSON 0/1 is exported as a number that infers back to the same boolean; one read from a line stays a boolean |
| Editor.FieldHasChangesAgrees | src/components/VariableEditor.jsx:309-319 | a row's change marker agrees with "Update All" whenever the input is neither undefined nor null |
| Editor.CommitIsUpdated | src/components/VariableEditor.jsx:157-182 | after an update a row's "updated" marker (`updatedFields[name] !== undefined`) is set exactly for fields that were not reverted and either changed or were already marked |
| Item.InputType | src/components/VariableItem.jsx:12-17 | booleans get a checkbox, dates a date-time input, numbers a number input, everything else a text input |
| Item.ItemTypeClass | src/components/VariableItem.jsx:19-24 | the row class is one of the `variable-item--` modifiers |
| Item.TypeClassFollowsInputType | src/components/VariableItem.jsx:19-24 | the row class names the control's kind, and two rows share a class exactly when they share a control type |
| Item.RenderControl | src/components/VariableItem.jsx:48-70 | A boolean field renders a checkbox ticked by `Boolean(currentValue)`. Any other field renders an input of its type showing `formatValueForInput(data.value, currentValue)`. |
| Item.ChangedValue | src/components/VariableItem.jsx:48-67 | a checkbox reports a boolean and every other control its raw text, even a number input |
| Item.CheckboxShowsInput | src/components/VariableItem.jsx:48-60 | a checkbox for a boolean input is ticked exactly when the input is true, so a click hands the editor the negation |
| Item.DisplayedTextNormalizes | src/components/VariableItem.jsx:62-67 | the text a number or text control shows normalizes as the input it shows |
| Item.DisplayedDateNormalizes | src/components/VariableItem.jsx:26-29 | the text a date control shows for a date or a canonical date text normalizes as that input |
| Item.RetypingDisplayKeepsMarker | src/components/VariableItem.jsx:62-67 | typing back exactly what a number, text or date control shows leaves the row's change marker as it was |
| Item.ToggleFlipsMarker | src/components/VariableItem.jsx:48-60 | clicking the checkbox of a boolean field flips its change marker |
| App.Initial | src/App.jsx:7-17 | the page starts with no task, the file name `updated-task.sql`, no job type, no job name, no settings file, no names and no error |
| App.FileSettingOfKnownTypes | src/App.jsx:64-79 | exactly the three known job types select a settings file, each its own |
| App.NamesAfterFetch | src/App.jsx:22-44 | without a settings file, on a failed response or on an error there are no names; an `ok` response yields its body |
| App.FetchNames | src/App.jsx:22-44 | the names become the body of an `ok` answer when a settings file is chosen and are empty otherwise; nothing else changes |
| App.FetchAfterJobTypeChange | src/App.jsx:22-80 | for the fetch that choosing a job type itself starts, names are available only for the three known types and an `ok` answer, and are then exactly the names sent |
| App.Keep | src/App.jsx:51-53 | the kept names are an order-preserving sublist that holds every name containing the query, ignoring case, as often as it occurs, and no other name |
| App.FilterNames | src/App.jsx:46-55 | a blank job name suggests nothing. Otherwise the suggestions are the order-preserving sublist of the available names that contain the job name, ignoring case, each as often as it is available. |
| App.Refilter | src/App.jsx:46-55 | the suggestions become the available names that contain the job name, in order and with their repetitions, and none for a blank name; nothing else changes |
| App.TypedNameIsSuggested | src/App.jsx:46-87 | typing an available name opens the suggestions and offers that name among them |
| App.FilterKeepsExactName | src/App.jsx:46-55 | a non-blank available job name always suggests itself |
| App.FilterIgnoresCase | src/App.jsx:51-53 | the suggestions do not depend on the case of the job name |
| App.JobTypeChange | src/App.jsx:57-80 | Choosing a job type selects its settings file. It clears the job name, the task and the error, and hides the suggestions. |
| App.JobNameChange | src/App.jsx:82-87 | typing sets the job name and clears the error; the suggestions show exactly when the name is not blank; nothing else changes |
| App.SuggestionClick | src/App.jsx:89-94 | clicking a suggestion sets the job name, hides the suggestions and clears the error; nothing else changes |
| App.LoadTask | src/App.jsx:96-128 | Each case of "Load" produces its own message and state. A blank name or a missing settings file gives "Please enter a job name". A name that is not available gives the invalid-name message. A non-blank task sets the task and the file name. A blank task, a failed response and a connection error each give their message and clear the task. |
| App.LoadSucceedsIff | src/App.jsx:96-128 | a load ends without an error exactly when the guards pass and the server returns a non-blank task, and then a non-empty task is shown |
| App.GuardFailureIgnoresOutcome | src/App.jsx:97-104 | when a guard fails nothing is fetched: the result does not depend on the server, the task stays and an error is shown |
| App.FetchFailureClearsTask | src/App.jsx:107-127 | any failed fetch clears the task, keeps the file name and shows an error |
| App.LoadAfterJobTypeChange | src/App.jsx:57-63 | a load requested after a job type change, and before any new job name is typed, is refused with "Please enter a job name" and no task is shown |
| App.SuggestionPassesGuards | src/App.jsx:89-104 | picking a non-blank suggestion while a settings file is selected passes both guards, so the load's result depends on the server alone |

## Left out

- Fetching is not modelled: the requests, their URLs, the loading flags and the `finally` blocks are absent. Each fetch result is an `Outcome` parameter.
- Timing and focus are not modelled: the suggestion list's blur timer, focus handling, keyboard handling and 10-entry limit are absent.
- Side effects and stubs are not modelled: the JSX markup, `console.log`, `alert`, the Generate SQL handler and the presentational `Button` component are absent.
- `JSON.parse` is not modelled: the caller passes the parsed object's members, or `None` when parsing throws. A top-level JSON value that is not an object is not modelled.
- Numbers are integers. Floating point and its `String(n)` formatting are not modelled.
- Object keys keep insertion order. JavaScript's ordering of integer-like keys first is not modelled.
- `Date` values are plain components. Local time zones and rollover of out-of-range components are not modelled, and neither are milliseconds or the invalid-date `NaN` paths. The formatters' `''` result for an invalid date cannot arise.
- `Date.prototype.toString` is not modelled. `String(date)` is taken to be the canonical rendering; only rows whose field is not a date could reach it.
- Coercion.ConvertValue: the hour `24` of an ISO text (`T24:00:00`, which ECMAScript reads as the next day's midnight) and day numbers past the end of the month (which some engines roll over into the next month) are treated as invalid dates, so such texts stay strings.
- Coercion.ConvertValue: a `Z` suffix and milliseconds are accepted as the pattern demands, but the instant is read as local wall-clock time, not converted from UTC.
- Coercion.ConvertDateToString: `toISOString` is the parameter `toIso`, because its result depends on the time zone.
- Editor.Commit: `toISOString` is the same parameter, passed through to the export.
- Editor.Load: the page unmounts the editor while the task text is blank, which discards its state, and mounts a fresh one for the next task. The model keeps one editor state across loads and treats a blank content as leaving it as it is.
- Editor.Baseline: JavaScript objects are read as their own keys only, here and in the pruning of commits. A name inherited from `Object.prototype` (`toString`, `constructor`, `valueOf`, `hasOwnProperty`, …) reads as a function in the source, so `updatedFields[name]` is defined before any commit and the baseline is that function. The model reads such a name as `undefined`.
- Editor.LoadHasNoChanges: the model proves it for every name, but the source keeps the promise only for names that `Object.prototype` does not define. A field named after one of its members (`toString`, say) counts as changed right after a load in the source, because its baseline is the inherited function.
- Parser.ParseTextFields: a line assigning `__proto__` replaces the prototype of the result in the source and creates no field. The model records a field `__proto__` like any other name.
- Parser.ParseJsonFields: a top-level JSON key `__proto__` whose value is not a nested object is lost by the source's assignment into the flattened object, which sets a prototype instead of a key. The model records it as a field. Nested keys such as `a.__proto__` are ordinary keys in both.
- Editor.Export: a committed key without a field would make the source throw when reading its `originalValue`. The model passes the value through instead. `Editor.CommitKeepsInvariant` shows the case cannot arise.
- Item.RetypingDisplayKeepsMarker: stated only for number and text inputs, for date inputs holding in-range dates with four-digit years, and for canonical date texts. An array input or a blank date input does not show a text that normalizes as the input.
- App.FetchNames: each fetch is taken to finish before the next event. In the source nothing cancels or checks a pending request, so a late answer can overwrite later state, for example setting names after the settings file has been cleared.
- App.LoadTask: each load is taken to finish before the next event. In the source a late answer can show a task after the job type or name has changed, and the Load button is never disabled while a request is pending.
- App.FilterNames: `toLowerCase` is modelled on ASCII letters only.
- App.Keep: `toLowerCase` is modelled on ASCII letters only.
