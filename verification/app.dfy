/**
 The page around the editor (`App`): choosing a job type selects the
 settings file, the names of that file are fetched, the job-name box filters
 them into suggestions, and "Load" fetches the task text that the editor
 then parses. Every network exchange is a parameter: the outcome the server
 (or the connection) produced.
 */
module App {
  import opened Text

  datatype AppState = AppState(
    taskData: string,
    fileName: string,
    jobType: string,
    jobName: string,
    fileSetting: string,
    availableNames: seq<string>,
    filteredNames: seq<string>,
    showSuggestions: bool,
    loadError: string)

  /** The page as first rendered. */
  function Initial(): (s: AppState)
    ensures s.taskData == "" && s.fileName == "updated-task.sql" && s.loadError == ""
    ensures s.fileSetting == "" && s.availableNames == [] && s.filteredNames == [] && !s.showSuggestions
    ensures s.jobType == "" && s.jobName == ""
  {
    AppState("", "updated-task.sql", "", "", "", [], [], false, "")
  }

  /** The outcome of a `fetch`: a response with `ok` set and its body, a
      response without `ok` and its `statusText`, or a thrown error. */
  datatype Outcome<T> = Ok(body: T) | NotOk(statusText: string) | ConnectionFailed

  /** The settings file of each job type; `''` for any other selection. */
  function FileSettingFor(jobType: string): string
  {
    if jobType == "Data Extract" then "data_extract_settings.json"
    else if jobType == "Data Load" then "data_load_settings.json"
    else if jobType == "File Delivery" then "file_delivery_settings.json"
    else ""
  }

  /** Exactly the three known job types select a settings file, each its
      own. */
  lemma FileSettingOfKnownTypes(t: string, u: string)
    ensures FileSettingFor(t) != "" <==> t in ["Data Extract", "Data Load", "File Delivery"]
    ensures FileSettingFor(t) != "" && FileSettingFor(t) == FileSettingFor(u) ==> t == u
  {
  }

  /** `fetchTaskNames`: the names in the body of an `ok` response, and no
      names without a settings file, on a failed response or on an error. */
  function NamesAfterFetch(fileSetting: string, outcome: Outcome<seq<string>>): (names: seq<string>)
    ensures fileSetting == "" ==> names == []
    ensures fileSetting != "" && outcome.Ok? ==> names == outcome.body
    ensures !outcome.Ok? ==> names == []
  {
    if fileSetting == "" then []
    else match outcome
      case Ok(names) => names
      case NotOk(_) => []
      case ConnectionFailed => []
  }

  /** The names-fetching effect, run whenever the settings file changes:
      the available names become the body of an `ok` answer for a chosen
      settings file, and no names otherwise; nothing else changes. */
  function FetchNames(s: AppState, outcome: Outcome<seq<string>>): (r: AppState)
    ensures r.availableNames == if s.fileSetting != "" && outcome.Ok? then outcome.body else []
    ensures r.(availableNames := s.availableNames) == s
  {
    s.(availableNames := NamesAfterFetch(s.fileSetting, outcome))
  }

  /** `name.toLowerCase().includes(query.toLowerCase())`. */
  predicate Matches(name: string, query: string)
  {
    Contains(Lower(name), Lower(query))
  }

  /** `t` is `s` with some elements left out, the rest in the same order. */
  predicate IsSubsequence(t: seq<string>, s: seq<string>)
  {
    t == [] || (s != [] && ((t[0] == s[0] && IsSubsequence(t[1..], s[1..])) || IsSubsequence(t, s[1..])))
  }

  /** The names that match, in their order, each as often as it occurs. */
  function Keep(names: seq<string>, query: string): (r: seq<string>)
    ensures IsSubsequence(r, names)
    ensures forall n :: n in r <==> n in names && Matches(n, query)
    ensures forall n :: multiset(r)[n] == if Matches(n, query) then multiset(names)[n] else 0
  {
    if names == [] then []
    else
      assert names == [names[0]] + names[1..];
      if Matches(names[0], query) then [names[0]] + Keep(names[1..], query)
      else Keep(names[1..], query)
  }

  /** The filtering effect: no suggestion for a blank job name, otherwise
      the available names that contain it, ignoring ASCII case. */
  function FilterNames(names: seq<string>, jobName: string): (r: seq<string>)
    ensures Trim(jobName) == "" ==> r == []
    ensures IsSubsequence(r, names)
    ensures Trim(jobName) != "" ==> forall n :: n in r <==> n in names && Matches(n, jobName)
    ensures Trim(jobName) != "" ==>
              forall n :: multiset(r)[n] == if Matches(n, jobName) then multiset(names)[n] else 0
  {
    if Trim(jobName) == "" then [] else Keep(names, jobName)
  }

  /** The filtering effect applied to the page: the suggestions are the
      available names that contain the job name, kept in order and with
      their repetitions, and none for a blank job name; nothing else
      changes. */
  function Refilter(s: AppState): (r: AppState)
    ensures Trim(s.jobName) == "" ==> r.filteredNames == []
    ensures IsSubsequence(r.filteredNames, s.availableNames)
    ensures Trim(s.jobName) != "" ==>
              forall n :: multiset(r.filteredNames)[n] == if Matches(n, s.jobName) then multiset(s.availableNames)[n] else 0
    ensures r.(filteredNames := s.filteredNames) == s
  {
    s.(filteredNames := FilterNames(s.availableNames, s.jobName))
  }

  lemma {:induction false} LowerIdempotent(s: string)
    ensures Lower(Lower(s)) == Lower(s)
  {
    var l := Lower(s);
    forall k | 0 <= k < |s|
      ensures Lower(l)[k] == l[k]
    {
    }
  }

  /** A non-blank job name always suggests itself when it is an available
      name. */
  lemma FilterKeepsExactName(names: seq<string>, jobName: string)
    requires Trim(jobName) != "" && jobName in names
    ensures jobName in FilterNames(names, jobName)
  {
    assert StartsWith(Lower(jobName), Lower(jobName));
  }

  /** Typing an available name opens the suggestions and offers that name
      among them. */
  lemma TypedNameIsSuggested(s: AppState, value: string)
    requires Trim(value) != "" && value in s.availableNames
    ensures JobNameChange(s, value).showSuggestions
    ensures value in Refilter(JobNameChange(s, value)).filteredNames
  {
    FilterKeepsExactName(s.availableNames, value);
  }

  /** The suggestions do not depend on the case of the job name. */
  lemma {:induction false} FilterIgnoresCase(names: seq<string>, jobName: string)
    ensures FilterNames(names, Lower(jobName)) == FilterNames(names, jobName)
  {
    var l := Lower(jobName);
    assert AllSpace(l) <==> AllSpace(jobName) by {
      forall k | 0 <= k < |l|
        ensures IsSpace(l[k]) <==> IsSpace(jobName[k])
      {
      }
    }
    KeepIgnoresCase(names, jobName);
  }

  lemma {:induction false} KeepIgnoresCase(names: seq<string>, query: string)
    ensures Keep(names, Lower(query)) == Keep(names, query)
  {
    LowerIdempotent(query);
    if names != [] {
      KeepIgnoresCase(names[1..], query);
    }
  }

  /** `handleJobTypeChange`: selects the job type and its settings file and
      clears the job name, the loaded task, the error and the suggestion
      list. */
  function JobTypeChange(s: AppState, selected: string): (r: AppState)
    ensures r.jobType == selected && r.fileSetting == FileSettingFor(selected)
    ensures r.jobName == "" && r.taskData == "" && r.loadError == "" && !r.showSuggestions
    ensures r.fileName == s.fileName && r.availableNames == s.availableNames && r.filteredNames == s.filteredNames
  {
    s.(jobType := selected, jobName := "", taskData := "", loadError := "", showSuggestions := false,
       fileSetting := FileSettingFor(selected))
  }

  /** After a new job type is chosen, names are available only when the
      type is one of the three known ones and the server answered `ok`,
      and then they are exactly the names it sent. */
  lemma FetchAfterJobTypeChange(s: AppState, selected: string, outcome: Outcome<seq<string>>)
    ensures var r := FetchNames(JobTypeChange(s, selected), outcome);
            r.availableNames == if selected in ["Data Extract", "Data Load", "File Delivery"] && outcome.Ok? then outcome.body else []
  {
    FileSettingOfKnownTypes(selected, selected);
  }

  /** `handleJobNameChange`: the suggestions open exactly when the name is
      not blank. */
  function JobNameChange(s: AppState, value: string): (r: AppState)
    ensures r.jobName == value && r.loadError == ""
    ensures r.showSuggestions <==> Trim(value) != ""
    ensures r.(jobName := s.jobName, showSuggestions := s.showSuggestions, loadError := s.loadError) == s
  {
    s.(jobName := value, showSuggestions := |Trim(value)| > 0, loadError := "")
  }

  /** `handleSuggestionClick`. */
  function SuggestionClick(s: AppState, suggestion: string): (r: AppState)
    ensures r.jobName == suggestion && !r.showSuggestions && r.loadError == ""
    ensures r.(jobName := s.jobName, showSuggestions := s.showSuggestions, loadError := s.loadError) == s
  {
    s.(jobName := suggestion, showSuggestions := false, loadError := "")
  }

  const EmptyNameError: string := "Please enter a job name"
  const ConnectionError: string := "Failed to connect to the server. Please check your connection."

  function InvalidNameError(jobName: string): string
  {
    "\"" + jobName + "\" is not a valid job name. Please select from the suggestions."
  }

  function NoDataError(jobName: string): string
  {
    "No task data found for \"" + jobName + "\""
  }

  function FailedLoadError(statusText: string): string
  {
    "Failed to load task data: " + statusText
  }

  /** The two checks made before anything is fetched. */
  predicate PassesGuards(s: AppState)
  {
    Trim(s.jobName) != "" && s.fileSetting != "" && s.jobName in s.availableNames
  }

  /** `handleLoadTask`, given the outcome of the task fetch. */
  function LoadTask(s: AppState, outcome: Outcome<string>): (r: AppState)
    ensures Trim(s.jobName) == "" || s.fileSetting == "" ==> r == s.(loadError := EmptyNameError)
    ensures Trim(s.jobName) != "" && s.fileSetting != "" && s.jobName !in s.availableNames ==>
              r == s.(loadError := InvalidNameError(s.jobName))
    ensures PassesGuards(s) && outcome.Ok? && Trim(outcome.body) != "" ==>
              r == s.(taskData := outcome.body, fileName := s.jobName + ".sql", loadError := "")
    ensures PassesGuards(s) && outcome.Ok? && Trim(outcome.body) == "" ==>
              r == s.(taskData := "", loadError := NoDataError(s.jobName))
    ensures PassesGuards(s) && outcome.NotOk? ==> r == s.(taskData := "", loadError := FailedLoadError(outcome.statusText))
    ensures PassesGuards(s) && outcome.ConnectionFailed? ==> r == s.(taskData := "", loadError := ConnectionError)
  {
    if Trim(s.jobName) == "" || s.fileSetting == "" then s.(loadError := EmptyNameError)
    else if s.jobName !in s.availableNames then s.(loadError := InvalidNameError(s.jobName))
    else match outcome
      case Ok(text) =>
        if Trim(text) != "" then s.(taskData := text, fileName := s.jobName + ".sql", loadError := "")
        else s.(loadError := NoDataError(s.jobName), taskData := "")
      case NotOk(statusText) => s.(loadError := FailedLoadError(statusText), taskData := "")
      case ConnectionFailed => s.(loadError := ConnectionError, taskData := "")
  }

  /** A load ends without an error exactly when the guards pass and the
      server returns a non-blank task; only then is a task (non-empty, so
      the editor parses it) shown. */
  lemma LoadSucceedsIff(s: AppState, outcome: Outcome<string>)
    ensures LoadTask(s, outcome).loadError == "" <==> PassesGuards(s) && outcome.Ok? && Trim(outcome.body) != ""
    ensures LoadTask(s, outcome).loadError == "" ==> LoadTask(s, outcome).taskData != ""
  {
  }

  /** When a guard fails nothing is fetched: the outcome is irrelevant and
      the task already shown stays. */
  lemma GuardFailureIgnoresOutcome(s: AppState, o1: Outcome<string>, o2: Outcome<string>)
    requires !PassesGuards(s)
    ensures LoadTask(s, o1) == LoadTask(s, o2)
    ensures LoadTask(s, o1).taskData == s.taskData && LoadTask(s, o1).loadError != ""
  {
  }

  /** A fetch that fails in any way clears the task and keeps the file
      name. */
  lemma FetchFailureClearsTask(s: AppState, outcome: Outcome<string>)
    requires PassesGuards(s)
    requires !(outcome.Ok? && Trim(outcome.body) != "")
    ensures LoadTask(s, outcome).taskData == "" && LoadTask(s, outcome).fileName == s.fileName
    ensures LoadTask(s, outcome).loadError != ""
  {
  }

  /** Right after a new job type is chosen a load is refused, whatever the
      server would answer. */
  lemma LoadAfterJobTypeChange(s: AppState, selected: string, outcome: Outcome<string>)
    ensures LoadTask(JobTypeChange(s, selected), outcome).loadError == EmptyNameError
    ensures LoadTask(JobTypeChange(s, selected), outcome).taskData == ""
  {
  }

  /** Picking a non-blank suggestion and loading passes both guards, so the
      result depends on the server alone. */
  lemma SuggestionPassesGuards(s: AppState, suggestion: string, outcome: Outcome<string>)
    requires s.fileSetting != "" && Trim(suggestion) != ""
    requires suggestion in FilterNames(s.availableNames, s.jobName)
    ensures PassesGuards(SuggestionClick(s, suggestion))
    ensures LoadTask(SuggestionClick(s, suggestion), outcome).loadError == ""
            <==> outcome.Ok? && Trim(outcome.body) != ""
  {
    LoadSucceedsIff(SuggestionClick(s, suggestion), outcome);
  }
}
