/** The task record of a plan file and its dictionary form. */
module Tasks {
  import opened Basics
  import opened Json

  const PENDING := "pending"
  const IN_PROGRESS := "in_progress"
  const DONE := "done"

  /** `VALID_STATUSES` */
  const VALID_STATUSES: set<string> :=
    {PENDING, IN_PROGRESS, DONE, "failed", "skipped", "blocked", "human_loop"}

  datatype Task = Task(
    id: string,
    phase: string,
    category: string,
    priority: string,
    description: string,
    status: string,
    dependencies: seq<string>,
    keyFiles: seq<string>,
    acceptanceCriteria: seq<string>,
    testSteps: seq<string>,
    prdRequirement: string,
    githubIssue: Option<int>,
    githubUrl: Option<string>,
    jiraKey: Option<string>,
    jiraUrl: Option<string>,
    repoTargetId: string)

  datatype LoadError = InvalidId | MissingField

  predicate IdChar(c: char) {
    || 'A' <= c <= 'Z' || 'a' <= c <= 'z' || '0' <= c <= '9'
    || c == '.' || c == '_' || c == ':' || c == '/' || c == '-'
  }

  /** `validate_task_id` accepts the id */
  predicate ValidId(id: string) {
    && id != ""
    && (forall i :: 0 <= i < |id| - 1 ==> !(id[i] == '.' && id[i + 1] == '.'))
    && (forall i :: 0 <= i < |id| ==> IdChar(id[i]))
  }

  /** The values have the types that the dataclass declares; the id is checked by the code itself. */
  predicate WellTyped(d: map<string, Json>) {
    && ("phase" in d ==> d["phase"].Str?)
    && ("category" in d ==> d["category"].Str?)
    && ("priority" in d ==> d["priority"].Str?)
    && ("description" in d ==> d["description"].Str?)
    && ("status" in d ==> d["status"].Str?)
    && ("dependencies" in d ==> IsStrArr(d["dependencies"]))
    && ("key_files" in d ==> IsStrArr(d["key_files"]))
    && ("acceptance_criteria" in d ==> IsStrArr(d["acceptance_criteria"]))
    && ("test_steps" in d ==> IsStrArr(d["test_steps"]))
    && ("prd_requirement" in d ==> d["prd_requirement"].Str?)
    && ("repo_target_id" in d ==> d["repo_target_id"].Str?)
    && ("github_issue" in d ==> d["github_issue"].Num? || d["github_issue"].Null?)
    && ("github_url" in d ==> IsOptStr(d["github_url"]))
    && ("jira_key" in d ==> IsOptStr(d["jira_key"]))
    && ("jira_url" in d ==> IsOptStr(d["jira_url"]))
  }

  /** `Task.from_dict`: unknown keys are ignored, the id is validated first, absent optional fields get defaults. */
  function FromDict(d: map<string, Json>): Result<Task, LoadError>
    requires WellTyped(d)
  {
    if "id" in d && !(d["id"].Str? && ValidId(d["id"].s)) then Err(InvalidId)
    else if !("id" in d && "phase" in d && "category" in d && "priority" in d && "description" in d && "status" in d)
      then Err(MissingField)
    else
      Ok(Task(
        d["id"].s, d["phase"].s, d["category"].s, d["priority"].s, d["description"].s, d["status"].s,
        ListField(d, "dependencies"), ListField(d, "key_files"),
        ListField(d, "acceptance_criteria"), ListField(d, "test_steps"),
        Get(d, "prd_requirement", Str("")).s,
        IssueField(Get(d, "github_issue", Null)),
        AsOptStr(Get(d, "github_url", Null)),
        AsOptStr(Get(d, "jira_key", Null)),
        AsOptStr(Get(d, "jira_url", Null)),
        Get(d, "repo_target_id", Str("")).s))
  }

  function ListField(d: map<string, Json>, key: string): seq<string>
    requires key in d ==> IsStrArr(d[key])
  {
    if key in d then Strings(d[key]) else []
  }

  function IssueField(j: Json): Option<int>
    requires j.Num? || j.Null?
  {
    if j.Num? then Some(j.n) else None
  }

  /** `result[key] = value` if there is a value */
  function Put(d: map<string, Json>, key: string, value: Option<Json>): map<string, Json> {
    if value.Some? then d[key := value.value] else d
  }

  function Present(o: Option<string>): Option<Json> {
    if o.Some? then Some(Str(o.value)) else None
  }

  /** The fields that are always written */
  function CoreFields(t: Task): map<string, Json> {
    map[
      "id" := Str(t.id),
      "phase" := Str(t.phase),
      "category" := Str(t.category),
      "priority" := Str(t.priority),
      "description" := Str(t.description),
      "status" := Str(t.status),
      "dependencies" := StrArr(t.dependencies),
      "key_files" := StrArr(t.keyFiles),
      "acceptance_criteria" := StrArr(t.acceptanceCriteria),
      "test_steps" := StrArr(t.testSteps),
      "prd_requirement" := Str(t.prdRequirement)]
  }

  /** `Task.to_dict` */
  function ToDict(t: Task): map<string, Json> {
    OptionalFields(t, CoreFields(t))
  }

  /** The external integration fields, written only if they are set */
  function OptionalFields(t: Task, d: map<string, Json>): map<string, Json> {
    var d := Put(d, "github_issue", if t.githubIssue.Some? then Some(Num(t.githubIssue.value)) else None);
    var d := Put(d, "github_url", Present(t.githubUrl));
    var d := Put(d, "jira_key", Present(t.jiraKey));
    var d := Put(d, "jira_url", Present(t.jiraUrl));
    Put(d, "repo_target_id", if t.repoTargetId != "" then Some(Str(t.repoTargetId)) else None)
  }

  predicate OptionalKey(key: string) {
    key == "github_issue" || key == "github_url" || key == "jira_key" || key == "jira_url" || key == "repo_target_id"
  }

  lemma OptionalFieldsKeep(t: Task, d: map<string, Json>, key: string, value: Json)
    requires !OptionalKey(key) && Holds(d, key, value)
    ensures Holds(OptionalFields(t, d), key, value)
  {
  }

  lemma OptionalFieldsSet(t: Task, d: map<string, Json>)
    requires forall key :: OptionalKey(key) ==> key !in d
    ensures HoldsOptional(OptionalFields(t, d), t)
  {
  }

  predicate Holds(d: map<string, Json>, key: string, value: Json) {
    key in d && d[key] == value
  }

  ghost predicate HoldsCore(d: map<string, Json>, t: Task) {
    && Holds(d, "id", Str(t.id))
    && Holds(d, "phase", Str(t.phase))
    && Holds(d, "category", Str(t.category))
    && Holds(d, "priority", Str(t.priority))
    && Holds(d, "description", Str(t.description))
    && Holds(d, "status", Str(t.status))
    && Holds(d, "dependencies", StrArr(t.dependencies))
    && Holds(d, "key_files", StrArr(t.keyFiles))
    && Holds(d, "acceptance_criteria", StrArr(t.acceptanceCriteria))
    && Holds(d, "test_steps", StrArr(t.testSteps))
    && Holds(d, "prd_requirement", Str(t.prdRequirement))
  }

  ghost predicate HoldsOptional(d: map<string, Json>, t: Task) {
    && Get(d, "github_issue", Null) == (if t.githubIssue.Some? then Num(t.githubIssue.value) else Null)
    && Get(d, "github_url", Null) == OptStr(t.githubUrl)
    && Get(d, "jira_key", Null) == OptStr(t.jiraKey)
    && Get(d, "jira_url", Null) == OptStr(t.jiraUrl)
    && Get(d, "repo_target_id", Str("")) == Str(t.repoTargetId)
  }

  lemma CoreFieldsHold(t: Task)
    ensures HoldsCore(CoreFields(t), t)
  {
    hide StrArr;
  }

  lemma CoreFieldsOnly(t: Task)
    ensures forall key :: OptionalKey(key) ==> key !in CoreFields(t)
  {
    hide StrArr;
  }

  lemma OptionalFieldsKeepCore(t: Task, d: map<string, Json>)
    requires HoldsCore(d, t)
    ensures HoldsCore(OptionalFields(t, d), t)
  {
    hide OptionalFields, Holds, StrArr;
    OptionalFieldsKeep(t, d, "id", Str(t.id));
    OptionalFieldsKeep(t, d, "phase", Str(t.phase));
    OptionalFieldsKeep(t, d, "category", Str(t.category));
    OptionalFieldsKeep(t, d, "priority", Str(t.priority));
    OptionalFieldsKeep(t, d, "description", Str(t.description));
    OptionalFieldsKeep(t, d, "status", Str(t.status));
    OptionalFieldsKeep(t, d, "dependencies", StrArr(t.dependencies));
    OptionalFieldsKeep(t, d, "key_files", StrArr(t.keyFiles));
    OptionalFieldsKeep(t, d, "acceptance_criteria", StrArr(t.acceptanceCriteria));
    OptionalFieldsKeep(t, d, "test_steps", StrArr(t.testSteps));
    OptionalFieldsKeep(t, d, "prd_requirement", Str(t.prdRequirement));
  }

  lemma FromHeldFields(d: map<string, Json>, t: Task)
    requires HoldsCore(d, t) && HoldsOptional(d, t)
    ensures WellTyped(d)
    ensures FromDict(d) == if ValidId(t.id) then Ok(t) else Err(InvalidId)
  {
    hide ValidId;
    StringsOfStrArr(t.dependencies);
    StringsOfStrArr(t.keyFiles);
    StringsOfStrArr(t.acceptanceCriteria);
    StringsOfStrArr(t.testSteps);
    hide StrArr, Strings, IsStrArr;
  }

  /** Writing a task out and reading it back gives the task, if its id is one that `from_dict` accepts. */
  lemma DictRoundTrip(t: Task)
    ensures WellTyped(ToDict(t))
    ensures FromDict(ToDict(t)) == if ValidId(t.id) then Ok(t) else Err(InvalidId)
  {
    hide OptionalFields, CoreFields, HoldsCore, HoldsOptional, FromDict, WellTyped;
    CoreFieldsHold(t);
    CoreFieldsOnly(t);
    OptionalFieldsKeepCore(t, CoreFields(t));
    OptionalFieldsSet(t, CoreFields(t));
    FromHeldFields(ToDict(t), t);
  }

  // ----- The two directions, key by key -----

  /** The ids that are let through, as the pattern has them */
  lemma ValidIdIs(id: string)
    ensures ValidId(id) <==>
            id != "" && (forall i :: 0 <= i < |id| ==> !(".." <= id[i..])) && forall c :: c in id ==> InAlphabet(c)
  {
    Alphabet();
    hide IdChar, InAlphabet;
    if ValidId(id) {
      forall i | 0 <= i < |id|
        ensures !(".." <= id[i..])
      {
        TwoDots(id, i);
      }
    }
    if (forall i :: 0 <= i < |id| ==> !(".." <= id[i..])) && forall c :: c in id ==> InAlphabet(c) {
      forall i | 0 <= i < |id|
        ensures i < |id| - 1 ==> !(id[i] == '.' && id[i + 1] == '.')
        ensures IdChar(id[i])
      {
        TwoDots(id, i);
        assert id[i] in id;
      }
    }
  }

  ghost predicate InAlphabet(c: char) {
    c in "ABCDEFGHIJKLMNOPQRSTUVWXYZ" || c in "abcdefghijklmnopqrstuvwxyz" || c in "0123456789" || c in "._:/-"
  }

  lemma Alphabet()
    ensures forall c :: IdChar(c) <==> InAlphabet(c)
  {
  }

  lemma TwoDots(s: string, i: nat)
    requires i < |s|
    ensures ".." <= s[i..] <==> i < |s| - 1 && s[i] == '.' && s[i + 1] == '.'
  {
    if ".." <= s[i..] {
      assert s[i..][0] == ".."[0] && s[i..][1] == ".."[1];
    }
    if i < |s| - 1 && s[i] == '.' && s[i + 1] == '.' {
      assert s[i..][..2] == "..";
    }
  }

  /** The list value holds exactly the strings. */
  predicate HoldsStrings(j: Json, xs: seq<string>) {
    j.Arr? && |j.items| == |xs| && forall i :: 0 <= i < |xs| ==> j.items[i] == Str(xs[i])
  }

  /** What `to_dict` writes, key by key */
  lemma DictIs(t: Task)
    ensures var d := ToDict(t);
            && d.Keys ==
               {"id", "phase", "category", "priority", "description", "status", "dependencies", "key_files",
                "acceptance_criteria", "test_steps", "prd_requirement"}
               + (if t.githubIssue.Some? then {"github_issue"} else {})
               + (if t.githubUrl.Some? then {"github_url"} else {})
               + (if t.jiraKey.Some? then {"jira_key"} else {})
               + (if t.jiraUrl.Some? then {"jira_url"} else {})
               + (if t.repoTargetId != "" then {"repo_target_id"} else {})
            && HoldsCore(d, t) && HoldsOptional(d, t)
  {
    hide OptionalFields, CoreFields, HoldsCore, HoldsOptional;
    CoreFieldsHold(t);
    CoreFieldsOnly(t);
    CoreKeys(t);
    OptionalFieldsKeepCore(t, CoreFields(t));
    OptionalFieldsSet(t, CoreFields(t));
    OptionalKeys(t, CoreFields(t));
  }

  lemma CoreKeys(t: Task)
    ensures CoreFields(t).Keys ==
            {"id", "phase", "category", "priority", "description", "status", "dependencies", "key_files",
             "acceptance_criteria", "test_steps", "prd_requirement"}
  {
    hide StrArr;
  }

  lemma PutKeys(d: map<string, Json>, key: string, value: Option<Json>)
    ensures Put(d, key, value).Keys == d.Keys + if value.Some? then {key} else {}
  {
  }

  lemma OptionalKeys(t: Task, d: map<string, Json>)
    ensures OptionalFields(t, d).Keys ==
            d.Keys
            + (if t.githubIssue.Some? then {"github_issue"} else {})
            + (if t.githubUrl.Some? then {"github_url"} else {})
            + (if t.jiraKey.Some? then {"jira_key"} else {})
            + (if t.jiraUrl.Some? then {"jira_url"} else {})
            + (if t.repoTargetId != "" then {"repo_target_id"} else {})
  {
    hide Put;
    var a := Put(d, "github_issue", if t.githubIssue.Some? then Some(Num(t.githubIssue.value)) else None);
    var b := Put(a, "github_url", Present(t.githubUrl));
    var c := Put(b, "jira_key", Present(t.jiraKey));
    var e := Put(c, "jira_url", Present(t.jiraUrl));
    PutKeys(d, "github_issue", if t.githubIssue.Some? then Some(Num(t.githubIssue.value)) else None);
    PutKeys(a, "github_url", Present(t.githubUrl));
    PutKeys(b, "jira_key", Present(t.jiraKey));
    PutKeys(c, "jira_url", Present(t.jiraUrl));
    PutKeys(e, "repo_target_id", if t.repoTargetId != "" then Some(Str(t.repoTargetId)) else None);
  }

  lemma StrArrHolds(xs: seq<string>)
    ensures HoldsStrings(StrArr(xs), xs)
  {
  }

  /** What `from_dict` returns or raises, key by key */
  lemma ReadDictIs(d: map<string, Json>)
    requires WellTyped(d)
    ensures FromDict(d) == Err(InvalidId) <==> "id" in d && !(d["id"].Str? && ValidId(d["id"].s))
    ensures FromDict(d).Ok? <==>
            && {"id", "phase", "category", "priority", "description", "status"} <= d.Keys
            && d["id"].Str? && ValidId(d["id"].s)
    ensures FromDict(d).Ok? ==>
              var t := FromDict(d).value;
              && d["id"] == Str(t.id) && d["phase"] == Str(t.phase) && d["category"] == Str(t.category)
              && d["priority"] == Str(t.priority) && d["description"] == Str(t.description)
              && d["status"] == Str(t.status)
              && (if "dependencies" in d then HoldsStrings(d["dependencies"], t.dependencies) else t.dependencies == [])
              && (if "key_files" in d then HoldsStrings(d["key_files"], t.keyFiles) else t.keyFiles == [])
              && (if "acceptance_criteria" in d then HoldsStrings(d["acceptance_criteria"], t.acceptanceCriteria)
                  else t.acceptanceCriteria == [])
              && (if "test_steps" in d then HoldsStrings(d["test_steps"], t.testSteps) else t.testSteps == [])
              && Str(t.prdRequirement) == (if "prd_requirement" in d then d["prd_requirement"] else Str(""))
              && Str(t.repoTargetId) == (if "repo_target_id" in d then d["repo_target_id"] else Str(""))
              && (match t.githubIssue case None => Null case Some(n) => Num(n))
                 == (if "github_issue" in d then d["github_issue"] else Null)
  {
    hide ValidId;
    if FromDict(d).Ok? {
      ListFieldHolds(d, "dependencies");
      ListFieldHolds(d, "key_files");
      ListFieldHolds(d, "acceptance_criteria");
      ListFieldHolds(d, "test_steps");
    }
    hide ListField, HoldsStrings, IsStrArr;
  }

  lemma ListFieldHolds(d: map<string, Json>, key: string)
    requires key in d ==> IsStrArr(d[key])
    ensures if key in d then HoldsStrings(d[key], ListField(d, key)) else ListField(d, key) == []
  {
  }
}
