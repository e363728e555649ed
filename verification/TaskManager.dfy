/** `TaskManager`: the task list of a plan file, its status changes and its reloads and saves. */
module TaskManager {
  import opened Basics
  import opened Json
  import opened Tasks
  import opened AtomicFile
  import opened StableSort
  import opened Counting

  // ----- What the methods compute, on values -----

  /** `PRIORITY_ORDER.get(priority, 99)` */
  function PriorityRank(priority: string): int {
    if priority == "critical" then 0
    else if priority == "high" then 1
    else if priority == "medium" then 2
    else if priority == "low" then 3
    else 99
  }

  /** The order of ready tasks: by priority, then phase. */
  predicate ReadyLe(a: Task, b: Task) {
    RankedLe(PriorityRank(a.priority), a.phase, PriorityRank(b.priority), b.phase)
  }

  function DoneIds(ts: seq<Task>): set<string> {
    set t | t in ts && t.status == DONE :: t.id
  }

  predicate IsReady(t: Task, done: set<string>) {
    t.status == PENDING && forall d :: d in t.dependencies ==> d in done
  }

  function ReadyIn(ts: seq<Task>, done: set<string>): seq<Task> {
    if ts == [] then []
    else (if IsReady(ts[0], done) then [ts[0]] else []) + ReadyIn(ts[1..], done)
  }

  function ReadyTasks(ts: seq<Task>): seq<Task> {
    Sort(ReadyLe, ReadyIn(ts, DoneIds(ts)))
  }

  function Marked(t: Task, ids: set<string>, status: string): Task {
    if t.id in ids then t.(status := status) else t
  }

  /** The statuses of the given ids replaced */
  function Mark(ts: seq<Task>, ids: set<string>, status: string): seq<Task> {
    seq(|ts|, i requires 0 <= i < |ts| => Marked(ts[i], ids, status))
  }

  datatype Transition = Transition(task: Task, old_: string, new_: string)

  /** The status changes `Mark` makes, in list order */
  function Transitions(ts: seq<Task>, ids: set<string>, status: string): seq<Transition> {
    if ts == [] then []
    else
      var last := ts[|ts| - 1];
      Transitions(ts[..|ts| - 1], ids, status)
      + if last.id in ids && last.status != status
        then [Transition(last.(status := status), last.status, status)] else []
  }

  predicate Stale(t: Task) {
    t.status == IN_PROGRESS
  }

  function Unstale(t: Task): Task {
    if Stale(t) then t.(status := PENDING) else t
  }

  /** Every in-progress task pending again */
  function ResetStale(ts: seq<Task>): seq<Task> {
    seq(|ts|, i requires 0 <= i < |ts| => Unstale(ts[i]))
  }

  // ----- Plan documents -----

  datatype PlanError = BadShape | BadTask(error: LoadError)

  /** The task entries have the declared types. */
  predicate TypedPlan(doc: Json) {
    doc.Obj? && "tasks" in doc.fields && doc.fields["tasks"].Arr? ==>
      TypedTasks(doc.fields["tasks"].items)
  }

  predicate TypedTasks(items: seq<Json>) {
    forall i :: 0 <= i < |items| && items[i].Obj? ==> WellTyped(items[i].fields)
  }

  /** `[Task.from_dict(t) for t in items]`: the first entry that is refused decides. */
  function TasksFrom(items: seq<Json>): Result<seq<Task>, PlanError>
    requires TypedTasks(items)
  {
    if items == [] then Ok([])
    else if !items[0].Obj? then Err(BadShape)
    else
      match FromDict(items[0].fields)
      case Err(e) => Err(BadTask(e))
      case Ok(t) =>
        match TasksFrom(items[1..])
        case Err(e) => Err(e)
        case Ok(ts) => Ok([t] + ts)
  }

  /** The tasks of `data.get("tasks", [])` */
  function ParsePlan(doc: Json): Result<seq<Task>, PlanError>
    requires TypedPlan(doc)
  {
    if !doc.Obj? then Err(BadShape)
    else
      var items := Get(doc.fields, "tasks", Arr([]));
      if !items.Arr? then Err(BadShape) else TasksFrom(items.items)
  }

  function DictsOf(ts: seq<Task>): seq<Json> {
    if ts == [] then [] else [Obj(ToDict(ts[0]))] + DictsOf(ts[1..])
  }

  /** The document `save` writes */
  function PlanDocument(fields: map<string, Json>, ts: seq<Task>): Json {
    Obj(fields["tasks" := Arr(DictsOf(ts))])
  }

  ghost predicate ValidIds(ts: seq<Task>) {
    forall t :: t in ts ==> ValidId(t.id)
  }

  lemma SameIdsValid(a: seq<Task>, b: seq<Task>)
    requires ValidIds(a) && |a| == |b| && forall i :: 0 <= i < |a| ==> b[i].id == a[i].id
    ensures ValidIds(b)
  {
    forall t | t in b
      ensures ValidId(t.id)
    {
      var i :| 0 <= i < |b| && b[i] == t;
      assert a[i] in a;
    }
  }

  lemma {:induction false} TasksFromDicts(ts: seq<Task>)
    requires ValidIds(ts)
    ensures TypedTasks(DictsOf(ts)) && TasksFrom(DictsOf(ts)) == Ok(ts)
  {
    hide ToDict, FromDict, WellTyped, ValidId;
    if ts != [] {
      DictRoundTrip(ts[0]);
      TasksFromDicts(ts[1..]);
      var items := DictsOf(ts);
      assert items[1..] == DictsOf(ts[1..]) && ts == [ts[0]] + ts[1..];
      assert forall i :: 1 <= i < |items| ==> items[i] == items[1..][i - 1];
    }
  }

  /** A saved plan reads back with the same tasks and keeps every other top-level key. */
  lemma SaveReload(fields: map<string, Json>, ts: seq<Task>)
    requires ValidIds(ts)
    ensures var doc := PlanDocument(fields, ts);
            && TypedPlan(doc) && ParsePlan(doc) == Ok(ts)
            && doc.fields - {"tasks"} == fields - {"tasks"}
  {
    hide TasksFrom, DictsOf, TypedTasks, ValidIds, FromDict;
    TasksFromDicts(ts);
    assert Get(fields["tasks" := Arr(DictsOf(ts))], "tasks", Arr([])) == Arr(DictsOf(ts));
  }

  /** Reading only accepts tasks with valid ids. */
  lemma {:induction false} ParsedIdsValid(items: seq<Json>)
    requires TypedTasks(items)
    ensures TasksFrom(items).Ok? ==> ValidIds(TasksFrom(items).value)
  {
    hide ToDict, WellTyped, ValidId;
    if items != [] {
      ParsedIdsValid(items[1..]);
    }
  }

  lemma ParsedPlanValid(doc: Json)
    requires TypedPlan(doc) && ParsePlan(doc).Ok?
    ensures ValidIds(ParsePlan(doc).value)
  {
    hide ValidIds;
    ParsedIdsValid(Get(doc.fields, "tasks", Arr([])).items);
  }

  /** What reading a list of entries gives: one task per entry, or the error of the first entry that has one. */
  lemma {:induction false} TasksFromIs(items: seq<Json>)
    requires TypedTasks(items)
    ensures TasksFrom(items).Ok? ==>
              var ts := TasksFrom(items).value;
              |ts| == |items| && forall i :: 0 <= i < |items| ==> items[i].Obj? && FromDict(items[i].fields) == Ok(ts[i])
    ensures TasksFrom(items).Err? ==>
              exists k :: 0 <= k < |items| && IsError(items[k], TasksFrom(items).error)
                          && forall i :: 0 <= i < k ==> items[i].Obj? && FromDict(items[i].fields).Ok?
  {
    hide FromDict, WellTyped;
    if items != [] && items[0].Obj? && FromDict(items[0].fields).Ok? {
      var rest := items[1..];
      TasksFromIs(rest);
      assert forall i :: 1 <= i < |items| ==> items[i] == rest[i - 1];
      if TasksFrom(rest).Err? {
        var k :| 0 <= k < |rest| && IsError(rest[k], TasksFrom(rest).error)
                 && forall i :: 0 <= i < k ==> rest[i].Obj? && FromDict(rest[i].fields).Ok?;
        assert items[k + 1] == rest[k];
      }
    }
  }

  predicate IsError(item: Json, e: PlanError)
    requires item.Obj? ==> WellTyped(item.fields)
  {
    if item.Obj? then FromDict(item.fields).Err? && e == BadTask(FromDict(item.fields).error) else e == BadShape
  }

  /** What is written: every key of the document but `tasks`, and under `tasks` the dictionaries in order. */
  lemma {:induction false} DictsAre(ts: seq<Task>)
    ensures |DictsOf(ts)| == |ts| && forall i :: 0 <= i < |ts| ==> DictsOf(ts)[i] == Obj(ToDict(ts[i]))
  {
    hide ToDict;
    if ts != [] {
      DictsAre(ts[1..]);
    }
  }

  lemma TruthyIs(j: Json)
    ensures !Truthy(j) <==>
            j == Null || j == Bool(false) || j == Num(0) || j == Str("") || j == Arr([]) || j == Obj(map[])
  {
  }

  /** `bool(value)` */
  predicate Truthy(j: Json) {
    match j
    case Null => false
    case Bool(b) => b
    case Num(n) => n != 0
    case Str(s) => s != ""
    case Arr(items) => items != []
    case Obj(fields) => fields != map[]
  }

  // ----- The object -----

  /** One attempt to read the plan file */
  datatype Read = Unreadable | Readable(content: Content)

  /** The attempt yields a document. */
  predicate Found(r: Read) {
    r.Readable? && r.content.Document?
  }

  /** The bytes are not UTF-8, as those of a file read in the middle of a write may be. */
  predicate Garbled(r: Read) {
    r.Readable? && r.content.Undecodable?
  }

  /** The first attempt that ends the loop: `|seen|` if all of them are retried */
  function LastAttempt(seen: seq<Read>): (k: nat)
    ensures k <= |seen| && (k < |seen| ==> Found(seen[k]) || Garbled(seen[k]))
    ensures forall i :: 0 <= i < k ==> !Found(seen[i]) && !Garbled(seen[i])
  {
    if seen == [] || Found(seen[0]) || Garbled(seen[0]) then 0 else 1 + LastAttempt(seen[1..])
  }

  datatype ReloadResult = Loaded | KeptSnapshot | ReloadFailed

  datatype Snapshot = Snapshot(data: Json, tasks: seq<Task>)

  predicate TypedReads(seen: seq<Read>) {
    forall i :: 0 <= i < |seen| && Found(seen[i]) ==> TypedPlan(seen[i].content.json)
  }

  /** There is a last good snapshot. */
  predicate Good(s: Snapshot) {
    s.tasks != [] || Truthy(s.data)
  }

  /** What `reload` returns or raises, and the snapshot it leaves */
  function Reloaded(s: Snapshot, seen: seq<Read>): (ReloadResult, Snapshot)
    requires TypedReads(seen)
  {
    var k := LastAttempt(seen);
    if k == |seen| then (if Good(s) then KeptSnapshot else ReloadFailed, s)
    else if Garbled(seen[k]) then (ReloadFailed, s)
    else
      var doc := seen[k].content.json;
      match ParsePlan(doc)
      case Ok(ts) => (Loaded, Snapshot(doc, ts))
      case Err(_) => (ReloadFailed, Snapshot(doc, s.tasks))
  }

  /** When a manager that has a good snapshot survives a reload: exactly if no attempt yields bytes that are not UTF-8
      before one yields a document, and the tasks of the first document are accepted. */
  lemma SurvivesIff(s: Snapshot, seen: seq<Read>)
    requires TypedReads(seen) && Good(s)
    ensures !Reloaded(s, seen).0.ReloadFailed? <==>
            && (forall i :: 0 <= i < |seen| && Garbled(seen[i]) ==> exists j :: 0 <= j < i && Found(seen[j]))
            && (forall i | 0 <= i < |seen| && Found(seen[i]) && (forall j :: 0 <= j < i ==> !Found(seen[j]))
                  :: ParsePlan(seen[i].content.json).Ok?)
  {
    hide ParsePlan, Truthy, TypedPlan;
    var k := LastAttempt(seen);
    if k < |seen| {
      if Garbled(seen[k]) {
        assert !exists j :: 0 <= j < k && Found(seen[j]);
      } else {
        assert Found(seen[k]) && forall j :: 0 <= j < k ==> !Found(seen[j]);
      }
    }
  }

  /** What a reload does, attempt by attempt: unreadable files and text that is not JSON are passed over; the first other
      attempt decides; if there is none, a good snapshot is kept. */
  lemma ReloadedIs(s: Snapshot, seen: seq<Read>)
    requires TypedReads(seen)
    ensures (forall i :: 0 <= i < |seen| ==> seen[i] == Unreadable || seen[i] == Readable(NotJson)) ==>
              Reloaded(s, seen) == (if s.tasks != [] || Truthy(s.data) then KeptSnapshot else ReloadFailed, s)
    ensures forall k | 0 <= k < |seen| && seen[k] != Unreadable && seen[k] != Readable(NotJson)
              && (forall i :: 0 <= i < k ==> seen[i] == Unreadable || seen[i] == Readable(NotJson)) ::
              if seen[k] == Readable(Undecodable) then Reloaded(s, seen) == (ReloadFailed, s)
              else
                var doc := seen[k].content.json;
                Reloaded(s, seen) ==
                match ParsePlan(doc)
                case Ok(ts) => (Loaded, Snapshot(doc, ts))
                case Err(_) => (ReloadFailed, Snapshot(doc, s.tasks))
  {
    hide ParsePlan, Truthy, TypedPlan, LastAttempt, Found, Garbled;
    var n := LastAttempt(seen);
    forall i | 0 <= i < |seen| { PassedOver(seen[i]); }
  }

  lemma PassedOver(r: Read)
    ensures !Found(r) && !Garbled(r) <==> r == Unreadable || r == Readable(NotJson)
    ensures Garbled(r) <==> r == Readable(Undecodable)
  {
  }

  // ----- Status changes, task by task -----

  /** What `mark_status` makes of a list: the named tasks have the new status, and nothing else has changed. */
  ghost predicate StatusSet(before: seq<Task>, ids: set<string>, status: string, after: seq<Task>) {
    && |after| == |before|
    && forall i :: 0 <= i < |before| ==> after[i] == if before[i].id in ids then before[i].(status := status) else before[i]
  }

  lemma MarkedTasks(ts: seq<Task>, ids: set<string>, status: string)
    ensures StatusSet(ts, ids, status, Mark(ts, ids, status))
  {
  }

  /** The transitions of a list are those of its parts, in order; a task gives one exactly if it is named and its status
      changes. */
  lemma {:induction false} TransitionsPartByPart(a: seq<Task>, b: seq<Task>, ids: set<string>, status: string, t: Task)
    ensures Transitions(a + b, ids, status) == Transitions(a, ids, status) + Transitions(b, ids, status)
    ensures Transitions([t], ids, status) ==
            if t.id in ids && t.status != status then [Transition(t.(status := status), t.status, status)] else []
  {
    assert [t][..0] == [];
    if b == [] {
      assert a + b == a;
    } else {
      var front, last := b[..|b| - 1], b[|b| - 1];
      TransitionsPartByPart(a, front, ids, status, t);
      assert (a + b)[..|a + b| - 1] == a + front;
      Associate(Transitions(a, ids, status), Transitions(front, ids, status),
                if last.id in ids && last.status != status
                then [Transition(last.(status := status), last.status, status)] else []);
    }
  }

  lemma ResetTasks(ts: seq<Task>)
    ensures |ResetStale(ts)| == |ts|
    ensures forall i :: 0 <= i < |ts| ==>
                          ResetStale(ts)[i] == if ts[i].status == "in_progress" then ts[i].(status := "pending") else ts[i]
    ensures Count(Stale, ts) == |set i | 0 <= i < |ts| && ts[i].status == "in_progress"|
  {
    CountAt(Stale, ts, set i | 0 <= i < |ts| && ts[i].status == "in_progress");
  }

  lemma StatusesAre()
    ensures VALID_STATUSES == {"pending", "in_progress", "done", "failed", "skipped", "blocked", "human_loop"}
  {
  }

  class TaskManager {
    const path: string
    const disk: Disk
    var data: Json
    var tasks: seq<Task>

    ghost predicate Valid()
      reads this
    {
      ValidIds(tasks)
    }

    ghost function State(): Snapshot
      reads this
    {
      Snapshot(data, tasks)
    }

    /** The constructor up to its call of `reload` */
    constructor (path: string, disk: Disk)
      ensures Valid() && this.path == path && this.disk == disk
      ensures State() == Snapshot(Obj(map[]), [])
    {
      this.path := path;
      this.disk := disk;
      data := Obj(map[]);
      tasks := [];
    }

    /** `TaskManager(path)`: there is no object if the first `reload` raises. */
    static method Open(path: string, disk: Disk, seen: seq<Read>) returns (m: Option<TaskManager>)
      requires |seen| == 5 && TypedReads(seen)
      ensures m.Some? <==> Reloaded(Snapshot(Obj(map[]), []), seen).0.Loaded?
      ensures m.Some? ==>
                && fresh(m.value) && m.value.Valid() && m.value.path == path && m.value.disk == disk
                && m.value.State() == Reloaded(Snapshot(Obj(map[]), []), seen).1
    {
      var manager := new TaskManager(path, disk);
      var r := manager.Reload(seen);
      return if r.ReloadFailed? then None else Some(manager);
    }

    /** Five attempts, then the last good snapshot if there is one.  Only read errors and text that is not JSON are
        retried: bytes that are not UTF-8 and entries that `from_dict` refuses raise at once, the latter with the new
        document in `data` and the old task list. */
    method Reload(seen: seq<Read>) returns (r: ReloadResult)
      requires Valid() && |seen| == 5 && TypedReads(seen)
      modifies this
      ensures Valid() && (r, State()) == Reloaded(old(State()), seen)
    {
      hide ParsePlan, ValidIds, Truthy;
      var attempt := 0;
      while attempt < 5
        invariant attempt <= 5 && attempt <= LastAttempt(seen)
        invariant data == old(data) && tasks == old(tasks)
      {
        var read := seen[attempt];
        if Garbled(read) {
          return ReloadFailed;
        }
        if Found(read) {
          data := read.content.json;
          var parsed := ParsePlan(data);
          if parsed.Err? {
            return ReloadFailed;
          }
          ParsedPlanValid(data);
          tasks := parsed.value;
          return Loaded;
        }
        attempt := attempt + 1;
      }
      if tasks != [] || Truthy(data) {
        return KeptSnapshot;
      }
      return ReloadFailed;
    }

    /** A completed save followed by a reload of the same file gives back equal tasks and every other top-level key. */
    method SaveThenReload(tmp: string, call: Call -> Outcome) returns (saved: Ending, r: Option<ReloadResult>)
      requires Valid() && data.Obj? && tmp != path && tmp !in disk.files
      modifies this, disk
      ensures Valid() && tasks == old(tasks)
      ensures saved.Saved? <==> r.Some?
      ensures r.Some? ==> r == Some(Loaded) && data.Obj? && data.fields - {"tasks"} == old(data.fields) - {"tasks"}
    {
      hide ParsePlan, ValidIds, DictsOf;
      ghost var fields := data.fields;
      saved := Save(tmp, call);
      if !saved.Saved? {
        return saved, None;
      }
      SaveReload(fields, tasks);
      assert path in disk.files - {tmp} && (disk.files - {tmp})[path] == Document(data);
      var read := Readable(disk.files[path]);
      var seen := [read, read, read, read, read];
      assert seen[0] == read && Found(read) && LastAttempt(seen) == 0;
      var result := Reload(seen);
      r := Some(result);
    }

    /** Writes the tasks into the document and saves it; a document that is not an object cannot take them. */
    method Save(tmp: string, call: Call -> Outcome) returns (e: Ending)
      requires tmp != path && tmp !in disk.files
      modifies this`data, disk
      ensures old(data).Obj? ==> data == PlanDocument(old(data).fields, tasks)
      ensures !old(data).Obj? ==> e == Raised && data == old(data)
      ensures e.Saved? ==> old(data).Obj? && SaveTakesEffect(call) && tmp !in disk.files
      ensures disk.files - {tmp} ==
              if old(data).Obj? && SaveTakesEffect(call) then old(disk.files)[path := Document(data)] else old(disk.files)
      ensures e.Raised? && tmp in disk.files ==>
                call(Mkstemp) == Raises(true) || call(CleanupClose).Raises? || call(Unlink) == Raises(false)
    {
      if !data.Obj? {
        return Raised;
      }
      data := PlanDocument(data.fields, tasks);
      e := disk.Save(path, tmp, data, call);
    }

    /** In-progress tasks become pending again; the file is written only if there were any. */
    method ResetStaleTasks(tmp: string, call: Call -> Outcome) returns (count: nat, e: Option<Ending>)
      requires Valid() && tmp != path && tmp !in disk.files
      modifies this, disk
      ensures Valid() && tasks == ResetStale(old(tasks)) && count == Count(Stale, old(tasks))
      ensures |tasks| == |old(tasks)|
      ensures forall i | 0 <= i < |tasks| ::
                tasks[i] == if old(tasks)[i].status == "in_progress" then old(tasks)[i].(status := "pending") else old(tasks)[i]
      ensures count == |set i | 0 <= i < |old(tasks)| && old(tasks)[i].status == "in_progress"|
      ensures e.None? <==> count == 0
      ensures e.None? ==> data == old(data) && disk.files == old(disk.files) && tasks == old(tasks)
      ensures e.Some? && old(data).Obj? ==> data == PlanDocument(old(data).fields, tasks)
      ensures e == Some(Saved) ==> old(data).Obj? && SaveTakesEffect(call) && tmp !in disk.files
      ensures disk.files - {tmp} ==
              if e.Some? && old(data).Obj? && SaveTakesEffect(call) then old(disk.files)[path := Document(data)]
              else old(disk.files)
    {
      hide PlanDocument, ValidIds, SaveTakesEffect, ResetStale, Count;
      ghost var before := tasks;
      ResetTasks(before);
      count := ResetLoop();
      SameIdsValid(before, tasks);
      e := None;
      if count > 0 {
        var ending := Save(tmp, call);
        e := Some(ending);
      }
    }

    /** The loop of `reset_stale_tasks` */
    method ResetLoop() returns (count: nat)
      modifies this`tasks
      ensures tasks == ResetStale(old(tasks)) && count == Count(Stale, old(tasks))
      ensures count == 0 ==> tasks == old(tasks)
    {
      count := 0;
      ghost var before := tasks;
      var i := 0;
      while i < |tasks|
        invariant i <= |tasks| == |before|
        invariant forall j :: 0 <= j < i ==> tasks[j] == Unstale(before[j])
        invariant forall j :: i <= j < |tasks| ==> tasks[j] == before[j]
        invariant count == Count(Stale, before[..i])
        invariant count == 0 ==> tasks == before
      {
        assert before[..i + 1][..i] == before[..i];
        if Stale(tasks[i]) {
          tasks := tasks[i := tasks[i].(status := PENDING)];
          count := count + 1;
        }
        i := i + 1;
      }
      assert before[..i] == before;
    }

    /** Unblocked pending tasks, sorted */
    function GetReadyTasks(): seq<Task>
      reads this
    {
      ReadyTasks(tasks)
    }

    /** Changes the statuses, saves, and reports the transitions to the observer only after the save succeeded.  An
        unknown status is refused before anything changes. */
    method MarkStatus(ids: seq<string>, status: string, tmp: string, call: Call -> Outcome)
      returns (e: Option<Ending>, fired: seq<Transition>)
      requires Valid() && tmp != path && tmp !in disk.files
      modifies this, disk
      ensures Valid()
      ensures e.None? <==> status !in {"pending", "in_progress", "done", "failed", "skipped", "blocked", "human_loop"}
      ensures e.None? ==> tasks == old(tasks) && data == old(data) && disk.files == old(disk.files) && fired == []
      ensures e.Some? ==> tasks == Mark(old(tasks), (set id | id in ids), status)
      ensures e.Some? ==> StatusSet(old(tasks), (set id | id in ids), status, tasks)
      ensures e == Some(Saved) ==> fired == Transitions(old(tasks), (set id | id in ids), status)
      ensures e.Some? && old(data).Obj? ==> data == PlanDocument(old(data).fields, tasks)
      ensures e == Some(Saved) ==> old(data).Obj? && SaveTakesEffect(call) && tmp !in disk.files
      ensures e != Some(Saved) ==> fired == []
      ensures disk.files - {tmp} ==
              if e.Some? && old(data).Obj? && SaveTakesEffect(call) then old(disk.files)[path := Document(data)]
              else old(disk.files)
    {
      StatusesAre();
      hide PlanDocument, ValidIds, VALID_STATUSES, SaveTakesEffect, Mark, Marked, Transitions;
      fired := [];
      if status !in VALID_STATUSES {
        e := None;
        return;
      }
      var idSet := set id | id in ids;
      ghost var before := tasks;
      var transitions := MarkLoop(idSet, status);
      MarkedTasks(before, idSet, status);
      SameIdsValid(before, tasks);
      var ending := Save(tmp, call);
      e := Some(ending);
      if ending.Saved? {
        fired := transitions;
      }
    }

    /** The loop of `mark_status` */
    method MarkLoop(idSet: set<string>, status: string) returns (transitions: seq<Transition>)
      modifies this`tasks
      ensures tasks == Mark(old(tasks), idSet, status)
      ensures transitions == Transitions(old(tasks), idSet, status)
    {
      transitions := [];
      ghost var before := tasks;
      var i := 0;
      while i < |tasks|
        invariant i <= |tasks| == |before|
        invariant forall j :: 0 <= j < i ==> tasks[j] == Marked(before[j], idSet, status)
        invariant forall j :: i <= j < |tasks| ==> tasks[j] == before[j]
        invariant transitions == Transitions(before[..i], idSet, status)
      {
        assert before[..i + 1][..i] == before[..i];
        if tasks[i].id in idSet && tasks[i].status != status {
          transitions := transitions + [Transition(tasks[i].(status := status), tasks[i].status, status)];
          tasks := tasks[i := tasks[i].(status := status)];
        }
        i := i + 1;
      }
      assert before[..i] == before;
    }
  }
}
