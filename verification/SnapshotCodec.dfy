/** The wire form of an operator snapshot: JSON objects, with points in time as ISO 8601 texts. */
module SnapshotCodec {
  import opened Basics
  import opened Json
  import opened HumanReview
  import opened ReviewGaps
  import opened IsoTime

  type Dict = map<string, Json>

  datatype OperatorTask = OperatorTask(
    row: TaskRow, priority: string, claimedBy: Option<string>, startedAt: Option<Time>, updatedAt: Time,
    version: int, description: string, keyFiles: seq<string>, dependencies: seq<string>)

  datatype Worker = Worker(
    workerId: string, hostname: string, ownerEmail: Option<string>, status: string, lastHeartbeat: Time)

  datatype EventRow = EventRow(
    eventId: int, taskId: Option<string>, planId: Option<string>, eventType: string, createdAt: Time, detail: Dict)

  datatype Summary = Summary(
    totalTasks: int, tasksByStatus: map<string, int>, workersOnline: int, workersTotal: int,
    failedTasks: int, openReviewGaps: int)

  datatype Control = Control(
    paused: bool, pauseReason: Option<string>, pausedBy: Option<string>,
    pausedAt: Option<Time>, updatedAt: Option<Time>)

  datatype Snapshot = Snapshot(
    renderedAt: Time, summary: Summary, tasks: seq<OperatorTask>, workers: seq<Worker>,
    events: seq<EventRow>, reviewGaps: seq<Gap>, control: Control)

  // ----- Reading single values: None stands for an exception, or a value of another type -----

  /** `d[key]` */
  function Need(d: Dict, key: string): Option<Json> {
    if key in d then Some(d[key]) else None
  }

  function AsStr(j: Json): Option<string> {
    if j.Str? then Some(j.s) else None
  }

  function AsInt(j: Json): Option<int> {
    if j.Num? then Some(j.n) else None
  }

  function AsBool(j: Json): Option<bool> {
    if j.Bool? then Some(j.b) else None
  }

  function AsObj(j: Json): Option<Dict> {
    if j.Obj? then Some(j.fields) else None
  }

  function AsArr(j: Json): Option<seq<Json>> {
    if j.Arr? then Some(j.items) else None
  }

  function AsOptional(j: Json): Option<Option<string>> {
    if IsOptStr(j) then Some(AsOptStr(j)) else None
  }

  function AsStrings(j: Json): Option<seq<string>> {
    if IsStrArr(j) then Some(Strings(j)) else None
  }

  function AsTime(j: Json): Option<Time> {
    var s :- AsStr(j);
    ReadIso(s)
  }

  /** `_opt_dt`: null and the empty text mean no time. */
  function AsOptTime(j: Json): Option<Option<Time>> {
    if j.Null? || j == Str("") then Some(None)
    else
      var t :- AsTime(j);
      Some(Some(t))
  }

  function AsCounts(j: Json): Option<map<string, int>> {
    var d :- AsObj(j);
    if forall k :: k in d ==> d[k].Num? then Some(map k | k in d :: d[k].n) else None
  }

  /** A tuple of rows; None if one of them cannot be read */
  function AsRows<T>(js: seq<Json>, read: Dict -> Option<T>): Option<seq<T>> {
    if js == [] then Some([])
    else
      var d :- AsObj(js[0]);
      var row :- read(d);
      var rows :- AsRows(js[1..], read);
      Some([row] + rows)
  }

  // ----- Writing single values -----

  function TimeText(t: Time): Json {
    Str(Iso(t))
  }

  function OptTimeText(t: Option<Time>): Json {
    if t.None? then Null else TimeText(t.value)
  }

  function Counts(m: map<string, int>): Json {
    Obj(map k | k in m :: Num(m[k]))
  }

  function Rows<T>(xs: seq<T>, write: T -> Dict): seq<Json> {
    if xs == [] then [] else [Obj(write(xs[0]))] + Rows(xs[1..], write)
  }

  // ----- Rows -----

  function ReviewToDict(h: State): Dict {
    map["required" := Bool(h.required), "decision" := OptStr(h.decision), "stage_id" := Str(h.stageId),
        "reason" := Str(h.reason), "reviewer" := OptStr(h.reviewer), "approval_channel" := Str(h.approvalChannel)]
  }

  function ReviewFromDict(d: Dict): Option<State> {
    var required :- AsBool(Get(d, "required", Bool(false)));
    var decision :- AsOptional(Get(d, "decision", Null));
    var stageId :- AsStr(Get(d, "stage_id", Str("")));
    var reason :- AsStr(Get(d, "reason", Str("")));
    var reviewer :- AsOptional(Get(d, "reviewer", Null));
    var approvalChannel :- AsStr(Get(d, "approval_channel", Str("")));
    Some(State(required, decision, stageId, reason, reviewer, approvalChannel))
  }

  function TaskToDict(t: OperatorTask): Dict {
    map["task_id" := Str(t.row.taskId), "plan_id" := Str(t.row.planId), "status" := Str(t.row.status),
        "priority" := Str(t.priority), "claimed_by" := OptStr(t.claimedBy),
        "started_at" := OptTimeText(t.startedAt), "updated_at" := TimeText(t.updatedAt),
        "acceptance_criteria" := StrArr(t.row.acceptanceCriteria), "test_steps" := StrArr(t.row.testSteps),
        "human_review" := Obj(ReviewToDict(t.row.humanReview)), "version" := Num(t.version),
        "description" := Str(t.description), "key_files" := StrArr(t.keyFiles),
        "dependencies" := StrArr(t.dependencies)]
  }

  function TaskRowFromDict(d: Dict): Option<TaskRow> {
    var taskId0 :- Need(d, "task_id");
    var taskId :- AsStr(taskId0);
    var planId0 :- Need(d, "plan_id");
    var planId :- AsStr(planId0);
    var status0 :- Need(d, "status");
    var status :- AsStr(status0);
    var acceptanceCriteria :- AsStrings(Get(d, "acceptance_criteria", Arr([])));
    var testSteps :- AsStrings(Get(d, "test_steps", Arr([])));
    var review :- AsObj(Get(d, "human_review", Obj(map[])));
    var humanReview :- ReviewFromDict(review);
    Some(TaskRow(taskId, planId, status, acceptanceCriteria, testSteps, humanReview))
  }

  function TaskFromDict(d: Dict): Option<OperatorTask> {
    var row :- TaskRowFromDict(d);
    var priority0 :- Need(d, "priority");
    var priority :- AsStr(priority0);
    var claimedBy :- AsOptional(Get(d, "claimed_by", Null));
    var startedAt :- AsOptTime(Get(d, "started_at", Null));
    var updatedAt0 :- Need(d, "updated_at");
    var updatedAt :- AsTime(updatedAt0);
    var version :- AsInt(Get(d, "version", Num(0)));
    var description :- AsStr(Get(d, "description", Str("")));
    var keyFiles :- AsStrings(Get(d, "key_files", Arr([])));
    var dependencies :- AsStrings(Get(d, "dependencies", Arr([])));
    Some(OperatorTask(row, priority, claimedBy, startedAt, updatedAt, version, description, keyFiles, dependencies))
  }

  function WorkerToDict(w: Worker): Dict {
    map["worker_id" := Str(w.workerId), "hostname" := Str(w.hostname), "owner_email" := OptStr(w.ownerEmail),
        "status" := Str(w.status), "last_heartbeat" := TimeText(w.lastHeartbeat)]
  }

  function WorkerFromDict(d: Dict): Option<Worker> {
    var workerId0 :- Need(d, "worker_id");
    var workerId :- AsStr(workerId0);
    var hostname0 :- Need(d, "hostname");
    var hostname :- AsStr(hostname0);
    var ownerEmail :- AsOptional(Get(d, "owner_email", Null));
    var status0 :- Need(d, "status");
    var status :- AsStr(status0);
    var heartbeat0 :- Need(d, "last_heartbeat");
    var heartbeat :- AsTime(heartbeat0);
    Some(Worker(workerId, hostname, ownerEmail, status, heartbeat))
  }

  function EventToDict(e: EventRow): Dict {
    map["event_id" := Num(e.eventId), "task_id" := OptStr(e.taskId), "plan_id" := OptStr(e.planId),
        "event_type" := Str(e.eventType), "created_at" := TimeText(e.createdAt), "detail" := Obj(e.detail)]
  }

  function EventFromDict(d: Dict): Option<EventRow> {
    var eventId0 :- Need(d, "event_id");
    var eventId :- AsInt(eventId0);
    var taskId :- AsOptional(Get(d, "task_id", Null));
    var planId :- AsOptional(Get(d, "plan_id", Null));
    var eventType0 :- Need(d, "event_type");
    var eventType :- AsStr(eventType0);
    var createdAt0 :- Need(d, "created_at");
    var createdAt :- AsTime(createdAt0);
    var detail :- AsObj(Get(d, "detail", Obj(map[])));
    Some(EventRow(eventId, taskId, planId, eventType, createdAt, detail))
  }

  function GapToDict(g: Gap): Dict {
    map["task_id" := Str(g.taskId), "plan_id" := Str(g.planId), "reason" := Str(g.reason), "stage_id" := Str(g.stageId),
        "reviewer" := OptStr(g.reviewer), "approval_channel" := Str(g.approvalChannel),
        "actionable" := Bool(g.actionable)]
  }

  function GapFromDict(d: Dict): Option<Gap> {
    var taskId0 :- Need(d, "task_id");
    var taskId :- AsStr(taskId0);
    var planId0 :- Need(d, "plan_id");
    var planId :- AsStr(planId0);
    var reason0 :- Need(d, "reason");
    var reason :- AsStr(reason0);
    var stageId :- AsStr(Get(d, "stage_id", Str("")));
    var reviewer :- AsOptional(Get(d, "reviewer", Null));
    var approvalChannel :- AsStr(Get(d, "approval_channel", Str("")));
    var actionable :- AsBool(Get(d, "actionable", Bool(false)));
    Some(Gap(taskId, planId, reason, stageId, reviewer, approvalChannel, actionable))
  }

  function SummaryToDict(s: Summary): Dict {
    map["total_tasks" := Num(s.totalTasks), "tasks_by_status" := Counts(s.tasksByStatus),
        "workers_online" := Num(s.workersOnline), "workers_total" := Num(s.workersTotal),
        "failed_tasks" := Num(s.failedTasks), "open_review_gaps" := Num(s.openReviewGaps)]
  }

  function SummaryFromDict(d: Dict): Option<Summary> {
    var totalTasks0 :- Need(d, "total_tasks");
    var totalTasks :- AsInt(totalTasks0);
    var tasksByStatus0 :- Need(d, "tasks_by_status");
    var tasksByStatus :- AsCounts(tasksByStatus0);
    var workersOnline0 :- Need(d, "workers_online");
    var workersOnline :- AsInt(workersOnline0);
    var workersTotal0 :- Need(d, "workers_total");
    var workersTotal :- AsInt(workersTotal0);
    var failedTasks0 :- Need(d, "failed_tasks");
    var failedTasks :- AsInt(failedTasks0);
    var openReviewGaps0 :- Need(d, "open_review_gaps");
    var openReviewGaps :- AsInt(openReviewGaps0);
    Some(Summary(totalTasks, tasksByStatus, workersOnline, workersTotal, failedTasks, openReviewGaps))
  }

  function ControlToDict(c: Control): Dict {
    map["paused" := Bool(c.paused), "pause_reason" := OptStr(c.pauseReason), "paused_by" := OptStr(c.pausedBy),
        "paused_at" := OptTimeText(c.pausedAt), "updated_at" := OptTimeText(c.updatedAt)]
  }

  function ControlFromDict(d: Dict): Option<Control> {
    var paused :- AsBool(Get(d, "paused", Bool(false)));
    var pauseReason :- AsOptional(Get(d, "pause_reason", Null));
    var pausedBy :- AsOptional(Get(d, "paused_by", Null));
    var pausedAt :- AsOptTime(Get(d, "paused_at", Null));
    var updatedAt :- AsOptTime(Get(d, "updated_at", Null));
    Some(Control(paused, pauseReason, pausedBy, pausedAt, updatedAt))
  }

  // ----- Snapshots -----

  function SnapshotToDict(s: Snapshot): Dict {
    map["rendered_at" := TimeText(s.renderedAt), "summary" := Obj(SummaryToDict(s.summary)),
        "tasks" := Arr(Rows(s.tasks, TaskToDict)), "workers" := Arr(Rows(s.workers, WorkerToDict)),
        "events" := Arr(Rows(s.events, EventToDict)), "review_gaps" := Arr(Rows(s.reviewGaps, GapToDict)),
        "control_state" := Obj(ControlToDict(s.control))]
  }

  /** `tuple(read(x) for x in payload.get(key, ()))` */
  function RowsAt<T>(payload: Dict, key: string, read: Dict -> Option<T>): Option<seq<T>> {
    var items :- AsArr(Get(payload, key, Arr([])));
    AsRows(items, read)
  }

  function SnapshotFromDict(payload: Dict): Option<Snapshot> {
    var renderedAt0 :- Need(payload, "rendered_at");
    var renderedAt :- AsTime(renderedAt0);
    var summary0 :- Need(payload, "summary");
    var summary1 :- AsObj(summary0);
    var summary :- SummaryFromDict(summary1);
    var tasks :- RowsAt(payload, "tasks", TaskFromDict);
    var workers :- RowsAt(payload, "workers", WorkerFromDict);
    var events :- RowsAt(payload, "events", EventFromDict);
    var gaps :- RowsAt(payload, "review_gaps", GapFromDict);
    var control0 :- AsObj(Get(payload, "control_state", Obj(map[])));
    var control :- ControlFromDict(control0);
    Some(Snapshot(renderedAt, summary, tasks, workers, events, gaps, control))
  }

  // ----- Reading what was written -----

  lemma TimeReads(t: Time)
    ensures AsTime(TimeText(t)) == Some(t)
  {
    hide ReadIso, Iso;
    IsoRoundTrip(t);
  }

  lemma OptTimeReads(t: Option<Time>)
    ensures AsOptTime(OptTimeText(t)) == Some(t)
  {
    if t.Some? {
      IsoRoundTrip(t.value);
      hide ReadIso, Iso;
    }
  }

  lemma CountsRead(m: map<string, int>)
    ensures AsCounts(Counts(m)) == Some(m)
  {
    var d := Counts(m).fields;
    assert (map k | k in d :: d[k].n) == m;
  }

  lemma StringsRead(xs: seq<string>)
    ensures AsStrings(StrArr(xs)) == Some(xs)
  {
    StringsOfStrArr(xs);
  }

  lemma {:induction false} RowsRead<T>(xs: seq<T>, write: T -> Dict, read: Dict -> Option<T>)
    requires forall x :: x in xs ==> read(write(x)) == Some(x)
    ensures AsRows(Rows(xs, write), read) == Some(xs)
  {
    if xs != [] {
      RowsRead(xs[1..], write, read);
      assert Rows(xs, write)[1..] == Rows(xs[1..], write);
      assert xs == [xs[0]] + xs[1..];
    }
  }

  lemma ReviewRoundTrip(h: State)
    ensures ReviewFromDict(ReviewToDict(h)) == Some(h)
  {
  }

  lemma RowRoundTrip(t: OperatorTask)
    ensures TaskRowFromDict(TaskToDict(t)) == Some(t.row)
  {
    hide ReviewFromDict, ReviewToDict, TimeText, OptTimeText, AsStrings, StrArr;
    ReviewRoundTrip(t.row.humanReview);
    StringsRead(t.row.acceptanceCriteria);
    StringsRead(t.row.testSteps);
  }

  lemma TaskRoundTrip(t: OperatorTask)
    ensures TaskFromDict(TaskToDict(t)) == Some(t)
  {
    hide TaskRowFromDict, ReviewToDict, AsTime, AsOptTime, TimeText, OptTimeText, AsStrings, StrArr;
    RowRoundTrip(t);
    TimeReads(t.updatedAt);
    OptTimeReads(t.startedAt);
    StringsRead(t.keyFiles);
    StringsRead(t.dependencies);
  }

  /** What a key that a task row may lack then stands for */
  function TaskDefault(key: string): Option<Json> {
    match key
    case "claimed_by" => Some(Null)
    case "started_at" => Some(Null)
    case "version" => Some(Num(0))
    case "description" => Some(Str(""))
    case "acceptance_criteria" => Some(Arr([]))
    case "test_steps" => Some(Arr([]))
    case "key_files" => Some(Arr([]))
    case "dependencies" => Some(Arr([]))
    case _ => None
  }

  /** What a key that a review state may lack then stands for */
  function ReviewDefault(key: string): Option<Json> {
    match key
    case "required" => Some(Bool(false))
    case "decision" => Some(Null)
    case "stage_id" => Some(Str(""))
    case "reason" => Some(Str(""))
    case "reviewer" => Some(Null)
    case "approval_channel" => Some(Str(""))
    case _ => None
  }

  /** `d` is `full` without some of the keys that hold their default. */
  ghost predicate LacksDefaults(d: Dict, full: Dict, default: string -> Option<Json>) {
    && (forall k :: k in d ==> k in full && d[k] == full[k])
    && (forall k :: k in full && k !in d ==> default(k) == Some(full[k]))
  }

  lemma SameNeed(d: Dict, full: Dict, default: string -> Option<Json>, key: string)
    requires LacksDefaults(d, full, default) && default(key) == None
    ensures Need(d, key) == Need(full, key)
  {
  }

  lemma SameGet(d: Dict, full: Dict, default: string -> Option<Json>, key: string, value: Json)
    requires LacksDefaults(d, full, default) && default(key) == Some(value)
    ensures Get(d, key, value) == Get(full, key, value)
  {
  }

  const REVIEW := "human_review"

  /** `d` is the row of `t` without some of the keys that hold their default; the review state may lack keys in the same
      way, and be left out altogether if all of them may. */
  ghost predicate LacksTaskDefaults(d: Dict, t: OperatorTask) {
    var review := Get(d, REVIEW, Obj(map[]));
    && LacksDefaults(d - {REVIEW}, TaskToDict(t) - {REVIEW}, TaskDefault)
    && review.Obj? && LacksDefaults(review.fields, ReviewToDict(t.row.humanReview), ReviewDefault)
  }

  /** A row from which keys with default values are left out still stands for the same task. */
  lemma DefaultsMayBeLeftOut(t: OperatorTask, d: Dict)
    requires LacksTaskDefaults(d, t)
    ensures TaskFromDict(d) == Some(t)
  {
    TaskRoundTrip(t);
    hide TaskToDict, TaskFromDict, ReviewFromDict, ReviewToDict, LacksDefaults;
    ReviewRoundTrip(t.row.humanReview);
    SameReview(ReviewToDict(t.row.humanReview), Get(d, REVIEW, Obj(map[])).fields);
    HasReview(t);
    SameReading(TaskToDict(t), d);
  }

  lemma HasReview(t: OperatorTask)
    ensures REVIEW in TaskToDict(t) && TaskToDict(t)[REVIEW] == Obj(ReviewToDict(t.row.humanReview))
  {
    hide ReviewToDict;
  }

  lemma SameReview(full: Dict, d: Dict)
    requires LacksDefaults(d, full, ReviewDefault)
    ensures ReviewFromDict(d) == ReviewFromDict(full)
  {
    hide LacksDefaults;
    SameGet(d, full, ReviewDefault, "required", Bool(false));
    SameGet(d, full, ReviewDefault, "decision", Null);
    SameGet(d, full, ReviewDefault, "stage_id", Str(""));
    SameGet(d, full, ReviewDefault, "reason", Str(""));
    SameGet(d, full, ReviewDefault, "reviewer", Null);
    SameGet(d, full, ReviewDefault, "approval_channel", Str(""));
  }

  /** Two rows that agree up to defaults, and on the review state they stand for */
  ghost predicate AgreeingRows(full: Dict, d: Dict) {
    var review, fullReview := Get(d, REVIEW, Obj(map[])), Get(full, REVIEW, Obj(map[]));
    && LacksDefaults(d - {REVIEW}, full - {REVIEW}, TaskDefault)
    && review.Obj? && fullReview.Obj? && ReviewFromDict(review.fields) == ReviewFromDict(fullReview.fields)
  }

  lemma AgreeNeed(full: Dict, d: Dict, key: string)
    requires AgreeingRows(full, d) && TaskDefault(key) == None && key != REVIEW
    ensures Need(d, key) == Need(full, key)
  {
    hide LacksDefaults, TaskDefault, ReviewFromDict;
    SameNeed(d - {REVIEW}, full - {REVIEW}, TaskDefault, key);
  }

  lemma AgreeGet(full: Dict, d: Dict, key: string, value: Json)
    requires AgreeingRows(full, d) && TaskDefault(key) == Some(value) && key != REVIEW
    ensures Get(d, key, value) == Get(full, key, value)
  {
    hide LacksDefaults, TaskDefault, ReviewFromDict;
    SameGet(d - {REVIEW}, full - {REVIEW}, TaskDefault, key, value);
  }

  lemma SameRow(full: Dict, d: Dict)
    requires AgreeingRows(full, d)
    ensures TaskRowFromDict(d) == TaskRowFromDict(full)
  {
    hide LacksDefaults, AsStrings, ReviewFromDict;
    AgreeNeed(full, d, "task_id");
    AgreeNeed(full, d, "plan_id");
    AgreeNeed(full, d, "status");
    AgreeGet(full, d, "acceptance_criteria", Arr([]));
    AgreeGet(full, d, "test_steps", Arr([]));
  }

  lemma SameReading(full: Dict, d: Dict)
    requires AgreeingRows(full, d)
    ensures TaskFromDict(d) == TaskFromDict(full)
  {
    hide AgreeingRows, AsTime, AsOptTime, AsStrings, TaskRowFromDict;
    SameRow(full, d);
    AgreeNeed(full, d, "priority");
    AgreeNeed(full, d, "updated_at");
    AgreeGet(full, d, "claimed_by", Null);
    AgreeGet(full, d, "started_at", Null);
    AgreeGet(full, d, "version", Num(0));
    AgreeGet(full, d, "description", Str(""));
    AgreeGet(full, d, "key_files", Arr([]));
    AgreeGet(full, d, "dependencies", Arr([]));
  }

  lemma WorkerRoundTrip(w: Worker)
    ensures WorkerFromDict(WorkerToDict(w)) == Some(w)
  {
    hide AsTime, TimeText;
    TimeReads(w.lastHeartbeat);
  }

  lemma EventRoundTrip(e: EventRow)
    ensures EventFromDict(EventToDict(e)) == Some(e)
  {
    hide AsTime, TimeText;
    TimeReads(e.createdAt);
  }

  lemma GapRoundTrip(g: Gap)
    ensures GapFromDict(GapToDict(g)) == Some(g)
  {
  }

  lemma SummaryRoundTrip(s: Summary)
    ensures SummaryFromDict(SummaryToDict(s)) == Some(s)
  {
    hide AsCounts, Counts;
    CountsRead(s.tasksByStatus);
  }

  lemma ControlRoundTrip(c: Control)
    ensures ControlFromDict(ControlToDict(c)) == Some(c)
  {
    hide AsOptTime, OptTimeText;
    OptTimeReads(c.pausedAt);
    OptTimeReads(c.updatedAt);
  }

  /** Decoding an encoded snapshot gives the snapshot back. */
  lemma SnapshotRoundTrip(s: Snapshot)
    ensures SnapshotFromDict(SnapshotToDict(s)) == Some(s)
  {
    hide AsTime, TimeText, SummaryFromDict, SummaryToDict, TaskFromDict, TaskToDict, WorkerFromDict, WorkerToDict,
         EventFromDict, EventToDict, GapFromDict, GapToDict, ControlFromDict, ControlToDict, Rows, AsRows;
    TimeReads(s.renderedAt);
    SummaryRoundTrip(s.summary);
    ControlRoundTrip(s.control);
    forall t | t in s.tasks ensures TaskFromDict(TaskToDict(t)) == Some(t) { TaskRoundTrip(t); }
    forall w | w in s.workers ensures WorkerFromDict(WorkerToDict(w)) == Some(w) { WorkerRoundTrip(w); }
    forall e | e in s.events ensures EventFromDict(EventToDict(e)) == Some(e) { EventRoundTrip(e); }
    forall g | g in s.reviewGaps ensures GapFromDict(GapToDict(g)) == Some(g) { GapRoundTrip(g); }
    RowsRead(s.tasks, TaskToDict, TaskFromDict);
    RowsRead(s.workers, WorkerToDict, WorkerFromDict);
    RowsRead(s.events, EventToDict, EventFromDict);
    RowsRead(s.reviewGaps, GapToDict, GapFromDict);
  }

  // ----- What each key stands for -----

  /** The time that a value stands for */
  ghost predicate IsTime(j: Json, t: Time) {
    j.Str? && ReadIso(j.s) == Some(t)
  }

  ghost predicate IsOptTime(j: Json, t: Option<Time>) {
    if j == Null || j == Str("") then t.None? else t.Some? && IsTime(j, t.value)
  }

  ghost predicate IsOptStrOf(j: Json, o: Option<string>) {
    j == match o case None => Null case Some(s) => Str(s)
  }

  ghost predicate AreStrings(j: Json, xs: seq<string>) {
    j.Arr? && |j.items| == |xs| && forall i :: 0 <= i < |xs| ==> j.items[i] == Str(xs[i])
  }

  /** What a task row holds, key by key */
  lemma TaskKeys(d: Dict)
    requires TaskFromDict(d).Some?
    ensures var t := TaskFromDict(d).value;
            && {"task_id", "plan_id", "status", "priority", "updated_at"} <= d.Keys
            && d["task_id"] == Str(t.row.taskId) && d["plan_id"] == Str(t.row.planId) && d["status"] == Str(t.row.status)
            && d["priority"] == Str(t.priority) && IsTime(d["updated_at"], t.updatedAt)
            && IsOptStrOf(Get(d, "claimed_by", Null), t.claimedBy) && IsOptTime(Get(d, "started_at", Null), t.startedAt)
            && Get(d, "version", Num(0)) == Num(t.version) && Get(d, "description", Str("")) == Str(t.description)
            && AreStrings(Get(d, "acceptance_criteria", Arr([])), t.row.acceptanceCriteria)
            && AreStrings(Get(d, "test_steps", Arr([])), t.row.testSteps)
            && AreStrings(Get(d, "key_files", Arr([])), t.keyFiles)
            && AreStrings(Get(d, "dependencies", Arr([])), t.dependencies)
            && Get(d, "human_review", Obj(map[])).Obj?
            && ReviewFromDict(Get(d, "human_review", Obj(map[])).fields) == Some(t.row.humanReview)
  {
    hide ReadIso, ReviewFromDict;
  }

  lemma ReviewKeys(d: Dict)
    requires ReviewFromDict(d).Some?
    ensures var h := ReviewFromDict(d).value;
            && Get(d, "required", Bool(false)) == Bool(h.required) && IsOptStrOf(Get(d, "decision", Null), h.decision)
            && Get(d, "stage_id", Str("")) == Str(h.stageId) && Get(d, "reason", Str("")) == Str(h.reason)
            && IsOptStrOf(Get(d, "reviewer", Null), h.reviewer)
            && Get(d, "approval_channel", Str("")) == Str(h.approvalChannel)
  {
  }

  lemma WorkerKeys(d: Dict)
    requires WorkerFromDict(d).Some?
    ensures var w := WorkerFromDict(d).value;
            && {"worker_id", "hostname", "status", "last_heartbeat"} <= d.Keys
            && d["worker_id"] == Str(w.workerId) && d["hostname"] == Str(w.hostname) && d["status"] == Str(w.status)
            && IsTime(d["last_heartbeat"], w.lastHeartbeat) && IsOptStrOf(Get(d, "owner_email", Null), w.ownerEmail)
  {
    hide ReadIso;
  }

  lemma EventKeys(d: Dict)
    requires EventFromDict(d).Some?
    ensures var e := EventFromDict(d).value;
            && {"event_id", "event_type", "created_at"} <= d.Keys
            && d["event_id"] == Num(e.eventId) && d["event_type"] == Str(e.eventType) && IsTime(d["created_at"], e.createdAt)
            && IsOptStrOf(Get(d, "task_id", Null), e.taskId) && IsOptStrOf(Get(d, "plan_id", Null), e.planId)
            && Get(d, "detail", Obj(map[])) == Obj(e.detail)
  {
    hide ReadIso;
  }

  lemma GapKeys(d: Dict)
    requires GapFromDict(d).Some?
    ensures var g := GapFromDict(d).value;
            && {"task_id", "plan_id", "reason"} <= d.Keys
            && d["task_id"] == Str(g.taskId) && d["plan_id"] == Str(g.planId) && d["reason"] == Str(g.reason)
            && Get(d, "stage_id", Str("")) == Str(g.stageId) && IsOptStrOf(Get(d, "reviewer", Null), g.reviewer)
            && Get(d, "approval_channel", Str("")) == Str(g.approvalChannel)
            && Get(d, "actionable", Bool(false)) == Bool(g.actionable)
  {
  }

  lemma SummaryKeys(d: Dict)
    requires SummaryFromDict(d).Some?
    ensures var s := SummaryFromDict(d).value;
            && {"total_tasks", "tasks_by_status", "workers_online", "workers_total", "failed_tasks", "open_review_gaps"}
               <= d.Keys
            && d["total_tasks"] == Num(s.totalTasks) && d["workers_online"] == Num(s.workersOnline)
            && d["workers_total"] == Num(s.workersTotal) && d["failed_tasks"] == Num(s.failedTasks)
            && d["open_review_gaps"] == Num(s.openReviewGaps)
            && d["tasks_by_status"].Obj? && d["tasks_by_status"].fields.Keys == s.tasksByStatus.Keys
            && forall k :: k in s.tasksByStatus ==> d["tasks_by_status"].fields[k] == Num(s.tasksByStatus[k])
  {
  }

  lemma ControlKeys(d: Dict)
    requires ControlFromDict(d).Some?
    ensures var c := ControlFromDict(d).value;
            && Get(d, "paused", Bool(false)) == Bool(c.paused) && IsOptStrOf(Get(d, "pause_reason", Null), c.pauseReason)
            && IsOptStrOf(Get(d, "paused_by", Null), c.pausedBy) && IsOptTime(Get(d, "paused_at", Null), c.pausedAt)
            && IsOptTime(Get(d, "updated_at", Null), c.updatedAt)
  {
    hide ReadIso;
  }

  ghost predicate RowsAre<T>(j: Json, xs: seq<T>, read: Dict -> Option<T>) {
    && j.Arr? && |j.items| == |xs|
    && forall i :: 0 <= i < |xs| ==> j.items[i].Obj? && read(j.items[i].fields) == Some(xs[i])
  }

  lemma {:induction false} RowsReadIs<T>(js: seq<Json>, read: Dict -> Option<T>)
    requires AsRows(js, read).Some?
    ensures RowsAre(Arr(js), AsRows(js, read).value, read)
  {
    if js != [] {
      RowsReadIs(js[1..], read);
    }
  }

  /** What a snapshot holds, key by key */
  lemma SnapshotKeys(d: Dict)
    requires SnapshotFromDict(d).Some?
    ensures var s := SnapshotFromDict(d).value;
            && {"rendered_at", "summary"} <= d.Keys && IsTime(d["rendered_at"], s.renderedAt)
            && d["summary"].Obj? && SummaryFromDict(d["summary"].fields) == Some(s.summary)
            && RowsAre(Get(d, "tasks", Arr([])), s.tasks, TaskFromDict)
            && RowsAre(Get(d, "workers", Arr([])), s.workers, WorkerFromDict)
            && RowsAre(Get(d, "events", Arr([])), s.events, EventFromDict)
            && RowsAre(Get(d, "review_gaps", Arr([])), s.reviewGaps, GapFromDict)
            && Get(d, "control_state", Obj(map[])).Obj?
            && ControlFromDict(Get(d, "control_state", Obj(map[])).fields) == Some(s.control)
  {
    hide ReadIso, SummaryFromDict, TaskFromDict, WorkerFromDict, EventFromDict, GapFromDict, ControlFromDict, AsRows, RowsAre;
    RowsReadIs(Get(d, "tasks", Arr([])).items, TaskFromDict);
    RowsReadIs(Get(d, "workers", Arr([])).items, WorkerFromDict);
    RowsReadIs(Get(d, "events", Arr([])).items, EventFromDict);
    RowsReadIs(Get(d, "review_gaps", Arr([])).items, GapFromDict);
  }
}
