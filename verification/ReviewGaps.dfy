/** `_review_gaps`: what an operator still has to look at, task by task. */
module ReviewGaps {
  import opened Basics
  import opened StableSort
  import opened Counting
  import opened HumanReview

  datatype TaskRow = TaskRow(
    taskId: string, planId: string, status: string,
    acceptanceCriteria: seq<string>, testSteps: seq<string>, humanReview: State)

  datatype Gap = Gap(
    taskId: string, planId: string, reason: string, stageId: string,
    reviewer: Option<string>, approvalChannel: string, actionable: bool)

  const NO_REVIEW := State(false, None, "", "", None, "")

  function PlainGap(t: TaskRow, reason: string): Gap {
    Gap(t.taskId, t.planId, reason, "", None, "", false)
  }

  /** `_human_review_gap_reason` */
  function GapReason(s: State): string {
    if s.decision == Some("changes_requested") then "human review changes requested"
    else if s.decision == Some("rejected") then "human review rejected"
    else "awaiting human review"
  }

  predicate ReviewOpen(t: TaskRow) {
    t.humanReview.required && NotApproved(t.humanReview)
  }

  /** The gaps of one task; `mentions` is the text search for human review in criteria and steps. */
  function GapsOf(t: TaskRow, mentions: TaskRow -> bool): seq<Gap> {
    if t.acceptanceCriteria == [] then [PlainGap(t, "missing acceptance criteria")]
    else
      (if t.status == "PENDING" || t.status == "DONE" then [PlainGap(t, "pending verification evidence")] else [])
      + if ReviewOpen(t) then
          [Gap(t.taskId, t.planId, GapReason(t.humanReview), t.humanReview.stageId,
               t.humanReview.reviewer, t.humanReview.approvalChannel, true)]
        else if mentions(t) && t.status != "DONE" then [PlainGap(t, "awaiting human review")]
        else []
  }

  function AllGaps(tasks: seq<TaskRow>, mentions: TaskRow -> bool): seq<Gap> {
    if tasks == [] then []
    else AllGaps(tasks[..|tasks| - 1], mentions) + GapsOf(tasks[|tasks| - 1], mentions)
  }

  function ReasonRank(reason: string): int {
    if reason == "missing acceptance criteria" then 0
    else if reason == "awaiting human review" then 1
    else if reason == "human review changes requested" then 2
    else if reason == "human review rejected" then 3
    else if reason == "pending verification evidence" then 4
    else 99
  }

  /** The order of gaps: by reason, plan, task */
  predicate GapLe(a: Gap, b: Gap) {
    var m, n := ReasonRank(a.reason), ReasonRank(b.reason);
    || m < n
    || (m == n && StringLe(a.planId, b.planId) && (a.planId == b.planId ==> StringLe(a.taskId, b.taskId)))
  }

  /** The gap that is listed for an open review */
  predicate ReviewGapFor(t: TaskRow, g: Gap) {
    && t.humanReview.required && t.humanReview.decision != Some("approved")
    && g.taskId == t.taskId && g.planId == t.planId && g.actionable
    && g.stageId == t.humanReview.stageId && g.reviewer == t.humanReview.reviewer
    && g.approvalChannel == t.humanReview.approvalChannel
    && (t.humanReview.decision == Some("changes_requested") ==> g.reason == "human review changes requested")
    && (t.humanReview.decision == Some("rejected") ==> g.reason == "human review rejected")
    && (t.humanReview.decision != Some("changes_requested") && t.humanReview.decision != Some("rejected") ==>
          g.reason == "awaiting human review")
  }

  /** Why `g` is listed for the task `t` */
  predicate GapFor(t: TaskRow, g: Gap, mentions: TaskRow -> bool) {
    var open := t.humanReview.required && t.humanReview.decision != Some("approved");
    || (t.acceptanceCriteria == [] && g == Gap(t.taskId, t.planId, "missing acceptance criteria", "", None, "", false))
    || (t.acceptanceCriteria != [] && (t.status == "PENDING" || t.status == "DONE")
        && g == Gap(t.taskId, t.planId, "pending verification evidence", "", None, "", false))
    || (t.acceptanceCriteria != [] && ReviewGapFor(t, g))
    || (t.acceptanceCriteria != [] && !open && mentions(t) && t.status != "DONE"
        && g == Gap(t.taskId, t.planId, "awaiting human review", "", None, "", false))
  }

  lemma GapsOfAre(t: TaskRow, mentions: TaskRow -> bool, g: Gap)
    ensures g in GapsOf(t, mentions) <==> GapFor(t, g, mentions)
  {
  }

  lemma {:induction false} AllGapsAre(tasks: seq<TaskRow>, mentions: TaskRow -> bool, g: Gap)
    ensures g in AllGaps(tasks, mentions) <==> exists t :: t in tasks && GapFor(t, g, mentions)
  {
    hide GapsOf, GapFor;
    if tasks != [] {
      var front, t := tasks[..|tasks| - 1], tasks[|tasks| - 1];
      assert tasks == front + [t];
      AllGapsAre(front, mentions, g);
      GapsOfAre(t, mentions, g);
    }
  }

  lemma GapsAre(tasks: seq<TaskRow>, mentions: TaskRow -> bool, g: Gap)
    ensures g in Sort(GapLe, AllGaps(tasks, mentions)) <==> exists t :: t in tasks && GapFor(t, g, mentions)
  {
    hide GapLe, AllGaps, GapFor;
    GapLeOrder();
    var all := AllGaps(tasks, mentions);
    SortIsSorted(GapLe, all);
    assert g in all <==> g in multiset(all);
    assert g in Sort(GapLe, all) <==> g in multiset(Sort(GapLe, all));
    AllGapsAre(tasks, mentions, g);
  }

  /** Gaps with the reason `a` come before gaps with the reason `b`. */
  predicate ReasonBefore(a: string, b: string) {
    || (a == "missing acceptance criteria" && b == "awaiting human review")
    || ((a == "missing acceptance criteria" || a == "awaiting human review") && b == "human review changes requested")
    || ((a == "missing acceptance criteria" || a == "awaiting human review" || a == "human review changes requested")
        && b == "human review rejected")
    || (a != "pending verification evidence" && b == "pending verification evidence")
  }

  /** The order in which two gaps may be listed */
  predicate InReadingOrder(a: Gap, b: Gap) {
    && !ReasonBefore(b.reason, a.reason)
    && (a.reason == b.reason ==> StringLe(a.planId, b.planId) && (a.planId == b.planId ==> StringLe(a.taskId, b.taskId)))
  }

  predicate ListedReason(reason: string) {
    || reason == "missing acceptance criteria" || reason == "awaiting human review"
    || reason == "human review changes requested" || reason == "human review rejected"
    || reason == "pending verification evidence"
  }

  lemma GapLeReads(a: Gap, b: Gap)
    requires GapLe(a, b) && ListedReason(a.reason) && ListedReason(b.reason)
    ensures InReadingOrder(a, b)
  {
    hide StringLe;
    ReasonOrder();
  }

  lemma ReasonOrder()
    ensures ReasonRank("missing acceptance criteria") < ReasonRank("awaiting human review")
            < ReasonRank("human review changes requested") < ReasonRank("human review rejected")
            < ReasonRank("pending verification evidence")
  {
  }

  lemma GapsInOrder(tasks: seq<TaskRow>, mentions: TaskRow -> bool)
    ensures var gaps := Sort(GapLe, AllGaps(tasks, mentions));
            forall i, j :: 0 <= i < j < |gaps| ==> InReadingOrder(gaps[i], gaps[j])
  {
    hide GapLe, AllGaps, InReadingOrder;
    GapLeOrder();
    var gaps := Sort(GapLe, AllGaps(tasks, mentions));
    SortIsSorted(GapLe, AllGaps(tasks, mentions));
    forall i, j | 0 <= i < j < |gaps|
      ensures InReadingOrder(gaps[i], gaps[j])
    {
      ListedReasons(tasks, mentions, gaps[i]);
      ListedReasons(tasks, mentions, gaps[j]);
      GapLeReads(gaps[i], gaps[j]);
    }
  }

  lemma ListedReasons(tasks: seq<TaskRow>, mentions: TaskRow -> bool, g: Gap)
    requires g in Sort(GapLe, AllGaps(tasks, mentions))
    ensures ListedReason(g.reason)
  {
    hide GapLe, AllGaps;
    GapsAre(tasks, mentions, g);
  }

  /** The gaps listed are exactly those that some task gives a reason for, in reading order. */
  method FindReviewGaps(tasks: seq<TaskRow>, mentions: TaskRow -> bool) returns (gaps: seq<Gap>)
    ensures gaps == Sort(GapLe, AllGaps(tasks, mentions))
    ensures forall g :: g in gaps <==> exists t :: t in tasks && GapFor(t, g, mentions)
    ensures forall i, j :: 0 <= i < j < |gaps| ==> InReadingOrder(gaps[i], gaps[j])
  {
    hide GapFor, InReadingOrder, GapLe, AllGaps, Sort;
    gaps := CollectGaps(tasks, mentions);
    gaps := Sort(GapLe, gaps);
    forall g { GapsAre(tasks, mentions, g); }
    GapsInOrder(tasks, mentions);
  }

  /** The loop over the tasks */
  method CollectGaps(tasks: seq<TaskRow>, mentions: TaskRow -> bool) returns (gaps: seq<Gap>)
    ensures gaps == AllGaps(tasks, mentions)
  {
    gaps := [];
    var i := 0;
    while i < |tasks|
      invariant i <= |tasks| && gaps == AllGaps(tasks[..i], mentions)
    {
      var t := tasks[i];
      assert tasks[..i + 1][..i] == tasks[..i];
      i := i + 1;
      if t.acceptanceCriteria == [] {
        gaps := gaps + [PlainGap(t, "missing acceptance criteria")];
        continue;
      }
      ghost var before := gaps;
      if t.status == "PENDING" || t.status == "DONE" {
        gaps := gaps + [PlainGap(t, "pending verification evidence")];
      }
      if ReviewOpen(t) {
        gaps := gaps + [Gap(t.taskId, t.planId, GapReason(t.humanReview), t.humanReview.stageId,
                            t.humanReview.reviewer, t.humanReview.approvalChannel, true)];
      } else if mentions(t) && t.status != "DONE" {
        gaps := gaps + [PlainGap(t, "awaiting human review")];
      }
      assert gaps == before + GapsOf(t, mentions);
    }
    assert tasks[..i] == tasks;
  }

  // ----- Actionable gaps -----

  function ActionableFor(task: string): Gap -> bool {
    (g: Gap) => g.actionable && g.taskId == task
  }

  function OpenRow(task: string): TaskRow -> bool {
    (t: TaskRow) => t.taskId == task && t.acceptanceCriteria != [] && ReviewOpen(t)
  }

  lemma GapLeOrder()
    ensures TotalPreorder(GapLe)
  {
    hide ReasonRank, StringLe;
    forall a, b
      ensures GapLe(a, b) || GapLe(b, a)
    {
      StringLeTotal(a.planId, b.planId);
      StringLeTotal(a.taskId, b.taskId);
      StringLeTotal(a.planId, a.planId);
    }
    forall a, b, c | GapLe(a, b) && GapLe(b, c)
      ensures GapLe(a, c)
    {
      if StringLe(a.planId, b.planId) && StringLe(b.planId, c.planId) {
        StringLeTransitive(a.planId, b.planId, c.planId);
        if a.planId == c.planId {
          StringLeAntisymmetric(a.planId, b.planId);
        }
      }
      if StringLe(a.taskId, b.taskId) && StringLe(b.taskId, c.taskId) {
        StringLeTransitive(a.taskId, b.taskId, c.taskId);
      }
    }
  }

  lemma GapsOfActionable(t: TaskRow, mentions: TaskRow -> bool, task: string)
    ensures Count(ActionableFor(task), GapsOf(t, mentions)) == if OpenRow(task)(t) then 1 else 0
  {
    hide ReviewOpen, GapReason;
    var p, e, w := ActionableFor(task), PlainGap(t, "pending verification evidence"), PlainGap(t, "awaiting human review");
    CountOneMore(p, [], e);
    CountOneMore(p, [], w);
    CountOneMore(p, [], PlainGap(t, "missing acceptance criteria"));
    assert [] + [e] == [e] && [] + [w] == [w];
    var gaps := GapsOf(t, mentions);
    if t.acceptanceCriteria != [] {
      var first := if t.status == "PENDING" || t.status == "DONE" then [e] else [];
      if ReviewOpen(t) {
        CountOneMore(p, first, gaps[|gaps| - 1]);
      } else if mentions(t) && t.status != "DONE" {
        CountOneMore(p, first, w);
      } else {
        assert gaps == first + [] == first;
      }
    }
  }

  lemma {:induction false} AllGapsActionable(tasks: seq<TaskRow>, mentions: TaskRow -> bool, task: string)
    ensures Count(ActionableFor(task), AllGaps(tasks, mentions)) == Count(OpenRow(task), tasks)
  {
    hide GapsOf, ActionableFor, OpenRow;
    if tasks != [] {
      var front, t := tasks[..|tasks| - 1], tasks[|tasks| - 1];
      AllGapsActionable(front, mentions, task);
      CountAppend(ActionableFor(task), AllGaps(front, mentions), GapsOf(t, mentions));
      GapsOfActionable(t, mentions, task);
    }
  }

  /** A task has as many actionable gaps as it has listed rows with criteria whose review is open. */
  lemma ActionableGaps(tasks: seq<TaskRow>, mentions: TaskRow -> bool, task: string)
    ensures Count(ActionableFor(task), Sort(GapLe, AllGaps(tasks, mentions))) == Count(OpenRow(task), tasks)
  {
    hide ActionableFor, OpenRow, GapLe, TotalPreorder;
    GapLeOrder();
    SortIsSorted(GapLe, AllGaps(tasks, mentions));
    CountPermuted(ActionableFor(task), Sort(GapLe, AllGaps(tasks, mentions)), AllGaps(tasks, mentions));
    AllGapsActionable(tasks, mentions, task);
  }

  // ----- The snapshot's rows -----

  /** `human_review_by_task.get(task_id, task.human_review)` for every row */
  function WithReviews(tasks: seq<TaskRow>, states: map<string, State>): seq<TaskRow> {
    seq(|tasks|, i requires 0 <= i < |tasks| =>
      tasks[i].(humanReview := if tasks[i].taskId in states then states[tasks[i].taskId] else tasks[i].humanReview))
  }

  lemma {:induction false} CountOnlyOne(p: TaskRow -> bool, tasks: seq<TaskRow>, i: nat)
    requires i < |tasks| && forall j :: 0 <= j < |tasks| && j != i ==> !p(tasks[j])
    ensures Count(p, tasks) == if p(tasks[i]) then 1 else 0
  {
    var front := tasks[..|tasks| - 1];
    if i < |front| {
      CountOnlyOne(p, front, i);
    } else {
      NoneCounted(p, front);
    }
  }

  lemma {:induction false} NoneCounted(p: TaskRow -> bool, tasks: seq<TaskRow>)
    requires forall j :: 0 <= j < |tasks| ==> !p(tasks[j])
    ensures Count(p, tasks) == 0
  {
    if tasks != [] {
      NoneCounted(p, tasks[..|tasks| - 1]);
    }
  }

  /** In a snapshot with distinct task ids, a listed task with acceptance criteria gets exactly one actionable gap if
      the latest recognised review event of one of its stages is not an approval, and none otherwise. */
  lemma OneGapPerOpenReview(events: seq<Event>, tasks: seq<TaskRow>, mentions: TaskRow -> bool, i: nat)
    requires Consistent(events) && i < |tasks|
    requires forall j, k :: 0 <= j < k < |tasks| ==> tasks[j].taskId != tasks[k].taskId
    requires forall j :: 0 <= j < |tasks| ==> tasks[j].humanReview == NO_REVIEW
    ensures var rows := WithReviews(tasks, ReviewStates(events));
            Count(ActionableFor(tasks[i].taskId), Sort(GapLe, AllGaps(rows, mentions))) ==
            if tasks[i].acceptanceCriteria != [] && ReviewIsOpen(events, tasks[i].taskId) then 1 else 0
  {
    hide ReviewIsOpen, Consistent, ReviewStates, GapLe, NotApproved;
    var rows, task := WithReviews(tasks, ReviewStates(events)), tasks[i].taskId;
    ActionableGaps(rows, mentions, task);
    ReviewOpenIff(events, task);
    CountOnlyOne(OpenRow(task), rows, i);
  }

  /** The actionable gap of a task with criteria and an open review says what the latest event of one of its stages says:
      that the review is awaited, was rejected, or asked for changes. */
  lemma ActionableReason(events: seq<Event>, tasks: seq<TaskRow>, mentions: TaskRow -> bool, i: nat)
    returns (g: Gap, e: Event)
    requires Consistent(events) && i < |tasks| && tasks[i].acceptanceCriteria != []
    requires ReviewIsOpen(events, tasks[i].taskId)
    ensures g in Sort(GapLe, AllGaps(WithReviews(tasks, ReviewStates(events)), mentions))
    ensures g.actionable && g.taskId == tasks[i].taskId && Latest(events, e, g.taskId, g.stageId)
    ensures || (e.eventType == "human_review.required" && g.reason == "awaiting human review")
            || (e.eventType == "human_review.rejected" && g.reason == "human review rejected")
            || (e.eventType == "human_review.changes_requested" && g.reason == "human review changes requested")
  {
    hide ReviewIsOpen, Consistent, ReviewStates, GapLe, AllGaps, Latest;
    var rows, task := WithReviews(tasks, ReviewStates(events)), tasks[i].taskId;
    ReviewOpenIff(events, task);
    var stage;
    e, stage := ShownStateSays(events, task);
    var t := rows[i];
    var r := t.humanReview;
    assert r == ReviewStates(events)[task];
    LatestType(events, e, task, stage);
    g := Gap(task, t.planId, GapReason(r), r.stageId, r.reviewer, r.approvalChannel, true);
    assert t in rows && ReviewGapFor(t, g) && GapFor(t, g, mentions);
    GapsAre(rows, mentions, g);
  }

  lemma LatestType(events: seq<Event>, e: Event, task: string, stage: string)
    requires Latest(events, e, task, stage)
    ensures || e.eventType == "human_review.required" || e.eventType == "human_review.approved"
            || e.eventType == "human_review.rejected" || e.eventType == "human_review.changes_requested"
  {
  }
}
