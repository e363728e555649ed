/** `human_review_states_from_events`: the review state of every task, derived from audit events that arrive unordered
    and repeated. */
module HumanReview {
  import opened Basics
  import opened StableSort

  const REQUIRED := "human_review.required"
  const APPROVED := "human_review.approved"
  const REJECTED := "human_review.rejected"
  const CHANGES_REQUESTED := "human_review.changes_requested"

  /** An audit event; a null value in the detail is None, other values are given as `str` renders them. */
  datatype Event = Event(
    eventId: int, taskId: Option<string>, planId: Option<string>, eventType: string, createdAt: int,
    detail: map<string, Option<string>>)

  datatype State = State(
    required: bool, decision: Option<string>, stageId: string, reason: string,
    reviewer: Option<string>, approvalChannel: string)

  /** `_optional_str(detail.get(key))` */
  function OptionalStr(e: Event, key: string): Option<string> {
    if key in e.detail then e.detail[key] else None
  }

  /** `_string_value(detail.get(key))` */
  function StringValue(e: Event, key: string): string {
    if OptionalStr(e, key).Some? then OptionalStr(e, key).value else ""
  }

  function Or(a: string, b: string): string {
    if a != "" then a else b
  }

  function TaskOf(e: Event): string {
    if e.taskId.Some? && e.taskId.value != "" then e.taskId.value else StringValue(e, "task_id")
  }

  function StageOf(e: Event): string {
    StringValue(e, "stage_id")
  }

  /** `_human_review_decision` */
  function Decision(eventType: string): Option<string> {
    if eventType == APPROVED then Some("approved")
    else if eventType == REJECTED then Some("rejected")
    else if eventType == CHANGES_REQUESTED then Some("changes_requested")
    else None
  }

  /** The event moves a checkpoint. */
  predicate Recognized(e: Event) {
    && "human_review." <= e.eventType
    && TaskOf(e) != ""
    && (e.eventType == REQUIRED || Decision(e.eventType).Some?)
  }

  // ----- Checkpoints: a dictionary in insertion order -----

  datatype Entry = Entry(task: string, stage: string, state: State)

  /** `checkpoints.get(key, HumanReviewState(stage_id=stage_id))` */
  function Find(cp: seq<Entry>, task: string, stage: string): State {
    if cp == [] then State(false, None, stage, "", None, "")
    else if cp[0].task == task && cp[0].stage == stage then cp[0].state
    else Find(cp[1..], task, stage)
  }

  /** `checkpoints[key] = state`: a new key goes to the end. */
  function Put(cp: seq<Entry>, task: string, stage: string, state: State): seq<Entry> {
    if cp == [] then [Entry(task, stage, state)]
    else if cp[0].task == task && cp[0].stage == stage then [Entry(task, stage, state)] + cp[1..]
    else [cp[0]] + Put(cp[1..], task, stage, state)
  }

  /** The state an event leaves, given the one before */
  function Moved(previous: State, e: Event): State {
    if e.eventType == REQUIRED then
      State(true, None, StageOf(e), StringValue(e, "reason"), None, StringValue(e, "approval_channel"))
    else
      State(true, Decision(e.eventType), Or(StageOf(e), previous.stageId),
            Or(previous.reason, StringValue(e, "reason")),
            OptionalStr(e, "reviewer"),
            Or(previous.approvalChannel, StringValue(e, "approval_channel")))
  }

  function Step(cp: seq<Entry>, e: Event): seq<Entry> {
    if Recognized(e) then Put(cp, TaskOf(e), StageOf(e), Moved(Find(cp, TaskOf(e), StageOf(e)), e)) else cp
  }

  function Fold(events: seq<Event>): seq<Entry> {
    if events == [] then [] else Step(Fold(events[..|events| - 1]), events[|events| - 1])
  }

  /** `_human_review_state_rank` */
  function Rank(state: State): int {
    if state.required && state.decision != Some("approved") then 0
    else if state.required then 1
    else 2
  }

  function ByTask(cp: seq<Entry>): map<string, State> {
    if cp == [] then map[]
    else
      var best, x := ByTask(cp[..|cp| - 1]), cp[|cp| - 1];
      if x.task !in best || Rank(x.state) < Rank(best[x.task]) then best[x.task := x.state] else best
  }

  predicate EventLe(a: Event, b: Event) {
    a.createdAt < b.createdAt || (a.createdAt == b.createdAt && a.eventId <= b.eventId)
  }

  function ReviewStates(events: seq<Event>): map<string, State> {
    ByTask(Fold(Sort(EventLe, events)))
  }

  method HumanReviewStatesFromEvents(events: seq<Event>) returns (byTask: map<string, State>)
    ensures byTask == ReviewStates(events)
  {
    var checkpoints: seq<Entry> := [];
    var ordered := Sort(EventLe, events);
    var i := 0;
    while i < |ordered|
      invariant i <= |ordered| && checkpoints == Fold(ordered[..i])
    {
      var e := ordered[i];
      assert ordered[..i + 1][..i] == ordered[..i];
      i := i + 1;
      if !("human_review." <= e.eventType) {
        continue;
      }
      var task, stage := TaskOf(e), StageOf(e);
      if task == "" {
        continue;
      }
      var previous := Find(checkpoints, task, stage);
      if e.eventType == REQUIRED {
        checkpoints := Put(checkpoints, task, stage,
          State(true, None, stage, StringValue(e, "reason"), None, StringValue(e, "approval_channel")));
        continue;
      }
      var decision := Decision(e.eventType);
      if decision.None? {
        continue;
      }
      checkpoints := Put(checkpoints, task, stage,
        State(true, decision, Or(stage, previous.stageId), Or(previous.reason, StringValue(e, "reason")),
              OptionalStr(e, "reviewer"), Or(previous.approvalChannel, StringValue(e, "approval_channel"))));
    }
    assert ordered[..i] == ordered;
    byTask := map[];
    i := 0;
    while i < |checkpoints|
      invariant i <= |checkpoints| && byTask == ByTask(checkpoints[..i])
    {
      assert checkpoints[..i + 1][..i] == checkpoints[..i];
      var x := checkpoints[i];
      if x.task !in byTask || Rank(x.state) < Rank(byTask[x.task]) {
        byTask := byTask[x.task := x.state];
      }
      i := i + 1;
    }
    assert checkpoints[..i] == checkpoints;
  }

  // ----- One task at a time -----

  function OfTask(cp: seq<Entry>, task: string): seq<Entry> {
    if cp == [] then []
    else if cp[0].task == task then [cp[0]] + OfTask(cp[1..], task)
    else OfTask(cp[1..], task)
  }

  /** The recognised events about a task, in order */
  function About(events: seq<Event>, task: string): seq<Event> {
    if events == [] then []
    else
      var e := events[|events| - 1];
      About(events[..|events| - 1], task) + if Recognized(e) && TaskOf(e) == task then [e] else []
  }

  lemma {:induction false} FindOfTask(cp: seq<Entry>, task: string, stage: string)
    ensures Find(OfTask(cp, task), task, stage) == Find(cp, task, stage)
  {
    if cp != [] {
      FindOfTask(cp[1..], task, stage);
      if cp[0].task == task {
        assert OfTask(cp, task)[1..] == OfTask(cp[1..], task);
      }
    }
  }

  lemma OfTaskCons(x: Entry, rest: seq<Entry>, task: string)
    ensures OfTask([x] + rest, task) == if x.task == task then [x] + OfTask(rest, task) else OfTask(rest, task)
  {
    assert ([x] + rest)[1..] == rest;
  }

  lemma PutCons(x: Entry, rest: seq<Entry>, task: string, stage: string, state: State)
    ensures Put([x] + rest, task, stage, state) ==
            if x.task == task && x.stage == stage then [Entry(task, stage, state)] + rest
            else [x] + Put(rest, task, stage, state)
  {
    assert ([x] + rest)[1..] == rest;
  }

  lemma {:induction false} PutOfTask(cp: seq<Entry>, task: string, stage: string, state: State, other: string)
    ensures OfTask(Put(cp, task, stage, state), other) ==
            if other == task then Put(OfTask(cp, task), task, stage, state) else OfTask(cp, other)
  {
    if cp == [] {
      OfTaskCons(Entry(task, stage, state), [], other);
      assert [Entry(task, stage, state)] + [] == [Entry(task, stage, state)];
      OfTaskEmpty(other);
    } else {
      hide OfTask, Put;
      var x, rest := cp[0], cp[1..];
      assert cp == [x] + rest;
      PutOfTask(rest, task, stage, state, other);
      PutCons(x, rest, task, stage, state);
      OfTaskCons(x, rest, other);
      OfTaskCons(x, Put(rest, task, stage, state), other);
      OfTaskCons(Entry(task, stage, state), rest, other);
      PutCons(x, OfTask(rest, task), task, stage, state);
    }
  }

  lemma FoldAppend(events: seq<Event>, e: Event)
    ensures Fold(events + [e]) == Step(Fold(events), e)
  {
    assert (events + [e])[..|events|] == events;
  }

  lemma {:induction false} FoldOfTask(events: seq<Event>, task: string)
    ensures OfTask(Fold(events), task) == Fold(About(events, task))
  {
    hide Recognized, Moved, Put, Find, OfTask, TaskOf, StageOf;
    if events == [] {
      OfTaskEmpty(task);
    } else {
      var front, e := events[..|events| - 1], events[|events| - 1];
      FoldOfTask(front, task);
      var cp, a := Fold(front), About(front, task);
      FoldAppend(a, e);
      if Recognized(e) && TaskOf(e) == task {
        PutOfTask(cp, task, StageOf(e), Moved(Find(cp, task, StageOf(e)), e), task);
        FindOfTask(cp, task, StageOf(e));
        assert About(events, task) == a + [e];
      } else {
        PutOfTask(cp, TaskOf(e), StageOf(e), Moved(Find(cp, TaskOf(e), StageOf(e)), e), task);
        assert About(events, task) == a;
      }
    }
  }

  lemma OfTaskEmpty(task: string)
    ensures OfTask([], task) == []
  {
  }

  /** The state picked for one task from its checkpoints */
  function Worst(cp: seq<Entry>): Option<State> {
    if cp == [] then None
    else
      var best, x := Worst(cp[..|cp| - 1]), cp[|cp| - 1];
      if best.None? || Rank(x.state) < Rank(best.value) then Some(x.state) else best
  }

  lemma {:induction false} OfTaskAppend(cp: seq<Entry>, x: Entry, task: string)
    ensures OfTask(cp + [x], task) == OfTask(cp, task) + if x.task == task then [x] else []
  {
    OfTaskEmpty(task);
    if cp == [] {
      OfTaskCons(x, [], task);
      assert [] + [x] == [x] + [] == [x];
    } else {
      hide OfTask;
      var y, rest := cp[0], cp[1..];
      OfTaskAppend(rest, x, task);
      OfTaskCons(y, rest, task);
      OfTaskCons(y, rest + [x], task);
      assert cp == [y] + rest && cp + [x] == [y] + (rest + [x]);
    }
  }

  lemma ByTaskStep(cp: seq<Entry>)
    requires cp != []
    ensures var best, x := ByTask(cp[..|cp| - 1]), cp[|cp| - 1];
            ByTask(cp) == if x.task !in best || Rank(x.state) < Rank(best[x.task]) then best[x.task := x.state] else best
  {
  }

  lemma {:induction false} ByTaskIsWorst(cp: seq<Entry>, task: string)
    ensures Lookup(ByTask(cp), task) == Worst(OfTask(cp, task))
  {
    hide Rank, OfTask;
    if cp == [] {
      OfTaskEmpty(task);
    } else {
      hide ByTask;
      ByTaskStep(cp);
      var front, x := cp[..|cp| - 1], cp[|cp| - 1];
      ByTaskIsWorst(front, task);
      OfTaskAppend(front, x, task);
      assert cp == front + [x];
      var w := OfTask(front, task);
      if x.task == task {
        assert (w + [x])[..|w|] == w;
      } else {
        assert w + [] == w;
      }
    }
  }

  /** The state of a task is determined by the sorted recognised events about it. */
  lemma StateOfTask(events: seq<Event>, task: string)
    ensures Lookup(ReviewStates(events), task) == Worst(Fold(About(Sort(EventLe, events), task)))
  {
    ByTaskIsWorst(Fold(Sort(EventLe, events)), task);
    FoldOfTask(Sort(EventLe, events), task);
  }

  // ----- Repeated events -----

  lemma {:induction false} FindPut(cp: seq<Entry>, task: string, stage: string, state: State)
    ensures Find(Put(cp, task, stage, state), task, stage) == state
    ensures Put(Put(cp, task, stage, state), task, stage, state) == Put(cp, task, stage, state)
  {
    if cp != [] {
      FindPut(cp[1..], task, stage, state);
      var p := Put(cp, task, stage, state);
      if cp[0].task == task && cp[0].stage == stage {
        assert p[1..] == cp[1..];
      } else {
        assert p[1..] == Put(cp[1..], task, stage, state);
      }
    }
  }

  /** Applying an event again changes nothing. */
  lemma StepTwice(cp: seq<Entry>, e: Event)
    ensures Step(Step(cp, e), e) == Step(cp, e)
  {
    hide Put, Find, Recognized, TaskOf;
    if Recognized(e) {
      var before := Find(cp, TaskOf(e), StageOf(e));
      FindPut(cp, TaskOf(e), StageOf(e), Moved(before, e));
      assert Moved(Moved(before, e), e) == Moved(before, e);
    }
  }

  /** Neighbouring repetitions dropped */
  function Squeeze(s: seq<Event>): seq<Event> {
    if |s| <= 1 then s
    else if s[|s| - 1] == s[|s| - 2] then Squeeze(s[..|s| - 1])
    else Squeeze(s[..|s| - 1]) + [s[|s| - 1]]
  }

  lemma {:induction false} FoldSqueezed(s: seq<Event>)
    ensures Fold(Squeeze(s)) == Fold(s)
  {
    hide Step;
    if |s| > 1 {
      var front, e := s[..|s| - 1], s[|s| - 1];
      FoldSqueezed(front);
      if e == s[|s| - 2] {
        StepTwice(Fold(front[..|front| - 1]), e);
      } else {
        var q := Squeeze(front);
        assert (q + [e])[..|q|] == q;
      }
    }
  }

  /** Equal sort keys mean identical events, as they do if event ids are unique. */
  ghost predicate Consistent(s: seq<Event>) {
    forall a, b :: a in s && b in s && EventLe(a, b) && EventLe(b, a) ==> a == b
  }

  ghost predicate Increasing(s: seq<Event>) {
    forall i, j :: 0 <= i < j < |s| ==> EventLe(s[i], s[j]) && !EventLe(s[j], s[i])
  }

  lemma {:induction false} SqueezeSorted(s: seq<Event>)
    requires Sorted(EventLe, s) && Consistent(s)
    ensures Increasing(Squeeze(s))
    ensures forall e :: e in Squeeze(s) <==> e in s
    ensures s != [] ==> Squeeze(s) != [] && Squeeze(s)[|Squeeze(s)| - 1] == s[|s| - 1]
  {
    hide EventLe, Sorted, Consistent, Increasing;
    if |s| <= 1 {
      ShortIncreasing(s);
    } else {
      var front, last, e := s[..|s| - 1], s[|s| - 2], s[|s| - 1];
      assert s == front + [e];
      FrontSorted(s);
      SqueezeSorted(front);
      if e != last {
        IncreasingAppend(Squeeze(front), e);
      }
    }
  }

  lemma ShortIncreasing(s: seq<Event>)
    requires |s| <= 1
    ensures Increasing(s)
  {
  }

  lemma FrontSorted(s: seq<Event>)
    requires Sorted(EventLe, s) && Consistent(s) && |s| > 1
    ensures Sorted(EventLe, s[..|s| - 1]) && Consistent(s[..|s| - 1])
    ensures EventLe(s[|s| - 2], s[|s| - 1])
    ensures s[|s| - 2] != s[|s| - 1] ==> !EventLe(s[|s| - 1], s[|s| - 2])
  {
    hide EventLe;
    assert s == s[..|s| - 1] + [s[|s| - 1]];
    assert s[|s| - 2] in s && s[|s| - 1] in s;
  }

  lemma IncreasingAppend(q: seq<Event>, e: Event)
    requires Increasing(q) && q != [] && EventLe(q[|q| - 1], e) && !EventLe(e, q[|q| - 1])
    ensures Increasing(q + [e])
  {
    forall i | 0 <= i < |q|
      ensures EventLe(q[i], e) && !EventLe(e, q[i])
    {
      assert i < |q| - 1 ==> EventLe(q[i], q[|q| - 1]);
    }
  }

  /** The last of an increasing list is its greatest element. */
  lemma LastIsGreatest(s: seq<Event>, e: Event)
    requires Increasing(s) && e in s
    ensures EventLe(e, s[|s| - 1])
    ensures e !in s[..|s| - 1] <==> e == s[|s| - 1]
  {
    var front, last := s[..|s| - 1], s[|s| - 1];
    assert s == front + [last];
    forall j | 0 <= j < |front|
      ensures EventLe(front[j], last) && front[j] != last
    {
      assert EventLe(s[j], s[|s| - 1]) && !EventLe(s[|s| - 1], s[j]);
    }
  }

  lemma FirstIsMember(s: seq<Event>)
    requires s != []
    ensures s[0] in s
  {
  }

  /** Two increasing lists with the same members are the same list. */
  lemma {:induction false} IncreasingUnique(a: seq<Event>, b: seq<Event>)
    requires Increasing(a) && Increasing(b) && Consistent(a) && forall e :: e in a <==> e in b
    ensures a == b
    decreases |a|
  {
    hide EventLe;
    if a == [] {
      if b != [] {
        FirstIsMember(b);
      }
    } else {
      FirstIsMember(a);
      var x, y := a[|a| - 1], b[|b| - 1];
      LastIsGreatest(a, y);
      LastIsGreatest(b, x);
      var a', b' := a[..|a| - 1], b[..|b| - 1];
      assert a == a' + [x] && b == b' + [x];
      forall e
        ensures e in a' <==> e in b'
      {
        if e in a {
          LastIsGreatest(a, e);
          LastIsGreatest(b, e);
        }
      }
      IncreasingUnique(a', b');
    }
  }

  // ----- Order and repetition do not matter -----

  lemma {:induction false} AboutMembers(events: seq<Event>, task: string, e: Event)
    ensures e in About(events, task) <==> e in events && Recognized(e) && TaskOf(e) == task
  {
    hide Recognized, TaskOf;
    if events != [] {
      var front, last := events[..|events| - 1], events[|events| - 1];
      AboutMembers(front, task, e);
      assert events == front + [last];
    }
  }

  lemma {:induction false} AboutSorted(events: seq<Event>, task: string)
    requires Sorted(EventLe, events)
    ensures Sorted(EventLe, About(events, task))
  {
    hide Recognized, TaskOf;
    if events != [] {
      var front, last := events[..|events| - 1], events[|events| - 1];
      AboutSorted(front, task);
      var a := About(front, task);
      forall i | 0 <= i < |a|
        ensures EventLe(a[i], last)
      {
        AboutMembers(front, task, a[i]);
      }
    }
  }

  lemma EventLeOrder()
    ensures TotalPreorder(EventLe)
  {
  }

  lemma SortedMembers(events: seq<Event>, e: Event)
    ensures e in Sort(EventLe, events) <==> e in events
  {
    EventLeOrder();
    SortIsSorted(EventLe, events);
    assert e in Sort(EventLe, events) <==> e in multiset(Sort(EventLe, events));
    assert e in events <==> e in multiset(events);
  }

  /** The recognised events about a task in time order without repetitions: what its state is computed from */
  function History(events: seq<Event>, task: string): seq<Event> {
    Squeeze(About(Sort(EventLe, events), task))
  }

  lemma HistoryIs(events: seq<Event>, task: string)
    requires Consistent(events)
    ensures Increasing(History(events, task))
    ensures forall e :: e in History(events, task) <==> e in events && Recognized(e) && TaskOf(e) == task
    ensures Consistent(History(events, task))
    ensures Lookup(ReviewStates(events), task) == Worst(Fold(History(events, task)))
  {
    hide EventLe, Recognized, TaskOf, Sort, ReviewStates, Fold, Worst;
    var ordered := Sort(EventLe, events);
    EventLeOrder();
    SortIsSorted(EventLe, events);
    AboutSorted(ordered, task);
    forall e
      ensures e in About(ordered, task) <==> e in events && Recognized(e) && TaskOf(e) == task
    {
      AboutMembers(ordered, task, e);
      SortedMembers(events, e);
    }
    SqueezeSorted(About(ordered, task));
    FoldSqueezed(About(ordered, task));
    StateOfTask(events, task);
  }

  /** Two collections with the same recognised events about a task give it the same state, whatever their order and
      however often they repeat events. */
  lemma SameEventsSameState(a: seq<Event>, b: seq<Event>, task: string)
    requires Consistent(a) && Consistent(b)
    requires forall e :: Recognized(e) && TaskOf(e) == task ==> (e in a <==> e in b)
    ensures Lookup(ReviewStates(a), task) == Lookup(ReviewStates(b), task)
  {
    hide EventLe, Recognized, TaskOf, History, ReviewStates, Fold, Worst;
    HistoryIs(a, task);
    HistoryIs(b, task);
    IncreasingUnique(History(a, task), History(b, task));
  }

  /** The whole state map is unchanged by permuting or repeating events. */
  lemma OrderAndRepetitionDoNotMatter(a: seq<Event>, b: seq<Event>)
    requires Consistent(a) && forall e :: e in a <==> e in b
    ensures ReviewStates(a) == ReviewStates(b)
  {
    hide ReviewStates;
    forall task
      ensures Lookup(ReviewStates(a), task) == Lookup(ReviewStates(b), task)
    {
      SameEventsSameState(a, b, task);
    }
    SameLookups(ReviewStates(a), ReviewStates(b));
  }

  lemma SameLookups(m: map<string, State>, n: map<string, State>)
    requires forall task :: Lookup(m, task) == Lookup(n, task)
    ensures m == n
  {
    forall task
      ensures task in m <==> task in n
      ensures task in m ==> m[task] == n[task]
    {
      assert Lookup(m, task) == Lookup(n, task);
    }
  }

  /** `review` is a possible answer to the review query: nothing but events of the log, and all human-review events that
      carry the id of a listed task.  (The query's pattern has a wildcard in it and may match other events too.) */
  ghost predicate IsReviewQuery(review: seq<Event>, log: seq<Event>, listed: set<string>) {
    && (forall e :: e in review ==> e in log && e.taskId.Some? && e.taskId.value in listed)
    && (forall e :: e in log && e.taskId.Some? && e.taskId.value in listed && "human_review." <= e.eventType ==> e in review)
  }

  /** At least one of the two queries returns the review event `e`. */
  predicate Visible(e: Event, recent: seq<Event>, listed: set<string>) {
    (e.taskId.Some? && e.taskId.value in listed) || e in recent
  }

  lemma QueryMembers(log: seq<Event>, recent: seq<Event>, review: seq<Event>, listed: set<string>, e: Event)
    requires (forall x :: x in recent ==> x in log) && IsReviewQuery(review, log, listed)
    ensures Recognized(e) ==> (e in recent + review <==> e in log && Visible(e, recent, listed))
    ensures e in recent + review ==> e in log
  {
    hide TaskOf, Decision;
  }

  /** The two queries of the snapshot overlap.  Their concatenation shows the whole history of a task, exactly if every
      review event about it carries the id of a listed task in the task column or is among the recent ones. */
  lemma QueriesShowHistoryIff(log: seq<Event>, recent: seq<Event>, review: seq<Event>, listed: set<string>, task: string)
    requires Consistent(log) && IsReviewQuery(review, log, listed) && forall e :: e in recent ==> e in log
    ensures History(recent + review, task) == History(log, task) <==>
            forall e :: e in log && Recognized(e) && TaskOf(e) == task ==> Visible(e, recent, listed)
  {
    hide EventLe, Recognized, TaskOf, History, ReviewStates, Fold, Worst, IsReviewQuery, Visible;
    forall e { QueryMembers(log, recent, review, listed, e); }
    var seen := recent + review;
    HistoryIs(log, task);
    HistoryIs(seen, task);
    if forall e :: e in log && Recognized(e) && TaskOf(e) == task ==> Visible(e, recent, listed) {
      IncreasingUnique(History(seen, task), History(log, task));
    }
    if History(seen, task) == History(log, task) {
      forall e | e in log && Recognized(e) && TaskOf(e) == task
        ensures Visible(e, recent, listed)
      {
        assert e in History(log, task);
      }
    }
  }

  /** In that case the task has the state of the full log. */
  lemma TwoQueriesAreEnough(log: seq<Event>, recent: seq<Event>, review: seq<Event>, listed: set<string>, task: string)
    requires Consistent(log) && IsReviewQuery(review, log, listed) && forall e :: e in recent ==> e in log
    requires forall e :: e in log && Recognized(e) && TaskOf(e) == task ==> Visible(e, recent, listed)
    ensures Lookup(ReviewStates(recent + review), task) == Lookup(ReviewStates(log), task)
  {
    hide EventLe, Recognized, TaskOf, History, ReviewStates, Fold, Worst, IsReviewQuery, Visible;
    forall e { QueryMembers(log, recent, review, listed, e); }
    HistoryIs(log, task);
    HistoryIs(recent + review, task);
    QueriesShowHistoryIff(log, recent, review, listed, task);
  }

  /** Why that proviso: a review event that names its task only in the detail is in neither query once it is not among
      the recent events, and its task then looks as if no review had been asked for. */
  lemma DetailOnlyEventIsMissed(e: Event, review: seq<Event>, listed: set<string>)
    requires Recognized(e) && e.taskId.None? && IsReviewQuery(review, [e], listed)
    ensures Lookup(ReviewStates([e]), TaskOf(e)).Some?
    ensures Lookup(ReviewStates([] + review), TaskOf(e)).None?
  {
    hide Recognized, TaskOf, StageOf, Moved;
    assert forall x :: x in [e] ==> x == e;
    assert forall x :: x !in [] + review;
    SameEventsSameState([] + review, [], TaskOf(e));
    assert Sort(EventLe, [e]) == [e];
    FoldAppend([], e);
    assert [] + [e] == [e];
    var moved := Moved(Find([], TaskOf(e), StageOf(e)), e);
    assert Put([], TaskOf(e), StageOf(e), moved) == [Entry(TaskOf(e), StageOf(e), moved)];
    ByTaskStep([Entry(TaskOf(e), StageOf(e), moved)]);
  }

  // ----- The last event of a stage decides -----

  /** The recognised events about a stage of a task, in order */
  function AboutStage(events: seq<Event>, stage: string): seq<Event> {
    if events == [] then []
    else
      var e := events[|events| - 1];
      if StageOf(e) == stage then AboutStage(events[..|events| - 1], stage) + [e]
      else AboutStage(events[..|events| - 1], stage)
  }

  /** Where the current review request starts: at its last request, or with the first event if there was none */
  function RequestStart(es: seq<Event>): (i: nat)
    ensures i <= |es| && (es != [] ==> i < |es|)
  {
    if es == [] || es[|es| - 1].eventType == REQUIRED then if es == [] then 0 else |es| - 1
    else RequestStart(es[..|es| - 1])
  }

  /** The first nonempty value of the key */
  function FirstValue(es: seq<Event>, key: string): string {
    if es == [] then "" else Or(FirstValue(es[..|es| - 1], key), StringValue(es[|es| - 1], key))
  }

  /** The state of a stage, read off its events: the last one decides and names the reviewer; reason and channel are
      the first ones given since the review was last requested. */
  function LatestState(es: seq<Event>, stage: string): State {
    if es == [] then State(false, None, stage, "", None, "")
    else
      var last, request := es[|es| - 1], es[RequestStart(es)..];
      State(true, if last.eventType == REQUIRED then None else Decision(last.eventType), stage,
            FirstValue(request, "reason"),
            if last.eventType == REQUIRED then None else OptionalStr(last, "reviewer"),
            FirstValue(request, "approval_channel"))
  }

  lemma {:induction false} FindPutOther(cp: seq<Entry>, task: string, stage: string, state: State, other: string)
    requires other != stage
    ensures Find(Put(cp, task, stage, state), task, other) == Find(cp, task, other)
  {
    if cp != [] {
      FindPutOther(cp[1..], task, stage, state, other);
      var p := Put(cp, task, stage, state);
      if cp[0].task == task && cp[0].stage == stage {
        assert p[1..] == cp[1..];
      } else {
        assert p[1..] == Put(cp[1..], task, stage, state);
      }
    }
  }

  lemma FirstValueAppend(es: seq<Event>, e: Event, key: string)
    ensures FirstValue(es + [e], key) == Or(FirstValue(es, key), StringValue(e, key))
  {
    assert (es + [e])[..|es|] == es;
  }

  /** One more event about the stage moves its state as the code does. */
  lemma LatestMoves(es: seq<Event>, e: Event, stage: string)
    requires StageOf(e) == stage
    ensures LatestState(es + [e], stage) == Moved(LatestState(es, stage), e)
  {
    if e.eventType == REQUIRED {
      LatestRequested(es, e, stage);
    } else {
      LatestDecided(es, e, stage);
    }
  }

  lemma LatestRequested(es: seq<Event>, e: Event, stage: string)
    requires StageOf(e) == stage && e.eventType == REQUIRED
    ensures LatestState(es + [e], stage) == Moved(LatestState(es, stage), e)
  {
    hide StringValue, OptionalStr, FirstValue, StageOf;
    var longer := es + [e];
    RequestValues([], e);
    assert [] + [e] == [e] == longer[|es|..];
    assert RequestStart(longer) == |es|;
    assert LatestState(longer, stage).reason == FirstValue([e], "reason");
  }

  lemma LatestDecided(es: seq<Event>, e: Event, stage: string)
    requires StageOf(e) == stage && e.eventType != REQUIRED
    ensures LatestState(es + [e], stage) == Moved(LatestState(es, stage), e)
  {
    hide StringValue, OptionalStr, FirstValue, StageOf, Decision;
    var longer, i := es + [e], RequestStart(es);
    assert longer[|longer| - 1] == e && longer[..|es|] == es;
    assert RequestStart(longer) == i;
    assert longer[i..] == es[i..] + [e];
    RequestValues(es[i..], e);
    if es == [] {
      assert es[i..] == [];
      RequestValues([], e);
    }
  }

  lemma RequestValues(es: seq<Event>, e: Event)
    ensures FirstValue(es + [e], "reason") == Or(FirstValue(es, "reason"), StringValue(e, "reason"))
    ensures FirstValue(es + [e], "approval_channel") ==
            Or(FirstValue(es, "approval_channel"), StringValue(e, "approval_channel"))
    ensures FirstValue([], "reason") == "" == FirstValue([], "approval_channel")
  {
    hide StringValue;
    FirstValueAppend(es, e, "reason");
    FirstValueAppend(es, e, "approval_channel");
  }

  /** The checkpoint of every stage is what its events say. */
  lemma {:induction false} CheckpointIsLatest(events: seq<Event>, task: string, stage: string)
    requires forall e :: e in events ==> Recognized(e) && TaskOf(e) == task
    ensures Find(Fold(events), task, stage) == LatestState(AboutStage(events, stage), stage)
  {
    hide Recognized, Moved, LatestState, Find, Put, StageOf;
    if events == [] {
      NoCheckpoint(task, stage);
    } else {
      var front, e := events[..|events| - 1], events[|events| - 1];
      assert events == front + [e];
      CheckpointIsLatest(front, task, stage);
      var cp := Fold(front);
      var moved := Moved(Find(cp, task, StageOf(e)), e);
      if StageOf(e) == stage {
        FindPut(cp, task, stage, moved);
        LatestMoves(AboutStage(front, stage), e, stage);
      } else {
        FindPutOther(cp, task, StageOf(e), moved, stage);
      }
    }
  }

  lemma NoCheckpoint(task: string, stage: string)
    ensures Find(Fold([]), task, stage) == LatestState([], stage)
  {
  }

  // ----- Open reviews -----

  /** Checkpoints of one task: required, one per stage */
  ghost predicate OneTask(cp: seq<Entry>, task: string) {
    && (forall x :: x in cp ==> x.task == task && x.state.required)
    && (forall i, j :: 0 <= i < j < |cp| ==> cp[i].stage != cp[j].stage)
  }

  lemma {:induction false} PutMembers(cp: seq<Entry>, task: string, stage: string, state: State)
    requires OneTask(cp, task) && state.required
    ensures OneTask(Put(cp, task, stage, state), task)
    ensures forall x :: x in Put(cp, task, stage, state) <==>
                          x == Entry(task, stage, state) || (x in cp && x.stage != stage)
  {
    if cp != [] {
      var x, rest := cp[0], cp[1..];
      assert cp == [x] + rest;
      assert x in cp;
      assert OneTask(rest, task);
      if x.stage != stage {
        PutMembers(rest, task, stage, state);
        var p := Put(rest, task, stage, state);
        forall k | 0 <= k < |p|
          ensures p[k].stage != x.stage
        {
          assert p[k] in p;
        }
      }
    }
  }

  lemma {:induction false} FoldOneTask(events: seq<Event>, task: string)
    requires forall e :: e in events ==> Recognized(e) && TaskOf(e) == task
    ensures OneTask(Fold(events), task)
  {
    hide Recognized, OneTask, Put, Find;
    if events == [] {
      assert OneTask([], task) by { NoEntries(task); }
    } else {
      var front, e := events[..|events| - 1], events[|events| - 1];
      assert events == front + [e];
      FoldOneTask(front, task);
      PutMembers(Fold(front), task, StageOf(e), Moved(Find(Fold(front), task, StageOf(e)), e));
    }
  }

  lemma NoEntries(task: string)
    ensures OneTask([], task)
  {
  }

  lemma {:induction false} FindEntry(cp: seq<Entry>, task: string, x: Entry)
    requires OneTask(cp, task) && x in cp
    ensures Find(cp, task, x.stage) == x.state
  {
    assert cp == [cp[0]] + cp[1..];
    assert cp[0] in cp;
    if x != cp[0] {
      var k :| 0 <= k < |cp[1..]| && cp[1..][k] == x;
      assert cp[k + 1] == x;
      FindEntry(cp[1..], task, x);
    }
  }

  lemma {:induction false} FoundEntry(cp: seq<Entry>, task: string, stage: string) returns (x: Entry)
    requires OneTask(cp, task) && Find(cp, task, stage).required
    ensures x in cp && x.stage == stage && x.state == Find(cp, task, stage)
  {
    assert cp == [cp[0]] + cp[1..];
    if cp[0].task == task && cp[0].stage == stage {
      x := cp[0];
    } else {
      x := FoundEntry(cp[1..], task, stage);
    }
  }

  predicate NotApproved(state: State) {
    state.decision != Some("approved")
  }

  lemma RankOf(state: State)
    requires state.required
    ensures Rank(state) == if NotApproved(state) then 0 else 1
  {
  }

  /** The state picked for a task is open if any of its checkpoints is. */
  lemma {:induction false} WorstIsOpen(cp: seq<Entry>)
    requires forall x :: x in cp ==> x.state.required
    ensures Worst(cp).None? <==> cp == []
    ensures Worst(cp).Some? ==> Worst(cp).value.required
    ensures (Worst(cp).Some? && NotApproved(Worst(cp).value)) <==> exists x :: x in cp && NotApproved(x.state)
  {
    hide Rank, NotApproved;
    if cp != [] {
      var front, last := cp[..|cp| - 1], cp[|cp| - 1];
      assert cp == front + [last];
      WorstIsOpen(front);
      RankOf(last.state);
      if front == [] {
        assert Worst(cp) == Some(last.state);
      } else {
        RankOf(Worst(front).value);
        if x :| x in front && NotApproved(x.state) {
          assert x in cp;
        }
      }
    }
  }

  /** `e` is the latest recognised event about its stage of its task. */
  ghost predicate LastOfStage(events: seq<Event>, e: Event) {
    && e in events && Recognized(e)
    && forall x :: x in events && Recognized(x) && TaskOf(x) == TaskOf(e) && StageOf(x) == StageOf(e) ==> EventLe(x, e)
  }

  ghost predicate ReviewIsOpen(events: seq<Event>, task: string) {
    exists e :: LastOfStage(events, e) && TaskOf(e) == task && e.eventType != APPROVED
  }

  lemma {:induction false} AboutStageMembers(events: seq<Event>, stage: string, e: Event)
    ensures e in AboutStage(events, stage) <==> e in events && StageOf(e) == stage
  {
    hide StageOf;
    if events != [] {
      AboutStageMembers(events[..|events| - 1], stage, e);
      assert events == events[..|events| - 1] + [events[|events| - 1]];
    }
  }

  lemma {:induction false} AboutStageLast(events: seq<Event>, stage: string)
    requires Increasing(events) && AboutStage(events, stage) != []
    ensures var last := AboutStage(events, stage)[|AboutStage(events, stage)| - 1];
            last in events && StageOf(last) == stage &&
            forall x :: x in events && StageOf(x) == stage ==> EventLe(x, last)
  {
    hide StageOf;
    var front, e := events[..|events| - 1], events[|events| - 1];
    assert events == front + [e];
    if StageOf(e) == stage {
      forall x | x in events
        ensures EventLe(x, e)
      {
        LastIsGreatest(events, x);
      }
    } else {
      AboutStageLast(front, stage);
    }
  }

  /** The stage's state is not an approval exactly if its last event is not one. */
  lemma StageIsOpen(es: seq<Event>, stage: string)
    requires es != [] && Recognized(es[|es| - 1])
    ensures LatestState(es, stage).required
    ensures NotApproved(LatestState(es, stage)) <==> es[|es| - 1].eventType != APPROVED
  {
    hide TaskOf;
  }

  /** A task's derived review is open exactly if the latest recognised event of some stage is not an approval. */
  lemma ReviewOpenIff(events: seq<Event>, task: string)
    requires Consistent(events)
    ensures (Lookup(ReviewStates(events), task).Some? && NotApproved(Lookup(ReviewStates(events), task).value))
            <==> ReviewIsOpen(events, task)
    ensures Lookup(ReviewStates(events), task).Some? ==> Lookup(ReviewStates(events), task).value.required
  {
    hide Recognized, TaskOf, StageOf, ReviewStates, Fold, History, EventLe, Worst, LatestState, NotApproved, Increasing;
    HistoryIs(events, task);
    var h := History(events, task);
    var cp := Fold(h);
    FoldOneTask(h, task);
    WorstIsOpen(cp);
    if x :| x in cp && NotApproved(x.state) {
      FindEntry(cp, task, x);
      CheckpointIsLatest(h, task, x.stage);
      OpenStageHasEvent(events, h, task, x.stage);
    }
    if e :| LastOfStage(events, e) && TaskOf(e) == task && e.eventType != APPROVED {
      var stage := StageOf(e);
      EventOpensStage(events, h, task, e);
      CheckpointIsLatest(h, task, stage);
      var x := FoundEntry(cp, task, stage);
    }
  }

  /** `e` is the latest visible event about its stage. */
  ghost predicate LastVisible(log: seq<Event>, recent: seq<Event>, listed: set<string>, e: Event) {
    && e in log && Recognized(e) && Visible(e, recent, listed)
    && forall x | x in log && Recognized(x) && Visible(x, recent, listed) && TaskOf(x) == TaskOf(e) && StageOf(x) == StageOf(e)
         :: EventLe(x, e)
  }

  /** What the queries show: a review is open exactly if the last visible event of some stage is not an approval. */
  lemma QueriesShowOpenIff(log: seq<Event>, recent: seq<Event>, review: seq<Event>, listed: set<string>, task: string)
    requires Consistent(log) && IsReviewQuery(review, log, listed) && forall e :: e in recent ==> e in log
    ensures var shown := Lookup(ReviewStates(recent + review), task);
            (shown.Some? && NotApproved(shown.value)) <==>
            exists e :: LastVisible(log, recent, listed, e) && TaskOf(e) == task && e.eventType != APPROVED
  {
    hide EventLe, Recognized, TaskOf, StageOf, ReviewStates, IsReviewQuery, Visible, NotApproved, APPROVED;
    forall e { QueryMembers(log, recent, review, listed, e); }
    ReviewOpenIff(recent + review, task);
    forall e
      ensures LastOfStage(recent + review, e) <==> LastVisible(log, recent, listed, e)
    {
    }
  }

  lemma OpenStageHasEvent(events: seq<Event>, h: seq<Event>, task: string, stage: string)
    requires Increasing(h) && forall e :: e in h <==> e in events && Recognized(e) && TaskOf(e) == task
    requires var s := LatestState(AboutStage(h, stage), stage); s.required && NotApproved(s)
    ensures ReviewIsOpen(events, task)
  {
    hide Recognized, TaskOf, StageOf, EventLe;
    var es := AboutStage(h, stage);
    assert es != [];
    AboutStageLast(h, stage);
    StageIsOpen(es, stage);
    assert LastOfStage(events, es[|es| - 1]);
  }

  lemma EventOpensStage(events: seq<Event>, h: seq<Event>, task: string, e: Event)
    requires Consistent(events)
    requires Increasing(h) && forall x :: x in h <==> x in events && Recognized(x) && TaskOf(x) == task
    requires LastOfStage(events, e) && TaskOf(e) == task && e.eventType != APPROVED
    ensures var s := LatestState(AboutStage(h, StageOf(e)), StageOf(e)); s.required && NotApproved(s)
  {
    hide Recognized, TaskOf, StageOf, EventLe, LatestState, NotApproved;
    var es := AboutStage(h, StageOf(e));
    AboutStageMembers(h, StageOf(e), e);
    AboutStageLast(h, StageOf(e));
    var last := es[|es| - 1];
    assert EventLe(e, last) && EventLe(last, e);
    assert last == e;
    StageIsOpen(es, StageOf(e));
  }

  // ----- What an operator is shown, in terms of the events alone -----

  /** `e` is a human-review event about the stage of the task. */
  predicate IsReviewEvent(e: Event, task: string, stage: string) {
    && task != ""
    && (if e.taskId.Some? && e.taskId.value != "" then e.taskId.value == task
        else "task_id" in e.detail && e.detail["task_id"] == Some(task))
    && (if "stage_id" in e.detail && e.detail["stage_id"].Some? then e.detail["stage_id"].value == stage else stage == "")
    && (|| e.eventType == "human_review.required" || e.eventType == "human_review.approved"
        || e.eventType == "human_review.rejected" || e.eventType == "human_review.changes_requested")
  }

  /** The latest one; of two at the same time the one with the larger id counts. */
  ghost predicate Latest(events: seq<Event>, e: Event, task: string, stage: string) {
    && e in events && IsReviewEvent(e, task, stage)
    && forall x :: x in events && IsReviewEvent(x, task, stage) ==>
         x.createdAt < e.createdAt || (x.createdAt == e.createdAt && x.eventId <= e.eventId)
  }

  /** The state says what the event says. */
  ghost predicate SaidBy(st: State, e: Event, stage: string) {
    && st.required && st.stageId == stage
    && (e.eventType == "human_review.required" ==>
          && st.decision == None && st.reviewer == None
          && st.reason == (if "reason" in e.detail && e.detail["reason"].Some? then e.detail["reason"].value else "")
          && st.approvalChannel ==
             if "approval_channel" in e.detail && e.detail["approval_channel"].Some?
             then e.detail["approval_channel"].value else "")
    && (e.eventType != "human_review.required" ==>
          st.reviewer == if "reviewer" in e.detail then e.detail["reviewer"] else None)
    && (e.eventType == "human_review.approved" ==> st.decision == Some("approved"))
    && (e.eventType == "human_review.rejected" ==> st.decision == Some("rejected"))
    && (e.eventType == "human_review.changes_requested" ==> st.decision == Some("changes_requested"))
  }

  lemma ReviewEventIs(e: Event, task: string, stage: string)
    ensures IsReviewEvent(e, task, stage) <==> Recognized(e) && TaskOf(e) == task && StageOf(e) == stage
  {
    TypeIs(e.eventType);
    hide REQUIRED, Decision;
  }

  lemma TypeIs(eventType: string)
    ensures "human_review." <= eventType && (eventType == REQUIRED || Decision(eventType).Some?) <==>
            || eventType == "human_review.required" || eventType == "human_review.approved"
            || eventType == "human_review.rejected" || eventType == "human_review.changes_requested"
  {
  }

  lemma LatestIsLast(events: seq<Event>, e: Event, task: string, stage: string)
    ensures Latest(events, e, task, stage) <==> LastOfStage(events, e) && TaskOf(e) == task && StageOf(e) == stage
  {
    hide Recognized, TaskOf, StageOf, IsReviewEvent;
    forall x { ReviewEventIs(x, task, stage); }
  }

  lemma LatestStateSays(es: seq<Event>, stage: string)
    requires es != [] && Recognized(es[|es| - 1])
    ensures SaidBy(LatestState(es, stage), es[|es| - 1], stage)
  {
    hide TaskOf;
    var last := es[|es| - 1];
    if last.eventType == REQUIRED {
      assert RequestStart(es) == |es| - 1 && es[|es| - 1..] == [] + [last];
      RequestValues([], last);
    }
  }

  /** The checkpoint that the fold leaves for a stage says what the latest event about the stage says. */
  lemma CheckpointSays(events: seq<Event>, e: Event, task: string, stage: string)
    requires Consistent(events) && Latest(events, e, task, stage)
    ensures SaidBy(Find(Fold(Sort(EventLe, events)), task, stage), e, stage)
  {
    hide Recognized, TaskOf, StageOf, EventLe, Fold, LatestState, Sort, SaidBy, Squeeze, About, ReviewStates, Worst;
    LatestIsLast(events, e, task, stage);
    HistoryIs(events, task);
    var ordered := Sort(EventLe, events);
    var h := History(events, task);
    FindOfTask(Fold(ordered), task, stage);
    FoldOfTask(ordered, task);
    FoldSqueezed(About(ordered, task));
    CheckpointIsLatest(h, task, stage);
    var es := AboutStage(h, stage);
    AboutStageMembers(h, stage, e);
    AboutStageLast(h, stage);
    assert es[|es| - 1] == e;
    LatestStateSays(es, stage);
  }

  /** The text that an event gives under the key */
  function Given(e: Event, key: string): string {
    if key in e.detail && e.detail[key].Some? then e.detail[key].value else ""
  }

  /** `v` is the first text given under the key from the `s`-th event on, if there is one. */
  ghost predicate FirstGiven(es: seq<Event>, s: nat, key: string, v: string) {
    || (v == "" && forall j :: s <= j < |es| ==> Given(es[j], key) == "")
    || (v != "" && exists i :: s <= i < |es| && Given(es[i], key) == v && forall j :: s <= j < i ==> Given(es[j], key) == "")
  }

  /** No request comes after the `s`-th event, which is one unless there was none. */
  ghost predicate CurrentRequest(es: seq<Event>, s: nat) {
    && s < |es| && (s == 0 || es[s].eventType == "human_review.required")
    && forall j :: s < j < |es| ==> es[j].eventType != "human_review.required"
  }

  lemma GivenIs(e: Event, key: string)
    ensures StringValue(e, key) == Given(e, key)
  {
  }

  lemma {:induction false} FirstValueIs(es: seq<Event>, key: string)
    ensures FirstGiven(es, 0, key, FirstValue(es, key))
  {
    hide Given, StringValue;
    if es != [] {
      var front, e := es[..|es| - 1], es[|es| - 1];
      FirstValueIs(front, key);
      GivenIs(e, key);
      assert forall j :: 0 <= j < |front| ==> front[j] == es[j];
    }
  }

  lemma {:induction false} RequestStartIs(es: seq<Event>, s: nat)
    requires CurrentRequest(es, s)
    ensures RequestStart(es) == s
  {
    if es[|es| - 1].eventType != REQUIRED {
      var front := es[..|es| - 1];
      if s < |front| {
        RequestStartIs(front, s);
      }
    }
  }

  /** The reason and the channel of a stage are the first ones given since its review was last requested. */
  lemma CheckpointReasons(events: seq<Event>, task: string, stage: string, s: nat)
    requires Consistent(events) && CurrentRequest(AboutStage(History(events, task), stage), s)
    ensures var es, st := AboutStage(History(events, task), stage), Find(Fold(Sort(EventLe, events)), task, stage);
            FirstGiven(es, s, "reason", st.reason) && FirstGiven(es, s, "approval_channel", st.approvalChannel)
  {
    hide Recognized, TaskOf, StageOf, EventLe, Fold, LatestState, Sort, Squeeze, About, AboutStage, ReviewStates, Worst,
         Given, FirstGiven, CurrentRequest, FirstValue;
    HistoryIs(events, task);
    FindOfTask(Fold(Sort(EventLe, events)), task, stage);
    FoldOfTask(Sort(EventLe, events), task);
    FoldSqueezed(About(Sort(EventLe, events), task));
    CheckpointIsLatest(History(events, task), task, stage);
    LatestReasons(AboutStage(History(events, task), stage), stage, s);
  }

  lemma LatestReasons(es: seq<Event>, stage: string, s: nat)
    requires CurrentRequest(es, s)
    ensures FirstGiven(es, s, "reason", LatestState(es, stage).reason)
    ensures FirstGiven(es, s, "approval_channel", LatestState(es, stage).approvalChannel)
  {
    hide FirstValue, Given, OptionalStr, FirstGiven, Decision;
    RequestStartIs(es, s);
    hide RequestStart;
    FirstValueIs(es[s..], "reason");
    FirstValueIs(es[s..], "approval_channel");
    FirstGivenSince(es, s, "reason", FirstValue(es[s..], "reason"));
    FirstGivenSince(es, s, "approval_channel", FirstValue(es[s..], "approval_channel"));
  }

  lemma FirstGivenSince(es: seq<Event>, s: nat, key: string, v: string)
    requires s <= |es| && FirstGiven(es[s..], 0, key, v)
    ensures FirstGiven(es, s, key, v)
  {
    hide Given;
    var rest := es[s..];
    assert forall j :: s <= j < |es| ==> es[j] == rest[j - s];
    if v != "" {
      var i :| 0 <= i < |rest| && Given(rest[i], key) == v && forall j :: 0 <= j < i ==> Given(rest[j], key) == "";
      assert Given(es[s + i], key) == v;
    }
  }

  lemma {:induction false} WorstIsEntry(cp: seq<Entry>) returns (x: Entry)
    requires Worst(cp).Some?
    ensures x in cp && Worst(cp) == Some(x.state)
  {
    hide Rank;
    var front, last := cp[..|cp| - 1], cp[|cp| - 1];
    assert cp == front + [last];
    if Worst(cp) == Some(last.state) {
      x := last;
    } else {
      x := WorstIsEntry(front);
    }
  }

  /** The state shown for a task says what the latest event about one of its stages says: one that is not an approval
      if some stage has such a latest event. */
  lemma ShownStateSays(events: seq<Event>, task: string) returns (e: Event, stage: string)
    requires Consistent(events) && task in ReviewStates(events)
    ensures Latest(events, e, task, stage) && SaidBy(ReviewStates(events)[task], e, stage)
    ensures e.eventType == "human_review.approved" ==>
              forall x, other :: Latest(events, x, task, other) ==> x.eventType == "human_review.approved"
  {
    hide Recognized, TaskOf, StageOf, EventLe, Fold, LatestState, Sort, ReviewStates, Worst, Increasing, Latest;
    HistoryIs(events, task);
    var h := History(events, task);
    var cp := Fold(h);
    FoldOneTask(h, task);
    WorstIsOpen(cp);
    var x := WorstIsEntry(cp);
    stage := x.stage;
    FindEntry(cp, task, x);
    CheckpointIsLatest(h, task, stage);
    var es := AboutStage(h, stage);
    NothingNotRequired(stage);
    AboutStageLast(h, stage);
    e := es[|es| - 1];
    LatestStateSays(es, stage);
    LatestIsLast(events, e, task, stage);
    ReviewOpenIff(events, task);
    if e.eventType == "human_review.approved" {
      forall y, other | Latest(events, y, task, other)
        ensures y.eventType == "human_review.approved"
      {
        LatestIsLast(events, y, task, other);
      }
    }
  }

  lemma NothingNotRequired(stage: string)
    ensures !LatestState([], stage).required
  {
  }

  /** A task is shown if and only if there is a review event about it. */
  lemma ShownIff(events: seq<Event>, task: string)
    requires Consistent(events)
    ensures task in ReviewStates(events) <==> exists e, stage :: e in events && IsReviewEvent(e, task, stage)
  {
    hide Recognized, TaskOf, StageOf, EventLe, Fold, Sort, ReviewStates, Worst, IsReviewEvent;
    HistoryIs(events, task);
    var h := History(events, task);
    FoldOneTask(h, task);
    WorstIsOpen(Fold(h));
    FoldNonempty(h, task);
    if h != [] {
      assert h[0] in h;
      ReviewEventIs(h[0], task, StageOf(h[0]));
    }
    if e, stage :| e in events && IsReviewEvent(e, task, stage) {
      ReviewEventIs(e, task, stage);
      assert e in h;
    }
  }

  lemma FoldNonempty(h: seq<Event>, task: string)
    requires forall e :: e in h ==> Recognized(e) && TaskOf(e) == task
    ensures Fold(h) == [] <==> h == []
  {
    hide Recognized, Moved, Find, Put;
    if h != [] {
      var front, e := h[..|h| - 1], h[|h| - 1];
      assert e in h;
      PutNonempty(Fold(front), TaskOf(e), StageOf(e), Moved(Find(Fold(front), TaskOf(e), StageOf(e)), e));
    }
  }

  lemma PutNonempty(cp: seq<Entry>, task: string, stage: string, state: State)
    ensures Put(cp, task, stage, state) != []
  {
  }

  /** Of the checkpoints of a task the first open one is shown, or else the first one. */
  lemma {:induction false} FirstOpenIsShown(cp: seq<Entry>, task: string, i: nat)
    requires i < |cp| && cp[i].task == task && forall x :: x in cp && x.task == task ==> x.state.required
    requires forall j :: 0 <= j < i && cp[j].task == task ==>
               cp[j].state.decision == Some("approved") && cp[i].state.decision != Some("approved")
    requires cp[i].state.decision == Some("approved") ==>
               forall j :: 0 <= j < |cp| && cp[j].task == task ==> cp[j].state.decision == Some("approved")
    ensures task in ByTask(cp) && ByTask(cp)[task] == cp[i].state
  {
    var front, last := cp[..|cp| - 1], cp[|cp| - 1];
    hide Rank;
    assert forall j :: 0 <= j < |front| ==> front[j] == cp[j] && cp[j] in cp;
    assert last in cp && cp[i] in cp;
    RankOf(cp[i].state);
    if last.task == task {
      RankOf(last.state);
    }
    if i < |front| {
      FirstOpenIsShown(front, task, i);
    } else {
      ApprovedBefore(front, task);
    }
  }

  lemma {:induction false} ApprovedBefore(cp: seq<Entry>, task: string)
    requires forall j :: 0 <= j < |cp| && cp[j].task == task ==>
               cp[j].state.required && cp[j].state.decision == Some("approved")
    ensures task in ByTask(cp) ==> Rank(ByTask(cp)[task]) == 1
    ensures (forall j :: 0 <= j < |cp| ==> cp[j].task != task) ==> task !in ByTask(cp)
  {
    if cp != [] {
      ApprovedBefore(cp[..|cp| - 1], task);
    }
  }
}
