/** Running a plan: repeat the ready set, its batches and marking them done.  The run completes exactly the pending
    tasks that no dead dependency blocks, each once, dependencies first. */
module PlanRun {
  import opened Basics
  import opened Tasks
  import opened TaskManager
  import opened BatchPlanner
  import opened DependencyGraph
  import opened StableSort
  import opened Counting

  function NodesOf(ts: seq<Task>): seq<Node> {
    seq(|ts|, i requires 0 <= i < |ts| => Node(ts[i].id, ts[i].dependencies))
  }

  predicate DistinctIds(ts: seq<Task>) {
    forall i, j :: 0 <= i < j < |ts| ==> ts[i].id != ts[j].id
  }

  function IdsOf(ts: seq<Task>): set<string> {
    set t | t in ts :: t.id
  }

  // ----- The run -----

  /** Each batch is marked done when it has run. */
  function MarkBatches(ts: seq<Task>, plan: seq<seq<Task>>): seq<Task>
    decreases |plan|
  {
    if plan == [] then ts else MarkBatches(Mark(ts, IdsOf(plan[0]), DONE), plan[1..])
  }

  function RoundPlan(ts: seq<Task>, maxParallel: int): seq<seq<Task>> {
    Plan(ReadyTasks(ts), maxParallel)
  }

  function Round(ts: seq<Task>, maxParallel: int): seq<Task> {
    MarkBatches(ts, RoundPlan(ts, maxParallel))
  }

  /** The task list after `n` rounds */
  function RunTasks(ts: seq<Task>, maxParallel: int, n: nat): seq<Task>
    decreases n
  {
    if n == 0 then ts else RunTasks(Round(ts, maxParallel), maxParallel, n - 1)
  }

  /** The tasks run in `n` rounds, batch after batch */
  function RunLog(ts: seq<Task>, maxParallel: int, n: nat): seq<Task>
    decreases n
  {
    if n == 0 then []
    else Flatten(RoundPlan(ts, maxParallel)) + RunLog(Round(ts, maxParallel), maxParallel, n - 1)
  }

  // ----- Dead dependencies -----

  /** The id names no task, or only tasks that are neither pending nor done. */
  ghost predicate Dead(ts: seq<Task>, d: string) {
    forall t :: t in ts && t.id == d ==> t.status != PENDING && t.status != DONE
  }

  ghost predicate HasDeadDependency(ts: seq<Task>, t: Task) {
    exists d :: d in t.dependencies && Dead(ts, d)
  }

  /** A chain of pending tasks, each depending on the next, whose last depends on a dead id */
  ghost predicate DeadChain(ts: seq<Task>, chain: seq<Task>) {
    && chain != []
    && (forall i :: 0 <= i < |chain| ==> chain[i] in ts && chain[i].status == PENDING)
    && (forall i :: 0 <= i < |chain| - 1 ==> chain[i + 1].id in chain[i].dependencies)
    && HasDeadDependency(ts, chain[|chain| - 1])
  }

  ghost predicate Blocked(ts: seq<Task>, t: Task) {
    exists chain: seq<Task> :: DeadChain(ts, chain) && chain[0] == t
  }

  // ----- Ready tasks -----

  lemma ReadyLeOrder()
    ensures TotalPreorder(ReadyLe)
  {
    hide PriorityRank, StringLe;
    forall a, b
      ensures ReadyLe(a, b) || ReadyLe(b, a)
    {
      StringLeTotal(a.phase, b.phase);
    }
    forall a, b, c | ReadyLe(a, b) && ReadyLe(b, c)
      ensures ReadyLe(a, c)
    {
      if StringLe(a.phase, b.phase) && StringLe(b.phase, c.phase) {
        StringLeTransitive(a.phase, b.phase, c.phase);
      }
    }
  }

  lemma {:induction false} ReadyInMembers(ts: seq<Task>, done: set<string>, t: Task)
    ensures t in ReadyIn(ts, done) <==> t in ts && IsReady(t, done)
  {
    hide IsReady;
    if ts != [] {
      ReadyInMembers(ts[1..], done, t);
      assert ts == [ts[0]] + ts[1..];
    }
  }

  lemma {:induction false} ReadyInDistinct(ts: seq<Task>, done: set<string>)
    requires NoRepetition(ts)
    ensures NoRepetition(ReadyIn(ts, done))
  {
    hide IsReady;
    if ts != [] {
      assert ts == [ts[0]] + ts[1..];
      assert forall i, j :: 0 <= i < j < |ts[1..]| ==> ts[1..][i] != ts[1..][j];
      ReadyInDistinct(ts[1..], done);
      ReadyInMembers(ts[1..], done, ts[0]);
    }
  }

  lemma MultisetToDistinct(ts: seq<Task>)
    requires forall t :: multiset(ts)[t] <= 1
    ensures NoRepetition(ts)
  {
    forall i, j | 0 <= i < j < |ts|
      ensures ts[i] != ts[j]
    {
      assert ts == ts[..j] + [ts[j]] + ts[j + 1..];
      assert multiset(ts)[ts[j]] <= 1;
      assert ts[i] == ts[..j][i];
    }
  }

  lemma SameMultiset(a: seq<Task>, b: seq<Task>)
    requires multiset(a) == multiset(b)
    ensures forall t :: t in a <==> t in b
    ensures NoRepetition(a) <==> NoRepetition(b)
  {
    forall t
      ensures t in a <==> t in b
    {
      assert t in a <==> t in multiset(a);
      assert t in b <==> t in multiset(b);
    }
    if NoRepetition(a) {
      forall t { DistinctOnce(a, t); }
      MultisetToDistinct(b);
    }
    if NoRepetition(b) {
      forall t { DistinctOnce(b, t); }
      MultisetToDistinct(a);
    }
  }

  /** `get_ready_tasks` returns exactly the pending tasks whose dependencies are all done, sorted by priority and
      phase, ties in list order. */
  lemma ReadyTasksAre(ts: seq<Task>)
    ensures forall t :: t in ReadyTasks(ts) <==> t in ts && IsReady(t, DoneIds(ts))
    ensures Sorted(ReadyLe, ReadyTasks(ts))
    ensures forall k :: Class(ReadyLe, k, ReadyTasks(ts)) == Class(ReadyLe, k, ReadyIn(ts, DoneIds(ts)))
    ensures NoRepetition(ts) ==> NoRepetition(ReadyTasks(ts))
  {
    var r := ReadyIn(ts, DoneIds(ts));
    ReadyLeOrder();
    SortIsSorted(ReadyLe, r);
    SameMultiset(ReadyTasks(ts), r);
    forall t
      ensures t in ReadyTasks(ts) <==> t in ts && IsReady(t, DoneIds(ts))
    {
      ReadyInMembers(ts, DoneIds(ts), t);
    }
    forall k
      ensures Class(ReadyLe, k, ReadyTasks(ts)) == Class(ReadyLe, k, r)
    {
      SortIsStable(ReadyLe, r, k);
    }
    if NoRepetition(ts) {
      ReadyInDistinct(ts, DoneIds(ts));
    }
  }

  /** The four priorities, the most urgent first; any other comes after them. */
  ghost predicate MoreUrgent(p: string, q: string) {
    || (p == "critical" && q != "critical")
    || (p == "high" && q != "critical" && q != "high")
    || (p == "medium" && q != "critical" && q != "high" && q != "medium")
    || (p == "low" && q != "critical" && q != "high" && q != "medium" && q != "low")
  }

  ghost predicate SameUrgency(p: string, q: string) {
    !MoreUrgent(p, q) && !MoreUrgent(q, p)
  }

  lemma ReadyLeReads(a: Task, b: Task)
    ensures ReadyLe(a, b) <==>
            MoreUrgent(a.priority, b.priority) || (SameUrgency(a.priority, b.priority) && StringLe(a.phase, b.phase))
  {
  }

  lemma IsReadyReads(ts: seq<Task>, t: Task)
    ensures IsReady(t, DoneIds(ts)) <==>
            t.status == "pending"
            && forall d :: d in t.dependencies ==> exists u :: u in ts && u.id == d && u.status == "done"
  {
    forall d
      ensures d in DoneIds(ts) <==> exists u :: u in ts && u.id == d && u.status == "done"
    {
    }
    hide DoneIds;
  }

  lemma {:induction false} BeforeInReady(ts: seq<Task>, done: set<string>, x: Task, y: Task)
    requires Before(ReadyIn(ts, done), x, y)
    ensures Before(ts, x, y)
  {
    hide IsReady, Before;
    if ts == [] {
      NothingBefore(x, y);
    } else {
      var rest := ReadyIn(ts[1..], done);
      assert ts == [ts[0]] + ts[1..];
      BeforeCons(ts[0], ts[1..], x, y);
      ReadyInMembers(ts[1..], done, y);
      BeforeCons(ts[0], rest, x, y);
      assert [] + rest == rest;
      if Before(rest, x, y) {
        BeforeInReady(ts[1..], done, x, y);
      }
    }
  }

  lemma NothingBefore(x: Task, y: Task)
    ensures !Before([], x, y)
  {
  }

  /** The ready list in the plan's own terms: the pending tasks whose dependencies are all ids of done tasks; critical,
      high, medium and low ones first, then by phase, and of two with equal keys first the one listed first. */
  lemma ReadyListIs(ts: seq<Task>)
    ensures forall t :: t in ReadyTasks(ts) <==>
                          && t in ts && t.status == "pending"
                          && forall d :: d in t.dependencies ==> exists u :: u in ts && u.id == d && u.status == "done"
    ensures forall x, y | Before(ReadyTasks(ts), x, y) ::
              || MoreUrgent(x.priority, y.priority)
              || (SameUrgency(x.priority, y.priority) && x.phase != y.phase && StringLe(x.phase, y.phase))
              || (SameUrgency(x.priority, y.priority) && x.phase == y.phase && Before(ts, x, y))
  {
    ReadyTasksAre(ts);
    ReadyLeOrder();
    hide IsReady, ReadyLe, MoreUrgent, StringLe, TotalPreorder, Sort, ReadyIn;
    forall t { IsReadyReads(ts, t); }
    forall x, y | Before(ReadyTasks(ts), x, y)
      ensures || MoreUrgent(x.priority, y.priority)
              || (SameUrgency(x.priority, y.priority) && x.phase != y.phase && StringLe(x.phase, y.phase))
              || (SameUrgency(x.priority, y.priority) && x.phase == y.phase && Before(ts, x, y))
    {
      assert ReadyLe(x, y);
      ReadyLeReads(x, y);
      ReadyLeReads(y, x);
      if SameUrgency(x.priority, y.priority) && x.phase == y.phase {
        SortKeepsTies(ReadyLe, ReadyIn(ts, DoneIds(ts)), x, y);
        BeforeInReady(ts, DoneIds(ts), x, y);
      }
    }
  }

  lemma DistinctIdsDistinct(ts: seq<Task>)
    requires DistinctIds(ts)
    ensures NoRepetition(ts)
    ensures forall t, u :: t in ts && u in ts && t.id == u.id ==> t == u
  {
  }

  // ----- No ready task: every pending task is blocked -----

  lemma {:induction false} ExtendChain(ts: seq<Task>, t: Task, u: Task)
    requires t in ts && t.status == PENDING && u.id in t.dependencies && Blocked(ts, u)
    ensures Blocked(ts, t)
  {
    var chain: seq<Task> :| DeadChain(ts, chain) && chain[0] == u;
    var longer := [t] + chain;
    forall i | 0 <= i < |longer| - 1
      ensures longer[i + 1].id in longer[i].dependencies
    {
      if i > 0 {
        assert chain[i - 1 + 1].id in chain[i - 1].dependencies;
      }
    }
    assert longer[|longer| - 1] == chain[|chain| - 1];
    assert DeadChain(ts, longer);
  }

  lemma {:induction false} StuckByRank(ts: seq<Task>, rank: string -> nat, t: Task)
    requires Ranked(NodesOf(ts), rank)
    requires forall u :: u in ts ==> !IsReady(u, DoneIds(ts))
    requires t in ts && t.status == PENDING
    ensures Blocked(ts, t)
    decreases rank(t.id)
  {
    var d :| d in t.dependencies && d !in DoneIds(ts);
    if Dead(ts, d) {
      assert DeadChain(ts, [t]);
    } else {
      var u :| u in ts && u.id == d && (u.status == PENDING || u.status == DONE);
      assert u.status == PENDING;
      DependencyIsEdge(ts, t, u);
      StuckByRank(ts, rank, u);
      ExtendChain(ts, t, u);
    }
  }

  lemma DependencyIsEdge(ts: seq<Task>, t: Task, u: Task)
    requires t in ts && u in ts && u.id in t.dependencies
    ensures Edge(NodesOf(ts), t.id, u.id)
  {
    var g := NodesOf(ts);
    var i :| 0 <= i < |ts| && ts[i] == t;
    var j :| 0 <= j < |ts| && ts[j] == u;
    assert g[i] in g && g[j] in g;
  }

  /** A plan without dependency cycles that has pending tasks but no ready one is held up by dead dependencies: every
      pending task reaches one through pending tasks. */
  lemma NoReadyMeansBlocked(ts: seq<Task>)
    requires Acyclic(NodesOf(ts)) && ReadyTasks(ts) == []
    ensures forall t :: t in ts && t.status == PENDING ==> Blocked(ts, t)
  {
    var rank := AcyclicIsRanked(NodesOf(ts));
    ReadyTasksAre(ts);
    forall u | u in ts
      ensures !IsReady(u, DoneIds(ts))
    {
      assert u !in ReadyTasks(ts);
    }
    forall t | t in ts && t.status == PENDING
      ensures Blocked(ts, t)
    {
      StuckByRank(ts, rank, t);
    }
  }

  /** A blocked task is never ready. */
  lemma BlockedIsNotReady(ts: seq<Task>, t: Task)
    requires DistinctIds(ts) && Blocked(ts, t)
    ensures !IsReady(t, DoneIds(ts))
  {
    DistinctIdsDistinct(ts);
    var chain: seq<Task> :| DeadChain(ts, chain) && chain[0] == t;
    if |chain| == 1 {
      var d :| d in t.dependencies && Dead(ts, d);
      assert d !in DoneIds(ts);
    } else {
      assert chain[0 + 1].id in chain[0].dependencies;
      assert chain[1].id !in DoneIds(ts);
    }
  }

  // ----- One round -----

  lemma {:induction false} MarkBatchesIs(ts: seq<Task>, plan: seq<seq<Task>>)
    ensures MarkBatches(ts, plan) == Mark(ts, IdsOf(Flatten(plan)), DONE)
    decreases |plan|
  {
    if plan == [] {
      assert Mark(ts, {}, DONE) == ts;
    } else {
      MarkBatchesIs(Mark(ts, IdsOf(plan[0]), DONE), plan[1..]);
      MarkTwice(ts, IdsOf(plan[0]), IdsOf(Flatten(plan[1..])));
      IdsOfConcat(plan[0], Flatten(plan[1..]));
    }
  }

  lemma MarkTwice(ts: seq<Task>, a: set<string>, b: set<string>)
    ensures Mark(Mark(ts, a, DONE), b, DONE) == Mark(ts, a + b, DONE)
  {
  }

  lemma IdsOfConcat(a: seq<Task>, b: seq<Task>)
    ensures IdsOf(a + b) == IdsOf(a) + IdsOf(b)
  {
    forall id | id in IdsOf(a) + IdsOf(b)
      ensures id in IdsOf(a + b)
    {
      var t :| (t in a || t in b) && t.id == id;
      assert t in a + b;
    }
  }

  lemma DistinctTellable(ts: seq<Task>)
    requires NoRepetition(ts)
    ensures Tellable(ts)
  {
  }

  /** A round runs exactly the ready tasks, each once, and marks them done. */
  lemma RoundIs(ts: seq<Task>, maxParallel: int)
    requires DistinctIds(ts)
    ensures var run := Flatten(RoundPlan(ts, maxParallel));
            && Round(ts, maxParallel) == Mark(ts, IdsOf(run), DONE)
            && NoRepetition(run)
            && forall t :: t in run <==> t in ts && IsReady(t, DoneIds(ts))
  {
    hide IsReady, NoRepetition, DistinctIds, Plan, ReadyTasks;
    DistinctIdsDistinct(ts);
    ReadyTasksAre(ts);
    DistinctTellable(ReadyTasks(ts));
    PlanIsGood(ReadyTasks(ts), maxParallel);
    MarkBatchesIs(ts, RoundPlan(ts, maxParallel));
    SameMultiset(Flatten(RoundPlan(ts, maxParallel)), ReadyTasks(ts));
  }

  lemma MarkKeepsGraph(ts: seq<Task>, ids: set<string>)
    ensures var ts' := Mark(ts, ids, DONE);
            NodesOf(ts') == NodesOf(ts) && (DistinctIds(ts) ==> DistinctIds(ts'))
  {
    var ts' := Mark(ts, ids, DONE);
    assert forall i :: 0 <= i < |ts| ==> ts'[i] == Marked(ts[i], ids, DONE);
  }

  lemma MarkAt(ts: seq<Task>, run: seq<Task>, i: nat)
    requires DistinctIds(ts) && i < |ts| && forall t :: t in run ==> t in ts
    ensures Mark(ts, IdsOf(run), DONE)[i] == if ts[i] in run then ts[i].(status := DONE) else ts[i]
  {
    DistinctIdsDistinct(ts);
    assert ts[i] in ts;
    if ts[i].id in IdsOf(run) {
      var t :| t in run && t.id == ts[i].id;
    }
  }

  /** What marking a list of pending tasks done changes */
  lemma MarkDone(ts: seq<Task>, run: seq<Task>)
    requires DistinctIds(ts) && forall t :: t in run ==> t in ts && t.status == PENDING
    ensures var ts' := Mark(ts, IdsOf(run), DONE);
            && (forall t :: t in ts' && t.status != DONE <==> t in ts && t.status != DONE && t !in run)
            && DoneIds(ts') == DoneIds(ts) + IdsOf(run)
  {
    var ts' := Mark(ts, IdsOf(run), DONE);
    forall i | 0 <= i < |ts|
      ensures ts'[i] == if ts[i] in run then ts[i].(status := DONE) else ts[i]
    {
      MarkAt(ts, run, i);
    }
    hide Mark, DistinctIds;
    forall t
      ensures t in ts' && t.status != DONE <==> t in ts && t.status != DONE && t !in run
    {
      if t in ts' && t.status != DONE {
        var i :| 0 <= i < |ts| && ts'[i] == t;
      }
      if t in ts && t.status != DONE && t !in run {
        var i :| 0 <= i < |ts| && ts[i] == t;
        assert ts'[i] == t;
      }
    }
    MarkDoneIds(ts, run, ts');
  }

  lemma MarkDoneIds(ts: seq<Task>, run: seq<Task>, ts': seq<Task>)
    requires |ts'| == |ts| && forall t :: t in run ==> t in ts
    requires forall i :: 0 <= i < |ts| ==> ts'[i] == if ts[i] in run then ts[i].(status := DONE) else ts[i]
    ensures DoneIds(ts') == DoneIds(ts) + IdsOf(run)
  {
    forall id | id in DoneIds(ts')
      ensures id in DoneIds(ts) + IdsOf(run)
    {
      var i :| 0 <= i < |ts| && ts'[i].status == DONE && ts'[i].id == id;
      assert ts[i] in ts;
    }
    forall id | id in DoneIds(ts) + IdsOf(run)
      ensures id in DoneIds(ts')
    {
      var t :| t in ts && t.id == id && (t.status == DONE || t in run);
      var i :| 0 <= i < |ts| && ts[i] == t;
      assert ts'[i] in ts';
    }
  }

  /** Marking ready tasks done blocks no task and unblocks none. */
  lemma BlockedIsKept(ts: seq<Task>, run: seq<Task>, t: Task)
    requires DistinctIds(ts) && forall u :: u in run ==> u in ts && IsReady(u, DoneIds(ts))
    ensures Blocked(Mark(ts, IdsOf(run), DONE), t) <==> Blocked(ts, t)
  {
    var ts' := Mark(ts, IdsOf(run), DONE);
    MarkDone(ts, run);
    forall d
      ensures Dead(ts', d) <==> Dead(ts, d)
    {
      DeadIsKept(ts, run, d);
    }
    if Blocked(ts, t) {
      var chain: seq<Task> :| DeadChain(ts, chain) && chain[0] == t;
      forall i | 0 <= i < |chain|
        ensures chain[i] in ts'
      {
        ChainTail(ts, chain, i);
        BlockedIsNotReady(ts, chain[i]);
      }
      assert DeadChain(ts', chain);
    }
    if Blocked(ts', t) {
      var chain: seq<Task> :| DeadChain(ts', chain) && chain[0] == t;
      assert DeadChain(ts, chain);
    }
  }

  lemma DeadIsKept(ts: seq<Task>, run: seq<Task>, d: string)
    requires DistinctIds(ts) && forall u :: u in run ==> u in ts && u.status == PENDING
    ensures Dead(Mark(ts, IdsOf(run), DONE), d) <==> Dead(ts, d)
  {
    var ts' := Mark(ts, IdsOf(run), DONE);
    MarkDone(ts, run);
    if Dead(ts, d) {
      forall t | t in ts' && t.id == d
        ensures t.status != PENDING && t.status != DONE
      {
        assert t.status == DONE ==> d in DoneIds(ts');
      }
    }
    if Dead(ts', d) {
      forall t | t in ts && t.id == d
        ensures t.status != PENDING && t.status != DONE
      {
        assert t in run || t.status == DONE ==> d in DoneIds(ts');
        assert t !in run && t.status != DONE ==> t in ts';
      }
    }
  }

  lemma ChainTail(ts: seq<Task>, chain: seq<Task>, i: nat)
    requires DeadChain(ts, chain) && i < |chain|
    ensures Blocked(ts, chain[i])
  {
    var tail := chain[i..];
    forall k | 0 <= k < |tail| - 1
      ensures tail[k + 1].id in tail[k].dependencies
    {
      assert chain[i + k + 1].id in chain[i + k].dependencies;
    }
    assert tail[|tail| - 1] == chain[|chain| - 1];
    assert DeadChain(ts, tail);
  }

  // ----- Whole runs -----

  predicate Pending(t: Task) {
    t.status == PENDING
  }

  lemma {:induction false} CountFalls(ts: seq<Task>, ids: set<string>)
    ensures Count(Pending, Mark(ts, ids, DONE)) <= Count(Pending, ts)
    ensures (exists t :: t in ts && t.status == PENDING && t.id in ids) ==>
              Count(Pending, Mark(ts, ids, DONE)) < Count(Pending, ts)
  {
    if ts != [] {
      var ts', front := Mark(ts, ids, DONE), ts[..|ts| - 1];
      assert ts'[..|ts'| - 1] == Mark(front, ids, DONE);
      CountFalls(front, ids);
      assert ts == front + [ts[|ts| - 1]];
    }
  }

  /** Once no task is ready, further rounds do nothing. */
  lemma {:induction false} StuckStays(ts: seq<Task>, maxParallel: int, n: nat)
    requires DistinctIds(ts) && ReadyTasks(ts) == []
    ensures RunTasks(ts, maxParallel, n) == ts && RunLog(ts, maxParallel, n) == []
    decreases n
  {
    hide ReadyTasks;
    if n > 0 {
      assert RoundPlan(ts, maxParallel) == [];
      StuckStays(ts, maxParallel, n - 1);
    }
  }

  /** Every dependency of a logged task was done before the run or is logged earlier. */
  ghost predicate InDependencyOrder(log: seq<Task>, done: set<string>) {
    forall k :: 0 <= k < |log| ==> forall d :: d in log[k].dependencies ==> d in done || d in IdsOf(log[..k])
  }

  lemma OrderOfConcat(a: seq<Task>, b: seq<Task>, done: set<string>)
    requires InDependencyOrder(a, done) && InDependencyOrder(b, done + IdsOf(a))
    ensures InDependencyOrder(a + b, done)
  {
    hide IdsOf;
    var log := a + b;
    forall k, d | 0 <= k < |log| && d in log[k].dependencies
      ensures d in done || d in IdsOf(log[..k])
    {
      if k < |a| {
        assert log[..k] == a[..k];
      } else {
        assert log[..k] == a + b[..k - |a|];
        IdsOfConcat(a, b[..k - |a|]);
        assert b[k - |a|] == log[k];
      }
    }
  }

  /** What holds of the first `n` rounds of any run */
  ghost predicate RunInvariant(ts: seq<Task>, final: seq<Task>, log: seq<Task>) {
    && final == Mark(ts, IdsOf(log), DONE)
    && (forall t :: t in log ==> t in ts && t.status == PENDING && !Blocked(ts, t))
    && DistinctIds(log)
    && InDependencyOrder(log, DoneIds(ts))
  }

  lemma {:induction false} RunKeepsInvariant(ts: seq<Task>, maxParallel: int, n: nat)
    requires DistinctIds(ts)
    ensures RunInvariant(ts, RunTasks(ts, maxParallel, n), RunLog(ts, maxParallel, n))
    decreases n
  {
    hide Blocked, RoundPlan, DistinctIds, InDependencyOrder, Mark, Round, IsReady, DoneIds;
    if n == 0 {
      EmptyRun(ts);
    } else {
      var run, ts' := Flatten(RoundPlan(ts, maxParallel)), Round(ts, maxParallel);
      RoundIs(ts, maxParallel);
      ReadyIsPending(ts);
      MarkKeepsGraph(ts, IdsOf(run));
      RunKeepsInvariant(ts', maxParallel, n - 1);
      var final, later := RunTasks(ts', maxParallel, n - 1), RunLog(ts', maxParallel, n - 1);
      RoundThenRest(ts, run, later, final);
    }
  }

  lemma ReadyIsPending(ts: seq<Task>)
    ensures forall t :: IsReady(t, DoneIds(ts)) ==> t.status == PENDING
  {
  }

  lemma EmptyRun(ts: seq<Task>)
    ensures RunInvariant(ts, ts, [])
  {
    assert Mark(ts, {}, DONE) == ts;
  }

  lemma RoundThenRest(ts: seq<Task>, run: seq<Task>, later: seq<Task>, final: seq<Task>)
    requires DistinctIds(ts) && NoRepetition(run)
    requires forall t :: t in run <==> t in ts && IsReady(t, DoneIds(ts))
    requires RunInvariant(Mark(ts, IdsOf(run), DONE), final, later)
    ensures RunInvariant(ts, final, run + later)
  {
    var ts' := Mark(ts, IdsOf(run), DONE);
    ReadyIsPending(ts);
    MarkDone(ts, run);
    MarkTwice(ts, IdsOf(run), IdsOf(later));
    IdsOfConcat(run, later);
    forall t | t in run + later
      ensures t in ts && t.status == PENDING && !Blocked(ts, t)
    {
      BlockedIsKept(ts, run, t);
      if t in run && Blocked(ts, t) {
        BlockedIsNotReady(ts, t);
      }
    }
    RunIdsDistinct(ts, run, later);
    forall k, d | 0 <= k < |run| && d in run[k].dependencies
      ensures d in DoneIds(ts)
    {
      assert run[k] in run;
    }
    OrderOfConcat(run, later, DoneIds(ts));
  }

  lemma RunIdsDistinct(ts: seq<Task>, run: seq<Task>, later: seq<Task>)
    requires DistinctIds(ts) && NoRepetition(run) && DistinctIds(later)
    requires forall t :: t in run ==> t in ts
    requires forall t :: t in later ==> t in ts && t !in run
    ensures DistinctIds(run + later)
  {
    DistinctIdsDistinct(ts);
    var log := run + later;
    forall i, j | 0 <= i < j < |log|
      ensures log[i].id != log[j].id
    {
      assert log[i] in ts && log[j] in ts;
      assert i < |run| ==> log[i] in run;
      assert j >= |run| ==> log[j] in later;
    }
  }

  /** As many rounds as there are tasks exhaust the ready tasks. */
  lemma {:induction false} RunExhausts(ts: seq<Task>, maxParallel: int, n: nat)
    requires DistinctIds(ts) && n >= Count(Pending, ts)
    ensures ReadyTasks(RunTasks(ts, maxParallel, n)) == []
    decreases n
  {
    hide ReadyTasks, IsReady, RoundPlan, Mark, DistinctIds;
    ReadyTasksAre(ts);
    if ReadyTasks(ts) == [] {
      StuckStays(ts, maxParallel, n);
    } else {
      var t := ReadyTasks(ts)[0];
      ReadyIsPending(ts);
      CountPositive(Pending, ts, t);
      RoundIs(ts, maxParallel);
      var run := Flatten(RoundPlan(ts, maxParallel));
      assert t in run;
      CountFalls(ts, IdsOf(run));
      MarkKeepsGraph(ts, IdsOf(run));
      RunExhausts(Round(ts, maxParallel), maxParallel, n - 1);
    }
  }

  /** The run of a plan with distinct ids and no dependency cycle, for any parallel limit: it logs exactly the pending
      tasks that no dead dependency blocks, each once and after its dependencies; those are done at the end, and every
      other task has kept its status. */
  lemma RunCompletesUnblocked(ts: seq<Task>, maxParallel: int)
    requires DistinctIds(ts) && Acyclic(NodesOf(ts))
    ensures var log := RunLog(ts, maxParallel, |ts|);
            && RunTasks(ts, maxParallel, |ts|) == Mark(ts, IdsOf(log), DONE)
            && (forall t :: t in log <==> t in ts && t.status == PENDING && !Blocked(ts, t))
            && DistinctIds(log)
            && InDependencyOrder(log, DoneIds(ts))
  {
    hide ReadyTasks, Blocked, DistinctIds, Acyclic, InDependencyOrder, RunTasks, RunLog;
    var n := |ts|;
    var final, log := RunTasks(ts, maxParallel, n), RunLog(ts, maxParallel, n);
    CountBound(Pending, ts);
    RunKeepsInvariant(ts, maxParallel, n);
    RunExhausts(ts, maxParallel, n);
    MarkKeepsGraph(ts, IdsOf(log));
    MarkDone(ts, log);
    NoReadyMeansBlocked(final);
    forall t | t in ts && t.status == PENDING && !Blocked(ts, t)
      ensures t in log
    {
      if t !in log {
        BlockedAfterRun(ts, log, t);
      }
    }
  }

  /** The same, task by task: exactly the logged tasks are done at the end and nothing else has changed, and every
      dependency of a logged task is the id of a task that was done or is logged before it. */
  lemma RunIs(ts: seq<Task>, maxParallel: int)
    requires DistinctIds(ts) && Acyclic(NodesOf(ts))
    ensures var log, final := RunLog(ts, maxParallel, |ts|), RunTasks(ts, maxParallel, |ts|);
            && NoRepetition(log)
            && |final| == |ts|
            && (forall i :: 0 <= i < |ts| ==> final[i] == if ts[i] in log then ts[i].(status := "done") else ts[i])
            && forall k, d | 0 <= k < |log| && d in log[k].dependencies ::
                 exists t: Task :: t.id == d && (t in log[..k] || (t in ts && t.status == "done"))
  {
    hide Blocked, DistinctIds, Acyclic, RunTasks, RunLog, NoRepetition, InDependencyOrder, IdsOf;
    var log := RunLog(ts, maxParallel, |ts|);
    RunCompletesUnblocked(ts, maxParallel);
    DistinctIdsDistinct(log);
    forall i | 0 <= i < |ts| { MarkAt(ts, log, i); }
    OrderReads(ts, log);
  }

  lemma OrderReads(ts: seq<Task>, log: seq<Task>)
    requires InDependencyOrder(log, DoneIds(ts))
    ensures forall k, d | 0 <= k < |log| && d in log[k].dependencies ::
              exists t: Task :: t.id == d && (t in log[..k] || (t in ts && t.status == "done"))
  {
    forall k, d | 0 <= k < |log| && d in log[k].dependencies
      ensures exists t: Task :: t.id == d && (t in log[..k] || (t in ts && t.status == "done"))
    {
      if d in DoneIds(ts) {
        var t :| t in ts && t.status == "done" && t.id == d;
      } else {
        assert d in IdsOf(log[..k]);
        var t :| t in log[..k] && t.id == d;
      }
    }
  }

  /** A task that the final state of a run blocks was blocked from the start. */
  lemma BlockedAfterRun(ts: seq<Task>, log: seq<Task>, t: Task)
    requires DistinctIds(ts) && forall u :: u in log ==> u in ts && u.status == PENDING
    requires Blocked(Mark(ts, IdsOf(log), DONE), t)
    ensures Blocked(ts, t)
  {
    var ts' := Mark(ts, IdsOf(log), DONE);
    MarkDone(ts, log);
    var chain: seq<Task> :| DeadChain(ts', chain) && chain[0] == t;
    var last := chain[|chain| - 1];
    var d :| d in last.dependencies && Dead(ts', d);
    DeadIsKept(ts, log, d);
    assert DeadChain(ts, chain);
  }

  /** Every dependency names a task. */
  ghost predicate Resolved(ts: seq<Task>) {
    forall t :: t in ts ==> forall d :: d in t.dependencies ==> d in IdsOf(ts)
  }

  lemma NothingIsDead(ts: seq<Task>, t: Task, d: string)
    requires Resolved(ts) && t in ts && d in t.dependencies
    requires forall u :: u in ts ==> u.status == PENDING || u.status == DONE
    ensures !Dead(ts, d)
  {
    assert d in IdsOf(ts);
    var u :| u in ts && u.id == d;
  }

  /** If in addition every dependency names a task and every task is pending or done, the run completes the plan. */
  lemma RunCompletesPlan(ts: seq<Task>, maxParallel: int)
    requires DistinctIds(ts) && Acyclic(NodesOf(ts)) && Resolved(ts)
    requires forall t :: t in ts ==> t.status == PENDING || t.status == DONE
    ensures forall t :: t in RunTasks(ts, maxParallel, |ts|) ==> t.status == DONE
    ensures forall t :: t in RunLog(ts, maxParallel, |ts|) <==> t in ts && t.status == PENDING
  {
    hide RunTasks, RunLog, Acyclic, Resolved, InDependencyOrder, IdsOf, Dead, DistinctIds;
    RunCompletesUnblocked(ts, maxParallel);
    forall t
      ensures !Blocked(ts, t)
    {
      if Blocked(ts, t) {
        var chain: seq<Task> :| DeadChain(ts, chain) && chain[0] == t;
        var last := chain[|chain| - 1];
        var d :| d in last.dependencies && Dead(ts, d);
        NothingIsDead(ts, last, d);
      }
    }
    hide Mark;
    MarkDone(ts, RunLog(ts, maxParallel, |ts|));
  }
}
