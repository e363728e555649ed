/** `plan_batches`: ready tasks grouped greedily into batches without shared key files. */
module BatchPlanner {
  import opened Basics
  import opened Tasks
  import opened Counting

  function Files(t: Task): set<string> {
    set f | f in t.keyFiles
  }

  lemma NoFiles(t: Task)
    ensures Files(t) == {} <==> t.keyFiles == []
  {
    if t.keyFiles != [] {
      assert t.keyFiles[0] in Files(t);
    }
  }

  /** The files claimed by a batch */
  function FilesOf(batch: seq<Task>): set<string> {
    if batch == [] then {} else FilesOf(batch[..|batch| - 1]) + Files(batch[|batch| - 1])
  }

  predicate Fits(t: Task, batch: seq<Task>) {
    Files(t) == {} || FilesOf(batch) * Files(t) == {}
  }

  datatype Split = Split(batch: seq<Task>, next: seq<Task>)

  /** One pass over the remaining tasks: a task that fits joins the batch, others are put off; a full batch puts off
      everything that was not looked at. */
  function Fill(rest: seq<Task>, batch: seq<Task>, next: seq<Task>, maxParallel: int): (r: Split)
    ensures |r.batch| + |r.next| == |rest| + |batch| + |next|
    ensures |r.batch| >= |batch|
    ensures rest != [] && batch == [] ==> r.batch != []
  {
    if rest == [] then Split(batch, next)
    else if Fits(rest[0], batch) then
      if |batch| + 1 >= maxParallel then Split(batch + [rest[0]], next + rest[1..])
      else Fill(rest[1..], batch + [rest[0]], next, maxParallel)
    else Fill(rest[1..], batch, next + [rest[0]], maxParallel)
  }

  /** Equal tasks have key files, so that they conflict with each other. */
  predicate Tellable(ts: seq<Task>) {
    forall i, j :: 0 <= i < j < |ts| && ts[i] == ts[j] ==> ts[i].keyFiles != []
  }

  /** `remaining.index(task)`: the first equal element */
  function IndexOf(ts: seq<Task>, t: Task): (i: nat)
    requires t in ts
    ensures i < |ts| && ts[i] == t && t !in ts[..i]
  {
    if ts[0] == t then 0
    else
      assert ts == [ts[0]] + ts[1..];
      1 + IndexOf(ts[1..], t)
  }

  lemma {:induction false} IndexAtMost(ts: seq<Task>, k: nat)
    requires k < |ts|
    ensures IndexOf(ts, ts[k]) <= k
  {
    if ts[0] != ts[k] {
      assert ts == [ts[0]] + ts[1..] && ts[1..][k - 1] == ts[k];
      IndexAtMost(ts[1..], k - 1);
    }
  }

  /** One pass with the lookup the code uses to find where a full batch ended */
  function FillByIndex(remaining: seq<Task>, k: nat, batch: seq<Task>, next: seq<Task>, maxParallel: int): Split
    requires k <= |remaining|
    decreases |remaining| - k
  {
    if k == |remaining| then Split(batch, next)
    else if Fits(remaining[k], batch) then
      if |batch| + 1 >= maxParallel
      then Split(batch + [remaining[k]], next + remaining[IndexOf(remaining, remaining[k]) + 1..])
      else FillByIndex(remaining, k + 1, batch + [remaining[k]], next, maxParallel)
    else FillByIndex(remaining, k + 1, batch, next + [remaining[k]], maxParallel)
  }

  /** Every task with files among the first `k` is in the batch or was put off: either way it no longer fits. */
  ghost predicate Seen(ts: seq<Task>, k: nat, batch: seq<Task>)
    requires k <= |ts|
  {
    forall j :: 0 <= j < k && Files(ts[j]) != {} ==> !Fits(ts[j], batch)
  }

  lemma SeenJoins(ts: seq<Task>, k: nat, batch: seq<Task>)
    requires k < |ts| && Seen(ts, k, batch)
    ensures Seen(ts, k + 1, batch + [ts[k]])
    ensures !Fits(ts[k], batch) ==> Seen(ts, k + 1, batch)
  {
    hide Files;
    var longer := batch + [ts[k]];
    assert longer[..|batch|] == batch;
    assert FilesOf(longer) == FilesOf(batch) + Files(ts[k]);
  }

  /** If equal tasks have files, the lookup by equality finds the current position: of equal tasks only the first can
      fit. */
  lemma {:induction false} IndexIsPosition(remaining: seq<Task>, k: nat, batch: seq<Task>, next: seq<Task>, maxParallel: int)
    requires Tellable(remaining) && k <= |remaining| && Seen(remaining, k, batch)
    ensures FillByIndex(remaining, k, batch, next, maxParallel) == Fill(remaining[k..], batch, next, maxParallel)
    decreases |remaining| - k
  {
    if k < |remaining| {
      var t := remaining[k];
      assert remaining[k..][0] == t && remaining[k..][1..] == remaining[k + 1..];
      if Fits(t, batch) {
        FirstFits(remaining, k, batch);
      }
      SeenJoins(remaining, k, batch);
      hide Fits, Tellable, Seen;
      if Fits(t, batch) {
        IndexIsPosition(remaining, k + 1, batch + [t], next, maxParallel);
      } else {
        IndexIsPosition(remaining, k + 1, batch, next + [t], maxParallel);
      }
    }
  }

  lemma FirstFits(ts: seq<Task>, k: nat, batch: seq<Task>)
    requires k < |ts| && Seen(ts, k, batch) && Fits(ts[k], batch)
    requires Files(ts[k]) != {} || Tellable(ts)
    ensures IndexOf(ts, ts[k]) == k
  {
    NoFiles(ts[k]);
    hide Fits, Files;
    var i := IndexOf(ts, ts[k]);
    IndexAtMost(ts, k);
    assert ts[i] == ts[k];
  }

  /** The inner loop of `plan_batches`: one batch from the remaining tasks */
  method FillBatch(remaining: seq<Task>, maxParallel: int) returns (batch: seq<Task>, nextRemaining: seq<Task>)
    requires maxParallel >= 2
    ensures Split(batch, nextRemaining) == FillByIndex(remaining, 0, [], [], maxParallel)
    ensures Tellable(remaining) ==> Split(batch, nextRemaining) == Fill(remaining, [], [], maxParallel)
  {
    if Tellable(remaining) {
      IndexIsPosition(remaining, 0, [], [], maxParallel);
      assert remaining[0..] == remaining;
    }
    hide Fill, Tellable;
    batch, nextRemaining := [], [];
    var batchFiles: set<string> := {};
    var k := 0;
    while k < |remaining|
      invariant k <= |remaining| && batchFiles == FilesOf(batch) && |batch| < maxParallel
      invariant FillByIndex(remaining, k, batch, nextRemaining, maxParallel) == FillByIndex(remaining, 0, [], [], maxParallel)
    {
      var task := remaining[k];
      var taskFiles := Files(task);
      if taskFiles == {} || batchFiles * taskFiles == {} {
        assert (batch + [task])[..|batch|] == batch;
        batch := batch + [task];
        batchFiles := batchFiles + taskFiles;
        if |batch| >= maxParallel {
          var idx := IndexOf(remaining, task);
          nextRemaining := nextRemaining + remaining[idx + 1..];
          return;
        }
      } else {
        nextRemaining := nextRemaining + [task];
      }
      k := k + 1;
    }
  }

  // ----- The whole plan -----

  predicate IsFree(t: Task) {
    t.keyFiles == []
  }

  lemma {:induction false} FreeOfParts(a: seq<Task>, b: seq<Task>, i: nat)
    requires i <= |b| && Count(IsFree, a) == 0
    ensures Count(IsFree, a + b[i..]) <= Count(IsFree, b)
    ensures i > 0 && IsFree(b[i - 1]) ==> Count(IsFree, a + b[i..]) < Count(IsFree, b)
  {
    hide IsFree;
    CountAppend(IsFree, a, b[i..]);
    assert b == b[..i] + b[i..];
    CountAppend(IsFree, b[..i], b[i..]);
    if i > 0 && IsFree(b[i - 1]) {
      CountPositive(IsFree, b[..i], b[..i][i - 1]);
    }
  }

  lemma SkippedHasFiles(next: seq<Task>, t: Task, batch: seq<Task>)
    requires Count(IsFree, next) == 0 && !Fits(t, batch)
    ensures Count(IsFree, next + [t]) == 0
  {
    CountOneMore(IsFree, next, t);
  }

  /** The tasks that are left after a pass, compared with those before it */
  predicate Shrinks(ts: seq<Task>, next: seq<Task>) {
    || Count(IsFree, next) < Count(IsFree, ts)
    || (Count(IsFree, next) <= Count(IsFree, ts) && |next| < |ts|)
  }

  /** Tasks that are put off have files.  If the task that makes the batch full has none, the lookup drops a task without
      files; otherwise it finds the current position, and the list gets shorter. */
  lemma {:induction false} PassShrinks(ts: seq<Task>, k: nat, batch: seq<Task>, next: seq<Task>, maxParallel: int)
    requires k <= |ts| && ts != [] && |batch| < maxParallel && Seen(ts, k, batch)
    requires Count(IsFree, next) == 0 && |batch| + |next| == k && (k > 0 ==> batch != [])
    ensures Shrinks(ts, FillByIndex(ts, k, batch, next, maxParallel).next)
    ensures FillByIndex(ts, k, batch, next, maxParallel).batch != []
    decreases |ts| - k
  {
    hide Seen, Count, IsFree;
    if k < |ts| {
      var t := ts[k];
      SeenJoins(ts, k, batch);
      if !Fits(t, batch) {
        FirstJoins(t, batch);
        SkippedHasFiles(next, t, batch);
        PassShrinks(ts, k + 1, batch, next + [t], maxParallel);
      } else if |batch| + 1 < maxParallel {
        PassShrinks(ts, k + 1, batch + [t], next, maxParallel);
      } else {
        var i := IndexOf(ts, t);
        FreeOfParts(next, ts, i + 1);
        if !IsFree(t) {
          HasFiles(t);
          FirstFits(ts, k, batch);
        }
      }
    }
  }

  lemma FirstJoins(t: Task, batch: seq<Task>)
    requires !Fits(t, batch)
    ensures batch != []
  {
  }

  lemma HasFiles(t: Task)
    requires !IsFree(t)
    ensures Files(t) != {}
  {
    NoFiles(t);
  }

  /** The passes of the loop, one batch after the other.  The loop ends on every list. */
  function Batches(remaining: seq<Task>, maxParallel: int): seq<seq<Task>>
    requires maxParallel >= 2
    decreases Count(IsFree, remaining), |remaining|
  {
    if remaining == [] then []
    else
      var r := FillByIndex(remaining, 0, [], [], maxParallel);
      PassShrinks(remaining, 0, [], [], maxParallel);
      [r.batch] + Batches(r.next, maxParallel)
  }

  function Plan(ready: seq<Task>, maxParallel: int): seq<seq<Task>> {
    if maxParallel <= 1 then seq(|ready|, i requires 0 <= i < |ready| => [ready[i]])
    else Batches(ready, maxParallel)
  }

  method PlanBatches(readyTasks: seq<Task>, maxParallel: int) returns (batches: seq<seq<Task>>)
    ensures batches == Plan(readyTasks, maxParallel)
  {
    if maxParallel <= 1 {
      return seq(|readyTasks|, i requires 0 <= i < |readyTasks| => [readyTasks[i]]);
    }
    batches := [];
    hide FillByIndex, FilesOf, Count;
    var remaining := readyTasks;
    while remaining != []
      invariant batches + Batches(remaining, maxParallel) == Batches(readyTasks, maxParallel)
      decreases Count(IsFree, remaining), |remaining|
    {
      PassShrinks(remaining, 0, [], [], maxParallel);
      var batch, nextRemaining := FillBatch(remaining, maxParallel);
      if batch != [] {
        batches := batches + [batch];
      }
      remaining := nextRemaining;
    }
  }

  // ----- What one pass does -----

  /** The positions, in order, at which the tasks of `b` are found in `ts` */
  ghost predicate Positions(b: seq<Task>, ts: seq<Task>, at: seq<nat>) {
    && |at| == |b|
    && (forall i :: 0 <= i < |at| ==> at[i] < |ts| && ts[at[i]] == b[i])
    && (forall i, j :: 0 <= i < j < |at| ==> at[i] < at[j])
  }

  /** The tasks of `b` are found in `ts`, in the same order. */
  ghost predicate InOrder(b: seq<Task>, ts: seq<Task>) {
    exists at: seq<nat> :: Positions(b, ts, at)
  }

  /** The two tasks have a key file in common. */
  predicate Conflict(a: Task, b: Task) {
    exists f :: f in a.keyFiles && f in b.keyFiles
  }

  predicate Independent(batch: seq<Task>) {
    forall i, j :: 0 <= i < j < |batch| ==> !Conflict(batch[i], batch[j])
  }

  /** Why `t` was put off when `batch` was filled from `ts` */
  ghost predicate PutOff(ts: seq<Task>, batch: seq<Task>, t: Task, maxParallel: int) {
    || |batch| == maxParallel
    || Reason(ts, batch, t)
  }

  lemma {:induction false} FilesOfMembers(batch: seq<Task>, f: string)
    ensures f in FilesOf(batch) <==> exists u :: u in batch && f in Files(u)
  {
    if batch != [] {
      var front, last := batch[..|batch| - 1], batch[|batch| - 1];
      FilesOfMembers(front, f);
      assert batch == front + [last];
      if f in FilesOf(front) {
        var u :| u in front && f in Files(u);
        assert u in batch;
      }
    }
  }

  lemma NothingInOrder(ts: seq<Task>)
    ensures InOrder([], ts)
  {
    assert Positions([], ts, []);
  }

  lemma InOrderMember(b: seq<Task>, ts: seq<Task>, t: Task) returns (i: nat)
    requires InOrder(b, ts) && t in b
    ensures i < |ts| && ts[i] == t
  {
    var at: seq<nat> :| Positions(b, ts, at);
    var k :| 0 <= k < |b| && b[k] == t;
    i := at[k];
  }

  lemma InOrderTransitive(a: seq<Task>, b: seq<Task>, c: seq<Task>)
    requires InOrder(a, b) && InOrder(b, c)
    ensures InOrder(a, c)
  {
    var f: seq<nat> :| Positions(a, b, f);
    var g: seq<nat> :| Positions(b, c, g);
    assert Positions(a, c, seq(|a|, i requires 0 <= i < |a| => g[f[i]]));
  }

  lemma InOrderAppend(b: seq<Task>, ts: seq<Task>, x: seq<Task>)
    requires InOrder(b, ts)
    ensures InOrder(b, ts + x) && InOrder(b + x, ts + x)
  {
    var at: seq<nat> :| Positions(b, ts, at);
    assert Positions(b, ts + x, at);
    var more := seq(|x|, i requires 0 <= i < |x| => |ts| + i);
    assert Positions(b + x, ts + x, at + more);
  }

  lemma BeforeInOrder(b: seq<Task>, ts: seq<Task>, u: Task, t: Task)
    requires InOrder(b, ts) && Before(b, u, t)
    ensures Before(ts, u, t)
  {
    var at: seq<nat> :| Positions(b, ts, at);
    var i, j :| 0 <= i < j < |b| && b[i] == u && b[j] == t;
    assert ts[at[i]] == u && ts[at[j]] == t;
  }

  lemma TellableInOrder(b: seq<Task>, ts: seq<Task>)
    requires Tellable(ts) && InOrder(b, ts)
    ensures Tellable(b)
  {
    var at: seq<nat> :| Positions(b, ts, at);
    forall i, j | 0 <= i < j < |b| && b[i] == b[j]
      ensures b[i].keyFiles != []
    {
      assert ts[at[i]] == ts[at[j]];
    }
  }

  /** `a` and `b` split `ts`, each in the order of `ts`. */
  ghost predicate SplitInOrder(ts: seq<Task>, a: seq<Task>, b: seq<Task>) {
    InOrder(a, ts) && InOrder(b, ts) && multiset(a) + multiset(b) == multiset(ts)
  }

  lemma SplitAppend(ts: seq<Task>, a: seq<Task>, b: seq<Task>, x: seq<Task>)
    requires SplitInOrder(ts, a, b)
    ensures SplitInOrder(ts + x, a + x, b) && SplitInOrder(ts + x, a, b + x)
  {
    hide InOrder;
    InOrderAppend(a, ts, x);
    InOrderAppend(b, ts, x);
  }

  /** Why `t` does not fit the batch */
  ghost predicate Reason(ts: seq<Task>, batch: seq<Task>, t: Task) {
    exists u :: u in batch && Conflict(u, t) && Before(ts, u, t)
  }

  /** Halfway through a pass: what joined the batch and what was put off among the first k tasks */
  ghost predicate Filling(all: seq<Task>, k: nat, batch: seq<Task>, next: seq<Task>) {
    && k <= |all|
    && SplitInOrder(all[..k], batch, next)
    && Independent(batch)
    && forall t :: t in next ==> Reason(all, batch, t)
  }

  /** What a finished pass guarantees: the batch and the tasks put off split the input in order, the batch is within
      the limit and free of conflicts, and every task put off has a reason. */
  ghost predicate GoodSplit(all: seq<Task>, r: Split, maxParallel: int) {
    && r.batch != [] && |r.batch| <= maxParallel
    && SplitInOrder(all, r.batch, r.next)
    && Independent(r.batch)
    && forall t :: t in r.next ==> PutOff(all, r.batch, t, maxParallel)
  }

  lemma FittingHasNoConflict(batch: seq<Task>, t: Task)
    requires Fits(t, batch)
    ensures forall i :: 0 <= i < |batch| ==> !Conflict(batch[i], t)
  {
    forall i | 0 <= i < |batch|
      ensures !Conflict(batch[i], t)
    {
      if f :| f in batch[i].keyFiles && f in t.keyFiles {
        assert batch[i] in batch && f in Files(batch[i]) && f in Files(t);
        FilesOfMembers(batch, f);
        assert f in FilesOf(batch) * Files(t);
      }
    }
  }

  lemma FillingJoins(all: seq<Task>, k: nat, batch: seq<Task>, next: seq<Task>)
    requires Filling(all, k, batch, next) && k < |all| && Fits(all[k], batch)
    ensures Filling(all, k + 1, batch + [all[k]], next)
  {
    FittingHasNoConflict(batch, all[k]);
    hide Conflict, Fits, FilesOf, Files, Before, SplitInOrder;
    var b := batch + [all[k]];
    assert all[..k + 1] == all[..k] + [all[k]];
    SplitAppend(all[..k], batch, next, [all[k]]);
    forall x | x in next
      ensures Reason(all, b, x)
    {
      var u :| u in batch && Conflict(u, x) && Before(all, u, x);
      assert u in b;
    }
  }

  lemma FindConflict(batch: seq<Task>, t: Task) returns (u: Task)
    requires !Fits(t, batch)
    ensures u in batch && Conflict(u, t)
  {
    var f :| f in FilesOf(batch) * Files(t);
    FilesOfMembers(batch, f);
    u :| u in batch && f in Files(u);
  }

  lemma FillingSkips(all: seq<Task>, k: nat, batch: seq<Task>, next: seq<Task>)
    requires Filling(all, k, batch, next) && k < |all| && !Fits(all[k], batch)
    ensures Filling(all, k + 1, batch, next + [all[k]])
  {
    var t := all[k];
    var u := FindConflict(batch, t);
    hide Conflict, Fits, FilesOf, Files;
    var i := InOrderMember(batch, all[..k], u);
    assert all[i] == u && Before(all, u, t);
    hide SplitInOrder, InOrder, Before;
    assert all[..k + 1] == all[..k] + [t];
    SplitAppend(all[..k], batch, next, [t]);
    assert Reason(all, batch, t);
  }

  lemma FillingEnds(all: seq<Task>, k: nat, batch: seq<Task>, next: seq<Task>, maxParallel: int)
    requires Filling(all, k, batch, next) && batch != []
    requires |batch| == maxParallel || (k == |all| && |batch| <= maxParallel)
    ensures GoodSplit(all, Split(batch, next + all[k..]), maxParallel)
  {
    hide SplitInOrder, Reason;
    assert all == all[..k] + all[k..];
    SplitAppend(all[..k], batch, next, all[k..]);
  }

  lemma {:induction false} FillFrom(all: seq<Task>, k: nat, batch: seq<Task>, next: seq<Task>, maxParallel: int)
    requires all != [] && maxParallel >= 2
    requires Filling(all, k, batch, next) && |batch| < maxParallel
    requires k > 0 ==> batch != []
    ensures GoodSplit(all, Fill(all[k..], batch, next, maxParallel), maxParallel)
    decreases |all| - k
  {
    hide Filling, GoodSplit;
    FillingBound(all, k, batch, next);
    if k == |all| {
      FillingEnds(all, k, batch, next, maxParallel);
      assert next + all[k..] == next;
    } else {
      assert all[k..][1..] == all[k + 1..];
      if Fits(all[k], batch) {
        FillingJoins(all, k, batch, next);
        if |batch| + 1 >= maxParallel {
          FillingEnds(all, k + 1, batch + [all[k]], next, maxParallel);
        } else {
          FillFrom(all, k + 1, batch + [all[k]], next, maxParallel);
        }
      } else {
        FillingSkips(all, k, batch, next);
        FillFrom(all, k + 1, batch, next + [all[k]], maxParallel);
      }
    }
  }

  lemma FillingBound(all: seq<Task>, k: nat, batch: seq<Task>, next: seq<Task>)
    requires Filling(all, k, batch, next)
    ensures k <= |all|
  {
  }

  lemma FillSplits(all: seq<Task>, maxParallel: int)
    requires all != [] && maxParallel >= 2
    ensures GoodSplit(all, Fill(all, [], [], maxParallel), maxParallel)
    ensures InOrder(Fill(all, [], [], maxParallel).next, all)
  {
    assert all[0..] == all;
    NothingInOrder(all[..0]);
    assert Filling(all, 0, [], []);
    FillFrom(all, 0, [], [], maxParallel);
  }

  /** What a pass of the code guarantees, if equal tasks have files */
  lemma PassSplits(ts: seq<Task>, maxParallel: int)
    requires Tellable(ts) && ts != [] && maxParallel >= 2
    ensures GoodSplit(ts, FillByIndex(ts, 0, [], [], maxParallel), maxParallel)
    ensures InOrder(FillByIndex(ts, 0, [], [], maxParallel).next, ts)
    ensures |FillByIndex(ts, 0, [], [], maxParallel).next| < |ts|
  {
    hide Fill, GoodSplit, InOrder;
    IndexIsPosition(ts, 0, [], [], maxParallel);
    assert ts[0..] == ts;
    FillSplits(ts, maxParallel);
    SplitIsSmaller(ts, Fill(ts, [], [], maxParallel), maxParallel);
  }

  lemma SplitIsSmaller(all: seq<Task>, r: Split, maxParallel: int)
    requires GoodSplit(all, r, maxParallel)
    ensures |r.next| < |all|
  {
    hide InOrder, Independent, PutOff;
    assert |multiset(r.batch) + multiset(r.next)| == |r.batch| + |r.next|;
    assert |multiset(all)| == |all|;
  }

  // ----- What the whole plan does -----

  function Flatten(plan: seq<seq<Task>>): seq<Task> {
    if plan == [] then [] else plan[0] + Flatten(plan[1..])
  }

  /** The batches partition the ready tasks.  Each is nonempty, within the limit, free of shared files and in input
      order; a task that is only in a later batch shares a file with an earlier-listed member of every batch before
      it that is not full. */
  ghost predicate GoodPlan(ready: seq<Task>, plan: seq<seq<Task>>, maxParallel: int) {
    && multiset(Flatten(plan)) == multiset(ready)
    && (forall i :: 0 <= i < |plan| ==> GoodBatch(ready, plan[i], maxParallel))
    && (forall i, j, t :: 0 <= i < j < |plan| && t in plan[j] ==> PutOff(ready, plan[i], t, maxParallel))
  }

  ghost predicate GoodBatch(ready: seq<Task>, batch: seq<Task>, maxParallel: int) {
    && batch != [] && |batch| <= maxParallel
    && Independent(batch)
    && InOrder(batch, ready)
  }

  /** A batch of the tasks put off is a batch of all tasks. */
  lemma LiftBatch(all: seq<Task>, next: seq<Task>, batch: seq<Task>, maxParallel: int)
    requires InOrder(next, all) && GoodBatch(next, batch, maxParallel)
    ensures GoodBatch(all, batch, maxParallel)
  {
    hide InOrder;
    InOrderTransitive(batch, next, all);
  }

  lemma LiftPutOff(all: seq<Task>, next: seq<Task>, batch: seq<Task>, t: Task, maxParallel: int)
    requires InOrder(next, all) && PutOff(next, batch, t, maxParallel)
    ensures PutOff(all, batch, t, maxParallel)
  {
    hide InOrder, Before;
    if |batch| != maxParallel {
      var u :| u in batch && Conflict(u, t) && Before(next, u, t);
      BeforeInOrder(next, all, u, t);
    }
  }

  lemma {:induction false} InFlatten(plan: seq<seq<Task>>, j: nat, t: Task)
    requires j < |plan| && t in plan[j]
    ensures t in Flatten(plan)
  {
    if j > 0 {
      InFlatten(plan[1..], j - 1, t);
    }
  }

  lemma {:induction false} BatchesAreGood(ready: seq<Task>, maxParallel: int)
    requires maxParallel >= 2 && Tellable(ready)
    ensures GoodPlan(ready, Batches(ready, maxParallel), maxParallel)
    decreases |ready|
  {
    hide FillByIndex, GoodBatch, PutOff, InOrder, Tellable, Count;
    if ready != [] {
      var r := FillByIndex(ready, 0, [], [], maxParallel);
      PassSplits(ready, maxParallel);
      TellableInOrder(r.next, ready);
      BatchesAreGood(r.next, maxParallel);
      var plan, later := Batches(ready, maxParallel), Batches(r.next, maxParallel);
      assert plan == [r.batch] + later && plan[1..] == later;
      SplitIsBatch(ready, r, maxParallel);
      forall i | 0 <= i < |plan|
        ensures GoodBatch(ready, plan[i], maxParallel)
      {
        if i > 0 {
          assert plan[i] == later[i - 1];
          LiftBatch(ready, r.next, plan[i], maxParallel);
        }
      }
      forall i, j, t | 0 <= i < j < |plan| && t in plan[j]
        ensures PutOff(ready, plan[i], t, maxParallel)
      {
        assert plan[j] == later[j - 1];
        if i > 0 {
          assert plan[i] == later[i - 1];
          LiftPutOff(ready, r.next, plan[i], t, maxParallel);
        } else {
          InFlatten(later, j - 1, t);
          assert t in multiset(Flatten(later));
        }
      }
    }
  }

  lemma SplitIsBatch(all: seq<Task>, r: Split, maxParallel: int)
    requires GoodSplit(all, r, maxParallel)
    ensures GoodBatch(all, r.batch, maxParallel)
  {
  }

  /** With a limit of one or less every ready task is a batch of its own, in order. */
  lemma {:induction false} SinglesFlatten(ready: seq<Task>)
    ensures Flatten(Plan(ready, 1)) == ready
  {
    if ready != [] {
      SinglesFlatten(ready[1..]);
      assert Plan(ready, 1)[1..] == Plan(ready[1..], 1);
    }
  }

  /** The plan of a list of tasks in which equal tasks have key files, for any limit */
  lemma PlanIsGood(ready: seq<Task>, maxParallel: int)
    requires Tellable(ready)
    ensures maxParallel >= 2 ==> GoodPlan(ready, Plan(ready, maxParallel), maxParallel)
    ensures maxParallel < 2 ==> Flatten(Plan(ready, maxParallel)) == ready &&
                                forall i :: 0 <= i < |Plan(ready, maxParallel)| ==> |Plan(ready, maxParallel)[i]| == 1
    ensures multiset(Flatten(Plan(ready, maxParallel))) == multiset(ready)
  {
    if maxParallel >= 2 {
      BatchesAreGood(ready, maxParallel);
    } else {
      SinglesFlatten(ready);
      assert Plan(ready, maxParallel) == Plan(ready, 1);
    }
  }

  // ----- When the lookup by equality goes wrong -----

  /** A pass without a limit over the given tasks */
  function Pass(ts: seq<Task>): (r: Split)
    ensures |r.batch| + |r.next| == |ts|
  {
    if ts == [] then Split([], [])
    else
      var r, t := Pass(ts[..|ts| - 1]), ts[|ts| - 1];
      if Fits(t, r.batch) then Split(r.batch + [t], r.next) else Split(r.batch, r.next + [t])
  }

  /** As long as the batch is not full, the code's pass is the one without a limit. */
  lemma {:induction false} PassSoFar(ts: seq<Task>, k: nat, maxParallel: int)
    requires k <= |ts| && |Pass(ts[..k]).batch| < maxParallel
    ensures var r := Pass(ts[..k]);
            FillByIndex(ts, 0, [], [], maxParallel) == FillByIndex(ts, k, r.batch, r.next, maxParallel)
  {
    hide Fits;
    if k > 0 {
      assert ts[..k][..k - 1] == ts[..k - 1];
      PassSoFar(ts, k - 1, maxParallel);
    }
  }

  lemma {:induction false} PassGrows(ts: seq<Task>, k: nat, j: nat)
    requires k <= j <= |ts|
    ensures |Pass(ts[..k]).batch| <= |Pass(ts[..j]).batch|
  {
    hide Fits;
    if k < j {
      assert ts[..j][..j - 1] == ts[..j - 1];
      PassGrows(ts, k, j - 1);
    }
  }

  lemma FreeJoins(ts: seq<Task>, k: nat)
    requires k < |ts| && ts[k].keyFiles == []
    ensures |Pass(ts[..k + 1]).batch| == |Pass(ts[..k]).batch| + 1
  {
    assert ts[..k + 1][..k] == ts[..k];
  }

  /** A batch that the second of two equal tasks without files makes full: the tasks after the first one are put off
      again. */
  lemma FullAtEqualTask(ts: seq<Task>, i: nat, j: nat) returns (maxParallel: int)
    requires i < j < |ts| && ts[i] == ts[j] && ts[i].keyFiles == []
    ensures maxParallel >= 2
    ensures var r := FillByIndex(ts, 0, [], [], maxParallel); |r.batch| + |r.next| > |ts|
  {
    NoFiles(ts[i]);
    hide Files, FilesOf, Pass;
    FreeJoins(ts, i);
    FreeJoins(ts, j);
    PassGrows(ts, i + 1, j);
    var r := Pass(ts[..j]);
    maxParallel := |r.batch| + 1;
    PassSoFar(ts, j, maxParallel);
    var index := IndexOf(ts, ts[j]);
    IndexAtMost(ts, i);
    assert Fits(ts[j], r.batch);
    assert FillByIndex(ts, j, r.batch, r.next, maxParallel) == Split(r.batch + [ts[j]], r.next + ts[index + 1..]);
  }

  /** A pass loses nothing: every task is in the batch or put off, at least as often as before. */
  lemma {:induction false} PassKeepsAll(ts: seq<Task>, k: nat, batch: seq<Task>, next: seq<Task>, maxParallel: int)
    requires k <= |ts| && multiset(ts[..k]) <= multiset(batch) + multiset(next)
    ensures var r := FillByIndex(ts, k, batch, next, maxParallel); multiset(ts) <= multiset(r.batch) + multiset(r.next)
    decreases |ts| - k
  {
    hide Fits;
    if k == |ts| {
      assert ts[..k] == ts;
    } else {
      var t := ts[k];
      assert ts[..k + 1] == ts[..k] + [t];
      IndexAtMost(ts, k);
      DropLess(ts, IndexOf(ts, t) + 1, k + 1);
      PassKeepsAll(ts, k + 1, batch + [t], next, maxParallel);
      PassKeepsAll(ts, k + 1, batch, next + [t], maxParallel);
    }
  }

  lemma DropLess(ts: seq<Task>, i: nat, k: nat)
    requires i <= k <= |ts|
    ensures multiset(ts) <= multiset(ts[..k]) + multiset(ts[i..])
  {
    assert ts == ts[..k] + ts[k..] && ts[i..] == ts[i..k] + ts[k..];
  }

  /** The plan of any list lists every task, at least as often as the list does. */
  lemma {:induction false} PlanListsAll(ts: seq<Task>, maxParallel: int)
    ensures multiset(ts) <= multiset(Flatten(Plan(ts, maxParallel)))
    decreases Count(IsFree, ts), |ts|
  {
    hide FillByIndex;
    if maxParallel <= 1 {
      SinglesFlatten(ts);
      assert Plan(ts, maxParallel) == Plan(ts, 1);
    } else if ts != [] {
      var r := FillByIndex(ts, 0, [], [], maxParallel);
      assert ts[..0] == [];
      PassKeepsAll(ts, 0, [], [], maxParallel);
      PassShrinks(ts, 0, [], [], maxParallel);
      PlanListsAll(r.next, maxParallel);
      assert Plan(ts, maxParallel)[1..] == Plan(r.next, maxParallel);
    }
  }

  /** If a pass puts a task off again, the plan is longer than the list. */
  lemma ListedAgain(ts: seq<Task>, maxParallel: int)
    requires ts != [] && maxParallel >= 2
    requires var r := FillByIndex(ts, 0, [], [], maxParallel); |r.batch| + |r.next| > |ts|
    ensures |Flatten(Plan(ts, maxParallel))| > |ts|
  {
    hide FillByIndex;
    var r := FillByIndex(ts, 0, [], [], maxParallel);
    var plan := Plan(r.next, maxParallel);
    PlanListsAll(r.next, maxParallel);
    assert |multiset(r.next)| == |r.next| && |multiset(Flatten(plan))| == |Flatten(plan)|;
    SmallerMultiset(multiset(r.next), multiset(Flatten(plan)));
    assert Plan(ts, maxParallel)[1..] == plan;
  }

  lemma SmallerMultiset(a: multiset<Task>, b: multiset<Task>)
    requires a <= b
    ensures |a| <= |b|
  {
    assert b == a + (b - a);
  }

  /** The returned batches partition the input for every limit, exactly if no two equal tasks are without key files.
      Otherwise some limit makes the plan list a task again. */
  lemma PlanPartitionsIff(ts: seq<Task>)
    ensures (forall m :: m >= 2 ==> multiset(Flatten(Plan(ts, m))) == multiset(ts)) <==> Tellable(ts)
  {
    hide FillByIndex, Plan, Flatten, GoodPlan;
    if Tellable(ts) {
      forall m | m >= 2
        ensures multiset(Flatten(Plan(ts, m))) == multiset(ts)
      {
        PlanIsGood(ts, m);
      }
    } else {
      var i, j :| 0 <= i < j < |ts| && ts[i] == ts[j] && ts[i].keyFiles == [];
      var m := FullAtEqualTask(ts, i, j);
      ListedAgain(ts, m);
      assert |multiset(Flatten(Plan(ts, m)))| == |Flatten(Plan(ts, m))| && |multiset(ts)| == |ts|;
    }
  }
}
