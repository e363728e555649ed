/** The review-fix loop of the end-to-end demo and its merge decision, for any replies of reviewer and fixer. */
module ReviewLoop {
  import opened Basics
  import opened Text
  import opened Counting

  datatype Config = Config(maxLoops: int, budget: real, dryRun: bool, autoMerge: bool)

  datatype Comment = Comment(file: string, severity: string, message: string)

  /** An item of the reviewer's comment list */
  datatype RawComment = NotAnObject | Object(file: string, severity: string, message: string)

  /** The reviewer's answer after the attempts to decode it */
  datatype RawReview =
    | EmptyOutput
    | NotParseable
    | Decoded(clean: bool, summary: string, comments: Option<seq<RawComment>>)

  datatype Review = Review(clean: bool, summary: string, comments: seq<Comment>, cost: real)

  datatype ReviewReply = EmptyDiff | Answered(raw: RawReview, cost: real)

  /** Whether the fixer's commit was pushed (or nothing had changed), and its cost */
  datatype FixReply = FixReply(ok: bool, cost: real)

  /** What the outside world answers in each iteration */
  datatype World = World(review: int -> ReviewReply, fix: int -> FixReply)

  datatype Action =
    | Reviewed(costBefore: real, review: Review)
    | Posted
    | Fixed(ok: bool, cost: real)
    | ApproveCall
    | MergeCall
    | LeftOpen(reason: string)

  function Take(s: string, n: nat): string {
    if |s| <= n then s else s[..n]
  }

  predicate Serious(c: Comment) {
    c.severity == "blocker" || c.severity == "major"
  }

  /** The comments that are objects, in order */
  function Comments(raw: seq<RawComment>): seq<Comment> {
    if raw == [] then []
    else
      var last := raw[|raw| - 1];
      Comments(raw[..|raw| - 1])
      + if last.Object? then [Comment(last.file, last.severity, Take(last.message, 300))] else []
  }

  const INCONSISTENT := " [inconsistent: clean=true with blocker comments]"

  /** `_parse_review` */
  function Parsed(raw: RawReview): Review {
    match raw
    case EmptyOutput => Review(false, "empty reviewer output", [], 0.0)
    case NotParseable => Review(false, "reviewer output not parseable", [], 0.0)
    case Decoded(clean, summary, rawComments) =>
      var comments := Comments(if rawComments.Some? then rawComments.value else []);
      var inconsistent := clean && exists c :: c in comments && Serious(c);
      Review(clean && !inconsistent,
             if inconsistent then Strip(Take(summary, 200) + INCONSISTENT) else Take(summary, 200),
             comments, 0.0)
  }

  /** The reviewer's answer says clean, and holds no blocker and no major comment. */
  ghost predicate SaysClean(raw: RawReview) {
    && raw.Decoded? && raw.clean
    && (raw.comments.Some? ==>
          forall c :: c in raw.comments.value && c.Object? ==> c.severity != "blocker" && c.severity != "major")
  }

  /** The comment that an item of the list is read as */
  ghost predicate ReadAs(item: RawComment, c: Comment) {
    && item.Object? && c.file == item.file && c.severity == item.severity
    && c.message == if |item.message| <= 300 then item.message else item.message[..300]
  }

  /** The comments of a list are those of its parts, in order; an object gives one comment, anything else none. */
  lemma {:induction false} CommentsPartByPart(a: seq<RawComment>, b: seq<RawComment>, item: RawComment)
    ensures Comments(a + b) == Comments(a) + Comments(b)
    ensures if item.Object? then |Comments([item])| == 1 && ReadAs(item, Comments([item])[0]) else Comments([item]) == []
  {
    assert [item][..0] == [];
    if b == [] {
      assert a + b == a;
    } else {
      var front, last := b[..|b| - 1], b[|b| - 1];
      CommentsPartByPart(a, front, item);
      assert (a + b)[..|a + b| - 1] == a + front;
      hide Take;
      Associate(Comments(a), Comments(front),
                if last.Object? then [Comment(last.file, last.severity, Take(last.message, 300))] else []);
    }
  }

  lemma {:induction false} CommentsAre(raw: seq<RawComment>, c: Comment)
    ensures c in Comments(raw) <==> exists item :: item in raw && ReadAs(item, c)
  {
    if raw != [] {
      var front, last := raw[..|raw| - 1], raw[|raw| - 1];
      CommentsAre(front, c);
      assert raw == front + [last];
      CommentsPartByPart(front, [last], last);
      hide Comments, ReadAs, Take;
      if last.Object? {
        assert Comments([last]) == [Comments([last])[0]];
        OneReading(last, Comments([last])[0], c);
      } else {
        NoReading(last, c);
      }
    }
  }

  lemma OneReading(item: RawComment, c: Comment, d: Comment)
    requires ReadAs(item, c)
    ensures ReadAs(item, d) <==> d == c
  {
  }

  lemma NoReading(item: RawComment, c: Comment)
    requires !item.Object?
    ensures !ReadAs(item, c)
  {
  }

  lemma ParsedClean(raw: RawReview)
    ensures Parsed(raw).clean <==> SaysClean(raw)
  {
    hide Comments, Take, Strip;
    if raw.Decoded? && raw.clean && raw.comments.Some? {
      var items := raw.comments.value;
      forall c { CommentsAre(items, c); }
      if item :| item in items && item.Object? && (item.severity == "blocker" || item.severity == "major") {
        var c := Comment(item.file, item.severity, if |item.message| <= 300 then item.message else item.message[..300]);
        assert ReadAs(item, c) && Serious(c);
      }
    } else {
      NoComments();
    }
  }

  lemma NoComments()
    ensures Comments([]) == []
  {
  }

  method ParseReview(raw: RawReview) returns (r: Review)
    ensures r == Parsed(raw)
    ensures r.clean <==> SaysClean(raw)
    ensures forall c :: c in r.comments <==>
                          raw.Decoded? && raw.comments.Some? && exists item :: item in raw.comments.value && ReadAs(item, c)
  {
    ParsedClean(raw);
    NoComments();
    if raw.Decoded? && raw.comments.Some? {
      forall c { CommentsAre(raw.comments.value, c); }
    }
    hide SaysClean, ReadAs;
    match raw
    case EmptyOutput => return Review(false, "empty reviewer output", [], 0.0);
    case NotParseable => return Review(false, "reviewer output not parseable", [], 0.0);
    case Decoded(decodedClean, decodedSummary, rawComments) =>
      var clean, summary := decodedClean, Take(decodedSummary, 200);
      var items := if rawComments.Some? then rawComments.value else [];
      var comments: seq<Comment> := [];
      var i := 0;
      while i < |items|
        invariant i <= |items| && comments == Comments(items[..i])
      {
        assert items[..i + 1][..i] == items[..i];
        var item := items[i];
        i := i + 1;
        if item.NotAnObject? {
          continue;
        }
        comments := comments + [Comment(item.file, item.severity, Take(item.message, 300))];
      }
      assert items[..i] == items;
      if clean && exists c :: c in comments && Serious(c) {
        clean := false;
        summary := Strip(summary + INCONSISTENT);
      }
      return Review(clean, summary, comments, 0.0);
  }

  /** `review_pr`: an empty diff is never clean; a dry run does not ask the reviewer. */
  function ReviewPr(cfg: Config, reply: ReviewReply): Review {
    match reply
    case EmptyDiff => Review(false, "empty diff \U{2014} cannot review", [], 0.0)
    case Answered(raw, cost) =>
      if cfg.dryRun then Review(true, "DRY_RUN: no review performed", [], 0.0) else Parsed(raw).(cost := cost)
  }

  /** `run_fixer` */
  function RunFixer(cfg: Config, reply: FixReply): FixReply {
    if cfg.dryRun then FixReply(true, 0.0) else reply
  }

  // ----- What one run does -----

  /** The actions of an iteration whose review is not clean */
  function Iteration(cfg: Config, cost: real, r: Review, f: FixReply): seq<Action> {
    [Reviewed(cost, r)] + (if cfg.dryRun then [] else [Posted]) + [Fixed(f.ok, f.cost)]
  }

  /** The actions of the loop from iteration `i` on, with `cost` tracked so far */
  function LoopFrom(cfg: Config, w: World, i: int, cost: real): seq<Action>
    decreases cfg.maxLoops + 1 - i
  {
    if i > cfg.maxLoops || cost >= cfg.budget then []
    else
      var r := ReviewPr(cfg, w.review(i));
      if r.clean then [Reviewed(cost, r)]
      else
        var f := RunFixer(cfg, w.fix(i));
        Iteration(cfg, cost, r, f) + if f.ok then LoopFrom(cfg, w, i + 1, cost + r.cost + f.cost) else []
  }

  /** `final_review`: the last review that ran */
  function FinalReview(actions: seq<Action>): Option<Review> {
    if actions == [] then None
    else if actions[|actions| - 1].Reviewed? then Some(actions[|actions| - 1].review)
    else FinalReview(actions[..|actions| - 1])
  }

  function Decide(cfg: Config, prNumber: string, final: Option<Review>): seq<Action> {
    if final.Some? && final.value.clean then
      if cfg.dryRun then []
      else if cfg.autoMerge then [ApproveCall, MergeCall]
      else [LeftOpen("auto-merge disabled")]
    else
      (if !cfg.dryRun && prNumber != "0" then [Posted] else []) + [LeftOpen("max_iterations")]
  }

  function Run(cfg: Config, w: World, prNumber: string, cost: real): seq<Action> {
    var loop := LoopFrom(cfg, w, 1, cost);
    loop + Decide(cfg, prNumber, FinalReview(loop))
  }

  function CostOf(a: Action): real {
    match a
    case Reviewed(_, r) => r.cost
    case Fixed(_, cost) => cost
    case _ => 0.0
  }

  /** The cost of the model calls among the actions */
  function Spent(actions: seq<Action>): real {
    if actions == [] then 0.0 else Spent(actions[..|actions| - 1]) + CostOf(actions[|actions| - 1])
  }

  predicate IsReview(a: Action) {
    a.Reviewed?
  }

  /** The loop of `main` and the decision after it; every model call's cost is tracked. */
  method ReviewFixMerge(cfg: Config, w: World, prNumber: string, startCost: real)
    returns (actions: seq<Action>, totalCost: real)
    ensures actions == Run(cfg, w, prNumber, startCost)
    ensures totalCost == startCost + Spent(actions)
  {
    var finalReview;
    actions, totalCost, finalReview := ReviewFixLoop(cfg, w, startCost);
    AppendedDecision(cfg, prNumber, finalReview, actions);
    actions := actions + Decide(cfg, prNumber, finalReview);
  }

  method ReviewFixLoop(cfg: Config, w: World, startCost: real)
    returns (actions: seq<Action>, totalCost: real, finalReview: Option<Review>)
    ensures actions == LoopFrom(cfg, w, 1, startCost)
    ensures finalReview == FinalReview(actions) && totalCost == startCost + Spent(actions)
  {
    hide ReviewPr, RunFixer, Spent, FinalReview, Count, CostOf, LoopFrom;
    actions, totalCost, finalReview := [], startCost, None;
    NoActions();
    var iteration := 1;
    while iteration <= cfg.maxLoops
      invariant 1 <= iteration
      invariant actions + LoopFrom(cfg, w, iteration, totalCost) == LoopFrom(cfg, w, 1, startCost)
      invariant finalReview == FinalReview(actions) && totalCost == startCost + Spent(actions)
      decreases cfg.maxLoops + 1 - iteration
    {
      LoopUnfold(cfg, w, iteration, totalCost);
      if totalCost >= cfg.budget {
        assert actions + [] == actions;
        return;
      }
      ghost var before, costBefore := actions, totalCost;
      var review := ReviewPr(cfg, w.review(iteration));
      actions := actions + [Reviewed(totalCost, review)];
      totalCost := totalCost + review.cost;
      finalReview := Some(review);
      AppendedReview(before, costBefore, review);
      if review.clean {
        return;
      }
      if !cfg.dryRun {
        actions := actions + [Posted];
      }
      var fix := RunFixer(cfg, w.fix(iteration));
      actions := actions + [Fixed(fix.ok, fix.cost)];
      totalCost := totalCost + fix.cost;
      assert actions == before + Iteration(cfg, costBefore, review, fix);
      AppendedIteration(cfg, before, costBefore, review, fix);
      hide Iteration;
      Associate(before, Iteration(cfg, costBefore, review, fix), LoopFrom(cfg, w, iteration + 1, totalCost));
      if !fix.ok {
        return;
      }
      iteration := iteration + 1;
    }
    LoopUnfold(cfg, w, iteration, totalCost);
    assert actions + [] == actions;
  }

  /** The defining equation of `LoopFrom`, case by case */
  lemma LoopUnfold(cfg: Config, w: World, i: int, cost: real)
    ensures i > cfg.maxLoops || cost >= cfg.budget ==> LoopFrom(cfg, w, i, cost) == []
    ensures i <= cfg.maxLoops && cost < cfg.budget ==>
              var r, f := ReviewPr(cfg, w.review(i)), RunFixer(cfg, w.fix(i));
              LoopFrom(cfg, w, i, cost) ==
              if r.clean then [Reviewed(cost, r)]
              else if f.ok then Iteration(cfg, cost, r, f) + LoopFrom(cfg, w, i + 1, cost + r.cost + f.cost)
              else Iteration(cfg, cost, r, f)
  {
    hide ReviewPr, RunFixer, Iteration;
  }

  lemma NoActions()
    ensures Spent([]) == 0.0 && FinalReview([]) == None && Count(IsReview, []) == 0
  {
  }

  lemma Appended(actions: seq<Action>, a: Action)
    ensures Spent(actions + [a]) == Spent(actions) + CostOf(a)
    ensures FinalReview(actions + [a]) == if a.Reviewed? then Some(a.review) else FinalReview(actions)
    ensures Count(IsReview, actions + [a]) == Count(IsReview, actions) + if a.Reviewed? then 1 else 0
  {
    assert (actions + [a])[..|actions|] == actions;
  }

  lemma AppendedReview(actions: seq<Action>, cost: real, r: Review)
    ensures var longer := actions + [Reviewed(cost, r)];
            && Spent(longer) == Spent(actions) + r.cost
            && FinalReview(longer) == Some(r) && Count(IsReview, longer) == Count(IsReview, actions) + 1
  {
    Appended(actions, Reviewed(cost, r));
  }

  lemma AppendedIteration(cfg: Config, actions: seq<Action>, cost: real, r: Review, f: FixReply)
    ensures var longer := actions + Iteration(cfg, cost, r, f);
            && Spent(longer) == Spent(actions) + r.cost + f.cost
            && FinalReview(longer) == Some(r) && Count(IsReview, longer) == Count(IsReview, actions) + 1
  {
    hide Spent, FinalReview, Count;
    var a, b := Reviewed(cost, r), Fixed(f.ok, f.cost);
    Appended(actions, a);
    if cfg.dryRun {
      Appended(actions + [a], b);
      assert actions + Iteration(cfg, cost, r, f) == actions + [a] + [b];
    } else {
      Appended(actions + [a], Posted);
      Appended(actions + [a] + [Posted], b);
      assert actions + Iteration(cfg, cost, r, f) == actions + [a] + [Posted] + [b];
    }
  }

  lemma AppendedDecision(cfg: Config, prNumber: string, final: Option<Review>, actions: seq<Action>)
    ensures var longer := actions + Decide(cfg, prNumber, final);
            && Spent(longer) == Spent(actions) && Count(IsReview, longer) == Count(IsReview, actions)
  {
    hide Spent, FinalReview, Count;
    var d := Decide(cfg, prNumber, final);
    if |d| == 0 {
      assert actions + d == actions;
    } else if |d| == 1 {
      Appended(actions, d[0]);
      assert actions + d == actions + [d[0]];
    } else {
      Appended(actions, d[0]);
      Appended(actions + [d[0]], d[1]);
      assert actions + d == actions + [d[0]] + [d[1]];
    }
  }

  /** `review_pr` in its own terms */
  lemma ReviewPrIs(cfg: Config, reply: ReviewReply)
    ensures reply.EmptyDiff? ==> !ReviewPr(cfg, reply).clean && ReviewPr(cfg, reply).cost == 0.0
    ensures reply.Answered? && cfg.dryRun ==> ReviewPr(cfg, reply).clean && ReviewPr(cfg, reply).cost == 0.0
    ensures reply.Answered? && !cfg.dryRun ==>
              && (ReviewPr(cfg, reply).clean <==> SaysClean(reply.raw))
              && ReviewPr(cfg, reply).cost == reply.cost
  {
    hide Parsed;
    if reply.Answered? {
      ParsedClean(reply.raw);
    }
  }

  // ----- Safety of every run -----

  /** The list ends in a clean review, with no fixer run after it. */
  ghost predicate EndsClean(actions: seq<Action>) {
    actions != [] && actions[|actions| - 1].Reviewed? && actions[|actions| - 1].review.clean
  }

  /** What every run of the loop from iteration `i` on keeps: the final review is clean only as the last action, each
      review starts below the budget, and there are at most as many as iterations. */
  ghost predicate LoopInvariant(cfg: Config, i: int, loop: seq<Action>) {
    && (FinalReview(loop).Some? && FinalReview(loop).value.clean <==> EndsClean(loop))
    && (forall k :: 0 <= k < |loop| ==> loop[k].Reviewed? || loop[k].Posted? || loop[k].Fixed?)
    && (forall k :: 0 <= k < |loop| && loop[k].Reviewed? ==> loop[k].costBefore < cfg.budget)
    && Count(IsReview, loop) <= (if i <= cfg.maxLoops then cfg.maxLoops + 1 - i else 0)
  }

  lemma {:induction false} LoopKeepsInvariant(cfg: Config, w: World, i: int, cost: real)
    requires i >= 1
    ensures LoopInvariant(cfg, i, LoopFrom(cfg, w, i, cost))
    decreases cfg.maxLoops + 1 - i
  {
    hide ReviewPr, RunFixer, LoopInvariant, Iteration;
    EmptyLoop(cfg, i);
    if i <= cfg.maxLoops && cost < cfg.budget {
      var r := ReviewPr(cfg, w.review(i));
      if r.clean {
        CleanLoop(cfg, i, cost, r);
      } else {
        var f := RunFixer(cfg, w.fix(i));
        EmptyLoop(cfg, i + 1);
        if f.ok {
          LoopKeepsInvariant(cfg, w, i + 1, cost + r.cost + f.cost);
        }
        IterationThenRest(cfg, i, cost, r, f, if f.ok then LoopFrom(cfg, w, i + 1, cost + r.cost + f.cost) else []);
      }
    }
  }

  lemma EmptyLoop(cfg: Config, i: int)
    ensures LoopInvariant(cfg, i, [])
  {
  }

  lemma CleanLoop(cfg: Config, i: int, cost: real, r: Review)
    requires i <= cfg.maxLoops && cost < cfg.budget && r.clean
    ensures LoopInvariant(cfg, i, [Reviewed(cost, r)])
  {
    AppendedReview([], cost, r);
    assert [] + [Reviewed(cost, r)] == [Reviewed(cost, r)];
  }

  lemma IterationThenRest(cfg: Config, i: int, cost: real, r: Review, f: FixReply, rest: seq<Action>)
    requires i <= cfg.maxLoops && cost < cfg.budget && !r.clean && LoopInvariant(cfg, i + 1, rest)
    ensures LoopInvariant(cfg, i, Iteration(cfg, cost, r, f) + rest)
  {
    hide FinalReview, Count;
    var first := Iteration(cfg, cost, r, f);
    NoActions();
    AppendedIteration(cfg, [], cost, r, f);
    assert [] + first == first;
    FinalOfConcat(first, rest);
    if rest == [] {
      assert first + rest == first;
    }
  }

  lemma {:induction false} FinalOfConcat(a: seq<Action>, b: seq<Action>)
    ensures FinalReview(a + b) == if FinalReview(b).Some? then FinalReview(b) else FinalReview(a)
    ensures Count(IsReview, a + b) == Count(IsReview, a) + Count(IsReview, b)
  {
    if b == [] {
      assert a + b == a;
    } else {
      FinalOfConcat(a, b[..|b| - 1]);
      assert (a + b)[..|a + b| - 1] == a + b[..|b| - 1];
    }
  }

  /** In every run a merge happens exactly if auto-merge is on, it is not a dry run, and the loop ended with a clean
      review, so that no fixer ran after it; then the last answer asked for says clean, without blocker or major comment.
      At most `maxLoops` reviews run, each with the tracked cost below the budget. */
  lemma MergeSafety(cfg: Config, w: World, prNumber: string, cost: real)
    ensures var loop, run := LoopFrom(cfg, w, 1, cost), Run(cfg, w, prNumber, cost);
            && loop <= run
            && (MergeCall in run <==> cfg.autoMerge && !cfg.dryRun && EndsClean(loop))
            && (MergeCall in run ==>
                  var reply := w.review(Count(IsReview, run)); reply.Answered? && SaysClean(reply.raw))
            && (forall k :: |loop| <= k < |run| ==> !run[k].Fixed? && !run[k].Reviewed?)
            && (forall k :: 0 <= k < |run| && run[k].Reviewed? ==> run[k].costBefore < cfg.budget)
            && Count(IsReview, run) <= (if cfg.maxLoops > 0 then cfg.maxLoops else 0)
  {
    hide LoopFrom, Count, FinalReview, Decide, SaysClean;
    var loop := LoopFrom(cfg, w, 1, cost);
    LoopKeepsInvariant(cfg, w, 1, cost);
    DecisionActions(cfg, prNumber, FinalReview(loop));
    AppendedDecision(cfg, prNumber, FinalReview(loop), loop);
    if EndsClean(loop) && !cfg.dryRun {
      LastReviewIs(cfg, w, 1, cost);
      ReviewPrIs(cfg, w.review(Count(IsReview, loop)));
      NoReviews(Decide(cfg, prNumber, FinalReview(loop)));
      FinalOfConcat(loop, Decide(cfg, prNumber, FinalReview(loop)));
    }
  }

  lemma DecisionActions(cfg: Config, prNumber: string, final: Option<Review>)
    ensures MergeCall in Decide(cfg, prNumber, final) <==>
            cfg.autoMerge && !cfg.dryRun && final.Some? && final.value.clean
    ensures forall a :: a in Decide(cfg, prNumber, final) ==> !a.Fixed? && !a.Reviewed?
  {
  }

  /** What a run does after its loop */
  lemma RunEnds(cfg: Config, w: World, prNumber: string, cost: real)
    ensures var loop, run := LoopFrom(cfg, w, 1, cost), Run(cfg, w, prNumber, cost);
            && loop <= run
            && run[|loop|..] ==
               if EndsClean(loop) && cfg.dryRun then []
               else if EndsClean(loop) && cfg.autoMerge then [ApproveCall, MergeCall]
               else if EndsClean(loop) then [LeftOpen("auto-merge disabled")]
               else if !cfg.dryRun && prNumber != "0" then [Posted, LeftOpen("max_iterations")]
               else [LeftOpen("max_iterations")]
  {
    hide LoopFrom, FinalReview, Count;
    LoopKeepsInvariant(cfg, w, 1, cost);
    var loop := LoopFrom(cfg, w, 1, cost);
    assert (loop + Decide(cfg, prNumber, FinalReview(loop)))[|loop|..] == Decide(cfg, prNumber, FinalReview(loop));
  }

  lemma {:induction false} NoReviews(actions: seq<Action>)
    requires forall a :: a in actions ==> !a.Reviewed?
    ensures Count(IsReview, actions) == 0
  {
    if actions != [] {
      NoReviews(actions[..|actions| - 1]);
    }
  }

  /** The action is the answer that is due when `n - 1` reviews ran before it; a dry run asks for no fix. */
  ghost predicate IsAnswer(cfg: Config, w: World, n: int, a: Action) {
    && (a.Reviewed? ==> a.review == ReviewPr(cfg, w.review(n)))
    && (a.Fixed? ==> a == if cfg.dryRun then Fixed(true, 0.0) else Fixed(w.fix(n - 1).ok, w.fix(n - 1).cost))
  }

  ghost predicate Answers(cfg: Config, w: World, i: int, loop: seq<Action>) {
    forall k :: 0 <= k < |loop| ==> AnswerAt(cfg, w, i, loop, k)
  }

  ghost predicate AnswerAt(cfg: Config, w: World, i: int, loop: seq<Action>, k: nat)
    requires k < |loop|
  {
    IsAnswer(cfg, w, i + Count(IsReview, loop[..k]), loop[k])
  }

  lemma OneReview(cost: real, r: Review)
    ensures Count(IsReview, [Reviewed(cost, r)]) == 1
  {
    hide Count;
    NoActions();
    Appended([], Reviewed(cost, r));
    assert [] + [Reviewed(cost, r)] == [Reviewed(cost, r)];
  }

  lemma IterationAnswers(cfg: Config, w: World, i: int, cost: real)
    ensures var r, f := ReviewPr(cfg, w.review(i)), RunFixer(cfg, w.fix(i));
            Answers(cfg, w, i, Iteration(cfg, cost, r, f)) && Count(IsReview, Iteration(cfg, cost, r, f)) == 1
    ensures Answers(cfg, w, i, [Reviewed(cost, ReviewPr(cfg, w.review(i)))])
  {
    hide ReviewPr, Count;
    var r, f := ReviewPr(cfg, w.review(i)), RunFixer(cfg, w.fix(i));
    var a, b := Reviewed(cost, r), Fixed(f.ok, f.cost);
    NoActions();
    OneReview(cost, r);
    Appended([a], b);
    Appended([a], Posted);
    Appended([a] + [Posted], b);
    var it := Iteration(cfg, cost, r, f);
    assert it == if cfg.dryRun then [a] + [b] else [a] + [Posted] + [b];
    assert [a][..0] == [] && it[..0] == [] && it[..1] == [a] && (!cfg.dryRun ==> it[..2] == [a] + [Posted]);
  }

  lemma AnswersOfConcat(cfg: Config, w: World, i: int, a: seq<Action>, b: seq<Action>)
    requires Answers(cfg, w, i, a) && Answers(cfg, w, i + Count(IsReview, a), b)
    ensures Answers(cfg, w, i, a + b)
  {
    hide Count, IsAnswer, AnswerAt;
    forall k | 0 <= k < |a + b|
      ensures AnswerAt(cfg, w, i, a + b, k)
    {
      if k < |a| {
        AnswerInFirst(cfg, w, i, a, b, k);
      } else {
        AnswerInRest(cfg, w, i, a, b, k - |a|);
      }
    }
  }

  lemma AnswerInFirst(cfg: Config, w: World, i: int, a: seq<Action>, b: seq<Action>, k: nat)
    requires k < |a| && AnswerAt(cfg, w, i, a, k)
    ensures AnswerAt(cfg, w, i, a + b, k)
  {
    hide Count, IsAnswer;
    assert (a + b)[..k] == a[..k];
  }

  lemma AnswerInRest(cfg: Config, w: World, i: int, a: seq<Action>, b: seq<Action>, k: nat)
    requires k < |b| && AnswerAt(cfg, w, i + Count(IsReview, a), b, k)
    ensures AnswerAt(cfg, w, i, a + b, |a| + k)
  {
    hide Count, IsAnswer;
    assert (a + b)[..|a| + k] == a + b[..k];
    FinalOfConcat(a, b[..k]);
  }

  /** In every run of the loop the k-th review is of the k-th answer of the reviewer, and the fixer that follows it is the
      k-th answer of the fixer. */
  lemma {:induction false} LoopFollowsAnswers(cfg: Config, w: World, i: int, cost: real)
    ensures Answers(cfg, w, i, LoopFrom(cfg, w, i, cost))
    decreases cfg.maxLoops + 1 - i
  {
    hide LoopFrom, ReviewPr, Count, Iteration, RunFixer, Answers;
    LoopUnfold(cfg, w, i, cost);
    NoAnswers(cfg, w, i);
    if i <= cfg.maxLoops && cost < cfg.budget {
      var r, f := ReviewPr(cfg, w.review(i)), RunFixer(cfg, w.fix(i));
      IterationAnswers(cfg, w, i, cost);
      if !r.clean && f.ok {
        LoopFollowsAnswers(cfg, w, i + 1, cost + r.cost + f.cost);
        AnswersOfConcat(cfg, w, i, Iteration(cfg, cost, r, f), LoopFrom(cfg, w, i + 1, cost + r.cost + f.cost));
      }
    }
  }

  lemma NoAnswers(cfg: Config, w: World, i: int)
    ensures Answers(cfg, w, i, [])
  {
  }

  /** The last review of a loop that ends clean is of the answer with the number of reviews. */
  lemma LastReviewIs(cfg: Config, w: World, i: int, cost: real)
    requires EndsClean(LoopFrom(cfg, w, i, cost))
    ensures var loop := LoopFrom(cfg, w, i, cost);
            loop[|loop| - 1].review == ReviewPr(cfg, w.review(i - 1 + Count(IsReview, loop)))
  {
    hide LoopFrom, ReviewPr, Count;
    var loop := LoopFrom(cfg, w, i, cost);
    var front, last := loop[..|loop| - 1], loop[|loop| - 1];
    LoopFollowsAnswers(cfg, w, i, cost);
    assert AnswerAt(cfg, w, i, loop, |front|);
    Appended(front, last);
    assert front + [last] == loop;
  }
}
