/**
 * scripts/review_gate.py: what a stop answers, in terms of what the reviewer answered, the diff that is left and the
 * rounds counted.
 */
module ReviewGateAnswers {
  import opened Wrappers
  import opened ReviewDiff
  import opened CommitDag
  import opened ReviewGate
  import opened ReviewGateRuns

  // ---- what the reviewer answered ----

  predicate Failed(setup: Setup, log: seq<Call>, i: nat)
    requires i < |log|
  {
    setup.reviewer(i, log[i].prompt, log[i].model).ReviewFailed?
  }

  /** Some call from `first` on failed. */
  ghost predicate AnyFailed(setup: Setup, log: seq<Call>, first: nat) {
    exists i: nat :: first <= i < |log| && Failed(setup, log, i)
  }

  /** What the calls from `first` on found, in order. */
  function FoundFrom(setup: Setup, log: seq<Call>, first: nat): seq<Finding>
    requires first <= |log|
    decreases |log| - first
  {
    if first == |log| then []
    else
      match setup.reviewer(first, log[first].prompt, log[first].model)
      case Found(findings) => findings + FoundFrom(setup, log, first + 1)
      case ReviewFailed(_) => FoundFrom(setup, log, first + 1)
  }

  /** From call `first` on the log is one review of the whole plan, and these are its findings. */
  ghost predicate Reviewed(setup: Setup, plan: ReviewBatches, model: Model, log: seq<Call>, first: nat, findings: seq<Finding>) {
    && first + |plan.batches| == |log|
    && (forall i :: 0 <= i < |plan.batches| ==> log[first + i] == Call(setup.rubric + plan.batches[i], model))
    && findings == plan.tooLarge + FoundFrom(setup, log, first)
  }

  /** What is left unreviewed names the last call, its number among the batches and what it failed with. */
  ghost predicate NamesTheFailure(setup: Setup, log: seq<Call>, unreviewed: Unreviewed, batch: int, total: nat) {
    && log != [] && unreviewed.batch == batch && unreviewed.total == total
    && var last := |log| - 1; setup.reviewer(last, log[last].prompt, log[last].model) == ReviewFailed(unreviewed.message)
  }

  /** A review asks batch after batch until one fails, and reports what those calls found. */
  lemma {:induction false} RunFromIsItsCalls(
      setup: Setup, batches: seq<string>, total: nat, found: seq<Finding>, model: Model, log: seq<Call>)
    requires |batches| <= total
    ensures var (verdict, log') := RunFrom(setup, batches, total, found, model, log);
      && log <= log' && |log'| <= |log| + |batches|
      && (forall i :: 0 <= i < |log'| - |log| ==> log'[|log| + i] == Call(setup.rubric + batches[i], model))
      && verdict.model == model && verdict.findings == found + FoundFrom(setup, log', |log|)
      && (verdict.unreviewed.None? ==> |log'| == |log| + |batches|)
      && (verdict.unreviewed.Some? <==> AnyFailed(setup, log', |log|))
      && (verdict.unreviewed.Some? ==> NamesTheFailure(setup, log', verdict.unreviewed.value, total - |batches| + |log'| - |log|, total))
  {
    if batches != [] {
      var asked := log + [Call(setup.rubric + batches[0], model)];
      var (verdict, log') := RunFrom(setup, batches, total, found, model, log);
      match setup.reviewer(|log|, setup.rubric + batches[0], model)
      case Found(findings) =>
        RunFromIsItsCalls(setup, batches[1..], total, found + findings, model, asked);
        assert log'[|log|] == asked[|log|];
        assert !Failed(setup, log', |log|);
        forall i | 1 <= i < |log'| - |log| ensures log'[|log| + i] == Call(setup.rubric + batches[i], model) {
          assert log'[|asked| + (i - 1)] == Call(setup.rubric + batches[1..][i - 1], model);
        }
        assert found + (findings + FoundFrom(setup, log', |asked|)) == found + findings + FoundFrom(setup, log', |asked|);
      case ReviewFailed(_) =>
        assert Failed(setup, log', |log|);
        assert FoundFrom(setup, log', |log|) == FoundFrom(setup, log', |log'|) == [];
    }
  }

  lemma ReviewIsItsCalls(setup: Setup, plan: ReviewBatches, model: Model, log: seq<Call>)
    ensures var (verdict, log') := RunBatchesSpec(setup, plan, model, log);
      && log <= log' && verdict.model == model
      && (verdict.unreviewed.Some? <==> AnyFailed(setup, log', |log|))
      && (verdict.unreviewed.Some? ==>
            NamesTheFailure(setup, log', verdict.unreviewed.value, |log'| - |log|, |plan.batches|)
            && verdict.findings == plan.tooLarge + FoundFrom(setup, log', |log|))
      && (verdict.unreviewed.None? ==> Reviewed(setup, plan, model, log', |log|, verdict.findings))
  {
    RunFromIsItsCalls(setup, plan.batches, |plan.batches|, plan.tooLarge, model, log);
  }

  // ---- what a walk answers ----

  function SkippedIn(trail: seq<Segment>): seq<Sha> {
    if trail == [] then []
    else (if trail[0].why.Skipped? then [trail[0].why.commit] else []) + SkippedIn(trail[1..])
  }

  /**
   * The last segment was handed over for the findings of its review, the last calls of the log; the tie-break model
   * reviews only the first range of a stop that had two rounds blocked before it.
   */
  ghost predicate HandedOverFor(repo: Repo, setup: Setup, before: int, trail: seq<Segment>, log: seq<Call>, reason: Reason) {
    && trail != []
    && var last := trail[|trail| - 1];
       var plan := PlanDiff(repo.diff(last.src, last.dst), setup.rubric);
    && last.why == HandedOver(reason) && reason.RangeBlock? && reason.findings != []
    && reason.model == (if |trail| == 1 && before >= 2 then Tiebreak else Primary)
    && |plan.batches| <= |log| && Reviewed(setup, plan, reason.model, log, |log| - |plan.batches|, reason.findings)
  }

  /** The block of a walk or of a range: a failed call, or findings handed over. */
  ghost predicate BlocksRight(
      repo: Repo, setup: Setup, before: int, trail: seq<Segment>, log: seq<Call>, first: nat, state: GateState, block: Option<Reason>)
  {
    match block
    case None => !AnyFailed(setup, log, first)
    case Some(Unfinished(_)) => AnyFailed(setup, log, first) && state.blockedRounds == if trail == [] then before else 0
    case Some(reason) =>
      && !AnyFailed(setup, log, first) && HandedOverFor(repo, setup, before, trail, log, reason)
      && state.baseHead == Some(reason.upTo)
  }

  function TrailOfStep(step: RangeStep): seq<Segment> {
    if step.moved.Some? then [step.moved.value] else []
  }

  lemma FittingRangeAnswers(repo: Repo, setup: Setup, state: GateState, baseTree: Tree, fitting: PendingChange, log: seq<Call>)
    requires state.baseHead.Some? && fitting.baseTree == baseTree && !TooLarge(repo, fitting, setup.rubric)
    ensures var step := ReviewRangeSpec(repo, setup, state, baseTree, fitting, log);
      && log <= step.log && step.skipped.None? && SkippedIn(TrailOfStep(step)) == []
      && BlocksRight(repo, setup, state.blockedRounds, TrailOfStep(step), step.log, |log|, step.state, step.block)
  {
    hide PlanDiff, RunBatchesSpec, FoundFrom;
    var plan, model := PlanReview(repo, fitting, setup.rubric), ModelFor(state);
    assert plan == PlanDiff(repo.diff(baseTree, fitting.tree), setup.rubric);
    ReviewIsItsCalls(setup, plan, model, log);
    var (review, log') := RunBatchesSpec(setup, plan, model, log);
    assert review.unreviewed.None? ==> |log'| - |plan.batches| == |log|;
    assert TooLarge(repo, fitting, setup.rubric) <==> plan.tooLarge != [];
  }

  lemma RangeAnswers(repo: Repo, setup: Setup, state: GateState, change: PendingChange, log: seq<Call>)
    requires repo.Valid() && InBacklog(repo, state, change)
    ensures var step := ReviewNextRangeSpec(repo, setup, state, change, log);
      && log <= step.log
      && SkippedIn(TrailOfStep(step)) == (if step.skipped.Some? then [step.skipped.value] else [])
      && BlocksRight(repo, setup, state.blockedRounds, TrailOfStep(step), step.log, |log|, step.state, step.block)
  {
    hide PlanDiff, FirstParentCommits, ReviewRangeSpec, Reviewed;
    var commits := FirstParentCommits(repo.dag, state.baseHead.value, change.head);
    HeadIsAhead(repo.dag, state.baseHead.value, change.head);
    RangeStopsBeforeTheFirstTooLarge(repo, change.baseTree, commits, setup.rubric);
    var n := FittingCount(repo, change.baseTree, commits, setup.rubric);
    if n > 0 {
      assert commits[n - 1] in commits && commits[n - 1] in commits[..n];
      hide BlocksRight;
      FittingRangeAnswers(repo, setup, state, change.baseTree, ChangeUpToCommit(repo, change.baseTree, commits[n - 1]), log);
    } else {
      assert commits[0] in commits;
    }
  }

  lemma {:induction false} SkippedInBoth(a: seq<Segment>, b: seq<Segment>)
    ensures SkippedIn(a + b) == SkippedIn(a) + SkippedIn(b)
  {
    if a == [] {
      assert a + b == b;
    } else {
      assert (a + b)[1..] == a[1..] + b;
      SkippedInBoth(a[1..], b);
    }
  }

  /** What is right of the rest of a walk is right of the walk, if no call before it failed. */
  lemma BlocksRightAfter(
      repo: Repo, setup: Setup, before: seq<Segment>, trail: seq<Segment>, log: seq<Call>, middle: seq<Call>, late: seq<Call>,
      state: GateState, block: Option<Reason>, rounds: int)
    requires log <= middle <= late && !AnyFailed(setup, middle, |log|) && before != []
    requires BlocksRight(repo, setup, 0, trail, late, |middle|, state, block)
    ensures BlocksRight(repo, setup, rounds, before + trail, late, |log|, state, block)
  {
    hide PlanDiff, Reviewed;
    forall i: nat | |log| <= i < |middle| ensures !Failed(setup, late, i) {
      assert !Failed(setup, middle, i);
    }
    assert AnyFailed(setup, late, |log|) <==> AnyFailed(setup, late, |middle|);
    if trail != [] {
      assert (before + trail)[|before + trail| - 1] == trail[|trail| - 1];
    }
  }

  lemma {:induction false} WalkAnswers(repo: Repo, setup: Setup, state: GateState, change: PendingChange, log: seq<Call>)
    requires repo.Valid()
    ensures var walk := WalkSpec(repo, setup, state, change, log);
      && log <= walk.log && walk.skipped == SkippedIn(walk.trail)
      && BlocksRight(repo, setup, state.blockedRounds, walk.trail, walk.log, |log|, walk.state, walk.block)
    decreases CommitsLeft(repo, state, change)
  {
    hide PlanDiff, ReviewNextRangeSpec, BlocksRight;
    if InBacklog(repo, state, change) && TooLarge(repo, change, setup.rubric) {
      var step := ReviewNextRangeSpec(repo, setup, state, change, log);
      RangeAnswers(repo, setup, state, change, log);
      if step.block.None? {
        RangeMakesProgress(repo, setup, state, change, log);
        var later := ChangeSince(repo, step.state, change);
        var rest := WalkSpec(repo, setup, step.state, later, step.log);
        WalkAnswers(repo, setup, step.state, later, step.log);
        SkippedInBoth(TrailOfStep(step), rest.trail);
        NoBlockNoFailure(repo, setup, state.blockedRounds, TrailOfStep(step), step.log, |log|, step.state);
        RangeIsJustified(repo, setup, state, change, log);
        BlocksRightAfter(
          repo, setup, TrailOfStep(step), rest.trail, log, step.log, rest.log, rest.state, rest.block, state.blockedRounds);
      }
    } else {
      NoCallsNoFailure(repo, setup, log, state);
    }
  }

  lemma NoBlockNoFailure(repo: Repo, setup: Setup, before: int, trail: seq<Segment>, log: seq<Call>, first: nat, state: GateState)
    requires BlocksRight(repo, setup, before, trail, log, first, state, None)
    ensures !AnyFailed(setup, log, first)
  {
  }

  lemma NoCallsNoFailure(repo: Repo, setup: Setup, log: seq<Call>, state: GateState)
    ensures BlocksRight(repo, setup, state.blockedRounds, [], log, |log|, state, None)
  {
  }

  // ---- what a stop answers ----

  /** The whole diff from `base` to the worktree was reviewed last, by the model its round calls for. */
  ghost predicate TipReviewed(repo: Repo, setup: Setup, base: Tree, rounds: int, log: seq<Call>, model: Model, findings: seq<Finding>) {
    var plan := PlanDiff(repo.diff(base, repo.worktree), setup.rubric);
    && setup.scope.ContainsAny(repo.names(base, repo.worktree))
    && model == (if rounds < 2 then Primary else Tiebreak)
    && |plan.batches| <= |log| && Reviewed(setup, plan, model, log, |log| - |plan.batches|, findings)
  }

  /** Nothing in scope is left between what was reviewed and the worktree. */
  predicate NothingLeft(repo: Repo, setup: Setup, base: Tree) {
    !setup.scope.ContainsAny(repo.names(base, repo.worktree))
  }

  /** The last segment is the approval of all that was left, which is where the next stop starts. */
  predicate TipApproved(repo: Repo, stop: Stop) {
    && stop.trail != []
    && (var last := stop.trail[|stop.trail| - 1]; last.why.Approved? && last.dst == repo.worktree)
    && stop.saved == GateState(Some(repo.worktree), Some(repo.head), 0)
  }

  /** No commits are left to walk from the saved base commit: there is none, or its history was left. */
  predicate NoBacklog(repo: Repo, head: Option<Sha>)
    requires repo.Valid()
  {
    head == None || head.value == repo.head || !IsAncestor(repo.dag, head.value, repo.head)
  }

  /**
   * A round that counts: the tip review found something, and the base stays pinned. What is too large to review is
   * found at the tip only if no committed backlog is left to walk instead.
   */
  ghost predicate CountedRound(
      repo: Repo, setup: Setup, base: Tree, pinned: bool, rounds: int, saved: GateState, log: seq<Call>, model: Model,
      findings: seq<Finding>)
    requires repo.Valid()
  {
    && findings != [] && saved.baseTree == Some(base) && TipReviewed(repo, setup, base, rounds, log, model, findings)
    && (pinned && PlanDiff(repo.diff(base, repo.worktree), setup.rubric).tooLarge != [] ==> NoBacklog(repo, saved.baseHead))
  }

  /** What a stop with something in scope answers, and what that rests on. */
  ghost predicate AnswersRight(repo: Repo, setup: Setup, start: Tree, before: GateState, first: nat, stop: Stop)
    requires repo.Valid()
  {
    var base := EndOf(stop.trail, start);
    var rounds := if stop.trail == [] then before.blockedRounds else 0;
    var pinned := stop.trail != [] || before.baseTree == Some(start);
    && stop.outcome.Skips() == SkippedIn(stop.trail)
    && (stop.outcome.Block? && stop.outcome.reason.Unfinished? <==> AnyFailed(setup, stop.log, first))
    && match stop.outcome
       case Silent => NothingLeft(repo, setup, base) || TipApproved(repo, stop)
       case Notice(skipped) => skipped != [] && (NothingLeft(repo, setup, base) || TipApproved(repo, stop))
       case GiveUp(_, given, findings) =>
         && given == rounds + 1 >= 10 && stop.saved.blockedRounds == 0
         && exists model :: CountedRound(repo, setup, base, pinned, rounds, stop.saved, stop.log, model, findings)
       case Block(_, TipBlock(model, round, findings)) =>
         && round == rounds + 1 < 10 && stop.saved.blockedRounds == round
         && CountedRound(repo, setup, base, pinned, rounds, stop.saved, stop.log, model, findings)
       case Block(_, Unfinished(_)) => stop.saved.blockedRounds == rounds
       case Block(_, reason) =>
         && HandedOverFor(repo, setup, before.blockedRounds, stop.trail, stop.log, reason)
         && stop.saved == GateState(Some(base), Some(reason.upTo), 0)
  }

  /** A stop elsewhere, or with nothing in scope, changes and asks nothing. */
  lemma OutOfScopeStopsAreSilent(repo: Repo, setup: Setup, here: bool, saved: GateState, log: seq<Call>)
    requires repo.Valid()
    requires !here || NothingLeft(repo, setup, ResolveBase(repo, saved))
    ensures HookSpec(repo, setup, here, saved, log) == Stop(saved, Silent, log, [])
  {
  }

  /** A tip review whose calls all succeeded and that found something is a counted round. */
  lemma TipCounts(repo: Repo, setup: Setup, base: Tree, pinned: bool, walk: Walk)
    requires repo.Valid()
    requires walk.change.baseTree == base && walk.change.tree == repo.worktree && walk.change.head == repo.head
    requires setup.scope.ContainsAny(repo.names(base, repo.worktree))
    requires pinned ==> walk.state.baseTree == Some(base)
    requires !(InBacklog(repo, walk.state, walk.change) && TooLarge(repo, walk.change, setup.rubric))
    ensures var plan, model := PlanReview(repo, walk.change, setup.rubric), ModelFor(walk.state);
      var (review, log') := RunBatchesSpec(setup, plan, model, walk.log);
      review.unreviewed.None? && review.findings != [] ==>
        CountedRound(repo, setup, base, pinned, walk.state.blockedRounds, NextState(walk.state, walk.change, review), log', model, review.findings)
  {
    hide PlanDiff, RunBatchesSpec, FoundFrom;
    var plan, model := PlanReview(repo, walk.change, setup.rubric), ModelFor(walk.state);
    assert plan == PlanDiff(repo.diff(base, repo.worktree), setup.rubric);
    ReviewIsItsCalls(setup, plan, model, walk.log);
    var (review, log') := RunBatchesSpec(setup, plan, model, walk.log);
    if review.unreviewed.None? {
      assert |log'| - |plan.batches| == |walk.log|;
    }
  }

  /** Forgetting the count keeps a counted round one. */
  lemma CountIsNotPartOfIt(
      repo: Repo, setup: Setup, base: Tree, pinned: bool, rounds: int, saved: GateState, log: seq<Call>, model: Model,
      findings: seq<Finding>)
    requires repo.Valid() && CountedRound(repo, setup, base, pinned, rounds, saved, log, model, findings)
    ensures CountedRound(repo, setup, base, pinned, rounds, saved.(blockedRounds := 0), log, model, findings)
  {
  }

  /** What is known of a walk that leaves its tip to be reviewed. */
  ghost predicate AtTip(repo: Repo, start: Tree, before: GateState, walk: Walk) {
    && walk.change.baseTree == EndOf(walk.trail, start) && walk.change.tree == repo.worktree && walk.change.head == repo.head
    && (walk.trail == [] ==> walk.state == before)
    && (walk.trail != [] ==> walk.state.blockedRounds == 0 && walk.state.baseTree == Some(walk.change.baseTree))
  }

  lemma UnfinishedIsRight(repo: Repo, setup: Setup, start: Tree, before: GateState, walk: Walk, review: BatchedVerdict, log: seq<Call>)
    requires repo.Valid() && AtTip(repo, start, before, walk) && AnyFailed(setup, log, |walk.log|)
    ensures AnswersRight(
      repo, setup, start, before, |walk.log|, Stop(walk.state, Block(SkippedIn(walk.trail), Unfinished(review)), log, walk.trail))
  {
    hide AnyFailed;
  }

  lemma ApprovalIsRight(repo: Repo, setup: Setup, start: Tree, before: GateState, walk: Walk, model: Model, log: seq<Call>)
    requires repo.Valid() && AtTip(repo, start, before, walk) && !AnyFailed(setup, log, |walk.log|)
    ensures var approval := Segment(walk.change.baseTree, walk.change.tree, Approved(|walk.log|, model));
      var trail := walk.trail + [approval];
      && SkippedIn(trail) == SkippedIn(walk.trail)
      && AnswersRight(
           repo, setup, start, before, |walk.log|,
           Stop(GateState(Some(repo.worktree), Some(repo.head), 0), WithSkipNotices(Silent, SkippedIn(walk.trail)), log, trail))
  {
    hide AnyFailed;
    SkippedInBoth(walk.trail, [Segment(walk.change.baseTree, walk.change.tree, Approved(|walk.log|, model))]);
  }

  lemma CountedIsRight(
      repo: Repo, setup: Setup, start: Tree, before: GateState, walk: Walk, model: Model, findings: seq<Finding>, saved: GateState,
      log: seq<Call>)
    requires repo.Valid() && AtTip(repo, start, before, walk) && !AnyFailed(setup, log, |walk.log|)
    requires CountedRound(
      repo, setup, walk.change.baseTree, walk.trail != [] || before.baseTree == Some(start), walk.state.blockedRounds, saved, log, model,
      findings)
    requires saved.blockedRounds == walk.state.blockedRounds + 1
    ensures var skips, round := SkippedIn(walk.trail), saved.blockedRounds;
      AnswersRight(
        repo, setup, start, before, |walk.log|,
        if round >= 10 then Stop(saved.(blockedRounds := 0), GiveUp(skips, round, findings), log, walk.trail)
        else Stop(saved, Block(skips, TipBlock(model, round, findings)), log, walk.trail))
  {
    hide AnyFailed, CountedRound;
    CountIsNotPartOfIt(
      repo, setup, walk.change.baseTree, walk.trail != [] || before.baseTree == Some(start), walk.state.blockedRounds, saved, log, model,
      findings);
  }

  lemma TipAnswers(repo: Repo, setup: Setup, start: Tree, before: GateState, walk: Walk)
    requires repo.Valid() && walk.block.None?
    requires AtTip(repo, start, before, walk)
    requires setup.scope.ContainsAny(repo.names(walk.change.baseTree, repo.worktree))
    requires !(InBacklog(repo, walk.state, walk.change) && TooLarge(repo, walk.change, setup.rubric))
    ensures var tip := ReviewTipSpec(repo, setup, walk);
      && walk.log <= tip.log && walk.trail <= tip.trail && SkippedIn(tip.trail) == SkippedIn(walk.trail)
      && AnswersRight(repo, setup, start, before, |walk.log|,
                      tip.(outcome := WithSkipNotices(tip.outcome, SkippedIn(walk.trail))))
  {
    hide PlanDiff, RunBatchesSpec, CountedRound, AnyFailed, TooLarge, InBacklog, AnswersRight;
    var plan, model := PlanReview(repo, walk.change, setup.rubric), ModelFor(walk.state);
    ReviewIsItsCalls(setup, plan, model, walk.log);
    var (review, log') := RunBatchesSpec(setup, plan, model, walk.log);
    assert SkippedIn(walk.trail) + [] == SkippedIn(walk.trail);
    if review.unreviewed.Some? {
      UnfinishedIsRight(repo, setup, start, before, walk, review, log');
    } else if review.Passed() {
      ApprovalIsRight(repo, setup, start, before, walk, model, log');
    } else {
      TipCounts(repo, setup, walk.change.baseTree, walk.trail != [] || before.baseTree == Some(start), walk);
      CountedIsRight(
        repo, setup, start, before, walk, model, review.findings, NextState(walk.state, walk.change, review), log');
    }
  }

  /** Asking more later keeps what a stop answers right, if no earlier call failed. */
  lemma AnswersRightFromEarlier(
      repo: Repo, setup: Setup, start: Tree, before: GateState, log: seq<Call>, middle: seq<Call>, stop: Stop)
    requires repo.Valid() && log <= middle <= stop.log && !AnyFailed(setup, middle, |log|)
    requires AnswersRight(repo, setup, start, before, |middle|, stop)
    ensures AnswersRight(repo, setup, start, before, |log|, stop)
  {
    hide CountedRound, HandedOverFor, NothingLeft, TipApproved;
    forall i: nat | |log| <= i < |middle| ensures !Failed(setup, stop.log, i) {
      assert !Failed(setup, middle, i);
    }
    assert AnyFailed(setup, stop.log, |log|) <==> AnyFailed(setup, stop.log, |middle|);
  }

  /**
   * Every stop with something in scope lets the agent go only if nothing in scope is left or all that was left was
   * approved; gives up only at the tenth counted round; and otherwise blocks, with what the reviewer found in the whole
   * of the range or of what is left, or as unfinished exactly when a call failed.
   */
  lemma EveryAnswerIsRight(repo: Repo, setup: Setup, saved: GateState, log: seq<Call>)
    requires repo.Valid()
    requires setup.scope.ContainsAny(repo.names(ResolveBase(repo, saved), repo.worktree))
    ensures AnswersRight(repo, setup, ResolveBase(repo, saved), saved, |log|, HookSpec(repo, setup, true, saved, log))
  {
    hide PlanDiff, WalkSpec, ReviewTipSpec, CountedRound, Reviewed, AnyFailed;
    var change := PendingChangeOf(repo, saved);
    var walk := WalkSpec(repo, setup, saved, change, log);
    WalkIsJustified(repo, setup, saved, change, log);
    WalkAnswers(repo, setup, saved, change, log);
    var stop := HookSpec(repo, setup, true, saved, log);
    if walk.block.None? {
      WalkPaths(repo, setup, saved, change, log);
      if setup.scope.ContainsAny(walk.change.paths) {
        TipAnswers(repo, setup, change.baseTree, saved, walk);
        AnswersRightFromEarlier(repo, setup, change.baseTree, saved, log, walk.log, stop);
      }
    }
  }

  /** The walk leaves the paths between its base and the worktree it was given. */
  lemma {:induction false} WalkPaths(repo: Repo, setup: Setup, state: GateState, change: PendingChange, log: seq<Call>)
    requires repo.Valid() && change.paths == repo.names(change.baseTree, change.tree)
    ensures var walk := WalkSpec(repo, setup, state, change, log);
      walk.change.paths == repo.names(walk.change.baseTree, walk.change.tree)
    decreases CommitsLeft(repo, state, change)
  {
    hide PlanDiff, ReviewNextRangeSpec;
    if InBacklog(repo, state, change) && TooLarge(repo, change, setup.rubric) {
      var step := ReviewNextRangeSpec(repo, setup, state, change, log);
      if step.block.None? {
        RangeMakesProgress(repo, setup, state, change, log);
        WalkPaths(repo, setup, step.state, ChangeSince(repo, step.state, change), step.log);
      }
    }
  }

  /**
   * A stop compares against the pinned tree exactly when git still has it and either rounds are being counted or the base
   * commit saved with it is in HEAD's history; and else against HEAD's own tree.
   */
  lemma StartsAtThePinExactlyWhen(repo: Repo, saved: GateState)
    requires repo.Valid()
    ensures var held := saved.baseTree.Some? && saved.baseTree.value != "" && saved.baseTree.value in repo.trees;
      var known := saved.baseHead.Some? && saved.baseHead.value != "" && IsAncestor(repo.dag, saved.baseHead.value, repo.head);
      ResolveBase(repo, saved) == if held && (saved.blockedRounds >= 1 || known) then saved.baseTree.value else repo.dag[repo.head].tree
  {
  }

  /** Only a backlog is walked: from the pinned tree, over commits since the saved one, and if all of it is too large at once. */
  lemma WalksOnlyABacklog(repo: Repo, setup: Setup, saved: GateState, log: seq<Call>)
    requires repo.Valid()
    ensures var stop, start := HookSpec(repo, setup, true, saved, log), ResolveBase(repo, saved);
      stop.trail != [] && stop.trail[0].dst != repo.worktree ==>
        && saved.baseTree == Some(start) && saved.baseHead.Some? && saved.baseHead.value != repo.head
        && IsAncestor(repo.dag, saved.baseHead.value, repo.head)
        && PlanDiff(repo.diff(start, repo.worktree), setup.rubric).tooLarge != []
  {
    hide PlanDiff, WalkSpec, RunBatchesSpec;
    var change := PendingChangeOf(repo, saved);
    var walk := WalkSpec(repo, setup, saved, change, log);
    WalkStartsOnlyInABacklog(repo, setup, saved, change, log);
    WalkIsJustified(repo, setup, saved, change, log);
  }

  lemma WalkStartsOnlyInABacklog(repo: Repo, setup: Setup, state: GateState, change: PendingChange, log: seq<Call>)
    requires repo.Valid()
    ensures WalkSpec(repo, setup, state, change, log).trail != [] ==>
      && state.baseTree == Some(change.baseTree) && state.baseHead.Some? && state.baseHead.value != change.head
      && IsAncestor(repo.dag, state.baseHead.value, change.head)
      && PlanDiff(repo.diff(change.baseTree, change.tree), setup.rubric).tooLarge != []
  {
    hide PlanDiff, ReviewNextRangeSpec;
  }
}
