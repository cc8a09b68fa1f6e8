/** What the review gate keeps over a stop and over whole runs of stops. */
module ReviewGateRuns {
  import opened Wrappers
  import opened Text
  import opened ReviewDiff
  import opened CommitDag
  import opened ReviewGate

  // ---- why a base move is allowed ----

  /** What a stop shows for its moves: the calls its reviewer answered, the skips it names, the reason it blocks with. */
  datatype Shown = Shown(log: seq<Call>, skips: seq<Sha>, reason: Option<Reason>)

  function ShownBy(stop: Stop): Shown {
    Shown(stop.log, stop.outcome.Skips(), if stop.outcome.Block? then Some(stop.outcome.reason) else None)
  }

  /**
   * The four ways the base may move over `seg`: a clean review of every batch of the whole diff, no path in the
   * strict scope, findings handed over in the block, or a commit too large on its own that a notice names.
   */
  ghost predicate Justified(repo: Repo, setup: Setup, shown: Shown, seg: Segment) {
    var plan := PlanDiff(repo.diff(seg.src, seg.dst), setup.rubric);
    match seg.why
    case Approved(first, model) => AllBatchesClean(setup, plan, model, first, shown.log)
    case OutOfScope => !setup.scope.ContainsAny(repo.names(seg.src, seg.dst))
    case HandedOver(reason) => reason.RangeBlock? && reason.findings != [] && shown.reason == Some(reason)
    case Skipped(commit) =>
      && commit in repo.dag && repo.dag[commit].tree == seg.dst
      && plan.tooLarge != [] && commit in shown.skips
  }

  ghost predicate AllJustified(repo: Repo, setup: Setup, shown: Shown, trail: seq<Segment>) {
    forall seg :: seg in trail ==> Justified(repo, setup, shown, seg)
  }

  /** An approved segment's batches are the whole diff, for any diff that opens with a file header. */
  lemma ApprovedMeansTheWholeDiff(repo: Repo, setup: Setup, shown: Shown, seg: Segment)
    requires Justified(repo, setup, shown, seg) && seg.why.Approved?
    requires StartsWith(repo.diff(seg.src, seg.dst), FILE_HEADER)
    ensures var plan := PlanDiff(repo.diff(seg.src, seg.dst), setup.rubric);
      && Flatten(plan.batches) == repo.diff(seg.src, seg.dst) + "\n"
      && |plan.batches| <= MAX_BATCHES
      && forall i :: 0 <= i < |plan.batches| ==>
           shown.log[seg.why.firstCall + i] == Call(setup.rubric + plan.batches[i], seg.why.model)
  {
    hide PlanDiff;
    PlanIsTheWholeDiff(repo.diff(seg.src, seg.dst), setup.rubric);
  }

  /** Showing more later never takes a justification back. */
  lemma JustifiedStays(repo: Repo, setup: Setup, early: Shown, late: Shown, trail: seq<Segment>)
    requires AllJustified(repo, setup, early, trail)
    requires early.log <= late.log
    requires forall c :: c in early.skips ==> c in late.skips
    requires early.reason.Some? ==> late.reason == early.reason
    ensures AllJustified(repo, setup, late, trail)
  {
    hide PlanDiff;
    forall seg | seg in trail ensures Justified(repo, setup, late, seg) {
      assert Justified(repo, setup, early, seg);
    }
  }

  // ---- segments that chain ----

  function EndOf(trail: seq<Segment>, start: Tree): Tree {
    if trail == [] then start else trail[|trail| - 1].dst
  }

  predicate Linked(trail: seq<Segment>, start: Tree) {
    trail == [] || (trail[0].src == start && forall i :: 0 <= i < |trail| - 1 ==> trail[i].dst == trail[i + 1].src)
  }

  lemma LinkedAppend(a: seq<Segment>, b: seq<Segment>, start: Tree)
    requires Linked(a, start) && Linked(b, EndOf(a, start))
    ensures Linked(a + b, start) && EndOf(a + b, start) == EndOf(b, EndOf(a, start))
  {
    if a != [] && b != [] {
      forall i | 0 <= i < |a + b| - 1 ensures (a + b)[i].dst == (a + b)[i + 1].src {
        if i == |a| - 1 {
        } else if i >= |a| {
          assert (a + b)[i] == b[i - |a|];
        }
      }
    } else {
      assert a == [] ==> a + b == b;
      assert b == [] ==> a + b == a;
    }
  }

  // ---- one range, one walk, one stop ----

  /** What a range step shows, as a walk of that one step. */
  function StepShown(step: RangeStep): Shown {
    Shown(step.log, if step.skipped.Some? then [step.skipped.value] else [], step.block)
  }

  lemma FittingRangeIsJustified(repo: Repo, setup: Setup, state: GateState, baseTree: Tree, fitting: PendingChange, log: seq<Call>)
    requires state.baseHead.Some? && fitting.baseTree == baseTree && fitting.paths == repo.names(baseTree, fitting.tree)
    requires !TooLarge(repo, fitting, setup.rubric)
    ensures var step := ReviewRangeSpec(repo, setup, state, baseTree, fitting, log);
      && log <= step.log && step.skipped.None?
      && (step.moved.None? ==> step.state == state && step.block.Some?)
      && (step.moved.Some? ==>
            && step.moved.value.src == baseTree && step.moved.value.dst == fitting.tree
            && step.state == GateState(Some(fitting.tree), Some(fitting.head), 0)
            && Justified(repo, setup, StepShown(step), step.moved.value))
  {
    hide PlanDiff, AllBatchesClean, RunBatchesSpec;
    var plan := PlanReview(repo, fitting, setup.rubric);
    ApprovalMeansEveryBatchWasClean(setup, plan, ModelFor(state), log);
    assert plan == PlanDiff(repo.diff(baseTree, fitting.tree), setup.rubric);
    var (review, log') := RunBatchesSpec(setup, plan, ModelFor(state), log);
    assert review.unreviewed.None? && review.Passed() ==> AllBatchesClean(setup, plan, ModelFor(state), |log|, log');
  }

  lemma RangeIsJustified(repo: Repo, setup: Setup, state: GateState, change: PendingChange, log: seq<Call>)
    requires repo.Valid() && InBacklog(repo, state, change)
    ensures var step := ReviewNextRangeSpec(repo, setup, state, change, log);
      && log <= step.log
      && (step.moved.None? ==> step.state == state && step.block.Some? && step.skipped.None?)
      && (step.moved.Some? ==>
            && step.moved.value.src == change.baseTree
            && step.state.baseTree == Some(step.moved.value.dst)
            && step.state.baseTree.value != ""
            && Truthy(step.state.baseHead) && IsAncestor(repo.dag, step.state.baseHead.value, change.head)
            && step.state.blockedRounds == 0
            && Justified(repo, setup, StepShown(step), step.moved.value))
  {
    hide PlanDiff, FirstParentCommits, ReviewRangeSpec;
    var commits := FirstParentCommits(repo.dag, state.baseHead.value, change.head);
    HeadIsAhead(repo.dag, state.baseHead.value, change.head);
    RangeStopsBeforeTheFirstTooLarge(repo, change.baseTree, commits, setup.rubric);
    var n := FittingCount(repo, change.baseTree, commits, setup.rubric);
    if n == 0 {
      assert commits[0] in commits;
      assert TooLarge(repo, ChangeUpToCommit(repo, change.baseTree, commits[0]), setup.rubric);
    } else {
      assert commits[n - 1] in commits && commits[n - 1] in commits[..n];
      var fitting := ChangeUpToCommit(repo, change.baseTree, commits[n - 1]);
      hide Justified;
      FittingRangeIsJustified(repo, setup, state, change.baseTree, fitting, log);
    }
  }

  function WalkShown(walk: Walk): Shown {
    Shown(walk.log, walk.skipped, walk.block)
  }

  /**
   * The walk chains justified segments from the base it was given to the base it leaves, and it ends: either with a
   * block, or when the rest is no backlog or fits one review.
   */
  lemma {:induction false} WalkIsJustified(repo: Repo, setup: Setup, state: GateState, change: PendingChange, log: seq<Call>)
    requires repo.Valid()
    ensures var walk := WalkSpec(repo, setup, state, change, log);
      && log <= walk.log
      && Linked(walk.trail, change.baseTree)
      && AllJustified(repo, setup, WalkShown(walk), walk.trail)
      && (walk.trail == [] ==> walk.state == state && walk.skipped == [])
      && (walk.trail != [] ==>
            && walk.state.baseTree == Some(EndOf(walk.trail, change.baseTree))
            && walk.state.blockedRounds == 0
            && Truthy(walk.state.baseHead) && IsAncestor(repo.dag, walk.state.baseHead.value, change.head))
      && (walk.block.None? ==>
            && walk.change.baseTree == EndOf(walk.trail, change.baseTree)
            && walk.change.head == change.head && walk.change.tree == change.tree
            && (walk.trail == [] ==> walk.change == change)
            && !(InBacklog(repo, walk.state, walk.change) && TooLarge(repo, walk.change, setup.rubric)))
      && (walk.block.Some? ==> InBacklog(repo, state, change) && (walk.block.value.RangeBlock? || walk.block.value.Unfinished?))
    decreases CommitsLeft(repo, state, change)
  {
    hide PlanDiff, ReviewNextRangeSpec, Justified;
    if InBacklog(repo, state, change) && TooLarge(repo, change, setup.rubric) {
      var step := ReviewNextRangeSpec(repo, setup, state, change, log);
      RangeIsJustified(repo, setup, state, change, log);
      RangeReasons(repo, setup, state, change, log);
      if step.block.None? {
        RangeMakesProgress(repo, setup, state, change, log);
        var later := ChangeSince(repo, step.state, change);
        var rest := WalkSpec(repo, setup, step.state, later, step.log);
        WalkIsJustified(repo, setup, step.state, later, step.log);
        WalkChains(repo, setup, step, change, rest);
      }
    }
  }

  lemma RangeReasons(repo: Repo, setup: Setup, state: GateState, change: PendingChange, log: seq<Call>)
    requires repo.Valid() && InBacklog(repo, state, change)
    ensures var step := ReviewNextRangeSpec(repo, setup, state, change, log);
      step.block.Some? ==> step.block.value.RangeBlock? || step.block.value.Unfinished?
  {
    hide PlanReview, RunBatchesSpec;
  }

  /** One unblocked range followed by a justified walk is a justified walk. */
  lemma WalkChains(repo: Repo, setup: Setup, step: RangeStep, change: PendingChange, rest: Walk)
    requires step.block.None? && step.moved.Some? && step.moved.value.src == change.baseTree
    requires step.log <= rest.log
    requires Linked(rest.trail, step.moved.value.dst)
    requires var skips := if step.skipped.Some? then [step.skipped.value] else [];
      Justified(repo, setup, Shown(step.log, skips, None), step.moved.value)
    requires AllJustified(repo, setup, WalkShown(rest), rest.trail)
    ensures var skips := if step.skipped.Some? then [step.skipped.value] else [];
      var walk := After(skips, [step.moved.value], rest);
      && Linked(walk.trail, change.baseTree)
      && EndOf(walk.trail, change.baseTree) == EndOf(rest.trail, step.moved.value.dst)
      && AllJustified(repo, setup, WalkShown(walk), walk.trail)
  {
    hide Justified;
    var skips := if step.skipped.Some? then [step.skipped.value] else [];
    var first := [step.moved.value];
    var walk := After(skips, first, rest);
    LinkedAppend(first, rest.trail, change.baseTree);
    JustifiedStays(repo, setup, Shown(step.log, skips, None), WalkShown(walk), first);
    JustifiedStays(repo, setup, WalkShown(rest), WalkShown(walk), rest.trail);
  }

  /** Whether the next stop starts at the tree the state file pins. */
  predicate Pinned(repo: Repo, state: GateState)
    requires repo.Valid()
  {
    Truthy(state.baseTree) && state.baseTree.value in repo.trees && PinHolds(repo, state)
  }

  /**
   * Safety of one stop: from the base the stop starts at, the pinned tree moves only along justified segments that
   * chain, each one shown by this very stop; with no segment, the pin stays or becomes the base the stop started at.
   */
  lemma StopIsJustified(repo: Repo, setup: Setup, here: bool, saved: GateState, log: seq<Call>)
    requires repo.Valid()
    ensures var stop := HookSpec(repo, setup, here, saved, log);
      var start := ResolveBase(repo, saved);
      && log <= stop.log
      && Linked(stop.trail, start)
      && AllJustified(repo, setup, ShownBy(stop), stop.trail)
      && (stop.trail == [] ==> stop.saved.baseTree == saved.baseTree || stop.saved.baseTree == Some(start))
      && (stop.trail != [] ==> stop.saved.baseTree == Some(EndOf(stop.trail, start)))
  {
    hide PlanDiff, WalkSpec, Justified;
    var change := PendingChangeOf(repo, saved);
    if here && setup.scope.ContainsAny(change.paths) {
      var walk := WalkSpec(repo, setup, saved, change, log);
      WalkIsJustified(repo, setup, saved, change, log);
      var stop := HookSpec(repo, setup, here, saved, log);
      if walk.block.None? && setup.scope.ContainsAny(walk.change.paths) {
        TipIsJustified(repo, setup, walk, change.baseTree);
        JustifiedStays(repo, setup, TipShown(walk, ReviewTipSpec(repo, setup, walk)), ShownBy(stop), stop.trail);
      } else {
        JustifiedStays(repo, setup, WalkShown(walk), ShownBy(stop), stop.trail);
      }
    }
  }

  function TipShown(walk: Walk, tip: Stop): Shown {
    Shown(tip.log, walk.skipped, None)
  }

  lemma TipIsJustified(repo: Repo, setup: Setup, walk: Walk, start: Tree)
    requires walk.block.None? && Linked(walk.trail, start) && walk.change.baseTree == EndOf(walk.trail, start)
    requires AllJustified(repo, setup, WalkShown(walk), walk.trail)
    ensures var tip := ReviewTipSpec(repo, setup, walk);
      && walk.log <= tip.log
      && Linked(tip.trail, start)
      && AllJustified(repo, setup, TipShown(walk, tip), tip.trail)
      && ((tip.saved == walk.state && tip.trail == walk.trail) || tip.saved.baseTree == Some(EndOf(tip.trail, start)))
  {
    hide PlanDiff, AllBatchesClean;
    var plan := PlanReview(repo, walk.change, setup.rubric);
    var tip := ReviewTipSpec(repo, setup, walk);
    ApprovalMeansEveryBatchWasClean(setup, plan, ModelFor(walk.state), walk.log);
    assert plan == PlanDiff(repo.diff(walk.change.baseTree, walk.change.tree), setup.rubric);
    var (review, log') := RunBatchesSpec(setup, plan, ModelFor(walk.state), walk.log);
    assert review.unreviewed.None? && review.Passed() ==> AllBatchesClean(setup, plan, ModelFor(walk.state), |walk.log|, log');
    assert AllJustified(repo, setup, TipShown(walk, tip), walk.trail) by {
      JustifiedStays(repo, setup, WalkShown(walk), TipShown(walk, tip), walk.trail);
    }
    var approval := [Segment(walk.change.baseTree, walk.change.tree, Approved(|walk.log|, ModelFor(walk.state)))];
    LinkedAppend(walk.trail, approval, start);
    forall seg | seg in tip.trail ensures Justified(repo, setup, TipShown(walk, tip), seg) {
      if seg in walk.trail {
      } else {
        assert seg == approval[0];
      }
    }
  }

  // ---- runs of stops ----

  /** One stop of a run: the repository as it is then, and whether the session is in it. */
  datatype Visit = Visit(repo: Repo, here: bool)

  ghost predicate AllValid(visits: seq<Visit>) {
    forall i :: 0 <= i < |visits| ==> visits[i].repo.Valid()
  }

  function Replay(setup: Setup, visits: seq<Visit>, saved: GateState, log: seq<Call>): (stops: seq<Stop>)
    requires forall i :: 0 <= i < |visits| ==> visits[i].repo.Valid()
    ensures |stops| == |visits|
  {
    if visits == [] then []
    else
      var stop := HookSpec(visits[0].repo, setup, visits[0].here, saved, log);
      [stop] + Replay(setup, visits[1..], stop.saved, stop.log)
  }

  function StateBefore(stops: seq<Stop>, saved: GateState, i: nat): GateState
    requires i <= |stops|
  {
    if i == 0 then saved else stops[i - 1].saved
  }

  function TrailOf(stops: seq<Stop>): seq<Segment> {
    if stops == [] then [] else stops[0].trail + TrailOf(stops[1..])
  }

  /**
   * Over any run in which every stop finds its pin, whatever is committed, edited or rewritten in between, the
   * segments of all stops chain from the first pinned tree to the last with no gap, each justified by its own stop.
   */
  lemma {:induction false} PinnedRunsChain(setup: Setup, visits: seq<Visit>, saved: GateState, log: seq<Call>)
    requires AllValid(visits) && Truthy(saved.baseTree)
    requires var stops := Replay(setup, visits, saved, log);
      forall i :: 0 <= i < |visits| ==> Pinned(visits[i].repo, StateBefore(stops, saved, i))
    ensures var stops := Replay(setup, visits, saved, log);
      && Linked(TrailOf(stops), saved.baseTree.value)
      && StateBefore(stops, saved, |stops|).baseTree == Some(EndOf(TrailOf(stops), saved.baseTree.value))
      && forall i :: 0 <= i < |stops| ==> AllJustified(visits[i].repo, setup, ShownBy(stops[i]), stops[i].trail)
  {
    hide HookSpec, Justified;
    if visits != [] {
      var stops := Replay(setup, visits, saved, log);
      var stop, rest := stops[0], visits[1..];
      assert Pinned(visits[0].repo, StateBefore(stops, saved, 0));
      StopIsJustified(visits[0].repo, setup, visits[0].here, saved, log);
      var restStops := Replay(setup, rest, stop.saved, stop.log);
      assert stops == [stop] + restStops;
      assert Truthy(stop.saved.baseTree) || rest == [] by {
        if rest != [] {
          assert Pinned(visits[1].repo, StateBefore(stops, saved, 1));
        }
      }
      if rest != [] {
        forall i | 0 <= i < |rest| ensures Pinned(rest[i].repo, StateBefore(restStops, stop.saved, i)) {
          assert Pinned(visits[i + 1].repo, StateBefore(stops, saved, i + 1));
        }
        PinnedRunsChain(setup, rest, stop.saved, stop.log);
        LinkedAppend(stop.trail, TrailOf(restStops), saved.baseTree.value);
        assert stops[1..] == restStops;
        forall i | 0 <= i < |stops|
          ensures AllJustified(visits[i].repo, setup, ShownBy(stops[i]), stops[i].trail)
        {
          if i > 0 { assert stops[i] == restStops[i - 1] && visits[i] == rest[i - 1]; }
        }
      } else {
        assert stops == [stop];
        assert TrailOf(stops) == stop.trail + TrailOf([]);
        assert stop.trail + [] == stop.trail;
      }
    }
  }

  // ---- counting rounds ----

  /** A stop whose tip review found something: no move, and a counted round. */
  predicate TipFailed(stop: Stop) {
    stop.trail == [] && (stop.outcome.GiveUp? || (stop.outcome.Block? && stop.outcome.reason.TipBlock?))
  }

  /** The count stays below ten over every stop, and a give-up is always the tenth round. */
  lemma RoundsStayBelowTen(repo: Repo, setup: Setup, here: bool, saved: GateState, log: seq<Call>)
    requires repo.Valid() && 0 <= saved.blockedRounds < MAX_BLOCKED_ROUNDS
    ensures var stop := HookSpec(repo, setup, here, saved, log);
      && 0 <= stop.saved.blockedRounds < MAX_BLOCKED_ROUNDS
      && (stop.outcome.GiveUp? ==> stop.outcome.rounds == MAX_BLOCKED_ROUNDS && stop.saved.blockedRounds == 0)
      && (stop.outcome.Block? && stop.outcome.reason.TipBlock? ==> stop.outcome.reason.round == stop.saved.blockedRounds)
      && (TipFailed(stop) ==>
            && stop.saved.blockedRounds == (saved.blockedRounds + 1) % MAX_BLOCKED_ROUNDS
            && (stop.outcome.GiveUp? <==> saved.blockedRounds == MAX_BLOCKED_ROUNDS - 1)
            && (stop.outcome.Block? ==>
                  stop.outcome.reason.model == if saved.blockedRounds < ROUNDS_BEFORE_TIEBREAK then Primary else Tiebreak))
  {
    hide PlanDiff, WalkSpec, ResolveBase, RunBatchesSpec;
    var change := PendingChangeOf(repo, saved);
    var walk := WalkSpec(repo, setup, saved, change, log);
    WalkIsJustified(repo, setup, saved, change, log);
    ApprovalMeansEveryBatchWasClean(setup, PlanReview(repo, walk.change, setup.rubric), ModelFor(walk.state), walk.log);
    ReviewModel(setup, PlanReview(repo, walk.change, setup.rubric), ModelFor(walk.state), walk.log);
  }

  lemma ReviewModel(setup: Setup, plan: ReviewBatches, model: Model, log: seq<Call>)
    ensures RunBatchesSpec(setup, plan, model, log).0.model == model
  {
    RunFromExtendsTheLog(setup, plan.batches, |plan.batches|, plan.tooLarge, model, log);
  }

  /** In an unbroken run of failed tip reviews the gate gives up at exactly every tenth round, tie-breaking from the third. */
  lemma {:induction false} EveryTenthRoundGivesUp(setup: Setup, visits: seq<Visit>, saved: GateState, log: seq<Call>, i: nat)
    requires AllValid(visits) && 0 <= saved.blockedRounds < MAX_BLOCKED_ROUNDS && i < |visits|
    requires forall stop :: stop in Replay(setup, visits, saved, log) ==> TipFailed(stop)
    ensures var stop := Replay(setup, visits, saved, log)[i];
      && (stop.outcome.GiveUp? <==> (saved.blockedRounds + i + 1) % MAX_BLOCKED_ROUNDS == 0)
      && (stop.outcome.Block? && stop.outcome.reason.TipBlock? ==>
            (stop.outcome.reason.model == Tiebreak <==> (saved.blockedRounds + i) % MAX_BLOCKED_ROUNDS >= ROUNDS_BEFORE_TIEBREAK))
    decreases i
  {
    hide HookSpec;
    var stops := Replay(setup, visits, saved, log);
    var first := stops[0];
    RoundsStayBelowTen(visits[0].repo, setup, visits[0].here, saved, log);
    assert first in stops;
    if i > 0 {
      var rest := Replay(setup, visits[1..], first.saved, first.log);
      assert stops == [first] + rest;
      assert forall stop :: stop in rest ==> stop in stops;
      EveryTenthRoundGivesUp(setup, visits[1..], first.saved, first.log, i - 1);
      assert stops[i] == rest[i - 1];
      SameRound(saved.blockedRounds, i);
    }
  }

  lemma SameRound(rounds: int, i: nat)
    requires 0 <= rounds < 10 && i > 0
    ensures ((rounds + 1) % 10 + (i - 1)) % 10 == (rounds + i) % 10
    ensures ((rounds + 1) % 10 + (i - 1) + 1) % 10 == (rounds + i + 1) % 10
  {
  }

  // ---- what the give-up message promises ----

  /**
   * The give-up message says the next stop reviews the same diff again. The next stop of the unchanged repository starts
   * where this one did exactly when no base commit was saved, or the saved one is an ancestor of HEAD, or this stop
   * started at HEAD's own tree: a base commit that history was rewritten past is kept, and the reset count then drops
   * the pin.
   */
  lemma GiveUpKeepsTheDiffExactlyWhen(repo: Repo, setup: Setup, here: bool, saved: GateState, log: seq<Call>)
    requires repo.Valid()
    requires HookSpec(repo, setup, here, saved, log).outcome.GiveUp?
    ensures ResolveBase(repo, HookSpec(repo, setup, here, saved, log).saved) == ResolveBase(repo, saved) <==>
      || !Truthy(saved.baseHead)
      || IsAncestor(repo.dag, saved.baseHead.value, repo.head)
      || ResolveBase(repo, saved) == repo.dag[repo.head].tree
  {
    hide PlanDiff, WalkSpec, RunBatchesSpec;
    var change := PendingChangeOf(repo, saved);
    var walk := WalkSpec(repo, setup, saved, change, log);
    WalkIsJustified(repo, setup, saved, change, log);
    assert IsAncestor(repo.dag, repo.head, repo.head);
  }

  lemma {:induction false} AFindingEveryTimeNeverPasses(
      setup: Setup, batches: seq<string>, total: nat, found: seq<Finding>, model: Model, log: seq<Call>, finding: Finding)
    requires |batches| <= total && (batches != [] || found != [])
    requires forall n, prompt, m :: setup.reviewer(n, prompt, m) == Found([finding])
    ensures var (verdict, _) := RunFrom(setup, batches, total, found, model, log);
      verdict.unreviewed.None? && !verdict.Passed()
  {
    if batches != [] {
      var prompt := setup.rubric + batches[0];
      assert setup.reviewer(|log|, prompt, model) == Found([finding]);
      AFindingEveryTimeNeverPasses(setup, batches[1..], total, found + [finding], model, log + [Call(prompt, model)], finding);
    }
  }

  lemma AReviewThatAlwaysFindsNeverPasses(setup: Setup, diff: string, model: Model, log: seq<Call>, finding: Finding)
    requires StartsWith(diff, FILE_HEADER)
    requires forall n, prompt, m :: setup.reviewer(n, prompt, m) == Found([finding])
    ensures var (verdict, _) := RunBatchesSpec(setup, PlanDiff(diff, setup.rubric), model, log);
      verdict.unreviewed.None? && !verdict.Passed()
  {
    hide PlanDiff;
    var plan := PlanDiff(diff, setup.rubric);
    if plan.tooLarge == [] {
      PlanIsTheWholeDiff(diff, setup.rubric);
    }
    AFindingEveryTimeNeverPasses(setup, plan.batches, |plan.batches|, plan.tooLarge, model, log, finding);
  }

  function RewrittenRepo(): Repo {
    Repo(
      map["root" := Commit("R", [], 0), "work" := Commit("W", ["root"], 1)], {"R", "W"}, "work", "W",
      (a: Tree, b: Tree) => FILE_HEADER, (a: Tree, b: Tree) => ["pkg"])
  }

  /**
   * History was rewritten past the saved base commit, nine rounds were blocked, and the agent committed meanwhile. The
   * tenth stop gives up, and the next stop of the unchanged repository no longer compares against the pinned tree.
   */
  lemma GiveUpCanDropTheDiff(setup: Setup, finding: Finding)
    requires setup.scope.roots == ["pkg"]
    requires forall n, prompt, m :: setup.reviewer(n, prompt, m) == Found([finding])
    ensures var repo, saved := RewrittenRepo(), GateState(Some("R"), Some("gone"), 9);
      && repo.Valid() && Pinned(repo, saved)
      && var stop := HookSpec(repo, setup, true, saved, []);
      && stop.outcome.GiveUp? && stop.saved.baseTree == saved.baseTree
      && ResolveBase(repo, stop.saved) != ResolveBase(repo, saved)
  {
    hide PlanDiff, RunBatchesSpec;
    var repo, saved := RewrittenRepo(), GateState(Some("R"), Some("gone"), 9);
    assert setup.scope.ContainsAny(["pkg"]) by {
      assert setup.scope.roots[0] == "pkg";
      assert setup.scope.Contains(["pkg"][0]);
    }
    var change := PendingChange("work", "R", "W", ["pkg"]);
    assert PendingChangeOf(repo, saved) == change;
    assert WalkSpec(repo, setup, saved, change, []) == Walk(saved, change, [], None, [], []);
    AReviewThatAlwaysFindsNeverPasses(setup, FILE_HEADER, Tiebreak, [], finding);
    assert HookSpec(repo, setup, true, saved, []).saved == GateState(Some("R"), Some("gone"), 0);
  }
}
