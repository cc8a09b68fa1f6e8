/**
 * scripts/review_gate.py, review_backlog.py, review_run.py and review_state.py: one stop of the review gate.
 *
 * Git is read through `Repo`, a snapshot of the commit graph with its tree diffs. The reviewer is any function
 * of the call number, the prompt and the model, so two calls with one prompt may answer differently.
 */
module ReviewGate {
  import opened Wrappers
  import opened Text
  import opened ReviewDiff
  import opened CommitDag

  const ROUNDS_BEFORE_TIEBREAK := 2
  const PROMPT_BUDGET_TOKENS := 60_000
  const MAX_BATCHES: nat := 4
  const MAX_BLOCKED_ROUNDS := 10

  // ---- values ----

  datatype GateState = GateState(baseTree: Option<Tree>, baseHead: Option<Sha>, blockedRounds: int)

  datatype PendingChange = PendingChange(head: Sha, baseTree: Tree, tree: Tree, paths: seq<string>)

  datatype Model = Primary | Tiebreak

  datatype Reply = Found(findings: seq<Finding>) | ReviewFailed(message: string)

  type Reviewer = (nat, string, Model) -> Reply

  datatype Call = Call(prompt: string, model: Model)

  datatype Unreviewed = Unreviewed(batch: nat, total: nat, message: string)

  datatype BatchedVerdict = BatchedVerdict(model: Model, findings: seq<Finding>, unreviewed: Option<Unreviewed>) {
    predicate Passed() {
      findings == []
    }
  }

  /** Why a stop is blocked: the facts the reason text is made of. */
  datatype Reason =
    | TipBlock(model: Model, round: int, findings: seq<Finding>)
    | RangeBlock(model: Model, since: Sha, upTo: Sha, findings: seq<Finding>)
    | Unfinished(review: BatchedVerdict)

  /** An outcome with the skip notices put in front of its text. */
  datatype Outcome =
    | Silent
    | Notice(skipped: seq<Sha>)
    | GiveUp(skipped: seq<Sha>, rounds: int, findings: seq<Finding>)
    | Block(skipped: seq<Sha>, reason: Reason)
  {
    function Skips(): seq<Sha> {
      if Silent? then [] else skipped
    }
  }

  datatype StrictScope = StrictScope(roots: seq<string>) {
    predicate Contains(path: string) {
      exists i :: 0 <= i < |roots| && (path == roots[i] || StartsWith(path, roots[i] + "/"))
    }

    predicate ContainsAny(paths: seq<string>) {
      exists i :: 0 <= i < |paths| && Contains(paths[i])
    }
  }

  datatype Repo = Repo(
    dag: Dag, trees: set<Tree>, head: Sha, worktree: Tree,
    diff: (Tree, Tree) -> string, names: (Tree, Tree) -> seq<string>)
  {
    /** Git names commits and trees by hash, so no name is the empty string. */
    predicate Valid() {
      && WellFormed(dag) && head in dag && worktree != "" && "" !in dag
      && forall c :: c in dag ==> dag[c].tree != ""
    }
  }

  /** What one gate is configured with: the strict scope, the rubric text and the reviewer. */
  datatype Setup = Setup(scope: StrictScope, rubric: string, reviewer: Reviewer)

  /** How the pinned base tree moved from one tree to another. */
  datatype Why = Approved(firstCall: nat, model: Model) | OutOfScope | HandedOver(reason: Reason) | Skipped(commit: Sha)

  datatype Segment = Segment(src: Tree, dst: Tree, why: Why)

  // ---- review_run.py ----

  function ModelFor(state: GateState): Model {
    if state.blockedRounds >= ROUNDS_BEFORE_TIEBREAK then Tiebreak else Primary
  }

  function PlanDiff(diff: string, rubric: string): ReviewBatches {
    Pack(SplitDiff(diff), PROMPT_BUDGET_TOKENS - |rubric| / CHARS_PER_TOKEN, MAX_BATCHES)
  }

  /** A plan that is not too large is the whole diff in order, in at most four batches. */
  lemma PlanIsTheWholeDiff(diff: string, rubric: string)
    requires PlanDiff(diff, rubric).tooLarge == [] && StartsWith(diff, FILE_HEADER)
    ensures Flatten(PlanDiff(diff, rubric).batches) == diff + "\n"
    ensures 0 < |PlanDiff(diff, rubric).batches| <= MAX_BATCHES
  {
    hide Pack, SplitDiff;
    PlanCoversTheDiff(diff, PROMPT_BUDGET_TOKENS - |rubric| / CHARS_PER_TOKEN, MAX_BATCHES);
    var batches := PlanDiff(diff, rubric).batches;
    assert |diff + "\n"| > 0;
    assert batches == [] ==> Flatten(batches) == "";
  }

  function PlanReview(repo: Repo, change: PendingChange, rubric: string): ReviewBatches {
    PlanDiff(repo.diff(change.baseTree, change.tree), rubric)
  }

  predicate TooLarge(repo: Repo, change: PendingChange, rubric: string) {
    PlanReview(repo, change, rubric).tooLarge != []
  }

  /** The verdict and the call log once `batches`, the last ones of `total`, have been handed to the reviewer. */
  function RunFrom(setup: Setup, batches: seq<string>, total: nat, found: seq<Finding>, model: Model, log: seq<Call>)
    : (BatchedVerdict, seq<Call>)
    requires |batches| <= total
  {
    if batches == [] then (BatchedVerdict(model, found, None), log)
    else
      var prompt := setup.rubric + batches[0];
      var asked := log + [Call(prompt, model)];
      match setup.reviewer(|log|, prompt, model)
      case Found(findings) => RunFrom(setup, batches[1..], total, found + findings, model, asked)
      case ReviewFailed(message) =>
        (BatchedVerdict(model, found, Some(Unreviewed(total - |batches| + 1, total, message))), asked)
  }

  function RunBatchesSpec(setup: Setup, plan: ReviewBatches, model: Model, log: seq<Call>): (BatchedVerdict, seq<Call>) {
    RunFrom(setup, plan.batches, |plan.batches|, plan.tooLarge, model, log)
  }

  /** Every batch of the plan was handed over, in order, from call `first` on, and came back without a finding. */
  ghost predicate AllBatchesClean(setup: Setup, plan: ReviewBatches, model: Model, first: nat, log: seq<Call>) {
    && plan.tooLarge == []
    && first + |plan.batches| <= |log|
    && forall i :: 0 <= i < |plan.batches| ==>
         && log[first + i] == Call(setup.rubric + plan.batches[i], model)
         && setup.reviewer(first + i, setup.rubric + plan.batches[i], model) == Found([])
  }

  lemma {:induction false} RunFromExtendsTheLog(
      setup: Setup, batches: seq<string>, total: nat, found: seq<Finding>, model: Model, log: seq<Call>)
    requires |batches| <= total
    ensures var (verdict, log') := RunFrom(setup, batches, total, found, model, log);
      && log <= log'
      && verdict.model == model
      && (verdict.unreviewed.None? && verdict.findings == [] <==>
            && found == []
            && log + seq(|batches|, i requires 0 <= i < |batches| => Call(setup.rubric + batches[i], model)) == log'
            && forall i :: 0 <= i < |batches| ==>
                 setup.reviewer(|log| + i, setup.rubric + batches[i], model) == Found([]))
  {
    if batches != [] {
      var prompt := setup.rubric + batches[0];
      var asked := log + [Call(prompt, model)];
      var rest := batches[1..];
      var calls := seq(|batches|, i requires 0 <= i < |batches| => Call(setup.rubric + batches[i], model));
      var restCalls := seq(|rest|, i requires 0 <= i < |rest| => Call(setup.rubric + rest[i], model));
      assert log + calls == asked + restCalls;
      var reply := setup.reviewer(|log|, prompt, model);
      if reply.Found? {
        RunFromExtendsTheLog(setup, rest, total, found + reply.findings, model, asked);
        assert forall i :: 0 <= i < |rest| ==> rest[i] == batches[i + 1];
        if forall i :: 0 <= i < |rest| ==> setup.reviewer(|asked| + i, setup.rubric + rest[i], model) == Found([]) {
          forall i | 1 <= i < |batches|
            ensures setup.reviewer(|log| + i, setup.rubric + batches[i], model) == Found([])
          {
            assert setup.reviewer(|asked| + (i - 1), setup.rubric + rest[i - 1], model) == Found([]);
          }
        } else {
          var i :| 0 <= i < |rest| && setup.reviewer(|asked| + i, setup.rubric + rest[i], model) != Found([]);
          assert setup.reviewer(|log| + (i + 1), setup.rubric + batches[i + 1], model) != Found([]);
        }
      } else {
        assert setup.reviewer(|log| + 0, setup.rubric + batches[0], model) != Found([]);
      }
    } else {
      assert log + [] == log;
    }
  }

  /** A review approves exactly when nothing was too large and every batch, all of them asked, came back clean. */
  lemma ApprovalMeansEveryBatchWasClean(setup: Setup, plan: ReviewBatches, model: Model, log: seq<Call>)
    ensures var (verdict, log') := RunBatchesSpec(setup, plan, model, log);
      && log <= log'
      && (verdict.unreviewed.None? && verdict.Passed() <==>
            |log'| == |log| + |plan.batches| && AllBatchesClean(setup, plan, model, |log|, log'))
  {
    RunFromExtendsTheLog(setup, plan.batches, |plan.batches|, plan.tooLarge, model, log);
  }

  // ---- review_state.py ----

  function NextState(state: GateState, change: PendingChange, verdict: BatchedVerdict): GateState {
    if verdict.Passed() then GateState(Some(change.tree), Some(change.head), 0)
    else GateState(
      Some(change.baseTree),
      if Truthy(state.baseHead) then state.baseHead else Some(change.head),
      state.blockedRounds + 1)
  }

  /** Python's `value or other` keeps neither None nor the empty string. */
  predicate Truthy(value: Option<string>) {
    value.Some? && value.value != ""
  }

  // ---- review_backlog.py ----

  predicate InBacklog(repo: Repo, state: GateState, change: PendingChange)
    requires repo.Valid()
  {
    && state.baseHead.Some?
    && state.baseTree == Some(change.baseTree)
    && state.baseHead.value != change.head
    && IsAncestor(repo.dag, state.baseHead.value, change.head)
  }

  function ChangeUpToCommit(repo: Repo, baseTree: Tree, commit: Sha): PendingChange
    requires commit in repo.dag
  {
    var tree := repo.dag[commit].tree;
    PendingChange(commit, baseTree, tree, repo.names(baseTree, tree))
  }

  function ChangeSince(repo: Repo, reviewed: GateState, change: PendingChange): PendingChange {
    var baseTree := if Truthy(reviewed.baseTree) then reviewed.baseTree.value else change.baseTree;
    PendingChange(change.head, baseTree, change.tree, repo.names(baseTree, change.tree))
  }

  /** How many leading commits can be planned before the first that is too large. */
  function FittingCount(repo: Repo, baseTree: Tree, commits: seq<Sha>, rubric: string): (n: nat)
    requires forall c :: c in commits ==> c in repo.dag
    ensures n <= |commits|
  {
    hide PlanReview;
    if commits == [] || TooLarge(repo, ChangeUpToCommit(repo, baseTree, commits[0]), rubric) then 0
    else 1 + FittingCount(repo, baseTree, commits[1..], rubric)
  }

  /** A range stops right before the first commit whose change since the base is too large to plan. */
  lemma {:induction false} RangeStopsBeforeTheFirstTooLarge(repo: Repo, baseTree: Tree, commits: seq<Sha>, rubric: string)
    requires forall c :: c in commits ==> c in repo.dag
    ensures var n := FittingCount(repo, baseTree, commits, rubric);
      && (forall c :: c in commits[..n] ==> !TooLarge(repo, ChangeUpToCommit(repo, baseTree, c), rubric))
      && (n < |commits| ==> TooLarge(repo, ChangeUpToCommit(repo, baseTree, commits[n]), rubric))
  {
    hide PlanReview;
    if commits != [] && !TooLarge(repo, ChangeUpToCommit(repo, baseTree, commits[0]), rubric) {
      var n := FittingCount(repo, baseTree, commits, rubric);
      RangeStopsBeforeTheFirstTooLarge(repo, baseTree, commits[1..], rubric);
      assert commits[..n] == [commits[0]] + commits[1..][..n - 1];
    }
  }

  datatype RangeStep = RangeStep(state: GateState, skipped: Option<Sha>, block: Option<Reason>, log: seq<Call>, moved: Option<Segment>)

  /** The range chosen: passed over when out of scope, else reviewed. */
  function ReviewRangeSpec(repo: Repo, setup: Setup, state: GateState, baseTree: Tree, fitting: PendingChange, log: seq<Call>): RangeStep
    requires state.baseHead.Some?
  {
    var advanced := GateState(Some(fitting.tree), Some(fitting.head), 0);
    if !setup.scope.ContainsAny(fitting.paths) then
      RangeStep(advanced, None, None, log, Some(Segment(baseTree, fitting.tree, OutOfScope)))
    else
      var (review, log') := RunBatchesSpec(setup, PlanReview(repo, fitting, setup.rubric), ModelFor(state), log);
      if review.unreviewed.Some? then
        RangeStep(state, None, Some(Unfinished(review)), log', None)
      else if review.Passed() then
        RangeStep(advanced, None, None, log', Some(Segment(baseTree, fitting.tree, Approved(|log|, ModelFor(state)))))
      else
        var reason := RangeBlock(review.model, state.baseHead.value, fitting.head, review.findings);
        RangeStep(advanced, None, Some(reason), log', Some(Segment(baseTree, fitting.tree, HandedOver(reason))))
  }

  function ReviewNextRangeSpec(repo: Repo, setup: Setup, state: GateState, change: PendingChange, log: seq<Call>): RangeStep
    requires repo.Valid() && InBacklog(repo, state, change)
  {
    var commits := FirstParentCommits(repo.dag, state.baseHead.value, change.head);
    HeadIsAhead(repo.dag, state.baseHead.value, change.head);
    var n := FittingCount(repo, change.baseTree, commits, setup.rubric);
    if n == 0 then
      var alone := ChangeUpToCommit(repo, change.baseTree, commits[0]);
      RangeStep(GateState(Some(alone.tree), Some(alone.head), 0), Some(commits[0]), None, log,
                Some(Segment(change.baseTree, alone.tree, Skipped(commits[0]))))
    else
      assert commits[n - 1] in commits;
      ReviewRangeSpec(repo, setup, state, change.baseTree, ChangeUpToCommit(repo, change.baseTree, commits[n - 1]), log)
  }

  lemma HeadIsAhead(dag: Dag, since: Sha, head: Sha)
    requires WellFormed(dag) && IsAncestor(dag, since, head) && since != head
    ensures FirstParentCommits(dag, since, head) != []
    ensures !IsAncestor(dag, head, since)
  {
    AncestorIsOlder(dag, since, head);
    if IsAncestor(dag, head, since) {
      AncestorIsOlder(dag, head, since);
    }
  }

  /** First-parent commits the walk has still to pass, for a state in the backlog. */
  function CommitsLeft(repo: Repo, state: GateState, change: PendingChange): nat
    requires repo.Valid()
  {
    if InBacklog(repo, state, change) then |FirstParentCommits(repo.dag, state.baseHead.value, change.head)| else 0
  }

  /** The two cases of a range step over these commits: the first one skipped, or the range up to the last that fits. */
  predicate IsStepOver(repo: Repo, setup: Setup, state: GateState, baseTree: Tree, commits: seq<Sha>, log: seq<Call>, step: RangeStep)
    requires state.baseHead.Some? && forall c :: c in commits ==> c in repo.dag
  {
    var n := FittingCount(repo, baseTree, commits, setup.rubric);
    && commits != []
    && (n == 0 ==>
          var first := commits[0];
          var alone := (assert first in commits; ChangeUpToCommit(repo, baseTree, first));
          step == RangeStep(
            GateState(Some(alone.tree), Some(alone.head), 0), Some(first), None, log,
            Some(Segment(baseTree, alone.tree, Skipped(first)))))
    && (n > 0 ==>
          var last := commits[n - 1];
          assert last in commits;
          step == ReviewRangeSpec(repo, setup, state, baseTree, ChangeUpToCommit(repo, baseTree, last), log))
  }

  lemma NextRangeIs(repo: Repo, setup: Setup, state: GateState, change: PendingChange, log: seq<Call>)
    requires repo.Valid() && InBacklog(repo, state, change)
    ensures IsStepOver(
      repo, setup, state, change.baseTree, FirstParentCommits(repo.dag, state.baseHead.value, change.head), log,
      ReviewNextRangeSpec(repo, setup, state, change, log))
  {
    hide PlanReview, ReviewRangeSpec, FirstParentCommits, FittingCount, IsAncestor, ChangeUpToCommit;
    HeadIsAhead(repo.dag, state.baseHead.value, change.head);
  }

  lemma UnblockedRangeAdvances(repo: Repo, setup: Setup, state: GateState, baseTree: Tree, fitting: PendingChange, log: seq<Call>)
    requires state.baseHead.Some?
    ensures var step := ReviewRangeSpec(repo, setup, state, baseTree, fitting, log);
      step.block.None? ==> step.state == GateState(Some(fitting.tree), Some(fitting.head), 0)
  {
    hide PlanReview, RunBatchesSpec;
  }

  /** A range that does not block takes at least one commit off what is left, so the walk ends. */
  lemma RangeMakesProgress(repo: Repo, setup: Setup, state: GateState, change: PendingChange, log: seq<Call>)
    requires repo.Valid() && InBacklog(repo, state, change)
    ensures var step := ReviewNextRangeSpec(repo, setup, state, change, log);
      step.block.None? ==>
        && step.state.baseHead.Some? && step.state.baseTree.Some?
        && step.state.baseHead.value in FirstParentCommits(repo.dag, state.baseHead.value, change.head)
        && CommitsLeft(repo, step.state, ChangeSince(repo, step.state, change)) < CommitsLeft(repo, state, change)
  {
    hide PlanReview;
    HeadIsAhead(repo.dag, state.baseHead.value, change.head);
    var commits := FirstParentCommits(repo.dag, state.baseHead.value, change.head);
    var n := FittingCount(repo, change.baseTree, commits, setup.rubric);
    var k := if n == 0 then 0 else n - 1;
    assert commits[k] in commits;
    FirstParentSuffix(repo.dag, state.baseHead.value, change.head, k);
    if n > 0 {
      UnblockedRangeAdvances(
        repo, setup, state, change.baseTree, ChangeUpToCommit(repo, change.baseTree, commits[k]), log);
    }
    hide ReviewRangeSpec, FirstParentCommits, FittingCount, IsAncestor;
  }

  datatype Walk = Walk(state: GateState, change: PendingChange, skipped: seq<Sha>, block: Option<Reason>, log: seq<Call>, trail: seq<Segment>)

  /** `rest` with what was skipped and moved before it. */
  function After(skipped: seq<Sha>, trail: seq<Segment>, rest: Walk): Walk {
    rest.(skipped := skipped + rest.skipped, trail := trail + rest.trail)
  }

  lemma AfterTwice(a: seq<Sha>, s: seq<Segment>, b: seq<Sha>, t: seq<Segment>, rest: Walk)
    ensures After(a, s, After(b, t, rest)) == After(a + b, s + t, rest)
  {
    assert a + (b + rest.skipped) == a + b + rest.skipped;
    assert s + (t + rest.trail) == s + t + rest.trail;
  }

  function WalkSpec(repo: Repo, setup: Setup, state: GateState, change: PendingChange, log: seq<Call>): Walk
    requires repo.Valid()
    decreases CommitsLeft(repo, state, change)
  {
    if InBacklog(repo, state, change) && TooLarge(repo, change, setup.rubric) then
      var step := ReviewNextRangeSpec(repo, setup, state, change, log);
      var skips := if step.skipped.Some? then [step.skipped.value] else [];
      var moved := if step.moved.Some? then [step.moved.value] else [];
      if step.block.Some? then Walk(step.state, change, skips, step.block, step.log, moved)
      else
        RangeMakesProgress(repo, setup, state, change, log);
        After(skips, moved, WalkSpec(repo, setup, step.state, ChangeSince(repo, step.state, change), step.log))
    else Walk(state, change, [], None, log, [])
  }

  // ---- review_gate.py ----

  function ResolveBase(repo: Repo, state: GateState): Tree
    requires repo.Valid()
  {
    if Truthy(state.baseTree) && state.baseTree.value in repo.trees && PinHolds(repo, state) then state.baseTree.value
    else repo.dag[repo.head].tree
  }

  predicate PinHolds(repo: Repo, state: GateState)
    requires repo.Valid()
  {
    state.blockedRounds > 0 || (Truthy(state.baseHead) && IsAncestor(repo.dag, state.baseHead.value, repo.head))
  }

  function PendingChangeOf(repo: Repo, state: GateState): PendingChange
    requires repo.Valid()
  {
    var baseTree := ResolveBase(repo, state);
    PendingChange(repo.head, baseTree, repo.worktree, repo.names(baseTree, repo.worktree))
  }

  /** What one stop leaves: the state file, the outcome, the calls made so far and how the base moved. */
  datatype Stop = Stop(saved: GateState, outcome: Outcome, log: seq<Call>, trail: seq<Segment>)

  /** `with_skip_notices`: the notices go in front of whatever the outcome says. */
  function WithSkipNotices(outcome: Outcome, skipped: seq<Sha>): Outcome {
    if skipped == [] then outcome
    else match outcome
      case Block(more, reason) => Block(skipped + more, reason)
      case GiveUp(more, rounds, findings) => GiveUp(skipped + more, rounds, findings)
      case Notice(more) => Notice(skipped + more)
      case Silent => Notice(skipped)
  }

  /** `review_tip` after a walk, its outcome still without the walk's skip notices. */
  function ReviewTipSpec(repo: Repo, setup: Setup, walk: Walk): Stop {
    var (review, log') := RunBatchesSpec(setup, PlanReview(repo, walk.change, setup.rubric), ModelFor(walk.state), walk.log);
    if review.unreviewed.Some? then Stop(walk.state, Block([], Unfinished(review)), log', walk.trail)
    else
      var updated := NextState(walk.state, walk.change, review);
      if review.Passed() then
        Stop(updated, Silent, log',
             walk.trail + [Segment(walk.change.baseTree, walk.change.tree, Approved(|walk.log|, ModelFor(walk.state)))])
      else if updated.blockedRounds >= MAX_BLOCKED_ROUNDS then
        Stop(updated.(blockedRounds := 0), GiveUp([], updated.blockedRounds, review.findings), log', walk.trail)
      else
        Stop(updated, Block([], TipBlock(review.model, updated.blockedRounds, review.findings)), log', walk.trail)
  }

  /** `hook_decision`; `here` says the event's directory is the repository. */
  function HookSpec(repo: Repo, setup: Setup, here: bool, saved: GateState, log: seq<Call>): Stop
    requires repo.Valid()
  {
    var change := PendingChangeOf(repo, saved);
    if !here || !setup.scope.ContainsAny(change.paths) then Stop(saved, Silent, log, [])
    else
      var walk := WalkSpec(repo, setup, saved, change, log);
      if walk.block.Some? then
        Stop(walk.state, WithSkipNotices(Block([], walk.block.value), walk.skipped), walk.log, walk.trail)
      else if !setup.scope.ContainsAny(walk.change.paths) then
        Stop(walk.state, WithSkipNotices(Silent, walk.skipped), walk.log, walk.trail)
      else
        var stop := ReviewTipSpec(repo, setup, walk);
        stop.(outcome := WithSkipNotices(stop.outcome, walk.skipped))
  }

  // ---- the gate itself ----

  /** The running gate: `saved` is the state file, `log` the calls its reviewer has answered. */
  class Gate {
    const setup: Setup
    var saved: GateState
    var log: seq<Call>

    constructor (setup: Setup, saved: GateState)
      ensures this.setup == setup && this.saved == saved && log == []
    {
      this.setup, this.saved, log := setup, saved, [];
    }

    method RunBatches(plan: ReviewBatches, model: Model) returns (review: BatchedVerdict)
      modifies this`log
      ensures (review, log) == RunBatchesSpec(setup, plan, model, old(log))
    {
      var findings := plan.tooLarge;
      var total := |plan.batches|;
      for done := 0 to total
        invariant RunFrom(setup, plan.batches[done..], total, findings, model, log)
               == RunBatchesSpec(setup, plan, model, old(log))
      {
        var prompt := setup.rubric + plan.batches[done];
        var reply := setup.reviewer(|log|, prompt, model);
        log := log + [Call(prompt, model)];
        assert plan.batches[done..][1..] == plan.batches[done + 1..];
        match reply
        case Found(found) => findings := findings + found;
        case ReviewFailed(message) =>
          return BatchedVerdict(model, findings, Some(Unreviewed(done + 1, total, message)));
      }
      review := BatchedVerdict(model, findings, None);
    }

    method WidestRange(repo: Repo, baseTree: Tree, commits: seq<Sha>) returns (fitting: Option<PendingChange>)
      requires forall c :: c in commits ==> c in repo.dag
      ensures var n := FittingCount(repo, baseTree, commits, setup.rubric);
        fitting == if n == 0 then None else Some(ChangeUpToCommit(repo, baseTree, commits[n - 1]))
    {
      hide PlanReview;
      fitting := None;
      for i := 0 to |commits|
        invariant FittingCount(repo, baseTree, commits, setup.rubric)
               == i + FittingCount(repo, baseTree, commits[i..], setup.rubric)
        invariant fitting == if i == 0 then None else Some(ChangeUpToCommit(repo, baseTree, commits[i - 1]))
      {
        assert commits[i] in commits;
        assert commits[i..][1..] == commits[i + 1..];
        var candidate := ChangeUpToCommit(repo, baseTree, commits[i]);
        if TooLarge(repo, candidate, setup.rubric) {
          break;
        }
        fitting := Some(candidate);
      }
    }

    method ReviewNextRange(repo: Repo, state: GateState, change: PendingChange)
      returns (next: GateState, skipped: Option<Sha>, block: Option<Reason>)
      requires repo.Valid() && InBacklog(repo, state, change)
      modifies this`log
      ensures var step := ReviewNextRangeSpec(repo, setup, state, change, old(log));
        next == step.state && skipped == step.skipped && block == step.block && log == step.log
    {
      ghost var step := ReviewNextRangeSpec(repo, setup, state, change, log);
      NextRangeIs(repo, setup, state, change, log);
      next, skipped, block :=
        ReviewCommits(repo, state, change.baseTree, FirstParentCommits(repo.dag, state.baseHead.value, change.head), step);
    }

    /** `review_next_range` over the commits git lists. */
    method ReviewCommits(repo: Repo, state: GateState, baseTree: Tree, commits: seq<Sha>, ghost step: RangeStep)
      returns (next: GateState, skipped: Option<Sha>, block: Option<Reason>)
      requires state.baseHead.Some? && forall c :: c in commits ==> c in repo.dag
      requires IsStepOver(repo, setup, state, baseTree, commits, log, step)
      modifies this`log
      ensures next == step.state && skipped == step.skipped && block == step.block && log == step.log
    {
      hide PlanReview, ReviewRangeSpec, FittingCount, ChangeUpToCommit;
      var fitting := WidestRange(repo, baseTree, commits);
      if fitting.None? {
        assert commits[0] in commits;
        var alone := ChangeUpToCommit(repo, baseTree, commits[0]);
        return GateState(Some(alone.tree), Some(alone.head), 0), Some(commits[0]), None;
      }
      skipped := None;
      next, block := ReviewRange(repo, state, baseTree, fitting.value);
    }

    /** The rest of `review_next_range`, once a range fits. */
    method ReviewRange(repo: Repo, state: GateState, ghost baseTree: Tree, fitting: PendingChange)
      returns (next: GateState, block: Option<Reason>)
      requires state.baseHead.Some?
      modifies this`log
      ensures var step := ReviewRangeSpec(repo, setup, state, baseTree, fitting, old(log));
        next == step.state && step.skipped.None? && block == step.block && log == step.log
    {
      hide PlanReview, RunBatchesSpec;
      var advanced := GateState(Some(fitting.tree), Some(fitting.head), 0);
      if !setup.scope.ContainsAny(fitting.paths) {
        return advanced, None;
      }
      var review := RunBatches(PlanReview(repo, fitting, setup.rubric), ModelFor(state));
      if review.unreviewed.Some? {
        return state, Some(Unfinished(review));
      }
      if review.Passed() {
        return advanced, None;
      }
      return advanced, Some(RangeBlock(review.model, state.baseHead.value, fitting.head, review.findings));
    }

    method WalkBacklog(repo: Repo, start: GateState, pending: PendingChange)
      returns (state: GateState, change: PendingChange, skipped: seq<Sha>, block: Option<Reason>)
      requires repo.Valid() && saved == start
      modifies this
      ensures var walk := WalkSpec(repo, setup, start, pending, old(log));
        && state == walk.state && change == walk.change && skipped == walk.skipped && block == walk.block
        && log == walk.log && saved == walk.state
    {
      hide PlanReview, ReviewNextRangeSpec, CommitsLeft, ChangeSince, InBacklog, TooLarge, FirstParentCommits, IsAncestor;
      state, change, skipped := start, pending, [];
      ghost var whole := WalkSpec(repo, setup, start, pending, log);
      ghost var trail: seq<Segment> := [];
      while InBacklog(repo, state, change) && TooLarge(repo, change, setup.rubric)
        invariant saved == state
        invariant whole == After(skipped, trail, WalkSpec(repo, setup, state, change, log))
        decreases CommitsLeft(repo, state, change)
      {
        ghost var step := ReviewNextRangeSpec(repo, setup, state, change, log);
        RangeMakesProgress(repo, setup, state, change, log);
        ghost var skips := if step.skipped.Some? then [step.skipped.value] else [];
        ghost var moved := if step.moved.Some? then [step.moved.value] else [];
        AfterTwice(skipped, trail, skips, moved, WalkSpec(repo, setup, step.state, ChangeSince(repo, step.state, change), step.log));
        trail := trail + moved;
        var next, skip, stopped := ReviewNextRange(repo, state, change);
        saved := next;
        if skip.Some? {
          skipped := skipped + [skip.value];
        }
        if stopped.Some? {
          return next, change, skipped, stopped;
        }
        state := next;
        change := ChangeSince(repo, next, change);
      }
      block := None;
    }

    method ReviewTip(repo: Repo, state: GateState, change: PendingChange) returns (outcome: Outcome)
      requires saved == state
      modifies this
      ensures var stop := ReviewTipSpec(repo, setup, Walk(state, change, [], None, old(log), []));
        saved == stop.saved && log == stop.log && outcome == stop.outcome
    {
      var review := RunBatches(PlanReview(repo, change, setup.rubric), ModelFor(state));
      if review.unreviewed.Some? {
        return Block([], Unfinished(review));
      }
      var updated := NextState(state, change, review);
      saved := updated;
      if review.Passed() {
        return Silent;
      }
      if updated.blockedRounds >= MAX_BLOCKED_ROUNDS {
        saved := updated.(blockedRounds := 0);
        return GiveUp([], updated.blockedRounds, review.findings);
      }
      return Block([], TipBlock(review.model, updated.blockedRounds, review.findings));
    }

    method HookDecision(repo: Repo, here: bool) returns (outcome: Outcome)
      requires repo.Valid()
      modifies this
      ensures var stop := HookSpec(repo, setup, here, old(saved), old(log));
        saved == stop.saved && outcome == stop.outcome && log == stop.log
    {
      hide PlanReview;
      if !here {
        return Silent;
      }
      var loaded := saved;
      var pending := PendingChangeOf(repo, loaded);
      if !setup.scope.ContainsAny(pending.paths) {
        return Silent;
      }
      var state, change, skipped, block := WalkBacklog(repo, loaded, pending);
      if block.Some? {
        return WithSkipNotices(Block([], block.value), skipped);
      }
      if !setup.scope.ContainsAny(change.paths) {
        return WithSkipNotices(Silent, skipped);
      }
      var tip := ReviewTip(repo, state, change);
      outcome := WithSkipNotices(tip, skipped);
    }
  }
}
