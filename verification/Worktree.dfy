/**
 * core/stablemate_core/worktree.py and farrier/farrier/worktree_sweep.py: retiring linked worktrees without losing a
 * commit, and a sweep whose preview is what it does.
 *
 * A repository is its commit graph and its refs. Any git command can fail; `Git` says which ones do.
 */
module Worktree {
  import opened Collections
  import opened Wrappers
  import opened CommitDag

  type Path = string

  datatype HeadRef = OnBranch(name: string) | Detached(sha: Sha)

  /** A linked worktree as git records it; `gone` says its folder is missing. */
  datatype Checkout = Checkout(head: HeadRef, dirty: bool, locked: bool, gone: bool)

  datatype Repo = Repo(
    dag: Dag, head: HeadRef, branches: map<string, Sha>, remotes: map<string, Sha>, worktrees: map<Path, Checkout>)
  {
    predicate Valid() {
      WellFormed(dag)
    }

    function Commit(head: HeadRef): Option<Sha> {
      match head
      case OnBranch(name) => if name in branches then Some(branches[name]) else None
      case Detached(sha) => Some(sha)
    }
  }

  /** The name work is judged merged against. */
  datatype Base = MainHead | Branch(name: string) | Remote(name: string) | At(sha: Sha)

  function BaseCommit(repo: Repo, base: Base): Option<Sha> {
    match base
    case MainHead => repo.Commit(repo.head)
    case Branch(name) => if name in repo.branches then Some(repo.branches[name]) else None
    case Remote(name) => if name in repo.remotes then Some(repo.remotes[name]) else None
    case At(sha) => Some(sha)
  }

  /** `base_name` of HEAD: the branch it points at, or its commit when detached; either git question may go unanswered. */
  function BaseName(repo: Repo, symbolicRef: bool, revParse: bool): Base {
    if repo.head.OnBranch? && repo.head.name != "" && symbolicRef then Branch(repo.head.name)
    else if repo.Commit(repo.head).Some? && revParse then At(repo.Commit(repo.head).value)
    else MainHead
  }

  /** Which git commands of one retirement succeed. */
  datatype Git = Git(
    status: bool, head: bool, tip: bool, merged: Sha -> bool, pushed: Sha -> bool,
    tipAgain: bool, mergedAgain: bool, remove: bool, delete: bool)

  const RELIABLE := Git(true, true, true, (sha: Sha) => true, (sha: Sha) => true, true, true, true, true)

  // ---- assess ----

  predicate Exists(repo: Repo, path: Path) {
    path in repo.worktrees && !repo.worktrees[path].gone
  }

  predicate Merged(repo: Repo, sha: Sha, base: Base)
    requires repo.Valid()
  {
    BaseCommit(repo, base).Some? && IsAncestor(repo.dag, sha, BaseCommit(repo, base).value)
  }

  predicate Pushed(repo: Repo, sha: Sha)
    requires repo.Valid()
  {
    exists name :: name in repo.remotes && IsAncestor(repo.dag, sha, repo.remotes[name])
  }

  datatype Assessment = Keep | AlreadyGone | Landed(pushed: bool)

  function BranchTip(repo: Repo, branch: string, succeeds: bool): Option<Sha> {
    if branch != "" && branch in repo.branches && succeeds then Some(repo.branches[branch]) else None
  }

  /** Each tip in turn must be merged or pushed. */
  function AssessTips(repo: Repo, tips: seq<Sha>, base: Base, git: Git, pushed: bool): Assessment
    requires repo.Valid()
  {
    if tips == [] then Landed(pushed)
    else if Merged(repo, tips[0], base) && git.merged(tips[0]) then AssessTips(repo, tips[1..], base, git, pushed)
    else if Pushed(repo, tips[0]) && git.pushed(tips[0]) then AssessTips(repo, tips[1..], base, git, true)
    else Keep
  }

  function Tips(repo: Repo, path: Path, branch: string, git: Git): seq<Sha> {
    var head := if Exists(repo, path) then repo.Commit(repo.worktrees[path].head) else None;
    var tip := BranchTip(repo, branch, git.tip);
    (if head.Some? then [head.value] else []) + (if tip.Some? then [tip.value] else [])
  }

  function Assess(repo: Repo, path: Path, branch: string, base: Base, git: Git): Assessment
    requires repo.Valid()
  {
    if Exists(repo, path) && (!git.status || repo.worktrees[path].dirty || !git.head || repo.Commit(repo.worktrees[path].head).None?)
    then Keep
    else
      var tips := Tips(repo, path, branch, git);
      var found := AssessTips(repo, tips, base, git, false);
      if found.Landed? && tips == [] then AlreadyGone else found
  }

  // ---- retire ----

  /** Why: what was judged, or that git would not remove the worktree. */
  datatype Reason = FolderGone | Held | Judged(verdict: Assessment) | RemoveFailed

  datatype Retirement = Retirement(repo: Repo, removed: bool, branchDeleted: bool, reason: Reason)

  /** A branch is deleted unless some checkout is on it. */
  predicate CheckedOut(repo: Repo, branch: string) {
    repo.head == OnBranch(branch) || exists path :: path in repo.worktrees && repo.worktrees[path].head == OnBranch(branch)
  }

  /** `git worktree remove`, when there is a folder to remove. */
  function WithoutWorktree(repo: Repo, path: Path): Repo {
    if Exists(repo, path) then repo.(worktrees := repo.worktrees - {path}) else repo
  }

  function Retire(repo: Repo, path: Path, branch: string, base: Base, git: Git): Retirement
    requires repo.Valid()
  {
    var verdict := Assess(repo, path, branch, base, git);
    if verdict.Keep? then Retirement(repo, false, false, Judged(verdict))
    else
      var tip := BranchTip(repo, branch, git.tipAgain);
      if Exists(repo, path) && !git.remove then Retirement(repo, false, false, RemoveFailed)
      else
        var removed := WithoutWorktree(repo, path);
        if tip.Some? && Merged(repo, tip.value, base) && git.mergedAgain && git.delete && !CheckedOut(removed, branch) then
          Retirement(removed.(branches := removed.branches - {branch}), true, true, Judged(verdict))
        else Retirement(removed, true, false, Judged(verdict))
  }

  // ---- when a worktree goes ----

  /** Git says the tip is merged into the base or contained in a remote branch. */
  predicate SeenLanded(repo: Repo, tip: Sha, base: Base, git: Git)
    requires repo.Valid()
  {
    (Merged(repo, tip, base) && git.merged(tip)) || (Pushed(repo, tip) && git.pushed(tip))
  }

  lemma {:induction false} TipsKeepExactlyWhen(repo: Repo, tips: seq<Sha>, base: Base, git: Git, pushed: bool)
    requires repo.Valid()
    ensures AssessTips(repo, tips, base, git, pushed).Keep? <==> exists i :: 0 <= i < |tips| && !SeenLanded(repo, tips[i], base, git)
    ensures AssessTips(repo, tips, base, git, pushed) == Landed(false) ==> !pushed && forall tip :: tip in tips ==> Merged(repo, tip, base)
  {
    hide Merged, Pushed;
    if tips != [] {
      assert forall i :: 0 < i < |tips| ==> tips[i] == tips[1..][i - 1];
      if SeenLanded(repo, tips[0], base, git) {
        TipsKeepExactlyWhen(repo, tips[1..], base, git, if Merged(repo, tips[0], base) && git.merged(tips[0]) then pushed else true);
        if i :| 0 <= i < |tips| && !SeenLanded(repo, tips[i], base, git) {
          assert !SeenLanded(repo, tips[1..][i - 1], base, git);
        }
      }
    }
  }

  /** The folder is there and git cannot vouch for it: dirty, or its status or its HEAD cannot be read. */
  predicate Unreadable(repo: Repo, path: Path, git: Git) {
    Exists(repo, path)
    && (!git.status || repo.worktrees[path].dirty || !git.head || repo.Commit(repo.worktrees[path].head).None?)
  }

  /**
   * A worktree is kept exactly when git cannot vouch for its folder, its HEAD or its branch has not been seen to land, or
   * git will not remove it. Its branch goes with it exactly when the branch is merged, not just pushed, and no checkout
   * that stays is on it.
   */
  lemma RetireActsExactlyWhen(repo: Repo, path: Path, branch: string, base: Base, git: Git)
    requires repo.Valid()
    ensures var done, tips := Retire(repo, path, branch, base, git), Tips(repo, path, branch, git);
      && (!done.removed <==>
            || Unreadable(repo, path, git)
            || (exists i :: 0 <= i < |tips| && !SeenLanded(repo, tips[i], base, git))
            || (Exists(repo, path) && !git.remove))
      && (done.removed ==> !Exists(done.repo, path))
      && (done.branchDeleted <==>
            && done.removed && branch != "" && branch in repo.branches && git.tipAgain
            && Merged(repo, repo.branches[branch], base) && git.mergedAgain && git.delete
            && !CheckedOut(WithoutWorktree(repo, path), branch))
      && (done.branchDeleted ==> branch !in done.repo.branches)
  {
    TipsKeepExactlyWhen(repo, Tips(repo, path, branch, git), base, git, false);
    hide Merged, Pushed, SeenLanded, AssessTips, CheckedOut, Tips;
  }

  // ---- commits that stay reachable ----

  /** The commits git keeps whatever a garbage collection does: HEADs, branches, remote refs. */
  ghost predicate Root(repo: Repo, sha: Sha) {
    || repo.Commit(repo.head) == Some(sha)
    || (exists name :: name in repo.branches && repo.branches[name] == sha)
    || (exists name :: name in repo.remotes && repo.remotes[name] == sha)
    || (exists path :: path in repo.worktrees && repo.Commit(repo.worktrees[path].head) == Some(sha))
  }

  ghost predicate Reachable(repo: Repo, sha: Sha)
    requires repo.Valid()
  {
    exists root :: Root(repo, root) && IsAncestor(repo.dag, sha, root)
  }

  ghost predicate SameReachable(a: Repo, b: Repo)
    requires a.Valid() && b.Valid()
  {
    forall sha :: Reachable(a, sha) <==> Reachable(b, sha)
  }

  /** The base is not the branch being retired, unless the main checkout is on it; a bare commit is the main HEAD's. */
  ghost predicate BaseStays(repo: Repo, base: Base, branch: string) {
    match base
    case MainHead => true
    case Branch(name) => name != branch || repo.head == OnBranch(name)
    case Remote(_) => true
    case At(sha) => repo.Commit(repo.head) == Some(sha)
  }

  /** The repository as if git had only these linked worktrees. */
  function Only(repo: Repo, live: set<Path>): Repo {
    repo.(worktrees := map path | path in repo.worktrees && path in live :: repo.worktrees[path])
  }

  lemma ReachableThroughRoot(repo: Repo, sha: Sha, mid: Sha, root: Sha)
    requires repo.Valid() && IsAncestor(repo.dag, sha, mid) && IsAncestor(repo.dag, mid, root) && Root(repo, root)
    ensures Reachable(repo, sha)
  {
    AncestryIsTransitive(repo.dag, sha, mid, root);
  }

  /** If every root that goes is an ancestor of one that stays, no commit is lost. */
  lemma LosingCoveredRoots(before: Repo, after: Repo)
    requires before.Valid() && after.dag == before.dag
    requires forall sha :: Root(after, sha) ==> Root(before, sha)
    requires forall sha :: Root(before, sha) && !Root(after, sha) && sha in before.dag ==> Reachable(after, sha)
    ensures SameReachable(before, after)
  {
    hide Root;
    forall sha | Reachable(before, sha) ensures Reachable(after, sha) {
      var root :| Root(before, root) && IsAncestor(before.dag, sha, root);
      if !Root(after, root) {
        var kept :| Root(after, kept) && IsAncestor(after.dag, root, kept);
        ReachableThroughRoot(after, sha, root, kept);
      }
    }
    forall sha | Reachable(after, sha) ensures Reachable(before, sha) {
      var root :| Root(after, root) && IsAncestor(after.dag, sha, root);
    }
  }

  lemma {:induction false} LandedTipsAreCovered(repo: Repo, tips: seq<Sha>, base: Base, git: Git, pushed: bool, tip: Sha)
    requires repo.Valid() && !AssessTips(repo, tips, base, git, pushed).Keep? && tip in tips
    ensures Merged(repo, tip, base) || Pushed(repo, tip)
  {
    if tip != tips[0] {
      LandedTipsAreCovered(
        repo, tips[1..], base, git,
        if Merged(repo, tips[0], base) && git.merged(tips[0]) then pushed else true, tip);
    }
  }

  /** What a retirement leaves as it was: everything but one worktree and one branch no checkout is on. */
  lemma RetireTouchesOneWorktree(repo: Repo, path: Path, branch: string, base: Base, git: Git)
    requires repo.Valid()
    ensures var after := Retire(repo, path, branch, base, git).repo;
      && after.dag == repo.dag && after.head == repo.head && after.remotes == repo.remotes
      && after.Commit(after.head) == repo.Commit(repo.head)
      && after.branches.Keys <= repo.branches.Keys
      && (forall name :: name in after.branches ==> after.branches[name] == repo.branches[name])
      && (forall name :: name in repo.branches && name != branch ==> name in after.branches)
      && (forall other :: other in after.worktrees ==> other in repo.worktrees && after.worktrees[other] == repo.worktrees[other])
      && (forall other :: other in after.worktrees ==>
            after.Commit(after.worktrees[other].head) == repo.Commit(repo.worktrees[other].head))
      && (forall other :: other in repo.worktrees && other != path ==> other in after.worktrees)
      && (!Exists(repo, path) ==> after.worktrees == repo.worktrees)
  {
    hide Assess, Merged;
  }

  /** A tip merged into a base that stays, or pushed, stays reachable. */
  lemma CoveredTipStays(repo: Repo, live: set<Path>, path: Path, branch: string, base: Base, git: Git, tip: Sha)
    requires repo.Valid() && BaseStays(repo, base, branch) && (Merged(repo, tip, base) || Pushed(repo, tip))
    ensures Reachable(Only(Retire(repo, path, branch, base, git).repo, live), tip)
  {
    var after := Only(Retire(repo, path, branch, base, git).repo, live);
    RetireTouchesOneWorktree(repo, path, branch, base, git);
    hide Assess, Retire;
    if Pushed(repo, tip) {
      var name :| name in repo.remotes && IsAncestor(repo.dag, tip, repo.remotes[name]);
      assert Root(after, after.remotes[name]);
    } else {
      var commit := BaseCommit(repo, base).value;
      assert Root(after, commit);
    }
  }

  lemma RootsOnlyGo(repo: Repo, live: set<Path>, path: Path, branch: string, base: Base, git: Git, sha: Sha)
    requires repo.Valid() && Root(Only(Retire(repo, path, branch, base, git).repo, live), sha)
    ensures Root(Only(repo, live), sha)
  {
    var left := Retire(repo, path, branch, base, git).repo;
    RetireTouchesOneWorktree(repo, path, branch, base, git);
    hide Retire;
    FewerRoots(repo, left, live, sha);
  }

  lemma FewerRoots(repo: Repo, left: Repo, live: set<Path>, sha: Sha)
    requires left.remotes == repo.remotes && left.head == repo.head && left.Commit(left.head) == repo.Commit(repo.head)
    requires forall name :: name in left.branches ==> name in repo.branches && left.branches[name] == repo.branches[name]
    requires forall path :: path in left.worktrees ==> path in repo.worktrees && left.worktrees[path] == repo.worktrees[path]
    requires Root(Only(left, live), sha)
    ensures Root(Only(repo, live), sha)
  {
    var before, after := Only(repo, live), Only(left, live);
    if name :| name in after.branches && after.branches[name] == sha {
      assert before.branches[name] == sha;
    } else if path :| path in after.worktrees && after.Commit(after.worktrees[path].head) == Some(sha) {
      assert path in before.worktrees;
    }
  }

  /** The only roots a retirement takes away are the worktree's HEAD and the branch it deletes, both of which landed. */
  lemma LostRootLanded(repo: Repo, live: set<Path>, path: Path, branch: string, base: Base, git: Git, sha: Sha)
    requires repo.Valid() && !Assess(repo, path, branch, base, git).Keep?
    requires Root(Only(repo, live), sha) && !Root(Only(Retire(repo, path, branch, base, git).repo, live), sha)
    ensures Merged(repo, sha, base) || Pushed(repo, sha)
  {
    if Exists(repo, path) && repo.Commit(repo.worktrees[path].head) == Some(sha) {
      var tips := Tips(repo, path, branch, git);
      assert tips[0] == sha;
      LandedTipsAreCovered(repo, tips, base, git, false, sha);
    } else {
      LostRootIsTheBranch(repo, live, path, branch, base, git, sha);
    }
  }

  lemma OtherCheckoutStaysRoot(
      repo: Repo, live: set<Path>, path: Path, branch: string, base: Base, git: Git, other: Path)
    requires repo.Valid() && other in Only(repo, live).worktrees && repo.Commit(repo.worktrees[other].head).Some?
    requires other != path || !Exists(repo, path)
    ensures Root(Only(Retire(repo, path, branch, base, git).repo, live), repo.Commit(repo.worktrees[other].head).value)
  {
    RetireTouchesOneWorktree(repo, path, branch, base, git);
    hide Assess, Retire;
    assert other in Only(Retire(repo, path, branch, base, git).repo, live).worktrees;
  }

  lemma LostRootIsTheBranch(repo: Repo, live: set<Path>, path: Path, branch: string, base: Base, git: Git, sha: Sha)
    requires repo.Valid() && !Assess(repo, path, branch, base, git).Keep?
    requires Root(Only(repo, live), sha) && !Root(Only(Retire(repo, path, branch, base, git).repo, live), sha)
    requires !(Exists(repo, path) && repo.Commit(repo.worktrees[path].head) == Some(sha))
    ensures Merged(repo, sha, base)
  {
    hide Assess, Merged, CheckedOut;
    var after := Only(Retire(repo, path, branch, base, git).repo, live);
    RetireTouchesOneWorktree(repo, path, branch, base, git);
    if other :| other in Only(repo, live).worktrees && repo.Commit(repo.worktrees[other].head) == Some(sha) {
      OtherCheckoutStaysRoot(repo, live, path, branch, base, git, other);
    } else if name :| name in repo.branches && repo.branches[name] == sha {
      assert name == branch;
    }
  }

  /** A retirement, whichever git commands fail, loses no commit, and would lose none with fewer worktrees about. */
  lemma RetireKeepsReach(repo: Repo, live: set<Path>, path: Path, branch: string, base: Base, git: Git)
    requires repo.Valid() && BaseStays(repo, base, branch)
    ensures SameReachable(Only(repo, live), Only(Retire(repo, path, branch, base, git).repo, live))
  {
    var before, after := Only(repo, live), Only(Retire(repo, path, branch, base, git).repo, live);
    if !Assess(repo, path, branch, base, git).Keep? {
      RetireTouchesOneWorktree(repo, path, branch, base, git);
      hide Retire, Assess, Root;
      forall sha | Root(after, sha) ensures Root(before, sha) {
        RootsOnlyGo(repo, live, path, branch, base, git, sha);
      }
      forall sha | Root(before, sha) && !Root(after, sha) ensures Reachable(after, sha) {
        LostRootLanded(repo, live, path, branch, base, git, sha);
        CoveredTipStays(repo, live, path, branch, base, git, sha);
      }
      LosingCoveredRoots(before, after);
    } else {
      assert after == before;
    }
  }

  lemma OnlyAll(repo: Repo, live: set<Path>)
    requires repo.worktrees.Keys <= live
    ensures Only(repo, live) == repo
  {
    assert Only(repo, live).worktrees == repo.worktrees;
  }

  /** Retiring a worktree, whichever git commands fail, loses no commit: exactly the same commits stay reachable. */
  lemma RetireLosesNoCommit(repo: Repo, path: Path, branch: string, base: Base, git: Git)
    requires repo.Valid() && BaseStays(repo, base, branch)
    ensures SameReachable(repo, Retire(repo, path, branch, base, git).repo)
  {
    RetireTouchesOneWorktree(repo, path, branch, base, git);
    RetireKeepsReach(repo, repo.worktrees.Keys, path, branch, base, git);
    hide Retire, SameReachable;
    OnlyAll(repo, repo.worktrees.Keys);
    OnlyAll(Retire(repo, path, branch, base, git).repo, repo.worktrees.Keys);
  }

  // ---- exactly when a retirement is safe ----

  /** The worktree stays: git cannot vouch for it, a tip of it was not seen to land, or git will not remove it. */
  predicate Stays(repo: Repo, path: Path, branch: string, base: Base, git: Git)
    requires repo.Valid()
  {
    var tips := Tips(repo, path, branch, git);
    || Unreadable(repo, path, git)
    || (exists i :: 0 <= i < |tips| && !SeenLanded(repo, tips[i], base, git))
    || (Exists(repo, path) && !git.remove)
  }

  /** The branch goes with its worktree. */
  predicate BranchGoes(repo: Repo, path: Path, branch: string, base: Base, git: Git)
    requires repo.Valid()
  {
    && branch != "" && branch in repo.branches && git.tipAgain
    && Merged(repo, repo.branches[branch], base) && git.mergedAgain && git.delete
    && !CheckedOut(WithoutWorktree(repo, path), branch)
  }

  /** What a retirement would leave. */
  function Left(repo: Repo, path: Path, branch: string, branchGoes: bool): Repo {
    var rest := WithoutWorktree(repo, path);
    if branchGoes then rest.(branches := rest.branches - {branch}) else rest
  }

  /** The worktree's HEAD, and the branch's tip if the branch goes, are each kept by a ref or checkout that is left. */
  ghost predicate TipsHeld(repo: Repo, path: Path, branch: string, branchGoes: bool)
    requires repo.Valid()
  {
    var left := Left(repo, path, branch, branchGoes);
    && (Exists(repo, path) ==> HeldOrUnknown(left, repo.Commit(repo.worktrees[path].head)))
    && (branchGoes && branch in repo.branches ==> HeldOrUnknown(left, Some(repo.branches[branch])))
  }

  ghost predicate HeldOrUnknown(left: Repo, tip: Option<Sha>)
    requires left.Valid()
  {
    tip.Some? && tip.value in left.dag ==> Reachable(left, tip.value)
  }

  lemma RetireLeaves(repo: Repo, path: Path, branch: string, base: Base, git: Git)
    requires repo.Valid()
    ensures Retire(repo, path, branch, base, git).repo
         == if Stays(repo, path, branch, base, git) then repo
            else Left(repo, path, branch, BranchGoes(repo, path, branch, base, git))
  {
    RetireActsExactlyWhen(repo, path, branch, base, git);
    hide Merged, SeenLanded, Assess, CheckedOut;
  }

  lemma LeftLosesOnlyTips(repo: Repo, path: Path, branch: string, branchGoes: bool, sha: Sha)
    requires branchGoes ==> !CheckedOut(WithoutWorktree(repo, path), branch)
    ensures Root(Left(repo, path, branch, branchGoes), sha) ==> Root(repo, sha)
    ensures Root(repo, sha) && !Root(Left(repo, path, branch, branchGoes), sha) ==>
      || (Exists(repo, path) && repo.Commit(repo.worktrees[path].head) == Some(sha))
      || (branchGoes && branch in repo.branches && repo.branches[branch] == sha)
  {
    var left := Left(repo, path, branch, branchGoes);
    assert left.Commit(left.head) == repo.Commit(repo.head);
    forall other | other in left.worktrees
      ensures left.Commit(left.worktrees[other].head) == repo.Commit(repo.worktrees[other].head)
    {
      assert branchGoes ==> left.worktrees[other].head != OnBranch(branch);
    }
    if Root(left, sha) {
      LeftRootWasRoot(repo, left, sha);
    } else if Root(repo, sha) {
      LostRootOfLeft(repo, path, branch, branchGoes, sha);
    }
  }

  lemma LeftRootWasRoot(repo: Repo, left: Repo, sha: Sha)
    requires left.remotes == repo.remotes && left.head == repo.head && left.Commit(left.head) == repo.Commit(repo.head)
    requires forall name :: name in left.branches ==> name in repo.branches && left.branches[name] == repo.branches[name]
    requires forall path :: path in left.worktrees ==> path in repo.worktrees
    requires forall path :: path in left.worktrees ==>
      left.Commit(left.worktrees[path].head) == repo.Commit(repo.worktrees[path].head)
    requires Root(left, sha)
    ensures Root(repo, sha)
  {
  }

  lemma LostRootOfLeft(repo: Repo, path: Path, branch: string, branchGoes: bool, sha: Sha)
    requires var left := Left(repo, path, branch, branchGoes);
      && left.Commit(left.head) == repo.Commit(repo.head)
      && (forall other :: other in left.worktrees ==>
            left.Commit(left.worktrees[other].head) == repo.Commit(repo.worktrees[other].head))
      && Root(repo, sha) && !Root(left, sha)
    ensures || (Exists(repo, path) && repo.Commit(repo.worktrees[path].head) == Some(sha))
            || (branchGoes && branch in repo.branches && repo.branches[branch] == sha)
  {
    var left := Left(repo, path, branch, branchGoes);
    if name :| name in repo.branches && repo.branches[name] == sha {
      assert name !in left.branches;
    } else if other :| other in repo.worktrees && repo.Commit(repo.worktrees[other].head) == Some(sha) {
      assert other !in left.worktrees;
    }
  }

  /**
   * For every base, a retirement loses no commit if and only if the worktree stays, or each tip that goes with it is kept
   * by another ref or checkout.
   */
  lemma RetireLosesNothingExactlyWhen(repo: Repo, path: Path, branch: string, base: Base, git: Git)
    requires repo.Valid()
    ensures SameReachable(repo, Retire(repo, path, branch, base, git).repo)
       <==> Stays(repo, path, branch, base, git) || TipsHeld(repo, path, branch, BranchGoes(repo, path, branch, base, git))
  {
    RetireLeaves(repo, path, branch, base, git);
    var goes := BranchGoes(repo, path, branch, base, git);
    if !Stays(repo, path, branch, base, git) {
      LeftIsSafeExactlyWhen(repo, path, branch, goes);
    }
  }

  lemma LeftIsSafeExactlyWhen(repo: Repo, path: Path, branch: string, branchGoes: bool)
    requires repo.Valid() && (branchGoes ==> !CheckedOut(WithoutWorktree(repo, path), branch))
    ensures SameReachable(repo, Left(repo, path, branch, branchGoes)) <==> TipsHeld(repo, path, branch, branchGoes)
  {
    var left := Left(repo, path, branch, branchGoes);
    forall sha
      ensures Root(left, sha) ==> Root(repo, sha)
      ensures Root(repo, sha) && !Root(left, sha) ==>
        || (Exists(repo, path) && repo.Commit(repo.worktrees[path].head) == Some(sha))
        || (branchGoes && branch in repo.branches && repo.branches[branch] == sha)
    {
      LeftLosesOnlyTips(repo, path, branch, branchGoes, sha);
    }
    if TipsHeld(repo, path, branch, branchGoes) {
      hide Left, Root;
      LosingCoveredRoots(repo, left);
    } else if Exists(repo, path) && !HeldOrUnknown(left, repo.Commit(repo.worktrees[path].head)) {
      HeadWasReachable(repo, path);
    } else {
      TipWasReachable(repo, branch);
    }
  }

  lemma HeadWasReachable(repo: Repo, path: Path)
    requires repo.Valid() && path in repo.worktrees
    ensures HeldOrUnknown(repo, repo.Commit(repo.worktrees[path].head))
  {
    var head := repo.Commit(repo.worktrees[path].head);
    if head.Some? {
      assert Root(repo, head.value);
    }
  }

  // ---- a base that does not stay ----

  /** Some ref or checkout other than this worktree and this branch keeps the branch's tip. */
  ghost predicate HeldElsewhere(repo: Repo, path: Path, branch: string)
    requires repo.Valid() && branch in repo.branches
  {
    var rest := WithoutWorktree(repo, path);
    CheckedOut(rest, branch) || Reachable(rest.(branches := rest.branches - {branch}), repo.branches[branch])
  }

  /**
   * A branch retired against itself is merged by definition. That loses commits exactly when nothing else holds its tip.
   */
  lemma RetiringAgainstItselfIsSafeExactlyWhen(repo: Repo, path: Path, branch: string)
    requires repo.Valid() && branch != "" && branch in repo.branches
    requires !Assess(repo, path, branch, Branch(branch), RELIABLE).Keep?
    ensures SameReachable(repo, Retire(repo, path, branch, Branch(branch), RELIABLE).repo) <==> HeldElsewhere(repo, path, branch)
  {
    var base, tip := Branch(branch), repo.branches[branch];
    var after := Retire(repo, path, branch, base, RELIABLE).repo;
    var tips := Tips(repo, path, branch, RELIABLE);
    assert tip == tips[|tips| - 1];
    LandedTipsAreCovered(repo, tips, base, RELIABLE, false, tip);
    TipWasReachable(repo, branch);
    RetireTouchesOneWorktree(repo, path, branch, base, RELIABLE);
    if HeldElsewhere(repo, path, branch) {
      TipStaysReachable(repo, path, branch);
      CoveredByTheTip(repo, path, branch);
    } else {
      assert after == WithoutWorktree(repo, path).(branches := WithoutWorktree(repo, path).branches - {branch});
    }
  }

  lemma TipWasReachable(repo: Repo, branch: string)
    requires repo.Valid() && branch in repo.branches
    ensures repo.branches[branch] in repo.dag ==> Reachable(repo, repo.branches[branch])
  {
    assert Root(repo, repo.branches[branch]);
  }

  lemma TipStaysReachable(repo: Repo, path: Path, branch: string)
    requires repo.Valid() && branch != "" && branch in repo.branches && repo.branches[branch] in repo.dag
    requires !Assess(repo, path, branch, Branch(branch), RELIABLE).Keep? && HeldElsewhere(repo, path, branch)
    ensures Reachable(Retire(repo, path, branch, Branch(branch), RELIABLE).repo, repo.branches[branch])
  {
    hide Assess, Reachable;
    var rest := WithoutWorktree(repo, path);
    if CheckedOut(rest, branch) {
      TipWasReachable(Retire(repo, path, branch, Branch(branch), RELIABLE).repo, branch);
    }
  }

  lemma CoveredByTheTip(repo: Repo, path: Path, branch: string)
    requires repo.Valid() && branch in repo.branches && !Assess(repo, path, branch, Branch(branch), RELIABLE).Keep?
    requires Reachable(Retire(repo, path, branch, Branch(branch), RELIABLE).repo, repo.branches[branch])
    ensures SameReachable(repo, Retire(repo, path, branch, Branch(branch), RELIABLE).repo)
  {
    var base := Branch(branch);
    var after := Retire(repo, path, branch, base, RELIABLE).repo;
    var all := repo.worktrees.Keys;
    RetireTouchesOneWorktree(repo, path, branch, base, RELIABLE);
    OnlyAll(repo, all);
    OnlyAll(after, all);
    hide Retire, Assess, Root;
    forall sha | Root(after, sha) ensures Root(repo, sha) {
      RootsOnlyGo(repo, all, path, branch, base, RELIABLE, sha);
    }
    forall sha | Root(repo, sha) && !Root(after, sha) ensures Reachable(after, sha) {
      LostRootLanded(repo, all, path, branch, base, RELIABLE, sha);
      if Merged(repo, sha, base) {
        var root :| Root(after, root) && IsAncestor(repo.dag, repo.branches[branch], root);
        ReachableThroughRoot(after, sha, repo.branches[branch], root);
      } else {
        var name :| name in repo.remotes && IsAncestor(repo.dag, sha, repo.remotes[name]);
        RemoteIsRoot(after, name);
      }
    }
    LosingCoveredRoots(repo, after);
  }

  lemma RemoteIsRoot(repo: Repo, name: string)
    requires name in repo.remotes
    ensures Root(repo, repo.remotes[name])
  {
  }

  ghost predicate LosesACommit(repo: Repo, path: Path, branch: string, base: Base) {
    repo.Valid() && !SameReachable(repo, Retire(repo, path, branch, base, RELIABLE).repo)
  }

  /** A clone whose branch `work`, in its own worktree, is one commit ahead of `main`. */
  const AHEAD := Repo(
    map["a" := Commit("t0", [], 0), "b" := Commit("t1", ["a"], 1)], OnBranch("main"),
    map["main" := "a", "work" := "b"], map[], map["/w" := Checkout(OnBranch("work"), false, false, false)])

  /** Judged against anything that resolves to its own tip, `work` has landed. */
  lemma AheadGoes(base: Base)
    requires BaseCommit(AHEAD, base) == Some("b")
    ensures AHEAD.Valid() && !Stays(AHEAD, "/w", "work", base, RELIABLE) && BranchGoes(AHEAD, "/w", "work", base, RELIABLE)
  {
    assert Tips(AHEAD, "/w", "work", RELIABLE) == ["b", "b"];
    assert Merged(AHEAD, "b", base);
    assert WithoutWorktree(AHEAD, "/w").worktrees == map[];
  }

  lemma AheadIsNotHeld()
    ensures AHEAD.Valid() && !TipsHeld(AHEAD, "/w", "work", true)
  {
    var left := Left(AHEAD, "/w", "work", true);
    assert left.worktrees == map[];
    forall root | Root(left, root) ensures !IsAncestor(AHEAD.dag, "b", root) {
      assert root == "a";
    }
  }

  /**
   * Retiring `work` there loses its commit when it is judged against `work` itself, and when it is judged against the bare
   * commit a detached main checkout was once at.
   */
  lemma RetiringAgainstItsOwnTipCanLoseCommits()
    ensures LosesACommit(AHEAD, "/w", "work", Branch("work")) && LosesACommit(AHEAD, "/w", "work", At("b"))
  {
    AheadIsNotHeld();
    AheadGoes(Branch("work"));
    AheadGoes(At("b"));
    hide Retire, SameReachable, TipsHeld, Stays, BranchGoes;
    RetireLosesNothingExactlyWhen(AHEAD, "/w", "work", Branch("work"), RELIABLE);
    RetireLosesNothingExactlyWhen(AHEAD, "/w", "work", At("b"), RELIABLE);
  }

  // ---- the sweep ----

  /** One line of `git worktree list`, which calls an unlocked worktree whose folder is missing prunable. */
  datatype Entry = Entry(path: Path, branch: string, locked: bool, prunable: bool)

  function EntryOf(path: Path, checkout: Checkout): Entry {
    Entry(path, if checkout.head.OnBranch? then checkout.head.name else "", checkout.locked, checkout.gone && !checkout.locked)
  }

  /** What git listed before the sweep began. */
  predicate Lists(repo: Repo, entries: seq<Entry>) {
    && (forall i :: 0 <= i < |entries| ==>
          entries[i].path in repo.worktrees && entries[i] == EntryOf(entries[i].path, repo.worktrees[entries[i].path]))
    && forall i, j :: 0 <= i < j < |entries| ==> entries[i].path != entries[j].path
  }

  datatype Action = Prunes | Keeps | Removes

  datatype Row = Row(action: Action, path: Path, branch: string, reason: Reason)

  /** `_hold`: a lock, a process in the folder, or a recent change; the last two are `busy`. */
  predicate Hold(entry: Entry, busy: Path -> bool) {
    entry.locked || busy(entry.path)
  }

  /** The row of one entry and the repository after it. */
  datatype Step = Step(row: Row, repo: Repo)

  function SweepEntry(repo: Repo, entry: Entry, busy: Path -> bool, base: Base, git: Git, apply: bool): Step
    requires repo.Valid()
  {
    if entry.prunable then Step(Row(Prunes, entry.path, entry.branch, FolderGone), repo)
    else if Hold(entry, busy) then Step(Row(Keeps, entry.path, entry.branch, Held), repo)
    else if apply then
      var done := Retire(repo, entry.path, entry.branch, base, git);
      Step(Row(if done.removed then Removes else Keeps, entry.path, entry.branch, done.reason), done.repo)
    else
      var verdict := Assess(repo, entry.path, entry.branch, base, git);
      Step(Row(if verdict.Keep? then Keeps else Removes, entry.path, entry.branch, Judged(verdict)), repo)
  }

  /** Entries in turn; `git` says which commands fail at each path. */
  function SweepEntries(repo: Repo, entries: seq<Entry>, busy: Path -> bool, base: Base, git: Path -> Git, apply: bool): (r: (seq<Row>, Repo))
    requires repo.Valid()
    ensures r.1.dag == repo.dag
    decreases |entries|
  {
    if entries == [] then ([], repo)
    else
      var step := SweepEntry(repo, entries[0], busy, base, git(entries[0].path), apply);
      RetireTouchesOneWorktree(repo, entries[0].path, entries[0].branch, base, git(entries[0].path));
      var rest := SweepEntries(step.repo, entries[1..], busy, base, git, apply);
      ([step.row] + rest.0, rest.1)
  }

  /** The worktrees `git worktree prune` leaves. */
  function Live(repo: Repo): set<Path> {
    set path | path in repo.worktrees && !(repo.worktrees[path].gone && !repo.worktrees[path].locked)
  }

  function Prune(repo: Repo): Repo {
    Only(repo, Live(repo))
  }

  predicate Stale(entries: seq<Entry>) {
    exists i :: 0 <= i < |entries| && entries[i].prunable
  }

  function Sweep(repo: Repo, entries: seq<Entry>, busy: Path -> bool, base: Base, git: Path -> Git, pruneWorks: bool, apply: bool): (r: (seq<Row>, Repo))
    requires repo.Valid()
    ensures r.1.dag == repo.dag
  {
    var swept := SweepEntries(repo, entries, busy, base, git, apply);
    (swept.0, if apply && Stale(entries) && pruneWorks then Prune(swept.1) else swept.1)
  }

  // ---- the preview is what --apply does ----

  /** The worktrees still to come look to git as they did before the sweep began. */
  ghost predicate Undisturbed(before: Repo, now: Repo, entries: seq<Entry>, base: Base) {
    && now.dag == before.dag && now.remotes == before.remotes
    && BaseCommit(now, base) == BaseCommit(before, base)
    && forall i :: 0 <= i < |entries| ==>
         var path := entries[i].path;
         && path in now.worktrees && path in before.worktrees && now.worktrees[path] == before.worktrees[path]
         && now.Commit(now.worktrees[path].head) == before.Commit(before.worktrees[path].head)
  }

  /** What `base_name` finds never goes: no retirement deletes the branch the main checkout is on. */
  ghost predicate BaseOf(repo: Repo, base: Base) {
    exists symbolicRef, revParse :: base == BaseName(repo, symbolicRef, revParse)
  }

  lemma {:induction false} SameTips(a: Repo, b: Repo, tips: seq<Sha>, base: Base, git: Git, pushed: bool)
    requires a.Valid() && b.dag == a.dag && b.remotes == a.remotes && BaseCommit(b, base) == BaseCommit(a, base)
    ensures AssessTips(a, tips, base, git, pushed) == AssessTips(b, tips, base, git, pushed)
  {
    if tips != [] {
      SameTips(a, b, tips[1..], base, git, pushed);
      SameTips(a, b, tips[1..], base, git, true);
    }
  }

  lemma SameVerdict(before: Repo, now: Repo, entries: seq<Entry>, base: Base)
    requires before.Valid() && Lists(before, entries) && entries != [] && Undisturbed(before, now, entries, base)
    ensures now.Valid()
    ensures Assess(now, entries[0].path, entries[0].branch, base, RELIABLE)
         == Assess(before, entries[0].path, entries[0].branch, base, RELIABLE)
  {
    var path, branch := entries[0].path, entries[0].branch;
    assert Tips(now, path, branch, RELIABLE) == Tips(before, path, branch, RELIABLE);
    SameTips(before, now, Tips(before, path, branch, RELIABLE), base, RELIABLE, false);
  }

  /** Retiring one entry disturbs none after it. */
  lemma RetireDisturbsNone(repo: Repo, entries: seq<Entry>, base: Base)
    requires repo.Valid() && BaseOf(repo, base) && entries != []
    requires forall i :: 0 < i < |entries| ==> entries[i].path in repo.worktrees && entries[i].path != entries[0].path
    ensures var after := Retire(repo, entries[0].path, entries[0].branch, base, RELIABLE).repo;
      Undisturbed(repo, after, entries[1..], base) && BaseOf(after, base)
  {
    var after := Retire(repo, entries[0].path, entries[0].branch, base, RELIABLE).repo;
    RetireTouchesOneWorktree(repo, entries[0].path, entries[0].branch, base, RELIABLE);
    hide Retire;
    var symbolicRef, revParse :| base == BaseName(repo, symbolicRef, revParse);
    assert base == BaseName(after, symbolicRef, revParse);
    forall i | 0 <= i < |entries[1..]|
      ensures entries[1..][i].path in repo.worktrees && entries[1..][i].path != entries[0].path
    {
      assert entries[1..][i] == entries[i + 1];
    }
  }

  lemma UndisturbedChains(before: Repo, mid: Repo, after: Repo, entries: seq<Entry>, base: Base)
    requires Undisturbed(before, mid, entries, base) && Undisturbed(mid, after, entries, base)
    ensures Undisturbed(before, after, entries, base)
  {
  }

  lemma ListsTail(repo: Repo, entries: seq<Entry>)
    requires Lists(repo, entries) && entries != []
    ensures Lists(repo, entries[1..])
    ensures forall i :: 0 < i < |entries| ==> entries[i].path in repo.worktrees && entries[i].path != entries[0].path
  {
  }

  lemma UndisturbedTail(before: Repo, now: Repo, entries: seq<Entry>, base: Base)
    requires Undisturbed(before, now, entries, base) && entries != []
    ensures Undisturbed(before, now, entries[1..], base)
    ensures forall i :: 0 <= i < |entries| ==> entries[i].path in now.worktrees
  {
    forall i | 0 <= i < |entries[1..]| ensures entries[1..][i] == entries[i + 1] {
    }
  }

  /** With git working, one entry's row is the same in the preview and when applied. */
  lemma SameRow(before: Repo, now: Repo, entries: seq<Entry>, busy: Path -> bool, base: Base)
    requires before.Valid() && now.Valid() && Lists(before, entries) && entries != []
    requires Undisturbed(before, now, entries, base)
    ensures SweepEntry(now, entries[0], busy, base, RELIABLE, true).row
         == SweepEntry(before, entries[0], busy, base, RELIABLE, false).row
  {
    SameVerdict(before, now, entries, base);
    hide Assess;
  }

  lemma {:induction false} SweepAgreesFrom(before: Repo, now: Repo, entries: seq<Entry>, busy: Path -> bool, base: Base)
    requires before.Valid() && now.Valid() && Lists(before, entries)
    requires BaseOf(now, base) && Undisturbed(before, now, entries, base)
    ensures SweepEntries(now, entries, busy, base, _ => RELIABLE, true).0
         == SweepEntries(before, entries, busy, base, _ => RELIABLE, false).0
    decreases |entries|
  {
    hide Undisturbed, BaseOf, Lists, Retire, Assess;
    if entries != [] {
      SameRow(before, now, entries, busy, base);
      ListsTail(before, entries);
      UndisturbedTail(before, now, entries, base);
      RetireTouchesOneWorktree(now, entries[0].path, entries[0].branch, base, RELIABLE);
      RetireDisturbsNone(now, entries, base);
      var after := SweepEntry(now, entries[0], busy, base, RELIABLE, true).repo;
      if after == now {
        SweepAgreesFrom(before, now, entries[1..], busy, base);
      } else {
        UndisturbedChains(before, now, after, entries[1..], base);
        SweepAgreesFrom(before, after, entries[1..], busy, base);
      }
    }
  }

  /** When git's commands succeed, the preview's rows are those of `--apply`, entry by entry. */
  lemma PreviewIsWhatApplyDoes(repo: Repo, entries: seq<Entry>, busy: Path -> bool, base: Base, pruneWorks: bool)
    requires repo.Valid() && Lists(repo, entries) && BaseOf(repo, base)
    ensures Sweep(repo, entries, busy, base, _ => RELIABLE, pruneWorks, true).0
         == Sweep(repo, entries, busy, base, _ => RELIABLE, pruneWorks, false).0
  {
    SweepAgreesFrom(repo, repo, entries, busy, base);
  }

  /** A preview changes nothing. */
  lemma {:induction false} PreviewChangesNothing(
      repo: Repo, entries: seq<Entry>, busy: Path -> bool, base: Base, git: Path -> Git, pruneWorks: bool)
    requires repo.Valid()
    ensures Sweep(repo, entries, busy, base, git, pruneWorks, false).1 == repo
    decreases |entries|
  {
    hide Assess, Retire;
    if entries != [] {
      PreviewChangesNothing(repo, entries[1..], busy, base, git, pruneWorks);
    }
  }

  // ---- the sweep loses no commit it judged, and a pruned worktree's only sometimes ----

  lemma BaseOfStays(repo: Repo, base: Base, branch: string)
    requires BaseOf(repo, base)
    ensures BaseStays(repo, base, branch)
  {
  }

  lemma BaseOfKept(repo: Repo, path: Path, branch: string, base: Base, git: Git)
    requires repo.Valid() && BaseOf(repo, base)
    ensures BaseOf(Retire(repo, path, branch, base, git).repo, base)
  {
    RetireTouchesOneWorktree(repo, path, branch, base, git);
    hide Retire;
    var symbolicRef, revParse :| base == BaseName(repo, symbolicRef, revParse);
    assert base == BaseName(Retire(repo, path, branch, base, git).repo, symbolicRef, revParse);
  }

  lemma SameReachableChains(a: Repo, b: Repo, c: Repo)
    requires a.Valid() && b.Valid() && c.Valid() && SameReachable(b, c)
    ensures SameReachable(a, b) <==> SameReachable(a, c)
  {
    if SameReachable(a, b) {
      forall sha ensures Reachable(a, sha) <==> Reachable(c, sha) {
        assert Reachable(a, sha) <==> Reachable(b, sha);
        assert Reachable(b, sha) <==> Reachable(c, sha);
      }
    }
    if SameReachable(a, c) {
      forall sha ensures Reachable(a, sha) <==> Reachable(b, sha) {
        assert Reachable(a, sha) <==> Reachable(c, sha);
        assert Reachable(b, sha) <==> Reachable(c, sha);
      }
    }
  }

  /** The retirements of a sweep, whatever fails among them, lose no commit, whichever worktrees count. */
  lemma {:induction false} EntriesKeepReach(
      repo: Repo, live: set<Path>, entries: seq<Entry>, busy: Path -> bool, base: Base, git: Path -> Git)
    requires repo.Valid() && BaseOf(repo, base)
    ensures var after := SweepEntries(repo, entries, busy, base, git, true).1;
      SameReachable(Only(repo, live), Only(after, live)) && Shrinks(repo, after)
    decreases |entries|
  {
    if entries != [] {
      hide Retire, Assess, BaseOf, SameReachable, BaseStays, Hold, Only;
      var entry := entries[0];
      var step := SweepEntry(repo, entry, busy, base, git(entry.path), true).repo;
      RetireTouchesOneWorktree(repo, entry.path, entry.branch, base, git(entry.path));
      BaseOfStays(repo, base, entry.branch);
      BaseOfKept(repo, entry.path, entry.branch, base, git(entry.path));
      RetireKeepsReach(repo, live, entry.path, entry.branch, base, git(entry.path));
      EntriesKeepReach(step, live, entries[1..], busy, base, git);
      if step != repo {
        var after := SweepEntries(step, entries[1..], busy, base, git, true).1;
        SameReachableChains(Only(repo, live), Only(step, live), Only(after, live));
      }
    }
  }

  predicate Shrinks(before: Repo, after: Repo) {
    && after.dag == before.dag
    && forall path :: path in after.worktrees ==> path in before.worktrees && after.worktrees[path] == before.worktrees[path]
  }

  /** Git keeps every commit a pruned worktree had its detached HEAD at. */
  ghost predicate PrunedHeadsHeld(repo: Repo)
    requires repo.Valid()
  {
    forall path :: path in repo.worktrees && path !in Live(repo) && HeadToLose(repo, path) ==>
      Reachable(Prune(repo), repo.worktrees[path].head.sha)
  }

  predicate HeadToLose(repo: Repo, path: Path)
    requires path in repo.worktrees
  {
    repo.worktrees[path].head.Detached? && repo.worktrees[path].head.sha in repo.dag
  }

  lemma LiveCheckoutIsRoot(repo: Repo, path: Path)
    requires path in Live(repo) && repo.Commit(repo.worktrees[path].head).Some?
    ensures Root(Prune(repo), repo.Commit(repo.worktrees[path].head).value)
  {
    assert path in Prune(repo).worktrees;
  }

  lemma PruneLosesNothingExactlyWhen(repo: Repo)
    requires repo.Valid()
    ensures SameReachable(repo, Prune(repo)) <==> PrunedHeadsHeld(repo)
  {
    var after := Prune(repo);
    if PrunedHeadsHeld(repo) {
      forall sha | Root(repo, sha) && !Root(after, sha) && sha in repo.dag ensures Reachable(after, sha) {
        var path :| path in repo.worktrees && repo.Commit(repo.worktrees[path].head) == Some(sha);
        if path in Live(repo) {
          LiveCheckoutIsRoot(repo, path);
        }
      }
      LosingCoveredRoots(repo, after);
    } else {
      var path :| path in repo.worktrees && path !in Live(repo) && HeadToLose(repo, path)
               && !Reachable(after, repo.worktrees[path].head.sha);
      assert Root(repo, repo.worktrees[path].head.sha);
    }
  }

  /**
   * A sweep, whichever retirements fail, loses no commit exactly when it prunes nothing or every pruned worktree's
   * detached HEAD is kept by some other ref: what is judged is safe, and what is pruned is not judged.
   */
  lemma SweepLosesNothingExactlyWhen(
      repo: Repo, entries: seq<Entry>, busy: Path -> bool, base: Base, git: Path -> Git, pruneWorks: bool)
    requires repo.Valid() && BaseOf(repo, base)
    ensures SameReachable(repo, Sweep(repo, entries, busy, base, git, pruneWorks, true).1)
       <==> !(Stale(entries) && pruneWorks) || PrunedHeadsHeld(repo)
  {
    hide SweepEntries, BaseOf, SameReachable, PrunedHeadsHeld;
    var swept := SweepEntries(repo, entries, busy, base, git, true).1;
    if Stale(entries) && pruneWorks {
      EntriesKeepReach(repo, Live(repo), entries, busy, base, git);
      PrunedIsLive(repo, swept);
      SameReachableChains(repo, Prune(repo), Prune(swept));
      PruneLosesNothingExactlyWhen(repo);
    } else {
      EntriesKeepReach(repo, repo.worktrees.Keys, entries, busy, base, git);
      OnlyAll(repo, repo.worktrees.Keys);
      OnlyAll(swept, repo.worktrees.Keys);
    }
  }

  /** A clone on `main` whose one linked worktree, its folder gone, is detached one commit ahead. */
  const DETACHED_AND_GONE := Repo(
    map["a" := Commit("t0", [], 0), "b" := Commit("t1", ["a"], 1)], OnBranch("main"),
    map["main" := "a"], map[], map["/w" := Checkout(Detached("b"), false, false, true)])

  lemma GoneHeadIsNotHeld()
    ensures DETACHED_AND_GONE.Valid() && !PrunedHeadsHeld(DETACHED_AND_GONE)
  {
    var repo := DETACHED_AND_GONE;
    assert "/w" in repo.worktrees && "/w" !in Live(repo) && HeadToLose(repo, "/w");
    var after := Prune(repo);
    assert after.worktrees == map[];
    forall root | Root(after, root) ensures !IsAncestor(repo.dag, "b", root) {
      assert root == "a";
    }
  }

  /** A sweep of it, with every git command succeeding, loses that commit. */
  lemma ASweepCanLoseCommits()
    ensures var repo := DETACHED_AND_GONE; var entries := [EntryOf("/w", repo.worktrees["/w"])];
      && repo.Valid() && Lists(repo, entries) && BaseOf(repo, Branch("main"))
      && !SameReachable(repo, Sweep(repo, entries, _ => false, Branch("main"), _ => RELIABLE, true, true).1)
  {
    var repo := DETACHED_AND_GONE;
    var entries := [EntryOf("/w", repo.worktrees["/w"])];
    GoneHeadIsNotHeld();
    assert Branch("main") == BaseName(repo, true, true);
    assert entries[0].prunable;
    hide PrunedHeadsHeld, Sweep, SameReachable;
    SweepLosesNothingExactlyWhen(repo, entries, _ => false, Branch("main"), _ => RELIABLE, true);
  }

  lemma PrunedIsLive(before: Repo, after: Repo)
    requires Shrinks(before, after)
    ensures Prune(after) == Only(after, Live(before))
  {
    assert Prune(after).worktrees == Only(after, Live(before)).worktrees;
  }

  // ---- what a sweep never removes ----

  lemma {:induction false} EntriesLeave(
      repo: Repo, entries: seq<Entry>, busy: Path -> bool, base: Base, git: Path -> Git, apply: bool, path: Path)
    requires repo.Valid() && path in repo.worktrees
    requires forall i :: 0 <= i < |entries| && entries[i].path == path ==> entries[i].prunable || Hold(entries[i], busy)
    ensures var after := SweepEntries(repo, entries, busy, base, git, apply).1;
      path in after.worktrees && after.worktrees[path] == repo.worktrees[path]
    decreases |entries|
  {
    if entries != [] {
      var entry := entries[0];
      RetireTouchesOneWorktree(repo, entry.path, entry.branch, base, git(entry.path));
      hide Retire, Assess, Hold;
      var step := SweepEntry(repo, entry, busy, base, git(entry.path), apply).repo;
      assert forall i :: 0 <= i < |entries[1..]| ==> entries[1..][i] == entries[i + 1];
      EntriesLeave(step, entries[1..], busy, base, git, apply, path);
    }
  }

  /** A sweep never removes a locked worktree, nor one in use or touched lately whose folder is there, and never touches it. */
  lemma LockedAndBusyStay(
      repo: Repo, entries: seq<Entry>, busy: Path -> bool, base: Base, git: Path -> Git, pruneWorks: bool, apply: bool, path: Path)
    requires repo.Valid() && Lists(repo, entries) && path in repo.worktrees
    requires repo.worktrees[path].locked || (busy(path) && !repo.worktrees[path].gone)
    ensures var after := Sweep(repo, entries, busy, base, git, pruneWorks, apply).1;
      path in after.worktrees && after.worktrees[path] == repo.worktrees[path]
  {
    EntriesLeave(repo, entries, busy, base, git, apply, path);
  }

  // ---- the methods ----

  /** The main checkout a sweep or a retirement runs in. */
  class Clone {
    var repo: Repo

    constructor (found: Repo)
      requires found.Valid()
      ensures repo == found
    {
      repo := found;
    }

    /** `assess`: the tips in turn, changing nothing. */
    method AssessWorktree(path: Path, branch: string, base: Base, git: Git) returns (verdict: Assessment)
      requires repo.Valid()
      ensures verdict == Assess(repo, path, branch, base, git)
    {
      var tips: seq<Sha> := [];
      if Exists(repo, path) {
        if !git.status || repo.worktrees[path].dirty {
          return Keep;
        }
        var head := repo.Commit(repo.worktrees[path].head);
        if !git.head || head.None? {
          return Keep;
        }
        tips := tips + [head.value];
      }
      var branchTip := BranchTip(repo, branch, git.tip);
      if branchTip.Some? {
        tips := tips + [branchTip.value];
      }
      assert tips == Tips(repo, path, branch, git);
      hide Tips, BranchTip, Merged, Pushed;
      var pushed := false;
      for i := 0 to |tips|
        invariant AssessTips(repo, tips[i..], base, git, pushed) == AssessTips(repo, tips, base, git, false)
      {
        assert tips[i..][1..] == tips[i + 1..];
        if Merged(repo, tips[i], base) && git.merged(tips[i]) {
        } else {
          if !(Pushed(repo, tips[i]) && git.pushed(tips[i])) {
            return Keep;
          }
          pushed := true;
        }
      }
      verdict := if tips == [] then AlreadyGone else Landed(pushed);
    }

    /** `retire`: remove the worktree, then its branch, each only when nothing would be lost. */
    method RetireWorktree(path: Path, branch: string, base: Base, git: Git)
      returns (removed: bool, branchDeleted: bool, reason: Reason)
      requires repo.Valid()
      modifies this
      ensures Retirement(repo, removed, branchDeleted, reason) == Retire(old(repo), path, branch, base, git)
    {
      var verdict := AssessWorktree(path, branch, base, git);
      if verdict.Keep? {
        return false, false, Judged(verdict);
      }
      var branchTip := BranchTip(repo, branch, git.tipAgain);
      if Exists(repo, path) {
        if !git.remove {
          return false, false, RemoveFailed;
        }
        repo := repo.(worktrees := repo.worktrees - {path});
      }
      if branchTip.Some? {
        if Merged(repo, branchTip.value, base) && git.mergedAgain {
          if git.delete && !CheckedOut(repo, branch) {
            repo := repo.(branches := repo.branches - {branch});
            return true, true, Judged(verdict);
          }
        }
      }
      return true, false, Judged(verdict);
    }

    /** One turn of the loop of `sweep_repo`. */
    method SweepOne(entry: Entry, busy: Path -> bool, base: Base, git: Git, apply: bool) returns (row: Row)
      requires repo.Valid()
      modifies this
      ensures Step(row, repo) == SweepEntry(old(repo), entry, busy, base, git, apply)
    {
      hide Assess, Retire, Hold;
      if entry.prunable {
        return Row(Prunes, entry.path, entry.branch, FolderGone);
      }
      if Hold(entry, busy) {
        return Row(Keeps, entry.path, entry.branch, Held);
      }
      if apply {
        var removed, _, reason := RetireWorktree(entry.path, entry.branch, base, git);
        return Row(if removed then Removes else Keeps, entry.path, entry.branch, reason);
      }
      var verdict := AssessWorktree(entry.path, entry.branch, base, git);
      return Row(if verdict.Keep? then Keeps else Removes, entry.path, entry.branch, Judged(verdict));
    }

    /** The loop of `sweep_repo`: a row for every listed worktree, acting on each decision when `apply` is set. */
    method SweepListed(entries: seq<Entry>, busy: Path -> bool, base: Base, git: Path -> Git, apply: bool)
      returns (rows: seq<Row>, stale: bool)
      requires repo.Valid()
      modifies this
      ensures rows == SweepEntries(old(repo), entries, busy, base, git, apply).0
      ensures repo == SweepEntries(old(repo), entries, busy, base, git, apply).1
      ensures stale == Stale(entries)
    {
      rows, stale := [], false;
      ghost var all := SweepEntries(repo, entries, busy, base, git, apply);
      assert entries[0..] == entries;
      for i := 0 to |entries|
        invariant repo.dag == old(repo).dag
        invariant stale == Stale(entries[..i])
        invariant rows + SweepEntries(repo, entries[i..], busy, base, git, apply).0 == all.0
        invariant SweepEntries(repo, entries[i..], busy, base, git, apply).1 == all.1
      {
        hide SweepEntries, SweepEntry, Stale;
        NextEntry(repo, entries, i, busy, base, git, apply);
        StaleNext(entries, i);
        ghost var before := rows;
        stale := stale || entries[i].prunable;
        var row := SweepOne(entries[i], busy, base, git(entries[i].path), apply);
        rows := rows + [row];
        Assoc(before, [row], SweepEntries(repo, entries[i + 1..], busy, base, git, apply).0);
      }
      assert entries[..|entries|] == entries;
    }

    /** `sweep_repo`: the loop, then one `git worktree prune` if a listed worktree's folder was gone. */
    method SweepRepo(
        entries: seq<Entry>, busy: Path -> bool, base: Base, git: Path -> Git, pruneWorks: bool, apply: bool)
      returns (rows: seq<Row>)
      requires repo.Valid()
      modifies this
      ensures rows == Sweep(old(repo), entries, busy, base, git, pruneWorks, apply).0
      ensures repo == Sweep(old(repo), entries, busy, base, git, pruneWorks, apply).1
    {
      var stale;
      rows, stale := SweepListed(entries, busy, base, git, apply);
      if apply && stale && pruneWorks {
        repo := Prune(repo);
      }
    }
  }

  lemma NextEntry(repo: Repo, entries: seq<Entry>, i: nat, busy: Path -> bool, base: Base, git: Path -> Git, apply: bool)
    requires repo.Valid() && i < |entries|
    ensures var step := SweepEntry(repo, entries[i], busy, base, git(entries[i].path), apply);
      && step.repo.dag == repo.dag
      && SweepEntries(repo, entries[i..], busy, base, git, apply)
      == ([step.row] + SweepEntries(step.repo, entries[i + 1..], busy, base, git, apply).0,
          SweepEntries(step.repo, entries[i + 1..], busy, base, git, apply).1)
  {
    RetireTouchesOneWorktree(repo, entries[i].path, entries[i].branch, base, git(entries[i].path));
    hide Assess, Retire;
    assert entries[i..][1..] == entries[i + 1..];
  }

  lemma StaleNext(entries: seq<Entry>, i: nat)
    requires i < |entries|
    ensures Stale(entries[..i + 1]) <==> Stale(entries[..i]) || entries[i].prunable
  {
    assert forall j :: 0 <= j < i ==> entries[..i][j] == entries[..i + 1][j];
  }
}
