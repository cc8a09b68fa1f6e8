/** farrier/farrier/worktree_sweep.py: which worktrees a sweep removes, prunes and keeps, in terms of the repository alone. */
module WorktreeRows {
  import opened Wrappers
  import opened CommitDag
  import opened Worktree

  /** The commit is in the history of what the base names, or of a remote branch. */
  predicate HasLanded(repo: Repo, sha: Sha, base: Base)
    requires repo.Valid()
  {
    || (BaseCommit(repo, base).Some? && IsAncestor(repo.dag, sha, BaseCommit(repo, base).value))
    || (exists name :: name in repo.remotes && IsAncestor(repo.dag, sha, repo.remotes[name]))
  }

  /** Git says the tip is merged into the base. */
  predicate SeenMerged(repo: Repo, tip: Sha, base: Base, git: Git)
    requires repo.Valid()
  {
    Merged(repo, tip, base) && git.merged(tip)
  }

  /** Tips that all landed are called pushed exactly when one of them is not merged. */
  lemma {:induction false} LandedIsPushedExactlyWhen(repo: Repo, tips: seq<Sha>, base: Base, git: Git, pushed: bool)
    requires repo.Valid()
    ensures var verdict := AssessTips(repo, tips, base, git, pushed);
      && !verdict.AlreadyGone?
      && (verdict.Landed? ==> (verdict.pushed <==> pushed || exists i :: 0 <= i < |tips| && !SeenMerged(repo, tips[i], base, git)))
  {
    if tips != [] {
      hide Merged, Pushed;
      var rest := tips[1..];
      assert forall i :: 0 < i < |tips| ==> tips[i] == rest[i - 1];
      LandedIsPushedExactlyWhen(repo, rest, base, git, pushed);
      LandedIsPushedExactlyWhen(repo, rest, base, git, true);
      if i :| 0 <= i < |rest| && !SeenMerged(repo, rest[i], base, git) {
        assert !SeenMerged(repo, tips[i + 1], base, git);
      }
      if i :| 0 <= i < |tips| && !SeenMerged(repo, tips[i], base, git) {
        assert i > 0 ==> !SeenMerged(repo, rest[i - 1], base, git);
      }
    }
  }

  /** The commits that go with a worktree and a branch, as far as git can tell. */
  function HeadThere(repo: Repo, path: Path): Option<Sha> {
    if Exists(repo, path) then repo.Commit(repo.worktrees[path].head) else None
  }

  function TipThere(repo: Repo, branch: string, git: Git): Option<Sha> {
    if branch in repo.branches && branch != "" && git.tip then Some(repo.branches[branch]) else None
  }

  lemma TipsAre(repo: Repo, path: Path, branch: string, git: Git)
    ensures var tips := Tips(repo, path, branch, git);
      && (forall i :: 0 <= i < |tips| ==> HeadThere(repo, path) == Some(tips[i]) || TipThere(repo, branch, git) == Some(tips[i]))
      && (HeadThere(repo, path).Some? ==> tips != [] && tips[0] == HeadThere(repo, path).value)
      && (TipThere(repo, branch, git).Some? ==> tips != [] && tips[|tips| - 1] == TipThere(repo, branch, git).value)
  {
  }

  /**
   * What is said of a worktree and its branch, for whatever git answers: kept, if git cannot vouch for the folder or has
   * not seen a commit of the two land; gone already, if there is neither folder nor branch; and else landed, by a push
   * exactly when one of them is not merged.
   */
  lemma AssessExactlyWhen(repo: Repo, path: Path, branch: string, base: Base, git: Git)
    requires repo.Valid()
    ensures var verdict, head, tip := Assess(repo, path, branch, base, git), HeadThere(repo, path), TipThere(repo, branch, git);
      && (verdict.Keep? <==>
            || Unreadable(repo, path, git)
            || (head.Some? && !SeenLanded(repo, head.value, base, git))
            || (tip.Some? && !SeenLanded(repo, tip.value, base, git)))
      && (verdict.AlreadyGone? <==> !Exists(repo, path) && tip.None?)
      && (verdict.Landed? ==> (verdict.pushed <==>
            || (head.Some? && !SeenMerged(repo, head.value, base, git))
            || (tip.Some? && !SeenMerged(repo, tip.value, base, git))))
  {
    var tips := Tips(repo, path, branch, git);
    TipsAre(repo, path, branch, git);
    TipsKeepExactlyWhen(repo, tips, base, git, false);
    LandedIsPushedExactlyWhen(repo, tips, base, git, false);
    hide Merged, Pushed, AssessTips, Tips, SeenLanded, SeenMerged;
    var head, tip := HeadThere(repo, path), TipThere(repo, branch, git);
    if head.Some? {
      assert tips[0] == head.value;
    }
    if tip.Some? {
      assert tips[|tips| - 1] == tip.value;
    }
  }

  // ---- rows ----

  /** Its folder is gone and nothing locks it. */
  predicate IsPrunable(checkout: Checkout) {
    checkout.gone && !checkout.locked
  }

  /** Nothing holds the worktree, git finds nothing in it to lose, and its commit has landed. */
  predicate IsSpent(repo: Repo, path: Path, busy: Path -> bool, base: Base)
    requires repo.Valid() && path in repo.worktrees
  {
    var checkout := repo.worktrees[path];
    && !checkout.locked && !busy(path) && !checkout.dirty
    && repo.Commit(checkout.head).Some? && HasLanded(repo, repo.Commit(checkout.head).value, base)
  }

  lemma SpentExactlyWhen(repo: Repo, path: Path, busy: Path -> bool, base: Base)
    requires repo.Valid() && path in repo.worktrees && !repo.worktrees[path].gone
    requires !Hold(EntryOf(path, repo.worktrees[path]), busy)
    ensures !Assess(repo, path, EntryOf(path, repo.worktrees[path]).branch, base, RELIABLE).Keep? <==> IsSpent(repo, path, busy, base)
  {
    var checkout := repo.worktrees[path];
    var branch := EntryOf(path, checkout).branch;
    AssessExactlyWhen(repo, path, branch, base, RELIABLE);
    assert SeenLandedIs(repo, base);
    hide Assess;
  }

  ghost predicate SeenLandedIs(repo: Repo, base: Base)
    requires repo.Valid()
  {
    forall sha :: SeenLanded(repo, sha, base, RELIABLE) <==> HasLanded(repo, sha, base)
  }

  /** The row of an entry as the repository has it: pruned, held, kept for its work, or removed. */
  ghost predicate RowIs(repo: Repo, path: Path, busy: Path -> bool, base: Base, row: Row)
    requires repo.Valid() && path in repo.worktrees
  {
    var checkout := repo.worktrees[path];
    && row.path == path
    && row.branch == (if checkout.head.OnBranch? then checkout.head.name else "")
    && (row.action.Prunes? <==> IsPrunable(checkout))
    && (row.action.Removes? <==> !checkout.gone && IsSpent(repo, path, busy, base))
    && (row.reason.FolderGone? <==> IsPrunable(checkout))
    && (row.reason.Held? <==> !IsPrunable(checkout) && (checkout.locked || busy(path)))
    && (row.action.Removes? ==>
          exists sha :: repo.Commit(checkout.head) == Some(sha) && row.reason == Judged(Landed(!Merged(repo, sha, base))))
  }

  lemma PreviewRowIs(repo: Repo, path: Path, busy: Path -> bool, base: Base)
    requires repo.Valid() && path in repo.worktrees
    ensures RowIs(repo, path, busy, base, SweepEntry(repo, EntryOf(path, repo.worktrees[path]), busy, base, RELIABLE, false).row)
  {
    var checkout := repo.worktrees[path];
    if !IsPrunable(checkout) && !(checkout.locked || busy(path)) {
      SpentExactlyWhen(repo, path, busy, base);
      AssessExactlyWhen(repo, path, EntryOf(path, checkout).branch, base, RELIABLE);
      hide Assess, HasLanded;
    }
  }

  lemma {:induction false} PreviewRowsAre(repo: Repo, entries: seq<Entry>, busy: Path -> bool, base: Base, i: nat)
    requires repo.Valid() && Lists(repo, entries) && i < |entries|
    ensures var rows := SweepEntries(repo, entries, busy, base, _ => RELIABLE, false).0;
      |rows| == |entries| && RowIs(repo, entries[i].path, busy, base, rows[i])
    decreases |entries|
  {
    hide RowIs, Assess, Retire;
    PreviewRowIs(repo, entries[0].path, busy, base);
    ListsTail(repo, entries);
    if |entries| > 1 {
      PreviewRowsAre(repo, entries[1..], busy, base, if i > 0 then i - 1 else 0);
    }
  }

  /**
   * With git working, a sweep removes exactly the worktrees that nothing holds, that are clean and whose commit has landed
   * in the base or a remote; holds the locked and the busy ones; and prunes those whose folder is gone and no lock keeps.
   */
  lemma SweepRowsAre(repo: Repo, entries: seq<Entry>, busy: Path -> bool, base: Base, pruneWorks: bool, apply: bool, i: nat)
    requires repo.Valid() && Lists(repo, entries) && BaseOf(repo, base) && i < |entries|
    ensures var rows := Sweep(repo, entries, busy, base, _ => RELIABLE, pruneWorks, apply).0;
      |rows| == |entries| && RowIs(repo, entries[i].path, busy, base, rows[i])
  {
    hide RowIs, SweepEntry, BaseOf;
    PreviewIsWhatApplyDoes(repo, entries, busy, base, pruneWorks);
    PreviewRowsAre(repo, entries, busy, base, i);
  }

  // ---- what the rows leave ----

  lemma StepLeavesTheRest(repo: Repo, entries: seq<Entry>, busy: Path -> bool, base: Base, git: Git)
    requires repo.Valid() && Lists(repo, entries) && entries != []
    ensures var after := SweepEntry(repo, entries[0], busy, base, git, true).repo;
      && after.Valid() && Lists(after, entries[1..])
      && forall path :: path != entries[0].path ==>
           (path in after.worktrees <==> path in repo.worktrees)
           && (path in repo.worktrees ==> after.worktrees[path] == repo.worktrees[path])
  {
    RetireTouchesOneWorktree(repo, entries[0].path, entries[0].branch, base, git);
    hide Retire, Assess;
    var after := SweepEntry(repo, entries[0], busy, base, git, true).repo;
    forall j | 0 <= j < |entries[1..]|
      ensures var entry := entries[1..][j];
        entry.path in after.worktrees && entry == EntryOf(entry.path, after.worktrees[entry.path])
    {
      assert entries[1..][j] == entries[j + 1];
    }
  }

  lemma RowLeaves(repo: Repo, entry: Entry, busy: Path -> bool, base: Base, git: Git)
    requires repo.Valid() && entry.path in repo.worktrees && entry == EntryOf(entry.path, repo.worktrees[entry.path])
    ensures var step := SweepEntry(repo, entry, busy, base, git, true);
      if step.row.action.Removes? then entry.path !in step.repo.worktrees
      else entry.path in step.repo.worktrees && step.repo.worktrees[entry.path] == repo.worktrees[entry.path]
  {
    hide Assess, Merged, CheckedOut;
  }

  lemma {:induction false} RowsLeave(repo: Repo, entries: seq<Entry>, busy: Path -> bool, base: Base, git: Path -> Git, path: Path)
    requires repo.Valid() && Lists(repo, entries) && path in repo.worktrees
    ensures var (rows, after) := SweepEntries(repo, entries, busy, base, git, true);
      && |rows| == |entries|
      && (path in after.worktrees <==> forall i :: 0 <= i < |entries| && entries[i].path == path ==> !rows[i].action.Removes?)
      && (path in after.worktrees ==> after.worktrees[path] == repo.worktrees[path])
    decreases |entries|
  {
    hide Retire, Assess, Lists;
    if entries != [] {
      var step := SweepEntry(repo, entries[0], busy, base, git(entries[0].path), true);
      var rest := entries[1..];
      StepLeavesTheRest(repo, entries, busy, base, git(entries[0].path));
      FirstIsListed(repo, entries);
      RowLeaves(repo, entries[0], busy, base, git(entries[0].path));
      var (rows, after) := SweepEntries(repo, entries, busy, base, git, true);
      hide SweepEntry;
      if path in step.repo.worktrees {
        RowsLeave(step.repo, rest, busy, base, git, path);
        var (later, _) := SweepEntries(step.repo, rest, busy, base, git, true);
        assert rows == [step.row] + later;
        assert forall i :: 0 < i < |entries| ==> entries[i] == rest[i - 1] && rows[i] == later[i - 1];
        if i :| 0 <= i < |rest| && rest[i].path == path && later[i].action.Removes? {
          assert entries[i + 1].path == path && rows[i + 1].action.Removes?;
        }
      } else {
        EntriesBringNothingBack(step.repo, rest, busy, base, git, path);
        RowsPerEntry(step.repo, rest, busy, base, git);
      }
    }
  }

  lemma FirstIsListed(repo: Repo, entries: seq<Entry>)
    requires Lists(repo, entries) && entries != []
    ensures entries[0].path in repo.worktrees && entries[0] == EntryOf(entries[0].path, repo.worktrees[entries[0].path])
  {
  }

  lemma {:induction false} RowsPerEntry(repo: Repo, entries: seq<Entry>, busy: Path -> bool, base: Base, git: Path -> Git)
    requires repo.Valid()
    ensures |SweepEntries(repo, entries, busy, base, git, true).0| == |entries|
    decreases |entries|
  {
    if entries != [] {
      RetireTouchesOneWorktree(repo, entries[0].path, entries[0].branch, base, git(entries[0].path));
      hide Retire, Assess;
      RowsPerEntry(SweepEntry(repo, entries[0], busy, base, git(entries[0].path), true).repo, entries[1..], busy, base, git);
    }
  }

  lemma {:induction false} EntriesBringNothingBack(repo: Repo, entries: seq<Entry>, busy: Path -> bool, base: Base, git: Path -> Git, path: Path)
    requires repo.Valid() && path !in repo.worktrees
    ensures path !in SweepEntries(repo, entries, busy, base, git, true).1.worktrees
    decreases |entries|
  {
    if entries != [] {
      RetireTouchesOneWorktree(repo, entries[0].path, entries[0].branch, base, git(entries[0].path));
      hide Retire, Assess;
      EntriesBringNothingBack(SweepEntry(repo, entries[0], busy, base, git(entries[0].path), true).repo, entries[1..], busy, base, git, path);
    }
  }

  /**
   * An applied sweep does what its rows say, whatever git commands fail: a worktree is gone afterwards exactly when its row
   * says removed, or when the prune ran and its folder was gone with no lock on it; any other is as it was.
   */
  lemma SweepLeavesExactly(repo: Repo, entries: seq<Entry>, busy: Path -> bool, base: Base, git: Path -> Git, pruneWorks: bool, path: Path)
    requires repo.Valid() && Lists(repo, entries) && path in repo.worktrees
    ensures var (rows, after) := Sweep(repo, entries, busy, base, git, pruneWorks, true);
      var pruned := pruneWorks && exists i :: 0 <= i < |entries| && IsPrunable(repo.worktrees[entries[i].path]);
      && |rows| == |entries|
      && (path in after.worktrees <==>
            && (forall i :: 0 <= i < |entries| && entries[i].path == path ==> !rows[i].action.Removes?)
            && !(pruned && IsPrunable(repo.worktrees[path])))
      && (path in after.worktrees ==> after.worktrees[path] == repo.worktrees[path])
  {
    hide Retire, Assess, SweepEntries;
    RowsLeave(repo, entries, busy, base, git, path);
    assert Stale(entries) <==> exists i :: 0 <= i < |entries| && IsPrunable(repo.worktrees[entries[i].path]) by {
      assert forall i :: 0 <= i < |entries| ==> (entries[i].prunable <==> IsPrunable(repo.worktrees[entries[i].path]));
    }
  }
}
