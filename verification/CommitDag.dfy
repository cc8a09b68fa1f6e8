/** The commit graph git answers from: reachability and first-parent history. */
module CommitDag {
  type Sha = string
  type Tree = string

  /** `generation` is git's own topological level: every parent has a smaller one. */
  datatype Commit = Commit(tree: Tree, parents: seq<Sha>, generation: nat)

  type Dag = map<Sha, Commit>

  predicate WellFormed(dag: Dag) {
    forall c, i :: c in dag && 0 <= i < |dag[c].parents| ==>
      dag[c].parents[i] in dag && dag[dag[c].parents[i]].generation < dag[c].generation
  }

  /** `git merge-base --is-ancestor a c`, false for a name that resolves to no commit. */
  predicate IsAncestor(dag: Dag, a: Sha, c: Sha)
    requires WellFormed(dag)
    decreases if c in dag then dag[c].generation else 0
  {
    c in dag && a in dag &&
    (a == c || exists i :: 0 <= i < |dag[c].parents| && IsAncestor(dag, a, dag[c].parents[i]))
  }

  lemma {:induction false} AncestorIsOlder(dag: Dag, a: Sha, c: Sha)
    requires WellFormed(dag) && IsAncestor(dag, a, c)
    ensures a == c || dag[a].generation < dag[c].generation
    decreases dag[c].generation
  {
    if a != c {
      var i :| 0 <= i < |dag[c].parents| && IsAncestor(dag, a, dag[c].parents[i]);
      AncestorIsOlder(dag, a, dag[c].parents[i]);
    }
  }

  lemma {:induction false} AncestryIsTransitive(dag: Dag, a: Sha, b: Sha, c: Sha)
    requires WellFormed(dag) && IsAncestor(dag, a, b) && IsAncestor(dag, b, c)
    ensures IsAncestor(dag, a, c)
    decreases dag[c].generation
  {
    if b != c {
      var i :| 0 <= i < |dag[c].parents| && IsAncestor(dag, b, dag[c].parents[i]);
      AncestryIsTransitive(dag, a, b, dag[c].parents[i]);
    }
  }

  /** `git rev-list --reverse --first-parent since..head`: first-parent history not reachable from `since`, oldest first. */
  function FirstParentCommits(dag: Dag, since: Sha, head: Sha): (commits: seq<Sha>)
    requires WellFormed(dag)
    ensures forall c :: c in commits ==> c in dag && IsAncestor(dag, c, head)
    ensures head in dag && !IsAncestor(dag, head, since) ==> commits != [] && commits[|commits| - 1] == head
    decreases if head in dag then dag[head].generation else 0
  {
    if head !in dag || IsAncestor(dag, head, since) then []
    else if dag[head].parents == [] then [head]
    else
      var older := FirstParentCommits(dag, since, dag[head].parents[0]);
      assert IsAncestor(dag, head, head);
      older + [head]
  }

  /**
   * The list is the first-parent chain down from the head, newest last: each commit's first parent is the one before it,
   * none is reachable from `since`, and the chain ends at a root or where a first parent is.
   */
  lemma {:induction false} FirstParentChain(dag: Dag, since: Sha, head: Sha)
    requires WellFormed(dag)
    ensures var commits := FirstParentCommits(dag, since, head);
      && (commits == [] <==> head !in dag || IsAncestor(dag, head, since))
      && (commits != [] ==> commits[|commits| - 1] == head && EndsAt(dag, since, commits[0]))
      && (forall i :: 0 <= i < |commits| ==> commits[i] in dag && !IsAncestor(dag, commits[i], since))
      && (forall i :: 0 < i < |commits| ==> FirstParentIs(dag, commits[i], commits[i - 1]))
    decreases if head in dag then dag[head].generation else 0
  {
    if head in dag && !IsAncestor(dag, head, since) && dag[head].parents != [] {
      FirstParentChain(dag, since, dag[head].parents[0]);
      hide IsAncestor;
    }
  }

  predicate FirstParentIs(dag: Dag, c: Sha, parent: Sha) {
    c in dag && dag[c].parents != [] && dag[c].parents[0] == parent
  }

  predicate EndsAt(dag: Dag, since: Sha, oldest: Sha)
    requires WellFormed(dag)
  {
    oldest in dag && (dag[oldest].parents == [] || IsAncestor(dag, dag[oldest].parents[0], since))
  }

  /** Once a listed commit is reached, what is left to list is exactly the commits after it. */
  lemma {:induction false} FirstParentSuffix(dag: Dag, since: Sha, head: Sha, k: nat)
    requires WellFormed(dag) && k < |FirstParentCommits(dag, since, head)|
    ensures FirstParentCommits(dag, FirstParentCommits(dag, since, head)[k], head)
         == FirstParentCommits(dag, since, head)[k + 1..]
    decreases if head in dag then dag[head].generation else 0
  {
    var commits := FirstParentCommits(dag, since, head);
    var c := commits[k];
    assert c in commits;
    if c == head {
      assert IsAncestor(dag, head, head);
      if k < |commits| - 1 {
        var older := FirstParentCommits(dag, since, dag[head].parents[0]);
        assert c in older;
        AncestorIsOlder(dag, c, dag[head].parents[0]);
      }
    } else {
      var parent := dag[head].parents[0];
      var older := FirstParentCommits(dag, since, parent);
      assert commits == older + [head];
      assert c == older[k];
      FirstParentSuffix(dag, since, parent, k);
      assert c in older;
      AncestorIsOlder(dag, c, parent);
      if IsAncestor(dag, head, c) {
        AncestorIsOlder(dag, head, c);
      }
    }
  }
}
