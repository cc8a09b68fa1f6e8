/** groom/groom/churn.py, in terms of the spans alone: which visits repeat the same work, and which of them alert. */
module ChurnLaws {
  import opened Wrappers
  import opened Text
  import opened Churn

  predicate IsVisit(span: Span) {
    span.node != "" && span.name == span.node && !span.cut
  }

  /** A dimension the workflow declares, rather than one the tools put on every span. */
  predicate Declared(key: string) {
    !StartsWith(key, "workhorse.") && key != "status_message" && key != "events"
  }

  /** Two spans of one node that agree on every dimension the workflow declares. */
  predicate SameWork(a: Span, b: Span) {
    && a.node == b.node
    && (forall key :: key in a.attrs && Declared(key) ==> key in b.attrs && b.attrs[key] == a.attrs[key])
    && (forall key :: key in b.attrs && Declared(key) ==> key in a.attrs)
  }

  /** The visits of the span's node up to the first `n` spans, from the last one back, while they do the same work. */
  function Streak(spans: seq<Span>, span: Span, n: nat): nat
    requires n <= |spans|
  {
    if n == 0 then 0
    else if !IsVisit(spans[n - 1]) || spans[n - 1].node != span.node then Streak(spans, span, n - 1)
    else if SameWork(spans[n - 1], span) then 1 + Streak(spans, span, n - 1)
    else 0
  }

  /** How many times in a row visit `i` has now finished its node on the same work. */
  function Repeats(spans: seq<Span>, i: nat): nat
    requires i < |spans|
  {
    Streak(spans, spans[i], i + 1)
  }

  lemma SameWorkIsSameSignature(a: Span, b: Span)
    requires a.node == b.node
    ensures SameWork(a, b) <==> LabelSignature(a.attrs) == LabelSignature(b.attrs)
  {
    var sa, sb := LabelSignature(a.attrs), LabelSignature(b.attrs);
    if SameWork(a, b) {
      assert sa.Keys == sb.Keys;
    } else if sa == sb {
      forall key | key in a.attrs && Declared(key) ensures key in b.attrs && b.attrs[key] == a.attrs[key] {
        assert key in sa && key in sb;
      }
      forall key | key in b.attrs && Declared(key) ensures key in a.attrs {
        assert key in sb && key in sa;
      }
    }
  }

  /** The last visit of a node among the first `n` spans. */
  ghost predicate LastVisit(spans: seq<Span>, n: nat, node: string, k: nat)
    requires n <= |spans|
  {
    && k < n && IsVisit(spans[k]) && spans[k].node == node
    && forall j :: k < j < n && IsVisit(spans[j]) ==> spans[j].node != node
  }

  ghost predicate NeverVisited(spans: seq<Span>, n: nat, node: string)
    requires n <= |spans|
  {
    forall j :: 0 <= j < n && IsVisit(spans[j]) ==> spans[j].node != node
  }

  /** The tally says of each node the labels of its last visit and how many times in a row they were the same. */
  ghost predicate TallyOf(spans: seq<Span>, n: nat, labels: map<string, Signature>, counts: map<string, nat>)
    requires n <= |spans|
  {
    forall node :: NodeTallied(spans, n, labels, counts, node)
  }

  ghost predicate NodeTallied(spans: seq<Span>, n: nat, labels: map<string, Signature>, counts: map<string, nat>, node: string)
    requires n <= |spans|
  {
    if node !in labels then NeverVisited(spans, n, node)
    else
      node in counts && exists k: nat ::
        LastVisit(spans, n, node, k) && labels[node] == LabelSignature(spans[k].attrs) && counts[node] == Repeats(spans, k)
  }

  lemma {:induction false} StreakFromLastVisit(spans: seq<Span>, span: Span, n: nat, k: nat)
    requires n <= |spans| && LastVisit(spans, n, span.node, k)
    ensures Streak(spans, span, n) == Streak(spans, span, k + 1)
    decreases n
  {
    if n > k + 1 {
      StreakFromLastVisit(spans, span, n - 1, k);
    }
  }

  lemma {:induction false} StreakOfNeverVisited(spans: seq<Span>, span: Span, n: nat)
    requires n <= |spans| && NeverVisited(spans, n, span.node)
    ensures Streak(spans, span, n) == 0
  {
    if n > 0 {
      StreakOfNeverVisited(spans, span, n - 1);
    }
  }

  lemma {:induction false} StreakOfSameWork(spans: seq<Span>, a: Span, b: Span, n: nat)
    requires n <= |spans| && SameWork(a, b)
    ensures Streak(spans, a, n) == Streak(spans, b, n)
  {
    if n > 0 {
      StreakOfSameWork(spans, a, b, n - 1);
    }
  }

  /** A span that is no visit of a node leaves what is tallied of it. */
  lemma OtherNodesKeepTheirTally(
      spans: seq<Span>, n: nat, labels: map<string, Signature>, counts: map<string, nat>, labels': map<string, Signature>,
      counts': map<string, nat>, node: string)
    requires n < |spans| && NodeTallied(spans, n, labels, counts, node) && !(IsVisit(spans[n]) && spans[n].node == node)
    requires node in labels' <==> node in labels
    requires node in labels ==> labels'[node] == labels[node]
    requires node in counts ==> node in counts' && counts'[node] == counts[node]
    ensures NodeTallied(spans, n + 1, labels', counts', node)
  {
    hide SameWork;
    if node in labels {
      var k: nat :| LastVisit(spans, n, node, k) && labels[node] == LabelSignature(spans[k].attrs) && counts[node] == Repeats(spans, k);
      assert LastVisit(spans, n + 1, node, k);
    }
  }

  /** The count a visit's node has reached, and whether the visit is the first of a row. */
  lemma RepeatsFromTally(spans: seq<Span>, n: nat, labels: map<string, Signature>, counts: map<string, nat>)
    requires n < |spans| && IsVisit(spans[n]) && NodeTallied(spans, n, labels, counts, spans[n].node)
    ensures var node, signature := spans[n].node, LabelSignature(spans[n].attrs);
      Repeats(spans, n) == if node in labels && labels[node] == signature then counts[node] + 1 else 1
  {
    hide LabelSignature, IsVisit;
    var span := spans[n];
    assert SameWork(span, span);
    hide SameWork;
    assert Repeats(spans, n) == 1 + Streak(spans, span, n);
    if span.node !in labels {
      StreakOfNeverVisited(spans, span, n);
    } else {
      var k: nat :| && LastVisit(spans, n, span.node, k) && labels[span.node] == LabelSignature(spans[k].attrs)
                    && counts[span.node] == Repeats(spans, k);
      StreakFromLastVisit(spans, span, n, k);
      SameWorkIsSameSignature(spans[k], span);
      if SameWork(spans[k], span) {
        StreakOfSameWork(spans, spans[k], span, k + 1);
      }
    }
  }

  /** Folding a visit into the tally gives its repeats, and says the work moved on exactly when it is the first of a row. */
  lemma ObserveCountsRepeats(spans: seq<Span>, n: nat, labels: map<string, Signature>, counts: map<string, nat>)
    requires n < |spans| && IsVisit(spans[n]) && TallyOf(spans, n, labels, counts)
    ensures var seen := Observe(labels, counts, spans[n].node, spans[n].attrs);
      && seen.repeats == Repeats(spans, n) && (seen.moved <==> Repeats(spans, n) == 1)
      && TallyOf(spans, n + 1, seen.labels, seen.counts)
  {
    hide SameWork, Streak, LabelSignature;
    var node, m := spans[n].node, n + 1;
    var seen := Observe(labels, counts, node, spans[n].attrs);
    assert NodeTallied(spans, n, labels, counts, node);
    RepeatsFromTally(spans, n, labels, counts);
    AtLeastOnce(spans, n, labels, counts, node);
    assert LastVisit(spans, m, node, n);
    forall other ensures NodeTallied(spans, m, seen.labels, seen.counts, other) {
      assert NodeTallied(spans, n, labels, counts, other);
      if other != node {
        OtherNodesKeepTheirTally(spans, n, labels, counts, seen.labels, seen.counts, other);
      }
    }
  }

  lemma AtLeastOnce(spans: seq<Span>, n: nat, labels: map<string, Signature>, counts: map<string, nat>, node: string)
    requires n <= |spans| && NodeTallied(spans, n, labels, counts, node)
    ensures node in labels ==> node in counts && counts[node] >= 1
  {
    if node in labels {
      var k: nat :| LastVisit(spans, n, node, k) && counts[node] == Repeats(spans, k);
      assert SameWork(spans[k], spans[k]);
    }
  }

  /** With no count of the node, as after a refuel, a visit is the first, whether the work moved on or not. */
  lemma CountsStartAtOne(labels: map<string, Signature>, counts: map<string, nat>, span: Span)
    requires span.node !in counts
    ensures var seen := Observe(labels, counts, span.node, span.attrs);
      && seen.repeats == 1 && seen.counts == counts[span.node := 1]
      && (seen.moved <==> span.node !in labels || labels[span.node] != LabelSignature(span.attrs))
  {
  }

  lemma OtherSpansKeepTheTally(spans: seq<Span>, n: nat, labels: map<string, Signature>, counts: map<string, nat>)
    requires n < |spans| && !IsVisit(spans[n]) && TallyOf(spans, n, labels, counts)
    ensures TallyOf(spans, n + 1, labels, counts)
  {
    hide NodeTallied;
    var m := n + 1;
    forall node ensures NodeTallied(spans, m, labels, counts, node) {
      assert NodeTallied(spans, n, labels, counts, node);
      OtherNodesKeepTheirTally(spans, n, labels, counts, labels, counts, node);
    }
  }

  // ---- the order they are replayed in ----

  /** The spans with this end and start, in their order. */
  function WithKey(spans: seq<Span>, endTs: real, startTs: real): seq<Span> {
    if spans == [] then []
    else (if spans[0].endTs == endTs && spans[0].startTs == startTs then [spans[0]] else []) + WithKey(spans[1..], endTs, startTs)
  }

  lemma {:induction false} InsertIsStable(span: Span, sorted: seq<Span>, endTs: real, startTs: real)
    ensures WithKey(Insert(span, sorted), endTs, startTs) == WithKey([span] + sorted, endTs, startTs)
  {
    assert ([span] + sorted)[1..] == sorted;
    if sorted != [] && !EndsBefore(span, sorted[0]) {
      InsertIsStable(span, sorted[1..], endTs, startTs);
      assert ([span] + sorted[1..])[1..] == sorted[1..];
    }
  }

  /** The replay goes by end, then by start, and spans that tie on both stay in the order they came. */
  lemma {:induction false} SortIsStable(spans: seq<Span>, endTs: real, startTs: real)
    ensures WithKey(SortByEnd(spans), endTs, startTs) == WithKey(spans, endTs, startTs)
    ensures var sorted := SortByEnd(spans);
      forall i, j :: 0 <= i < j < |sorted| ==>
        sorted[i].endTs < sorted[j].endTs || (sorted[i].endTs == sorted[j].endTs && sorted[i].startTs <= sorted[j].startTs)
  {
    SortByEndSorts(spans);
    if spans != [] {
      SortIsStable(spans[1..], endTs, startTs);
      InsertIsStable(spans[0], SortByEnd(spans[1..]), endTs, startTs);
      assert ([spans[0]] + SortByEnd(spans[1..]))[1..] == SortByEnd(spans[1..]);
    }
  }

  // ---- which visits alert ----

  /** The last generation named among the first `n` spans. */
  function GenerationBefore(spans: seq<Span>, n: nat): Option<int>
    requires n <= |spans|
  {
    if n == 0 then None
    else if spans[n - 1].generation.Some? then spans[n - 1].generation
    else GenerationBefore(spans, n - 1)
  }

  /** The span is the first of a run resumed since the spans before it. */
  predicate Resumes(spans: seq<Span>, k: nat)
    requires k < |spans|
  {
    spans[k].generation.Some? && GenerationBefore(spans, k).Some? && spans[k].generation != GenerationBefore(spans, k)
  }

  predicate Repeated(spans: seq<Span>, i: nat, limit: int)
    requires i < |spans|
  {
    IsVisit(spans[i]) && Repeats(spans, i) >= limit
  }

  /** No visit between the two moved on to other work, and no resume came between. */
  ghost predicate SameLoop(spans: seq<Span>, j: nat, n: nat)
    requires n <= |spans|
  {
    forall k :: j < k < n ==> !Resumes(spans, k) && !(IsVisit(spans[k]) && Repeats(spans, k) == 1)
  }

  /** A loop that repeated by one of the first `n` spans is still the one going on. */
  ghost predicate Looping(spans: seq<Span>, n: nat, limit: int)
    requires n <= |spans|
  {
    exists j :: 0 <= j < n && Repeated(spans, j, limit) && SameLoop(spans, j, n)
  }

  /** The visit repeats, and it is the first of its loop to. */
  ghost predicate IsAlert(spans: seq<Span>, i: nat, limit: int)
    requires i < |spans|
  {
    Repeated(spans, i, limit) && !exists j :: 0 <= j < i && Repeated(spans, j, limit) && SameLoop(spans, j, i + 1)
  }

  ghost function AlertsFrom(spans: seq<Span>, i: nat, limit: int): seq<Visit>
    requires i <= |spans|
    decreases |spans| - i
  {
    if i == |spans| then []
    else (if IsAlert(spans, i, limit) then [(spans[i], Repeats(spans, i))] else []) + AlertsFrom(spans, i + 1, limit)
  }

  /** The fired flag of the replay before span `i`, carried over the span. */
  lemma LoopingStep(spans: seq<Span>, i: nat, limit: int)
    requires i < |spans|
    ensures var held := Looping(spans, i, limit) && !Resumes(spans, i) && !(IsVisit(spans[i]) && Repeats(spans, i) == 1);
      && (held <==> exists j :: 0 <= j < i && Repeated(spans, j, limit) && SameLoop(spans, j, i + 1))
      && (Looping(spans, i + 1, limit) <==> held || Repeated(spans, i, limit))
  {
    var held := Looping(spans, i, limit) && !Resumes(spans, i) && !(IsVisit(spans[i]) && Repeats(spans, i) == 1);
    if held {
      var j :| 0 <= j < i && Repeated(spans, j, limit) && SameLoop(spans, j, i);
      assert SameLoop(spans, j, i + 1);
    }
    if j :| 0 <= j < i && Repeated(spans, j, limit) && SameLoop(spans, j, i + 1) {
      assert SameLoop(spans, j, i);
    }
    if Repeated(spans, i, limit) {
      assert SameLoop(spans, i, i + 1);
    }
    if Looping(spans, i + 1, limit) {
      var j :| 0 <= j < i + 1 && Repeated(spans, j, limit) && SameLoop(spans, j, i + 1);
    }
  }

  lemma {:induction false} ReplayIsAlertsFrom(
      spans: seq<Span>, i: nat, labels: map<string, Signature>, counts: map<string, nat>, fired: bool, limit: int)
    requires i <= |spans| && TallyOf(spans, i, labels, counts) && (fired <==> Looping(spans, i, limit))
    ensures Replay(labels, counts, fired, GenerationBefore(spans, i), spans[i..], limit) == AlertsFrom(spans, i, limit)
    decreases |spans| - i
  {
    hide Observe, TallyOf, SameWork, SameLoop, Looping;
    if i < |spans| {
      var span := spans[i];
      assert spans[i..][1..] == spans[i + 1..];
      LoopingStep(spans, i, limit);
      if !IsVisit(span) {
        OtherSpansKeepTheTally(spans, i, labels, counts);
        ReplayIsAlertsFrom(spans, i + 1, labels, counts, fired && !Resumes(spans, i), limit);
      } else {
        ObserveCountsRepeats(spans, i, labels, counts);
        var seen := Observe(labels, counts, span.node, span.attrs);
        var held := fired && !Resumes(spans, i) && !seen.moved;
        ReplayIsAlertsFrom(spans, i + 1, seen.labels, seen.counts, held || seen.repeats >= limit, limit);
      }
    }
  }

  /**
   * In the order the spans ended, the alerts are exactly the visits that finish their node the `limit`-th time or later
   * in a row on the same declared work, each the first since any node moved on to other work or the run was resumed.
   */
  lemma AlertsExactlyWhen(spans: seq<Span>, limit: int)
    ensures AlertsSpec(spans, limit) == AlertsFrom(SortByEnd(spans), 0, limit)
  {
    var sorted := SortByEnd(spans);
    assert sorted[0..] == sorted;
    assert TallyOf(sorted, 0, map[], map[]);
    ReplayIsAlertsFrom(sorted, 0, map[], map[], false, limit);
  }
}
