/** groom/groom/churn.py: how often a node finished on the same work, and the alerts a batch replay of stored spans finds. */
module Churn {
  import opened Wrappers
  import opened Text

  /** Attributes by name, each value as its `str()`; the empty string is the falsy value. */
  type Attrs = map<string, string>

  /** The workflow-declared dimensions of a span. Two sorted tuples of pairs are equal exactly when these maps are. */
  type Signature = map<string, string>

  /** A decoded span of one run. `cut` is its "workhorse.cut" attribute, `events` the names of its events. */
  datatype Span = Span(
    runId: string, name: string, node: string, startTs: real, endTs: real,
    generation: Option<int>, pid: int, attrs: Attrs, cut: bool, events: set<string>)

  type Visit = (Span, nat)

  predicate Reserved(key: string) {
    StartsWith(key, "workhorse.") || key == "status_message" || key == "events"
  }

  function LabelSignature(attrs: Attrs): Signature {
    map key | key in attrs && !Reserved(key) :: attrs[key]
  }

  predicate CountsAsVisit(span: Span) {
    span.node != "" && span.name == span.node && !span.cut
  }

  /** What folding one finished visit into the tally leaves: the labels, the counts, the repeat count and whether the work moved on. */
  datatype Observed = Observed(labels: map<string, Signature>, counts: map<string, nat>, repeats: nat, moved: bool)

  function Observe(labels: map<string, Signature>, counts: map<string, nat>, node: string, attrs: Attrs): Observed {
    var signature := LabelSignature(attrs);
    if node !in labels || labels[node] != signature then
      Observed(labels[node := signature], counts[node := 1], 1, true)
    else
      var n := (if node in counts then counts[node] else 0) + 1;
      Observed(labels, counts[node := n], n, false)
  }

  // ---- the order visits ended in ----

  predicate EndsBefore(a: Span, b: Span) {
    a.endTs < b.endTs || (a.endTs == b.endTs && a.startTs <= b.startTs)
  }

  predicate InEndOrder(spans: seq<Span>) {
    forall i, j :: 0 <= i < j < |spans| ==> EndsBefore(spans[i], spans[j])
  }

  function Insert(span: Span, sorted: seq<Span>): seq<Span> {
    if sorted == [] || EndsBefore(span, sorted[0]) then [span] + sorted
    else [sorted[0]] + Insert(span, sorted[1..])
  }

  /** `sorted(spans, key=(end_ts, start_ts))`, which keeps equal keys in their order. */
  function SortByEnd(spans: seq<Span>): seq<Span> {
    if spans == [] then [] else Insert(spans[0], SortByEnd(spans[1..]))
  }

  lemma {:induction false} HeadEndsFirst(head: Span, span: Span, rest: seq<Span>)
    requires EndsBefore(head, span) && forall i :: 0 <= i < |rest| ==> EndsBefore(head, rest[i])
    ensures forall i :: 0 <= i < |Insert(span, rest)| ==> EndsBefore(head, Insert(span, rest)[i])
  {
    if rest != [] && !EndsBefore(span, rest[0]) {
      HeadEndsFirst(head, span, rest[1..]);
    }
  }

  lemma {:induction false} InsertKeepsOrder(span: Span, sorted: seq<Span>)
    requires InEndOrder(sorted)
    ensures InEndOrder(Insert(span, sorted))
    ensures multiset(Insert(span, sorted)) == multiset{span} + multiset(sorted)
  {
    if sorted == [] || EndsBefore(span, sorted[0]) {
    } else {
      var rest := sorted[1..];
      InsertKeepsOrder(span, rest);
      assert sorted == [sorted[0]] + rest;
      HeadEndsFirst(sorted[0], span, rest);
    }
  }

  /** The sort orders the spans by end and loses none. */
  lemma {:induction false} SortByEndSorts(spans: seq<Span>)
    ensures InEndOrder(SortByEnd(spans)) && multiset(SortByEnd(spans)) == multiset(spans)
  {
    if spans != [] {
      SortByEndSorts(spans[1..]);
      InsertKeepsOrder(spans[0], SortByEnd(spans[1..]));
      assert spans == [spans[0]] + spans[1..];
    }
  }

  lemma {:induction false} SortOfSorted(spans: seq<Span>)
    requires InEndOrder(spans)
    ensures SortByEnd(spans) == spans
  {
    if spans != [] {
      SortOfSorted(spans[1..]);
      assert spans == [spans[0]] + spans[1..];
    }
  }

  // ---- alerts ----

  /** The alerts a replay still finds in `spans`, given the tally, the fired flag and the generation so far. */
  function Replay(
      labels: map<string, Signature>, counts: map<string, nat>, fired: bool, generation: Option<int>,
      spans: seq<Span>, limit: int): seq<Visit>
    decreases |spans|
  {
    if spans == [] then []
    else
      var span, rest := spans[0], spans[1..];
      var resumed := span.generation.Some? && span.generation != generation;
      var fired' := fired && !(resumed && generation.Some?);
      var generation' := if resumed then span.generation else generation;
      if !CountsAsVisit(span) then Replay(labels, counts, fired', generation', rest, limit)
      else
        var seen := Observe(labels, counts, span.node, span.attrs);
        var held := fired' && !seen.moved;
        if seen.repeats >= limit && !held then
          [(span, seen.repeats)] + Replay(seen.labels, seen.counts, true, generation', rest, limit)
        else Replay(seen.labels, seen.counts, held, generation', rest, limit)
  }

  function AlertsSpec(spans: seq<Span>, limit: int): seq<Visit> {
    Replay(map[], map[], false, None, SortByEnd(spans), limit)
  }

  method Alerts(spans: seq<Span>, limit: int) returns (found: seq<Visit>)
    ensures found == AlertsSpec(spans, limit)
  {
    var labels: map<string, Signature>, counts: map<string, nat> := map[], map[];
    var fired, generation := false, None;
    found := [];
    var sorted := SortByEnd(spans);
    for i := 0 to |sorted|
      invariant found + Replay(labels, counts, fired, generation, sorted[i..], limit) == AlertsSpec(spans, limit)
    {
      var span := sorted[i];
      assert sorted[i..][1..] == sorted[i + 1..];
      if span.generation.Some? && span.generation != generation {
        if generation.Some? {
          fired := false;
        }
        generation := span.generation;
      }
      if !CountsAsVisit(span) {
        continue;
      }
      var seen := Observe(labels, counts, span.node, span.attrs);
      labels, counts := seen.labels, seen.counts;
      if seen.moved {
        fired := false;
      }
      if seen.repeats >= limit && !fired {
        fired := true;
        found := found + [(span, seen.repeats)];
      }
    }
  }

  /** Every alert is a visit of the input that repeated at least `limit` times. */
  lemma {:induction false} AlertsAreRepeatedVisits(
      labels: map<string, Signature>, counts: map<string, nat>, fired: bool, generation: Option<int>,
      spans: seq<Span>, limit: int)
    ensures forall visit :: visit in Replay(labels, counts, fired, generation, spans, limit) ==>
      visit.0 in spans && CountsAsVisit(visit.0) && visit.1 >= limit
    decreases |spans|
  {
    if spans != [] {
      var span, rest := spans[0], spans[1..];
      var resumed := span.generation.Some? && span.generation != generation;
      var fired' := fired && !(resumed && generation.Some?);
      var generation' := if resumed then span.generation else generation;
      if !CountsAsVisit(span) {
        AlertsAreRepeatedVisits(labels, counts, fired', generation', rest, limit);
      } else {
        var seen := Observe(labels, counts, span.node, span.attrs);
        var held := fired' && !seen.moved;
        AlertsAreRepeatedVisits(seen.labels, seen.counts, seen.repeats >= limit || held, generation', rest, limit);
      }
    }
  }
}
